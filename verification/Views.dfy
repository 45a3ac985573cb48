/** What an iterator over a sorted store is meant to show: the in-range entries, in walk order. */
module Views {
  import opened Basics
  import opened Bounds

  /** A stored key and its value, as the engine holds them. */
  datatype Pair = Pair(key: Bytes, value: Bytes)

  /** An entry as an iterator holds it: no value under `KeysOnly`. */
  datatype Entry = Entry(key: Bytes, value: Option<Bytes>)

  function Shown(p: Pair, keysOnly: bool): Entry {
    Entry(p.key, if keysOnly then None else Some(p.value))
  }

  function ShowAll(ps: seq<Pair>, keysOnly: bool): (r: seq<Entry>)
    ensures |r| == |ps|
    ensures forall i :: 0 <= i < |ps| ==> r[i] == Shown(ps[i], keysOnly)
  {
    seq(|ps|, i requires 0 <= i < |ps| => Shown(ps[i], keysOnly))
  }

  /** Every entry carries a value exactly when the iterator reads values. */
  predicate ShownAs(es: seq<Entry>, keysOnly: bool) {
    forall i :: 0 <= i < |es| ==> (es[i].value == None <==> keysOnly)
  }

  ghost predicate Sorted(ps: seq<Pair>) {
    forall i, j :: 0 <= i < j < |ps| ==> Less(ps[i].key, ps[j].key)
  }

  function Reverse<T>(s: seq<T>): (r: seq<T>)
    ensures |r| == |s|
    ensures forall i :: 0 <= i < |s| ==> r[i] == s[|s| - 1 - i]
  {
    if s == [] then [] else [s[|s| - 1]] + Reverse(s[..|s| - 1])
  }

  function Directed<T>(s: seq<T>, reverse: bool): seq<T> {
    if reverse then Reverse(s) else s
  }

  /** Is `key` in range and, when a target is given, at it or further along the walk? */
  predicate Wanted(b: Range, target: Option<Bytes>, key: Bytes) {
    && b.Contains(key)
    && (target.Some? ==> if b.reverse then !Less(target.value, key) else !Less(key, target.value))
  }

  function Select(ps: seq<Pair>, b: Range, target: Option<Bytes>): seq<Entry> {
    if ps == [] then []
    else
      var head := if Wanted(b, target, ps[0].key) then [Shown(ps[0], b.keysOnly)] else [];
      head + Select(ps[1..], b, target)
  }

  /** The entries a full iteration shows, in the order it shows them. */
  function View(ps: seq<Pair>, b: Range): seq<Entry> {
    Directed(Select(ps, b, None), b.reverse)
  }

  /** The entries an iteration shows from a seek to `target` on. */
  function SeekView(ps: seq<Pair>, b: Range, target: Bytes): seq<Entry> {
    Directed(Select(ps, b, Some(target)), b.reverse)
  }

  lemma {:induction false} SelectAppend(ps: seq<Pair>, qs: seq<Pair>, b: Range, target: Option<Bytes>)
    ensures Select(ps + qs, b, target) == Select(ps, b, target) + Select(qs, b, target)
  {
    if ps == [] {
      assert ps + qs == qs;
    } else {
      assert (ps + qs)[1..] == ps[1..] + qs;
      SelectAppend(ps[1..], qs, b, target);
    }
  }

  lemma {:induction false} SelectNone(ps: seq<Pair>, b: Range, target: Option<Bytes>)
    requires forall i :: 0 <= i < |ps| ==> !Wanted(b, target, ps[i].key)
    ensures Select(ps, b, target) == []
  {
    if ps != [] {
      SelectNone(ps[1..], b, target);
    }
  }

  lemma {:induction false} SelectAgrees(ps: seq<Pair>, b: Range, t: Option<Bytes>, u: Option<Bytes>)
    requires forall i :: 0 <= i < |ps| ==> (Wanted(b, t, ps[i].key) <==> Wanted(b, u, ps[i].key))
    ensures Select(ps, b, t) == Select(ps, b, u)
  {
    if ps != [] {
      SelectAgrees(ps[1..], b, t, u);
    }
  }

  /** Selection keeps every wanted pair, shown once, and nothing else. */
  lemma {:induction false} SelectMembers(ps: seq<Pair>, b: Range, target: Option<Bytes>, e: Entry)
    ensures e in Select(ps, b, target) <==>
              exists p :: p in ps && Wanted(b, target, p.key) && e == Shown(p, b.keysOnly)
  {
    if ps != [] {
      SelectMembers(ps[1..], b, target, e);
      var head := if Wanted(b, target, ps[0].key) then [Shown(ps[0], b.keysOnly)] else [];
      assert e in Select(ps, b, target) <==> e in head || e in Select(ps[1..], b, target);
      assert forall p :: p in ps <==> p == ps[0] || p in ps[1..];
    }
  }

  /** The view holds every stored pair in range, with its own value when values are read, and nothing
      else. */
  lemma ViewMembers(ps: seq<Pair>, b: Range, e: Entry)
    ensures e in View(ps, b) <==>
              exists p :: p in ps && b.Contains(p.key) && e == Entry(p.key, if b.keysOnly then None else Some(p.value))
  {
    SelectMembers(ps, b, None, e);
    var s := Select(ps, b, None);
    if e in s {
      var i :| 0 <= i < |s| && s[i] == e;
      assert Reverse(s)[|s| - 1 - i] == e;
    }
    assert forall p: Pair :: Wanted(b, None, p.key) <==> b.Contains(p.key);
    assert forall p: Pair :: Shown(p, b.keysOnly) == Entry(p.key, if b.keysOnly then None else Some(p.value));
  }

  /** Does the walk reach `key` strictly before `other`? */
  predicate Earlier(key: Bytes, other: Bytes, reverse: bool) {
    if reverse then Less(other, key) else Less(key, other)
  }

  ghost predicate InWalkOrder(es: seq<Entry>, reverse: bool) {
    forall i, j :: 0 <= i < j < |es| ==> Earlier(es[i].key, es[j].key, reverse)
  }

  lemma {:induction false} SelectSorted(ps: seq<Pair>, b: Range, target: Option<Bytes>)
    requires Sorted(ps)
    ensures InWalkOrder(Select(ps, b, target), false)
  {
    if ps != [] {
      SelectSorted(ps[1..], b, target);
      var rest := Select(ps[1..], b, target);
      forall j | 0 <= j < |rest|
        ensures Less(ps[0].key, rest[j].key)
      {
        SelectMembers(ps[1..], b, target, rest[j]);
        var p :| p in ps[1..] && rest[j] == Shown(p, b.keysOnly);
      }
    }
  }

  lemma ViewInWalkOrder(ps: seq<Pair>, b: Range)
    requires Sorted(ps)
    ensures InWalkOrder(View(ps, b), b.reverse)
    ensures var v := View(ps, b);
            forall i, j :: 0 <= i < j < |v| ==> if b.reverse then Less(v[j].key, v[i].key) else Less(v[i].key, v[j].key)
  {
    SelectSorted(ps, b, None);
  }

  /** How many leading entries of a walk come strictly before `target`. */
  function CountEarlier(es: seq<Entry>, target: Bytes, reverse: bool): (n: nat)
    ensures n <= |es|
    ensures forall i :: 0 <= i < n ==> Earlier(es[i].key, target, reverse)
    ensures n < |es| ==> !Earlier(es[n].key, target, reverse)
  {
    if es == [] || !Earlier(es[0].key, target, reverse) then 0
    else 1 + CountEarlier(es[1..], target, reverse)
  }

  lemma CountEarlierSplits(es: seq<Entry>, target: Bytes, reverse: bool)
    requires InWalkOrder(es, reverse)
    ensures forall i :: 0 <= i < |es| ==>
              (Earlier(es[i].key, target, reverse) <==> i < CountEarlier(es, target, reverse))
  {
    var n := CountEarlier(es, target, reverse);
    forall i | n < i < |es|
      ensures !Earlier(es[i].key, target, reverse)
    {
      assert Earlier(es[n].key, es[i].key, reverse);
      if Earlier(es[i].key, target, reverse) {
        LessTransitiveEither(es[n].key, es[i].key, target, reverse);
      }
    }
  }

  lemma LessTransitiveEither(a: Bytes, b: Bytes, c: Bytes, reverse: bool)
    requires Earlier(a, b, reverse) && Earlier(b, c, reverse)
    ensures Earlier(a, c, reverse)
  {
    if reverse { LessTransitive(c, b, a); } else { LessTransitive(a, b, c); }
  }

  /** Keep the entries of a walk from `target` on. */
  function From(es: seq<Entry>, target: Bytes, reverse: bool): seq<Entry> {
    if es == [] then []
    else
      var head := if Earlier(es[0].key, target, reverse) then [] else [es[0]];
      head + From(es[1..], target, reverse)
  }

  lemma {:induction false} FromAppend(es: seq<Entry>, fs: seq<Entry>, target: Bytes, reverse: bool)
    ensures From(es + fs, target, reverse) == From(es, target, reverse) + From(fs, target, reverse)
  {
    if es == [] {
      assert es + fs == fs;
    } else {
      assert (es + fs)[1..] == es[1..] + fs;
      FromAppend(es[1..], fs, target, reverse);
    }
  }

  lemma {:induction false} FromReverse(es: seq<Entry>, target: Bytes, reverse: bool)
    ensures From(Reverse(es), target, reverse) == Reverse(From(es, target, reverse))
  {
    if es != [] {
      var init, last := es[..|es| - 1], es[|es| - 1];
      assert es == init + [last];
      FromReverse(init, target, reverse);
      FromAppend(init, [last], target, reverse);
      FromAppend([last], Reverse(init), target, reverse);
      assert From([last], target, reverse) == if Earlier(last.key, target, reverse) then [] else [last];
      var kept := From(init, target, reverse);
      assert (kept + [last])[..|kept|] == kept;
      assert kept + [] == kept;
    }
  }

  lemma {:induction false} FromSelect(ps: seq<Pair>, b: Range, target: Bytes)
    ensures From(Select(ps, b, None), target, b.reverse) == Select(ps, b, Some(target))
  {
    if ps != [] {
      FromSelect(ps[1..], b, target);
      var head := if Wanted(b, None, ps[0].key) then [Shown(ps[0], b.keysOnly)] else [];
      FromAppend(head, Select(ps[1..], b, None), target, b.reverse);
      if head != [] {
        assert head[1..] == [];
      }
    }
  }

  lemma {:induction false} FromIsSuffix(es: seq<Entry>, target: Bytes, reverse: bool)
    requires InWalkOrder(es, reverse)
    ensures From(es, target, reverse) == es[CountEarlier(es, target, reverse)..]
  {
    if es != [] {
      FromIsSuffix(es[1..], target, reverse);
      if !Earlier(es[0].key, target, reverse) {
        CountEarlierSplits(es, target, reverse);
        assert CountEarlier(es[1..], target, reverse) == 0 by {
          assert |es| > 1 ==> !Earlier(es[1].key, target, reverse);
        }
      }
    }
  }

  /** Seeking is skipping: what a seek shows is what the full walk shows,
      less the entries before the target. */
  lemma SeekViewIsSuffix(ps: seq<Pair>, b: Range, target: Bytes)
    requires Sorted(ps)
    ensures SeekView(ps, b, target) == View(ps, b)[CountEarlier(View(ps, b), target, b.reverse)..]
  {
    ViewInWalkOrder(ps, b);
    FromIsSuffix(View(ps, b), target, b.reverse);
    FromSelect(ps, b, target);
    if b.reverse {
      FromReverse(Select(ps, b, None), target, true);
    }
  }

  /** A seek lands on the wanted key that the walk would come to first, and nowhere exactly when no
      stored key is wanted. */
  lemma SeekLandsNearest(ps: seq<Pair>, b: Range, target: Bytes)
    requires Sorted(ps)
    ensures SeekView(ps, b, target) == [] <==> !exists p :: p in ps && Wanted(b, Some(target), p.key)
    ensures SeekView(ps, b, target) != [] ==>
              var k := SeekView(ps, b, target)[0].key;
              && Wanted(b, Some(target), k) && b.Contains(k)
              && (if b.reverse then !Less(target, k) else !Less(k, target))
              && (exists p :: p in ps && p.key == k)
              && forall p :: p in ps && Wanted(b, Some(target), p.key) ==> p.key == k || Earlier(k, p.key, b.reverse)
  {
    var s, v := Select(ps, b, Some(target)), SeekView(ps, b, target);
    forall p | p in ps && Wanted(b, Some(target), p.key)
      ensures v != [] && (p.key == v[0].key || Earlier(v[0].key, p.key, b.reverse))
    {
      WantedIsBehind(ps, b, target, p);
    }
    if v != [] {
      assert v[0] in s;
      SelectMembers(ps, b, Some(target), v[0]);
    }
  }

  lemma WantedIsBehind(ps: seq<Pair>, b: Range, target: Bytes, p: Pair)
    requires Sorted(ps) && p in ps && Wanted(b, Some(target), p.key)
    ensures var v := SeekView(ps, b, target); v != [] && (p.key == v[0].key || Earlier(v[0].key, p.key, b.reverse))
  {
    hide Select, Wanted, Less;
    var s, v := Select(ps, b, Some(target)), SeekView(ps, b, target);
    SelectSorted(ps, b, Some(target));
    SelectMembers(ps, b, Some(target), Shown(p, b.keysOnly));
    var i :| 0 <= i < |s| && s[i] == Shown(p, b.keysOnly);
    assert v[if b.reverse then |s| - 1 - i else i] == s[i];
  }

  lemma EarlierCount(ps: seq<Pair>, b: Range, k: nat)
    requires Sorted(ps) && k < |View(ps, b)|
    ensures CountEarlier(View(ps, b), View(ps, b)[k].key, b.reverse) == k
  {
    hide View;
    var v := View(ps, b);
    ViewInWalkOrder(ps, b);
    CountEarlierSplits(v, v[k].key, b.reverse);
    LessIrreflexive(v[k].key);
    assert forall i :: 0 <= i < k ==> Earlier(v[i].key, v[k].key, b.reverse);
  }
}
