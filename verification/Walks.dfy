/** What a positioned source will yield from now on, and why that is the view it should show. */
module Walks {
  import opened Basics
  import opened Bounds
  import opened Views
  import opened Engine

  /** The entries the following advances yield and the failure, if any, they then meet. After a
      `sticky` failure every further advance fails again; otherwise it reports exhaustion. */
  datatype Future = Future(rest: seq<Entry>, failure: Option<Failure>, sticky: bool) {
    function Outcome(): (r: Result<bool>)
      ensures r == Ok(true) <==> rest != []
    {
      if rest != [] then Ok(true)
      else if failure.Some? then Err(failure.value)
      else Ok(false)
    }

    /** Where one advance lands. */
    function Here(): Option<Entry> {
      if rest != [] then Some(rest[0]) else None
    }

    /** What remains after that advance. */
    function Beyond(): Future {
      if rest != [] then this.(rest := rest[1..])
      else if sticky then this
      else Nothing
    }

    function Drop(n: nat): (f: Future)
      requires n <= |rest|
      ensures |f.rest| == |rest| - n && f.failure == failure
    {
      this.(rest := rest[n..])
    }

    lemma DropOne(n: nat)
      requires n < |rest|
      ensures Drop(n).Beyond() == Drop(n + 1)
      ensures Drop(n).rest[0] == rest[n] && Drop(n).Here() == Some(rest[n])
    {
    }
  }

  const Nothing: Future := Future([], None, false)

  /** The replies to `n` single advances into `f`, each with the entry it lands on. */
  function Stepped(f: Future, n: nat): (replies: seq<(Result<bool>, Option<Entry>)>)
    ensures |replies| == n
    decreases n
  {
    if n == 0 then [] else [(f.Outcome(), f.Here())] + Stepped(f.Beyond(), n - 1)
  }

  // ---- snapshot cursor ----

  function Onward(b: Range, i: int): int {
    if b.reverse then i - 1 else i + 1
  }

  /** What a snapshot cursor yields by landing on index `i` and stepping on from there. */
  function Landing(ps: seq<Pair>, bad: set<Bytes>, b: Range, i: int): Future
    decreases if b.reverse then i + 1 else |ps| - i
  {
    if !(0 <= i < |ps|) then Nothing
    else if ps[i].key in bad then Future([], Some(ReadError(ps[i].key)), false)
    else if !b.Contains(ps[i].key) then Nothing
    else
      var f := Landing(ps, bad, b, Onward(b, i));
      f.(rest := [Shown(ps[i], b.keysOnly)] + f.rest)
  }

  lemma {:induction false} LandingIsPlain(ps: seq<Pair>, bad: set<Bytes>, b: Range, i: int)
    ensures !Landing(ps, bad, b, i).sticky && ShownAs(Landing(ps, bad, b, i).rest, b.keysOnly)
    decreases if b.reverse then i + 1 else |ps| - i
  {
    if 0 <= i < |ps| && ps[i].key !in bad && b.Contains(ps[i].key) {
      LandingIsPlain(ps, bad, b, Onward(b, i));
    }
  }

  /** Where a restart puts a snapshot cursor. */
  function StartIndex(ps: seq<Pair>, bad: set<Bytes>, b: Range): int
    requires Sorted(ps)
  {
    if !b.reverse then
      if b.start.Some? then CountBelow(ps, b.start.value) else 0
    else if b.end.Some? then
      var i := CountUpTo(ps, b.end.value) - 1;
      if 0 <= i && ps[i].key !in bad && ps[i].key == b.end.value then i - 1 else i
    else |ps| - 1
  }

  /** Where a seek puts a snapshot cursor. */
  function SeekIndex(ps: seq<Pair>, bad: set<Bytes>, b: Range, target: Bytes): int
    requires Sorted(ps)
  {
    if !b.reverse then
      CountBelow(ps, if b.start.Some? && Less(target, b.start.value) then b.start.value else target)
    else if b.end.Some? && !Less(target, b.end.value) then StartIndex(ps, bad, b)
    else CountUpTo(ps, target) - 1
  }

  /** What restarting a snapshot walk yields. */
  function Started(ps: seq<Pair>, bad: set<Bytes>, b: Range): Future
    requires Sorted(ps)
  {
    Landing(ps, bad, b, StartIndex(ps, bad, b))
  }

  // ---- transaction stream ----

  function Streamed(s: TxnScanStream, keysOnly: bool): Future {
    Future(ShowAll(s.rest, keysOnly), s.status, s.status.Some?)
  }

  /** The range a seek rebuilds a transaction stream over. */
  function SeekSpan(b: Range, target: Bytes): (Option<Bytes>, Option<Bytes>) {
    if !b.reverse then
      (Some(if b.start.Some? && Less(target, b.start.value) then b.start.value else target), b.end)
    else
      (b.start, if b.end.Some? && !Less(target, b.end.value) then b.end else Some(target + [0]))
  }

  // ---- either source ----

  /** What an iterator walks: a snapshot and the keys of it that cannot be read, a transaction at some
      moment, or one that is resolved. */
  datatype Contents = Stored(pairs: seq<Pair>, bad: set<Bytes>) | Buffered(m: Merged) | Resolved {
    ghost predicate Ordered() {
      match this case Stored(ps, _) => Sorted(ps) case Buffered(m) => Sorted(m.pairs) case Resolved => true
    }

    function Pairs(): seq<Pair> {
      match this case Stored(ps, _) => ps case Buffered(m) => m.pairs case Resolved => []
    }

    /** What a walk over them shows when nothing stops it. */
    function Shows(b: Range): seq<Entry> {
      match this case Stored(ps, _) => View(ps, b) case Buffered(m) => View(m.pairs, b) case Resolved => []
    }

    /** What restarting over them yields. */
    function StartOf(b: Range): Future
      requires Stored? ==> Sorted(pairs)
    {
      match this
      case Stored(ps, bad) => Started(ps, bad, b)
      case Buffered(m) => Streamed(m.ScanStreamIn(b.start, b.end, b.reverse), b.keysOnly)
      case Resolved => Future([], Some(Discarded), false)
    }

    /** What seeking `target` yields. */
    function SeekOf(b: Range, target: Bytes): Future
      requires Stored? ==> Sorted(pairs)
    {
      match this
      case Stored(ps, bad) => Landing(ps, bad, b, SeekIndex(ps, bad, b, target))
      case Buffered(m) =>
        var span := SeekSpan(b, target);
        Streamed(m.ScanStreamIn(span.0, span.1, b.reverse), b.keysOnly)
      case Resolved => Future([], Some(Discarded), false)
    }

    /** Only a transaction changes, and it stays one. */
    function Changed(now: Contents): Contents {
      if Stored? || now.Stored? then this else now
    }

    predicate NothingBad() {
      match this case Stored(_, bad) => bad == {} case Buffered(m) => m.bad == {} case Resolved => false
    }
  }

  /** Does a walk that starts at `target`, if given, and at its end of the range reach `key`, were it
      not stopped by the other end? */
  predicate Reachable(b: Range, target: Option<Bytes>, key: Bytes) {
    if b.reverse then
      (b.end.Some? ==> Less(key, b.end.value)) && (target.Some? ==> !Less(target.value, key))
    else
      (b.start.Some? ==> !Less(key, b.start.value)) && (target.Some? ==> !Less(key, target.value))
  }

  predicate Past(b: Range, target: Option<Bytes>, key: Bytes) {
    Reachable(b, target, key) && !b.Contains(key)
  }

  /** The first stored key such a walk meets behind the range. */
  function PastKey(ps: seq<Pair>, b: Range, target: Option<Bytes>): Option<Bytes> {
    if ps == [] then None
    else if b.reverse then
      var last := |ps| - 1;
      if Past(b, target, ps[last].key) then Some(ps[last].key) else PastKey(ps[..last], b, target)
    else
      if Past(b, target, ps[0].key) then Some(ps[0].key) else PastKey(ps[1..], b, target)
  }

  lemma {:induction false} PastKeyIsNearest(ps: seq<Pair>, b: Range, target: Option<Bytes>)
    requires Sorted(ps)
    ensures PastKey(ps, b, target) == None <==> forall p :: p in ps ==> !Past(b, target, p.key)
    ensures PastKey(ps, b, target).Some? ==>
              var k := PastKey(ps, b, target).value;
              && Past(b, target, k) && (exists p :: p in ps && p.key == k)
              && forall p :: p in ps && Past(b, target, p.key) ==> p.key == k || Earlier(k, p.key, b.reverse)
  {
    hide Past, Less;
    if ps != [] {
      var last := |ps| - 1;
      var first, others := if b.reverse then ps[last] else ps[0], if b.reverse then ps[..last] else ps[1..];
      assert forall p :: p in ps <==> p == first || p in others;
      assert first in ps;
      PastKeyIsNearest(others, b, target);
    }
  }

  lemma {:induction false} NonePast(ps: seq<Pair>, b: Range, target: Option<Bytes>)
    requires forall p :: p in ps ==> !Past(b, target, p.key)
    ensures PastKey(ps, b, target) == None
  {
    if ps != [] { NonePast(if b.reverse then ps[..|ps| - 1] else ps[1..], b, target); }
  }

  /** Keys out of reach do not count. */
  lemma {:induction false} PastKeyBehind(out: seq<Pair>, ps: seq<Pair>, b: Range, target: Option<Bytes>)
    requires forall p :: p in out ==> !Reachable(b, target, p.key)
    ensures PastKey(if b.reverse then ps + out else out + ps, b, target) == PastKey(ps, b, target)
  {
    if out == [] {
      assert ps + out == ps == out + ps;
    } else if b.reverse {
      var init := out[..|out| - 1];
      PastKeyBehind(init, ps, b, target);
      assert (ps + out)[..|ps + out| - 1] == ps + init;
    } else {
      PastKeyBehind(out[1..], ps, b, target);
      assert (out + ps)[1..] == out[1..] + ps;
    }
  }

  /** A future shows a view faithfully: it yields the entries up to the first bad key, whole when there
      is none, and reports the key that stopped it. Behind a whole view one more key may be read, the
      one the walk steps on to leave the range: `past`. */
  ghost predicate Faithful(f: Future, view: seq<Entry>, past: Option<Bytes>, bad: set<Bytes>) {
    && f.rest <= view
    && (forall i :: 0 <= i < |f.rest| ==> f.rest[i].key !in bad)
    && if |f.rest| < |view| then
         view[|f.rest|].key in bad && f.failure == Some(ReadError(view[|f.rest|].key))
       else
         f.failure == if past.Some? && past.value in bad then Some(ReadError(past.value)) else None
  }

  /** A reverse walk below `end` starts by landing on `end` itself when it is stored. */
  ghost predicate EndUnreadable(ps: seq<Pair>, bad: set<Bytes>, b: Range) {
    && b.reverse && b.end.Some? && b.end.value in bad
    && exists p :: p in ps && p.key == b.end.value
  }

  lemma FaithfulCons(e: Entry, f: Future, view: seq<Entry>, past: Option<Bytes>, bad: set<Bytes>)
    requires Faithful(f, view, past, bad) && e.key !in bad
    ensures Faithful(f.(rest := [e] + f.rest), [e] + view, past, bad)
  {
  }

  lemma {:induction false} LandingForward(ps: seq<Pair>, bad: set<Bytes>, b: Range, target: Option<Bytes>, i: nat)
    requires Sorted(ps) && !b.reverse && i <= |ps|
    requires forall j :: i <= j < |ps| ==> Reachable(b, target, ps[j].key)
    ensures Faithful(Landing(ps, bad, b, i), Select(ps[i..], b, target), PastKey(ps[i..], b, target), bad)
    decreases |ps| - i
  {
    if i < |ps| {
      assert ps[i..] == [ps[i]] + ps[i + 1..];
      if b.Contains(ps[i].key) {
        LandingForward(ps, bad, b, target, i + 1);
        if ps[i].key !in bad {
          FaithfulCons(Shown(ps[i], b.keysOnly), Landing(ps, bad, b, i + 1), Select(ps[i + 1..], b, target),
                       PastKey(ps[i + 1..], b, target), bad);
        }
      } else {
        forall j | i <= j < |ps|
          ensures !b.Contains(ps[j].key)
        {
          if i < j { LessMixed(b.end.value, ps[i].key, ps[j].key); LessTotal(b.end.value, ps[j].key); }
        }
        SelectNone(ps[i..], b, target);
      }
    }
  }

  lemma {:induction false} LandingReverse(ps: seq<Pair>, bad: set<Bytes>, b: Range, target: Option<Bytes>, i: int)
    requires Sorted(ps) && b.reverse && -1 <= i < |ps|
    requires forall j :: 0 <= j <= i ==> Reachable(b, target, ps[j].key)
    ensures Faithful(Landing(ps, bad, b, i), Reverse(Select(ps[..i + 1], b, target)), PastKey(ps[..i + 1], b, target), bad)
    decreases i + 1
  {
    hide Select, Reverse, Less;
    if 0 <= i {
      SelectUpTo(ps, b, target, i);
      var e := Shown(ps[i], b.keysOnly);
      assert ps[..i + 1][..i] == ps[..i] && ps[..i + 1][i] == ps[i];
      if b.Contains(ps[i].key) {
        assert Reverse(Select(ps[..i + 1], b, target)) == [e] + Reverse(Select(ps[..i], b, target));
        LandingReverse(ps, bad, b, target, i - 1);
        if ps[i].key !in bad {
          FaithfulCons(e, Landing(ps, bad, b, i - 1), Reverse(Select(ps[..i], b, target)), PastKey(ps[..i], b, target), bad);
        }
      } else {
        forall j | 0 <= j <= i
          ensures !Wanted(b, target, ps[j].key)
        {
          if j < i { LessTransitive(ps[j].key, ps[i].key, b.start.value); }
        }
        SelectNone(ps[..i + 1], b, target);
      }
    } else {
      SelectNone(ps[..i + 1], b, target);
    }
  }

  /** Reversed, a selection grows at its front. */
  lemma SelectUpTo(ps: seq<Pair>, b: Range, target: Option<Bytes>, i: nat)
    requires i < |ps|
    ensures Reverse(Select(ps[..i + 1], b, target)) ==
              (if Wanted(b, target, ps[i].key) then [Shown(ps[i], b.keysOnly)] else [])
              + Reverse(Select(ps[..i], b, target))
  {
    var below := Select(ps[..i], b, target);
    var last := Select([ps[i]], b, target);
    assert ps[..i + 1] == ps[..i] + [ps[i]];
    SelectAppend(ps[..i], [ps[i]], b, target);
    assert last == if Wanted(b, target, ps[i].key) then [Shown(ps[i], b.keysOnly)] else [];
    assert (below + last)[..|below|] == below;
    if last == [] {
      assert below + last == below;
    }
  }

  /** A forward walk from index `i` shows everything wanted, when nothing before `i` is in reach. */
  lemma ForwardFromIndex(ps: seq<Pair>, bad: set<Bytes>, b: Range, target: Option<Bytes>, i: nat)
    requires Sorted(ps) && !b.reverse && i <= |ps|
    requires forall j :: 0 <= j < |ps| ==> (Reachable(b, target, ps[j].key) <==> i <= j)
    ensures Faithful(Landing(ps, bad, b, i), Select(ps, b, target), PastKey(ps, b, target), bad)
  {
    assert ps == ps[..i] + ps[i..];
    SelectAppend(ps[..i], ps[i..], b, target);
    SelectNone(ps[..i], b, target);
    PastKeyBehind(ps[..i], ps[i..], b, target);
    LandingForward(ps, bad, b, target, i);
  }

  /** A reverse walk from index `i` shows everything wanted, when nothing after `i` is in reach. */
  lemma ReverseFromIndex(ps: seq<Pair>, bad: set<Bytes>, b: Range, target: Option<Bytes>, i: int)
    requires Sorted(ps) && b.reverse && -1 <= i < |ps|
    requires forall j :: 0 <= j < |ps| ==> (Reachable(b, target, ps[j].key) <==> j <= i)
    ensures Faithful(Landing(ps, bad, b, i), Reverse(Select(ps, b, target)), PastKey(ps, b, target), bad)
  {
    hide Select, Landing, PastKey, Reverse, Less, Faithful;
    var below, above := ps[..i + 1], ps[i + 1..];
    assert ps == below + above;
    SelectAppend(below, above, b, target);
    SelectNone(above, b, target);
    assert Select(below, b, target) + [] == Select(below, b, target);
    PastKeyBehind(above, below, b, target);
    LandingReverse(ps, bad, b, target, i);
  }

  /** Where the keys below, at and above a reverse walk's end lie. */
  lemma ReverseStartSplits(ps: seq<Pair>, bad: set<Bytes>, b: Range)
    requires Sorted(ps) && b.reverse && b.end.Some?
    ensures var i := StartIndex(ps, bad, b);
            && -1 <= i < |ps|
            && (forall j :: i < j < |ps| ==> !Less(ps[j].key, b.end.value))
            && (forall j :: 0 <= j < i ==> Less(ps[j].key, b.end.value))
            && (EndUnreadable(ps, bad, b) <==> 0 <= i && ps[i].key == b.end.value)
            && (EndUnreadable(ps, bad, b) ==> ps[i].key in bad)
            && (!EndUnreadable(ps, bad, b) && 0 <= i ==> Less(ps[i].key, b.end.value))
  {
    var end, n: int := b.end.value, CountUpTo(ps, b.end.value);
    forall j | 0 <= j < |ps|
      ensures j >= n ==> !Less(ps[j].key, end)
      ensures j < n - 1 ==> Less(ps[j].key, end) && ps[j].key != end
    {
      LessTotal(ps[j].key, end);
      if j < n - 1 { LessMixed(ps[j].key, ps[n - 1].key, end); LessTotal(ps[n - 1].key, end); }
    }
    LessIrreflexive(end);
    if 0 < n { LessTotal(ps[n - 1].key, end); }
    if p :| p in ps && p.key == end {
      var k :| 0 <= k < |ps| && ps[k] == p;
      assert k == n - 1;
    }
  }

  /** A restart of a snapshot cursor shows the view faithfully, unless the walk is reversed and its
      excluded end cannot be read: then it fails on that key before showing anything. */
  lemma StartIsFaithful(ps: seq<Pair>, bad: set<Bytes>, b: Range)
    requires Sorted(ps)
    ensures var f := Started(ps, bad, b);
            if EndUnreadable(ps, bad, b) then f == Future([], Some(ReadError(b.end.value)), false)
            else Faithful(f, View(ps, b), PastKey(ps, b, None), bad)
  {
    var i := StartIndex(ps, bad, b);
    if !b.reverse {
      ForwardFromIndex(ps, bad, b, None, i);
    } else {
      if b.end.Some? {
        ReverseStartSplits(ps, bad, b);
      }
      if !EndUnreadable(ps, bad, b) {
        ReverseFromIndex(ps, bad, b, None, i);
      }
    }
  }

  lemma ClampedTarget(start: Bytes, target: Bytes, key: Bytes)
    ensures Less(key, if Less(target, start) then start else target) <==> Less(key, start) || Less(key, target)
  {
    LessTotal(target, start);
    LessMixed(key, target, start);
    LessMixed(key, start, target);
  }

  /** As `StartIsFaithful`, for a seek; one at or above the end is a restart. */
  lemma SeekIsFaithful(ps: seq<Pair>, bad: set<Bytes>, b: Range, target: Bytes)
    requires Sorted(ps)
    ensures var f := Landing(ps, bad, b, SeekIndex(ps, bad, b, target));
            if EndUnreadable(ps, bad, b) && !Less(target, b.end.value)
            then f == Future([], Some(ReadError(b.end.value)), false)
            else Faithful(f, SeekView(ps, b, target), PastKey(ps, b, Some(target)), bad)
  {
    var i := SeekIndex(ps, bad, b, target);
    if !b.reverse {
      if b.start.Some? {
        forall key { ClampedTarget(b.start.value, target, key); }
      }
      ForwardFromIndex(ps, bad, b, Some(target), i);
    } else if b.end.Some? && !Less(target, b.end.value) {
      SeekAboveEnd(ps, b, target);
      StartIsFaithful(ps, bad, b);
    } else {
      if b.end.Some? {
        forall key { LessMixed(key, target, b.end.value); }
      }
      ReverseFromIndex(ps, bad, b, Some(target), i);
    }
  }

  lemma SeekAboveEnd(ps: seq<Pair>, b: Range, target: Bytes)
    requires b.reverse && b.end.Some? && !Less(target, b.end.value)
    ensures SeekView(ps, b, target) == View(ps, b)
    ensures PastKey(ps, b, Some(target)) == PastKey(ps, b, None)
  {
    forall key
      ensures Reachable(b, Some(target), key) <==> Reachable(b, None, key)
      ensures Wanted(b, Some(target), key) <==> Wanted(b, None, key)
    {
      LessMixed(key, b.end.value, target);
      LessTotal(key, target);
    }
    SelectAgrees(ps, b, Some(target), None);
    PastKeyAgrees(ps, b, Some(target), None);
  }

  lemma {:induction false} PastKeyAgrees(ps: seq<Pair>, b: Range, t: Option<Bytes>, u: Option<Bytes>)
    requires forall key :: Reachable(b, t, key) <==> Reachable(b, u, key)
    ensures PastKey(ps, b, t) == PastKey(ps, b, u)
  {
    if ps != [] {
      PastKeyAgrees(if b.reverse then ps[..|ps| - 1] else ps[1..], b, t, u);
    }
  }

  // ---- the transaction stream shows the same thing ----

  lemma ShowAllAppend(ps: seq<Pair>, qs: seq<Pair>, keysOnly: bool)
    ensures ShowAll(ps + qs, keysOnly) == ShowAll(ps, keysOnly) + ShowAll(qs, keysOnly)
  {
  }

  lemma {:induction false} WithinIsSelect(ps: seq<Pair>, b: Range, target: Option<Bytes>, span: (Option<Bytes>, Option<Bytes>))
    requires forall i :: 0 <= i < |ps| ==> (InSpan(span.0, span.1, ps[i].key) <==> Wanted(b, target, ps[i].key))
    ensures ShowAll(Within(ps, span.0, span.1), b.keysOnly) == Select(ps, b, target)
  {
    if ps != [] {
      WithinIsSelect(ps[1..], b, target, span);
      var head := if InSpan(span.0, span.1, ps[0].key) then [ps[0]] else [];
      ShowAllAppend(head, Within(ps[1..], span.0, span.1), b.keysOnly);
      assert head == [] || ShowAll(head, b.keysOnly) == [Shown(ps[0], b.keysOnly)];
    }
  }

  /** A seek's rebuilt range holds exactly the keys a seek may land on or walk to. The reverse case
      rests on `target ++ [0]` being the immediate successor of `target`. */
  lemma SeekSpanIsWanted(b: Range, target: Bytes, key: Bytes)
    ensures InSpan(SeekSpan(b, target).0, SeekSpan(b, target).1, key) <==> Wanted(b, Some(target), key)
  {
    if !b.reverse {
      if b.start.Some? {
        LessTotal(target, b.start.value);
        LessMixed(b.start.value, target, key);
        LessMixed(target, b.start.value, key);
        LessTotal(key, target);
        LessTotal(key, b.start.value);
      }
    } else {
      ZeroByteIsSuccessor(target, key);
      if b.end.Some? {
        LessMixed(key, b.end.value, target);
        LessMixed(key, target, b.end.value);
        LessTotal(key, target);
      }
    }
  }

  lemma StreamIsFaithful(m: Merged, b: Range, target: Option<Bytes>, span: (Option<Bytes>, Option<Bytes>))
    requires forall key :: InSpan(span.0, span.1, key) <==> Wanted(b, target, key)
    ensures Faithful(Streamed(m.ScanStreamIn(span.0, span.1, b.reverse), b.keysOnly),
                     Directed(Select(m.pairs, b, target), b.reverse), None, m.bad)
  {
    hide Select, Within, InSpan, Wanted, Directed, Readable, ShowAll, Faithful;
    var inside := Within(m.pairs, span.0, span.1);
    WithinIsSelect(m.pairs, b, target, span);
    DirectedShown(inside, b.keysOnly, b.reverse);
    CaptureIsFaithful(Directed(inside, b.reverse), m.bad, b.keysOnly);
  }

  lemma {:induction false} WithinMembers(ps: seq<Pair>, start: Option<Bytes>, end: Option<Bytes>, p: Pair)
    ensures p in Within(ps, start, end) <==> p in ps && InSpan(start, end, p.key)
  {
    if ps != [] {
      WithinMembers(ps[1..], start, end, p);
      assert ps == [ps[0]] + ps[1..];
    }
  }

  /** The stored pairs a full walk shows, in the order it shows them. */
  function PairsInView(ps: seq<Pair>, b: Range): seq<Pair> {
    Directed(Within(ps, b.start, b.end), b.reverse)
  }

  lemma ViewIsPairs(ps: seq<Pair>, b: Range)
    ensures var qs, v := PairsInView(ps, b), View(ps, b);
            && |qs| == |v|
            && (forall i :: 0 <= i < |v| ==> v[i].key == qs[i].key && v[i].value == if b.keysOnly then None else Some(qs[i].value))
            && (forall p :: p in qs <==> p in ps && b.Contains(p.key))
  {
    hide Within, Select, InSpan;
    WithinIsSelect(ps, b, None, (b.start, b.end));
    DirectedShown(Within(ps, b.start, b.end), b.keysOnly, b.reverse);
    forall p
      ensures p in PairsInView(ps, b) <==> p in ps && b.Contains(p.key)
    {
      WithinMembers(ps, b.start, b.end, p);
      SameMembers(Within(ps, b.start, b.end), b.reverse, p);
    }
  }

  lemma SameMembers<T>(s: seq<T>, reverse: bool, p: T)
    ensures p in Directed(s, reverse) <==> p in s
  {
    var d := Directed(s, reverse);
    if p in s {
      var i :| 0 <= i < |s| && s[i] == p;
      assert d[if reverse then |s| - 1 - i else i] == p;
    }
  }

  lemma DirectedShown(ps: seq<Pair>, keysOnly: bool, reverse: bool)
    ensures ShowAll(Directed(ps, reverse), keysOnly) == Directed(ShowAll(ps, keysOnly), reverse)
  {
  }

  lemma CaptureIsFaithful(all: seq<Pair>, bad: set<Bytes>, keysOnly: bool)
    ensures Faithful(Streamed(Capture(all, bad), keysOnly), ShowAll(all, keysOnly), None, bad)
  {
    var shown, whole := ShowAll(Readable(all, bad), keysOnly), ShowAll(all, keysOnly);
    assert shown == whole[..|shown|];
  }

  lemma StreamStartIsFaithful(m: Merged, b: Range)
    ensures Faithful(Streamed(m.ScanStreamIn(b.start, b.end, b.reverse), b.keysOnly), View(m.pairs, b), None, m.bad)
  {
    StreamIsFaithful(m, b, None, (b.start, b.end));
  }

  lemma StreamSeekIsFaithful(m: Merged, b: Range, target: Bytes)
    ensures var span := SeekSpan(b, target);
            Faithful(Streamed(m.ScanStreamIn(span.0, span.1, b.reverse), b.keysOnly),
                     SeekView(m.pairs, b, target), None, m.bad)
  {
    forall key
      ensures InSpan(SeekSpan(b, target).0, SeekSpan(b, target).1, key) <==> Wanted(b, Some(target), key)
    {
      SeekSpanIsWanted(b, target, key);
    }
    StreamIsFaithful(m, b, Some(target), SeekSpan(b, target));
  }

  /** Over the same readable contents a snapshot cursor and a transaction stream yield the same
      entries from every seek and every restart. */
  lemma SourcesAgree(ps: seq<Pair>, b: Range, target: Bytes)
    requires Sorted(ps)
    ensures Started(ps, {}, b).rest
         == Streamed(Merged(ps, {}).ScanStreamIn(b.start, b.end, b.reverse), b.keysOnly).rest
         == View(ps, b)
    ensures Landing(ps, {}, b, SeekIndex(ps, {}, b, target)).rest
         == Streamed(Merged(ps, {}).ScanStreamIn(SeekSpan(b, target).0, SeekSpan(b, target).1, b.reverse), b.keysOnly).rest
         == SeekView(ps, b, target)
  {
    hide View, SeekView, Landing, StartIndex, SeekIndex, PastKey, Merged.ScanStreamIn;
    StartIsFaithful(ps, {}, b);
    SeekIsFaithful(ps, {}, b, target);
    StreamStartIsFaithful(Merged(ps, {}), b);
    StreamSeekIsFaithful(Merged(ps, {}), b, target);
  }

  /** Whatever is unreadable, a restart shows a prefix of the view and a seek one of the view from its
      target on. */
  lemma ShowsPrefix(c: Contents, b: Range, target: Bytes)
    requires c.Ordered()
    ensures c.StartOf(b).rest <= c.Shows(b)
    ensures c.SeekOf(b, target).rest <= c.Shows(b)[CountEarlier(c.Shows(b), target, b.reverse)..]
  {
    hide View, SeekView, Landing, StartIndex, SeekIndex, PastKey, Merged.ScanStreamIn;
    match c
    case Stored(ps, bad) =>
      StartIsFaithful(ps, bad, b);
      SeekIsFaithful(ps, bad, b, target);
      SeekViewIsSuffix(ps, b, target);
    case Buffered(m) =>
      StreamStartIsFaithful(m, b);
      StreamSeekIsFaithful(m, b, target);
      SeekViewIsSuffix(m.pairs, b, target);
    case Resolved =>
  }

  /** Contents that can be read show their view, whole, from the start or from the target. */
  lemma ReadableShows(c: Contents, b: Range, target: Bytes)
    requires c.Ordered() && c.NothingBad()
    ensures c.StartOf(b).failure == None && c.StartOf(b).rest == c.Shows(b)
    ensures c.SeekOf(b, target).failure == None
    ensures c.SeekOf(b, target).rest == c.Shows(b)[CountEarlier(c.Shows(b), target, b.reverse)..]
  {
    hide View, SeekView, Landing, StartIndex, SeekIndex, PastKey, Merged.ScanStreamIn;
    match c
    case Stored(ps, bad) =>
      StartIsFaithful(ps, bad, b);
      SeekIsFaithful(ps, bad, b, target);
      SeekViewIsSuffix(ps, b, target);
    case Buffered(m) =>
      StreamStartIsFaithful(m, b);
      StreamSeekIsFaithful(m, b, target);
      SeekViewIsSuffix(m.pairs, b, target);
    case Resolved =>
  }

  /** A seek to a stored key in range lands on its pair, value and all. */
  lemma SeekFinds(c: Contents, b: Range, p: Pair)
    requires c.Ordered() && c.NothingBad() && p in c.Pairs() && b.Contains(p.key)
    ensures var f := c.SeekOf(b, p.key);
            f.failure == None && f.rest != [] && f.rest[0] == Entry(p.key, if b.keysOnly then None else Some(p.value))
  {
    hide View, Contents.SeekOf, Range.Contains;
    var e, v := Entry(p.key, if b.keysOnly then None else Some(p.value)), c.Shows(b);
    ViewMembers(c.Pairs(), b, e);
    var k :| 0 <= k < |v| && v[k] == e;
    EarlierCount(c.Pairs(), b, k);
    ReadableShows(c, b, p.key);
  }

  // ---- which walks fail ----

  lemma SelectHasBad(ps: seq<Pair>, bad: set<Bytes>, b: Range, target: Option<Bytes>)
    ensures (exists e :: e in Directed(Select(ps, b, target), b.reverse) && e.key in bad)
       <==> (exists p :: p in ps && Wanted(b, target, p.key) && p.key in bad)
  {
    var view := Directed(Select(ps, b, target), b.reverse);
    if e :| e in view && e.key in bad {
      SameMembers(Select(ps, b, target), b.reverse, e);
      SelectMembers(ps, b, target, e);
    }
    if p :| p in ps && Wanted(b, target, p.key) && p.key in bad {
      SelectMembers(ps, b, target, Shown(p, b.keysOnly));
      SameMembers(Select(ps, b, target), b.reverse, Shown(p, b.keysOnly));
    }
  }

  lemma FaithfulFails(f: Future, view: seq<Entry>, bad: set<Bytes>)
    requires Faithful(f, view, None, bad)
    ensures f.failure.Some? <==> exists e :: e in view && e.key in bad
  {
    if |f.rest| < |view| { assert view[|f.rest|] in view; }
  }

  /** A walk over a transaction ends in a failure, one that then stays, exactly when some key it should
      show cannot be read. */
  lemma StreamFailsExactly(m: Merged, b: Range, target: Bytes)
    ensures Buffered(m).StartOf(b).sticky <==> exists p :: p in m.pairs && b.Contains(p.key) && p.key in m.bad
    ensures Buffered(m).SeekOf(b, target).sticky <==>
              exists p :: p in m.pairs && Wanted(b, Some(target), p.key) && p.key in m.bad
    ensures Buffered(m).StartOf(b).sticky == Buffered(m).StartOf(b).failure.Some?
    ensures Buffered(m).SeekOf(b, target).sticky == Buffered(m).SeekOf(b, target).failure.Some?
  {
    hide Select, Directed, Faithful, Merged.ScanStreamIn;
    StreamStartIsFaithful(m, b);
    StreamSeekIsFaithful(m, b, target);
    SelectHasBad(m.pairs, m.bad, b, None);
    SelectHasBad(m.pairs, m.bad, b, Some(target));
    FaithfulFails(Buffered(m).StartOf(b), View(m.pairs, b), m.bad);
    FaithfulFails(Buffered(m).SeekOf(b, target), SeekView(m.pairs, b, target), m.bad);
    assert forall p: Pair :: Wanted(b, None, p.key) <==> b.Contains(p.key);
  }

  /** How many leading entries of a walk can be read. */
  function FirstBad(es: seq<Entry>, bad: set<Bytes>): (n: nat)
    ensures n <= |es|
    ensures forall i :: 0 <= i < n ==> es[i].key !in bad
    ensures n < |es| ==> es[n].key in bad
  {
    if es == [] || es[0].key in bad then 0 else 1 + FirstBad(es[1..], bad)
  }

  /** The failing stream, entry by entry. */
  lemma FailingStream(m: Merged, b: Range)
    requires exists p :: p in m.pairs && b.Contains(p.key) && p.key in m.bad
    ensures var v := View(m.pairs, b);
            var n := FirstBad(v, m.bad);
            n < |v| && Buffered(m).StartOf(b) == Future(v[..n], Some(ReadError(v[n].key)), true)
  {
    hide View, Merged.ScanStreamIn;
    var f, v := Buffered(m).StartOf(b), View(m.pairs, b);
    StreamFailsExactly(m, b, []);
    StreamStartIsFaithful(m, b);
    assert FirstBad(v, m.bad) == |f.rest|;
    assert f.rest == v[..|f.rest|];
  }

  /** A transaction holding "a" alone, which cannot be read: nothing is shown, and the walk fails for ever. */
  lemma FailingStreamExample()
    ensures Buffered(Merged([Pair([97], [])], {[97]})).StartOf(Range(None, None, false, false))
         == Future([], Some(ReadError([97])), true)
  {
    var ps := [Pair([97], [])];
    assert ps[1..] == [];
    assert Within(ps, None, None) == ps;
  }

  /** A seek lands on nothing and fails exactly when the first key it comes to cannot be read: its own
      landing place, a snapshot's excluded end, or the key a snapshot leaves the range on. */
  lemma SeekFailsExactly(c: Contents, b: Range, target: Bytes)
    requires c.Ordered()
    ensures c.SeekOf(b, target).rest == [] && c.SeekOf(b, target).failure.Some? <==>
              match c
              case Resolved => true
              case Buffered(m) =>
                SeekView(m.pairs, b, target) != [] && SeekView(m.pairs, b, target)[0].key in m.bad
              case Stored(ps, bad) =>
                || StartsAtBadEnd(ps, bad, b, Some(target))
                || if SeekView(ps, b, target) != [] then SeekView(ps, b, target)[0].key in bad
                   else PastUnreadable(ps, bad, b, Some(target))
  {
    hide SeekView, Landing, SeekIndex, PastKey, Merged.ScanStreamIn;
    match c
    case Stored(ps, bad) => SeekIsFaithful(ps, bad, b, target);
    case Buffered(m) => StreamSeekIsFaithful(m, b, target);
    case Resolved =>
  }

  // ---- where keys outside the range are felt ----

  /** A walk that starts this way must read the excluded end first, and cannot. */
  ghost predicate StartsAtBadEnd(ps: seq<Pair>, bad: set<Bytes>, b: Range, target: Option<Bytes>) {
    EndUnreadable(ps, bad, b) && (target.Some? ==> !Less(target.value, b.end.value))
  }

  predicate PastUnreadable(ps: seq<Pair>, bad: set<Bytes>, b: Range, target: Option<Bytes>) {
    PastKey(ps, b, target).Some? && PastKey(ps, b, target).value in bad
  }

  /** With every in-range key readable, a restart or a seek of a snapshot still ends in a failure in
      exactly two cases: its excluded end is where it starts and cannot be read, or the first stored
      key behind the range cannot be. A transaction stream over the same contents never fails. */
  lemma ReadableRangeFails(ps: seq<Pair>, bad: set<Bytes>, b: Range, target: Bytes)
    requires Sorted(ps)
    requires forall p :: p in ps && b.Contains(p.key) ==> p.key !in bad
    ensures Started(ps, bad, b).failure.Some? <==> StartsAtBadEnd(ps, bad, b, None) || PastUnreadable(ps, bad, b, None)
    ensures Landing(ps, bad, b, SeekIndex(ps, bad, b, target)).failure.Some? <==>
              StartsAtBadEnd(ps, bad, b, Some(target)) || PastUnreadable(ps, bad, b, Some(target))
    ensures Streamed(Merged(ps, bad).ScanStreamIn(b.start, b.end, b.reverse), b.keysOnly)
         == Future(View(ps, b), None, false)
    ensures var span := SeekSpan(b, target);
            Streamed(Merged(ps, bad).ScanStreamIn(span.0, span.1, b.reverse), b.keysOnly)
            == Future(SeekView(ps, b, target), None, false)
  {
    hide View, SeekView, Landing, StartIndex, SeekIndex, PastKey, Capture, Merged.ScanStreamIn;
    StartIsFaithful(ps, bad, b);
    SeekIsFaithful(ps, bad, b, target);
    StreamStartIsFaithful(Merged(ps, bad), b);
    StreamSeekIsFaithful(Merged(ps, bad), b, target);
    ViewReadable(ps, bad, b, target);
  }

  lemma ViewReadable(ps: seq<Pair>, bad: set<Bytes>, b: Range, target: Bytes)
    requires Sorted(ps)
    requires forall p :: p in ps && b.Contains(p.key) ==> p.key !in bad
    ensures forall e :: e in View(ps, b) || e in SeekView(ps, b, target) ==> e.key !in bad
  {
    hide View, SeekView;
    SeekViewIsSuffix(ps, b, target);
    forall e | e in View(ps, b)
      ensures e.key !in bad
    {
      ViewMembers(ps, b, e);
    }
  }

  /** With every in-range key readable, a restart fails to show the view exactly when the walk is
      reversed, its excluded end is a stored key that cannot be read, and there is an entry to show. */
  lemma EndReadHidesRange(ps: seq<Pair>, bad: set<Bytes>, b: Range)
    requires Sorted(ps)
    requires forall p :: p in ps && b.Contains(p.key) ==> p.key !in bad
    ensures Started(ps, bad, b).rest != View(ps, b) <==>
              EndUnreadable(ps, bad, b) && View(ps, b) != []
  {
    hide View, Landing, StartIndex, PastKey;
    StartIsFaithful(ps, bad, b);
    ViewReadable(ps, bad, b, []);
  }

  /** A store holding "a" and an unreadable "b". In reverse below "b", "a" is never shown; forward
      below "b" it is, and then the walk fails on "b" although "b" is not in the range. */
  lemma OutsideKeyExamples()
    ensures var ps := [Pair([97], []), Pair([98], [])];
            var down, up := Range(None, Some([98]), true, false), Range(None, Some([98]), false, false);
            && View(ps, down) == View(ps, up) == [Entry([97], Some([]))]
            && Started(ps, {[98]}, down) == Future([], Some(ReadError([98])), false)
            && Started(ps, {[98]}, up) == Future([Entry([97], Some([]))], Some(ReadError([98])), false)
  {
    var ps := [Pair([97], []), Pair([98], [])];
    var down, up := Range(None, Some([98]), true, false), Range(None, Some([98]), false, false);
    assert Less([97], [98]) && !Less([98], [98]) && !Less([98], [97]);
    assert Sorted(ps);
    assert CountUpTo(ps, [98]) == 2;
    forall b | b == down || b == up
      ensures Select(ps, b, None) == [Entry([97], Some([]))]
    {
      assert ps[1..] == [ps[1]] && ps[1..][1..] == [];
      assert Select(ps[1..], b, None) == [];
    }
    assert Reverse([Entry([97], Some([]))]) == [Entry([97], Some([]))];
    assert Landing(ps, {[98]}, up, 1) == Future([], Some(ReadError([98])), false);
    assert Landing(ps, {[98]}, up, 0) == Future([Entry([97], Some([]))], Some(ReadError([98])), false);
  }
}
