/** Iteration bounds (ffi/src/iter.rs, lines 68-145). */
module Bounds {
  import opened Basics

  predicate InSpan(start: Option<Bytes>, end: Option<Bytes>, key: Bytes) {
    && (start.Some? ==> !Less(key, start.value))
    && (end.Some? ==> Less(key, end.value))
  }

  datatype Range = Range(start: Option<Bytes>, end: Option<Bytes>, reverse: bool, keysOnly: bool) {
    predicate Contains(key: Bytes) {
      InSpan(start, end, key)
    }
  }

  /** The caller's options; an empty byte string means "not provided". */
  datatype IterOptions =
    IterOptions(prefix: Bytes, start: Bytes, end: Bytes, reverse: bool, keysOnly: bool)

  predicate HasPrefix(key: Bytes, prefix: Bytes) {
    |prefix| <= |key| && key[..|prefix|] == prefix
  }

  predicate AllOnes(s: Bytes) {
    forall i :: 0 <= i < |s| ==> s[i] == 0xff
  }

  /** Least key above every key that begins with `prefix`, if there is one. */
  function UpperLimit(prefix: Bytes): Option<Bytes> {
    if prefix == [] then None
    else match UpperLimit(prefix[1..])
      case Some(e) => Some([prefix[0]] + e)
      case None => if prefix[0] == 0xff then None else Some([prefix[0] + 1])
  }

  /** Trailing 0xff bytes do not affect the limit; any other last byte is incremented. */
  lemma {:induction false} UpperLimitByLastByte(s: Bytes, last: Byte)
    ensures last == 0xff ==> UpperLimit(s + [last]) == UpperLimit(s)
    ensures last != 0xff ==> UpperLimit(s + [last]) == Some(s + [last + 1])
  {
    var t := s + [last];
    if s == [] {
      assert t[1..] == [];
      assert s + [last + 1] == [last + 1];
    } else {
      assert t[0] == s[0] && t[1..] == s[1..] + [last];
      UpperLimitByLastByte(s[1..], last);
      if last != 0xff {
        assert [s[0]] + (s[1..] + [last + 1]) == s + [last + 1];
      }
    }
  }

  method PrefixEnd(prefix: Bytes) returns (r: Option<Bytes>)
    ensures r == UpperLimit(prefix)
  {
    var end := prefix;
    while end != []
      invariant UpperLimit(end) == UpperLimit(prefix)
    {
      var last := end[|end| - 1];
      ghost var whole := end;
      end := end[..|end| - 1];
      assert whole == end + [last];
      UpperLimitByLastByte(end, last);
      if last != 0xff {
        end := end + [last + 1];
        return Some(end);
      }
    }
    return None;
  }

  lemma {:induction false} NoLimitMeansAllOnes(prefix: Bytes)
    ensures UpperLimit(prefix) == None <==> AllOnes(prefix)
  {
    if prefix != [] {
      NoLimitMeansAllOnes(prefix[1..]);
      if AllOnes(prefix[1..]) && prefix[0] == 0xff {
        assert prefix == [prefix[0]] + prefix[1..];
      }
    }
  }

  /** Lying in `[prefix, UpperLimit(prefix))` is beginning with `prefix`. */
  lemma {:induction false} PrefixIsSpan(prefix: Bytes, key: Bytes)
    ensures HasPrefix(key, prefix) <==> InSpan(Some(prefix), UpperLimit(prefix), key)
  {
    if prefix != [] && key != [] {
      PrefixIsSpan(prefix[1..], key[1..]);
      assert HasPrefix(key, prefix) <==> key[0] == prefix[0] && HasPrefix(key[1..], prefix[1..]) by {
        if key[0] == prefix[0] && HasPrefix(key[1..], prefix[1..]) {
          assert key[..|prefix|] == [key[0]] + key[1..][..|prefix| - 1];
          assert prefix == [prefix[0]] + prefix[1..];
        }
        if HasPrefix(key, prefix) {
          assert key[1..][..|prefix| - 1] == key[..|prefix|][1..];
        }
      }
      match UpperLimit(prefix[1..])
      case Some(e) =>
        assert ([prefix[0]] + e)[1..] == e;
      case None =>
        if prefix[0] != 0xff {
          var limit: Bytes := [prefix[0] + 1];
          assert limit[1..] == [];
          assert UpperLimit(prefix) == Some(limit);
          assert Less(key, limit) <==> key[0] < limit[0];
        }
    }
  }

  function Ones(n: nat): (s: Bytes)
    ensures |s| == n && AllOnes(s)
  {
    if n == 0 then [] else [0xff] + Ones(n - 1)
  }

  lemma {:induction false} OnesAreGreatest(s: Bytes, key: Bytes)
    requires AllOnes(s) && |key| <= |s|
    ensures !Less(s, key)
  {
    if key != [] {
      OnesAreGreatest(s[1..], key[1..]);
    }
  }

  /** Below the limit there is always a key that begins with `prefix` and is not smaller. */
  lemma {:induction false} NothingSmallerBounds(prefix: Bytes, u: Bytes, n: nat)
    requires UpperLimit(prefix).Some? && Less(u, UpperLimit(prefix).value)
    requires |u| <= n
    ensures !Less(prefix + Ones(n), u)
  {
    var w := prefix + Ones(n);
    if u != [] {
      assert w[0] == prefix[0] && w[1..] == prefix[1..] + Ones(n);
      match UpperLimit(prefix[1..])
      case Some(e) =>
        assert ([prefix[0]] + e)[1..] == e;
        if u[0] == prefix[0] {
          NothingSmallerBounds(prefix[1..], u[1..], n);
        }
      case None =>
        assert [prefix[0] + 1][1..] == [];
        if u[0] == prefix[0] {
          NoLimitMeansAllOnes(prefix[1..]);
          OnesAreGreatest(w[1..], u[1..]);
        }
    }
  }

  /** The limit is the least upper bound of the keys that begin with `prefix`. */
  lemma UpperLimitIsLeast(prefix: Bytes, u: Bytes)
    requires UpperLimit(prefix).Some?
    ensures (forall key :: HasPrefix(key, prefix) ==> Less(key, u)) <==> !Less(u, UpperLimit(prefix).value)
  {
    var e := UpperLimit(prefix).value;
    if Less(u, e) {
      NothingSmallerBounds(prefix, u, |u|);
      assert HasPrefix(prefix + Ones(|u|), prefix);
    } else {
      forall key | HasPrefix(key, prefix)
        ensures Less(key, u)
      {
        PrefixIsSpan(prefix, key);
        LessMixed(key, e, u);
      }
    }
  }

  /** An all-0xff prefix has no limit: its lower bound alone selects exactly its keys. */
  lemma AllOnesNeedsNoEnd(prefix: Bytes, key: Bytes)
    requires AllOnes(prefix)
    ensures HasPrefix(key, prefix) <==> !Less(key, prefix)
  {
    NoLimitMeansAllOnes(prefix);
    PrefixIsSpan(prefix, key);
  }

  method BoundsFrom(opts: IterOptions) returns (b: Range)
    ensures b.reverse == opts.reverse && b.keysOnly == opts.keysOnly
    ensures opts.prefix != [] ==> forall key :: b.Contains(key) <==> HasPrefix(key, opts.prefix)
    ensures opts.prefix == [] ==> forall key :: b.Contains(key) <==>
              (opts.start == [] || !Less(key, opts.start)) && (opts.end == [] || Less(key, opts.end))
  {
    var start: Option<Bytes>, end: Option<Bytes>;
    if opts.prefix != [] {
      start := Some(opts.prefix);
      end := PrefixEnd(opts.prefix);
      forall key
        ensures InSpan(start, end, key) <==> HasPrefix(key, opts.prefix)
      {
        PrefixIsSpan(opts.prefix, key);
      }
    } else {
      start := if opts.start == [] then None else Some(opts.start);
      end := if opts.end == [] then None else Some(opts.end);
    }
    b := Range(start, end, opts.reverse, opts.keysOnly);
  }
}
