/** Reading a Go iterator to its end and past it, read failures included. */
module GoDrains {
  import opened Basics
  import opened Bounds
  import opened Views
  import opened Engine
  import opened Walks
  import opened FfiIter
  import opened GoIter
  import opened GoSteps
  import GoRuns
  import Database

  /** An entry as a Go caller reads it. */
  type Reading = (Option<Bytes>, Answer<Option<Bytes>>)

  function ReadAs(e: Option<Entry>): Reading {
    (if e.Some? then Some(e.value.key) else None, CopiedValue(e))
  }

  method ReadEntry(it: Iter) returns (entry: Reading)
    requires it.Valid()
    ensures entry == ReadAs(it.Current())
  {
    var key := it.Key();
    var value := it.Value();
    return (key, value);
  }

  /** What a caller sees of a series of advances. */
  ghost predicate Sees(seen: seq<(Answer<bool>, Reading)>, made: seq<(Result<bool>, Option<Entry>)>) {
    |seen| == |made| && forall k :: 0 <= k < |made| ==> seen[k] == (Answered(made[k].0), ReadAs(made[k].1))
  }

  lemma SeesMore(seen: seq<(Answer<bool>, Reading)>, made: seq<(Result<bool>, Option<Entry>)>, f: Future)
    requires Sees(seen, made)
    ensures Sees(seen + [(Answered(f.Outcome()), ReadAs(f.Here()))], made + [(f.Outcome(), f.Here())])
  {
    hide ReadAs, Answered, Future.Outcome, Future.Here;
  }

  lemma MadeMore(made: seq<(Result<bool>, Option<Entry>)>, f: Future, n: nat)
    requires n > 0
    ensures made + Stepped(f, n) == made + [(f.Outcome(), f.Here())] + Stepped(f.Beyond(), n - 1)
  {
  }

  /** `n` calls of `Next`, each with the entry read behind it, answer exactly as `n` single advances
      would: batches, cached or not, cannot be told from single steps, over a snapshot or a transaction,
      up to a failure, at it and after it. */
  method NextRepeatedly(it: Iter, n: nat) returns (seen: seq<(Answer<bool>, Reading)>)
    requires Going(it)
    modifies it, it.i
    ensures Sees(seen, Stepped(old(Left(it)), n))
  {
    hide Iter.Valid, Copyable, Left, ReadAs, Sees, Stepped, Future.Outcome, Future.Here, Future.Beyond;
    seen := [];
    ghost var whole, made := Stepped(Left(it), n), [];
    SeesNone();
    for k := 0 to n
      invariant Going(it)
      invariant Sees(seen, made) && made + Stepped(Left(it), n - k) == whole
    {
      ghost var f := Left(it);
      MadeMore(made, f, n - k);
      SeesMore(seen, made, f);
      var r := Advance(it);
      var entry := ReadEntry(it);
      seen := seen + [(r, entry)];
      made := made + [(f.Outcome(), f.Here())];
    }
    assert made + [] == made;
  }

  lemma SeesNone()
    ensures Sees([], []) && forall f :: Stepped(f, 0) == []
  {
  }

  /** The entries shown are these, in order. */
  ghost predicate Shows(shown: seq<Reading>, all: seq<Entry>) {
    |shown| == |all| && forall k :: 0 <= k < |all| ==> shown[k] == ReadAs(Some(all[k]))
  }

  /** Call `Next` until it reports exhaustion, reading every entry it lands on: every entry to come is
      shown once and the failure, if there is one, is returned once. A transaction stream that cannot be
      read through is left out here, for it never reports exhaustion. */
  method DrainGo(it: Iter) returns (shown: seq<Reading>, errors: seq<Failure>)
    requires Going(it) && !Left(it).sticky
    modifies it, it.i
    ensures var f := old(Left(it));
            Shows(shown, f.rest) && errors == if f.failure.Some? then [f.failure.value] else []
  {
    hide Iter.Valid, Copyable, Left, CopiedValue;
    shown, errors := [], [];
    ghost var f := Left(it);
    while true
      invariant Going(it) && it.Valid()
      invariant |shown| <= |f.rest| && Shows(shown, f.rest[..|shown|])
      invariant Left(it) == if errors == [] then f.Drop(|shown|) else Nothing
      invariant errors != [] ==> |shown| == |f.rest| && f.failure.Some? && errors == [f.failure.value]
      decreases |Left(it).rest|, Left(it).failure.Some?
    {
      ghost var now := Left(it);
      if now.rest != [] { f.DropOne(|shown|); }
      var r := Advance(it);
      if r == Got(false) { break; }
      if r.Got? {
        var entry := ReadEntry(it);
        shown := shown + [entry];
      } else {
        errors := errors + [r.error.failure];
      }
    }
    assert f.rest[..|f.rest|] == f.rest;
  }

  /** Over a transaction stream that cannot be read through, every call behind the last entry returns
      the failure, and none says that the range is exhausted. */
  lemma {:induction false} FailingStepsNeverEnd(f: Future, n: nat, k: nat)
    requires f.sticky && f.failure.Some? && k < n
    ensures |Stepped(f, n)| == n
    ensures Stepped(f, n)[k] == if k < |f.rest| then (Ok(true), Some(f.rest[k])) else (Err(f.failure.value), None)
    decreases n
  {
    if k > 0 { FailingStepsNeverEnd(f.Beyond(), n - 1, k - 1); }
    else if n > 1 { FailingStepsNeverEnd(f.Beyond(), n - 1, 0); }
  }

  /** End to end over a transaction with an in-range key that cannot be read: the entries ahead of that
      key, once each, and then its failure from every call. */
  method NextOverFailingTxn(db: Database.DB, txn: TxnInner, b: Range, n: nat) returns (seen: seq<(Answer<bool>, Reading)>)
    requires !db.closed && txn.txn.Some? && GoRuns.Fits(Buffered(txn.txn.value), b)
    requires exists p :: p in txn.txn.value.pairs && b.Contains(p.key) && p.key in txn.txn.value.bad
    ensures var v := View(txn.txn.value.pairs, b);
            var ok := FirstBad(v, txn.txn.value.bad);
            && ok < |v| && |seen| == n
            && forall k :: 0 <= k < n ==>
                 seen[k] == if k < ok then (Got(true), ReadAs(Some(v[k])))
                            else (Error(Engine(ReadError(v[ok].key))), ReadAs(None))
  {
    hide View, Copyable, Left, Behind, ReadAs, Merged.ScanStreamIn, Stepped;
    ghost var m, v := txn.txn.value, View(txn.txn.value.pairs, b);
    var i := new RegolithIter.OverTxn(txn, b);
    var it := new Iter(db, i);
    FailingStream(m, b);
    CopyableFirst(v, FirstBad(v, m.bad));
    LeftAtStart(it);
    seen := NextRepeatedly(it, n);
    forall k | 0 <= k < n
      ensures seen[k] == if k < FirstBad(v, m.bad) then (Got(true), ReadAs(Some(v[k])))
                         else (Error(Engine(ReadError(v[FirstBad(v, m.bad)].key))), ReadAs(None))
    {
      FailingStepsNeverEnd(i.StartFuture(), n, k);
    }
  }

  /** From the options to the readings: an iterator opened with a prefix shows exactly the stored pairs
      whose keys begin with it, and one opened with bounds exactly those between them, in walk order, each
      once and with its own value: nil for an empty one and when values are not read. */
  method ReadOptions(db: Database.DB, pairs: seq<Pair>, opts: IterOptions)
    returns (shown: seq<Reading>, ghost read: seq<Pair>)
    requires !db.closed && forall b :: GoRuns.Fits(Stored(pairs, {}), b)
    ensures |shown| == |read|
    ensures forall k :: 0 <= k < |read| ==>
              && shown[k].0 == Some(read[k].key)
              && (opts.keysOnly || read[k].value == [] ==> shown[k].1 == Got(None))
              && (!opts.keysOnly && 0 < |read[k].value| < 0x8000_0000 ==> shown[k].1 == Got(Some(read[k].value)))
    ensures forall p :: p in read <==>
              p in pairs
              && if opts.prefix != [] then HasPrefix(p.key, opts.prefix)
                 else (opts.start == [] || !Less(p.key, opts.start)) && (opts.end == [] || Less(p.key, opts.end))
    ensures forall i, j :: 0 <= i < j < |read| ==>
              if opts.reverse then Less(read[j].key, read[i].key) else Less(read[i].key, read[j].key)
  {
    hide View, PairsInView, Copyable, Left, Behind, GoRuns.Fits, Landing, StartIndex, Less, HasPrefix, Shows;
    var b := BoundsFrom(opts);
    assert GoRuns.Fits(Stored(pairs, {}), b);
    FitsSorted(pairs, b);
    var i := new RegolithIter.OverSnapshot(pairs, {}, b);
    var it := new Iter(db, i);
    ReadableShows(Stored(pairs, {}), b, []);
    LandingIsPlain(pairs, {}, b, StartIndex(pairs, {}, b));
    LeftAtStart(it);
    var errors;
    shown, errors := DrainGo(it);
    read := PairsInView(pairs, b);
    ViewIsPairs(pairs, b);
    ViewInWalkOrder(pairs, b);
    ShowsPairs(shown, View(pairs, b), read, opts.keysOnly);
  }

  lemma ShowsPairs(shown: seq<Reading>, entries: seq<Entry>, read: seq<Pair>, keysOnly: bool)
    requires Shows(shown, entries) && |read| == |entries|
    requires forall k :: 0 <= k < |entries| ==>
               entries[k].key == read[k].key && entries[k].value == if keysOnly then None else Some(read[k].value)
    ensures |shown| == |read|
    ensures forall k :: 0 <= k < |read| ==>
              && shown[k].0 == Some(read[k].key)
              && (keysOnly || read[k].value == [] ==> shown[k].1 == Got(None))
              && (!keysOnly && 0 < |read[k].value| < 0x8000_0000 ==> shown[k].1 == Got(Some(read[k].value)))
  {
  }

  /** Over either kind of source, from any state: a seek to a stored key in range reads back that key and its
      own value through every way of reading one; nil, or nothing, for an empty value and under `KeysOnly`. */
  method ReadPair<E>(it: Iter, p: Pair, dst: Bytes, fn: Callback<E>)
    returns (sought: Answer<bool>, key: Option<Bytes>, value: Answer<Option<Bytes>>, appended: Bytes, answer: Option<E>)
    requires it.Valid() && !it.db.closed && GoRuns.Fits(it.i.Walked(), it.i.bounds) && it.i.Walked().NothingBad()
    requires p in it.i.Walked().Pairs() && it.i.bounds.Contains(p.key)
    modifies it, it.i, fn
    ensures sought == Got(true) && key == Some(p.key)
    ensures it.keysOnly || p.value == [] ==> value == Got(None)
    ensures !it.keysOnly && 0 < |p.value| < 0x8000_0000 ==> value == Got(Some(p.value))
    ensures appended == if it.keysOnly then dst else dst + p.value
    ensures var lent := if it.keysOnly || p.value == [] then None else Some(p.value);
            fn.heard == old(fn.heard) + [lent] && answer == fn.answer(lent)
  {
    hide Copyable, Contents.SeekOf, Contents.Shows, Left, Behind, Iter.Valid, RegolithIter.Valid, CopiedValue, LentValue;
    FitToSeek(it);
    SeekFinds(it.i.Walked(), it.i.bounds, p);
    GoRuns.FitsFutures(it.i.Walked(), it.i.bounds, p.key);
    sought := SeekInto(it, p.key);
    key := it.Key();
    value := it.Value();
    appended := it.AppendValue(dst);
    answer := it.BorrowValue(fn);
  }

  lemma FitToSeek(it: Iter)
    requires it.Valid()
    ensures it.keysOnly == it.i.bounds.keysOnly && (it.i.over == null ==> Sorted(it.i.pairs))
  {
  }

  /** A store holding "a" with the value "xy". */
  method ValueExample() returns (value: Answer<Option<Bytes>>, appended: Bytes)
    ensures value == Got(Some([120, 121])) && appended == [1, 120, 121]
  {
    var p := Pair([97], [120, 121]);
    var b := Range(None, None, false, false);
    var db := new Database.DB();
    var i := new RegolithIter.OverSnapshot([p], {}, b);
    var it := new Iter(db, i);
    var fn := new Callback<int>(_ => None);
    GoRuns.ShortKeysFit([p], b);
    var _, _, read, extended, _ := ReadPair(it, p, [1], fn);
    value, appended := read, extended;
    assert [1] + [120, 121] == [1, 120, 121];
  }

  lemma FitsSorted(ps: seq<Pair>, b: Range)
    requires GoRuns.Fits(Stored(ps, {}), b)
    ensures Sorted(ps) && Copyable(View(ps, b))
  {
  }

  /** End to end over a store some of whose keys cannot be read: the entries shown are the view, in
      order, up to the first such key, and the error on it is returned once. Keys outside the range are
      felt as in `FfiDrains.DrainStore`. */
  method DrainStore(db: Database.DB, pairs: seq<Pair>, bad: set<Bytes>, b: Range)
    returns (shown: seq<Reading>, errors: seq<Failure>)
    requires !db.closed && GoRuns.Fits(Stored(pairs, bad), b)
    ensures var f := Started(pairs, bad, b);
            && Shows(shown, f.rest)
            && errors == (if f.failure.Some? then [f.failure.value] else [])
            && if EndUnreadable(pairs, bad, b) then f == Future([], Some(ReadError(b.end.value)), false)
               else Faithful(f, View(pairs, b), PastKey(pairs, b, None), bad)
  {
    hide Landing, View, PastKey, Shows, Copyable, Left, Behind;
    var i := new RegolithIter.OverSnapshot(pairs, bad, b);
    var it := new Iter(db, i);
    StartIsFaithful(pairs, bad, b);
    LandingIsPlain(pairs, bad, b, StartIndex(pairs, bad, b));
    ghost var f := i.StartFuture();
    assert f.rest == View(pairs, b)[..|f.rest|];
    CopyableFirst(View(pairs, b), |f.rest|);
    LeftAtStart(it);
    shown, errors := DrainGo(it);
  }
}
