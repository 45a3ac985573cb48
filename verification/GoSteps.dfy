/** The Go iterator takes one step at a time: what it shows next, whatever its batches are. */
module GoSteps {
  import opened Basics
  import opened Bounds
  import opened Views
  import opened Engine
  import opened Walks
  import opened Batches
  import opened FfiIter
  import FfiDrains
  import opened GoIter
  import Database

  /** What the refills still to come draw from. Behind a seek that found nothing, the next one comes
      back empty and is the last. */
  ghost function Behind(i: RegolithIter, done: bool): Future
    requires i.Valid()
    reads i, i.over
  {
    if done || i.Adrift() then Nothing else i.Offered()
  }

  /** What the following calls of `Next` show: the rest of the batch loaded, then what lies behind it. */
  ghost function Left(it: Iter): Future
    requires it.Valid()
    reads it, it.i, it.i.over
  {
    Behind(it.i, it.done).(rest := Cached(it) + Behind(it.i, it.done).rest)
  }

  ghost function Cached(it: Iter): seq<Entry>
    requires it.Valid()
    reads it, it.i
  {
    if it.ents == [] then [] else it.i.batch[it.pos + 1..]
  }

  /** The store is open and every refill to come can be copied. */
  ghost predicate Going(it: Iter)
    reads it, it.i, it.i.over, it.db
  {
    it.Valid() && !it.db.closed && Copyable(Behind(it.i, it.done).rest)
  }

  /** A new iterator, or one just reset, has everything from the start of the range left. */
  lemma LeftAtStart(it: Iter)
    requires it.Valid() && it.i.reset && !it.done && it.ents == []
    ensures it.i.over == null ==> Sorted(it.i.pairs)
    ensures Behind(it.i, it.done) == Left(it) == it.i.StartFuture()
  {
    hide RegolithIter.StartFuture;
    assert [] + it.i.StartFuture().rest == it.i.StartFuture().rest;
  }

  function Answered(r: Result<bool>): Answer<bool> {
    match r case Ok(valid) => Got(valid) case Err(e) => Error(Engine(e))
  }

  /** What the engine offers after a batch, when nothing was held back before it. */
  lemma OfferedAfter(i: RegolithIter, up: Future)
    requires i.SourceValid() && !i.reset && !i.includeCurrent && i.pending == BatchHeld(up, BATCH_ENTRIES)
    requires LeftAt(up, BATCH_ENTRIES, i.Current(), i.Ahead())
    requires up.rest != [] && up.failure.Some? ==> up.sticky == (i.over != null)
    requires up.failure == None ==> !up.sticky
    ensures i.over == null ==> Sorted(i.pairs)
    ensures !i.Adrift() && i.Offered() == FfiDrains.Poll(up, BATCH_ENTRIES).1
  {
    hide LeftAt, BatchHeld, FfiDrains.Poll, Source.Ahead, Source.Current;
    FfiDrains.PollLeaves(up, BATCH_ENTRIES, i.Current(), i.Ahead(), i.over != null);
    if i.pending == None { i.OfferedIsAhead(); }
  }

  lemma AfterRefill(it: Iter, up: Future, adrift: bool, r: Answer<bool>)
    requires it.Valid() && !it.i.reset && !it.i.includeCurrent && it.Refilled(up, adrift, r)
    requires Copyable(up.rest) && (adrift ==> up == Nothing)
    requires up.rest != [] && up.failure.Some? ==> up.sticky == (it.i.over != null)
    requires up.failure == None ==> !up.sticky
    ensures r == Answered(up.Outcome()) && it.Current() == up.Here() && Left(it) == up.Beyond()
    ensures Copyable(Behind(it.i, it.done).rest)
  {
    hide Copyable, Gather, Frame, Kept, FirstLong, LeftAt, BatchHeld, BatchTaken, BatchReply, Arrives, Located,
      RegolithIter.Offered, RegolithIter.Adrift, RegolithIter.BatchValid, RegolithIter.PendingValid;
    var n := Gather(up.rest, BATCH_ENTRIES, 0);
    CopyableServes(up);
    CopyableFrom(up.rest, n);
    if !adrift { OfferedAfter(it.i, up); }
    if n > 0 {
      assert up.rest[..n][1..] + up.rest[n..] == up.rest[1..];
    }
  }

  /** One call of `Next` is one advance, cached or not, over either kind of source. */
  method Advance(it: Iter) returns (r: Answer<bool>)
    requires Going(it)
    modifies it, it.i
    ensures Going(it)
    ensures var f := old(Left(it));
            r == Answered(f.Outcome()) && it.Current() == f.Here() && Left(it) == f.Beyond()
    ensures it.i.reset ==> old(it.i.reset && (it.done || it.ents != []))
  {
    hide Copyable, Located, Behind, RegolithIter.BatchValid, RegolithIter.PendingValid;
    if it.pos + 1 < |it.ents| || it.done {
      StillDone(it.i);
      r := it.Next();
    } else {
      r := AdvanceByRefill(it);
    }
  }

  lemma StillDone(i: RegolithIter)
    requires i.Valid()
    ensures Behind(i, true) == Nothing
  {
  }

  method AdvanceByRefill(it: Iter) returns (r: Answer<bool>)
    requires Going(it) && it.pos + 1 >= |it.ents| && !it.done
    modifies it, it.i
    ensures Going(it)
    ensures var f := old(Left(it));
            r == Answered(f.Outcome()) && it.Current() == f.Here() && Left(it) == f.Beyond()
    ensures it.i.reset ==> old(it.i.reset && it.ents != [])
  {
    hide Copyable, Iter.Refilled, Located, LeftAt, RegolithIter.Upcoming, RegolithIter.BatchValid, Landing;
    ghost var up, adrift, held := it.i.Upcoming(), it.i.Adrift(), it.i.pending;
    it.i.SpentDrawsNothing();
    it.i.UpcomingIsPlain();
    NoneCopyable();
    r := it.Next();
    if held == None { AfterRefill(it, up, adrift, r); } else { it.i.OfferedIsAhead(); }
  }

  lemma NoneCopyable()
    ensures Copyable([])
  {
    ShortKeysCopyable([]);
  }

  /** A seek is one advance into what seeking yields. One that lands on nothing, failed or not, leaves
      nothing to show. */
  method SeekInto(it: Iter, key: Bytes) returns (r: Answer<bool>)
    requires it.Valid() && !it.db.closed && Copyable(it.i.SeekFuture(key).rest)
    modifies it, it.i
    ensures Going(it) && !it.i.reset
    ensures var f := old(it.i.SeekFuture(key));
            && r == Answered(f.Outcome()) && it.Current() == f.Here()
            && Left(it) == if f.rest == [] then Nothing else f.Beyond()
  {
    hide Copyable, Iter.Refilled, Located, LeftAt, RegolithIter.Upcoming, RegolithIter.BatchValid, Landing,
      RegolithIter.SeekFuture;
    ghost var f := it.i.SeekFuture(key);
    it.i.SeekIsPlain(key);
    NoneCopyable();
    r := it.Seek(key);
    if f.rest != [] { AfterRefill(it, f, false, r); }
  }

  /** A failed seek is forgotten: the engine has nothing under it, so the `Next` behind it reports a clean
      end of the range, over either kind of source. */
  method FailedSeekThenNext(it: Iter, key: Bytes) returns (sought: Answer<bool>, stepped: Answer<bool>)
    requires it.Valid() && !it.db.closed
    requires it.i.SeekFuture(key).rest == [] && it.i.SeekFuture(key).failure.Some?
    modifies it, it.i
    ensures sought == Error(Engine(old(it.i.SeekFuture(key)).failure.value)) && stepped == Got(false)
  {
    hide Copyable, Left, Iter.Valid, RegolithIter.SeekFuture;
    NoneCopyable();
    sought := SeekInto(it, key);
    stepped := Advance(it);
  }

  /** "a" can be read and "b" cannot: a seek to "b" fails on it, and the `Next` behind it says that the
      range has ended. */
  method FailedSeekExample() returns (sought: Answer<bool>, stepped: Answer<bool>)
    ensures sought == Error(Engine(ReadError([98]))) && stepped == Got(false)
  {
    hide Landing, CountBelow;
    var ps := [Pair([97], []), Pair([98], [])];
    var b := Range(None, None, false, false);
    assert Less([97], [98]) && !Less([98], [98]);
    assert CountBelow(ps, [98]) == 1 by { assert Less(ps[0].key, [98]) && !Less(ps[1].key, [98]); }
    assert Landing(ps, {[98]}, b, 1) == Future([], Some(ReadError([98])), false) by { BadLanding(ps, {[98]}, b, 1); }
    var db := new Database.DB();
    var i := new RegolithIter.OverSnapshot(ps, {[98]}, b);
    var it := new Iter(db, i);
    sought, stepped := FailedSeekThenNext(it, [98]);
  }

  lemma BadLanding(ps: seq<Pair>, bad: set<Bytes>, b: Range, i: nat)
    requires i < |ps| && ps[i].key in bad
    ensures Landing(ps, bad, b, i) == Future([], Some(ReadError(ps[i].key)), false)
  {
  }
}
