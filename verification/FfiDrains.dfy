/** Draining an iterator by batches and by single steps, read failures included. */
module FfiDrains {
  import opened Basics
  import opened Bounds
  import opened Views
  import opened Walks
  import opened Batches
  import opened FfiIter
  import opened Engine
  import FfiRuns
  import LittleEndian

  datatype Reply = Batch(frame: Bytes, count: nat) | Failed(failure: Failure)

  // ---- any number of batches ----

  /** One call for at most `max` entries of a source that offers `f`: its reply, and what the source
      offers next. */
  function Poll(f: Future, max: nat): (Reply, Future) {
    if max == 0 then (Failed(InvalidArg), f)
    else
      var n := Gather(f.rest, max, 0);
      match BatchReply(f, max)
      case Ok(b) => (Batch(b.frame, b.count), if n == 0 then f.Beyond() else f.Drop(n))
      case Err(e) => (Failed(e), if n == 0 then f.Beyond() else f.Drop(FirstLong(f.rest) + 1))
  }

  /** The replies to successive calls for these numbers of entries. The first batch behind a seek that
      found nothing does not advance. */
  function Polled(adrift: bool, f: Future, sizes: seq<nat>): seq<Reply>
    decreases |sizes|
  {
    if sizes == [] then []
    else if adrift && sizes[0] > 0 then [Batch([], 0)] + Polled(false, f, sizes[1..])
    else [Poll(f, sizes[0]).0] + Polled(adrift, Poll(f, sizes[0]).1, sizes[1..])
  }

  /** What a batch of `max` entries leaves to offer, on either kind of source. */
  lemma PollLeaves(up: Future, max: nat, current: Option<Entry>, ahead: Future, live: bool)
    requires max > 0 && LeftAt(up, max, current, ahead)
    requires up.rest != [] && up.failure.Some? ==> up.sticky == live
    requires up.failure == None ==> !up.sticky
    ensures BatchHeld(up, max).Some? ==> Poll(up, max).1 == Future([], BatchHeld(up, max), live)
    ensures BatchHeld(up, max) == None ==> Poll(up, max).1 == ahead
  {
    hide Gather, Kept, Frame;
    assert up.Drop(0) == up;
  }

  method PollBatch(it: RegolithIter, max: nat) returns (reply: Reply)
    requires it.Valid()
    modifies it
    ensures it.Valid() && it.Adrift() == (max == 0 && old(it.Adrift()))
    ensures max == 0 ==> unchanged(it)
    ensures max > 0 ==> !it.includeCurrent || (old(it.pending).Some? && old(it.includeCurrent))
    ensures if max > 0 && old(it.Adrift()) then reply == Batch([], 0) && it.Offered() == old(it.Offered())
            else (reply, it.Offered()) == Poll(old(it.Offered()), max)
  {
    hide Gather, Frame, Kept, Landing, LeftAt, BatchHeld, BatchTaken, RegolithIter.Upcoming, RegolithIter.BatchValid,
      Source.Current, Source.Ahead;
    ghost var up, held, adrift := it.Upcoming(), it.pending, it.Adrift();
    it.SpentDrawsNothing();
    it.UpcomingIsPlain();
    var r := it.NextBatch(max);
    reply := match r case Ok(b) => Batch(b.frame, b.count) case Err(e) => Failed(e);
    if max > 0 {
      if held == None { ServedFromUp(up, max, r, it.batch, it.pending); }
      if held == None && !adrift { PollLeaves(up, max, it.Current(), it.Ahead(), it.over != null); }
      if it.pending == None { it.OfferedIsAhead(); }
    }
  }

  lemma PolledMore(replies: seq<Reply>, adrift: bool, f: Future, sizes: seq<nat>, k: nat)
    requires k < |sizes|
    ensures if adrift && sizes[k] > 0 then
              replies + Polled(adrift, f, sizes[k..]) == replies + [Batch([], 0)] + Polled(false, f, sizes[k + 1..])
            else
              replies + Polled(adrift, f, sizes[k..])
                == replies + [Poll(f, sizes[k]).0] + Polled(adrift, Poll(f, sizes[k]).1, sizes[k + 1..])
  {
    hide Poll;
    assert sizes[k..][0] == sizes[k] && sizes[k..][1..] == sizes[k + 1..];
  }

  lemma PolledNone(adrift: bool, f: Future)
    ensures Polled(adrift, f, []) == []
  {
  }

  /** Any number of batches of any sizes, over any source in any state, failures included, gets the
      replies that what was offered at the start determines. */
  method PollBatches(it: RegolithIter, sizes: seq<nat>) returns (replies: seq<Reply>)
    requires it.Valid()
    modifies it
    ensures it.Valid() && replies == Polled(old(it.Adrift()), old(it.Offered()), sizes)
  {
    hide Poll, RegolithIter.BatchValid, RegolithIter.PendingValid, RegolithIter.Offered, RegolithIter.Adrift,
      Source.Current, Source.Ahead, SnapshotCursor.WellFormed, Polled;
    replies := [];
    assert sizes[0..] == sizes && sizes[|sizes|..] == [];
    ghost var adrift, f := it.Adrift(), it.Offered();
    for k := 0 to |sizes|
      invariant it.Valid()
      invariant replies + Polled(it.Adrift(), it.Offered(), sizes[k..]) == Polled(adrift, f, sizes)
    {
      PolledMore(replies, it.Adrift(), it.Offered(), sizes, k);
      var reply := PollBatch(it, sizes[k]);
      replies := replies + [reply];
    }
    PolledNone(it.Adrift(), it.Offered());
  }

  // ---- draining ----

  /** The replies to successive batches of `sizes(k)`, `sizes(k + 1)`, ... entries, up to the first
      empty batch, over a source that yields `rest` and then meets `failure` once. */
  function Drained(rest: seq<Entry>, failure: Option<Failure>, sizes: nat -> nat, k: nat): seq<Reply>
    decreases |rest|
  {
    var n := Gather(rest, sizes(k), 0);
    if rest == [] then (if failure.Some? then [Failed(failure.value)] else []) + [Batch([], 0)]
    else if n == 0 then []
    else [Batch(Frame(rest[..n]), n)] + Drained(rest[n..], failure, sizes, k + 1)
  }

  function FramesOf(replies: seq<Reply>): Bytes {
    if replies == [] then []
    else (if replies[0].Batch? then replies[0].frame else []) + FramesOf(replies[1..])
  }

  function FailuresOf(replies: seq<Reply>): seq<Failure> {
    if replies == [] then []
    else (if replies[0].Failed? then [replies[0].failure] else []) + FailuresOf(replies[1..])
  }

  /** Whatever the batch sizes and wherever the value cap falls, a drain frames every entry exactly
      once and in order, and reports the failure exactly once. */
  lemma {:induction false} DrainIsWhole(rest: seq<Entry>, failure: Option<Failure>, sizes: nat -> nat, k: nat)
    requires forall i :: sizes(i) > 0
    ensures var replies := Drained(rest, failure, sizes, k);
            && FramesOf(replies) == Frame(rest)
            && FailuresOf(replies) == (if failure.Some? then [failure.value] else [])
    decreases |rest|
  {
    hide Gather, Frame;
    var replies := Drained(rest, failure, sizes, k);
    if rest == [] {
      Cons(Batch([], 0), []);
      if failure.Some? { Cons(Failed(failure.value), [Batch([], 0)]); }
    } else {
      var n := Gather(rest, sizes(k), 0);
      var more := Drained(rest[n..], failure, sizes, k + 1);
      DrainIsWhole(rest[n..], failure, sizes, k + 1);
      Cons(Batch(Frame(rest[..n]), n), more);
      assert Frame(rest) == Frame(rest[..n]) + Frame(rest[n..]) by {
        FrameAppend(rest[..n], rest[n..]);
        assert rest == rest[..n] + rest[n..];
      }
    }
  }

  /** Batches that each hold something. */
  ghost predicate AllFull(replies: seq<Reply>) {
    forall r :: r in replies ==> r.Batch? && r.count > 0
  }

  /** The failure comes after the last entry, and exhaustion after the failure. */
  lemma {:induction false} DrainEndsExhausted(rest: seq<Entry>, failure: Option<Failure>, sizes: nat -> nat, k: nat)
    requires forall i :: sizes(i) > 0
    ensures exists batches: seq<Reply> ::
              AllFull(batches) && Drained(rest, failure, sizes, k) == batches + Drained([], failure, sizes, k)
    decreases |rest|
  {
    hide Frame, AllFull, Gather;
    if rest == [] {
      NoneFull();
      assert Drained(rest, failure, sizes, k) == [] + Drained([], failure, sizes, k);
    } else {
      var n := Gather(rest, sizes(k), 0);
      var first, last := Batch(Frame(rest[..n]), n), Drained([], failure, sizes, k);
      DrainEndsExhausted(rest[n..], failure, sizes, k + 1);
      var batches: seq<Reply> :| AllFull(batches) && Drained(rest[n..], failure, sizes, k + 1) == batches + last;
      OneMoreFull(first, batches);
      assert [first] + (batches + last) == ([first] + batches) + last;
    }
  }

  lemma NoneFull()
    ensures AllFull([])
  {
  }

  lemma OneMoreFull(first: Reply, batches: seq<Reply>)
    requires AllFull(batches) && first.Batch? && first.count > 0
    ensures AllFull([first] + batches)
  {
  }

  lemma Cons(r: Reply, replies: seq<Reply>)
    ensures FramesOf([r] + replies) == (if r.Batch? then r.frame else []) + FramesOf(replies)
    ensures FailuresOf([r] + replies) == (if r.Failed? then [r.failure] else []) + FailuresOf(replies)
  {
    assert ([r] + replies)[1..] == replies;
  }

  lemma PollDrains(f: Future, sizes: nat -> nat, k: nat)
    requires sizes(k) > 0 && !f.sticky && Frameable(f.rest)
    ensures var (reply, next) := Poll(f, sizes(k));
            && !next.sticky && Frameable(next.rest)
            && (reply.Batch? && reply.count == 0 <==> f.rest == [] && f.failure == None)
            && Drained(f.rest, f.failure, sizes, k) ==
                 [reply] + (if f.rest == [] && f.failure == None then [] else Drained(next.rest, next.failure, sizes, k + 1))
            && (f.rest != [] ==> |next.rest| < |f.rest|)
            && (f.rest == [] ==> next == Nothing)
  {
    hide Frame;
    FfiRuns.FrameableIsShort(f.rest);
  }

  /** Call `NextBatch` until it reports exhaustion: over a snapshot, over a readable transaction, and
      over a resolved one, whose single refusal is a failure like any other. */
  method DrainBatches(it: RegolithIter, sizes: nat -> nat) returns (replies: seq<Reply>)
    requires it.Valid() && forall i :: sizes(i) > 0
    requires it.Adrift() || (!it.Offered().sticky && Frameable(it.Offered().rest))
    modifies it
    ensures it.Valid()
    ensures replies == if old(it.Adrift()) then [Batch([], 0)]
                       else Drained(old(it.Offered()).rest, old(it.Offered()).failure, sizes, 0)
  {
    hide RegolithIter.BatchValid, RegolithIter.PendingValid, RegolithIter.Offered, RegolithIter.Adrift,
      Poll, Drained, Frameable;
    ghost var adrift, whole := it.Adrift(), Drained(it.Offered().rest, it.Offered().failure, sizes, 0);
    replies := [];
    var k := 0;
    while true
      invariant it.Valid() && (k == 0 || !it.Adrift()) && (k == 0 ==> replies == [] && it.Adrift() == adrift)
      invariant k > 0 ==> !adrift
      invariant !adrift ==> !it.Offered().sticky && Frameable(it.Offered().rest)
      invariant !adrift ==> replies + Drained(it.Offered().rest, it.Offered().failure, sizes, k) == whole
      decreases if k == 0 then 1 else 0, |it.Offered().rest|, it.Offered().failure.Some?
    {
      if !adrift { PollDrains(it.Offered(), sizes, k); }
      var reply := PollBatch(it, sizes(k));
      replies := replies + [reply];
      if reply.Batch? && reply.count == 0 { break; }
      k := k + 1;
    }
  }

  /** What a source with nothing left to show replies. */
  function Over(failure: Option<Failure>): Reply {
    if failure.Some? then Failed(failure.value) else Batch([], 0)
  }

  /** What it replies from then on. */
  function OverAgain(f: Future): Reply {
    Over(if f.sticky then f.failure else None)
  }

  /** The first `m` replies are batches that each hold something, together every entry of `rest` unless
      the calls end there; behind them comes `first`, and `again` for ever. */
  ghost predicate Ends(replies: seq<Reply>, m: nat, rest: seq<Entry>, first: Reply, again: Reply) {
    && m <= |replies| && m <= |rest|
    && (forall i :: 0 <= i < m ==> replies[i].Batch? && replies[i].count > 0)
    && (m < |replies| ==> FramesOf(replies) == Frame(rest) && replies[m] == first)
    && (forall i :: m < i < |replies| ==> replies[i] == again)
  }

  lemma PollOnce(f: Future, max: nat)
    requires Frameable(f.rest) && max > 0
    ensures var n := Gather(f.rest, max, 0);
            if f.rest == [] then
              var (reply, next) := Poll(f, max);
              && reply == Over(f.failure) && next.rest == []
              && Over(next.failure) == OverAgain(next) == OverAgain(f) && Frameable(next.rest)
            else
              && n > 0 && Poll(f, max) == (Batch(Frame(f.rest[..n]), n), f.Drop(n))
              && OverAgain(f.Drop(n)) == OverAgain(f) && Frameable(f.rest[n..])
  {
    hide Frame;
    FfiRuns.FrameableIsShort(f.rest);
  }

  lemma EndsOver(later: seq<Reply>, m: nat, failure: Option<Failure>, again: Reply)
    requires Ends(later, m, [], again, again)
    ensures Ends([Over(failure)] + later, 0, [], Over(failure), again)
  {
    Cons(Over(failure), later);
  }

  lemma EndsBehind(n: nat, later: seq<Reply>, m: nat, rest: seq<Entry>, first: Reply, again: Reply)
    requires 0 < n <= |rest| && Ends(later, m, rest[n..], first, again)
    ensures Ends([Batch(Frame(rest[..n]), n)] + later, m + 1, rest, first, again)
  {
    hide Frame, FramesOf, FailuresOf;
    Cons(Batch(Frame(rest[..n]), n), later);
    FrameAppend(rest[..n], rest[n..]);
    assert rest == rest[..n] + rest[n..];
  }

  lemma NeverAsked(rest: seq<Entry>, first: Reply, again: Reply)
    ensures Ends([], 0, rest, first, again)
  {
  }

  /** Any number of batches, whatever their sizes: entries once each and in order; then the failure, if
      there is one, or a count of 0; then counts of 0 for ever, or the failure for ever when it is that
      of a stream. A failing stream never gets to a count of 0. */
  lemma {:induction false} PolledInOrder(f: Future, sizes: seq<nat>)
    requires Frameable(f.rest) && forall i :: 0 <= i < |sizes| ==> sizes[i] > 0
    ensures exists m: nat :: Ends(Polled(false, f, sizes), m, f.rest, Over(f.failure), OverAgain(f))
    decreases |sizes|
  {
    hide Gather, Frame, FramesOf, Poll, Frameable, Ends, Over, OverAgain;
    if sizes == [] {
      assert Ends(Polled(false, f, sizes), 0, f.rest, Over(f.failure), OverAgain(f)) by {
        NeverAsked(f.rest, Over(f.failure), OverAgain(f));
      }
    } else {
      PollOnce(f, sizes[0]);
      var (reply, next) := Poll(f, sizes[0]);
      var later := Polled(false, next, sizes[1..]);
      assert Polled(false, f, sizes) == [reply] + later;
      PolledInOrder(next, sizes[1..]);
      var m: nat :| Ends(later, m, next.rest, Over(next.failure), OverAgain(next));
      if f.rest == [] {
        EndsOver(later, m, f.failure, OverAgain(f));
      } else {
        EndsBehind(reply.count, later, m, f.rest, Over(f.failure), OverAgain(f));
      }
    }
  }

  // ---- single steps ----

  /** `n` single steps, reading each entry landed on, over any source in any state. */
  method StepRepeatedly(it: RegolithIter, n: nat) returns (replies: seq<(Result<bool>, Option<Entry>)>)
    requires it.Valid()
    modifies it
    ensures it.Valid()
    ensures replies == Stepped(old(if it.reset then it.StartFuture() else it.Ahead()), n)
  {
    hide RegolithIter.StartFuture, RegolithIter.BatchValid, RegolithIter.PendingValid, Source.Ahead,
      Future.Outcome, Future.Here, Future.Beyond;
    ghost var f := if it.reset then it.StartFuture() else it.Ahead();
    replies := [];
    for k := 0 to n
      invariant it.Valid()
      invariant replies + Stepped(if it.reset then it.StartFuture() else it.Ahead(), n - k) == Stepped(f, n)
    {
      var r := it.Next();
      var key := it.source.CurrentKey(it.bounds);
      var value := it.source.CurrentValueSlice(it.bounds);
      replies := replies + [(r, if key.Some? then Some(Entry(key.value, value)) else None)];
    }
  }

  /** Call `Next` until it stops, reading each entry. */
  method WalkSingly(it: RegolithIter) returns (walked: seq<Entry>, end: Result<bool>)
    requires it.Valid()
    modifies it
    ensures var f := old(if it.reset then it.StartFuture() else it.Ahead());
            walked == f.rest && end == f.(rest := []).Outcome()
  {
    hide RegolithIter.StartFuture, Landing, Streamed, RegolithIter.BatchValid, Future.Beyond;
    walked := [];
    ghost var f := if it.reset then it.StartFuture() else it.Ahead();
    end := it.Next();
    while end == Ok(true)
      invariant it.Valid() && !it.reset
      invariant |walked| <= |f.rest| && walked == f.rest[..|walked|]
      invariant end == f.Drop(|walked|).Outcome()
      invariant it.Current() == f.Drop(|walked|).Here()
      invariant it.Ahead() == f.Drop(|walked|).Beyond()
      decreases |f.rest| - |walked|
    {
      var key := it.source.CurrentKey(it.bounds).value;
      var value := it.source.CurrentValueSlice(it.bounds);
      f.DropOne(|walked|);
      walked := walked + [Entry(key, value)];
      end := it.Next();
    }
  }

  // ---- end to end ----

  /** Draining a store by batches: the frames hold the view in order, up to the first key that cannot
      be read, and the failure on it comes once. Keys outside the range are felt in two places: an
      excluded end that a reverse walk lands on, and the key the walk leaves the range on. */
  method DrainStore(pairs: seq<Pair>, bad: set<Bytes>, b: Range, sizes: nat -> nat)
    returns (replies: seq<Reply>)
    requires FfiRuns.Walkable(pairs) && forall i :: sizes(i) > 0
    ensures var f := Started(pairs, bad, b);
            && FramesOf(replies) == Frame(f.rest)
            && FailuresOf(replies) == (if f.failure.Some? then [f.failure.value] else [])
            && if EndUnreadable(pairs, bad, b) then f == Future([], Some(ReadError(b.end.value)), false)
               else Faithful(f, View(pairs, b), PastKey(pairs, b, None), bad)
  {
    hide Frame, Gather, Landing, FramesOf, FailuresOf, Drained, View, PastKey;
    var it := new RegolithIter.OverSnapshot(pairs, bad, b);
    ghost var f := it.StartFuture();
    StartIsFaithful(pairs, bad, b);
    FfiRuns.ViewFrameable(pairs, b);
    LandingIsPlain(pairs, bad, b, StartIndex(pairs, bad, b));
    replies := DrainBatches(it, sizes);
    DrainIsWhole(f.rest, f.failure, sizes, 0);
  }

  /** The same over a transaction all of whose in-range keys can be read: nothing outside the range
      is felt. */
  method DrainTxn(txn: TxnInner, b: Range, sizes: nat -> nat) returns (replies: seq<Reply>)
    requires txn.txn.Some? && FfiRuns.Walkable(txn.txn.value.pairs) && forall i :: sizes(i) > 0
    requires forall p :: p in txn.txn.value.pairs && b.Contains(p.key) ==> p.key !in txn.txn.value.bad
    ensures FramesOf(replies) == Frame(View(txn.txn.value.pairs, b)) && FailuresOf(replies) == []
  {
    hide Frame, Gather, FramesOf, FailuresOf, Drained, View, SeekView, Landing, PastKey, Merged.ScanStreamIn;
    ghost var m := txn.txn.value;
    var it := new RegolithIter.OverTxn(txn, b);
    ReadableRangeFails(m.pairs, m.bad, b, []);
    FfiRuns.ViewFrameable(m.pairs, b);
    replies := DrainBatches(it, sizes);
    DrainIsWhole(View(m.pairs, b), None, sizes, 0);
  }

  /** Its partner: over a transaction with an in-range key that cannot be read, any number of batches
      frames the entries ahead of that key, once each, and then gets its failure for ever. */
  method PollFailingTxn(txn: TxnInner, b: Range, sizes: seq<nat>) returns (replies: seq<Reply>)
    requires txn.txn.Some? && FfiRuns.Walkable(txn.txn.value.pairs) && forall i :: 0 <= i < |sizes| ==> sizes[i] > 0
    requires exists p :: p in txn.txn.value.pairs && b.Contains(p.key) && p.key in txn.txn.value.bad
    ensures var v := View(txn.txn.value.pairs, b);
            var n := FirstBad(v, txn.txn.value.bad);
            && n < |v|
            && exists m: nat :: Ends(replies, m, v[..n], Failed(ReadError(v[n].key)), Failed(ReadError(v[n].key)))
  {
    hide Frame, Gather, View, Merged.ScanStreamIn, Ends;
    ghost var m := txn.txn.value;
    var it := new RegolithIter.OverTxn(txn, b);
    FailingStream(m, b);
    FfiRuns.ViewFrameable(m.pairs, b);
    replies := PollBatches(it, sizes);
    PolledInOrder(Buffered(m).StartOf(b), sizes);
  }

  // ---- what a caller reads is what is stored ----

  /** Over either kind of source, from any state: a seek to a stored key in range reads back that key and
      its own value, empty under `KeysOnly`; so does the batch behind it. */
  method ReadPair(it: RegolithIter, p: Pair)
    returns (found: Result<bool>, key: Option<Bytes>, value: Option<Bytes>,
             batched: Result<Framed>, lent: Result<Option<Bytes>>)
    requires it.Valid() && it.Walked().Ordered() && it.Walked().NothingBad()
    requires p in it.Walked().Pairs() && it.bounds.Contains(p.key) && |p.key| < 0x1_0000_0000
    modifies it
    ensures found == Ok(true) && key == Some(p.key) && value == Some(if it.bounds.keysOnly then [] else p.value)
    ensures batched == Ok(Framed(LittleEndian.Encode(|p.key|, 4) + p.key, 1))
    ensures lent == Ok(if it.bounds.keysOnly then None else Some(p.value))
  {
    hide Contents.SeekOf, Frame, Kept, Source.Current, Source.Ahead, RegolithIter.PendingValid;
    ghost var f := it.SeekFuture(p.key);
    SeekFinds(it.Walked(), it.bounds, p);
    found := it.Seek(p.key);
    key := it.Key();
    value := it.Value();
    it.UpcomingAfterSeek(f);
    assert f.rest[..1] == [f.rest[0]];
    FrameOne(f.rest[0]);
    batched := it.NextBatch(1);
    lent := it.BatchValue(0);
  }

  /** An entry as its key and its value are read. */
  function ReadOf(e: Entry): (Option<Bytes>, Option<Bytes>) {
    (Some(e.key), Some(if e.value.Some? then e.value.value else []))
  }

  method ReadOut(it: RegolithIter) returns (read: seq<(Option<Bytes>, Option<Bytes>)>, end: Result<bool>)
    requires it.Valid() && it.reset
    modifies it
    ensures var f := old(it.StartFuture());
            && |read| == |f.rest| && end == f.(rest := []).Outcome()
            && forall i :: 0 <= i < |read| ==> read[i] == ReadOf(f.rest[i])
  {
    hide RegolithIter.StartFuture, RegolithIter.BatchValid, RegolithIter.PendingValid, Source.Ahead, Source.Current,
      Future.Beyond;
    ghost var f := it.StartFuture();
    read := [];
    end := it.Next();
    while end == Ok(true)
      invariant it.Valid() && !it.reset
      invariant |read| <= |f.rest| && forall i :: 0 <= i < |read| ==> read[i] == ReadOf(f.rest[i])
      invariant end == f.Drop(|read|).Outcome()
      invariant it.Current() == f.Drop(|read|).Here()
      invariant it.Ahead() == f.Drop(|read|).Beyond()
      decreases |f.rest| - |read|
    {
      var key := it.Key();
      var value := it.Value();
      f.DropOne(|read|);
      read := read + [(key, value)];
      end := it.Next();
    }
  }

  /** Call `Next` until it stops, reading key and value of every entry: they are those of the stored pairs in
      range, each once and in walk order, over either kind of source. */
  method ReadAll(it: RegolithIter) returns (read: seq<(Option<Bytes>, Option<Bytes>)>, end: Result<bool>)
    requires it.Valid() && it.reset && it.Walked().Ordered() && it.Walked().NothingBad()
    modifies it
    ensures end == Ok(false)
    ensures var qs := PairsInView(old(it.Walked()).Pairs(), it.bounds);
            && |read| == |qs|
            && (forall i :: 0 <= i < |qs| ==>
                  read[i] == (Some(qs[i].key), Some(if it.bounds.keysOnly then [] else qs[i].value)))
            && (forall p :: p in qs <==> p in old(it.Walked()).Pairs() && it.bounds.Contains(p.key))
            && (forall i, j :: 0 <= i < j < |qs| ==>
                  if it.bounds.reverse then Less(qs[j].key, qs[i].key) else Less(qs[i].key, qs[j].key))
  {
    hide View, PairsInView, Contents.StartOf, RegolithIter.BatchValid, RegolithIter.PendingValid, Less, Range.Contains;
    ghost var c := it.Walked();
    ReadableShows(c, it.bounds, []);
    ViewIsPairs(c.Pairs(), it.bounds);
    ViewInWalkOrder(c.Pairs(), it.bounds);
    read, end := ReadOut(it);
  }

  /** A store holding "a" with the value "xy". */
  method ValueExample() returns (stepped: Option<Bytes>, lent: Result<Option<Bytes>>)
    ensures stepped == Some([120, 121]) && lent == Ok(Some([120, 121]))
  {
    var p := Pair([97], [120, 121]);
    var b := Range(None, None, false, false);
    var it := new RegolithIter.OverSnapshot([p], {}, b);
    var _, _, value, _, batched := ReadPair(it, p);
    stepped, lent := value, batched;
  }

  // ---- single steps and batches together ----

  datatype Ask = Single | Several(max: nat)

  /** Does the first of these calls that does anything step past an entry just sought? */
  predicate StepsFirst(asks: seq<Ask>) {
    asks != [] && (asks[0].Single? || (asks[0] == Several(0) && StepsFirst(asks[1..])))
  }

  lemma StepsFirstFrom(asks: seq<Ask>, k: nat)
    requires k < |asks|
    ensures StepsFirst(asks[k..]) == (asks[k].Single? || (asks[k] == Several(0) && StepsFirst(asks[k + 1..])))
  {
    assert asks[k..][1..] == asks[k + 1..];
  }

  lemma NothingAsked()
    ensures !StepsFirst([])
  {
  }

  /** Standing on the entry a seek landed on, which a batch still takes and a step does not. */
  ghost predicate OnSought(it: RegolithIter)
    reads it
  {
    !it.reset && it.includeCurrent && it.Current().Some?
  }

  /** Step once and collect the key landed on, framed as a batch frames it. */
  method CollectStep(it: RegolithIter) returns (keys: Bytes, ghost n: nat)
    requires it.Valid()
    modifies it
    ensures it.Valid() && !OnSought(it)
    ensures var rest := old(it.Offered()).rest;
            var from := if old(OnSought(it)) then 1 else 0;
            from + n <= |rest| && keys == Frame(rest[from..from + n]) && it.Offered().rest == rest[from + n..]
  {
    hide Frame, Landing, RegolithIter.BatchValid, RegolithIter.StartFuture, Source.Current, Source.Ahead;
    ghost var rest, from := it.Offered().rest, if OnSought(it) then 1 else 0;
    it.SpentDrawsNothing();
    var r := it.Next();
    it.OfferedRest();
    var key := it.Key();
    keys, n := [], 0;
    if r == Ok(true) {
      keys, n := LittleEndian.Encode(|key.value|, 4) + key.value, 1;
      FrameOne(rest[from]);
      assert rest[from..from + 1] == [rest[from]];
    }
  }

  /** Take a batch and collect its frame. */
  method CollectBatch(it: RegolithIter, max: nat) returns (keys: Bytes, ghost n: nat)
    requires it.Valid() && Frameable(it.Offered().rest)
    modifies it
    ensures it.Valid() && (OnSought(it) <==> old(OnSought(it)) && max == 0) && (max == 0 ==> n == 0)
    ensures var rest := old(it.Offered()).rest;
            n <= |rest| && keys == Frame(rest[..n]) && it.Offered().rest == rest[n..]
  {
    hide Gather, Frame, RegolithIter.BatchValid, RegolithIter.Offered, Source.Current, Source.Ahead, Poll;
    FfiRuns.FrameableIsShort(it.Offered().rest);
    PollShows(it.Offered(), max);
    var reply := PollBatch(it, max);
    keys, n := if reply.Batch? then reply.frame else [], if reply.Batch? then reply.count else 0;
  }

  lemma PollShows(f: Future, max: nat)
    requires Frameable(f.rest)
    ensures var (reply, next) := Poll(f, max);
            if reply.Batch? then
              reply.count <= |f.rest| && reply.frame == Frame(f.rest[..reply.count]) && next.rest == f.rest[reply.count..]
            else next.rest == f.rest
  {
    hide Gather, Frame;
    FfiRuns.FrameableIsShort(f.rest);
  }

  lemma FrameableFrom(rest: seq<Entry>, n: nat)
    requires Frameable(rest) && n <= |rest|
    ensures Frameable(rest[n..]) && rest[0..] == rest
  {
  }

  lemma SoughtIsOffered(it: RegolithIter)
    requires it.Valid() && OnSought(it)
    ensures it.Offered().rest != []
  {
  }

  lemma CollectMore(rest: seq<Entry>, from: nat, n: nat, m: nat)
    requires from + n + m <= |rest|
    ensures Frame(rest[from..from + n]) + Frame(rest[from + n..][..m]) == Frame(rest[from..from + n + m])
    ensures rest[from + n..][m..] == rest[from + n + m..]
  {
    FrameAppend(rest[from..from + n], rest[from + n..][..m]);
    assert rest[from..from + n] + rest[from + n..][..m] == rest[from..from + n + m];
  }

  /** In any mix of single steps and batches, over any source, from any state, failures included,
      nothing is lost, shown twice or out of order: the keys shown so far are the first ones that were to
      come, and the others are still to come. The entry a seek has landed on counts as shown when a step
      comes first. */
  method CollectAll(it: RegolithIter, asks: seq<Ask>) returns (keys: Bytes, ghost n: nat)
    requires it.Valid() && Frameable(it.Offered().rest)
    modifies it
    ensures it.Valid()
    ensures var rest := old(it.Offered()).rest;
            var from := if old(OnSought(it)) && StepsFirst(asks) then 1 else 0;
            from + n <= |rest| && keys == Frame(rest[from..from + n]) && it.Offered().rest == rest[from + n..]
  {
    hide Frame, RegolithIter.Offered, RegolithIter.BatchValid, RegolithIter.PendingValid, Source.Current, Source.Ahead,
      OnSought, SnapshotCursor.WellFormed, Frameable, StepsFirst;
    ghost var rest, from := it.Offered().rest, if OnSought(it) && StepsFirst(asks) then 1 else 0;
    keys, n := [], 0;
    if OnSought(it) { SoughtIsOffered(it); }
    assert asks[0..] == asks && asks[|asks|..] == [];
    NothingAsked();
    for k := 0 to |asks|
      invariant it.Valid()
      invariant OnSought(it) ==> old(OnSought(it)) && n == 0 && it.Offered().rest == rest
      invariant OnSought(it) ==> (StepsFirst(asks[k..]) <==> StepsFirst(asks))
      invariant !OnSought(it) ==> from + n <= |rest| && it.Offered().rest == rest[from + n..]
      invariant from + n <= |rest| && keys == Frame(rest[from..from + n])
    {
      StepsFirstFrom(asks, k);
      var more;
      ghost var m, sought := 0, OnSought(it);
      FrameableFrom(rest, if sought then 0 else from + n);
      match asks[k] {
        case Single => more, m := CollectStep(it);
        case Several(max) => more, m := CollectBatch(it, max);
      }
      if !sought { CollectMore(rest, from, n, m); }
      keys, n := keys + more, n + m;
    }
  }

  /** What the next batch replies when nothing is left to show: a failure held back comes first, and
      behind a seek that found nothing the first batch does not advance. */
  function FirstSpent(held: Option<Failure>, adrift: bool, over: Option<Failure>): Reply {
    if held.Some? then Failed(held.value) else if adrift then Batch([], 0) else Over(over)
  }

  method AskOnce(it: RegolithIter, ask: Ask) returns (reply: Reply)
    requires it.Valid() && it.Spent()
    modifies it
    ensures it.Valid() && it.Spent() && it.source == old(it.source)
    ensures ask == Several(0) ==> it.pending == old(it.pending) && it.Adrift() == old(it.Adrift())
    ensures ask.Single? ==> reply == Over(old(it.Ahead()).failure) && it.pending == old(it.pending) && !it.Adrift()
    ensures ask.Several? && ask != Several(0) ==>
              && reply == FirstSpent(old(it.pending), old(it.Adrift()), old(it.Ahead()).failure)
              && it.pending == None && !it.Adrift()
  {
    hide Gather, Landing, Frame, RegolithIter.BatchValid;
    it.SpentDrawsNothing();
    match ask
    case Single =>
      var r := it.Next();
      reply := match r case Ok(valid) => Batch([], if valid then 1 else 0) case Err(e) => Failed(e);
    case Several(max) =>
      var r := it.NextBatch(max);
      reply := match r case Ok(b) => Batch(b.frame, b.count) case Err(e) => Failed(e);
  }

  /** Where the first batch of at least one entry is asked for. */
  function FirstBatch(asks: seq<Ask>): (n: nat)
    ensures n <= |asks|
    ensures forall i :: 0 <= i < n ==> asks[i].Single? || asks[i] == Several(0)
    ensures n < |asks| ==> asks[n].Several? && asks[n].max > 0
  {
    if asks == [] || (asks[0].Several? && asks[0].max > 0) then 0 else 1 + FirstBatch(asks[1..])
  }

  /** A source with nothing left to show does not change under any mix of single steps and batches. It
      keeps replying the same, exhaustion or the failure of its stream; only the first batch may reply
      something else. */
  method AskWhenSpent(it: RegolithIter, asks: seq<Ask>) returns (replies: seq<Reply>)
    requires it.Valid() && it.Spent()
    modifies it
    ensures it.Valid() && it.Spent() && it.source == old(it.source) && |replies| == |asks|
    ensures forall k :: 0 <= k < |asks| && asks[k] != Several(0) ==>
              replies[k] == if k == FirstBatch(asks)
                            then FirstSpent(old(it.pending), old(it.Adrift()) && Single !in asks[..k], old(it.Ahead()).failure)
                            else Over(old(it.Ahead()).failure)
  {
    hide Landing, Streamed, RegolithIter.Valid, RegolithIter.Adrift, FirstBatch, Over;
    replies := [];
    ghost var held, adrift, over, first := it.pending, it.Adrift(), it.Ahead().failure, FirstBatch(asks);
    for k := 0 to |asks|
      invariant it.Valid() && it.Spent() && it.source == old(it.source)
      invariant k <= first ==> it.pending == held && (it.Adrift() <==> adrift && Single !in asks[..k])
      invariant k > first ==> it.pending == None && !it.Adrift()
      invariant |replies| == k
      invariant forall j :: 0 <= j < k && asks[j] != Several(0) ==>
                  replies[j] == if j == first then FirstSpent(held, adrift && Single !in asks[..j], over) else Over(over)
    {
      assert asks[..k + 1] == asks[..k] + [asks[k]];
      var reply := AskOnce(it, asks[k]);
      replies := replies + [reply];
    }
  }

  /** A batch, then a single step. On a snapshot the step reports exhaustion ahead of a failure still
      held back exactly when the batch took entries, then ran off their end into the failure. On a
      transaction the step meets the failure itself. */
  method StepAfterBatch(it: RegolithIter, max: nat) returns (batched: Result<Framed>, stepped: Result<bool>)
    requires it.Valid() && it.pending == None && max > 0
    modifies it
    ensures it.Valid()
    ensures var up := old(it.Upcoming());
            var n := Gather(up.rest, max, 0);
            && (it.pending.Some? && stepped == Ok(false) <==>
                  it.over == null && 0 < n <= FirstLong(up.rest) && RanOff(up, max, n) && up.failure.Some?)
            && (it.pending.Some? ==> it.pending == up.failure)
            && (it.pending.Some? && it.over != null ==> stepped == Err(it.pending.value))
  {
    hide Gather, FirstLong, Kept, Frame, Landing, RegolithIter.Upcoming, Source.Current, Source.Ahead, LeftAt;
    batched := it.NextBatch(max);
    stepped := it.Next();
  }

  /** "a" can be read and "b" cannot. The batch hands over "a"; the step says that the range is
      exhausted; the batch after it fails on "b". */
  method OvertakenExample() returns (first: Result<Framed>, stepped: Result<bool>, second: Result<Framed>)
    ensures first == Ok(Framed([1, 0, 0, 0, 97], 1)) && stepped == Ok(false) && second == Err(ReadError([98]))
  {
    hide Frame, FirstLong, Kept, Gather;
    var ps := [Pair([97], []), Pair([98], [])];
    var b := Range(None, None, false, false);
    assert Less([97], [98]);
    assert Landing(ps, {[98]}, b, 1) == Future([], Some(ReadError([98])), false);
    assert Landing(ps, {[98]}, b, 0) == AThenBadB;
    ABatch();
    var it := new RegolithIter.OverSnapshot(ps, {[98]}, b);
    first := it.NextBatch(2);
    stepped := it.Next();
    second := it.NextBatch(2);
  }

  const AThenBadB: Future := Future([Entry([97], Some([]))], Some(ReadError([98])), false)

  lemma ABatch()
    ensures Gather(AThenBadB.rest, 2, 0) == 1 && FirstLong(AThenBadB.rest) == 1 && Kept(AThenBadB.rest[..1]) == 0
    ensures Frame(AThenBadB.rest[..1]) == [1, 0, 0, 0, 97]
  {
    var es := AThenBadB.rest;
    assert es[..1] == es && es[1..] == [] && es[..0] == [];
    FrameOne(es[0]);
    assert LittleEndian.Encode(1, 4) == [1, 0, 0, 0];
  }
}
