/** Every run of the Rust iterator is that of a stepper that knows nothing of cursors and streams, over
    any source, and over a readable one that of the plain cursor. */
module FfiRuns {
  import opened Basics
  import opened Bounds
  import opened Views
  import opened Engine
  import opened Walks
  import opened Batches
  import opened PlainCursor
  import opened FfiIter
  import LittleEndian

  datatype Call =
    | Next | NextBatch(max: nat) | Seek(target: Bytes) | Reset
    | Key | Value | BatchValue(idx: nat)
    | Change(now: Contents)   // the transaction is written to, or resolved, underneath

  datatype Reply =
    | Moved(valid: Result<bool>)
    | Batch(framed: Result<Framed>)
    | Read(bytes: Option<Bytes>)
    | Refused
    | Done

  /** What a read finds on the entry stood on and in the last batch. */
  function Look(call: Call, here: Option<Entry>, batch: seq<Entry>): Reply {
    match call
    case Key => Read(if here.Some? then Some(here.value.key) else None)
    case Value =>
      Read(match here
           case None => None
           case Some(e) => Some(if e.value.Some? then e.value.value else []))
    case BatchValue(idx) => if idx < |batch| then Read(batch[idx].value) else Refused
    case _ => Done
  }

  /** The entry stood on and what stepping on meets; whether the walk starts over first, and whether the
      next batch still takes the entry a seek landed on; the last batch, and a failure held back behind it. */
  datatype Stepper = Stepper(here: Option<Entry>, ahead: Future, rewound: bool, sought: bool,
                             batch: seq<Entry>, held: Option<Failure>, source: Contents)
  {
    ghost predicate Sound() {
      source.Stored? ==> Sorted(source.pairs)
    }

    /** What the next batch draws from. */
    function Upcoming(b: Range): Future
      requires Sound()
    {
      if rewound then source.StartOf(b)
      else if sought then
        if here.Some? then ahead.(rest := [here.value] + ahead.rest) else Nothing
      else ahead
    }

    function AfterBatch(b: Range, max: nat): (r: (Stepper, Result<Framed>))
      requires Sound()
      ensures r.0.source == source
    {
      if held.Some? then (this.(held := None, batch := []), Err(held.value))
      else
        var up := Upcoming(b);
        var (here', ahead') := if !rewound && sought && here == None then (here, ahead) else BatchLands(up, max);
        (Stepper(here', ahead', false, false, BatchTaken(up, max), BatchHeld(up, max), source), BatchReply(up, max))
    }

    function Do(call: Call, b: Range): (r: (Stepper, Reply))
      requires Sound()
      ensures r.0.Sound()
    {
      match call
      case Next =>
        var f := if rewound then source.StartOf(b) else ahead;
        (this.(here := f.Here(), ahead := f.Beyond(), rewound := false, sought := false), Moved(f.Outcome()))
      case NextBatch(max) =>
        if max == 0 then (this, Batch(Err(InvalidArg)))
        else
          var (next, r) := AfterBatch(b, max);
          (next, Batch(r))
      case Seek(target) =>
        var f := source.SeekOf(b, target);
        (Stepper(f.Here(), f.Beyond(), false, true, [], None, source), Moved(f.Outcome()))
      case Reset => (this.(rewound := true, sought := false, batch := [], held := None), Done)
      case Change(now) => (this.(source := source.Changed(now)), Done)
      case _ => (this, Look(call, here, batch))
    }

    function Run(calls: seq<Call>, b: Range): (replies: seq<Reply>)
      requires Sound()
      ensures |replies| == |calls|
      decreases |calls|
    {
      if calls == [] then []
      else
        var (next, reply) := Do(calls[0], b);
        [reply] + next.Run(calls[1..], b)
    }
  }

  function Unstarted(source: Contents): Stepper {
    Stepper(None, Nothing, true, false, [], None, source)
  }

  /** The plain cursor, whether a seek's landing entry is still to be included in a batch, the last
      batch, and what the source holds. */
  datatype Model = Model(c: Cursor, sought: bool, batch: seq<Entry>, source: Contents) {
    function Now(b: Range): seq<Entry> { source.Shows(b) }

    function Coming(b: Range): seq<Entry> {
      if !c.rewound && sought then (if c.at < |c.view| then c.view[c.at..] else [])
      else c.Coming(Now(b))
    }

    /** A batch makes as many advances as it takes entries, and one more when it runs off their end;
        right after a seek the first of them stays put. */
    function AfterBatch(b: Range, n: nat, ranOff: bool): Cursor {
      var advances := n + if ranOff then 1 else 0;
      if !c.rewound && sought && advances > 0 then c.Steps(Now(b), advances - 1)
      else c.Steps(Now(b), advances)
    }

    function Do(call: Call, b: Range): (Model, Reply) {
      match call
      case Next =>
        var next := c.Next(Now(b));
        (this.(c := next, sought := false), Moved(Ok(next.Here().Some?)))
      case NextBatch(max) =>
        if max == 0 then (this, Batch(Err(InvalidArg)))
        else
          var up := Coming(b);
          var n := Gather(up, max, 0);
          var ranOff := n == |up| && n < max && Kept(up[..n]) < MAX_BATCH_VALUE_BYTES;
          (this.(c := AfterBatch(b, n, ranOff), sought := false, batch := up[..n]), Batch(Ok(Framed(Frame(up[..n]), n))))
      case Seek(target) =>
        var next := c.Seek(Now(b), target, b.reverse);
        (this.(c := next, sought := true, batch := []), Moved(Ok(next.Here().Some?)))
      case Reset => (this.(c := c.Reset(), sought := false, batch := []), Done)
      case Change(now) => (this.(source := source.Changed(now)), Done)
      case _ => (this, Look(call, c.Here(), batch))
    }

    function Run(calls: seq<Call>, b: Range): seq<Reply>
      decreases |calls|
    {
      if calls == [] then []
      else
        var (next, reply) := Do(calls[0], b);
        [reply] + next.Run(calls[1..], b)
    }
  }

  // ---- the plain cursor's batches ----

  /** Where a batch leaves the cursor: on the last entry it took, or past the end if it ran off it. */
  lemma AfterBatchLands(m: Model, b: Range, n: nat, ranOff: bool)
    requires m.c.Valid() && n <= |m.Coming(b)|
    requires if ranOff then n == |m.Coming(b)| else n > 0
    ensures var s := m.AfterBatch(b, n, ranOff);
            if !m.c.rewound && m.sought && m.c.Here() == None then s == m.c
            else
            && s.Valid() && !s.rewound && s.view == (if m.c.rewound then m.Now(b) else m.c.view)
            && s.Here() == (if ranOff then None else Some(m.Coming(b)[n - 1]))
            && s.Coming([]) == m.Coming(b)[n..]
  {
    if m.c.rewound || !m.sought {
      AfterPlainBatch(m, b, n, ranOff);
    } else if m.c.Here().Some? {
      AfterSoughtBatch(m, b, n, ranOff);
    }
  }

  lemma AfterPlainBatch(m: Model, b: Range, n: nat, ranOff: bool)
    requires m.c.Valid() && n <= |m.Coming(b)| && (m.c.rewound || !m.sought)
    requires if ranOff then n == |m.Coming(b)| else n > 0
    ensures var s := m.AfterBatch(b, n, ranOff);
            && s.Valid() && !s.rewound && s.view == (if m.c.rewound then m.Now(b) else m.c.view)
            && s.Here() == (if ranOff then None else Some(m.Coming(b)[n - 1]))
            && s.Coming([]) == m.Coming(b)[n..]
  {
    hide Contents.Shows, Cursor.Steps, Cursor.Coming;
    StepsVisitComing(m.c, m.Now(b), n + if ranOff then 1 else 0);
  }

  lemma AfterSoughtBatch(m: Model, b: Range, n: nat, ranOff: bool)
    requires m.c.Valid() && n <= |m.Coming(b)| && !m.c.rewound && m.sought && m.c.Here().Some?
    requires if ranOff then n == |m.Coming(b)| else n > 0
    ensures var s := m.AfterBatch(b, n, ranOff);
            && s.Valid() && !s.rewound && s.view == m.c.view
            && s.Here() == (if ranOff then None else Some(m.Coming(b)[n - 1]))
            && s.Coming([]) == m.Coming(b)[n..]
  {
    hide Contents.Shows, Cursor.Coming, Model.Coming;
    SoughtIsHereThenComing(m, b);
    var advances := n + if ranOff then 1 else 0;
    if advances > 1 { StepsVisitComing(m.c, m.Now(b), advances - 1); }
  }

  lemma SoughtIsHereThenComing(m: Model, b: Range)
    requires !m.c.rewound && m.sought && m.c.Here().Some?
    ensures |m.Coming(b)| == |m.c.Coming([])| + 1 && m.Coming(b)[0] == m.c.Here().value
    ensures m.Coming(b)[1..] == m.c.Coming(m.Now(b)) == m.c.Coming([])
    ensures forall i :: 0 < i <= |m.Coming(b)| ==> m.Coming(b)[i..] == m.c.Coming([])[i - 1..]
  {
  }

  lemma FrameableIsShort(es: seq<Entry>)
    requires Frameable(es)
    ensures FirstLong(es) == |es|
  {
  }

  // ---- over readable contents a stepper is the plain cursor ----

  /** Contents an iterator can walk without failing: sorted, with keys that fit a frame. */
  ghost predicate Walkable(ps: seq<Pair>) {
    Sorted(ps) && forall p :: p in ps ==> |p.key| < LittleEndian.U32_LIMIT
  }

  lemma ViewFrameable(ps: seq<Pair>, b: Range)
    requires Walkable(ps)
    ensures Frameable(View(ps, b))
  {
    var v := View(ps, b);
    forall i | 0 <= i < |v|
      ensures |v[i].key| < LittleEndian.U32_LIMIT
    {
      assert v[i] in v;
      ViewMembers(ps, b, v[i]);
    }
  }

  /** What is walked can be read, and what of it is shown can be framed. */
  ghost predicate Showable(source: Contents, b: Range) {
    source.Ordered() && source.NothingBad() && Frameable(source.Shows(b))
  }

  ghost predicate Matches(s: Stepper, m: Model, b: Range) {
    && s.source == m.source && Showable(s.source, b)
    && m.c.Valid() && Frameable(m.c.view)
    && s.rewound == m.c.rewound && s.sought == m.sought && s.batch == m.batch && s.held == None
    && s.here == m.c.Here()
    && s.ahead.failure == None && s.ahead.rest == m.c.(rewound := false).Coming([])
  }

  lemma ComingFrameable(m: Model, b: Range)
    requires m.c.Valid() && Frameable(m.c.view) && Frameable(m.Now(b))
    ensures Frameable(m.Coming(b))
  {
    hide Contents.Shows;
  }

  lemma UpcomingIsComing(s: Stepper, m: Model, b: Range)
    requires Matches(s, m, b) && s.Sound()
    ensures s.Upcoming(b).failure == None && s.Upcoming(b).rest == m.Coming(b)
    ensures Frameable(m.Coming(b))
  {
    hide Contents.Shows, Contents.StartOf, Frameable;
    ReadableShows(s.source, b, []);
    ComingFrameable(m, b);
    var c := m.c;
    if !c.rewound && m.sought && c.at < |c.view| {
      assert c.view[c.at..] == [c.view[c.at]] + c.view[c.at + 1..];
    }
  }

  lemma BatchMatches(s: Stepper, m: Model, max: nat, b: Range)
    requires Matches(s, m, b) && s.Sound() && max > 0
    ensures Matches(s.Do(NextBatch(max), b).0, m.Do(NextBatch(max), b).0, b)
    ensures s.Do(NextBatch(max), b).1 == m.Do(NextBatch(max), b).1
  {
    hide Contents.Shows, Contents.StartOf, Frameable, Gather, Frame, Kept, FirstLong, Cursor.Steps, Cursor.Coming,
      Model.Coming, Model.AfterBatch, Stepper.Upcoming;
    var up := s.Upcoming(b);
    UpcomingIsComing(s, m, b);
    FrameableIsShort(up.rest);
    var n := Gather(up.rest, max, 0);
    AfterBatchLands(m, b, n, RanOff(up, max, n));
  }

  lemma StepMatches(s: Stepper, m: Model, call: Call, b: Range)
    requires Matches(s, m, b) && s.Sound()
    requires s.source.Stored? || (call.Change? ==> Showable(call.now, b))
    ensures s.source.Stored? ==> s.Do(call, b).0.source.Stored?
    ensures Matches(s.Do(call, b).0, m.Do(call, b).0, b) && s.Do(call, b).1 == m.Do(call, b).1
  {
    hide Contents.StartOf, Contents.SeekOf, Contents.Shows, Cursor.Next, Future.Outcome, Future.Here, Future.Beyond,
      Model.AfterBatch, Stepper.AfterBatch;
    if call.NextBatch? && call.max > 0 {
      BatchMatches(s, m, call.max, b);
    } else if call.Next? || call.Seek? {
      MoveMatches(s, m, call, b);
    }
  }

  lemma MoveMatches(s: Stepper, m: Model, call: Call, b: Range)
    requires Matches(s, m, b) && s.Sound() && (call.Next? || call.Seek?)
    ensures Matches(s.Do(call, b).0, m.Do(call, b).0, b) && s.Do(call, b).1 == m.Do(call, b).1
  {
    hide Contents.StartOf, Contents.SeekOf, Contents.Shows, Frameable, Future.Outcome, Future.Here, Future.Beyond;
    var now := m.Now(b);
    ReadableShows(s.source, b, if call.Seek? then call.target else []);
    if call.Next? {
      NextAdvances(m.c, now, if s.rewound then s.source.StartOf(b) else s.ahead);
    } else {
      SeekAdvances(m.c, now, call.target, b.reverse, s.source.SeekOf(b, call.target));
    }
  }

  lemma {:induction false} RunMatches(s: Stepper, m: Model, calls: seq<Call>, b: Range)
    requires Matches(s, m, b) && s.Sound()
    requires s.source.Stored? || forall call :: call in calls && call.Change? ==> Showable(call.now, b)
    ensures s.Run(calls, b) == m.Run(calls, b)
    decreases |calls|
  {
    hide Matches, Stepper.Do, Model.Do, Stepper.Sound, Showable;
    if calls != [] {
      StepMatches(s, m, calls[0], b);
      RunMatches(s.Do(calls[0], b).0, m.Do(calls[0], b).0, calls[1..], b);
    }
  }

  // ---- every run ----

  ghost predicate Tracks(it: RegolithIter, s: Stepper)
    reads it, it.over
  {
    && it.Valid() && it.Walked() == s.source
    && it.reset == s.rewound && it.includeCurrent == s.sought && it.batch == s.batch && it.pending == s.held
    && it.Current() == s.here && it.Ahead() == s.ahead
  }

  method PerformMove(it: RegolithIter, call: Call, ghost s: Stepper) returns (reply: Reply)
    requires Tracks(it, s) && s.Sound() && (call.Next? || call.NextBatch? || call.Seek?)
    modifies it
    ensures var (next, expected) := s.Do(call, it.bounds); reply == expected && Tracks(it, next)
  {
    hide Contents.StartOf, Contents.SeekOf, Source.Current, Source.Ahead, BatchLands, BatchReply, BatchTaken, BatchHeld,
      RegolithIter.BatchValid, RegolithIter.PendingValid, Future.Outcome, Future.Here, Future.Beyond;
    match call
    case Next =>
      var r := it.Next();
      return Moved(r);
    case Seek(target) =>
      var r := it.Seek(target);
      return Moved(r);
    case NextBatch(max) =>
      var r := it.NextBatch(max);
      return Batch(r);
  }

  method PerformRead(it: RegolithIter, call: Call, ghost s: Stepper) returns (reply: Reply)
    requires Tracks(it, s) && s.Sound() && (call.Key? || call.Value? || call.BatchValue?)
    ensures s.Do(call, it.bounds) == (s, reply)
  {
    match call
    case Key =>
      var k := it.Key();
      reply := Read(k);
    case Value =>
      var v := it.Value();
      reply := Read(v);
    case BatchValue(idx) =>
      var r := it.BatchValue(idx);
      reply := match r case Ok(v) => Read(v) case Err(_) => Refused;
  }

  /** Make one call, on an iterator whose transaction, if it has one, is `txn`. */
  method Perform(it: RegolithIter, txn: TxnInner?, call: Call, ghost s: Stepper) returns (reply: Reply)
    requires Tracks(it, s) && s.Sound() && txn == it.over
    modifies it, txn
    ensures var (next, expected) := s.Do(call, it.bounds); reply == expected && Tracks(it, next)
  {
    hide Contents.StartOf, Contents.SeekOf, Source.Current, Source.Ahead, Stepper.AfterBatch, RegolithIter.BatchValid;
    match call
    case Next =>
      reply := PerformMove(it, call, s);
    case Seek(_) =>
      reply := PerformMove(it, call, s);
    case NextBatch(_) =>
      reply := PerformMove(it, call, s);
    case Reset =>
      it.Reset();
      reply := Done;
    case Key =>
      reply := PerformRead(it, call, s);
    case Value =>
      reply := PerformRead(it, call, s);
    case BatchValue(_) =>
      reply := PerformRead(it, call, s);
    case Change(now) =>
      if txn != null && !now.Stored? { txn.txn := if now.Buffered? then Some(now.m) else None; }
      reply := Done;
  }

  /** Any run of calls replies exactly as the stepper does, unreadable keys, keys too long to frame and a
      resolved transaction included. */
  method RunCalls(it: RegolithIter, txn: TxnInner?, calls: seq<Call>, ghost s: Stepper) returns (replies: seq<Reply>)
    requires Tracks(it, s) && s.Sound() && txn == it.over
    modifies it, txn
    ensures replies == s.Run(calls, it.bounds)
  {
    hide Tracks, Stepper.Do, Stepper.Sound;
    replies := [];
    ghost var now := s;
    for i := 0 to |calls|
      invariant now.Sound() && Tracks(it, now)
      invariant replies + now.Run(calls[i..], it.bounds) == s.Run(calls, it.bounds)
    {
      assert calls[i..][0] == calls[i] && calls[i..][1..] == calls[i + 1..];
      var reply := Perform(it, txn, calls[i], now);
      now := now.Do(calls[i], it.bounds).0;
      replies := replies + [reply];
    }
  }

  /** From its creation on, an iterator over a store's snapshot is the stepper over it, and over one that
      can be read the plain cursor. */
  method RunOverSnapshot(pairs: seq<Pair>, bad: set<Bytes>, b: Range, calls: seq<Call>) returns (replies: seq<Reply>)
    requires Sorted(pairs)
    ensures replies == Unstarted(Stored(pairs, bad)).Run(calls, b)
    ensures Showable(Stored(pairs, bad), b) ==>
              replies == Model(Unpositioned, false, [], Stored(pairs, bad)).Run(calls, b)
  {
    var it := new RegolithIter.OverSnapshot(pairs, bad, b);
    ghost var s := Unstarted(Stored(pairs, bad));
    replies := RunCalls(it, null, calls, s);
    if Showable(s.source, b) { RunMatches(s, Model(Unpositioned, false, [], s.source), calls, b); }
  }

  /** So is one over a transaction, which it re-reads on every restart and seek only. */
  method RunOverTxn(txn: TxnInner, b: Range, calls: seq<Call>) returns (replies: seq<Reply>)
    requires txn.txn.Some?
    modifies txn
    ensures replies == Unstarted(Buffered(old(txn.txn.value))).Run(calls, b)
    ensures Showable(Buffered(old(txn.txn.value)), b)
            && (forall call :: call in calls && call.Change? ==> Showable(call.now, b)) ==>
              replies == Model(Unpositioned, false, [], Buffered(old(txn.txn.value))).Run(calls, b)
  {
    var it := new RegolithIter.OverTxn(txn, b);
    ghost var s := Unstarted(Buffered(txn.txn.value));
    replies := RunCalls(it, txn, calls, s);
    if Showable(s.source, b) && forall call :: call in calls && call.Change? ==> Showable(call.now, b) {
      RunMatches(s, Model(Unpositioned, false, [], s.source), calls, b);
    }
  }
}
