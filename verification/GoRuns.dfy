/** Every run of the Go iterator observes what single steps would, over any source, and over a readable
    one what a plain cursor would. Nothing in either model knows of batches. */
module GoRuns {
  import opened Basics
  import opened Bounds
  import opened Views
  import opened Engine
  import opened Walks
  import opened Batches
  import opened PlainCursor
  import opened FfiIter
  import opened GoIter
  import opened GoSteps
  import Database

  datatype Call =
    | Next | Seek(target: Bytes) | Reset
    | Key | Value | AppendValue(dst: Bytes)
    | Change(now: Contents)   // the transaction is written to, or resolved, underneath
    | Close                   // so is the store

  datatype Observation = Told(answer: Answer<bool>) | Read(bytes: Option<Bytes>) | Crashed | Done

  /** What a read finds on the entry stood on. */
  function Look(call: Call, here: Option<Entry>): Observation {
    match call
    case Key => Read(if here.Some? then Some(here.value.key) else None)
    case Value => (match CopiedValue(here) case Got(v) => Read(v) case _ => Crashed)
    case AppendValue(dst) => Read(Some(if LentValue(here).Some? then dst + LentValue(here).value else dst))
    case _ => Done
  }

  /** A single stepper: the entry it stands on and what the following advances meet. A rewound one stands
      nowhere and starts over, on what the source then holds, at the next advance. Once the store is closed
      it stays where it is. */
  datatype Stepper = Stepper(here: Option<Entry>, left: Future, rewound: bool, source: Contents, closed: bool) {
    ghost predicate Sound() {
      source.Stored? ==> Sorted(source.pairs)
    }

    function Do(call: Call, b: Range): (r: (Stepper, Observation))
      requires Sound()
      ensures r.0.Sound()
    {
      match call
      case Next =>
        if closed then (this, Told(Error(ErrClosed)))
        else
          var f := if rewound then source.StartOf(b) else left;
          (Stepper(f.Here(), f.Beyond(), false, source, false), Told(Answered(f.Outcome())))
      case Seek(target) =>
        if closed then (this, Told(Error(ErrClosed)))
        else
          var f := source.SeekOf(b, target);
          var left' := if f.rest == [] then Nothing else f.Beyond();
          (Stepper(f.Here(), left', false, source, false), Told(Answered(f.Outcome())))
      case Reset => (Rewound(source, closed), Done)
      case Close => (this.(closed := true), Done)
      case Change(now) => (this.(source := source.Changed(now)), Done)
      case _ => (this, Look(call, here))
    }

    function Run(calls: seq<Call>, b: Range): (seen: seq<Observation>)
      requires Sound()
      ensures |seen| == |calls|
      decreases |calls|
    {
      if calls == [] then []
      else
        var (next, seen) := Do(calls[0], b);
        [seen] + next.Run(calls[1..], b)
    }
  }

  function Rewound(source: Contents, closed: bool): Stepper {
    Stepper(None, Nothing, true, source, closed)
  }

  /** A position in the in-range entries, for sources that can be read. */
  datatype Plain = Plain(c: Cursor, source: Contents, closed: bool) {
    /** After a reset the cursor stands nowhere until it is advanced. */
    function Here(): Option<Entry> {
      if c.rewound then None else c.Here()
    }

    function Do(call: Call, b: Range): (Plain, Observation) {
      match call
      case Next =>
        if closed then (this, Told(Error(ErrClosed)))
        else
          var next := c.Next(source.Shows(b));
          (this.(c := next), Told(Got(next.Here().Some?)))
      case Seek(target) =>
        if closed then (this, Told(Error(ErrClosed)))
        else
          var next := c.Seek(source.Shows(b), target, b.reverse);
          (this.(c := next), Told(Got(next.Here().Some?)))
      case Reset => (this.(c := c.Reset()), Done)
      case Close => (this.(closed := true), Done)
      case Change(now) => (this.(source := source.Changed(now)), Done)
      case _ => (this, Look(call, Here()))
    }

    function Run(calls: seq<Call>, b: Range): seq<Observation>
      decreases |calls|
    {
      if calls == [] then []
      else
        var (next, seen) := Do(calls[0], b);
        [seen] + next.Run(calls[1..], b)
    }
  }

  // ---- over readable contents a stepper is the plain cursor ----

  ghost predicate Matches(s: Stepper, m: Plain) {
    && s.closed == m.closed && s.source == m.source && s.source.Ordered() && s.source.NothingBad()
    && m.c.Valid() && s.rewound == m.c.rewound && s.here == m.Here()
    && (!s.rewound ==> s.left.failure == None && s.left.rest == m.c.Coming([]))
  }

  lemma StepMatches(s: Stepper, m: Plain, call: Call, b: Range)
    requires Matches(s, m) && s.Sound()
    requires s.source.Stored? || (call.Change? ==> call.now.Ordered() && call.now.NothingBad())
    ensures s.source.Stored? ==> s.Do(call, b).0.source.Stored?
    ensures Matches(s.Do(call, b).0, m.Do(call, b).0) && s.Do(call, b).1 == m.Do(call, b).1
  {
    hide Contents.StartOf, Contents.SeekOf, Contents.Shows, CopiedValue, LentValue,
      Cursor.Next, Cursor.Coming, Future.Outcome, Future.Here, Future.Beyond;
    var now := s.source.Shows(b);
    ReadableShows(s.source, b, if call.Seek? then call.target else []);
    if call.Next? {
      NextAdvances(m.c, now, if s.rewound then s.source.StartOf(b) else s.left);
    } else if call.Seek? {
      SeekAdvances(m.c, now, call.target, b.reverse, s.source.SeekOf(b, call.target));
    }
  }

  lemma {:induction false} RunMatches(s: Stepper, m: Plain, calls: seq<Call>, b: Range)
    requires Matches(s, m) && s.Sound()
    requires s.source.Stored? || forall call :: call in calls && call.Change? ==> call.now.Ordered() && call.now.NothingBad()
    ensures s.Run(calls, b) == m.Run(calls, b)
    decreases |calls|
  {
    hide Matches, Stepper.Do, Plain.Do, Stepper.Sound, Contents.Ordered;
    if calls != [] {
      StepMatches(s, m, calls[0], b);
      RunMatches(s.Do(calls[0], b).0, m.Do(calls[0], b).0, calls[1..], b);
    }
  }

  // ---- when a transaction's writes are seen ----

  /** What happens to a transaction midway through an iteration, writes or its end, changes nothing that
      is observed until a seek or a reset. */
  lemma {:induction false} WritesInvisibleMidway(s: Stepper, others: Contents, calls: seq<Call>, b: Range)
    requires s.Sound() && s.(source := others).Sound()
    requires !s.rewound && forall call :: call in calls ==> !call.Reset? && !call.Seek?
    ensures s.Run(calls, b) == s.(source := others).Run(calls, b)
    decreases |calls|
  {
    hide Contents.StartOf, Look;
    if calls != [] {
      var next, next' := s.Do(calls[0], b).0, s.(source := others).Do(calls[0], b).0;
      assert next' == next.(source := next'.source);
      WritesInvisibleMidway(next, next'.source, calls[1..], b);
    }
  }

  /** What a transaction holds once these calls have been made. */
  function LastHeld(source: Contents, calls: seq<Call>): Contents
    decreases |calls|
  {
    if calls == [] then source
    else LastHeld(if calls[0].Change? then source.Changed(calls[0].now) else source, calls[1..])
  }

  lemma QuietStep(source: Contents, others: Contents, closed: bool, call: Call, b: Range)
    requires !source.Stored? && !others.Stored? && !call.Next? && !call.Seek?
    ensures var (next, seen) := Rewound(source, closed).Do(call, b);
            && next == Rewound(if call.Change? then source.Changed(call.now) else source, closed || call == Close)
            && !next.source.Stored? && seen == Rewound(others, closed).Do(call, b).1
  {
  }

  /** Before the first advance or seek, and after a reset up to the next one, nothing is sampled: what is
      observed there does not depend on the contents, and what is observed from there on is what it would
      be had the transaction held its last contents all along. */
  lemma {:induction false} NothingSampledYet(source: Contents, others: Contents, closed: bool, first: seq<Call>,
                                              calls: seq<Call>, b: Range)
    requires !source.Stored? && !others.Stored? && forall call :: call in first ==> !call.Next? && !call.Seek?
    ensures !LastHeld(source, first).Stored?
    ensures Rewound(source, closed).Run(first + calls, b)
         == Rewound(others, closed).Run(first, b) + Rewound(LastHeld(source, first), closed || Close in first).Run(calls, b)
    decreases |first|
  {
    hide Stepper.Do;
    if first == [] {
      assert first + calls == calls;
    } else {
      QuietStep(source, others, closed, first[0], b);
      QuietStep(others, source, closed, first[0], b);
      assert (first + calls)[1..] == first[1..] + calls;
      assert first == [first[0]] + first[1..];
      NothingSampledYet(Rewound(source, closed).Do(first[0], b).0.source, Rewound(others, closed).Do(first[0], b).0.source,
                        closed || first[0] == Close, first[1..], calls, b);
    }
  }

  // ---- every run ----

  /** Contents every batch of which can be copied into Go, wherever it starts. */
  ghost predicate Fits(source: Contents, b: Range) {
    source.Ordered() && Copyable(source.Shows(b))
  }

  /** Keys of up to 8388603 bytes always fit; `GoIter.ShortIsExact` has the partner. */
  lemma ShortKeysFit(ps: seq<Pair>, b: Range)
    requires Sorted(ps) && forall p :: p in ps ==> |p.key| + 4 < 0x80_0000
    ensures Copyable(View(ps, b))
  {
    var v := View(ps, b);
    forall i | 0 <= i < |v|
      ensures |v[i].key| + 4 < 0x80_0000
    {
      assert v[i] in v;
      ViewMembers(ps, b, v[i]);
    }
    ShortKeysCopyable(v);
  }

  /** What starting over or seeking yields is copyable where the view is. */
  lemma FitsFutures(source: Contents, b: Range, target: Bytes)
    requires Fits(source, b)
    ensures Copyable(source.StartOf(b).rest) && Copyable(source.SeekOf(b, target).rest)
  {
    hide Copyable, Contents.StartOf, Contents.SeekOf, Contents.Shows;
    var v, start, sought := source.Shows(b), source.StartOf(b).rest, source.SeekOf(b, target).rest;
    var n := CountEarlier(v, target, b.reverse);
    ShowsPrefix(source, b, target);
    assert start == v[..|start|] && sought == v[n..][..|sought|];
    CopyableFirst(v, |start|);
    CopyableFrom(v, n);
    CopyableFirst(v[n..], |sought|);
  }

  /** The iterator shows what the stepper does. */
  ghost predicate Tracks(it: Iter, s: Stepper)
    reads it, it.i, it.i.over, it.db
  {
    && it.Valid() && it.db.closed == s.closed && it.i.Walked() == s.source && Fits(s.source, it.i.bounds)
    && it.i.reset == s.rewound
    && if s.rewound then it.ents == [] && !it.done && s.here == None
       else Copyable(Behind(it.i, it.done).rest) && it.Current() == s.here && Left(it) == s.left
  }

  method PerformNext(it: Iter, ghost s: Stepper) returns (seen: Observation)
    requires Tracks(it, s) && s.Sound()
    modifies it, it.i
    ensures var (next, expected) := s.Do(Next, it.i.bounds); seen == expected && Tracks(it, next)
  {
    hide RegolithIter.BatchValid, RegolithIter.PendingValid, Copyable, Located, Left, Behind, Fits,
      Contents.StartOf, Future.Outcome, Future.Here, Future.Beyond;
    var r;
    if it.db.closed {
      r := it.Next();
    } else {
      FitsFutures(s.source, it.i.bounds, []);
      if it.i.reset { LeftAtStart(it); }
      r := Advance(it);
    }
    return Told(r);
  }

  method PerformSeek(it: Iter, target: Bytes, ghost s: Stepper) returns (seen: Observation)
    requires Tracks(it, s) && s.Sound()
    modifies it, it.i
    ensures var (next, expected) := s.Do(Seek(target), it.i.bounds); seen == expected && Tracks(it, next)
  {
    hide RegolithIter.BatchValid, RegolithIter.PendingValid, Copyable, Located, Left, Behind, Fits,
      Contents.SeekOf, Future.Outcome, Future.Here, Future.Beyond;
    var r;
    if it.db.closed {
      r := it.Seek(target);
    } else {
      FitsFutures(s.source, it.i.bounds, target);
      r := SeekInto(it, target);
    }
    return Told(r);
  }

  method PerformRead(it: Iter, call: Call, ghost s: Stepper) returns (seen: Observation)
    requires Tracks(it, s) && s.Sound() && (call.Key? || call.Value? || call.AppendValue?)
    ensures s.Do(call, it.i.bounds) == (s, seen)
  {
    hide Located, RegolithIter.BatchValid, RegolithIter.PendingValid, Copyable, Fits, Left, Behind;
    assert it.Current() == s.here;
    match call
    case Key =>
      var k := it.Key();
      return Read(k);
    case Value =>
      var v := it.Value();
      return match v case Got(bytes) => Read(bytes) case _ => Crashed;
    case AppendValue(dst) =>
      var extended := it.AppendValue(dst);
      return Read(Some(extended));
  }

  /** Make one call, on an iterator whose transaction, if it has one, is `txn`. */
  method Perform(it: Iter, txn: TxnInner?, call: Call, ghost s: Stepper) returns (seen: Observation)
    requires Tracks(it, s) && s.Sound() && txn == it.i.over
    requires call.Change? && txn != null ==> Fits(call.now, it.i.bounds)
    modifies it, it.i, it.db, txn
    ensures var (next, expected) := s.Do(call, it.i.bounds); seen == expected && Tracks(it, next)
  {
    hide Located, RegolithIter.BatchValid, Copyable, Fits;
    match call
    case Next =>
      seen := PerformNext(it, s);
    case Seek(target) =>
      seen := PerformSeek(it, target, s);
    case Reset =>
      it.Reset();
      seen := Done;
    case Key =>
      seen := PerformRead(it, call, s);
    case Value =>
      seen := PerformRead(it, call, s);
    case AppendValue(_) =>
      seen := PerformRead(it, call, s);
    case Change(now) =>
      if txn != null && !now.Stored? { txn.txn := if now.Buffered? then Some(now.m) else None; }
      seen := Done;
    case Close =>
      it.db.Close();
      seen := Done;
  }

  /** Any run of calls observes what the single stepper observes, unreadable keys, a resolved transaction
      and a closed store included. */
  method RunCalls(it: Iter, txn: TxnInner?, calls: seq<Call>, ghost s: Stepper) returns (seen: seq<Observation>)
    requires Tracks(it, s) && s.Sound() && txn == it.i.over
    requires forall i :: 0 <= i < |calls| && calls[i].Change? && txn != null ==> Fits(calls[i].now, it.i.bounds)
    modifies it, it.i, it.db, txn
    ensures seen == s.Run(calls, it.i.bounds)
  {
    hide Tracks, Fits, Stepper.Do, Stepper.Sound;
    seen := [];
    ghost var now := s;
    for k := 0 to |calls|
      invariant now.Sound() && Tracks(it, now)
      invariant seen + now.Run(calls[k..], it.i.bounds) == s.Run(calls, it.i.bounds)
    {
      assert calls[k..][0] == calls[k] && calls[k..][1..] == calls[k + 1..];
      var one := Perform(it, txn, calls[k], now);
      now := now.Do(calls[k], it.i.bounds).0;
      seen := seen + [one];
    }
  }

  /** An iterator over a store: any run of calls steps through the snapshot, up to what cannot be read; a
      snapshot that can be read is seen through the plain cursor. */
  method RunOverStore(db: Database.DB, pairs: seq<Pair>, bad: set<Bytes>, b: Range, calls: seq<Call>)
    returns (seen: seq<Observation>)
    requires Fits(Stored(pairs, bad), b)
    modifies db
    ensures Sorted(pairs) && seen == Rewound(Stored(pairs, bad), old(db.closed)).Run(calls, b)
    ensures bad == {} ==> seen == Plain(Unpositioned, Stored(pairs, bad), old(db.closed)).Run(calls, b)
  {
    var i := new RegolithIter.OverSnapshot(pairs, bad, b);
    var it := new Iter(db, i);
    ghost var s := Rewound(Stored(pairs, bad), db.closed);
    seen := RunCalls(it, null, calls, s);
    if bad == {} { RunMatches(s, Plain(Unpositioned, s.source, s.closed), calls, b); }
  }

  /** An iterator over a live transaction: the same, sampling the transaction on the first advance, on
      every seek and on the first advance after every reset, and at no other time. */
  method RunOverTxn(db: Database.DB, txn: TxnInner, b: Range, calls: seq<Call>) returns (seen: seq<Observation>)
    requires txn.txn.Some? && Fits(Buffered(txn.txn.value), b)
    requires forall i :: 0 <= i < |calls| && calls[i].Change? ==> Fits(calls[i].now, b)
    modifies txn, db
    ensures seen == Rewound(Buffered(old(txn.txn.value)), old(db.closed)).Run(calls, b)
    ensures old(txn.txn.value.bad) == {} && AllReadable(calls) ==>
              seen == Plain(Unpositioned, Buffered(old(txn.txn.value)), old(db.closed)).Run(calls, b)
  {
    var i := new RegolithIter.OverTxn(txn, b);
    var it := new Iter(db, i);
    ghost var s := Rewound(Buffered(txn.txn.value), db.closed);
    seen := RunCalls(it, txn, calls, s);
    if s.source.m.bad == {} && AllReadable(calls) { RunMatches(s, Plain(Unpositioned, s.source, s.closed), calls, b); }
  }

  /** Whatever the transaction comes to hold can be read. */
  ghost predicate AllReadable(calls: seq<Call>) {
    forall call :: call in calls && call.Change? ==> call.now.NothingBad()
  }

  /** Writes buffered ahead of the first advance, with resets and reads among them or not, are seen as if
      the transaction had held the last of them from the beginning: two runs of the same calls, one over
      the transaction they are buffered in and one over a transaction that already holds them. */
  method BufferedFirst(db: Database.DB, other: Database.DB, txn: TxnInner, held: TxnInner, b: Range,
                       first: seq<Call>, calls: seq<Call>)
    returns (seen: seq<Observation>, seenHeld: seq<Observation>)
    requires db != other && txn != held && txn.txn.Some? && held.txn.Some?
    requires other.closed == (db.closed || Close in first)
    requires Buffered(held.txn.value) == LastHeld(Buffered(txn.txn.value), first)
    requires Fits(Buffered(txn.txn.value), b) && Fits(Buffered(held.txn.value), b)
    requires forall call :: call in first ==> !call.Next? && !call.Seek?
    requires forall call :: call in first + calls && call.Change? ==> Fits(call.now, b)
    modifies txn, held, db, other
    ensures |seen| == |first| + |calls| && seen[|first|..] == seenHeld
  {
    hide Fits, Stepper.Run, LastHeld;
    ghost var source := Buffered(txn.txn.value);
    NothingSampledYet(source, Resolved, db.closed, first, calls, b);
    seen := RunOverTxn(db, txn, b, first + calls);
    seenHeld := RunOverTxn(other, held, b, calls);
  }

  /** What `Fits` asks is what the code needs: a seek to an entry answers exactly when the batch it draws
      from there frames to less than 2^31 bytes. */
  method SeekEntry(db: Database.DB, pairs: seq<Pair>, b: Range, k: nat) returns (r: Answer<bool>)
    requires !db.closed && Sorted(pairs) && k < |View(pairs, b)|
    ensures r == Got(true) <==> |Frame(Drawn(View(pairs, b)[k..]))| < 0x8000_0000
  {
    hide View, Contents.SeekOf, Frame, Gather, Iter.Valid, LeftAt, BatchReply, Arrives, Earlier;
    var v := View(pairs, b);
    var i := new RegolithIter.OverSnapshot(pairs, {}, b);
    var it := new Iter(db, i);
    ReadableShows(Stored(pairs, {}), b, v[k].key);
    EarlierCount(pairs, b, k);
    RefillArrives(i.SeekFuture(v[k].key));
    r := it.Seek(v[k].key);
  }
}
