/** The Rust iterator (ffi/src/iter.rs). */
module FfiIter {
  import opened Basics
  import opened Bounds
  import opened Views
  import opened Engine
  import opened Walks
  import opened Batches
  import LittleEndian

  /** Where the entries come from. */
  datatype Source =
    | Snapshot(cursor: SnapshotCursor)
    | Txn(txn: TxnInner, stream: Option<TxnScanStream>, current: Option<Entry>)
  {
    predicate InRange(b: Range) {
      if Snapshot? then cursor.Key().Some? && b.Contains(cursor.Key().value)
      else current.Some?
    }

    function CurrentKey(b: Range): Option<Bytes> {
      if !InRange(b) then None
      else if Snapshot? then cursor.Key()
      else Some(current.value.key)
    }

    function CurrentValueSlice(b: Range): Option<Bytes> {
      if b.keysOnly || !InRange(b) then None
      else if Snapshot? then cursor.Value()
      else current.value.value
    }

    /** The entry the iterator is positioned on, as its caller may read it. */
    function Current(b: Range): Option<Entry> {
      if CurrentKey(b).Some? then Some(Entry(CurrentKey(b).value, CurrentValueSlice(b))) else None
    }

    /** What stepping on from here yields. */
    function Ahead(b: Range): Future {
      if Snapshot? then
        if InRange(b) then Landing(cursor.pairs, cursor.bad, b, Onward(b, cursor.at)) else Nothing
      else if stream.Some? then Streamed(stream.value, b.keysOnly)
      else Nothing
    }

    /** One advance into `f` ends here. */
    ghost predicate LandedIn(f: Future, b: Range) {
      Current(b) == f.Here() && Ahead(b) == f.Beyond()
    }
  }

  /** A batch handed over: its framed keys and how many there are. */
  datatype Framed = Framed(frame: Bytes, count: nat)

  /** What one iteration of a batch did. */
  datatype Turn = Took(frame: Bytes, retained: nat) | Exhausted | ReadFailed(failure: Failure) | TooLong

  /** Did a batch that took `n` entries of `up` walk off their end? */
  predicate RanOff(up: Future, max: nat, n: nat)
    requires n <= |up.rest|
  {
    n == |up.rest| && n < max && Kept(up.rest[..n]) < MAX_BATCH_VALUE_BYTES
  }

  /** The reply of a batch of at most `max` entries drawn from `up`. A key that cannot be framed
      discards what was gathered before it; a failure is replied only when nothing was gathered. */
  function BatchReply(up: Future, max: nat): Result<Framed> {
    var n := Gather(up.rest, max, 0);
    if FirstLong(up.rest) < n then Err(KeyTooLong)
    else if n == 0 && up.failure.Some? then Err(up.failure.value)
    else Ok(Framed(Frame(up.rest[..n]), n))
  }

  /** The entries it hands over. */
  function BatchTaken(up: Future, max: nat): seq<Entry> {
    var n := Gather(up.rest, max, 0);
    if FirstLong(up.rest) < n then [] else up.rest[..n]
  }

  /** The failure it holds back: one met behind entries already gathered. */
  function BatchHeld(up: Future, max: nat): Option<Failure> {
    var n := Gather(up.rest, max, 0);
    if 0 < n <= FirstLong(up.rest) && RanOff(up, max, n) then up.failure else None
  }

  ghost predicate Served(up: Future, max: nat, r: Result<Framed>, batch: seq<Entry>, pending: Option<Failure>) {
    r == BatchReply(up, max) && batch == BatchTaken(up, max) && pending == BatchHeld(up, max)
  }

  /** Where such a batch leaves the source: the entry stood on, and what stepping on yields. */
  function BatchLands(up: Future, max: nat): (Option<Entry>, Future) {
    var n := Gather(up.rest, max, 0);
    var long := FirstLong(up.rest);
    if long < n then (Some(up.rest[long]), up.Drop(long + 1))
    else if n == 0 || RanOff(up, max, n) then (None, up.Drop(n).Beyond())
    else (Some(up.rest[n - 1]), up.Drop(n))
  }

  ghost predicate LeftAt(up: Future, max: nat, current: Option<Entry>, ahead: Future) {
    (current, ahead) == BatchLands(up, max)
  }

  /** A batch frames a prefix of what was coming. */
  lemma ServedFromUp(up: Future, max: nat, r: Result<Framed>, batch: seq<Entry>, pending: Option<Failure>)
    requires Served(up, max, r, batch, pending)
    ensures batch <= up.rest && |batch| <= max
    ensures r.Err? ==> batch == []
    ensures pending == BatchHeld(up, max) && (up.rest == [] ==> pending == None)
  {
  }

  /** A batch that was handed over keeps under the cap before its last entry. It is shorter than asked
      for only at exhaustion, at the value cap, or ahead of the failure it holds back. */
  lemma ShortBatchReason(up: Future, max: nat, r: Result<Framed>, batch: seq<Entry>, pending: Option<Failure>)
    requires Served(up, max, r, batch, pending) && max > 0 && r.Ok?
    ensures batch != [] ==> Kept(batch[..|batch| - 1]) < MAX_BATCH_VALUE_BYTES
    ensures |batch| < max ==>
              || Kept(batch) >= MAX_BATCH_VALUE_BYTES
              || (batch == up.rest && pending == up.failure && (batch == [] ==> pending == None))
  {
    hide Kept, Frame;
    var n := Gather(up.rest, max, 0);
    GatherStopsAtCap(up.rest, max, 0);
    if n > 0 {
      assert batch[..|batch| - 1] == up.rest[..n - 1];
    }
  }

  /** A key of 2^32 bytes or more that a batch gets to refuses it, and discards what was gathered before;
      the iterator stands on that key, and goes on behind it. */
  lemma LongKeyDiscards(up: Future, max: nat, i: nat)
    requires i < |up.rest| && i < max && Kept(up.rest[..i]) < 1048576
    requires |up.rest[i].key| >= 4294967296 && forall j :: 0 <= j < i ==> |up.rest[j].key| < 4294967296
    ensures BatchReply(up, max) == Err(KeyTooLong) && BatchTaken(up, max) == [] && BatchHeld(up, max) == None
    ensures BatchLands(up, max) == (Some(up.rest[i]), up.(rest := up.rest[i + 1..]))
  {
    hide Kept, Gather, Frame;
    GathersTo(up.rest, max, i);
    assert FirstLong(up.rest) == i;
  }

  /** A source that held a failure back has run off its end. */
  lemma HeldMeansOver(up: Future, max: nat, current: Option<Entry>, ahead: Future)
    requires LeftAt(up, max, current, ahead) && BatchHeld(up, max).Some?
    ensures current == None && up.rest != [] && up.failure.Some?
    ensures ahead == Future([], BatchHeld(up, max), up.sticky).Beyond()
  {
  }

  lemma NothingTaken(up: Future, max: nat)
    ensures Filling(up.rest, max, 0, 0) && Holds(up.rest, 0, [], []) && up.Drop(0) == up
  {
  }

  /** The next advance runs off the end of what is coming. */
  lemma EndsOffTheEnd(up: Future, max: nat, count: nat, frame: Bytes, values: seq<Bytes>, retained: nat)
    requires Filling(up.rest, max, count, retained) && Holds(up.rest, count, frame, values)
    requires count < max && up.Drop(count).rest == []
    ensures count == 0 && up.failure.Some? ==> Served(up, max, Err(up.failure.value), [], None)
    ensures count == 0 && up.failure == None ==> Served(up, max, Ok(Framed(frame, 0)), [], None)
    ensures count > 0 ==> Served(up, max, Ok(Framed(frame, count)), up.rest[..count], up.failure)
    ensures LeftAt(up, max, None, up.Drop(count).Beyond())
    ensures values == ValuesOf(up.rest[..count])
    ensures up.Drop(count).Here() == None
  {
    assert Gather(up.rest[count..], max - count, retained) == 0;
  }

  /** The batch is full: by count or by the bytes it keeps. */
  lemma EndsFull(up: Future, max: nat, count: nat, frame: Bytes, values: seq<Bytes>, retained: nat)
    requires Holds(up.rest, count, frame, values) && count > 0
    requires || (count == max && Filling(up.rest, max, count, retained))
             || (count == Gather(up.rest, max, 0) && Kept(up.rest[..count]) >= MAX_BATCH_VALUE_BYTES)
    ensures Served(up, max, Ok(Framed(frame, count)), up.rest[..count], None)
    ensures LeftAt(up, max, Some(up.rest[count - 1]), up.Drop(count))
    ensures values == ValuesOf(up.rest[..count])
  {
  }

  /** The next key cannot be framed. */
  lemma EndsAtLongKey(up: Future, max: nat, count: nat, frame: Bytes, values: seq<Bytes>, retained: nat)
    requires Filling(up.rest, max, count, retained) && Holds(up.rest, count, frame, values)
    requires count < max && count < |up.rest| && |up.rest[count].key| >= LittleEndian.U32_LIMIT
    ensures Served(up, max, Err(KeyTooLong), [], None)
    ensures LeftAt(up, max, Some(up.rest[count]), up.Drop(count + 1))
  {
    assert FirstLong(up.rest) == count;
  }

  class RegolithIter {
    const bounds: Range
    var source: Source
    var reset: bool
    var includeCurrent: bool
    var batchValues: seq<Bytes>
    var batchCount: nat
    var pending: Option<Failure>

    /** The transaction iterated over, if any; otherwise the snapshot's pairs and bad keys. */
    ghost const over: TxnInner?
    ghost const pairs: seq<Pair>
    ghost const bad: set<Bytes>

    /** The entries the most recent batch framed. */
    ghost var batch: seq<Entry>

    ghost predicate SourceValid()
      reads this`source
    {
      && (over == null ==> Sorted(pairs))
      && (over == null ==>
            && source.Snapshot? && source.cursor.WellFormed()
            && source.cursor.pairs == pairs && source.cursor.bad == bad)
      && (over != null ==>
            && source.Txn? && source.txn == over
            && (source.current.Some? ==> (source.current.value.value == None <==> bounds.keysOnly))
            && (source.current == None && source.stream.Some? ==> source.stream.value.rest == []))
    }

    /** `batchCount` entries are addressable and, unless values are not read, each has its value
        retained at its own index. A refused long key leaves values behind with nothing addressable. */
    ghost predicate BatchValid()
      reads this
    {
      && batchCount == |batch|
      && ShownAs(batch, bounds.keysOnly)
      && (batchCount > 0 ==> batchValues == ValuesOf(batch))
      && (bounds.keysOnly ==> batchValues == [])
    }

    /** A failure held back was met at the end of what there was to show. */
    ghost predicate PendingValid()
      reads this
    {
      pending.Some? ==>
        && !reset && !includeCurrent && Current() == None
        && Ahead() == Future([], pending, over != null).Beyond()
    }

    ghost predicate Valid()
      reads this
    {
      SourceValid() && BatchValid() && PendingValid()
    }

    constructor OverSnapshot(pairs: seq<Pair>, bad: set<Bytes>, bounds: Range)
      requires Sorted(pairs)
      ensures Valid() && this.bounds == bounds
      ensures over == null && this.pairs == pairs && this.bad == bad
      ensures reset && !includeCurrent && pending == None && batch == []
      ensures Current() == None && Ahead() == Nothing
    {
      this.bounds := bounds;
      source := Snapshot(SnapshotCursor(pairs, bad, -1));
      reset, includeCurrent, pending := true, false, None;
      batchValues, batchCount, batch := [], 0, [];
      over, this.pairs, this.bad := null, pairs, bad;
    }

    /** Over a transaction; the caller has checked that it is not resolved. */
    constructor OverTxn(txn: TxnInner, bounds: Range)
      ensures Valid() && this.bounds == bounds && over == txn
      ensures reset && !includeCurrent && pending == None && batch == []
      ensures Current() == None && Ahead() == Nothing
    {
      this.bounds := bounds;
      source := Txn(txn, None, None);
      reset, includeCurrent, pending := true, false, None;
      batchValues, batchCount, batch := [], 0, [];
      over, this.pairs, this.bad := txn, [], {};
    }

    // ---- what the iterator stands on and what it will yield ----

    /** The entry the iterator is positioned on. */
    ghost function Current(): Option<Entry>
      reads this`source
    {
      source.Current(bounds)
    }

    /** What stepping on from here yields. */
    ghost function Ahead(): Future
      reads this`source
    {
      source.Ahead(bounds)
    }

    /** What is walked, as it stands now. */
    ghost function Walked(): Contents
      reads over
    {
      if over == null then Stored(pairs, bad)
      else match over.txn case None => Resolved case Some(m) => Buffered(m)
    }

    /** What restarting now yields. */
    ghost function StartFuture(): Future
      requires over == null ==> Sorted(pairs)
      reads over
    {
      Walked().StartOf(bounds)
    }

    /** What seeking `target` now yields, the entry landed on first. */
    ghost function SeekFuture(target: Bytes): Future
      requires over == null ==> Sorted(pairs)
      reads over
    {
      Walked().SeekOf(bounds, target)
    }

    /** After a seek that found nothing, one batch reports exhaustion without advancing. */
    ghost predicate Adrift()
      reads this`source, this`reset, this`includeCurrent
    {
      !reset && includeCurrent && Current() == None
    }

    /** Nothing further to show until a seek or a reset. */
    ghost predicate Spent()
      reads this`source, this`reset
    {
      !reset && Current() == None
    }

    /** What the next batch draws from. */
    ghost function Upcoming(): Future
      requires over == null ==> Sorted(pairs)
      reads this`source, this`reset, this`includeCurrent, over
    {
      if reset then StartFuture()
      else if includeCurrent then
        if Current().Some? then Ahead().(rest := [Current().value] + Ahead().rest) else Nothing
      else Ahead()
    }

    /** What the following batches hand over, a failure held back included. */
    ghost function Offered(): Future
      requires over == null ==> Sorted(pairs)
      reads this`source, this`reset, this`includeCurrent, this`pending, over
    {
      if pending.Some? then Future([], pending, over != null)
      else if Adrift() then Ahead()
      else Upcoming()
    }

    lemma OfferedIsAhead()
      requires SourceValid() && !reset && !includeCurrent && pending == None
      ensures over == null ==> Sorted(pairs)
      ensures !Adrift() && Offered() == Upcoming() == Ahead()
    {
    }

    /** A failure held back hides no entry. */
    lemma OfferedRest()
      requires SourceValid() && PendingValid() && !reset && !includeCurrent
      ensures over == null ==> Sorted(pairs)
      ensures Offered().rest == Ahead().rest
    {
    }

    // ---- moving ----

    /** A move's reply: an invalid cursor has run off the end or met a read failure. */
    function CursorValid(): (r: Result<bool>)
      requires SourceValid() && source.Snapshot?
      reads this
      ensures r == Landing(pairs, bad, bounds, source.cursor.at).Outcome()
      ensures source.LandedIn(Landing(pairs, bad, bounds, source.cursor.at), bounds)
    {
      if source.cursor.Valid() then Ok(source.InRange(bounds))
      else match source.cursor.Status()
        case None => Ok(false)
        case Some(e) => Err(e)
    }

    /** Scan the transaction afresh, between `start` and `end`. */
    method Rebuild(start: Option<Bytes>, end: Option<Bytes>) returns (r: Option<Failure>)
      requires SourceValid() && source.Txn?
      modifies this`source
      ensures source.Txn? && source.txn == over && source.current == None
      ensures over.txn == None ==> r == Some(Discarded) && source.stream == None
      ensures over.txn.Some? ==> r == None && source.stream == Some(over.txn.value.ScanStreamIn(start, end, bounds.reverse))
    {
      source := source.(stream := None, current := None);
      match source.txn.txn
      case None => return Some(Discarded);
      case Some(m) =>
        source := source.(stream := Some(m.ScanStreamIn(start, end, bounds.reverse)));
        return None;
    }

    /** Move on to what the stream yields next. */
    method Pull() returns (r: Result<bool>)
      requires source.Txn? && source.txn == over
      modifies this`source
      ensures SourceValid()
      ensures var f := old(Ahead()); r == f.Outcome() && source.LandedIn(f, bounds)
      ensures old(source.current == None && Ahead().rest == []) ==> source == old(source)
    {
      if source.stream == None {
        source := source.(current := None);
        return Ok(false);
      }
      var stream := source.stream.value;
      if stream.rest != [] {
        var p := stream.rest[0];
        assert ShowAll(stream.rest, bounds.keysOnly)[1..] == ShowAll(stream.rest[1..], bounds.keysOnly);
        source := source.(stream := Some(stream.(rest := stream.rest[1..])), current := Some(Shown(p, bounds.keysOnly)));
        return Ok(true);
      }
      source := source.(current := None);
      match stream.status
      case None => return Ok(false);
      case Some(e) => return Err(e);
    }

    /** Start over from the beginning of the walk. */
    method Restart() returns (r: Result<bool>)
      requires SourceValid()
      modifies this`source
      ensures SourceValid()
      ensures var f := old(StartFuture()); r == f.Outcome() && source.LandedIn(f, bounds)
    {
      if source.Txn? {
        var failed := Rebuild(bounds.start, bounds.end);
        if failed.Some? { return Err(failed.value); }
        r := Pull();
        return;
      }
      var cursor := source.cursor;
      if bounds.reverse {
        if bounds.end.Some? {
          cursor := cursor.SeekForPrev(bounds.end.value);
          if cursor.Valid() && cursor.Key() == Some(bounds.end.value) {
            cursor := cursor.Prev();
          }
        } else {
          cursor := cursor.SeekToLast();
        }
      } else {
        cursor := if bounds.start.Some? then cursor.Seek(bounds.start.value) else cursor.SeekToFirst();
      }
      source := Snapshot(cursor);
      return CursorValid();
    }

    /** One entry further. A source with nothing left to show does not change. */
    method Step() returns (r: Result<bool>)
      requires SourceValid()
      modifies this`source
      ensures SourceValid()
      ensures var f := old(Ahead()); r == f.Outcome() && source.LandedIn(f, bounds)
      ensures old(Current()) == None ==> source == old(source)
    {
      if source.Txn? {
        r := Pull();
        return;
      }
      if !source.InRange(bounds) { return Ok(false); }
      source := Snapshot(if bounds.reverse then source.cursor.Prev() else source.cursor.Next());
      return CursorValid();
    }

    method SeekForward(target: Bytes) returns (r: Result<bool>)
      requires SourceValid() && !bounds.reverse
      modifies this`source
      ensures SourceValid()
      ensures var f := old(SeekFuture(target)); r == f.Outcome() && source.LandedIn(f, bounds)
    {
      var clamped := if bounds.start.Some? && Less(target, bounds.start.value) then bounds.start.value else target;
      if source.Txn? {
        var failed := Rebuild(Some(clamped), bounds.end);
        if failed.Some? { return Err(failed.value); }
        r := Pull();
        return;
      }
      source := Snapshot(source.cursor.Seek(clamped));
      return CursorValid();
    }

    method SeekReverse(target: Bytes) returns (r: Result<bool>)
      requires SourceValid() && bounds.reverse
      modifies this`source
      ensures SourceValid()
      ensures var f := old(SeekFuture(target)); r == f.Outcome() && source.LandedIn(f, bounds)
    {
      var aboveEnd := bounds.end.Some? && !Less(target, bounds.end.value);
      if source.Txn? {
        var end := if bounds.end.Some? && aboveEnd then bounds.end.value else target + [0];
        var failed := Rebuild(bounds.start, Some(end));
        if failed.Some? { return Err(failed.value); }
        r := Pull();
        return;
      }
      if aboveEnd {
        r := Restart();
        return;
      }
      source := Snapshot(source.cursor.SeekForPrev(target));
      return CursorValid();
    }

    method InvalidateBatch()
      modifies this`batchValues, this`batchCount, this`batch
      ensures batchValues == [] && batchCount == 0 && batch == []
    {
      batchValues, batchCount, batch := [], 0, [];
    }

    // ---- entry points ----

    /** One entry further, past the one a seek landed on. The last batch stays readable. */
    method Next() returns (r: Result<bool>)
      requires Valid()
      modifies this`source, this`reset, this`includeCurrent
      ensures Valid() && !reset && !includeCurrent
      ensures var f := old(if reset then StartFuture() else Ahead()); r == f.Outcome() && source.LandedIn(f, bounds)
      ensures old(Spent()) ==> source == old(source)
    {
      includeCurrent := false;
      if reset {
        reset := false;
        r := Restart();
      } else {
        r := Step();
      }
    }

    method Seek(target: Bytes) returns (r: Result<bool>)
      requires Valid()
      modifies this
      ensures Valid() && !reset && includeCurrent && pending == None && batch == []
      ensures var f := old(SeekFuture(target)); r == f.Outcome() && source.LandedIn(f, bounds)
    {
      reset := false;
      pending := None;
      InvalidateBatch();
      includeCurrent := true;
      if bounds.reverse {
        r := SeekReverse(target);
      } else {
        r := SeekForward(target);
      }
    }

    /** After a seek that found an entry, the next batch starts on it. */
    lemma UpcomingAfterSeek(f: Future)
      requires SourceValid() && !reset && includeCurrent && source.LandedIn(f, bounds) && f.rest != []
      ensures Upcoming() == f && !Adrift()
    {
      assert f.rest == [f.rest[0]] + f.rest[1..];
    }

    method Reset()
      requires Valid()
      modifies this
      ensures Valid() && reset && !includeCurrent && pending == None && batch == []
      ensures source == old(source)
    {
      reset := true;
      includeCurrent := false;
      pending := None;
      InvalidateBatch();
    }

    /** The advance that one turn of a batch begins with. */
    method AdvanceInBatch() returns (r: Result<bool>)
      requires SourceValid()
      modifies this`source, this`reset, this`includeCurrent
      ensures SourceValid() && !reset && !includeCurrent
      ensures r == old(Upcoming()).Outcome()
      ensures old(Spent()) ==> source == old(source)
      ensures !old(Adrift()) ==> source.LandedIn(old(Upcoming()), bounds)
    {
      if reset {
        reset := false;
        includeCurrent := false;
        r := Restart();
        return;
      }
      if includeCurrent {
        includeCurrent := false;
        return Ok(source.InRange(bounds));
      }
      r := Step();
    }

    /** One iteration of a batch: advance, then frame the entry's key onto `frame` and retain its value. */
    method TakeTurn(frame: Bytes, retained: nat) returns (r: Turn)
      requires SourceValid()
      modifies this`source, this`reset, this`includeCurrent, this`batchValues
      ensures SourceValid() && !reset && !includeCurrent && !Adrift() && Upcoming() == Ahead()
      ensures old(Spent()) ==> source == old(source)
      ensures !old(Adrift()) ==> Current() == old(Upcoming()).Here() && Ahead() == old(Upcoming()).Beyond()
      ensures var up := old(Upcoming());
              if up.rest == [] then
                && r == (if up.failure.Some? then ReadFailed(up.failure.value) else Exhausted)
                && batchValues == old(batchValues)
              else if |up.rest[0].key| >= LittleEndian.U32_LIMIT then
                r == TooLong && batchValues == old(batchValues)
              else
                && r == Took(frame + LittleEndian.Encode(|up.rest[0].key|, 4) + up.rest[0].key, retained + Weight(up.rest[0]))
                && batchValues == old(batchValues) + if up.rest[0].value.Some? then [up.rest[0].value.value] else []
      ensures bounds.keysOnly ==> batchValues == old(batchValues)
    {
      var moved := AdvanceInBatch();
      if moved.Err? { return ReadFailed(moved.error); }
      if !moved.value { return Exhausted; }
      // An advance that succeeded stands on an entry, so its key is present.
      var key := source.CurrentKey(bounds).value;
      if |key| >= LittleEndian.U32_LIMIT { return TooLong; }
      var framed := frame + LittleEndian.Encode(|key|, 4) + key;
      var value := source.CurrentValueSlice(bounds);
      if value == None { return Took(framed, retained); }
      batchValues := batchValues + [value.value];
      return Took(framed, retained + |value.value|);
    }

    lemma SpentDrawsNothing()
      requires SourceValid()
      ensures over == null ==> Sorted(pairs)
      ensures Spent() ==> Upcoming().rest == [] && Ahead().rest == [] && Ahead().Beyond() == Ahead()
      ensures Adrift() ==> Spent() && Upcoming() == Nothing
    {
    }

    /** Entries to come carry values as asked. A failure behind them stays, on a transaction; on a
        snapshot it is met once. */
    lemma UpcomingIsPlain()
      requires SourceValid()
      ensures over == null ==> Sorted(pairs)
      ensures ShownAs(Upcoming().rest, bounds.keysOnly)
      ensures Upcoming().rest != [] && Upcoming().failure.Some? ==> Upcoming().sticky == (over != null)
      ensures over == null || Upcoming().failure == None ==> !Upcoming().sticky
    {
      hide Landing;
      if over == null {
        LandingIsPlain(pairs, bad, bounds, StartIndex(pairs, bad, bounds));
        LandingIsPlain(pairs, bad, bounds, Onward(bounds, source.cursor.at));
      }
    }

    /** The same for what a seek yields. */
    lemma SeekIsPlain(target: Bytes)
      requires SourceValid()
      ensures over == null ==> Sorted(pairs)
      ensures ShownAs(SeekFuture(target).rest, bounds.keysOnly)
      ensures SeekFuture(target).rest != [] && SeekFuture(target).failure.Some? ==>
                SeekFuture(target).sticky == (over != null)
      ensures over == null || SeekFuture(target).failure == None ==> !SeekFuture(target).sticky
    {
      hide Landing;
      if over == null { LandingIsPlain(pairs, bad, bounds, SeekIndex(pairs, bad, bounds, target)); }
    }

    /** The walking loop of a batch. */
    method FillBatch(maxEntries: nat) returns (r: Result<Framed>, ghost taken: seq<Entry>)
      requires SourceValid() && maxEntries > 0 && batchValues == [] && pending == None
      modifies this`source, this`reset, this`includeCurrent, this`batchValues, this`pending
      ensures SourceValid() && !reset && !includeCurrent
      ensures Served(old(Upcoming()), maxEntries, r, taken, pending)
      ensures r.Ok? ==> r.value.count == |taken| && batchValues == ValuesOf(taken)
      ensures bounds.keysOnly ==> batchValues == []
      ensures old(Spent()) ==> source == old(source)
      ensures !old(Adrift()) ==> LeftAt(old(Upcoming()), maxEntries, Current(), Ahead())
    {
      hide *;
      SpentDrawsNothing();
      ghost var up := Upcoming();
      ghost var rest := up.rest;
      var frame: Bytes := [];
      var count: nat, retained: nat := 0, 0;
      NothingTaken(up, maxEntries);
      ghost var ended := false;
      while count < maxEntries
        invariant !ended
        invariant SourceValid() && pending == None
        invariant over == null ==> Sorted(pairs)
        invariant count <= |rest| && count <= maxEntries
        invariant Filling(rest, maxEntries, count, retained) && Holds(rest, count, frame, batchValues)
        invariant bounds.keysOnly ==> batchValues == []
        invariant Upcoming() == up.Drop(count)
        invariant count == 0 ==> source == old(source) && reset == old(reset)
        invariant count == 0 ==> Adrift() == old(Adrift()) && Spent() == old(Spent())
        invariant count > 0 ==> !reset && !includeCurrent && !Adrift() && !old(Spent())
        invariant count > 0 ==> Ahead() == Upcoming() && Current() == Some(rest[count - 1])
      {
        ghost var values := batchValues;
        var turn := TakeTurn(frame, retained);
        match turn {
          case Exhausted =>
            EndsOffTheEnd(up, maxEntries, count, frame, values, retained);
            ended := true;
            break;
          case ReadFailed(failure) =>
            EndsOffTheEnd(up, maxEntries, count, frame, values, retained);
            if count == 0 { return Err(failure), []; }
            pending, ended := Some(failure), true;
            break;
          case TooLong =>
            up.DropOne(count);
            EndsAtLongKey(up, maxEntries, count, frame, values, retained);
            return Err(KeyTooLong), [];
          case Took(framed, kept) =>
            up.DropOne(count);
            HoldsOneMore(rest, count, frame, values);
            FillOneMore(rest, maxEntries, count, retained);
            frame, retained, count := framed, kept, count + 1;
        }
        if retained >= MAX_BATCH_VALUE_BYTES {
          EndsFull(up, maxEntries, count, frame, batchValues, retained);
          ended := true;
          break;
        }
      }
      if !ended { EndsFull(up, maxEntries, count, frame, batchValues, retained); }
      return Ok(Framed(frame, count)), rest[..count];
    }

    /** Hand over the next entries: their keys in a frame, their values on request. */
    method NextBatch(maxEntries: nat) returns (r: Result<Framed>)
      requires Valid()
      modifies this
      ensures Valid()
      ensures maxEntries == 0 ==> r == Err(InvalidArg) && unchanged(this)
      ensures maxEntries > 0 && old(pending).Some? ==>
                && r == Err(old(pending).value) && pending == None && batch == []
                && source == old(source) && reset == old(reset) && includeCurrent == old(includeCurrent)
      ensures maxEntries > 0 && old(pending) == None ==>
                && !reset && !includeCurrent
                && Served(old(Upcoming()), maxEntries, r, batch, pending)
                && (old(Spent()) ==> source == old(source))
                && (!old(Adrift()) ==> LeftAt(old(Upcoming()), maxEntries, Current(), Ahead()))
    {
      hide Served, LeftAt, BatchHeld, Upcoming, Source.Current, Source.Ahead, Landing, StartFuture, ValuesOf;
      if maxEntries == 0 { return Err(InvalidArg); }
      InvalidateBatch();
      if pending.Some? {
        r := Err(pending.value);
        pending := None;
        return;
      }
      ghost var up := Upcoming();
      SpentDrawsNothing();
      UpcomingIsPlain();
      r, batch := FillBatch(maxEntries);
      if r.Ok? { batchCount := r.value.count; }
      ServedFromUp(up, maxEntries, r, batch, pending);
      if pending.Some? {
        HeldMeansOver(up, maxEntries, Current(), Ahead());
      }
    }

    /** The value retained for a key the last batch framed; null when values are not read. */
    method BatchValue(idx: nat) returns (r: Result<Option<Bytes>>)
      requires Valid()
      ensures r == if idx >= |batch| then Err(InvalidArg) else Ok(batch[idx].value)
    {
      if idx >= batchCount { return Err(InvalidArg); }
      ValuesLineUp(batch, bounds.keysOnly);
      return Ok(if idx < |batchValues| then Some(batchValues[idx]) else None);
    }

    method Key() returns (r: Option<Bytes>)
      requires Valid()
      ensures r == if Current().Some? then Some(Current().value.key) else None
    {
      return source.CurrentKey(bounds);
    }

    /** The value at the current entry, empty under `KeysOnly`. */
    method Value() returns (r: Option<Bytes>)
      requires Valid()
      ensures r == match Current() case None => None case Some(e) => Some(if e.value.Some? then e.value.value else [])
    {
      if !source.InRange(bounds) { return None; }
      var value := source.CurrentValueSlice(bounds);
      return Some(if value.Some? then value.value else []);
    }
  }

  /** Open an iterator over a transaction, failing fast when it is already resolved. Nothing of the
      transaction is read yet. */
  method OpenOverTxn(txn: TxnInner, bounds: Range) returns (r: Result<RegolithIter>)
    ensures txn.txn == None ==> r == Err(Discarded)
    ensures txn.txn.Some? ==> r.Ok? && fresh(r.value) && r.value.Valid() && r.value.reset && r.value.over == txn
  {
    if txn.txn == None { return Err(Discarded); }
    var it := new RegolithIter.OverTxn(txn, bounds);
    return Ok(it);
  }
}
