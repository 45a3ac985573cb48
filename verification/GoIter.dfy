/** The Go iterator (iter.go): a cache of framed keys over the Rust iterator's batches. */
module GoIter {
  import opened Basics
  import opened Views
  import opened Walks
  import opened Batches
  import opened FfiIter
  import LittleEndian
  import Database

  const BATCH_ENTRIES: nat := 256

  /** Where a key lies in the frame. */
  datatype Loc = Loc(kOff: int, kLen: int)

  datatype GoError = ErrClosed | Engine(failure: Failure)

  /** A call's answer. One that panicked has no value; one whose batch arrived torn leaves an entry
      table that nothing here describes. */
  datatype Answer<+T> = Got(value: T) | Error(error: GoError) | Panicked | Torn

  /** A length as a C `int` or a Go `int32` holds it. */
  function Int32(n: nat): int {
    (n + 0x8000_0000) % 0x1_0000_0000 - 0x8000_0000
  }

  /** Copy a C buffer whose length is passed as a C `int`: a negative length panics, and one that has
      wrapped around keeps only that many bytes. */
  function GoBytes(s: Bytes): (r: Answer<Bytes>)
    ensures r == Got(s) <==> |s| < 0x8000_0000
  {
    var n := Int32(|s|);
    assert n == |s| ==> s[..n] == s;
    if n < 0 then Panicked else Got(s[..n])
  }

  /** What becomes of longer ones, up to the next time round. */
  lemma GoBytesWraps(s: Bytes)
    ensures 0x8000_0000 <= |s| < 0x1_0000_0000 ==> GoBytes(s) == Panicked
    ensures 0x1_0000_0000 <= |s| < 0x1_8000_0000 ==> GoBytes(s) == Got(s[..|s| - 0x1_0000_0000])
  {
  }

  /** What a refill answers when the engine hands it this frame. */
  function Arrives(frame: Bytes): (r: Answer<bool>)
    ensures r == Got(true) <==> |frame| < 0x8000_0000
    ensures r == Got(true) <==> GoBytes(frame) == Got(frame)
  {
    match GoBytes(frame)
    case Got(copy) => if copy == frame then Got(true) else Torn
    case _ => Panicked
  }

  /** The entries a refill takes off the front of `es`. */
  function Drawn(es: seq<Entry>): seq<Entry> {
    es[..Gather(es, BATCH_ENTRIES, 0)]
  }

  /** Wherever a refill starts in `es`, what it draws frames to less than 2^31 bytes. */
  ghost predicate Copyable(es: seq<Entry>) {
    forall i :: 0 <= i <= |es| ==> |Frame(Drawn(es[i..]))| < 0x8000_0000
  }

  lemma CopyableFrom(es: seq<Entry>, n: nat)
    requires Copyable(es) && n <= |es|
    ensures Copyable(es[n..])
  {
    forall i | 0 <= i <= |es[n..]|
      ensures |Frame(Drawn(es[n..][i..]))| < 0x8000_0000
    {
      assert es[n..][i..] == es[n + i..];
    }
  }

  lemma {:induction false} GatherOfFirst(rest: seq<Entry>, m: nat, max: nat, kept: nat)
    requires m <= |rest|
    ensures Gather(rest[..m], max, kept) <= Gather(rest, max, kept)
  {
    if m > 0 && max > 0 {
      assert rest[..m][1..] == rest[1..][..m - 1];
      GatherOfFirst(rest[1..], m - 1, max - 1, kept + Weight(rest[0]));
    }
  }

  lemma CopyableFirst(es: seq<Entry>, m: nat)
    requires Copyable(es) && m <= |es|
    ensures Copyable(es[..m])
  {
    hide Frame, Gather;
    forall i | 0 <= i <= m
      ensures |Frame(Drawn(es[..m][i..]))| < 0x8000_0000
    {
      assert es[..m][i..] == es[i..][..m - i];
      GatherOfFirst(es[i..], m - i, BATCH_ENTRIES, 0);
      var few, all := Drawn(es[..m][i..]), Drawn(es[i..]);
      assert all == few + all[|few|..];
      FrameAppend(few, all[|few|..]);
    }
  }

  lemma {:induction false} FrameHoldsKeys(es: seq<Entry>, k: nat)
    requires k < |es|
    ensures |es[k].key| + 4 <= |Frame(es)|
  {
    if k > 0 { FrameHoldsKeys(es[1..], k - 1); }
  }

  /** Where every refill can be copied, no key is too long to frame. */
  lemma CopyableIsFrameable(es: seq<Entry>)
    requires Copyable(es)
    ensures Frameable(es) && FirstLong(es) == |es|
  {
    hide Frame, Gather;
    forall i | 0 <= i < |es|
      ensures |es[i].key| < LittleEndian.U32_LIMIT
    {
      assert Drawn(es[i..])[0] == es[i];
      FrameHoldsKeys(Drawn(es[i..]), 0);
    }
  }

  lemma {:induction false} FrameBounded(es: seq<Entry>, limit: nat)
    requires forall i :: 0 <= i < |es| ==> |es[i].key| + 4 <= limit
    ensures |Frame(es)| <= |es| * limit
    ensures (forall i :: 0 <= i < |es| ==> |es[i].key| + 4 == limit) ==> |Frame(es)| == |es| * limit
  {
    hide LittleEndian.Encode;
    if es != [] {
      FrameBounded(es[1..], limit);
      assert |es| * limit == limit + |es[1..]| * limit;
    }
  }

  lemma ShortKeysCopyable(es: seq<Entry>)
    requires forall i :: 0 <= i < |es| ==> |es[i].key| + 4 < 0x80_0000
    ensures Copyable(es)
  {
    hide Frame, Gather;
    forall i | 0 <= i <= |es|
      ensures |Frame(Drawn(es[i..]))| < 0x8000_0000
    {
      FrameBounded(Drawn(es[i..]), 0x7F_FFFF);
    }
  }

  lemma {:induction false} NoValuesNoCap(es: seq<Entry>, max: nat)
    requires forall i :: 0 <= i < |es| ==> es[i].value == None
    ensures Gather(es, max, 0) == if |es| < max then |es| else max
  {
    if es != [] && max > 0 { NoValuesNoCap(es[1..], max - 1); }
  }

  /** As a bound on keys alone, 8388603 bytes is exact: up to it every store can be walked, and one
      byte more lets 256 different keys frame to 2^31 bytes. */
  lemma ShortIsExact(limit: nat)
    ensures (forall es: seq<Entry> ::
              InWalkOrder(es, false) && (forall i :: 0 <= i < |es| ==> |es[i].key| <= limit) ==> Copyable(es))
            <==> limit + 4 < 0x80_0000
  {
    hide Frame, Copyable, Gather;
    if limit + 4 < 0x80_0000 {
      forall es: seq<Entry> | forall i :: 0 <= i < |es| ==> |es[i].key| <= limit
        ensures Copyable(es)
      {
        ShortKeysCopyable(es);
      }
    } else {
      var es := LongKeys(limit);
      assert InWalkOrder(es, false);
      LongKeysDoNotFit(limit);
    }
  }

  /** 256 different keys of `limit` bytes, in order. */
  function LongKeys(limit: nat): (es: seq<Entry>)
    requires limit > 0
    ensures |es| == BATCH_ENTRIES && InWalkOrder(es, false)
    ensures forall i :: 0 <= i < |es| ==> es[i].value == None && |es[i].key| == limit
  {
    seq(BATCH_ENTRIES, i requires 0 <= i < BATCH_ENTRIES => Entry([i] + seq(limit - 1, _ => 0), None))
  }

  lemma LongKeysDoNotFit(limit: nat)
    requires limit + 4 >= 0x80_0000
    ensures !Copyable(LongKeys(limit))
  {
    hide Frame, Gather, LongKeys;
    var es := LongKeys(limit);
    NoValuesNoCap(es, BATCH_ENTRIES);
    FrameBounded(es, limit + 4);
    assert es[0..] == es && Drawn(es) == es;
  }

  /** With keys of up to 8 MiB, the engine's limit, a frame that does not fit makes the copy panic: its
      length cannot wrap around far enough to be cut short. */
  lemma EngineKeysNeverTear(es: seq<Entry>)
    requires forall i :: 0 <= i < |es| ==> |es[i].key| <= 0x80_0000
    ensures Arrives(Frame(Drawn(es))) == if |Frame(Drawn(es))| < 0x8000_0000 then Got(true) else Panicked
  {
    hide Frame, Gather;
    FrameBounded(Drawn(es), 0x80_0004);
  }

  predicate Located(buf: Bytes, loc: Loc, key: Bytes) {
    && 0 <= loc.kOff && 0 <= loc.kLen && loc.kOff + loc.kLen <= |buf|
    && buf[loc.kOff..loc.kOff + loc.kLen] == key
  }

  /** Key `k` of a frame sits behind its own length, where the keys before it end. */
  lemma KeyAt(es: seq<Entry>, k: nat)
    requires k < |es| && |es[k].key| < LittleEndian.U32_LIMIT
    ensures var frame, at, key := Frame(es), |Frame(es[..k])|, es[k].key;
            && |Frame(es[..k + 1])| == at + 4 + |key| <= |frame|
            && LittleEndian.Decode(frame[at..at + 4]) == |key|
            && frame[at + 4..at + 4 + |key|] == key
  {
    hide Frame, LittleEndian.Decode;
    var before, after, key := Frame(es[..k]), Frame(es[k + 1..]), es[k].key;
    var len := LittleEndian.Encode(|key|, 4);
    assert Frame(es[..k + 1]) == before + (len + key) by {
      assert es[..k + 1] == es[..k] + [es[k]];
      FrameAppend(es[..k], [es[k]]);
      FrameOne(es[k]);
    }
    assert Frame(es) == before + (len + key) + after by {
      assert es == es[..k + 1] + es[k + 1..];
      FrameAppend(es[..k + 1], es[k + 1..]);
    }
    LittleEndian.Widths();
    LittleEndian.DecodeEncode(|key|, 4);
    assert Frame(es)[|before|..|before| + 4] == len;
  }

  /** Index the keys of a batch's frame. */
  method IndexFrame(frame: Bytes, ghost es: seq<Entry>) returns (ents: seq<Loc>)
    requires frame == Frame(es) && |frame| < 0x8000_0000
    ensures |ents| == |es|
    ensures forall k :: 0 <= k < |es| ==> Located(frame, ents[k], es[k].key)
  {
    hide Frame, LittleEndian.Decode;
    ents := [];
    var at := 0;
    NothingFramed(es);
    while at < |frame|
      invariant |ents| <= |es| && at == |Frame(es[..|ents|])|
      invariant forall k :: 0 <= k < |ents| ==> Located(frame, ents[k], es[k].key)
      decreases |es| - |ents|
    {
      FrameHoldsKeys(es, |ents|);
      KeyAt(es, |ents|);
      var keyLen := Int32(LittleEndian.Decode(frame[at..at + 4]));
      at := at + 4;
      ents := ents + [Loc(Int32(at), keyLen)];
      at := at + keyLen;
    }
    if |ents| < |es| {
      FrameHoldsKeys(es, |ents|);
      KeyAt(es, |ents|);
    }
  }

  lemma NothingFramed(es: seq<Entry>)
    ensures Frame(es[..0]) == [] && es[..|es|] == es
  {
  }

  /** The function a value is lent to: what it has been handed, and what it answers. */
  class Callback<E> {
    const answer: Option<Bytes> -> Option<E>
    var heard: seq<Option<Bytes>>

    constructor (answer: Option<Bytes> -> Option<E>)
      ensures this.answer == answer && heard == []
    {
      this.answer, heard := answer, [];
    }

    method Call(value: Option<Bytes>) returns (r: Option<E>)
      modifies this
      ensures heard == old(heard) + [value] && r == answer(value)
    {
      heard := heard + [value];
      return answer(value);
    }
  }

  /** The value lent for an entry: nothing for an empty one. */
  function LentValue(e: Option<Entry>): Option<Bytes> {
    if e.Some? && e.value.value.Some? && e.value.value.value != [] then e.value.value else None
  }

  /** The value copied out: that, if its length fits a C `int`. */
  function CopiedValue(e: Option<Entry>): (r: Answer<Option<Bytes>>)
    ensures r == Got(LentValue(e)) <==> LentValue(e).Some? ==> |LentValue(e).value| < 0x8000_0000
  {
    if LentValue(e) == None then Got(None)
    else match GoBytes(LentValue(e).value)
      case Got(copy) => Got(Some(copy))
      case _ => Panicked
  }

  class Iter {
    const db: Database.DB
    const i: RegolithIter
    const keysOnly: bool
    var buf: Bytes
    var ents: seq<Loc>
    var pos: int
    var done: bool

    /** A loaded entry table and the Rust batch agree: as many entries, each locating the key framed at
        its index. An exhausted iterator holds no entries. */
    ghost predicate Valid()
      reads this, i
    {
      && i.Valid() && keysOnly == i.bounds.keysOnly
      && (ents != [] ==> |ents| == |i.batch|)
      && (forall k :: 0 <= k < |ents| ==> Located(buf, ents[k], i.batch[k].key))
      && (done ==> ents == [])
      && 0 <= pos && (ents == [] ==> pos == 0) && (ents != [] ==> pos < |ents|)
    }

    constructor (db: Database.DB, i: RegolithIter)
      requires i.Valid()
      ensures Valid() && this.db == db && this.i == i && ents == [] && !done
    {
      this.db, this.i, keysOnly := db, i, i.bounds.keysOnly;
      buf, ents, pos, done := [], [], 0, false;
    }

    /** The entry the iterator stands on. */
    ghost function Current(): Option<Entry>
      requires Valid()
      reads this, i
    {
      if pos < |ents| then Some(i.batch[pos]) else None
    }

    /** What a refill that drew from `up` leaves behind, and what it answers. */
    ghost predicate Refilled(up: Future, adrift: bool, r: Answer<bool>)
      reads this, i
    {
      && i.batch == BatchTaken(up, BATCH_ENTRIES) && i.pending == BatchHeld(up, BATCH_ENTRIES)
      && (!adrift ==> LeftAt(up, BATCH_ENTRIES, i.Current(), i.Ahead()))
      && pos == 0
      && match BatchReply(up, BATCH_ENTRIES)
         case Err(e) => r == Error(Engine(e)) && ents == [] && !done
         case Ok(b) =>
           if b.count == 0 then r == Got(false) && ents == [] && done
           else r == Arrives(b.frame) && |ents| == (if r.Got? then b.count else 0) && !done
    }

    /** A failure held back by the batch before it is reported in place of a batch. */
    ghost predicate HandedOver(f: Failure, r: Answer<bool>)
      reads this, i
    {
      r == Error(Engine(f)) && ents == [] && pos == 0 && !done && i.batch == [] && i.pending == None
    }

    /** Ask the engine for a batch and stand on its first key. The frame is copied whole exactly when it
        is shorter than 2^31 bytes. */
    method Refill() returns (r: Answer<bool>)
      requires Valid() && !done
      modifies this, i
      ensures Valid()
      ensures old(i.pending) == None ==>
                !i.reset && !i.includeCurrent && Refilled(old(i.Upcoming()), old(i.Adrift()), r)
      ensures old(i.pending).Some? ==> HandedOver(old(i.pending).value, r)
      ensures old(i.pending).Some? ==>
                i.source == old(i.source) && i.reset == old(i.reset) && i.includeCurrent == old(i.includeCurrent)
    {
      hide Gather, Frame, Located, LeftAt, RegolithIter.Upcoming, RegolithIter.Adrift, RegolithIter.PendingValid,
        RanOff, FirstLong, GoBytes;
      ghost var up, held := i.Upcoming(), i.pending;
      var reply := i.NextBatch(BATCH_ENTRIES);
      if held == None { BatchIsFramed(up, BATCH_ENTRIES); }
      ents, pos := [], 0;
      if reply.Err? { return Error(Engine(reply.error)); }
      var frame := GoBytes(reply.value.frame);
      if !frame.Got? { return Panicked; }
      if reply.value.count == 0 {
        done := true;
        return Got(false);
      }
      if frame.value != reply.value.frame { return Torn; }
      buf := frame.value;
      ents := IndexFrame(frame.value, i.batch);
      return Got(true);
    }

    method Next() returns (r: Answer<bool>)
      requires Valid()
      modifies this, i
      ensures Valid()
      ensures db.closed ==> r == Error(ErrClosed) && unchanged(this) && unchanged(i)
      ensures !db.closed && old(pos) + 1 < |old(ents)| ==>
                r == Got(true) && pos == old(pos) + 1 && unchanged(i) && unchanged(`buf, `ents, `done)
      ensures !db.closed && old(pos) + 1 >= |old(ents)| && old(done) ==> r == Got(false) && unchanged(this) && unchanged(i)
      ensures !db.closed && old(pos) + 1 >= |old(ents)| && !old(done) && old(i.pending) == None ==>
                !i.reset && !i.includeCurrent && Refilled(old(i.Upcoming()), old(i.Adrift()), r)
      ensures !db.closed && old(pos) + 1 >= |old(ents)| && !old(done) && old(i.pending).Some? ==>
                && HandedOver(old(i.pending).value, r)
                && i.source == old(i.source) && i.reset == old(i.reset) && i.includeCurrent == old(i.includeCurrent)
    {
      if db.closed { return Error(ErrClosed); }
      if pos + 1 < |ents| {
        pos := pos + 1;
        return Got(true);
      }
      if done {
        pos := |ents|;
        return Got(false);
      }
      r := Refill();
    }

    method Invalidate()
      modifies this`ents, this`pos, this`done
      ensures ents == [] && pos == 0 && !done
    {
      ents, pos, done := [], 0, false;
    }

    /** A seek that finds an entry takes a batch from it on. One that finds none asks for no batch: an
        exhausted range is done, and a failure leaves the engine standing nowhere. */
    method Seek(key: Bytes) returns (r: Answer<bool>)
      requires Valid()
      modifies this, i
      ensures Valid()
      ensures db.closed ==> r == Error(ErrClosed) && unchanged(this) && unchanged(i)
      ensures !db.closed ==>
                var f := old(i.SeekFuture(key));
                if f.rest != [] then !i.reset && !i.includeCurrent && Refilled(f, false, r)
                else
                  && r == (if f.failure.Some? then Error(Engine(f.failure.value)) else Got(false))
                  && ents == [] && (done <==> f.failure == None) && i.pending == None && i.Adrift()
    {
      hide Gather, Frame, Located, LeftAt, RanOff, RegolithIter.SeekFuture, RegolithIter.PendingValid, Arrives;
      if db.closed { return Error(ErrClosed); }
      Invalidate();
      ghost var f := i.SeekFuture(key);
      var valid := i.Seek(key);
      if valid.Err? { return Error(Engine(valid.error)); }
      if !valid.value {
        done := true;
        return Got(false);
      }
      i.UpcomingAfterSeek(f);
      r := Refill();
    }

    method Reset()
      requires Valid()
      modifies this, i
      ensures Valid() && ents == [] && !done
      ensures i.reset && !i.includeCurrent && i.pending == None && i.source == old(i.source)
    {
      Invalidate();
      i.Reset();
    }

    method Key() returns (r: Option<Bytes>)
      requires Valid()
      ensures r == if Current().Some? then Some(Current().value.key) else None
    {
      if pos < 0 || pos >= |ents| { return None; }
      var e := ents[pos];
      return Some(buf[e.kOff..e.kOff + e.kLen]);
    }

    /** The engine's own bytes for the current entry. The index asked for is always one the batch holds,
        so the status check behind the call never fires. */
    method Lend() returns (r: Option<Bytes>)
      requires Valid()
      ensures r == LentValue(Current())
    {
      if keysOnly || pos < 0 || pos >= |ents| {
        assert pos < |ents| ==> i.batch[pos].value == None;
        return None;
      }
      var lent := i.BatchValue(pos);
      assert lent.Ok?;
      return if lent.value == None || lent.value.value == [] then None else lent.value;
    }

    /** A copy of the value stored with the key `Key` returns; nil when there is none or it is empty. */
    method Value() returns (r: Answer<Option<Bytes>>)
      requires Valid()
      ensures r == CopiedValue(Current())
      ensures Current() == None || Current().value.value in {None, Some([])} ==> r == Got(None)
      ensures forall v: Bytes :: Current().Some? && Current().value.value == Some(v) && 0 < |v| < 0x8000_0000 ==> r == Got(Some(v))
    {
      var lent := Lend();
      if lent == None { return Got(None); }
      var copy := GoBytes(lent.value);
      return match copy case Got(value) => Got(Some(value)) case _ => Panicked;
    }

    /** Lend the value to `fn`, once, and answer what it answers. */
    method BorrowValue<E>(fn: Callback<E>) returns (r: Option<E>)
      requires Valid()
      modifies fn
      ensures Valid()
      ensures var lent := match Current()
                          case None => None
                          case Some(e) => if e.value.Some? && e.value.value != [] then e.value else None;
              fn.heard == old(fn.heard) + [lent] && r == fn.answer(lent)
    {
      var lent := Lend();
      r := fn.Call(lent);
    }

    method AppendValue(dst: Bytes) returns (r: Bytes)
      requires Valid()
      ensures r == if LentValue(Current()).Some? then dst + LentValue(Current()).value else dst
      ensures r == dst + match Current()
                         case None => []
                         case Some(e) => if e.value.Some? then e.value.value else []
    {
      var lent := Lend();
      return if lent.Some? then dst + lent.value else dst;
    }
  }

  /** A batch's frame is that of the entries it took. */
  lemma BatchIsFramed(up: Future, max: nat)
    ensures var r := BatchReply(up, max);
            && (r.Ok? ==> r.value.frame == Frame(BatchTaken(up, max)) && r.value.count == |BatchTaken(up, max)|)
            && (r.Err? ==> BatchTaken(up, max) == [])
  {
  }

  /** A refill that has something to take answers that it has an entry exactly when what it draws frames
      to less than 2^31 bytes. */
  lemma RefillArrives(up: Future)
    requires up.rest != []
    ensures var reply := BatchReply(up, BATCH_ENTRIES);
            && (reply.Ok? ==> reply.value.count > 0)
            && (reply.Ok? && Arrives(reply.value.frame) == Got(true) <==> |Frame(Drawn(up.rest))| < 0x8000_0000)
  {
    hide Frame, Gather;
    var drawn, long := Drawn(up.rest), FirstLong(up.rest);
    if long < |drawn| { FrameHoldsKeys(drawn, long); }
  }

  /** Where every refill can be copied, a refill is refused for nothing but a failure met first. */
  lemma CopyableServes(up: Future)
    requires Copyable(up.rest)
    ensures var n := Gather(up.rest, BATCH_ENTRIES, 0);
            && BatchTaken(up, BATCH_ENTRIES) == up.rest[..n]
            && BatchReply(up, BATCH_ENTRIES) ==
                 (if n == 0 && up.failure.Some? then Err(up.failure.value) else Ok(Framed(Frame(up.rest[..n]), n)))
            && BatchHeld(up, BATCH_ENTRIES) == (if n > 0 && RanOff(up, BATCH_ENTRIES, n) then up.failure else None)
            && Arrives(Frame(up.rest[..n])) == Got(true)
  {
    hide Frame, Gather;
    CopyableIsFrameable(up.rest);
    assert up.rest[0..] == up.rest && Drawn(up.rest) == up.rest[..Gather(up.rest, BATCH_ENTRIES, 0)];
  }
}
