/** The write-batch frame: its encoding, its decoder and the record it is charged for
    (batch.go, ffi/src/batch.rs). */
module BatchFrame {
  import opened Basics
  import opened LittleEndian

  /** A byte string whose length fits the frame's 8-byte lengths, as any in-memory slice's does. */
  type Slice = s: Bytes | |s| < U64_LIMIT

  datatype Op = Set(key: Slice, value: Slice) | Delete(key: Slice)

  datatype Field = KeyField | ValueField

  datatype FrameError =
    | CutInLength(index: nat, field: Field)
    | CutInside(index: nat, field: Field)
    | UnknownTag(index: nat, tag: Byte)
    | RecordTooLarge(index: nat)

  const OP_SET: Byte := 1
  const OP_DELETE: Byte := 2

  // ---- encoding ----

  function PackField(f: Slice): (r: Bytes)
    ensures |r| == 8 + |f|
  {
    Encode(|f|, 8) + f
  }

  function PackOp(op: Op): Bytes {
    match op
    case Set(key, value) => [OP_SET] + PackField(key) + PackField(value)
    case Delete(key) => [OP_DELETE] + PackField(key)
  }

  function Pack(ops: seq<Op>): Bytes {
    if ops == [] then [] else PackOp(ops[0]) + Pack(ops[1..])
  }

  lemma {:induction false} PackAppend(ops: seq<Op>, more: seq<Op>)
    ensures Pack(ops + more) == Pack(ops) + Pack(more)
  {
    if ops == [] {
      assert ops + more == more;
    } else {
      assert (ops + more)[1..] == ops[1..] + more;
      PackAppend(ops[1..], more);
    }
  }

  lemma PackOne(op: Op)
    ensures Pack([op]) == PackOp(op)
  {
    assert [op][1..] == [];
  }

  // ---- the format, byte by byte ----

  lemma LengthSpelled(n: nat)
    requires n < U64_LIMIT
    ensures Spelled(Encode(n, 8)) == n
  {
    hide Encode, Decode, Spelled;
    Widths();
    DecodeEncode(n, 8);
    EightBytes(Encode(n, 8));
  }

  /** A set is the byte 1, the key behind its length and the value behind its own, lengths in eight bytes,
      the lowest first. */
  lemma SetLayout(key: Slice, value: Slice)
    ensures var frame := PackOp(Set(key, value));
            && |frame| == 17 + |key| + |value|
            && frame[0] == 1 && Spelled(frame[1..9]) == |key| && frame[9..9 + |key|] == key
            && Spelled(frame[9 + |key|..17 + |key|]) == |value| && frame[17 + |key|..] == value
  {
    hide Encode, Spelled;
    var frame := PackOp(Set(key, value));
    LengthSpelled(|key|);
    LengthSpelled(|value|);
    assert frame[1..9] == Encode(|key|, 8) && frame[9 + |key|..17 + |key|] == Encode(|value|, 8);
  }

  /** A delete is the byte 2 and the key behind its length. */
  lemma DeleteLayout(key: Slice)
    ensures var frame := PackOp(Delete(key));
            |frame| == 9 + |key| && frame[0] == 2 && Spelled(frame[1..9]) == |key| && frame[9..] == key
  {
    hide Encode, Spelled;
    LengthSpelled(|key|);
    assert PackOp(Delete(key))[1..9] == Encode(|key|, 8);
  }

  /** Setting "k" to "xy", and deleting "k". */
  lemma FrameExamples()
    ensures Pack([Set([107], [120, 121])]) == [1, 1, 0, 0, 0, 0, 0, 0, 0, 107, 2, 0, 0, 0, 0, 0, 0, 0, 120, 121]
    ensures Pack([Delete([107])]) == [2, 1, 0, 0, 0, 0, 0, 0, 0, 107]
  {
    hide Encode;
    OneByte(1);
    OneByte(2);
    PackOne(Set([107], [120, 121]));
    PackOne(Delete([107]));
  }

  // ---- parsing ----

  datatype FieldSplit = Split(bytes: Slice, rest: Bytes) | ShortLength | ShortBytes

  /** The first field, a 64-bit length and as many bytes, and what follows it. */
  function SplitField(rest: Bytes): FieldSplit {
    if |rest| < 8 then ShortLength
    else
      EncodeDecode(rest[..8]);
      Widths();
      var len := Decode(rest[..8]);
      if |rest| - 8 < len then ShortBytes
      else Split(rest[8..8 + len], rest[8 + len..])
  }

  datatype OpSplit = First(op: Op, rest: Bytes) | Bad(error: FrameError)

  function FieldError(s: FieldSplit, index: nat, field: Field): FrameError
    requires !s.Split?
  {
    if s.ShortLength? then CutInLength(index, field) else CutInside(index, field)
  }

  /** Take one op off the front of a non-empty frame. */
  function SplitOp(frame: Bytes, index: nat): OpSplit
    requires frame != []
  {
    var key := SplitField(frame[1..]);
    if frame[0] == OP_SET then
      if !key.Split? then Bad(FieldError(key, index, KeyField))
      else
        var value := SplitField(key.rest);
        if !value.Split? then Bad(FieldError(value, index, ValueField))
        else First(Set(key.bytes, value.bytes), value.rest)
    else if frame[0] == OP_DELETE then
      if !key.Split? then Bad(FieldError(key, index, KeyField)) else First(Delete(key.bytes), key.rest)
    else Bad(UnknownTag(index, frame[0]))
  }

  /** The ops at the front of a frame, and why parsing stopped if not at the frame's end. */
  datatype Parse = Parse(ops: seq<Op>, stop: Option<FrameError>)

  lemma SplitFieldPacks(rest: Bytes)
    requires SplitField(rest).Split?
    ensures var s := SplitField(rest); rest == PackField(s.bytes) + s.rest
  {
    EncodeDecode(rest[..8]);
  }

  lemma PackFieldSplits(f: Slice, rest: Bytes)
    ensures SplitField(PackField(f) + rest) == Split(f, rest)
  {
    var whole := PackField(f) + rest;
    Widths();
    DecodeEncode(|f|, 8);
    assert whole[..8] == Encode(|f|, 8);
    assert whole[8..8 + |f|] == f;
    assert whole[8 + |f|..] == rest;
  }

  lemma FieldByBytes(frame: Bytes, at: nat)
    requires at <= |frame|
    ensures var s := SplitField(frame[at..]);
            if |frame| < at + 8 then s == ShortLength
            else
              var n := Spelled(frame[at..at + 8]);
              if |frame| < at + 8 + n then s == ShortBytes
              else s.Split? && s.bytes == frame[at + 8..at + 8 + n] && s.rest == frame[at + 8 + n..]
  {
    hide Decode, Spelled;
    if at + 8 <= |frame| {
      var rest, n := frame[at..], Spelled(frame[at..at + 8]);
      EightBytes(frame[at..at + 8]);
      assert rest[..8] == frame[at..at + 8];
      if at + 8 + n <= |frame| {
        assert rest[8..8 + n] == frame[at + 8..at + 8 + n] && rest[8 + n..] == frame[at + 8 + n..];
      }
    }
  }

  /** What the bytes at the front of a frame are read as, or refused as. */
  lemma OpsByBytes(frame: Bytes, index: nat)
    requires frame != []
    ensures frame[0] != 1 && frame[0] != 2 ==> SplitOp(frame, index) == Bad(UnknownTag(index, frame[0]))
    ensures frame[0] == 1 || frame[0] == 2 ==>
              var r := SplitOp(frame, index);
              if |frame| < 9 then r == Bad(CutInLength(index, KeyField))
              else
                var n := Spelled(frame[1..9]);
                if |frame| < 9 + n then r == Bad(CutInside(index, KeyField))
                else if frame[0] == 2 then
                  r.First? && r.op.Delete? && r.op.key == frame[9..9 + n] && r.rest == frame[9 + n..]
                else if |frame| < 17 + n then r == Bad(CutInLength(index, ValueField))
                else
                  var m := Spelled(frame[9 + n..17 + n]);
                  if |frame| < 17 + n + m then r == Bad(CutInside(index, ValueField))
                  else
                    && r.First? && r.op.Set? && r.op.key == frame[9..9 + n]
                    && r.op.value == frame[17 + n..17 + n + m] && r.rest == frame[17 + n + m..]
  {
    hide SplitField, Decode, Spelled;
    FieldByBytes(frame, 1);
    if |frame| >= 9 && |frame| >= 9 + Spelled(frame[1..9]) {
      FieldByBytes(frame, 9 + Spelled(frame[1..9]));
    }
  }

  /** An op parsed is exactly the bytes it packs to. */
  lemma SplitOpPacks(frame: Bytes, index: nat)
    requires frame != [] && SplitOp(frame, index).First?
    ensures var s := SplitOp(frame, index); frame == PackOp(s.op) + s.rest && |PackOp(s.op)| >= 9
  {
    hide SplitField, PackField;
    var key := SplitField(frame[1..]);
    SplitFieldPacks(frame[1..]);
    assert frame == [frame[0]] + frame[1..];
    if frame[0] == OP_SET {
      SplitFieldPacks(key.rest);
    }
  }

  lemma PackSetSplits(key: Slice, value: Slice, rest: Bytes, index: nat)
    ensures var whole := PackOp(Set(key, value)) + rest; whole != [] && SplitOp(whole, index) == First(Set(key, value), rest)
  {
    hide SplitField, PackField;
    var whole, second := PackOp(Set(key, value)) + rest, PackField(value) + rest;
    assert whole[1..] == PackField(key) + second;
    PackFieldSplits(key, second);
    PackFieldSplits(value, rest);
  }

  /** A packed op parses back, whatever follows it. */
  lemma PackOpSplits(op: Op, rest: Bytes, index: nat)
    ensures PackOp(op) + rest != [] && SplitOp(PackOp(op) + rest, index) == First(op, rest)
  {
    hide SplitField, PackField;
    match op
    case Set(key, value) => PackSetSplits(key, value, rest, index);
    case Delete(key) =>
      assert (PackOp(op) + rest)[1..] == PackField(key) + rest;
      PackFieldSplits(key, rest);
  }

  function Walked(frame: Bytes, index: nat): Parse
    decreases |frame|
  {
    if frame == [] then Parse([], None)
    else
      match SplitOp(frame, index)
      case Bad(e) => Parse([], Some(e))
      case First(op, rest) =>
        SplitOpPacks(frame, index);
        var p := Walked(rest, index + 1);
        p.(ops := [op] + p.ops)
  }

  /** What parses is packed: a frame is the packing of the ops found in it, followed by nothing when
      it parses to its end and otherwise by bytes that begin no op; the error names that op. */
  lemma {:induction false} WalkedIsPacked(frame: Bytes, index: nat)
    ensures var p := Walked(frame, index);
            && Pack(p.ops) <= frame
            && (p.stop == None <==> Pack(p.ops) == frame)
            && (p.stop.Some? ==>
                  && p.stop.value.index == index + |p.ops|
                  && SplitOp(frame[|Pack(p.ops)|..], index + |p.ops|) == Bad(p.stop.value))
    decreases |frame|
  {
    hide SplitOp, PackOp;
    if frame != [] {
      var s := SplitOp(frame, index);
      if s.First? {
        SplitOpPacks(frame, index);
        WalkedIsPacked(s.rest, index + 1);
        var p, q := Walked(frame, index), Walked(s.rest, index + 1);
        assert p.ops[1..] == q.ops;
        assert Pack(p.ops) == PackOp(s.op) + Pack(q.ops);
        assert frame[|Pack(p.ops)|..] == s.rest[|Pack(q.ops)|..];
      } else {
        BadOpStops(frame, index, s.error);
        assert frame[0..] == frame;
      }
    }
  }

  lemma BadOpStops(frame: Bytes, index: nat, e: FrameError)
    requires frame != [] && SplitOp(frame, index) == Bad(e)
    ensures e.index == index
  {
  }

  lemma WalkedFirst(op: Op, rest: Bytes, index: nat)
    ensures var q := Walked(rest, index + 1); Walked(PackOp(op) + rest, index) == Parse([op] + q.ops, q.stop)
  {
    hide SplitOp, PackOp;
    PackOpSplits(op, rest, index);
  }

  /** Packed ops parse back, and parsing carries on behind them. */
  lemma {:induction false} PackedIsWalked(ops: seq<Op>, rest: Bytes, index: nat)
    ensures var q := Walked(rest, index + |ops|);
            Walked(Pack(ops) + rest, index) == Parse(ops + q.ops, q.stop)
  {
    hide Walked, PackOp;
    if ops == [] {
      assert Pack(ops) + rest == rest;
      assert ops + Walked(rest, index).ops == Walked(rest, index).ops;
    } else {
      var q := Walked(rest, index + |ops|);
      WalkedFirst(ops[0], Pack(ops[1..]) + rest, index);
      assert Pack(ops) + rest == PackOp(ops[0]) + (Pack(ops[1..]) + rest);
      PackedIsWalked(ops[1..], rest, index + 1);
      assert [ops[0]] + (ops[1..] + q.ops) == ops + q.ops;
    }
  }

  ghost predicate WellFormed(frame: Bytes) {
    Walked(frame, 0).stop == None
  }

  lemma {:induction false} WalkedAnyIndex(frame: Bytes, i: nat, j: nat)
    ensures Walked(frame, i).ops == Walked(frame, j).ops
    ensures Walked(frame, i).stop == None <==> Walked(frame, j).stop == None
    decreases |frame|
  {
    if frame != [] && SplitOp(frame, i).First? {
      SplitOpPacks(frame, i);
      WalkedAnyIndex(SplitOp(frame, i).rest, i + 1, j + 1);
    }
  }

  /** The packing is injective, and every well-formed frame is a packing. */
  lemma WellFormedIsPacked(frame: Bytes, ops: seq<Op>)
    ensures Walked(frame, 0) == Parse(ops, None) <==> frame == Pack(ops)
  {
    WalkedIsPacked(frame, 0);
    PackedIsWalked(ops, [], 0);
    assert Pack(ops) + [] == Pack(ops) && ops + [] == ops;
  }

  /** Cutting a well-formed frame leaves a well-formed one only between ops. */
  lemma CutOnlyBetweenOps(ops: seq<Op>, n: nat)
    requires n <= |Pack(ops)|
    ensures WellFormed(Pack(ops)[..n]) <==> exists k :: 0 <= k <= |ops| && n == |Pack(ops[..k])|
  {
    hide Pack, SplitOp;
    var whole := Pack(ops);
    if WellFormed(whole[..n]) {
      var front := Walked(whole[..n], 0).ops;
      WalkedIsPacked(whole[..n], 0);
      WellFormedIsPacked(whole, ops);
      PackedIsWalked(front, whole[n..], 0);
      assert whole == Pack(front) + whole[n..];
      assert ops[..|front|] == front;
    }
    if k :| 0 <= k <= |ops| && n == |Pack(ops[..k])| {
      PackAppend(ops[..k], ops[k..]);
      assert ops == ops[..k] + ops[k..];
      assert whole[..n] == Pack(ops[..k]);
      WellFormedIsPacked(whole[..n], ops[..k]);
    }
  }

  /** Bytes appended to a well-formed frame are accepted exactly when they are one themselves. */
  lemma AppendOnlyFrames(ops: seq<Op>, extra: Bytes)
    ensures WellFormed(Pack(ops) + extra) <==> WellFormed(extra)
  {
    hide Walked, Pack;
    PackedIsWalked(ops, extra, 0);
    WalkedAnyIndex(extra, 0, |ops|);
  }

  lemma NonEmptyFrameHasNineBytes(frame: Bytes)
    requires WellFormed(frame) && frame != []
    ensures |frame| >= 9
  {
    SplitOpPacks(frame, 0);
  }

  lemma {:induction false} OpsPerFrame(ops: seq<Op>)
    ensures |Pack(ops)| >= 9 * |ops|
  {
    if ops != [] { OpsPerFrame(ops[1..]); }
  }

  /** Up to 8 bytes too many, or too few, are always rejected. */
  lemma StrayBytesRejected(ops: seq<Op>, extra: Bytes, dropped: nat)
    requires 1 <= |extra| <= 8 && 1 <= dropped <= 8 && ops != []
    ensures !WellFormed(Pack(ops) + extra)
    ensures dropped <= |Pack(ops)| && !WellFormed(Pack(ops)[..|Pack(ops)| - dropped])
  {
    hide Walked, Pack;
    AppendOnlyFrames(ops, extra);
    if WellFormed(extra) { NonEmptyFrameHasNineBytes(extra); }
    OpsPerFrame(ops);
    var n := |Pack(ops)| - dropped;
    CutOnlyBetweenOps(ops, n);
    if k :| 0 <= k <= |ops| && n == |Pack(ops[..k])| {
      PackAppend(ops[..k], ops[k..]);
      assert ops == ops[..k] + ops[k..] && ops[..|ops|] == ops;
      OpsPerFrame(ops[k..]);
    }
  }

  // ---- the engine record ----

  const MAX_BATCH_RECORD_LEN: nat := 0x4000_0000
  const BATCH_COUNT_LEN: nat := 4
  const SET_RECORD_OVERHEAD: nat := 5 + 4 + 4 + 4 + 8
  const DELETE_RECORD_OVERHEAD: nat := 5 + 4 + 4 + 8
  const MAX_FRAME_WITHOUT_SIZING: nat := (MAX_BATCH_RECORD_LEN - BATCH_COUNT_LEN) * 3 / 7

  function SetRecordLen(keyLen: nat, valueLen: nat): nat {
    SET_RECORD_OVERHEAD + keyLen + valueLen
  }

  function DeleteRecordLen(keyLen: nat): nat {
    DELETE_RECORD_OVERHEAD + keyLen
  }

  function OpRecordLen(op: Op): nat {
    match op
    case Set(key, value) => SetRecordLen(|key|, |value|)
    case Delete(key) => DeleteRecordLen(|key|)
  }

  /** Length of the log record the engine writes for these ops. */
  function RecordLenOf(ops: seq<Op>): nat {
    if ops == [] then BATCH_COUNT_LEN else RecordLenOf(ops[..|ops| - 1]) + OpRecordLen(ops[|ops| - 1])
  }

  /** Index of the first op whose charge takes the record past the limit. */
  function FirstOver(ops: seq<Op>): (r: Option<nat>)
    ensures r == None ==> forall k :: 0 <= k <= |ops| ==> RecordLenOf(ops[..k]) <= MAX_BATCH_RECORD_LEN
    ensures r.Some? ==>
              && r.value < |ops|
              && RecordLenOf(ops[..r.value + 1]) > MAX_BATCH_RECORD_LEN
              && forall k :: 0 <= k <= r.value ==> RecordLenOf(ops[..k]) <= MAX_BATCH_RECORD_LEN
  {
    if ops == [] then None
    else
      var init := ops[..|ops| - 1];
      assert forall k :: 0 <= k <= |init| ==> init[..k] == ops[..k];
      assert ops[..|ops|] == ops;
      match FirstOver(init)
      case Some(k) => Some(k)
      case None => if RecordLenOf(ops) > MAX_BATCH_RECORD_LEN then Some(|ops| - 1) else None
  }

  /** The record only grows, so one op is over exactly when the whole record is. */
  lemma {:induction false} RecordGrows(ops: seq<Op>, k: nat)
    requires k <= |ops|
    ensures RecordLenOf(ops[..k]) <= RecordLenOf(ops)
  {
    if k < |ops| {
      var init := ops[..|ops| - 1];
      RecordGrows(init, k);
      assert init[..k] == ops[..k];
    } else {
      assert ops[..k] == ops;
    }
  }

  lemma FirstOverIsRefusal(ops: seq<Op>)
    ensures FirstOver(ops) == None <==> RecordLenOf(ops) <= MAX_BATCH_RECORD_LEN
  {
    assert ops[..|ops|] == ops;
    if FirstOver(ops).Some? { RecordGrows(ops, FirstOver(ops).value + 1); }
  }

  function CountSets(ops: seq<Op>): nat {
    if ops == [] then 0 else CountSets(ops[..|ops| - 1]) + if ops[|ops| - 1].Set? then 1 else 0
  }

  lemma OneMoreOp(ops: seq<Op>, op: Op)
    ensures RecordLenOf(ops + [op]) == RecordLenOf(ops) + OpRecordLen(op)
    ensures |Pack(ops + [op])| == |Pack(ops)| + match op case Set(k, v) => 17 + |k| + |v| case Delete(k) => 9 + |k|
  {
    PackAppend(ops, [op]);
    PackOne(op);
    assert (ops + [op])[..|ops|] == ops;
  }

  /** The record, from the frame's length and the number of ops of each kind. */
  lemma {:induction false} RecordFromFrame(ops: seq<Op>)
    ensures CountSets(ops) <= |ops|
    ensures RecordLenOf(ops) == 4 + |Pack(ops)| + 8 * CountSets(ops) + 12 * (|ops| - CountSets(ops))
  {
    hide PackOp, Encode;
    if ops != [] {
      var init, last := ops[..|ops| - 1], ops[|ops| - 1];
      RecordFromFrame(init);
      assert ops == init + [last];
      OneMoreOp(init, last);
    }
  }

  /** No frame charges more than 7/3 of its length: the worst op is a delete of the empty key. */
  lemma RecordWithinRatio(ops: seq<Op>)
    ensures 3 * (RecordLenOf(ops) - BATCH_COUNT_LEN) <= 7 * |Pack(ops)|
  {
    RecordFromFrame(ops);
    OpsPerFrame(ops);
  }

  /** A frame no longer than the guard, or the good prefix of a malformed one, is never refused for size. */
  lemma ShortFrameFits(frame: Bytes)
    requires |frame| <= MAX_FRAME_WITHOUT_SIZING
    ensures FirstOver(Walked(frame, 0).ops) == None
    ensures MAX_FRAME_WITHOUT_SIZING == 460175065
  {
    var ops := Walked(frame, 0).ops;
    WalkedIsPacked(frame, 0);
    RecordWithinRatio(ops);
    FirstOverIsRefusal(ops);
  }

  function EmptyDeletes(n: nat): (ops: seq<Op>)
    ensures |ops| == n
  {
    if n == 0 then [] else EmptyDeletes(n - 1) + [Delete([])]
  }

  lemma {:induction false} EmptyDeletesCost(n: nat)
    ensures |Pack(EmptyDeletes(n))| == 9 * n
    ensures RecordLenOf(EmptyDeletes(n)) == 4 + 21 * n
  {
    if n > 0 {
      EmptyDeletesCost(n - 1);
      OneMoreOp(EmptyDeletes(n - 1), Delete([]));
    }
  }

  /** Exactly which frame lengths can hold an oversized record. The guard is two below the shortest. */
  lemma ShortestRefusableFrame(n: nat)
    ensures (exists ops :: |Pack(ops)| == n && RecordLenOf(ops) > MAX_BATCH_RECORD_LEN) <==>
              n >= 460175067
  {
    hide Pack, RecordLenOf;
    if n >= MAX_FRAME_WITHOUT_SIZING + 2 {
      RefusableFrame(n / 9, n % 9);
      assert 9 * (n / 9) + n % 9 == n;
    } else {
      forall ops | |Pack(ops)| == n
        ensures RecordLenOf(ops) <= MAX_BATCH_RECORD_LEN
      {
        RecordWithinRatio(ops);
      }
    }
  }

  /** All but the last op delete the empty key; the last takes up the slack. */
  lemma RefusableFrame(q: nat, r: nat)
    requires r < 9 && 21 * q + r > MAX_BATCH_RECORD_LEN - BATCH_COUNT_LEN
    ensures exists ops :: |Pack(ops)| == 9 * q + r && RecordLenOf(ops) > MAX_BATCH_RECORD_LEN
  {
    hide Pack, PackOp, RecordLenOf, EmptyDeletes;
    var most, last := EmptyDeletes(q - 1), Delete(seq(r, _ => 0));
    EmptyDeletesCost(q - 1);
    OneMoreOp(most, last);
    assert |Pack(most + [last])| == 9 * q + r;
  }
}
