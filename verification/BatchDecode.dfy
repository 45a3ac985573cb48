/** The frame decoder (ffi/src/batch.rs, lines 105-242). */
module BatchDecode {
  import opened Basics
  import opened LittleEndian
  import opened BatchFrame

  datatype Decoded = Whole(ops: seq<Op>) | Invalid(error: FrameError)

  /** What decoding promises: the frame's ops, or the first fault in op order - a malformed op, or
      a well-formed one that takes the record past its limit. */
  function DecodeSpec(frame: Bytes): Decoded {
    var p := Walked(frame, 0);
    var over := FirstOver(p.ops);
    if over.Some? then Invalid(RecordTooLarge(over.value))
    else if p.stop.Some? then Invalid(p.stop.value)
    else Whole(p.ops)
  }

  const U64_MAX: nat := U64_LIMIT - 1

  /** The size, so far, of the log record that the ops sized will be written as. */
  class RecordLen {
    var total: nat

    constructor ()
      ensures total == BATCH_COUNT_LEN
    {
      total := BATCH_COUNT_LEN;
    }

    /** Add one op's record bytes with saturating arithmetic, refusing to cross the limit. */
    method Charge(add: nat, index: nat) returns (r: Option<FrameError>)
      requires total <= MAX_BATCH_RECORD_LEN
      modifies this
      ensures old(total) + add <= MAX_BATCH_RECORD_LEN ==> r == None && total == old(total) + add
      ensures old(total) + add > MAX_BATCH_RECORD_LEN ==> r == Some(RecordTooLarge(index)) && total == old(total)
    {
      var next := if total + add > U64_MAX then U64_MAX else total + add;
      if next > MAX_BATCH_RECORD_LEN {
        return Some(RecordTooLarge(index));
      }
      total := next;
      return None;
    }
  }

  /** The engine's batch under construction. */
  class EngineBatch {
    var ops: seq<Op>

    constructor ()
      ensures ops == []
    {
      ops := [];
    }

    method Put(key: Slice, value: Slice)
      modifies this
      ensures ops == old(ops) + [Set(key, value)]
    {
      ops := ops + [Set(key, value)];
    }

    method Delete(key: Slice)
      modifies this
      ensures ops == old(ops) + [Op.Delete(key)]
    {
      ops := ops + [Op.Delete(key)];
    }
  }

  /** What a walk does with each op: charge it to a record, or add it to a batch. */
  datatype Visitor = Sizing(record: RecordLen) | Building(batch: EngineBatch) {
    ghost function Target(): object {
      if Sizing? then record else batch
    }

    /** The visitor has accepted exactly `ops`. */
    ghost predicate Accepted(ops: seq<Op>)
      reads Target()
    {
      if Sizing? then FirstOver(ops) == None && record.total == RecordLenOf(ops)
      else batch.ops == ops
    }
  }

  lemma FirstOverOfMore(ops: seq<Op>, op: Op)
    requires FirstOver(ops) == None
    ensures RecordLenOf(ops + [op]) == RecordLenOf(ops) + OpRecordLen(op)
    ensures FirstOver(ops + [op]) == if RecordLenOf(ops + [op]) > MAX_BATCH_RECORD_LEN then Some(|ops|) else None
  {
    assert (ops + [op])[..|ops|] == ops;
  }

  lemma {:induction false} FirstOverStays(ops: seq<Op>, more: seq<Op>)
    requires FirstOver(ops).Some?
    ensures FirstOver(ops + more) == FirstOver(ops)
  {
    if more != [] {
      var init := more[..|more| - 1];
      FirstOverStays(ops, init);
      assert (ops + more)[..|ops + more| - 1] == ops + init;
    } else {
      assert ops + more == ops;
    }
  }

  method OnOp(visitor: Visitor, index: nat, op: Op, ghost before: seq<Op>) returns (r: Option<FrameError>)
    requires visitor.Accepted(before)
    modifies visitor.Target()
    ensures visitor.Building? ==> r == None
    ensures r == None ==> visitor.Accepted(before + [op])
    ensures r.Some? ==> r == Some(RecordTooLarge(index)) && FirstOver(before + [op]) == Some(|before|)
  {
    match visitor
    case Sizing(record) =>
      FirstOverOfMore(before, op);
      assert before[..|before|] == before;
      match op {
        case Set(key, value) => r := record.Charge(SetRecordLen(|key|, |value|), index);
        case Delete(key) => r := record.Charge(DeleteRecordLen(|key|), index);
      }
    case Building(batch) =>
      match op {
        case Set(key, value) => batch.Put(key, value);
        case Delete(key) => batch.Delete(key);
      }
      return None;
  }

  /** Split `rest` behind its first field. */
  method TakeField(rest: Bytes, index: nat, field: Field)
    returns (bytes: Slice, tail: Bytes, r: Option<FrameError>)
    ensures var s := SplitField(rest);
            if s.Split? then r == None && s == Split(bytes, tail)
            else r == Some(FieldError(s, index, field))
  {
    bytes, tail := [], rest;
    if |rest| < 8 {
      return [], rest, Some(CutInLength(index, field));
    }
    var len := LittleEndian.Decode(rest[..8]);
    if |rest| - 8 < len {
      return [], rest, Some(CutInside(index, field));
    }
    EncodeDecode(rest[..8]);
    Widths();
    return rest[8..8 + len], rest[8 + len..], None;
  }

  /** Read the op at the front of a non-empty frame. */
  method TakeOp(frame: Bytes, index: nat) returns (r: OpSplit)
    requires frame != []
    ensures r == SplitOp(frame, index)
  {
    hide SplitField;
    var tag, rest := frame[0], frame[1..];
    if tag == OP_SET {
      var key, afterKey, cut := TakeField(rest, index, KeyField);
      if cut.Some? { return Bad(cut.value); }
      var value, tail, cutValue := TakeField(afterKey, index, ValueField);
      if cutValue.Some? { return Bad(cutValue.value); }
      return First(Set(key, value), tail);
    } else if tag == OP_DELETE {
      var key, tail, cut := TakeField(rest, index, KeyField);
      if cut.Some? { return Bad(cut.value); }
      return First(Delete(key), tail);
    }
    return Bad(UnknownTag(index, tag));
  }

  /** Hand the visitor each op in turn, up to the first it refuses or the first that is malformed. */
  method Walk(frame: Bytes, visitor: Visitor) returns (r: Option<FrameError>)
    requires visitor.Accepted([])
    modifies visitor.Target()
    ensures var p := Walked(frame, 0);
            if visitor.Sizing? && FirstOver(p.ops).Some? then r == Some(RecordTooLarge(FirstOver(p.ops).value))
            else r == p.stop && visitor.Accepted(p.ops)
  {
    hide Walked, SplitOp, PackOp, FirstOver, RecordLenOf;
    var rest, index := frame, 0;
    ghost var seen: seq<Op> := [];
    ghost var whole := Walked(frame, 0);
    while rest != []
      invariant |seen| == index && visitor.Accepted(seen)
      invariant whole == Behind(seen, Walked(rest, index))
      decreases |rest|
    {
      WalkedOne(rest, index, seen);
      var next := TakeOp(rest, index);
      if next.Bad? {
        if visitor.Sizing? { FitsSoFar(visitor, seen); }
        return Some(next.error);
      }
      var refused := OnOp(visitor, index, next.op, seen);
      if refused.Some? {
        FirstOverStays(seen + [next.op], Walked(next.rest, index + 1).ops);
        return refused;
      }
      seen := seen + [next.op];
      rest, index := next.rest, index + 1;
    }
    NothingLeft(index, seen);
    if visitor.Sizing? { FitsSoFar(visitor, seen); }
    return None;
  }

  /** A parse found behind the ops already seen. */
  function Behind(seen: seq<Op>, p: Parse): Parse {
    Parse(seen + p.ops, p.stop)
  }

  lemma WalkedOne(rest: Bytes, index: nat, seen: seq<Op>)
    requires rest != []
    ensures match SplitOp(rest, index)
            case Bad(e) => Behind(seen, Walked(rest, index)) == Parse(seen, Some(e))
            case First(op, tail) =>
              && |tail| < |rest|
              && Behind(seen, Walked(rest, index)) == Behind(seen + [op], Walked(tail, index + 1))
  {
    hide SplitOp;
    var s := SplitOp(rest, index);
    if s.First? {
      SplitOpPacks(rest, index);
      var later := Walked(s.rest, index + 1).ops;
      assert seen + ([s.op] + later) == (seen + [s.op]) + later;
    } else {
      assert seen + [] == seen;
    }
  }

  lemma NothingLeft(index: nat, seen: seq<Op>)
    ensures Behind(seen, Walked([], index)) == Parse(seen, None)
  {
    assert seen + [] == seen;
  }

  lemma FitsSoFar(visitor: Visitor, ops: seq<Op>)
    requires visitor.Sizing? && visitor.Accepted(ops)
    ensures FirstOver(ops) == None
  {
  }

  /** Decode a batch frame. One within the guard skips the sizing pass and pays nothing for it: the
      outcome is that of `DecodeAlwaysSizing`. */
  method Decode(frame: Bytes) returns (r: Decoded)
    ensures r == DecodeSpec(frame)
  {
    hide Walked, FirstOver, RecordLenOf;
    NoOpsCost();
    if |frame| > MAX_FRAME_WITHOUT_SIZING {
      var record := new RecordLen();
      var refused := Walk(frame, Sizing(record));
      if refused.Some? { return Invalid(refused.value); }
    } else {
      ShortFrameFits(frame);
    }
    var batch := new EngineBatch();
    var stopped := Walk(frame, Building(batch));
    if stopped.Some? { return Invalid(stopped.value); }
    return Whole(batch.ops);
  }

  /** The decoder without the shortcut: every frame is sized before its batch is built. */
  method DecodeAlwaysSizing(frame: Bytes) returns (r: Decoded)
    ensures r == DecodeSpec(frame)
  {
    hide Walked, FirstOver, RecordLenOf;
    NoOpsCost();
    var record := new RecordLen();
    var refused := Walk(frame, Sizing(record));
    if refused.Some? { return Invalid(refused.value); }
    // A frame that came through has nothing left to stop the second walk.
    var batch := new EngineBatch();
    var stopped := Walk(frame, Building(batch));
    return Whole(batch.ops);
  }

  lemma NoOpsCost()
    ensures FirstOver([]) == None && RecordLenOf([]) == BATCH_COUNT_LEN
  {
  }

  // ---- what decoding means ----

  /** Decoding inverts packing, exactly: a frame decodes to `ops` when and only when it is their
      packing and their record fits. */
  lemma DecodesIffPacked(frame: Bytes, ops: seq<Op>)
    ensures DecodeSpec(frame) == Whole(ops) <==> frame == Pack(ops) && RecordLenOf(ops) <= MAX_BATCH_RECORD_LEN
  {
    WellFormedIsPacked(frame, ops);
    FirstOverIsRefusal(ops);
  }

  /** Frames written out: a set of "k" to "xy", a delete of "k", and neither. */
  lemma DecodeExamples()
    ensures DecodeSpec([1, 1, 0, 0, 0, 0, 0, 0, 0, 107, 2, 0, 0, 0, 0, 0, 0, 0, 120, 121]) == Whole([Set([107], [120, 121])])
    ensures DecodeSpec([2, 1, 0, 0, 0, 0, 0, 0, 0, 107]) == Whole([Op.Delete([107])])
    ensures DecodeSpec([3]) == Invalid(UnknownTag(0, 3))
  {
    hide Pack, RecordLenOf, Walked, FirstOver;
    FrameExamples();
    SmallRecord(Set([107], [120, 121]));
    SmallRecord(Op.Delete([107]));
    DecodesIffPacked(Pack([Set([107], [120, 121])]), [Set([107], [120, 121])]);
    DecodesIffPacked(Pack([Op.Delete([107])]), [Op.Delete([107])]);
    UnknownAlone(3);
  }

  lemma UnknownAlone(tag: Byte)
    requires tag != 1 && tag != 2
    ensures DecodeSpec([tag]) == Invalid(UnknownTag(0, tag))
  {
    NoOpsCost();
  }

  lemma SmallRecord(op: Op)
    requires OpRecordLen(op) < 0x100
    ensures RecordLenOf([op]) <= MAX_BATCH_RECORD_LEN
  {
    assert [op][..0] == [];
  }

  /** A batch is accepted exactly while its documented size stays within the limit; otherwise the
      error names the first op whose prefix crosses it. */
  lemma AcceptedWithinLimit(ops: seq<Op>)
    ensures DecodeSpec(Pack(ops)).Whole? <==>
              4 + |Pack(ops)| + 8 * CountSets(ops) + 12 * (|ops| - CountSets(ops)) <= 1073741824
    ensures DecodeSpec(Pack(ops)).Invalid? ==>
              exists i ::
                && 0 <= i < |ops| && DecodeSpec(Pack(ops)) == Invalid(RecordTooLarge(i))
                && RecordLenOf(ops[..i + 1]) > MAX_BATCH_RECORD_LEN
                && forall k :: 0 <= k <= i ==> RecordLenOf(ops[..k]) <= MAX_BATCH_RECORD_LEN
  {
    WellFormedIsPacked(Pack(ops), ops);
    FirstOverIsRefusal(ops);
    RecordFromFrame(ops);
  }

  /** `frame` starts with the sound `ops`, and `e` is what is wrong with what follows them. */
  ghost predicate FaultBehind(frame: Bytes, ops: seq<Op>, e: FrameError) {
    && |ops| == e.index && Pack(ops) <= frame && RecordLenOf(ops) <= MAX_BATCH_RECORD_LEN
    && |Pack(ops)| < |frame|
    && var s := SplitOp(frame[|Pack(ops)|..], |ops|);
       if s.Bad? then e == s.error
       else e == RecordTooLarge(|ops|) && RecordLenOf(ops + [s.op]) > MAX_BATCH_RECORD_LEN
  }

  /** An error's index says how much of the frame is sound: that many ops, within the limit, and then
      bytes that either begin no op or begin the op that takes the record past the limit. */
  lemma ErrorNamesFirstFault(frame: Bytes)
    requires DecodeSpec(frame).Invalid?
    ensures exists ops :: FaultBehind(frame, ops, DecodeSpec(frame).error)
  {
    hide Walked, SplitOp;
    var p := Walked(frame, 0);
    WalkedIsPacked(frame, 0);
    if FirstOver(p.ops).Some? {
      OversizedFault(frame, p.ops);
    } else {
      FirstOverIsRefusal(p.ops);
      assert FaultBehind(frame, p.ops, p.stop.value);
    }
  }

  lemma OversizedFault(frame: Bytes, ops: seq<Op>)
    requires Pack(ops) <= frame && FirstOver(ops).Some?
    ensures exists sound :: FaultBehind(frame, sound, RecordTooLarge(FirstOver(ops).value))
  {
    hide Pack, PackOp, SplitOp, RecordLenOf;
    var i := FirstOver(ops).value;
    var sound, op, later := ops[..i], ops[i], ops[i + 1..];
    assert ops[..i + 1] == sound + [op];
    assert Pack(ops) == Pack(sound) + PackOp(op) + Pack(later) by {
      assert ops == (sound + [op]) + later;
      PackAppend(sound + [op], later);
      PackAppend(sound, [op]);
      PackOne(op);
    }
    var rest := Pack(later) + frame[|Pack(ops)|..];
    DropFirst(Pack(sound), PackOp(op), Pack(later), frame);
    PackOpSplits(op, rest, i);
    assert FaultBehind(frame, sound, RecordTooLarge(i));
  }

  lemma DropFirst(a: Bytes, b: Bytes, c: Bytes, frame: Bytes)
    requires a + b + c <= frame
    ensures a <= frame && frame[|a|..] == b + (c + frame[|a + b + c|..])
  {
    assert frame == a + b + c + frame[|a + b + c|..];
  }
}
