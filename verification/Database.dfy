/** Write batches and their atomic application to the store (batch.go, regolith.go, ffi/src/db.rs). */
module Database {
  import opened Basics
  import opened LittleEndian
  import opened BatchFrame
  import opened BatchDecode

  type Store = map<Bytes, Bytes>

  function ApplyOp(store: Store, op: Op): Store {
    match op
    case Set(key, value) => store[key := value]
    case Delete(key) => store - {key}
  }

  /** The in-order fold of a batch over a store. */
  function Apply(store: Store, ops: seq<Op>): Store {
    if ops == [] then store else ApplyOp(Apply(store, ops[..|ops| - 1]), ops[|ops| - 1])
  }

  function Lookup(store: Store, key: Bytes): Option<Bytes> {
    if key in store then Some(store[key]) else None
  }

  /** Index of the last op on `key`. */
  function LastOn(ops: seq<Op>, key: Bytes): (r: Option<nat>)
    ensures r.Some? ==> r.value < |ops| && ops[r.value].key == key
    ensures r.Some? ==> forall i :: r.value < i < |ops| ==> ops[i].key != key
    ensures r == None ==> forall i :: 0 <= i < |ops| ==> ops[i].key != key
  {
    if ops == [] then None
    else if ops[|ops| - 1].key == key then Some(|ops| - 1)
    else LastOn(ops[..|ops| - 1], key)
  }

  /** A key reads as the last op that names it left it, and as before when none does. */
  lemma {:induction false} LastOpWins(store: Store, ops: seq<Op>, key: Bytes)
    ensures Lookup(Apply(store, ops), key) ==
              match LastOn(ops, key)
              case None => Lookup(store, key)
              case Some(i) => if ops[i].Set? then Some(ops[i].value) else None
  {
    if ops != [] && ops[|ops| - 1].key != key {
      LastOpWins(store, ops[..|ops| - 1], key);
    }
  }

  class WriteBatch {
    var buf: Bytes
    var n: nat

    /** The ops added since the last `Reset`. */
    ghost var ops: seq<Op>

    ghost predicate Valid()
      reads this
    {
      buf == Pack(ops) && n == |ops|
    }

    constructor ()
      ensures Valid() && ops == []
    {
      buf, n, ops := [], 0, [];
    }

    static function AppendField(buf: Bytes, field: Slice): (r: Bytes)
      ensures r == buf + PackField(field)
    {
      buf + Encode(|field|, 8) + field
    }

    method Set(key: Slice, value: Slice)
      requires Valid()
      modifies this
      ensures Valid() && ops == old(ops) + [Op.Set(key, value)]
    {
      hide Pack, PackField, Encode;
      ghost var before := buf;
      buf := buf + [OP_SET];
      buf := AppendField(buf, key);
      buf := AppendField(buf, value);
      n := n + 1;
      PackAppend(ops, [Op.Set(key, value)]);
      PackOne(Op.Set(key, value));
      ops := ops + [Op.Set(key, value)];
      assert buf == before + PackOp(Op.Set(key, value));
    }

    method Delete(key: Slice)
      requires Valid()
      modifies this
      ensures Valid() && ops == old(ops) + [Op.Delete(key)]
    {
      hide Pack, PackField, Encode;
      ghost var before := buf;
      buf := buf + [OP_DELETE];
      buf := AppendField(buf, key);
      n := n + 1;
      PackAppend(ops, [Op.Delete(key)]);
      PackOne(Op.Delete(key));
      ops := ops + [Op.Delete(key)];
      assert buf == before + PackOp(Op.Delete(key));
    }

    method Len() returns (r: nat)
      requires Valid()
      ensures r == |ops|
    {
      return n;
    }

    /** The frame's length; the second clause gives the record a write is bounded by from it. */
    method Size() returns (r: nat)
      requires Valid()
      ensures r == |Pack(ops)|
      ensures RecordLenOf(ops) == r + 8 * CountSets(ops) + 12 * (|ops| - CountSets(ops)) + 4
    {
      RecordFromFrame(ops);
      return |buf|;
    }

    method Reset()
      requires Valid()
      modifies this
      ensures Valid() && ops == []
    {
      buf, n, ops := [], 0, [];
    }
  }

  datatype Edit = Add(op: Op) | Reset

  function SinceReset(history: seq<Edit>): seq<Op> {
    if history == [] then []
    else match history[|history| - 1]
      case Add(op) => SinceReset(history[..|history| - 1]) + [op]
      case Reset => []
  }

  /** Apply a history of calls to a batch. */
  method Replay(b: WriteBatch, history: seq<Edit>)
    requires b.Valid() && b.ops == []
    modifies b
    ensures b.Valid() && b.ops == SinceReset(history)
  {
    for i := 0 to |history|
      invariant b.Valid() && b.ops == SinceReset(history[..i])
    {
      assert history[..i + 1][..i] == history[..i];
      match history[i]
      case Add(Set(key, value)) => b.Set(key, value);
      case Add(Delete(key)) => b.Delete(key);
      case Reset => b.Reset();
    }
    assert history[..|history|] == history;
  }

  datatype WriteResult = Written | ErrClosed | ErrInvalidArgument(error: FrameError) | EngineRefused

  class DB {
    var closed: bool
    var store: Store

    constructor ()
      ensures !closed && store == map[]
    {
      closed, store := false, map[];
    }

    /** Closing again does nothing. */
    method Close()
      modifies this`closed
      ensures closed
    {
      closed := true;
    }

    /** The C entry point: decode, then hand the engine the whole batch. The engine applies all of it
        or, when it refuses a key or a value for its size, none of it. */
    method FfiWrite(frame: Bytes, engineRefuses: bool) returns (r: WriteResult)
      modifies this`store
      ensures match DecodeSpec(frame)
              case Invalid(e) => r == ErrInvalidArgument(e) && store == old(store)
              case Whole(ops) =>
                if engineRefuses then r == EngineRefused && store == old(store)
                else r == Written && store == Apply(old(store), ops)
    {
      var decoded := BatchDecode.Decode(frame);
      match decoded
      case Invalid(e) => return ErrInvalidArgument(e);
      case Whole(ops) =>
        if engineRefuses { return EngineRefused; }
        ghost var before := store;
        for i := 0 to |ops|
          invariant store == Apply(before, ops[..i])
        {
          assert ops[..i + 1][..i] == ops[..i];
          store := ApplyOp(store, ops[i]);
        }
        assert ops[..|ops|] == ops;
        return Written;
    }

    /** Apply the batch atomically. The batch itself is only read. */
    method Write(b: WriteBatch?, engineRefuses: bool) returns (r: WriteResult)
      requires b != null ==> b.Valid()
      modifies this`store
      ensures closed ==> r == ErrClosed && store == old(store)
      ensures !closed && (b == null || b.ops == []) ==> r == Written && store == old(store)
      ensures !closed && b != null && b.ops != [] ==>
                if RecordLenOf(b.ops) > MAX_BATCH_RECORD_LEN then
                  r == ErrInvalidArgument(RecordTooLarge(FirstOver(b.ops).value)) && store == old(store)
                else if engineRefuses then r == EngineRefused && store == old(store)
                else r == Written && store == Apply(old(store), b.ops)
    {
      if closed { return ErrClosed; }
      if b == null || b.n == 0 { return Written; }
      WellFormedIsPacked(b.buf, b.ops);
      FirstOverIsRefusal(b.ops);
      r := FfiWrite(b.buf, engineRefuses);
    }
  }

  /** End to end: fill a batch by any history of calls and write it. On a closed store nothing changes;
      nor when the record is too long, which names the first op past the limit, nor when the engine
      refuses. Otherwise every key reads as the last op on it since the last reset left it. */
  method WriteHistory(db: DB, history: seq<Edit>, engineRefuses: bool) returns (r: WriteResult)
    modifies db`store
    ensures var ops := SinceReset(history);
            if db.closed then r == ErrClosed && db.store == old(db.store)
            else if RecordLenOf(ops) > MAX_BATCH_RECORD_LEN then
              && FirstOver(ops).Some? && r == ErrInvalidArgument(RecordTooLarge(FirstOver(ops).value))
              && db.store == old(db.store)
            else if engineRefuses && ops != [] then r == EngineRefused && db.store == old(db.store)
            else
              && r == Written
              && forall key :: Lookup(db.store, key) ==
                   match LastOn(ops, key)
                   case None => Lookup(old(db.store), key)
                   case Some(i) => if ops[i].Set? then Some(ops[i].value) else None
  {
    ghost var ops, before := SinceReset(history), db.store;
    var b := new WriteBatch();
    Replay(b, history);
    r := db.Write(b, engineRefuses);
    FirstOverIsRefusal(ops);
    forall key { LastOpWins(before, ops, key); }
  }
}
