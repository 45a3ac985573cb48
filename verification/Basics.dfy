/** Shared vocabulary: optional values, byte strings and their lexicographic order. */
module Basics {

  datatype Option<+T> = None | Some(value: T)

  type Byte = x: int | 0 <= x < 0x100

  type Bytes = seq<Byte>

  /** Reasons an iterator call can fail. */
  datatype Failure =
    | ReadError(key: Bytes)   // the engine could not read the entry at `key`
    | Discarded               // the transaction is already resolved
    | InvalidArg
    | KeyTooLong              // a key of 2^32 bytes or more cannot be framed

  datatype Result<+T> = Ok(value: T) | Err(error: Failure)

  /** Byte-wise lexicographic order, as Rust compares `&[u8]`. */
  predicate Less(a: Bytes, b: Bytes) {
    if b == [] then false
    else if a == [] then true
    else a[0] < b[0] || (a[0] == b[0] && Less(a[1..], b[1..]))
  }

  lemma {:induction false} LessIrreflexive(a: Bytes)
    ensures !Less(a, a)
  {
    if a != [] {
      LessIrreflexive(a[1..]);
    }
  }

  lemma {:induction false} LessTransitive(a: Bytes, b: Bytes, c: Bytes)
    requires Less(a, b) && Less(b, c)
    ensures Less(a, c)
  {
    if a != [] && a[0] == b[0] && b[0] == c[0] {
      LessTransitive(a[1..], b[1..], c[1..]);
    }
  }

  lemma {:induction false} LessTotal(a: Bytes, b: Bytes)
    ensures Less(a, b) || Less(b, a) || a == b
    ensures !(Less(a, b) && Less(b, a))
  {
    if a != [] && b != [] {
      LessTotal(a[1..], b[1..]);
      if a[0] == b[0] && a[1..] == b[1..] {
        assert a == [a[0]] + a[1..] && b == [b[0]] + b[1..];
      }
    }
  }

  /** `a <= b < c` and `a < b <= c` both give `a < c`, with `<=` read as "not greater". */
  lemma LessMixed(a: Bytes, b: Bytes, c: Bytes)
    ensures !Less(b, a) && Less(b, c) ==> Less(a, c)
    ensures Less(a, b) && !Less(c, b) ==> Less(a, c)
    ensures !Less(b, a) && !Less(c, b) ==> !Less(c, a)
  {
    LessTotal(a, b);
    LessTotal(b, c);
    LessTotal(a, c);
    if Less(a, b) && Less(b, c) { LessTransitive(a, b, c); }
    if Less(c, a) && Less(a, b) { LessTransitive(c, a, b); }
    if Less(b, c) && Less(c, a) { LessTransitive(b, c, a); }
  }

  /** `target` with a zero byte appended is the immediate successor of `target`:
      lying below it is the same as being at most `target`. */
  lemma {:induction false} ZeroByteIsSuccessor(target: Bytes, key: Bytes)
    ensures Less(key, target + [0]) <==> !Less(target, key)
  {
    var next := target + [0];
    if target == [] {
      if key != [] {
        assert next[1..] == [];
      }
    } else if key != [] {
      assert next[0] == target[0] && next[1..] == target[1..] + [0];
      ZeroByteIsSuccessor(target[1..], key[1..]);
    }
  }

  /** ... and it stays at most any exclusive end above `target`. */
  lemma SuccessorStaysBelow(target: Bytes, end: Bytes)
    requires Less(target, end)
    ensures !Less(end, target + [0])
  {
    ZeroByteIsSuccessor(target, end);
  }
}
