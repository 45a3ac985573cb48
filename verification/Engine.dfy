/** The engine as the iterator sees it: a seekable snapshot cursor and a consumed transaction stream.
    Both are owned outright by the iterator that uses them, so they are values here. */
module Engine {
  import opened Basics
  import opened Bounds
  import opened Views

  /** Index of the first pair whose key is at or above `t`. */
  function CountBelow(ps: seq<Pair>, t: Bytes): (n: nat)
    requires Sorted(ps)
    ensures n <= |ps|
    ensures forall i :: 0 <= i < n ==> Less(ps[i].key, t)
    ensures forall i :: n <= i < |ps| ==> !Less(ps[i].key, t)
  {
    if ps == [] then 0
    else if !Less(ps[0].key, t) then
      assert forall i :: 0 <= i < |ps| ==> !Less(ps[i].key, t) by {
        forall i | 0 < i < |ps| ensures !Less(ps[i].key, t) {
          LessMixed(t, ps[0].key, ps[i].key);
          LessTotal(t, ps[i].key);
        }
      }
      0
    else 1 + CountBelow(ps[1..], t)
  }

  /** Index of the first pair whose key is above `t`. */
  function CountUpTo(ps: seq<Pair>, t: Bytes): (n: nat)
    requires Sorted(ps)
    ensures n <= |ps|
    ensures forall i :: 0 <= i < n ==> !Less(t, ps[i].key)
    ensures forall i :: n <= i < |ps| ==> Less(t, ps[i].key)
  {
    if ps == [] then 0
    else if Less(t, ps[0].key) then
      assert forall i :: 0 <= i < |ps| ==> Less(t, ps[i].key) by {
        forall i | 0 < i < |ps| ensures Less(t, ps[i].key) {
          LessTransitive(t, ps[0].key, ps[i].key);
        }
      }
      0
    else 1 + CountUpTo(ps[1..], t)
  }

  /** A cursor over a snapshot: an index into its sorted pairs. Reaching a key in `bad` is a read
      failure, which leaves the cursor invalid with an error status. */
  datatype SnapshotCursor = SnapshotCursor(pairs: seq<Pair>, bad: set<Bytes>, at: int) {
    ghost predicate WellFormed() {
      Sorted(pairs) && -1 <= at <= |pairs|
    }

    predicate Valid() {
      0 <= at < |pairs| && pairs[at].key !in bad
    }

    function Key(): Option<Bytes> {
      if Valid() then Some(pairs[at].key) else None
    }

    function Value(): Option<Bytes> {
      if Valid() then Some(pairs[at].value) else None
    }

    function Status(): Option<Failure> {
      if 0 <= at < |pairs| && pairs[at].key in bad then Some(ReadError(pairs[at].key)) else None
    }

    function Seek(t: Bytes): SnapshotCursor
      requires WellFormed()
    {
      this.(at := CountBelow(pairs, t))
    }

    function SeekForPrev(t: Bytes): SnapshotCursor
      requires WellFormed()
    {
      this.(at := CountUpTo(pairs, t) - 1)
    }

    function SeekToFirst(): SnapshotCursor { this.(at := 0) }

    function SeekToLast(): SnapshotCursor { this.(at := |pairs| - 1) }

    /** Stepping an invalid cursor is not defined. */
    function Next(): SnapshotCursor
      requires Valid()
    {
      this.(at := at + 1)
    }

    function Prev(): SnapshotCursor
      requires Valid()
    {
      this.(at := at - 1)
    }
  }

  function Within(ps: seq<Pair>, start: Option<Bytes>, end: Option<Bytes>): seq<Pair> {
    if ps == [] then []
    else
      var head := if InSpan(start, end, ps[0].key) then [ps[0]] else [];
      head + Within(ps[1..], start, end)
  }

  /** The readable part of a scan: everything before the first bad key. */
  function Readable(ps: seq<Pair>, bad: set<Bytes>): (r: seq<Pair>)
    ensures r <= ps
    ensures forall p :: p in r ==> p.key !in bad
    ensures |r| < |ps| ==> ps[|r|].key in bad
  {
    if ps == [] || ps[0].key in bad then [] else [ps[0]] + Readable(ps[1..], bad)
  }

  /** A pull stream: entries not yet handed out, then a status that never changes. */
  datatype TxnScanStream = TxnScanStream(rest: seq<Pair>, status: Option<Failure>)

  /** A stream over `ps`, failing at the first bad key. */
  function Capture(ps: seq<Pair>, bad: set<Bytes>): TxnScanStream {
    var readable := Readable(ps, bad);
    TxnScanStream(readable, if |readable| < |ps| then Some(ReadError(ps[|readable|].key)) else None)
  }

  /** A transaction as its scans see it, its own writes included. */
  datatype Merged = Merged(pairs: seq<Pair>, bad: set<Bytes>) {
    /** Capture the pairs in `[start, end)`, in the requested direction. */
    function ScanStreamIn(start: Option<Bytes>, end: Option<Bytes>, reverse: bool): TxnScanStream {
      Capture(Directed(Within(pairs, start, end), reverse), bad)
    }
  }

  /** The transaction a handle and its iterators share, until it is resolved and gone. */
  class TxnInner {
    var txn: Option<Merged>

    constructor (m: Merged)
      ensures txn == Some(m)
    {
      txn := Some(m);
    }
  }
}
