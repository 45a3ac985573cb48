/** What one batch of an iterator gathers, and how its keys are framed. */
module Batches {
  import opened Basics
  import opened Views
  import LittleEndian

  const MAX_BATCH_VALUE_BYTES: nat := 0x10_0000

  /** Every key behind its own length in four bytes, one after the other. */
  function Frame(es: seq<Entry>): (frame: Bytes)
    ensures es == [] ==> frame == []
  {
    if es == [] then []
    else LittleEndian.Encode(|es[0].key|, 4) + es[0].key + Frame(es[1..])
  }

  lemma {:induction false} FrameAppend(es: seq<Entry>, fs: seq<Entry>)
    ensures Frame(es + fs) == Frame(es) + Frame(fs)
  {
    if es == [] {
      assert es + fs == fs;
    } else {
      assert (es + fs)[1..] == es[1..] + fs;
      FrameAppend(es[1..], fs);
    }
  }

  lemma FrameOne(e: Entry)
    ensures Frame([e]) == LittleEndian.Encode(|e.key|, 4) + e.key
  {
    assert [e][1..] == [];
  }

  predicate Frameable(es: seq<Entry>) {
    forall i :: 0 <= i < |es| ==> |es[i].key| < LittleEndian.U32_LIMIT
  }

  /** Index of the first entry whose key is too long to frame. */
  function FirstLong(es: seq<Entry>): (n: nat)
    ensures n <= |es|
    ensures forall i :: 0 <= i < n ==> |es[i].key| < LittleEndian.U32_LIMIT
    ensures n < |es| ==> |es[n].key| >= LittleEndian.U32_LIMIT
  {
    if es == [] || |es[0].key| >= LittleEndian.U32_LIMIT then 0 else 1 + FirstLong(es[1..])
  }

  function Weight(e: Entry): nat {
    if e.value.Some? then |e.value.value| else 0
  }

  /** Value bytes a batch of these entries keeps referenced. */
  function Kept(es: seq<Entry>): (bytes: nat)
    ensures es == [] ==> bytes == 0
  {
    if es == [] then 0 else Kept(es[..|es| - 1]) + Weight(es[|es| - 1])
  }

  /** The values a batch of these entries retains, in order: none under `KeysOnly`. */
  function ValuesOf(es: seq<Entry>): seq<Bytes> {
    if es == [] then []
    else ValuesOf(es[..|es| - 1]) + (if es[|es| - 1].value.Some? then [es[|es| - 1].value.value] else [])
  }

  lemma {:induction false} ValuesLineUp(es: seq<Entry>, keysOnly: bool)
    requires ShownAs(es, keysOnly)
    ensures keysOnly ==> ValuesOf(es) == []
    ensures !keysOnly ==> |ValuesOf(es)| == |es| && forall i :: 0 <= i < |es| ==> es[i].value == Some(ValuesOf(es)[i])
  {
    if es != [] {
      var init := es[..|es| - 1];
      forall i | 0 <= i < |init| ensures init[i] == es[i] {}
      ValuesLineUp(init, keysOnly);
    }
  }

  /** How many of the coming entries a batch of at most `max` takes, with `kept` bytes held already. */
  function Gather(rest: seq<Entry>, max: nat, kept: nat): (n: nat)
    ensures n <= |rest| && n <= max
    ensures rest != [] && max > 0 ==> n > 0
  {
    if rest == [] || max == 0 then 0
    else if kept + Weight(rest[0]) >= MAX_BATCH_VALUE_BYTES then 1
    else 1 + Gather(rest[1..], max - 1, kept + Weight(rest[0]))
  }

  lemma {:induction false} KeptFront(es: seq<Entry>)
    requires es != []
    ensures Kept(es) == Weight(es[0]) + Kept(es[1..])
  {
    if |es| > 1 {
      KeptFront(es[..|es| - 1]);
      assert es[..|es| - 1][1..] == es[1..][..|es| - 2];
    }
  }

  /** A batch stops early only at the value cap: what it keeps before its last entry is under the
      cap, and a short batch that leaves entries behind has reached it. */
  lemma {:induction false} GatherStopsAtCap(rest: seq<Entry>, max: nat, kept: nat)
    requires kept < 1048576
    ensures var n := Gather(rest, max, kept);
            && (n > 0 ==> kept + Kept(rest[..n - 1]) < 1048576)
            && (n < max && n < |rest| ==> kept + Kept(rest[..n]) >= 1048576)
  {
    hide Kept;
    var n := Gather(rest, max, kept);
    if n > 0 {
      KeptOfFirst(rest, n);
      if kept + Weight(rest[0]) < MAX_BATCH_VALUE_BYTES {
        GatherStopsAtCap(rest[1..], max - 1, kept + Weight(rest[0]));
        if n > 1 { KeptOfFirst(rest, n - 1); }
      }
    }
  }

  lemma KeptOfFirst(rest: seq<Entry>, n: nat)
    requires 0 < n <= |rest|
    ensures Kept(rest[..n]) == Weight(rest[0]) + Kept(rest[1..][..n - 1])
  {
    hide Kept, Weight;
    KeptFront(rest[..n]);
    assert rest[..n][1..] == rest[1..][..n - 1];
  }

  lemma {:induction false} KeptGrows(es: seq<Entry>, n: nat)
    requires n <= |es|
    ensures Kept(es[..n]) <= Kept(es)
  {
    if n < |es| {
      KeptGrows(es[..|es| - 1], n);
      assert es[..|es| - 1][..n] == es[..n];
    } else {
      assert es[..n] == es;
    }
  }

  /** A batch gets to its `i`-th entry unless it is full before it. */
  lemma GathersTo(rest: seq<Entry>, max: nat, i: nat)
    requires i < |rest| && i < max && Kept(rest[..i]) < 1048576
    ensures Gather(rest, max, 0) > i
  {
    hide Kept, Gather;
    var n := Gather(rest, max, 0);
    GatherStopsAtCap(rest, max, 0);
    if n <= i {
      assert rest[..i][..n] == rest[..n];
      KeptGrows(rest[..i], n);
    }
  }

  /** What is kept is the length of every value read. */
  lemma {:induction false} KeptOfEqualValues(es: seq<Entry>, length: nat)
    requires forall e :: e in es ==> e.value.Some? && |e.value.value| == length
    ensures Kept(es) == |es| * length
  {
    if es != [] { KeptOfEqualValues(es[..|es| - 1], length); }
  }

  lemma {:induction false} NothingKept(es: seq<Entry>)
    requires forall e :: e in es ==> e.value == None
    ensures Kept(es) == 0
  {
    if es != [] { NothingKept(es[..|es| - 1]); }
  }

  /** Over values of 10000 bytes a batch stops behind the 105th, and over none it does not stop. */
  lemma CapExample(es: seq<Entry>)
    requires |es| == 256
    ensures (forall e :: e in es ==> e.value.Some? && |e.value.value| == 10000) ==> Gather(es, 256, 0) == 105
    ensures (forall e :: e in es ==> e.value == None) ==> Gather(es, 256, 0) == 256
  {
    hide Kept, Gather;
    var n := Gather(es, 256, 0);
    GatherStopsAtCap(es, 256, 0);
    if forall e :: e in es ==> e.value.Some? && |e.value.value| == 10000 {
      KeptOfEqualValues(es[..n], 10000);
      KeptOfEqualValues(es[..n - 1], 10000);
    }
    if forall e :: e in es ==> e.value == None { NothingKept(es[..n]); }
  }

  /** A batch that has taken the first `count` coming entries holds this frame and these values. */
  ghost predicate Holds(rest: seq<Entry>, count: nat, frame: Bytes, values: seq<Bytes>) {
    && count <= |rest|
    && count <= FirstLong(rest)
    && frame == Frame(rest[..count])
    && values == ValuesOf(rest[..count])
  }

  /** Such a batch is not full yet. */
  ghost predicate Filling(rest: seq<Entry>, max: nat, count: nat, retained: nat) {
    && count <= |rest| && count <= max
    && retained == Kept(rest[..count]) < MAX_BATCH_VALUE_BYTES
    && Gather(rest, max, 0) == count + Gather(rest[count..], max - count, retained)
  }

  lemma HoldsOneMore(rest: seq<Entry>, count: nat, frame: Bytes, values: seq<Bytes>)
    requires Holds(rest, count, frame, values)
    requires count < |rest| && |rest[count].key| < LittleEndian.U32_LIMIT
    ensures Holds(rest, count + 1, frame + LittleEndian.Encode(|rest[count].key|, 4) + rest[count].key,
                  values + if rest[count].value.Some? then [rest[count].value.value] else [])
  {
    var e := rest[count];
    assert rest[..count + 1] == rest[..count] + [e];
    FrameAppend(rest[..count], [e]);
    FrameOne(e);
    assert rest[..count + 1][..count] == rest[..count];
    assert frame + LittleEndian.Encode(|e.key|, 4) + e.key == frame + (LittleEndian.Encode(|e.key|, 4) + e.key);
  }

  lemma FillOneMore(rest: seq<Entry>, max: nat, count: nat, retained: nat)
    requires Filling(rest, max, count, retained)
    requires count < |rest| && count < max
    ensures var more := retained + Weight(rest[count]);
            && more == Kept(rest[..count + 1])
            && if more >= MAX_BATCH_VALUE_BYTES then Gather(rest, max, 0) == count + 1
               else Filling(rest, max, count + 1, more)
  {
    assert rest[..count + 1][..count] == rest[..count];
    assert rest[count..][1..] == rest[count + 1..];
  }
}
