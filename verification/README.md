# A verified model of go-regolith

go-regolith binds a Go package to a Rust key-value engine through a C ABI. The engine is not part of
the repository. What the repository itself computes is modelled here and proved:

* **The ordered iterator.** The Rust iterator (`FfiIter`) walks a snapshot cursor or a transaction
  stream, singly or in batches; the Go iterator (`GoIter`) caches batches of framed keys on top of it.
  Every run of calls on either is that of a stepper over any source, one that cannot be read through or a
  transaction that is resolved underneath included, and over a source that can be read that of one plain
  cursor (`PlainCursor`) over the in-range sorted entries (`Views`): `FfiRuns`, `GoSteps`, `GoRuns`.
  `FfiDrains` and `GoDrains` say what batches, single steps and mixes of both get, from the options given
  to the entries read. `Walks` holds the reason: what a positioned source will yield from now on.
* **The write-batch codec.** `BatchFrame` is the frame and the record it is charged for, `BatchDecode`
  the decoder with its sizing shortcut, `Database` the Go batch and the atomic write.
* **Handle lifecycle.** `HandleLifecycle` interleaves goroutines at every lock operation and flag
  access, and between entering the engine and coming back from it, for the store handle and any number of
  transaction handles. `HandleCalls` says of every call what it makes the engine do and what it
  reports of it.

`dafny verify dfyconfig.toml` checks the project.

## How the engine is modelled

A snapshot cursor is an index into a strictly sorted sequence of pairs: seek finds the least key at or
above its target, seek-for-prev the greatest at or below it, and an invalid cursor is never stepped. A
transaction scan captures the pairs of its range when it is built, in the asked direction, and hands
them out once. Keys in a set `bad` cannot be read: landing on one leaves a cursor invalid with an error
status, and a stream ends before the first of them with an error status that persists. A batch write is
all or nothing; whether the engine itself refuses it is a parameter. Cursor and stream are owned by the
iterator, so they are values held in its `source` field; the transaction is shared, so it is an object,
and its contents may change between any two calls (`Change` in the run theorems).

## What was found

* **Keys outside the range are felt on a snapshot.** With every in-range key readable, a walk still ends
  in a failure in exactly two cases (`ReadableRangeFails`, for restarts and seeks). A reverse restart, or a
  seek at or above the end, first lands on the excluded end key when that key is stored; if it cannot be
  read, nothing is shown at all (`EndReadHidesRange`). And behind a whole view the walk steps on one stored
  key past the range (`PastKey`, the nearest one by `PastKeyIsNearest`) to find that it has left it; if that
  key cannot be read, the walk reports it, forward and in reverse. `OutsideKeyExamples` has a two-key store
  for each. `StartIsFaithful` and `SeekIsFaithful` name the entries and the failing key in every case. A
  transaction stream over the same contents has neither case.
* **The sizing guard is two below tight.** `MAX_FRAME_WITHOUT_SIZING` is 460175065, while the shortest
  frame that can be refused for size has 460175067 bytes (`ShortestRefusableFrame`). The comment at
  ffi/src/batch.rs:84-85 says the bound holds "exactly while" the frame is no longer than the guard; it
  does for the real-valued bound, and for one byte more on whole frames.
* **A single step overtakes a held-back failure, on a snapshot.** Behind a batch, `next` reports
  exhaustion ahead of a failure still held back exactly when the batch took entries and then ran off their
  end into the failure (`StepAfterBatch`); `OvertakenExample` runs through a store of two keys. The step
  after a batch over a transaction meets the failure itself. Runs of batches alone report failures in order
  (`PollBatches`, `DrainEndsExhausted`).
* **A transaction stream that cannot be read through never ends.** A drain of a transaction ends exactly
  when every key it should show can be read (`StreamFailsExactly`, for restarts and seeks). Otherwise the
  entries ahead of the first key that cannot come once each, and every call behind them fails again; a count
  of 0 never comes (`PollFailingTxn`, `NextOverFailingTxn`; `FailingStreamExample` has a store of one key).
  On a snapshot and on a resolved transaction a failure is reported exactly once, and counts of 0 follow
  (`PolledInOrder`).
* **A failed seek is forgotten.** In Go, the `Next` behind a `Seek` that returned a read failure reports a
  clean end of the range, over either kind of source (`FailedSeekThenNext`; `FailedSeekExample` has a store of
  two keys). `SeekFailsExactly` says which seeks fail: those whose first key, as the walk comes to it, cannot
  be read.
* **A key of 2^32 bytes or more discards the batch gathered before it**: `LongKeyDiscards`. The engine's default key limit of 8 MiB
  (ffi/src/abi_tests.rs:397) keeps it out of reach.
* **Go's copy of a batch needs its frame to stay under 2^31 bytes**, for the C `int` length. A refill
  answers with an entry exactly then (`RefillArrives`, `SeekEntry`); with keys of up to 8 MiB it panics
  otherwise (`EngineKeysNeverTear`). The run theorems for the Go iterator ask for it of every batch that can
  be drawn (`Fits`). As a bound on single keys that is 8388603 bytes, and the bound is exact: 256 different
  keys of one byte more do not fit (`ShortIsExact`). It is five bytes below the engine's limit.
* **When a transaction's writes are sampled.** ffi/src/txn.rs:203-205 says at iterator creation; the code
  samples on the first advance, on every seek and on the first advance after a reset, as
  regolith.go:503-507 says. The model follows the code: `GoRuns.RunOverTxn`, `WritesInvisibleMidway`,
  `NothingSampledYet`, `BufferedFirst`.

## Model

| member | source | states |
|---|---|---|
| Basics.ZeroByteIsSuccessor | ffi/src/iter.rs:347-355 | target with a zero byte appended is its immediate successor: a key is below it exactly when it is at most the target |
| Basics.SuccessorStaysBelow | ffi/src/iter.rs:347-355 | that successor stays at most any exclusive end above the target |
| Bounds.PrefixEnd | ffi/src/iter.rs:103-112 | the popping loop computes the least upper bound of the keys beginning with the prefix |
| Bounds.PrefixIsSpan | ffi/src/iter.rs:130-132 | for every prefix, a key lies in [prefix, prefix_end) exactly when it begins with the prefix |
| Bounds.UpperLimitIsLeast | ffi/src/iter.rs:101-112 | prefix_end is the least bound above every key with the prefix |
| Bounds.NoLimitMeansAllOnes | ffi/src/iter.rs:101-112 | there is no such bound exactly for prefixes that are all 0xff |
| Bounds.AllOnesNeedsNoEnd | ffi/src/iter.rs:101-112 | for those prefixes the lower bound alone selects exactly the keys with the prefix |
| Bounds.BoundsFrom | ffi/src/iter.rs:119-145 | options become a range holding exactly the prefixed keys, or the keys between the given start and end, with an empty field meaning absent |
| Views.ViewMembers | ffi/src/iter.rs:85-98 | the view holds exactly the stored pairs inside the range, each with its own value when values are read and with none under KeysOnly; nothing out of range is ever yielded |
| Views.ViewInWalkOrder | ffi/src/iter.rs:246-279 | the view is strictly ordered in the direction of the walk |
| Views.SeekViewIsSuffix | ffi/src/iter.rs:304-317 | what a seek shows is the full walk less the entries before the target |
| Views.SeekLandsNearest | ffi/src/iter.rs:303-372 | a seek lands on the wanted key its walk would come to first, and nowhere exactly when no stored key is wanted, for any bounds and direction |
| Engine.CountBelow | ffi/src/iter.rs:334 | the cursor's seek: the index that splits keys below the target from the others |
| Engine.CountUpTo | ffi/src/iter.rs:368 | the cursor's seek-for-prev: the index that splits keys at or below the target from the others |
| Walks.StartIsFaithful | ffi/src/iter.rs:246-279 | a restarted snapshot walk shows the view up to its first unreadable key and fails on that key, or shows all of it and fails exactly when the first stored key behind the range is unreadable, on that key; an unreadable excluded end of a reverse walk fails first |
| Walks.SeekIsFaithful | ffi/src/iter.rs:319-372 | the same for a seek, forward and reverse, clamped to the range |
| Walks.PastKeyIsNearest | ffi/src/iter.rs:282-301 | the key such a walk leaves the range on is the nearest stored key behind it, and there is none exactly when no stored key lies there |
| Walks.SeekSpanIsWanted | ffi/src/iter.rs:319-361 | the range a transaction seek rebuilds over holds exactly the keys the seek may land on or walk to |
| Walks.StreamStartIsFaithful | ffi/src/iter.rs:247-251 | a restarted transaction stream shows the view faithfully, without exception |
| Walks.StreamSeekIsFaithful | ffi/src/iter.rs:325-361 | so does a stream rebuilt by a seek |
| Walks.SourcesAgree | ffi/src/iter.rs:245-372 | over the same readable contents, snapshot and transaction yield the same entries after every restart and every seek, and those are the view's |
| Walks.ReadableRangeFails | ffi/src/iter.rs:246-301 | with all in-range keys readable, a restart or a seek of a snapshot fails exactly when it starts at an unreadable excluded end or the first stored key behind the range is unreadable; a stream over the same contents shows its view whole and never fails |
| Walks.ReadableShows | ffi/src/iter.rs:245-372 | over either kind of readable source, a restart shows the view and a seek the view from its target on, without a failure |
| Walks.ViewIsPairs | ffi/src/iter.rs:246-279 | entry by entry the view is the stored pairs in range, keys and values, and those are all of them |
| Walks.SeekFinds | ffi/src/iter.rs:303-372 | over either kind of readable source a seek to a stored key in range lands on that pair, value and all |
| Walks.EndReadHidesRange | ffi/src/iter.rs:259-268 | with all in-range keys readable, a restart still fails to show the view exactly when the walk is reversed, the excluded end is stored and unreadable, and there is something to show |
| Walks.OutsideKeyExamples | ffi/src/iter.rs:259-268 | a store holding "a" and an unreadable "b" shows nothing in reverse below "b"; forward below "b" it shows "a" and then fails on "b" |
| Walks.StreamFailsExactly | ffi/src/iter.rs:436-446 | a walk over a transaction, restarted or sought, ends in a failure that stays exactly when some key it should show cannot be read |
| Walks.FailingStreamExample | ffi/src/iter.rs:436-446 | a transaction holding one key that cannot be read shows nothing and fails for ever |
| Walks.SeekFailsExactly | ffi/src/iter.rs:303-372 | a seek shows nothing and fails exactly when the first key its walk comes to cannot be read: where it lands, a snapshot's excluded end, or the key a snapshot leaves the range on |
| Batches.GatherStopsAtCap | ffi/src/iter.rs:717-747 | a batch keeps under 1048576 value bytes before its last entry, and one that is short while entries remain has reached that number |
| Batches.CapExample | ffi/src/iter.rs:180-186 | over values of 10000 bytes a batch of 256 stops behind the 105th entry, and without values it does not stop |
| Batches.ValuesLineUp | ffi/src/iter.rs:740-746 | retained values line up with the framed keys index by index, and there are none under KeysOnly |
| Batches.FrameAppend | ffi/src/iter.rs:736-737 | frames of consecutive batches concatenate to the frame of all their entries |
| FfiIter.RegolithIter.CursorValid | ffi/src/iter.rs:462-475 | after a move the cursor reports validity, exhaustion or the read error, and what lies ahead of it is what stepping yields |
| FfiIter.RegolithIter.Rebuild | ffi/src/iter.rs:375-414 | a rebuild captures the transaction's contents of this moment over the range, or fails when it is resolved |
| FfiIter.RegolithIter.Pull | ffi/src/iter.rs:417-448 | a pull lands on the stream's next entry, or on its failure or exhaustion |
| FfiIter.RegolithIter.Restart | ffi/src/iter.rs:246-279 | lands on the first entry the source yields from the start of the range |
| FfiIter.RegolithIter.Step | ffi/src/iter.rs:282-301 | advances one entry; a source with nothing left to show does not change |
| FfiIter.RegolithIter.SeekForward | ffi/src/iter.rs:319-337 | lands where a forward seek should, on either source |
| FfiIter.RegolithIter.SeekReverse | ffi/src/iter.rs:339-372 | lands where a reverse seek should, on either source |
| FfiIter.RegolithIter.Next | ffi/src/iter.rs:552-570 | restarts after a reset and steps otherwise, past a sought entry; the last batch stays readable |
| FfiIter.RegolithIter.Seek | ffi/src/iter.rs:304-317 | lands on the sought entry, marks it for the next batch, drops the last batch and any held-back failure |
| FfiIter.RegolithIter.Reset | ffi/src/iter.rs:602-614 | marks a restart, drops batch and failure, leaves the source where it is |
| FfiIter.RegolithIter.AdvanceInBatch | ffi/src/iter.rs:519-531 | a batch starts over after a reset, on the sought entry after a seek, one further otherwise |
| FfiIter.RegolithIter.FillBatch | ffi/src/iter.rs:714-752 | the walking loop: reply, frame, retained values, held-back failure and final position as functions of what was coming |
| FfiIter.RegolithIter.NextBatch | ffi/src/iter.rs:690-753 | the whole reply and new state of a batch, from any state: a zero size is refused, a held-back failure is handed over once, entries taken are the first ones coming, a failure or a long key is treated as the code does, and a failure is held back only at the end of what there was to show |
| FfiIter.ShortBatchReason | ffi/src/iter.rs:676-679 | a batch shorter than asked for has reached exhaustion, the value cap, or the failure it holds back, and keeps under the cap before its last entry |
| FfiIter.LongKeyDiscards | ffi/src/iter.rs:732-735 | a batch that gets to a key of 2^32 bytes or more is refused and loses what it gathered; the iterator goes on behind that key |
| FfiIter.RegolithIter.BatchValue | ffi/src/iter.rs:770-796 | index i gives the value of framed key i, nothing under KeysOnly, and an error exactly beyond the batch |
| FfiIter.RegolithIter.Key | ffi/src/iter.rs:624-640 | the key stood on, or not found |
| FfiIter.RegolithIter.Value | ffi/src/iter.rs:648-664 | the value stood on, empty under KeysOnly, or not found |
| FfiIter.OpenOverTxn | ffi/src/iter.rs:226-243 | opening over a resolved transaction fails; over a live one reads nothing yet |
| PlainCursor.StepsVisitComing | ffi/src/iter.rs:543-550 | n advances of the plain cursor land on the n-th coming entry, in order, and then stay past the end |
| FfiRuns.AfterBatchLands | ffi/src/iter.rs:666-684 | a batch of n entries is n single steps, one fewer right after a seek and one more when it runs off the end |
| FfiRuns.RunCalls | ffi/src/iter.rs:519-531 | any mixed run of next, next_batch, seek, reset, key, value and batch_value replies as the stepper does, over any source: unreadable keys, failures held back, keys too long to frame, writes underneath and a transaction resolved underneath |
| FfiRuns.RunMatches | ffi/src/iter.rs:666-684 | over contents that can be read and framed the stepper is the plain cursor, whose batches are single steps, on every run |
| FfiRuns.RunOverSnapshot | ffi/src/iter.rs:214-224 | both from creation, over a snapshot |
| FfiRuns.RunOverTxn | ffi/src/iter.rs:226-251 | both from creation, over a transaction re-read on restarts and seeks only |
| FfiDrains.DrainIsWhole | ffi/src/iter.rs:666-684 | for any batch sizes, the frames of a drain concatenate to the frame of every entry coming and the failure is reported exactly once |
| FfiDrains.DrainEndsExhausted | ffi/src/iter.rs:676-679 | non-empty batches come first, then the failure, then a count of 0 |
| FfiDrains.PollBatches | ffi/src/iter.rs:690-753 | any number of batches of any sizes, over a snapshot or a transaction in any state, gets the replies that what was offered at the start determines; the next row says what they are |
| FfiDrains.PolledInOrder | ffi/src/iter.rs:676-684 | those replies: non-empty batches framing every coming entry once and in order, then the failure or a count of 0, then counts of 0 for ever, or for ever the failure of a stream |
| FfiDrains.DrainBatches | ffi/src/iter.rs:690-753 | calling next_batch until it is empty terminates and gives exactly the replies `DrainIsWhole` and `DrainEndsExhausted` speak of, over a snapshot, a readable transaction or a resolved one |
| FfiDrains.WalkSingly | ffi/src/iter.rs:552-570 | single stepping until it stops visits exactly the same entries and ends the same way |
| FfiDrains.StepRepeatedly | ffi/src/iter.rs:552-570 | any number of single steps, over either kind of source in any state, replies and lands as what was coming determines, failures included |
| FfiDrains.DrainStore | ffi/src/iter.rs:703-752 | end to end over a store with unreadable keys: the frames hold the view up to the first unreadable key, and the failure, on the key `StartIsFaithful` names, is reported once |
| FfiDrains.DrainTxn | ffi/src/iter.rs:703-752 | end to end over a transaction whose in-range keys can be read: the frames hold the whole view and nothing fails, whatever lies outside the range |
| FfiDrains.ReadPair | ffi/src/iter.rs:487-509 | over either kind of source, from any state, a seek to a stored key in range reads back that key and its own value, and so do the batch behind it and its value by index |
| FfiDrains.ReadAll | ffi/src/iter.rs:624-664 | stepping through either kind of source with key and value reads exactly the stored pairs in range, once each and in walk order |
| FfiDrains.ValueExample | ffi/src/iter.rs:648-664 | a store holding "a" with the value "xy" reads back "xy" |
| FfiDrains.PollFailingTxn | ffi/src/iter.rs:436-446 | over a transaction with an in-range key that cannot be read, batches frame the entries ahead of that key once each, and every call behind them gets its failure and none a count of 0 |
| FfiDrains.CollectAll | ffi/src/iter.rs:552-568 | in any mix of single steps and batches of any sizes, over any source, from any state, the keys shown so far and those still to come make up exactly what was coming: none lost, repeated or out of order; the entry a seek landed on is passed over when a step comes first |
| FfiDrains.AskWhenSpent | ffi/src/iter.rs:286-290 | a source with nothing left to show, of either kind, does not change under any mix of steps and batches and keeps replying exhaustion, or its stream's failure; only the first batch may instead hand over a failure held back, or say exhausted behind a seek that found nothing |
| FfiDrains.StepAfterBatch | ffi/src/iter.rs:557-568 | a single step behind a batch reports exhaustion ahead of a held-back failure exactly on a snapshot whose batch took entries and ran off their end into it; on a transaction it meets the failure itself |
| FfiDrains.OvertakenExample | ffi/src/iter.rs:720-730 | a batch hands over "a" and holds back the failure on "b", the step says exhausted, the next batch fails on "b" |
| GoIter.ShortIsExact | iter.go:24-27 | as a bound on keys, 8388603 bytes is exact: up to it every refill over an ordered list of entries can be copied, and 256 different ordered keys of one byte more cannot |
| GoIter.RefillArrives | regolith.go:603-614 | a refill with something to take answers that it has an entry exactly when what it draws frames to less than 2^31 bytes |
| GoIter.EngineKeysNeverTear | regolith.go:603-614 | with keys of up to 8 MiB, a frame that does not fit a C int makes the copy panic; it is never cut short |
| GoIter.GoBytesWraps | regolith.go:603-614 | copying 2^31 to 2^32 bytes panics, and of 2^32 and up to 2^31 more only what is left of the length is copied |
| GoIter.KeyAt | iter.go:124-129 | each key of a frame is found where the keys before it end, behind its own length |
| GoIter.IndexFrame | iter.go:122-129 | the parsing loop yields one entry per framed key, locating exactly that key |
| GoIter.Iter.Refill | iter.go:98-132 | for every batch: the entry table and the Rust batch agree, a failure or a refused key is returned, a frame that cannot be copied panics, and an empty batch and nothing else marks the range done |
| GoIter.Iter.Next | iter.go:78-95 | serves the cached batch without touching the engine, refills behind it, refuses on a closed store |
| GoIter.Iter.Seek | iter.go:140-164 | takes a fresh batch from the sought entry on; finding none, it is done, and failing, it leaves the engine standing nowhere |
| GoIter.Iter.Reset | iter.go:172-184 | drops the batch on both sides and marks a restart |
| GoIter.Iter.Key | iter.go:195-202 | the key of the entry stood on, or nil |
| GoIter.Iter.Value | iter.go:211-234 | a copy of the current entry's value, whole when shorter than 2^31 bytes; nil when there is none or it is empty; the batch index is always in range, so the call never fails |
| GoIter.Iter.BorrowValue | iter.go:324-346 | calls the function exactly once, with the current entry's value, or nil when there is none or it is empty, and returns what it returns |
| GoIter.Iter.AppendValue | iter.go:304-315 | appends the current entry's value, whatever its length, keeping what was in dst |
| GoRuns.ShortKeysFit | iter.go:24-27 | any store whose keys are at most 8388603 bytes long can be walked: every batch of every range of it can be copied |
| GoSteps.Advance | iter.go:78-95 | one call of Next, cached or not, is one advance into what the iterator has left to show, over either kind of source, failures included |
| GoSteps.SeekInto | iter.go:140-164 | a seek is one advance into what seeking yields, and leaves nothing to show when it lands on nothing |
| GoSteps.FailedSeekThenNext | ffi/src/iter.rs:525-529 | a seek that fails and then a Next: the second reports a clean end of the range |
| GoSteps.FailedSeekExample | ffi/src/iter.rs:525-529 | over a store holding "a" and an unreadable "b", a seek to "b" fails on it and the Next behind it reports a clean end |
| GoRuns.RunCalls | iter.go:78-234 | any run of Next, Seek, Reset, Key, Value and AppendValue observes what a single stepper would, with unreadable keys, and with writes, the end of the transaction and the closing of the store underneath: on a closed store Next and Seek are refused and change nothing, and reads go on |
| GoRuns.RunMatches | iter.go:78-164 | over contents that can be read, the single stepper is the plain cursor over the view, on every run |
| GoRuns.RunOverStore | regolith.go:328-353 | both, for an iterator opened over a store |
| GoRuns.RunOverTxn | regolith.go:500-527 | both, over a transaction, which is sampled on the first advance, on seeks and on the first advance after a reset |
| GoRuns.WritesInvisibleMidway | regolith.go:503-507 | what happens to a transaction midway changes nothing that is observed until a seek or a reset |
| GoRuns.NothingSampledYet | regolith.go:503-507 | before the first advance or seek nothing observed depends on the contents, and everything observed from there on is as if the transaction had held its last contents all along |
| GoRuns.BufferedFirst | regolith.go:503-507 | a run whose writes precede its first Next or Seek observes from there on exactly what a run over a transaction already holding those contents observes |
| GoRuns.SeekEntry | iter.go:97-132 | a seek to a stored entry answers that it landed exactly when the batch drawn from it frames to less than 2^31 bytes |
| GoDrains.DrainGo | iter.go:76-95 | over either kind of source, reading to the end shows every coming entry once with its value, and a failure exactly once |
| GoDrains.NextRepeatedly | iter.go:76-132 | any number of calls of Next, each entry read, answers exactly as that many single advances, as `StepRepeatedly` has it for the Rust iterator, up to a failure, at it and after it |
| GoDrains.FailingStepsNeverEnd | ffi/src/iter.rs:436-446 | over a transaction stream that cannot be read through, the entries come once each and every step behind them returns the failure |
| GoDrains.NextOverFailingTxn | iter.go:76-132 | over a transaction with an in-range key that cannot be read, n calls of Next show the entries ahead of it once each and then return its failure every time |
| GoDrains.ReadOptions | ffi/src/iter.rs:119-145 | end to end from the options: an iterator opened with a prefix, or with bounds, shows exactly the stored pairs whose keys have the prefix, or lie between the bounds, once each, in walk order, each with the value stored: nil for an empty one and under KeysOnly |
| GoDrains.ReadPair | iter.go:195-346 | over either kind of source, from any state, a seek to a stored key in range reads back that key, and its own value through Value, AppendValue and BorrowValue |
| GoDrains.ValueExample | iter.go:211-234 | a store holding "a" with the value "xy" reads back "xy", and appends it |
| GoDrains.DrainStore | iter.go:76-95 | end to end over a store with unreadable keys: the view up to the first unreadable key, and the error, on the key `StartIsFaithful` names, once |
| LittleEndian.DecodeEncode | batch.go:90 | a number that fits its width survives little-endian encoding |
| LittleEndian.EncodeDecode | ffi/src/batch.rs:230 | bytes are the encoding of the number they decode to |
| LittleEndian.EightBytes | ffi/src/batch.rs:230 | eight bytes are the number they spell, the lowest byte first |
| BatchFrame.SetLayout | batch.go:6-9 | a packed set, byte by byte: 1, the key's length in eight bytes with the lowest first, the key, the value's length, the value |
| BatchFrame.DeleteLayout | batch.go:6-9 | a packed delete, byte by byte: 2, the key's length, the key |
| BatchFrame.FrameExamples | ffi/src/batch.rs:6-7 | the bytes of a set of "k" to "xy" and of a delete of "k" |
| BatchFrame.OpsByBytes | ffi/src/batch.rs:154-181 | for every frame, from its bytes alone: the op at its front, or which of the five errors it is |
| BatchFrame.PackOpSplits | ffi/src/batch.rs:160-171 | a packed op parses back whatever follows it |
| BatchFrame.SplitOpPacks | ffi/src/batch.rs:220-242 | an op parsed is exactly the bytes it packs to, at least 9 of them |
| BatchFrame.WalkedIsPacked | ffi/src/batch.rs:154-181 | every frame is the packing of the ops found plus a remainder that is empty or begins no op; the error names that op |
| BatchFrame.PackedIsWalked | ffi/src/batch.rs:154-181 | packed ops parse back and parsing carries on behind them |
| BatchFrame.WellFormedIsPacked | ffi/src/batch.rs:10-12 | packing is a bijection between op lists and well-formed frames |
| BatchFrame.CutOnlyBetweenOps | ffi/src/batch.rs:10-12 | a well-formed frame cut short is well-formed exactly when cut between ops |
| BatchFrame.AppendOnlyFrames | ffi/src/batch.rs:10-12 | appended bytes are accepted exactly when they are a frame themselves |
| BatchFrame.StrayBytesRejected | ffi/src/batch.rs:10-12 | one to eight bytes too many or too few are always rejected |
| BatchFrame.FirstOver | ffi/src/batch.rs:121-131 | the index of the first op whose prefix total crosses the record limit, or none |
| BatchFrame.FirstOverIsRefusal | ffi/src/batch.rs:121-131 | some op is refused exactly when the whole record is over the limit |
| BatchFrame.RecordFromFrame | batch.go:74-80 | what a frame of ops is charged as a record, from its length and the number of ops of each kind |
| BatchFrame.RecordWithinRatio | ffi/src/batch.rs:74-82 | no frame charges more than 7/3 of its length |
| BatchFrame.EmptyDeletesCost | ffi/src/batch.rs:74-82 | deletes of the empty key reach that ratio: 21 record bytes for 9 frame bytes |
| BatchFrame.ShortFrameFits | ffi/src/batch.rs:70-88 | a frame within the guard, or the good prefix of a malformed one, is never refused for size |
| BatchFrame.ShortestRefusableFrame | ffi/src/batch.rs:84-88 | a frame of n bytes can be refused for size exactly when n is at least the guard plus two |
| BatchDecode.RecordLen.Charge | ffi/src/batch.rs:121-131 | a charge within the limit is added, one past it is refused naming the op with the total unchanged; saturation never changes the verdict |
| BatchDecode.OnOp | ffi/src/batch.rs:200-215 | each op is charged or added to the batch, in order |
| BatchDecode.TakeField | ffi/src/batch.rs:222-242 | a field is the bytes behind its length, or cut in its length, or cut inside |
| BatchDecode.TakeOp | ffi/src/batch.rs:160-177 | one op is read as the frame format says, with the same errors |
| BatchDecode.Walk | ffi/src/batch.rs:154-181 | a walk hands over exactly the frame's ops and stops at the first refusal or malformed op |
| BatchDecode.Decode | ffi/src/batch.rs:197-218 | the decoder with its shortcut gives, for every byte string, the specified outcome |
| BatchDecode.DecodeAlwaysSizing | ffi/src/batch.rs:84-88 | so does a decoder that sizes every frame: skipping the pass never changes an outcome |
| BatchDecode.DecodesIffPacked | ffi/src/batch.rs:183-218 | a frame decodes to ops exactly when it is their packing and their record fits |
| BatchDecode.DecodeExamples | ffi/src/batch.rs:6-7 | those frames decode to that set and that delete, and the byte 3 to an unknown tag |
| BatchDecode.AcceptedWithinLimit | batch.go:74-80 | a batch is accepted exactly while its documented size is within 2^30; otherwise the error names the first op crossing it |
| BatchDecode.ErrorNamesFirstFault | ffi/src/batch.rs:14-18 | an error's index counts the sound ops ahead of the fault, and the fault is the next op |
| Database.LastOpWins | batch.go:35-36 | after a write, each key reads as the last op on it left it, or as before |
| Database.WriteBatch.Set | batch.go:53-58 | appends one set, keeping the buffer the packing of the ops since the last reset and the count their number |
| Database.WriteBatch.Delete | batch.go:62-66 | the same for a delete |
| Database.WriteBatch.Len | batch.go:69 | the number of ops since the last reset |
| Database.WriteBatch.Size | batch.go:71-81 | the packed length, and its documented relation to the engine record |
| Database.WriteBatch.Reset | batch.go:84-86 | empties the batch |
| Database.Replay | batch.go:40-86 | any history of calls leaves exactly the ops since its last reset |
| Database.DB.FfiWrite | ffi/src/db.rs:255-270 | malformed or oversized bytes write nothing; a sound batch is applied in order or not at all |
| Database.DB.Write | regolith.go:280-294 | closed store, nil or empty batch, oversized batch, engine refusal and success, each with the whole new store; the batch is only read |
| Database.WriteHistory | regolith.go:268-294 | filling a batch by any history and writing it: a closed store, an oversized record, naming the first op past the limit, and an engine refusal change nothing; otherwise every key is as the last op since the last reset says |
| HandleLifecycle.StepKeepsSafe | regolith.go:379-407 | every move of every goroutine keeps locks exclusive, handles live while used, and frees accounted for |
| HandleLifecycle.HandlesFreedOnce | regolith.go:119-126 | in every interleaving no call enters the engine with a nil or freed handle or comes back to one, each handle is freed at most once, and at most one Commit or Discard, or one Close, consumed it |
| HandleLifecycle.LiveInsideCalls | regolith.go:379-407 | while any goroutine is inside the engine the handle it called with is live, whatever the others do |
| HandleLifecycle.DiscardAndCloseRelease | regolith.go:555-574 | once a Discard has returned the handle has been freed exactly once; once a Close has, the store is closed and its handle freed exactly once |
| HandleLifecycle.OutcomesAreTruthful | regolith.go:529-574 | what a Commit or Discard returned fits what has become of the transaction: only a Commit is refused ErrClosed, and every other outcome means the handle has been freed |
| HandleLifecycle.OutcomesInOrder | regolith.go:101-126 | in every interleaving: a Commit behind the call that consumed the handle is told ErrDiscarded and a Discard does nothing, ahead of it they consume it or the Commit is refused; other transaction calls are told ErrDiscarded exactly behind it unless refused; DB calls succeed ahead of the first returned Close and are refused behind it, and later Closes do nothing |
| HandleLifecycle.RefusedOnlyWhenClosed | regolith.go:119-124 | no call is refused ErrClosed before the store has been closed |
| HandleLifecycle.NoDeadlock | regolith.go:379-407 | as long as any call is under way, some goroutine can take a step |
| HandleLifecycle.LiveUntilConsumed | regolith.go:535-543 | a handle is live exactly while no returned call consumed it, so a Commit refused with ErrClosed leaves it |
| HandleCalls.ReturnsItsCall | regolith.go:101-126 | in every interleaving a goroutine makes the call it began and returns from that one |
| HandleCalls.RefusedBehindClose | regolith.go:535-543 | a store method, a transaction method or a Commit begun on a closed store never gets to the engine and returns ErrClosed; only a Commit of a resolved transaction is told ErrDiscarded instead |
| HandleCalls.NothingEntersOnceClosed | regolith.go:412-424 | once the store is closed no goroutine moves into a Commit's engine call, or past the check of any other method |
| HandleCalls.DeedsAreReported | regolith.go:101-126 | in every interleaving what the engine has done for each call is exactly what returned calls say it did, and what it did for those about to return |
| HandleCalls.NewTxnAddsOne | regolith.go:359-377 | a NewTxn coming back from the engine adds one transaction under a new id, live, held, unresolved and unlocked; nothing else adds or removes one |
| HandleCalls.OneTxnPerNewTxn | regolith.go:359-377 | in every interleaving there are as many transactions as NewTxn calls that returned Done and those about to |
| HandleCalls.DiscardFrees | regolith.go:559-574 | from any reachable state an uncontended Discard of an unresolved transaction runs to its end, store closed or not: the whole state it leaves |
| HandleCalls.CommitFrees | regolith.go:535-553 | so does an uncontended Commit on an open store |
| HandleCalls.CommitExample | regolith.go:359-377 | from the start, NewTxn makes a live transaction and Commit consumes it |
| HandleCalls.CommitIsReached | regolith.go:359-377 | there is a run of the whole machine that goes through that live transaction and ends with those two calls returned |

## Left out

- The engine itself (storage, log, compaction, commit validation, isolation levels): outside the repository; only its cursor, scan stream and atomic batch write appear, as stated above.
- The C boundary: pointers, buffer ownership, panic catching and allocation have no functional meaning to prove; `GoBytes` keeps only the copy length.
- GoRuns.RunCalls: is stated for contents all of whose batches can be copied (`Fits`), the exact condition for Go's 32-bit copy length.
- GoIter.Iter.Refill: does not follow a copy cut short by wrap-around, of a frame of 2^32 bytes or more, any further than to say that it is torn; keys within the engine's limit cannot cause one.
- FfiDrains.DrainBatches: does not speak of a transaction stream that cannot be read through, because a drain of one does not end; `PollFailingTxn` says what it gets.
- HandleLifecycle.StepKeepsSafe: the DB and Txn methods are steps of a machine rather than methods of a class, because what is proved is their interleaving; the data they pass to the engine is not part of it, and pending writers do not hold back new readers.
- HandleCalls.OneTxnPerNewTxn: an engine that fails to begin a transaction is not modelled; such a NewTxn returns its error and adds nothing.
- Iter.Close: a compare-and-swap that frees the handle once; it would add only an easy member.
- Transaction calls racing with DB.Close inside the engine: the documented ordering contract excludes them (regolith.go:26-28).
- BatchDecode.TakeField: the length check that can fail only on targets narrower than 64 bits is not modelled.
- Record lengths are unbounded numbers: the key and value lengths of one op come from one slice, so their sum cannot overflow 64 bits; only the saturating addition is kept.
- Engine options and error mapping (options.go, errors.go, ffi/src/options.rs): flat per-field branches.
- Error message text: only the kind of error and the op index are kept.
