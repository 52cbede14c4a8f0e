# godash: models and proofs

A Dafny 4.11 model of the parts of godash in which several threads, two languages or a wire format meet, with
proofs of what they guarantee together. `dafny verify dfyconfig.toml` checks the whole project.

## What is modelled

* **Credit flow control** (`FlowGate`, `GateRuns`, `FlowRegistry`, `Backpressure`, `BackpressureRuns`, `CreditLoop`,
  `CreditLoopResults`). The gate, the per-port maps and the Dart transformer are classes whose methods are proved
  against functions on values. The same functions are the steps of two transition systems: one gate under every
  interleaving of `Acquire`, grants, `close` and cancellation, and the whole loop from the Dart `block` buffer over
  credit requests in any order to the gate and back. One step is one lock-protected block, one channel close, one
  branch of a `select` or one event callback.
* **Shared-memory ring** (`SharedRing`, `RingRuns`, `RingResults`, `RingOrder`, `RingReorder`). The byte layout, the
  writer and the drain loop are classes over one byte array; the transition system has one step per memory access,
  atomic operation and message event, for a consumer that takes one frame per signal and for one that drains
  everything on each signal.
* **Envelope codec** (`Words`, `Wire`, `WireFields`, `Records`, `Leaves`, `Envelopes`, `Codec`, `WireFormat`,
  `BenchEncoding`). The
  generated methods of `pb/core_lite.go` are one template per message, so the model takes the template: a schema of
  field kinds for the eight flat messages, and a port plus a table of oneof arms for Request and Response;
  `WireFormat` spells out every message's bytes and what each field is stored as. Marshalling
  fills an array from its end towards its start; unmarshalling loops over an index with Go's 64-bit wrap-around. The
  varint and skipping helpers of the protobuf-go-lite library are not part of the repository; they follow the sections
  "Base 128 Varints" and "Message Structure" of the Protocol Buffers Encoding guide.
* **Packed hot-call layout** (`HotLayout`, `HotCalls`), **value table** (`HandleTable`), **reverse calls**
  (`ReverseCalls`) and **call registry** (`Calls`).

## What the code does that its documentation does not say

* `web/shared.go:18-22` and the repository's README (305-308) promise that mixing ring frames and envelopes keeps
  order. That holds for a consumer that takes one ring frame per signal (`RingResults.PairIsFifo`). The drain loop of
  `benchmark/web/bench.js` can reorder; `RingReorder.DrainKeepsTotalOrderIff` says for which streams: the ring has at
  least two slots and some frame that may fall back, being too large or having at least `slots` fitting frames before
  it, stands between two frames that fit a slot.
* The same loop does not count an empty frame that travels through the ring: its count reaches the number of frames
  sent on every run exactly for streams without an empty frame (`RingReorder.CountIsCompleteIff`).
* The checks of `web/shared.go:72-78` accept a buffer whose byte length is no multiple of four, over which the 32-bit
  view of line 98 cannot be made; `SharedRing.Viewable` adds that condition.
* The Dart code emitted for a hot method passes fields to `ByteData` accessors as they are. For the 64-bit integer
  kinds a field is a fixnum `Int64` and the accessor takes an `int`, so it type-checks exactly for messages without
  such a field (`HotCalls.DartTypeChecksIff`).
* Where Go's `int` has 32 bits, as in a TinyGo build, a length prefix of 2^32 or more is checked by its low half
  (`Wire.SliceEnd32IsExactIff`).
* The window bounds undrained items only if its grant is already buffered when the gate is registered; otherwise the
  gate is still unbounded and any number may pass (`CreditLoopResults.WindowBoundsIffSeeded`).
* `BackpressurePolicy.block` accepts a `bufferSize` below one; the first item then pauses the source for good
  (`BackpressureRuns.BlockRunsOnIff`). With `bufferDrop` every arrival throws instead
  (`BackpressureRuns.BufferDropHolds`).

## Assumptions

* Calls in flight have distinct ports, and a port is not used for a second stream.
* Go's `int` has 64 bits, except in `Wire.SliceEnd32`, where the effect of 32 bits is stated.
* Credit totals, reverse ids and table sizes stay within their integer types; in the ring's transition
  system a slot is at most 2^31 bytes, since its length word is a signed 32-bit integer.
* Each `onDemand` call sends one credit request with that count (the sender is not part of this model), and requests
  may be handled in any order.
* Elapsed time appears only as "this call is overdue" and "this context is done".

## Model

| member | source | states |
|---|---|---|
| FlowGates.FlowGate.constructor | rpc/flow.go:57-59 | a new gate is unbounded, open, without credits or waiters |
| FlowGates.FlowGate.Grant | rpc/flow.go:64-76 | the locked block of a grant: first grant makes the gate bounded, the whole waiter list is detached, non-positive grants change nothing |
| FlowGates.FlowGate.AddCredits | rpc/flow.go:64-80 | every waiter listed before a positive grant has its channel closed, none on a non-positive one |
| FlowGates.FlowGate.Attempt | rpc/flow.go:85-103 | one pass of Acquire: unbounded passes, then credits are tried, then closed, then the caller is parked at the end of the list |
| FlowGates.FlowGate.Abandon | rpc/flow.go:108-117 | the cancelled waiter is gone, the others keep their order, nothing else changes |
| FlowGates.FlowGate.Close | rpc/flow.go:122-131 | the gate is closed, its credits kept, every listed waiter woken |
| FlowGates.WakeAll | rpc/flow.go:77-79 | distinct open channels are all closed |
| FlowGates.WithoutFirstSplits | rpc/flow.go:110-115 | removing a waiter from the list cuts out exactly its first occurrence |
| GateRuns.InvKept | rpc/flow.go:64-131 | every step keeps: waiters imply a bounded, empty, open gate; a channel is listed, being woken or closed, once; credits balance |
| GateRuns.NoLostWakeup | rpc/flow.go:85-131 | a blocked call is listed once on a bounded, empty, open gate, or its channel is about to be closed or closed |
| GateRuns.ListedChannelsAreAwaited | rpc/flow.go:101-117 | every listed channel is waited on by exactly one call |
| GateRuns.ChannelsCloseOnce | rpc/flow.go:74-79 | no interleaving closes a channel twice |
| GateRuns.CreditsAreConserved | rpc/flow.go:64-120 | credits granted are credits left plus calls that ended with one |
| GateRuns.HowCallsEnd | rpc/flow.go:86-119 | for each way a call ends, the gate it ended on and what it cost; cancelling costs nothing, a closed gate still pays out |
| GateRuns.EndingsAreFinal | rpc/flow.go:85-120 | a call ends once, one way |
| GateRuns.ClosedIff | rpc/flow.go:122-124 | a gate is closed exactly if it was closed at some step before |
| GateRuns.BoundedIff | rpc/flow.go:64-72 | a gate is bounded exactly if a positive grant was made before |
| GateRuns.CloseKeepsCredits | rpc/flow.go:122-131 | closing sets the flag, detaches the list, touches neither credits nor mode nor any call |
| GateRuns.ClosedGateNeverParks | rpc/flow.go:85-100 | on a gate closed before, an attempt ends at once: refused exactly if bounded and empty, else let through |
| FlowRegistry.Registry.Register | rpc/flow.go:147-152 | the gate replaces any other, the buffered credits of that port are handed over and removed |
| FlowRegistry.Registry.Unregister | rpc/flow.go:158-163 | the entry is removed only if it is this gate |
| FlowRegistry.Registry.Receive | rpc/flow.go:172-190 | short payloads and non-positive counts change nothing; else credits are buffered for a port without a gate or forwarded to its gate |
| FlowRegistry.GrantRoundTrip | rpc/flow_test.go:13-18 | a grant decodes to the port and count encoded, for every int64 and int32 |
| FlowRegistry.ReceiveIsArrive | rpc/flow.go:183-191 | on the maps, handling a request is the loop's arrival step for its port and invisible to other ports |
| FlowRegistry.RegisteredIsRegister | rpc/flow.go:147-155 | on the maps, registration is the loop's registration step for its port and invisible to other ports |
| Backpressure.Transformer.constructor | lib/bridge/backpressure.dart:114-131 | nothing pending, source running, no timer |
| Backpressure.Transformer.Pump | lib/bridge/backpressure.dart:179-193 | pending goes out in order unless the consumer is paused; block reports the number drained and resumes the source below the limit |
| Backpressure.Transformer.ReceiveBounded | lib/bridge/backpressure.dart:152-157 | the oldest item goes when full; an empty queue at its limit throws |
| Backpressure.Transformer.ReceiveBlocking | lib/bridge/backpressure.dart:158-163 | the source is paused when the item fills the buffer, then the pump runs |
| Backpressure.Transformer.ReceiveBatched | lib/bridge/backpressure.dart:164-175 | a full batch cancels the timer and goes out, a partial one arms the timer |
| Backpressure.Transformer.Receive | lib/bridge/backpressure.dart:144-177 | the new state after an item, per strategy |
| Backpressure.Transformer.Fire | lib/bridge/backpressure.dart:171-174 | the timer clears itself and pumps |
| Backpressure.Transformer.Finish | lib/bridge/backpressure.dart:195-203 | everything pending goes out in order even to a paused consumer, then the controller closes |
| Backpressure.Transformer.Stop | lib/bridge/backpressure.dart:205-209 | the timer is cancelled and the source let go |
| Backpressure.Transformer.Resume | lib/bridge/backpressure.dart:115-122 | resuming the consumer pumps |
| BackpressureRuns.BlockHolds | lib/bridge/backpressure.dart:158-193 | over every event run: delivered then pending is what was received, pending within the limit, source paused exactly when full, reports sum to what was drained |
| BackpressureRuns.ReportsAreDrains | lib/bridge/backpressure.dart:179-189 | one report per drain, of its size: one for an item that finds the consumer listening, all that was held back on resuming, never zero |
| BackpressureRuns.BlockWedges | lib/bridge/backpressure.dart:158-191 | with a limit below one the source pauses at the first item and never resumes |
| BackpressureRuns.BlockRunsOnIff | lib/bridge/backpressure.dart:158-191 | once an item arrived and the consumer runs, the source runs exactly for limits of at least one |
| BackpressureRuns.BufferDropHolds | lib/bridge/backpressure.dart:152-157 | pending is the newest items since the last drain up to the limit, delivered is a subsequence of received; failures exactly for limits below one |
| BackpressureRuns.DropLatestIsBufferDropOfOne | lib/bridge/backpressure.dart:148-157 | conflation and a ring of one have the same runs and the same states |
| BackpressureRuns.BatchHolds | lib/bridge/backpressure.dart:164-175 | lossless and ordered; a held item has a timer, a paused consumer or a cancellation; a listening consumer never leaves a full batch behind |
| BackpressureRuns.BatchHoldsBack | lib/bridge/backpressure.dart:164-175 | pending is exactly the items since the last flush as the events alone tell, everything earlier is delivered, and the timer is set exactly as they say |
| BackpressureRuns.BatchGoesOutWhenFull | lib/bridge/backpressure.dart:164-175 | to a listening consumer an item goes out on arrival exactly when it completes a batch; else it is held back with the timer set |
| BackpressureRuns.DoneFlushes | lib/bridge/backpressure.dart:195-203 | after the source is done nothing is ever pending |
| BackpressureRuns.DoneStopsTimer | lib/bridge/backpressure.dart:195-197 | after the source is done no timer is set |
| BackpressureRuns.CancelIsFinal | lib/bridge/backpressure.dart:205-209 | a cancellation stops the timer, delivers nothing, and no event can follow it |
| BackpressureRuns.PassThroughIsBypassed | lib/bridge/backpressure.dart:106-111 | the branch for `none` would hand nothing on; no transformer is built for it |
| CreditLoop.InvKept | rpc/flow.go:64-192 | every step of the loop keeps the credit, item, stage, buffer and gate invariants |
| CreditLoopResults.Conservation | rpc/flow.go:64-192 | window plus acquisitions made while unbounded equals gate credits, credits travelling and items not drained, until the source is done; from then on it bounds them |
| CreditLoopResults.StreamIsLossless | lib/bridge/backpressure.dart:158-193 | sent items are delivered, then pending, then in transit, in order; the buffer stays within its limit |
| CreditLoopResults.WindowBoundsIffSeeded | rpc/flow.go:147-156 | undrained items stay within the window on every continuation exactly if credits were buffered at registration |
| CreditLoopResults.SomeStep | rpc/flow.go:85-120 | the enabled step, found from the state of an unfinished call |
| CreditLoopResults.NoDeadlock | rpc/flow.go:85-192 | with a live gate and a consumer neither paused nor gone an unfinished Acquire always leaves the system a step to take |
| CreditLoopResults.ProductiveIsCloser | rpc/flow.go:64-131 | every step of the system itself lowers a well-founded measure, so no endless wake-and-park |
| CreditLoopResults.WaitersGetThrough | rpc/flow.go:85-120 | when the system has worked until it stands still, every attempting or waiting call has been let through |
| CreditLoopResults.WorkEnds | rpc/flow.go:64-192 | such a standstill is always reached |
| SharedRing.SlotBounds | web/shared.go:70-80 | under the checks of newResponseSink every slot is in bounds, on a word boundary, disjoint from later ones and past the counter |
| SharedRing.HeaderWritten | web/shared.go:116-120 | a length word reads back in its slot and changes no other slot nor the control area |
| SharedRing.PayloadWritten | web/shared.go:121-124 | after header and payload the slot holds the frame, all other slots unchanged |
| SharedRing.RingWriter.Write | web/shared.go:109-129 | published exactly when it fits and there is room; then the slot at the old cursor holds it (if its length fits the header), counter, cursor and signal advance; else nothing changes |
| SharedRing.RingWriter.Send | web/shared.go:49-54 | a frame that fits a slot of a ring with room goes into the slot at the cursor, all other slots unchanged, cursor and counter advanced, and a signal is posted; any other frame is posted itself and bytes, cursor and counter stay |
| SharedRing.RingWriter.Forward | web/web.go:66-78 | one message per response in order and one for Done; from the starting cursor on the slots hold exactly the signalled frames in order, the slots after them are untouched |
| SharedRing.SignalledWhileRoom | web/shared.go:109-115 | with no consumer a frame is signalled exactly if it fits and the unread frames leave a slot free |
| SharedRing.AcceptedIff | web/shared.go:70-78 | a descriptor is accepted exactly if it has a slot, slots are whole words with room for a byte, and all fit |
| SharedRing.Outgoing | web/shared.go:18-22 | as many messages as frames, each a signal or its own frame |
| SharedRing.RingReader.Inspect | benchmark/web/bench.js:154-156 | the drain loop's test, read from the bytes |
| SharedRing.RingReader.Drain | benchmark/web/bench.js:151-162 | all pending slots released, the read cursor advanced by as many, the frame count raised by the slots that pass the test |
| SharedRing.SlotOfIsRemainder | web/shared.go:126 | the slot of the k-th frame is k modulo the slots |
| SharedRing.DifferentSlots | web/shared.go:113-116 | frames fewer than the ring's size apart are in different slots |
| RingRuns.StoresKeepUnread | web/shared.go:113-124 | the slot being written is none of those the consumer has not released |
| RingRuns.InvKept | web/shared.go:109-129 | every step of either thread keeps counters, cursors, slot contents, logs and the program order |
| RingResults.RingIsSafe | web/shared.go:82-129 | counter within the ring, cursors are counts modulo slots, no unreleased slot written, every read returns the frame written |
| RingReorder.RingSendDelivers | web/shared.go:109-129 | the producer's steps for a ring frame do to bytes, cursor and counter what Send promises |
| RingResults.PairIsFifo | web/shared.go:18-22 | one frame per signal: taken frames, then the backlog resolved, are always the frames sent, and those follow the program |
| RingResults.DeliveredInOrderThenDone | web/web.go:74-77 | at the end the consumer has the responses in order and then Done |
| RingResults.DrainKeepsBothOrders | benchmark/web/bench.js:151-182 | drain-all: ring frames and envelopes each in order, all of both at the end |
| RingResults.DrainCountsNonEmpty | benchmark/web/bench.js:153-162 | a drain over slots holding frames counts the non-empty ones |
| RingResults.PageCounts | benchmark/web/bench.js:151-182 | at every moment the page's counter is the envelopes and the non-empty ring frames taken |
| RingOrder.SandwichShows | web/shared.go:109-115 | an envelope between two ring frames is a frame that may fall back between two that fit |
| RingOrder.UnmixedRunsKeepOrder | benchmark/web/bench.js:151-182 | drain-all keeps order on every run that sent no envelope between two ring frames, whatever the stream |
| RingOrder.NoFallbackKeepsOrder | benchmark/web/bench.js:151-182 | a run without fallback is delivered in the order sent, at its end in full |
| RingOrder.InOrderUnlessReorderable | benchmark/web/bench.js:151-182 | drain-all takes frames in the order sent for every stream that is not reorderable |
| RingReorder.ReorderingRun | benchmark/web/bench.js:151-182 | a run that overtakes an envelope, for every reorderable stream |
| RingReorder.DrainKeepsTotalOrderIff | benchmark/web/bench.js:151-182 | drain-all keeps total order on every schedule exactly for streams that are not reorderable |
| RingReorder.UndercountingRun | benchmark/web/bench.js:153-162 | a finished run that counts too few frames, for every stream with an empty frame |
| RingReorder.CountIsCompleteIff | benchmark/web/bench.js:151-182 | the page's counter ends at the number of frames sent on every run exactly for streams without an empty frame |
| Wire.VarintRoundTrip | benchmark/web/bench.js:39-48 | a 64-bit varint decodes to its value wherever it stands |
| Wire.VarintDigit | benchmark/web/bench.js:39-48 | byte k of a varint is the k-th base-128 digit with the continuation bit on all but the last, without padding |
| Wire.VarintAcceptedIff | pb/core_lite.go:2582-2585 | a varint is accepted exactly if one of ten bytes ends it; else it is too long or cut off |
| Words.LittleEndianDigit | rpc/flow.go:177-178 | byte j of a little-endian word is its j-th base-256 digit |
| Wire.SliceEndIsExact | pb/core_lite.go:2601-2615 | the wrapped length checks pass exactly when the unsigned length fits, with the true end |
| Wire.SliceEnd32IsExactIff | pb/core_lite.go:2601-2615 | with a 32-bit int the checks are exact but for a length of 2^32 or more whose low half fits, which they accept |
| Wire.UnknownEndIsExact | pb/core_lite.go:2737-2749 | the checks after skipping pass exactly when the record ends inside the input |
| Wire.SkipExtend | pb/core_lite.go:2738 | skipping a record does not depend on what follows it |
| WireFields.FieldSkips | pb/core_lite.go:2738 | a field of any wire type, nested groups included, is skipped to its exact end |
| WireFields.ForeignFieldsAreUnknown | pb/core_lite.go:2736-2749 | any run of fields a message does not have is retained as unknown bytes |
| Records.ReadRecord | pb/core_lite.go:2579-2603 | one loop turn: on success the index strictly advances within the input and the value has the field's kind |
| Records.ReadAllConcat | pb/core_lite.go:2575-2757 | the records of a concatenation are those of the parts |
| Records.RecordReads | pb/core_lite.go:1464-1468 | a written field reads back as itself, negative int32 included |
| Records.RawsOfRecords | pb/core_lite.go:2748 | unknown records keep all their bytes; known ones leave fewer |
| Leaves.DecodeStoresRecords | pb/core_lite.go:2204-2285 | decoding is storing the records read, in order, with the same errors |
| Leaves.LastOneWins | pb/core_lite.go:2223-2277 | each field ends as its newest record, unknown records are appended in order |
| Leaves.ConcatenationMerges | pb/core_lite.go:2204-2285 | decoding a concatenation is decoding the second part onto the first, errors included; only a length too large for any input may be called invalid instead of too long |
| Leaves.RoundTripIff | pb/core_lite.go:1237-1267 | a flat message survives the round trip exactly if its unknown bytes are records of fields it lacks |
| Envelopes.TagConstants | pb/core_lite.go:1467-1536 | the schema's tag bytes are the constants of the generated code |
| WireFormat.InitOnWire | pb/core_lite.go:2359-2497 | what the literal bytes decode to, each field present or not, for every varint; arm 1 of Request: int64 push port and four strings |
| WireFormat.CancelOnWire | pb/core_lite.go:2204-2285 | what the literal bytes decode to, each field present or not, for every varint; arm 4 of Request: int32 code, string, int64 port |
| WireFormat.RpcRequestOnWire | pb/core_lite.go:2932-3021 | what the literal bytes decode to, each field present or not, for every varint; arm 10 of Request: path and payload |
| WireFormat.ReverseResponseOnWire | pb/core_lite.go:2498-2574 | what the literal bytes decode to, each field present or not, for every varint; arm 11 of Request: int64 reverse port and payload |
| WireFormat.ErrorOnWire | pb/core_lite.go:2131-2203 | what the literal bytes decode to, each field present or not, for every varint; arm 1 of Response: int32 code and string |
| WireFormat.DoneOnWire | pb/core_lite.go:2286-2358 | what the literal bytes decode to, each field present or not, for every varint; arm 6 of Response: int32 code and string |
| WireFormat.PushOnWire | pb/core_lite.go:3090-3188 | what the literal bytes decode to, each field present or not, for every varint; arm 7 of Response: type, payload, int64 reverse port |
| WireFormat.RpcResponseOnWire | pb/core_lite.go:3022-3089 | what the literal bytes decode to, each field present or not, for every varint; arm 10 of Response: payload |
| WireFormat.InitEncodes | pb/core_lite.go:1332-1378 | the literal bytes written: fields in number order, zero values left out, then the unknown bytes |
| WireFormat.CancelEncodes | pb/core_lite.go:1237-1267 | the literal bytes written: fields in number order, zero values left out, then the unknown bytes |
| WireFormat.RpcRequestEncodes | pb/core_lite.go:1716-1743 | the literal bytes written: fields in number order, zero values left out, then the unknown bytes |
| WireFormat.ReverseResponseEncodes | pb/core_lite.go:1398-1423 | the literal bytes written: fields in number order, zero values left out, then the unknown bytes |
| WireFormat.ErrorEncodes | pb/core_lite.go:1192-1217 | the literal bytes written: fields in number order, zero values left out, then the unknown bytes |
| WireFormat.DoneEncodes | pb/core_lite.go:1287-1312 | the literal bytes written: fields in number order, zero values left out, then the unknown bytes |
| WireFormat.PushEncodes | pb/core_lite.go:1803-1835 | the literal bytes written: fields in number order, zero values left out, then the unknown bytes |
| WireFormat.RpcResponseEncodes | pb/core_lite.go:1763-1783 | the literal bytes written: fields in number order, zero values left out, then the unknown bytes |
| WireFormat.ForeignFieldsOnWire | pb/core_lite.go:2736-2749 | every field but the five of Request, or the four of Response, is kept as unknown bytes |
| WireFormat.RequestRefuses | pb/core_lite.go:2582-2599 | an end of group, field zero, a known field under another wire type and an unknown one under type 6 or 7 are refused, each with its error |
| Envelopes.DecodeStoresRecords | pb/core_lite.go:2575-2757 | the interleaved loop accepts what reading and then storing accepts, with the same message |
| Envelopes.ConcatenationMerges | pb/core_lite.go:2575-2757 | likewise for envelopes |
| Envelopes.NextArm | pb/core_lite.go:2691-2702 | a further arm record merges into the same arm, replaces another, leaves port and unknown bytes alone |
| Envelopes.SplitArmMerges | pb/core_lite.go:2691-2702 | two records of one arm decode like one with the payloads joined |
| Envelopes.ArmBytesIsRecord | pb/core_lite.go:1523-1540 | an arm is written as a length-delimited record, a nil one as an empty record |
| Envelopes.AfterHeadsEqualIff | pb/core_lite.go:930-953 | port and arm are restored up to EqualVT exactly if the arm's unknown bytes are clean |
| Envelopes.RoundTripIff | pb/core_lite.go:851-871 | decoding an encoded envelope is accepted and EqualVT exactly if its unknown bytes and its arm's are clean |
| Envelopes.EqualVTIff | pb/core_lite.go:851-871 | EqualVT holds exactly if port, unknown bytes, arm, and every field and the unknown bytes of its message agree, nil counting as empty |
| Envelopes.EqualVTIsEquivalence | pb/core_lite.go:851-871 | EqualVT is reflexive, symmetric and transitive |
| Codec.EnvelopeSizeIsLength | pb/core_lite.go:1937-2008 | SizeVT is the length of the encoding |
| Codec.EncodeVarint | pb/core_lite.go:1465 | the varint ends at the offset, the result is its start, all other bytes unchanged |
| Codec.PrependField | pb/core_lite.go:1249-1265 | one field in front of what is there, nothing for a zero value |
| Codec.PrependLeaf | pb/core_lite.go:1237-1267 | the message's encoding ends at the given index, all other bytes unchanged |
| Codec.PrependMessage | pb/core_lite.go:1525-1534 | an embedded message with length and tag in front |
| Codec.PrependArm | pb/core_lite.go:1477-1560 | the oneof arm, nil message as length zero |
| Codec.PrependEnvelope | pb/core_lite.go:1443-1470 | the envelope's encoding ends at the given index, all other bytes unchanged |
| Codec.Marshal | pb/core_lite.go:1425-1436 | the buffer of the announced size is filled with no gap |
| Codec.UnmarshalLeaf | pb/core_lite.go:2204-2285 | the loop computes the decoding of a flat message onto a given one |
| Codec.Unmarshal | pb/core_lite.go:2575-2757 | the loop computes the decoding of an envelope onto a given one |
| Codec.RoundTrip | pb/envelope_test.go:14-49 | marshal, unmarshal and EqualVT succeed exactly for clean unknown bytes |
| BenchEncoding.EncodeVarint | benchmark/web/bench.js:39-48 | the page's loop produces the varint |
| BenchEncoding.BenchBytes | benchmark/web/bench.js:50-65 | the request's bytes in figures, zero and empty fields included |
| BenchEncoding.InnerDecodes | pb/core_lite.go:2932-3021 | the path and payload written by the page are read, empty ones included |
| BenchEncoding.GoReadsBenchRequest | benchmark/web/bench.js:59-65 | for every port up to 2^53-1, path and payload the Go decoder reads what the page encoded |
| HotLayout.AlignUpIsLeast | internal/hotlayout/hotlayout.go:115-120 | the least multiple of the alignment not below the offset |
| HotLayout.Compute | internal/hotlayout/hotlayout.go:43-74 | the loop computes the greedy placement of the sorted fields, or the first field's reason against it |
| HotLayout.LayoutIsCanonical | internal/hotlayout/hotlayout.go:44-49 | the layout does not depend on declaration order |
| HotLayout.LayoutIsMinimal | internal/hotlayout/hotlayout.go:51-73 | all fields in number order, aligned, disjoint, and every offset and the size least among natural layouts |
| HotLayout.PacksIff | internal/hotlayout/hotlayout.go:77-113 | a message packs exactly if no field is a map, list, oneof member or has presence, and each is of one of the thirteen scalar kinds |
| HotLayout.FieldTypes | internal/hotlayout/hotlayout.go:95-109 | one field per declared field, with the Go type and size that each of the thirteen kinds has |
| HotLayout.RefusalIsFirst | internal/hotlayout/hotlayout.go:54-57 | a refusal names the lowest-numbered field that does not pack and its reason, in the order of the tests |
| HotCalls.Consider | cmd/protoc-gen-go-godash/main.go:132-146 | a method is skipped exactly if it streams, is not hot or has a field that is not plain; else its one entry has its name and layouts |
| HotCalls.HotMethodsFor | cmd/protoc-gen-dart-godash/main.go:382-402 | the Dart loop selects the hot methods of a service in order |
| HotCalls.CollectHotMethods | cmd/protoc-gen-go-godash/main.go:128-150 | the Go loops select the hot methods of all services in order |
| HotCalls.GeneratorsAgree | cmd/protoc-gen-go-godash/main.go:128-150 | a service's part of the Go selection is the Dart selection, layouts included |
| HotCalls.SelectionIsExact | cmd/protoc-gen-dart-godash/main.go:382-402 | one entry, in order, for exactly the unary, hot methods whose fields are all plain, with both layouts |
| HotCalls.SidesWriteAlike | cmd/protoc-gen-dart-godash/main.go:461-479 | Go stores and ByteData setters write the same little-endian bytes |
| HotCalls.StoredLoads | cmd/protoc-gen-dart-godash/main.go:432-454 | a value stored by either language is loaded unchanged by either |
| HotCalls.DartTypeChecksIff | cmd/protoc-gen-dart-godash/main.go:432-454 | the emitted Dart type-checks exactly for messages without 64-bit integer fields |
| HotCalls.UnpackedPacked | cmd/protoc-gen-go-godash/main.go:190-211 | over a natural layout, loads after stores give back all values |
| HotCalls.PackedAt | cmd/protoc-gen-go-godash/main.go:208-211 | after packing, the bytes at a field's offset are the little-endian word of its value |
| HotCalls.PackedMessageReadsBack | cmd/protoc-gen-dart-godash/main.go:427-456 | any packable message, either direction, into any buffer of the computed size |
| HandleTable.Go.constructor | cmd/godash/assets/tinygo_wasm_exec.js:480-493 | the preset values and empty books |
| HandleTable.Go.BoxValue | cmd/godash/assets/tinygo_wasm_exec.js:167-216 | inline values leave the table alone; others get their id or a recycled or new one, with one more reference |
| HandleTable.Go.FinalizeRef | cmd/godash/assets/tinygo_wasm_exec.js:315-330 | one reference less; the last one frees slot, map entry and id; unknown ids change nothing |
| HandleTable.BoxKeepsInv | cmd/godash/assets/tinygo_wasm_exec.js:192-202 | boxing keeps counts, free list and id map in step |
| HandleTable.FinalizeKeepsInv | cmd/godash/assets/tinygo_wasm_exec.js:315-330 | finalizing a held reference keeps them in step |
| HandleTable.HeldReferencesUnbox | cmd/godash/assets/tinygo_wasm_exec.js:147-159 | a held reference unboxes to its value and its count is the number held |
| HandleTable.BoxThenUnbox | cmd/godash/assets/tinygo_wasm_exec.js:147-216 | every value survives boxing; a held object keeps its id |
| HandleTable.FreeListIsExact | cmd/godash/assets/tinygo_wasm_exec.js:320-326 | the free list is exactly the allocated ids nobody holds, each once, their slots null; presets stay |
| ReverseCalls.ReverseTable.Register | rpc/rpc.go:331-336 | a new id and an empty channel under it |
| ReverseCalls.ReverseTable.Forget | rpc/rpc.go:340-350 | the entry is removed |
| ReverseCalls.ReverseTable.Reply | rpc/rpc.go:358-371 | a known id gets exactly this payload on its empty channel and its entry is gone; an unknown one changes nothing |
| ReverseCalls.InvKept | rpc/rpc.go:330-371 | every step keeps a reply in one place at most |
| ReverseCalls.SendsNeverBlock | rpc/rpc.go:360-370 | a reply taken from the table can always be sent, one per channel |
| ReverseCalls.IdsAreFresh | rpc/rpc.go:332-335 | ids are never reused |
| ReverseCalls.FirstReplyWins | rpc/rpc.go:346-370 | a returned payload is the first reply to that id |
| ReverseCalls.RepliesAreNotLost | rpc/rpc.go:352-370 | a waiting call whose reply arrived can get it |
| ReverseCalls.TableIsExact | rpc/rpc.go:330-371 | the table holds exactly the calls that are open and have had no reply |
| Calls.CallTable.Begin | rpc/rpc.go:191-195 | a context of its own, done if its parent is, and an in-flight entry under the port |
| Calls.CallTable.CancelPort | rpc/rpc.go:224-230 | the target's context, and no other, is cancelled and its entry removed |
| Calls.CallTable.Complete | rpc/rpc.go:196-208 | the port's context is cancelled and the port leaves all three maps |
| Calls.CallTable.Scan | rpc/rpc.go:86-101 | exactly the overdue, unreported, non-streaming calls are reported and marked |
| Calls.InvKept | rpc/rpc.go:172-287 | every step keeps ports, cancel functions, gates, marks and relays consistent |
| Calls.CompletionLeavesNothing | rpc/rpc.go:196-208 | a completed call is cancelled and no map refers to it or, unless reused, to its port |
| Calls.ContextEndsIff | rpc/rpc.go:183-195 | an active call's context is done exactly if its cancel function is used up or its caller's context is done and it is no stream |
| Calls.ResponsesInOrder | rpc/rpc.go:268-275 | responses arrive in handler order, all of them by the time the channel closes, once |
| Calls.WatchdogIsQuiet | rpc/rpc.go:72-101 | marks are on calls in flight, a call is reported once at most, a stream never |
| Calls.WatchReportsExactly | rpc/rpc.go:86-101 | a tick reports a call exactly if active, overdue, not streaming and not reported before |
| Calls.SlowCallsAreReportedOnce | rpc/rpc.go:72-101 | a call a tick found slow has been reported exactly once ever after |
| Calls.ReportIsSlow | rpc/rpc.go:86-101 | the table's scan and the watchdog step report the same ports |
| Calls.GateWhileServing | rpc/rpc.go:260-276 | a port has a gate exactly while its RPC call is served |
| Calls.CancelReachesTarget | rpc/rpc.go:222-230 | a cancel request ends exactly the call in flight on its target port |

## Left out

- Codec.Unmarshal: a rejected input leaves the Go message partly filled; the model returns only the error. Its precondition excludes an arm whose message pointer is nil, into which the Go code would write.
- Records.RecordReads: nil and empty byte slices are one value, as they are for `EqualVT`.
- FlowGates.FlowGate.Attempt: makes the channel before the test instead of after it, and does not itself wait and retry; that loop is in the transition system.
- HotLayout.Compute: `sort.Slice` is a library function; the sorted order is a function, unique because field numbers are.
- HotCalls.StoredLoads: floats are their bit patterns. For 64-bit integers on the Dart side it says what the accessors do to the integer a field stands for; the emitted accessors do not type-check for these kinds.
- HotCalls.PackedMessageReadsBack: the same holds for its 64-bit integer fields.
- HandleTable.BoxThenUnbox: the bit pattern of a reference (NaN head, type flag) is not modelled, only the id or number it stands for.
- Calls.ResponsesInOrder: `MarshalVT` of a response never fails, so the branch that drops a response is absent.
- SharedRing.RingWriter.Write: the counter is a field of its own rather than the first four bytes; no store touches those bytes.
- The consumer's cancellation ends the transformer; that it also makes the Dart bridge send a cancel request is not part of the model, where any call may be cancelled at any time.
- Errors on the Dart source stream, which bypass the pending queue.
- `CloneVT`, the JSON and reflection code and the standard protobuf build of the messages.
- The Dart VM bridge, the command-line tool, scaffolding, `fetch`, `sqlite` and the HTTP servers: calls into foreign code and process control.
- `bridge_native.dart`, `bridge_web.dart` and `shared_ring.dart`, which are not part of this model.
- Logging, deadlines and wall-clock time.
