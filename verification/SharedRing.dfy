/** The shared-memory ring of web/shared.go and its reader in benchmark/web/bench.js: byte layout, the
    producer's `write` and the consumer's drain loop. */
module SharedRing {
  import opened Words

  const PAYLOAD_BASE := 16
  const FRAME_HEADER := 4

  type Frame = seq<byte>

  datatype Shape = Shape(slots: int, slotSize: int)

  /** The checks of `newResponseSink`; anything else keeps the envelope path. */
  predicate Accepted(shape: Shape, byteLength: int) {
    && shape.slots > 0
    && shape.slotSize > FRAME_HEADER
    && shape.slotSize % 4 == 0
    && byteLength >= PAYLOAD_BASE + shape.slots * shape.slotSize
  }

  /** The two 32-bit views over the whole buffer can be made; `Accepted` does not ensure it. */
  predicate Viewable(shape: Shape, byteLength: int) {
    Accepted(shape, byteLength) && byteLength % 4 == 0
  }

  /** Besides, every frame that fits a slot has a length that fits its signed 32-bit header. */
  predicate Usable(shape: Shape, byteLength: int) {
    Viewable(shape, byteLength) && shape.slotSize <= TWO_31
  }

  /** Where slot `i` begins. */
  function Base(shape: Shape, i: nat): int {
    if i == 0 then PAYLOAD_BASE else Base(shape, i - 1) + shape.slotSize
  }

  /** The same as the code computes it. */
  function Offset(shape: Shape, i: nat): int {
    PAYLOAD_BASE + i * shape.slotSize
  }

  lemma {:induction false} BaseIsProduct(shape: Shape, i: nat)
    ensures Base(shape, i) == PAYLOAD_BASE + i * shape.slotSize
  {
    if i > 0 {
      BaseIsProduct(shape, i - 1);
      Distributes(i - 1, shape.slotSize);
    }
  }

  lemma Distributes(i: nat, n: int)
    ensures (i + 1) * n == i * n + n
  {
  }

  lemma {:induction false} BaseOrder(shape: Shape, i: nat, j: nat)
    requires shape.slotSize > 0 && i < j
    ensures Base(shape, i) + shape.slotSize <= Base(shape, j)
  {
    if i + 1 < j {
      BaseOrder(shape, i, j - 1);
    }
  }

  lemma {:induction false} BaseAligned(shape: Shape, i: nat)
    requires shape.slotSize % 4 == 0
    ensures Base(shape, i) % 4 == 0
  {
    if i > 0 {
      BaseAligned(shape, i - 1);
    }
  }

  lemma {:induction false} BaseNonNegative(shape: Shape, i: nat)
    requires shape.slotSize > 0
    ensures Base(shape, i) >= PAYLOAD_BASE
  {
    if i > 0 {
      BaseNonNegative(shape, i - 1);
    }
  }

  /** Slots are in bounds, word-aligned and disjoint; the counter's word lies before all of them. */
  lemma SlotBounds(shape: Shape, byteLength: int, i: nat)
    requires Accepted(shape, byteLength) && i < shape.slots
    ensures PAYLOAD_BASE <= Base(shape, i) && Base(shape, i) + shape.slotSize <= byteLength
    ensures Base(shape, i) % 4 == 0
    ensures Base(shape, i) == PAYLOAD_BASE + i * shape.slotSize
    ensures forall j: nat :: i < j ==> Base(shape, i) + shape.slotSize <= Base(shape, j)
  {
    BaseOrder(shape, i, shape.slots);
    BaseIsProduct(shape, shape.slots);
    BaseIsProduct(shape, i);
    BaseAligned(shape, i);
    BaseNonNegative(shape, i);
    forall j: nat | i < j
      ensures Base(shape, i) + shape.slotSize <= Base(shape, j)
    {
      BaseOrder(shape, i, j);
    }
  }

  /** The offset that both sides compute, in figures. */
  lemma SlotOffset(shape: Shape, i: nat)
    ensures Base(shape, i) == Offset(shape, i) == 16 + i * shape.slotSize
  {
    BaseIsProduct(shape, i);
  }

  /** A descriptor is accepted exactly if it has a slot, slots are whole words with room for a byte behind the
      header, and all of them fit behind the control area. */
  lemma AcceptedIff(shape: Shape, byteLength: int)
    ensures Accepted(shape, byteLength) <==>
      shape.slots >= 1 && shape.slotSize >= 8 && shape.slotSize % 4 == 0 && Base(shape, shape.slots) <= byteLength
  {
    if shape.slots >= 1 {
      BaseIsProduct(shape, shape.slots);
    }
  }

  lemma SlotInBounds(shape: Shape, byteLength: int, i: nat)
    requires Accepted(shape, byteLength) && i < shape.slots
    ensures PAYLOAD_BASE <= Base(shape, i) && Base(shape, i) + shape.slotSize <= byteLength
  {
    SlotBounds(shape, byteLength, i);
  }

  function Slot(mem: seq<byte>, shape: Shape, i: nat): (slot: seq<byte>)
    requires Accepted(shape, |mem|) && i < shape.slots
    ensures |slot| == shape.slotSize
  {
    SlotInBounds(shape, |mem|, i);
    mem[Base(shape, i)..Base(shape, i) + shape.slotSize]
  }

  function Length(slot: seq<byte>): int32
    requires |slot| >= FRAME_HEADER
  {
    WordSizes();
    Int32(FromLittleEndian(slot[..FRAME_HEADER]))
  }

  function Header(length: nat): (h: seq<byte>)
    ensures |h| == FRAME_HEADER
  {
    ToLittleEndian(length % TWO_32, FRAME_HEADER)
  }

  function WithHeader(mem: seq<byte>, shape: Shape, i: nat, length: nat): (mem': seq<byte>)
    requires Accepted(shape, |mem|) && i < shape.slots
    ensures |mem'| == |mem|
  {
    SlotInBounds(shape, |mem|, i);
    Splice(mem, Base(shape, i), Header(length))
  }

  function WithPayload(mem: seq<byte>, shape: Shape, i: nat, frame: Frame): (mem': seq<byte>)
    requires Accepted(shape, |mem|) && i < shape.slots && |frame| <= shape.slotSize - FRAME_HEADER
    ensures |mem'| == |mem|
  {
    SlotInBounds(shape, |mem|, i);
    Splice(mem, Base(shape, i) + FRAME_HEADER, frame)
  }

  /** `slot` holds `frame`: its length word, then its bytes. */
  ghost predicate Holds(slot: seq<byte>, frame: Frame) {
    && |slot| >= FRAME_HEADER + |frame|
    && Length(slot) == |frame|
    && slot[FRAME_HEADER..FRAME_HEADER + |frame|] == frame
  }

  /** A write inside slot `i` leaves the control area and every other slot alone. */
  lemma OtherSlotsKept(mem: seq<byte>, shape: Shape, i: nat, at: nat, s: seq<byte>)
    requires Accepted(shape, |mem|) && i < shape.slots
    requires Base(shape, i) <= at && at + |s| <= Base(shape, i) + shape.slotSize <= |mem|
    ensures Splice(mem, at, s)[..PAYLOAD_BASE] == mem[..PAYLOAD_BASE]
    ensures forall j: nat :: j < shape.slots && j != i ==> Slot(Splice(mem, at, s), shape, j) == Slot(mem, shape, j)
  {
    SlotInBounds(shape, |mem|, i);
    SpliceElsewhere(mem, at, s, 0, PAYLOAD_BASE);
    forall j: nat | j < shape.slots && j != i
      ensures Slot(Splice(mem, at, s), shape, j) == Slot(mem, shape, j)
    {
      SlotInBounds(shape, |mem|, j);
      if i < j {
        BaseOrder(shape, i, j);
      } else {
        BaseOrder(shape, j, i);
      }
      SpliceElsewhere(mem, at, s, Base(shape, j), Base(shape, j) + shape.slotSize);
    }
  }

  lemma HeaderReadsBack(length: nat)
    requires length < TWO_31
    ensures forall slot: seq<byte> :: |slot| >= FRAME_HEADER && slot[..FRAME_HEADER] == Header(length) ==>
              Length(slot) == length
  {
    hide ToLittleEndian, FromLittleEndian, Pow256;
    WordSizes();
    LittleEndianRoundTrip(length, FRAME_HEADER);
  }

  /** A header write changes the length of its own slot and nothing else in any slot. */
  lemma HeaderWritten(mem: seq<byte>, shape: Shape, i: nat, length: nat)
    requires Accepted(shape, |mem|) && i < shape.slots && length < TWO_31
    ensures
      var mem' := WithHeader(mem, shape, i, length);
      && mem'[..PAYLOAD_BASE] == mem[..PAYLOAD_BASE]
      && Length(Slot(mem', shape, i)) == length
      && forall j: nat :: j < shape.slots && j != i ==> Slot(mem', shape, j) == Slot(mem, shape, j)
  {
    var mem' := WithHeader(mem, shape, i, length);
    SlotInBounds(shape, |mem|, i);
    OtherSlotsKept(mem, shape, i, Base(shape, i), Header(length));
    HeaderReadsBack(length);
    assert Slot(mem', shape, i)[..FRAME_HEADER] == Header(length);
  }

  /** A payload write completes the frame in its own slot and changes nothing else in any slot. */
  lemma PayloadWritten(mem: seq<byte>, shape: Shape, i: nat, frame: Frame)
    requires Accepted(shape, |mem|) && i < shape.slots && |frame| <= shape.slotSize - FRAME_HEADER
    requires Length(Slot(mem, shape, i)) == |frame|
    ensures
      var mem' := WithPayload(mem, shape, i, frame);
      && mem'[..PAYLOAD_BASE] == mem[..PAYLOAD_BASE]
      && Holds(Slot(mem', shape, i), frame)
      && forall j: nat :: j < shape.slots && j != i ==> Slot(mem', shape, j) == Slot(mem, shape, j)
  {
    var mem' := WithPayload(mem, shape, i, frame);
    SlotInBounds(shape, |mem|, i);
    var base := Base(shape, i);
    OtherSlotsKept(mem, shape, i, base + FRAME_HEADER, frame);
    SpliceElsewhere(mem, base + FRAME_HEADER, frame, base, base + FRAME_HEADER);
    assert Slot(mem', shape, i)[..FRAME_HEADER] == mem'[base..base + FRAME_HEADER];
    assert Slot(mem, shape, i)[..FRAME_HEADER] == mem[base..base + FRAME_HEADER];
    assert mem'[base + FRAME_HEADER..base + FRAME_HEADER + |frame|] == frame;
    assert Slot(mem', shape, i)[FRAME_HEADER..FRAME_HEADER + |frame|] ==
      mem'[base + FRAME_HEADER..base + FRAME_HEADER + |frame|];
  }

  /** Header and payload are two splices at the byte offsets the writer computes. */
  lemma WritesAreSplices(mem: seq<byte>, shape: Shape, i: nat, frame: Frame)
    requires Accepted(shape, |mem|) && i < shape.slots && |frame| <= shape.slotSize - FRAME_HEADER
    ensures
      var base := Offset(shape, i);
      && 0 <= base && base + FRAME_HEADER + |frame| <= |mem|
      && WithHeader(mem, shape, i, |frame|) == Splice(mem, base, Header(|frame|))
      && WithPayload(WithHeader(mem, shape, i, |frame|), shape, i, frame) ==
         Splice(Splice(mem, base, Header(|frame|)), base + FRAME_HEADER, frame)
  {
    hide Header, Splice;
    SlotBounds(shape, |mem|, i);
  }

  /** After both the slot holds the frame, if its length fits the header. */
  lemma FrameWritten(mem: seq<byte>, shape: Shape, i: nat, frame: Frame)
    requires Accepted(shape, |mem|) && i < shape.slots && |frame| <= shape.slotSize - FRAME_HEADER
    ensures |frame| < TWO_31 ==>
      Holds(Slot(WithPayload(WithHeader(mem, shape, i, |frame|), shape, i, frame), shape, i), frame)
  {
    hide Holds, WithHeader, WithPayload;
    if |frame| < TWO_31 {
      HeaderWritten(mem, shape, i, |frame|);
      PayloadWritten(WithHeader(mem, shape, i, |frame|), shape, i, frame);
    }
  }

  /** And no other slot nor the control area changes. */
  lemma OnlyItsSlotWritten(mem: seq<byte>, shape: Shape, i: nat, frame: Frame)
    requires Accepted(shape, |mem|) && i < shape.slots && |frame| <= shape.slotSize - FRAME_HEADER
    ensures
      var mem' := WithPayload(WithHeader(mem, shape, i, |frame|), shape, i, frame);
      && mem'[..PAYLOAD_BASE] == mem[..PAYLOAD_BASE]
      && forall j: nat :: j < shape.slots && j != i ==> Slot(mem', shape, j) == Slot(mem, shape, j)
  {
    hide Slot, Header, Splice;
    SlotInBounds(shape, |mem|, i);
    OtherSlotsKept(mem, shape, i, Base(shape, i), Header(|frame|));
    OtherSlotsKept(WithHeader(mem, shape, i, |frame|), shape, i, Base(shape, i) + FRAME_HEADER, frame);
  }

  // ----- the two sides

  /** A bare signal, or a whole frame by transfer. */
  datatype Message = Signal | Envelope(frame: Frame)

  /** What both threads share: the bytes, the unread counter and the queue of the message port. */
  class SharedMemory {
    const bytes: array<byte>
    var used: nat
    var port: seq<Message>

    constructor (byteLength: nat)
      ensures fresh(bytes) && bytes.Length == byteLength && used == 0 && port == []
    {
      bytes := new byte[byteLength](_ => 0);
      used, port := 0, [];
    }
  }

  /** Whether a frame is published when `used` slots are taken. */
  predicate Publishes(shape: Shape, used: nat, frame: Frame) {
    |frame| <= shape.slotSize - FRAME_HEADER && used < shape.slots
  }

  /** The unread count after sending `frames` with no consumer running. */
  function UsedAfter(shape: Shape, used: nat, frames: seq<Frame>): nat {
    if frames == [] then used
    else
      var before := UsedAfter(shape, used, frames[..|frames| - 1]);
      if Publishes(shape, before, frames[|frames| - 1]) then before + 1 else before
  }

  /** The messages posted for `frames` with no consumer running. */
  function Outgoing(shape: Shape, used: nat, frames: seq<Frame>): (ms: seq<Message>)
    ensures |ms| == |frames|
    ensures forall i :: 0 <= i < |ms| ==> ms[i].Signal? || ms[i] == Envelope(frames[i])
  {
    if frames == [] then []
    else
      var last := frames[|frames| - 1];
      var before := frames[..|frames| - 1];
      Outgoing(shape, used, before) +
        [if Publishes(shape, UsedAfter(shape, used, before), last) then Signal else Envelope(last)]
  }

  lemma OutgoingSnoc(shape: Shape, used: nat, frames: seq<Frame>, f: Frame)
    ensures
      var u := UsedAfter(shape, used, frames);
      && Outgoing(shape, used, frames + [f]) == Outgoing(shape, used, frames) + Outgoing(shape, u, [f])
      && UsedAfter(shape, used, frames + [f]) == UsedAfter(shape, u, [f])
  {
    assert (frames + [f])[..|frames|] == frames;
    assert [f][..0] == [];
  }

  /** The frames among `frames` that were signalled, in order. */
  ghost function Signalled(frames: seq<Frame>, ms: seq<Message>): (fs: seq<Frame>)
    requires |frames| == |ms|
    ensures |fs| <= |frames|
    decreases |frames|
  {
    if frames == [] then []
    else
      Signalled(frames[..|frames| - 1], ms[..|ms| - 1]) +
      if ms[|ms| - 1].Signal? then [frames[|frames| - 1]] else []
  }

  lemma SignalledSnoc(frames: seq<Frame>, ms: seq<Message>, f: Frame, m: Message)
    requires |frames| == |ms|
    ensures Signalled(frames + [f], ms + [m]) == Signalled(frames, ms) + if m.Signal? then [f] else []
  {
    assert (frames + [f])[..|frames|] == frames && (ms + [m])[..|ms|] == ms;
  }

  lemma {:induction false} UsedCountsSignals(shape: Shape, u: nat, frames: seq<Frame>)
    ensures UsedAfter(shape, u, frames) == u + |Signalled(frames, Outgoing(shape, u, frames))|
    decreases |frames|
  {
    if frames != [] {
      var n := |frames| - 1;
      UsedCountsSignals(shape, u, frames[..n]);
      OutgoingSnoc(shape, u, frames[..n], frames[n]);
      OutgoingOne(shape, UsedAfter(shape, u, frames[..n]), frames[n]);
      assert frames == frames[..n] + [frames[n]];
      SignalledSnoc(frames[..n], Outgoing(shape, u, frames[..n]), frames[n], Outgoing(shape, u, frames)[n]);
    }
  }

  lemma {:induction false} OutgoingAt(shape: Shape, u: nat, frames: seq<Frame>, i: nat)
    requires i < |frames|
    ensures Outgoing(shape, u, frames)[i] == Outgoing(shape, UsedAfter(shape, u, frames[..i]), [frames[i]])[0]
    decreases |frames|
  {
    hide Outgoing, UsedAfter;
    var n := |frames| - 1;
    OutgoingSnoc(shape, u, frames[..n], frames[n]);
    assert frames == frames[..n] + [frames[n]];
    if i < n {
      OutgoingAt(shape, u, frames[..n], i);
      assert frames[..n][..i] == frames[..i];
    }
  }

  /** With no consumer running a frame is signalled exactly if it fits a slot and the unread frames, with those
      signalled before it, leave one free. */
  lemma SignalledWhileRoom(shape: Shape, u: nat, frames: seq<Frame>, i: nat)
    requires i < |frames|
    ensures
      Outgoing(shape, u, frames)[i].Signal? <==>
      |frames[i]| + 4 <= shape.slotSize &&
      u + |Signalled(frames[..i], Outgoing(shape, u, frames[..i]))| < shape.slots
  {
    hide Outgoing, UsedAfter, Signalled;
    OutgoingAt(shape, u, frames, i);
    OutgoingOne(shape, UsedAfter(shape, u, frames[..i]), frames[i]);
    UsedCountsSignals(shape, u, frames[..i]);
  }

  /** The slot `k` places after `cursor`, round the ring. */
  ghost function Ahead(cursor: nat, k: nat, slots: int): (c: nat)
    requires slots > 0
    ensures c < slots
  {
    SlotOf(cursor + k, slots)
  }

  /** From slot `cursor` on the ring holds `fs`, in order; the slots after them are as in `was`. */
  ghost predicate HoldsFrom(mem: seq<byte>, was: seq<byte>, shape: Shape, cursor: nat, fs: seq<Frame>)
    requires Accepted(shape, |mem|) && |was| == |mem|
  {
    && mem[..PAYLOAD_BASE] == was[..PAYLOAD_BASE]
    && (forall k: nat :: k < |fs| && |fs[k]| < TWO_31 ==>
          Holds(Slot(mem, shape, Ahead(cursor, k, shape.slots)), fs[k]))
    && (forall k: nat :: |fs| <= k < shape.slots ==>
          Slot(mem, shape, Ahead(cursor, k, shape.slots)) == Slot(was, shape, Ahead(cursor, k, shape.slots)))
  }

  lemma AheadNext(cursor: nat, k: nat, slots: int)
    requires slots > 0
    ensures Ahead(cursor, k + 1, slots) == (Ahead(cursor, k, slots) + 1) % slots
  {
    assert cursor + (k + 1) - 1 == cursor + k;
  }

  lemma AheadIsRemainder(cursor: nat, k: nat, slots: int)
    requires slots > 0
    ensures Ahead(cursor, k, slots) == (cursor + k) % slots
  {
    SlotOfIsRemainder(cursor + k, slots);
  }

  lemma HoldsOneMore(
    mem: seq<byte>, mem': seq<byte>, was: seq<byte>, shape: Shape, cursor: nat, fs: seq<Frame>, f: Frame)
    requires Accepted(shape, |mem|) && |was| == |mem| == |mem'| && |fs| < shape.slots
    requires HoldsFrom(mem, was, shape, cursor, fs) && mem'[..PAYLOAD_BASE] == mem[..PAYLOAD_BASE]
    requires |f| < TWO_31 ==> Holds(Slot(mem', shape, Ahead(cursor, |fs|, shape.slots)), f)
    requires forall j: nat :: j < shape.slots && j != Ahead(cursor, |fs|, shape.slots) ==>
               Slot(mem', shape, j) == Slot(mem, shape, j)
    ensures HoldsFrom(mem', was, shape, cursor, fs + [f])
  {
    hide Slot, Holds, SlotOf;
    var at := Ahead(cursor, |fs|, shape.slots);
    forall k: nat | k < shape.slots && k != |fs|
      ensures Ahead(cursor, k, shape.slots) != at
    {
      if k < |fs| {
        DifferentSlots(cursor + k, cursor + |fs|, shape.slots);
      } else {
        DifferentSlots(cursor + |fs|, cursor + k, shape.slots);
      }
    }
  }

  /** What one send does to bytes, cursor and counter: a frame that fits goes into the slot at the cursor if
      the ring has room, and nothing else is touched; otherwise nothing is. */
  ghost predicate Delivers(
    mem: seq<byte>, mem': seq<byte>, shape: Shape, cursor: nat, cursor': nat, used: nat, used': nat, f: Frame)
    requires Accepted(shape, |mem|) && |mem'| == |mem| && cursor < shape.slots
  {
    if |f| + 4 <= shape.slotSize && used < shape.slots then
      && used' == used + 1 && cursor' == (cursor + 1) % shape.slots
      && (|f| < TWO_31 ==> Holds(Slot(mem', shape, cursor), f))
      && mem'[..PAYLOAD_BASE] == mem[..PAYLOAD_BASE]
      && forall j: nat :: j < shape.slots && j != cursor ==> Slot(mem', shape, j) == Slot(mem, shape, j)
    else
      mem' == mem && cursor' == cursor && used' == used
  }

  /** The ring after `frames` were sent with no consumer running, `was`, `first` and `u` being where it began. */
  ghost predicate Progress(
    mem: seq<byte>, was: seq<byte>, shape: Shape, first: nat, cursor: nat, u: nat, used: nat, frames: seq<Frame>)
    requires Accepted(shape, |mem|) && |was| == |mem|
  {
    var stored := Signalled(frames, Outgoing(shape, u, frames));
    && used == u + |stored| && cursor == Ahead(first, |stored|, shape.slots)
    && HoldsFrom(mem, was, shape, first, stored)
  }

  lemma ProgressStarts(mem: seq<byte>, shape: Shape, first: nat, u: nat)
    requires Accepted(shape, |mem|) && first < shape.slots
    ensures Progress(mem, mem, shape, first, first, u, u, [])
  {
    SlotOfSmall(first, shape.slots);
  }

  lemma ProgressMeans(
    mem: seq<byte>, was: seq<byte>, shape: Shape, first: nat, cursor: nat, u: nat, used: nat, frames: seq<Frame>)
    requires Accepted(shape, |mem|) && |was| == |mem|
    requires Progress(mem, was, shape, first, cursor, u, used, frames)
    ensures
      var stored := Signalled(frames, Outgoing(shape, u, frames));
      && used == u + |stored| && cursor == Ahead(first, |stored|, shape.slots)
      && HoldsFrom(mem, was, shape, first, stored)
  {
  }

  lemma ProgressOneMore(
    mem: seq<byte>, mem': seq<byte>, was: seq<byte>, shape: Shape, first: nat, cursor: nat, cursor': nat,
    u: nat, used: nat, used': nat, frames: seq<Frame>, f: Frame)
    requires Accepted(shape, |mem|) && |was| == |mem| == |mem'| && cursor < shape.slots
    requires Progress(mem, was, shape, first, cursor, u, used, frames) && used == UsedAfter(shape, u, frames)
    requires Delivers(mem, mem', shape, cursor, cursor', used, used', f)
    ensures Progress(mem', was, shape, first, cursor', u, used', frames + [f])
  {
    hide Slot, Holds, HoldsFrom, Signalled, Outgoing, UsedAfter, SlotOf;
    var ms := Outgoing(shape, u, frames);
    OutgoingSnoc(shape, u, frames, f);
    OutgoingOne(shape, used, f);
    SignalledSnoc(frames, ms, f, Outgoing(shape, used, [f])[0]);
    var stored := Signalled(frames, ms);
    if Publishes(shape, used, f) {
      HoldsOneMore(mem, mem', was, shape, first, stored, f);
      AheadNext(first, |stored|, shape.slots);
    } else {
      assert stored + [] == stored;
    }
  }

  lemma OutgoingOne(shape: Shape, used: nat, f: Frame)
    ensures Outgoing(shape, used, [f]) == [if Publishes(shape, used, f) then Signal else Envelope(f)]
    ensures UsedAfter(shape, used, [f]) == if Publishes(shape, used, f) then used + 1 else used
  {
    assert [f][..0] == [];
  }

  lemma SlotOfSmall(k: nat, slots: int)
    requires k < slots
    ensures SlotOf(k, slots) == k
  {
    SlotOfIsRemainder(k, slots);
    Quotient(k, 0, k, slots);
  }

  class RingWriter {
    const shared: SharedMemory
    const shape: Shape
    var cursor: nat

    ghost predicate Valid()
      reads this
    {
      Viewable(shape, shared.bytes.Length) && cursor < shape.slots
    }

    constructor (shared: SharedMemory, shape: Shape)
      requires Viewable(shape, shared.bytes.Length)
      ensures Valid() && this.shared == shared && this.shape == shape && cursor == 0
    {
      this.shared, this.shape, cursor := shared, shape, 0;
    }

    /** `false` means the caller must post an envelope instead. */
    method Write(message: Frame) returns (published: bool)
      requires Valid()
      modifies this`cursor, shared, shared.bytes
      ensures Valid()
      ensures published <==> |message| <= shape.slotSize - 4 && old(shared.used) < shape.slots
      ensures !published ==>
        shared.bytes[..] == old(shared.bytes[..]) && unchanged(shared) && cursor == old(cursor)
      ensures published ==>
        && shared.bytes[..] ==
             WithPayload(WithHeader(old(shared.bytes[..]), shape, old(cursor), |message|), shape, old(cursor), message)
        && (|message| < TWO_31 ==> Holds(Slot(shared.bytes[..], shape, old(cursor)), message))
        && shared.used == old(shared.used) + 1 && shared.port == old(shared.port) + [Signal]
        && cursor == Next(old(cursor), shape.slots)
    {
      if |message| > shape.slotSize - FRAME_HEADER {
        return false;
      }
      if shared.used >= shape.slots {
        return false;
      }
      hide Holds, Slot, WithHeader, WithPayload, Header, Splice, Offset, Next;
      WritesAreSplices(shared.bytes[..], shape, cursor, message);
      FrameWritten(shared.bytes[..], shape, cursor, message);
      var base := Offset(shape, cursor);
      Put(shared.bytes, base, Header(|message|));
      Put(shared.bytes, base + FRAME_HEADER, message);
      shared.used := shared.used + 1;
      cursor := Next(cursor, shape.slots);
      shared.port := shared.port + [Signal];
      return true;
    }

    /** `sharedSink.send`. */
    method Send(message: Frame)
      requires Valid()
      modifies this`cursor, shared, shared.bytes
      ensures Valid()
      ensures shared.port == old(shared.port) + Outgoing(shape, old(shared.used), [message])
      ensures shared.used == UsedAfter(shape, old(shared.used), [message])
      ensures Delivers(old(shared.bytes[..]), shared.bytes[..], shape, old(cursor), cursor,
                old(shared.used), shared.used, message)
      ensures shared.port == old(shared.port) +
        [if |message| + 4 <= shape.slotSize && old(shared.used) < shape.slots then Signal
         else Envelope(message)]
    {
      hide Holds, Slot, WithHeader, WithPayload;
      OutgoingOne(shape, shared.used, message);
      if |message| <= shape.slotSize - FRAME_HEADER {
        OnlyItsSlotWritten(shared.bytes[..], shape, cursor, message);
      }
      var published := Write(message);
      if !published {
        shared.port := shared.port + [Envelope(message)];
      }
    }

    /** The worker's loop over the responses of a call, then `sharedSink.done`. */
    method Forward(responses: seq<Frame>, done: Frame)
      requires Valid()
      modifies this`cursor, shared, shared.bytes
      ensures Valid()
      ensures shared.port == old(shared.port) + Outgoing(shape, old(shared.used), responses + [done])
      ensures
        var stored := Signalled(responses + [done], shared.port[|old(shared.port)|..]);
        && shared.used == old(shared.used) + |stored| && cursor == (old(cursor) + |stored|) % shape.slots
        && HoldsFrom(shared.bytes[..], old(shared.bytes[..]), shape, old(cursor), stored)
    {
      hide Outgoing, Progress, Delivers, Signalled, HoldsFrom;
      ghost var u, was, first := shared.used, shared.bytes[..], cursor;
      ProgressStarts(was, shape, first, u);
      assert responses[..0] == [];
      for i := 0 to |responses|
        invariant Valid()
        invariant shared.port == old(shared.port) + Outgoing(shape, u, responses[..i])
        invariant shared.used == UsedAfter(shape, u, responses[..i])
        invariant Progress(shared.bytes[..], was, shape, first, cursor, u, shared.used, responses[..i])
      {
        ghost var mem, at, used := shared.bytes[..], cursor, shared.used;
        OutgoingSnoc(shape, u, responses[..i], responses[i]);
        assert responses[..i + 1] == responses[..i] + [responses[i]];
        Send(responses[i]);
        ProgressOneMore(mem, shared.bytes[..], was, shape, first, at, cursor, u, used, shared.used,
          responses[..i], responses[i]);
      }
      assert responses[..|responses|] == responses;
      ghost var mem, at, used := shared.bytes[..], cursor, shared.used;
      OutgoingSnoc(shape, u, responses, done);
      Send(done);
      ProgressOneMore(mem, shared.bytes[..], was, shape, first, at, cursor, u, used, shared.used, responses, done);
      ProgressMeans(shared.bytes[..], was, shape, first, cursor, u, shared.used, responses + [done]);
      AheadIsRemainder(first, shared.used - u, shape.slots);
      assert shared.port[|old(shared.port)|..] == Outgoing(shape, u, responses + [done]);
    }
  }

  method Put(a: array<byte>, start: nat, s: seq<byte>)
    requires start + |s| <= a.Length
    modifies a
    ensures a[..] == Splice(old(a[..]), start, s)
  {
    for k := 0 to |s|
      invariant forall j :: 0 <= j < a.Length && !(start <= j < start + k) ==> a[j] == old(a[j])
      invariant forall j :: 0 <= j < k ==> a[start + j] == s[j]
    {
      a[start + k] := s[k];
    }
  }

  /** The drain loop's test on the length word of slot `i`. */
  predicate Passes(shape: Shape, byteLength: int, i: nat, length: int) {
    length > 0 && Base(shape, i) + FRAME_HEADER + length <= byteLength
  }

  predicate Counted(mem: seq<byte>, shape: Shape, i: nat)
    requires Accepted(shape, |mem|) && i < shape.slots
  {
    Passes(shape, |mem|, i, Length(Slot(mem, shape, i)))
  }

  /** How many of the `n` slots from `read` on the drain loop counts as frames. */
  ghost function Tally(mem: seq<byte>, shape: Shape, read: nat, n: nat): nat
    requires Accepted(shape, |mem|) && read < shape.slots
    decreases n
  {
    if n == 0 then 0
    else (if Counted(mem, shape, read) then 1 else 0) + Tally(mem, shape, Next(read, shape.slots), n - 1)
  }

  ghost function Advanced(read: nat, n: nat, slots: int): (r: nat)
    requires read < slots
    ensures r < slots
    decreases n
  {
    if n == 0 then read else Advanced(Next(read, slots), n - 1, slots)
  }

  lemma DrainEnds(mem: seq<byte>, shape: Shape)
    requires Accepted(shape, |mem|)
    ensures forall read: nat :: read < shape.slots ==>
              Tally(mem, shape, read, 0) == 0 && Advanced(read, 0, shape.slots) == read
  {
  }

  /** One turn of the drain loop. */
  lemma DrainTurn(mem: seq<byte>, shape: Shape, read: nat, n: nat)
    requires Accepted(shape, |mem|) && read < shape.slots && n > 0
    ensures
      var next := Next(read, shape.slots);
      && Tally(mem, shape, read, n) == (if Counted(mem, shape, read) then 1 else 0) + Tally(mem, shape, next, n - 1)
      && Advanced(read, n, shape.slots) == Advanced(next, n - 1, shape.slots)
  {
    hide Counted;
  }

  lemma {:induction false} AdvancedIsAhead(cursor: nat, k: nat, n: nat, slots: int)
    requires slots > 0
    ensures Advanced(Ahead(cursor, k, slots), n, slots) == Ahead(cursor, k + n, slots)
    decreases n
  {
    if n > 0 {
      AheadNext(cursor, k, slots);
      AdvancedIsAhead(cursor, k + 1, n - 1, slots);
    }
  }

  lemma AdvancedIsRemainder(read: nat, n: nat, slots: int)
    requires read < slots
    ensures Advanced(read, n, slots) == (read + n) % slots
  {
    SlotOfSmall(read, slots);
    AdvancedIsAhead(read, 0, n, slots);
    AheadIsRemainder(read, n, slots);
  }

  class RingReader {
    const shared: SharedMemory
    const shape: Shape
    var read: nat
    var frames: nat

    ghost predicate Valid()
      reads this
    {
      Viewable(shape, shared.bytes.Length) && read < shape.slots
    }

    constructor (shared: SharedMemory, shape: Shape)
      requires Viewable(shape, shared.bytes.Length)
      ensures Valid() && this.shared == shared && this.shape == shape && read == 0 && frames == 0
    {
      this.shared, this.shape, read, frames := shared, shape, 0, 0;
    }

    /** The test applied to the slot at `read`. */
    method Inspect() returns (counted: bool)
      requires Valid()
      ensures counted == Counted(shared.bytes[..], shape, read)
    {
      SlotBounds(shape, shared.bytes.Length, read);
      var base := PAYLOAD_BASE + read * shape.slotSize;
      WordSizes();
      ghost var mem := shared.bytes[..];
      assert shared.bytes[base..base + FRAME_HEADER] == mem[base..base + FRAME_HEADER];
      assert Slot(mem, shape, read)[..FRAME_HEADER] == mem[base..base + FRAME_HEADER];
      var length := Int32(FromLittleEndian(shared.bytes[base..base + FRAME_HEADER]));
      counted := length > 0 && base + FRAME_HEADER + length <= shared.bytes.Length;
    }

    /** The loop run for each numeric message. */
    method Drain()
      requires Valid()
      modifies this`read, this`frames, shared`used
      ensures Valid() && shared.used == 0
      ensures read == (old(read) + old(shared.used)) % shape.slots
      ensures frames == old(frames) + Tally(shared.bytes[..], shape, old(read), old(shared.used))
    {
      hide Tally, Advanced, Counted;
      var pending := shared.used;
      ghost var mem := shared.bytes[..];
      DrainEnds(mem, shape);
      AdvancedIsRemainder(read, pending, shape.slots);
      for i := 0 to pending
        invariant Valid() && shared.used == pending - i && shared.bytes[..] == mem
        invariant Advanced(read, pending - i, shape.slots) == Advanced(old(read), pending, shape.slots)
        invariant frames + Tally(mem, shape, read, pending - i) == old(frames) + Tally(mem, shape, old(read), pending)
      {
        DrainTurn(mem, shape, read, pending - i);
        var counted := Inspect();
        if counted {
          frames := frames + 1;
        }
        read := (read + 1) % shape.slots;
        shared.used := shared.used - 1;
      }
    }
  }

  // ----- slot numbers

  function Next(c: nat, slots: int): (n: nat)
    requires c < slots
    ensures n < slots
  {
    (c + 1) % slots
  }

  lemma NextCases(c: nat, slots: int)
    requires c < slots
    ensures Next(c, slots) == if c + 1 == slots then 0 else c + 1
  {
  }

  /** The slot of the `k`-th frame of the stream. */
  ghost function SlotOf(k: nat, slots: int): (c: nat)
    requires slots > 0
    ensures c < slots
  {
    if k == 0 then 0 else Next(SlotOf(k - 1, slots), slots)
  }

  lemma {:induction false} SlotOfIsRemainder(k: nat, slots: int)
    requires slots > 0
    ensures SlotOf(k, slots) == k % slots
  {
    if k > 0 {
      SlotOfIsRemainder(k - 1, slots);
      NextRemainder(k - 1, slots);
    }
  }

  lemma NextRemainder(k: nat, slots: int)
    requires slots > 0
    ensures Next(k % slots, slots) == (k + 1) % slots
  {
    var q, r := k / slots, k % slots;
    NextCases(r, slots);
    if r + 1 == slots {
      Distributes(q, slots);
      Quotient(k + 1, q + 1, 0, slots);
    } else {
      Quotient(k + 1, q, r + 1, slots);
    }
  }

  lemma Quotient(k: nat, q: nat, r: nat, n: int)
    requires 0 <= r < n && k == q * n + r
    ensures k % n == r
  {
    var q', r' := k / n, k % n;
    assert q' * n + r' == q * n + r;
    if q' < q {
      Monotone(q' + 1, q, n);
      Distributes(q', n);
    } else if q < q' {
      Monotone(q + 1, q', n);
      Distributes(q, n);
    }
  }

  lemma Monotone(a: nat, b: nat, n: nat)
    requires a <= b
    ensures a * n <= b * n
  {
  }

  lemma {:induction false} SlotOfSum(a: nat, d: nat, slots: int)
    requires slots > 0 && d < slots
    ensures SlotOf(a + d, slots) ==
            if SlotOf(a, slots) + d < slots then SlotOf(a, slots) + d else SlotOf(a, slots) + d - slots
  {
    if d > 0 {
      SlotOfSum(a, d - 1, slots);
      NextCases(SlotOf(a + d - 1, slots), slots);
    }
  }

  /** Fewer than `slots` apart means different slots. */
  lemma DifferentSlots(a: nat, b: nat, slots: int)
    requires a < b < a + slots
    ensures SlotOf(a, slots) != SlotOf(b, slots)
  {
    SlotOfSum(a, b - a, slots);
  }
}
