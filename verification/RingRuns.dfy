/** Every interleaving of the ring's producer thread and consumer thread (web/shared.go, web/web.go,
    benchmark/web/bench.js): one step is one memory access, one atomic operation or one message event. */
module RingRuns {
  import opened Words
  import opened SharedRing

  /** `drainAll` is the loop of benchmark/web/bench.js; otherwise one ring frame is taken per signal. */
  datatype Config = Config(shape: Shape, byteLength: nat, drainAll: bool)

  ghost predicate Fits(c: Config, frame: Frame) {
    |frame| <= c.shape.slotSize - FRAME_HEADER
  }

  datatype Item = Item(frame: Frame, viaRing: bool)

  datatype Writer =
    | Ready                    // between two sends
    | Writing(frame: Frame)    // the counter showed room
    | Headed(frame: Frame)     // length word stored
    | Filled(frame: Frame)     // payload stored
    | Published                // counter bumped, signal not posted yet
    | Falling(frame: Frame)    // about to post an envelope

  datatype Reader =
    | Idle
    | Draining(left: nat)              // `left` slots to go
    | Sized(length: int, left: nat)    // length word read
    | Releasing(left: nat)             // frame taken, counter not decremented yet

  datatype State = State(
    mem: seq<byte>, used: int, cursor: nat, read: nat, port: seq<Message>,
    writer: Writer, reader: Reader, todo: seq<Frame>,
    frames: nat,    // the page's count of frames
    // history
    sent: seq<Item>, taken: seq<Item>, ringed: seq<Frame>, consumed: nat, released: nat)

  datatype Step =
    | Begin | StoreHeader | StorePayload | Publish | PostSignal | PostEnvelope
    | Receive | ReadHeader | ReadPayload | Release | Finish

  /** `program` is what the worker sends: the responses of the call, then Done. */
  ghost predicate Initial(c: Config, s: State, program: seq<Frame>) {
    && Usable(c.shape, c.byteLength)
    && |s.mem| == c.byteLength
    && s == State(s.mem, 0, 0, 0, [], Ready, Idle, program, 0, [], [], [], 0, 0)
  }

  ghost predicate Shaped(c: Config, s: State) {
    && Usable(c.shape, c.byteLength) && |s.mem| == c.byteLength
    && s.cursor < c.shape.slots && s.read < c.shape.slots
  }

  ghost predicate Enabled(c: Config, s: State, step: Step) {
    && Shaped(c, s)
    && match step
       case Begin => s.writer.Ready? && s.todo != []
       case StoreHeader => s.writer.Writing?
       case StorePayload => s.writer.Headed? && Fits(c, s.writer.frame)
       case Publish => s.writer.Filled?
       case PostSignal => s.writer.Published?
       case PostEnvelope => s.writer.Falling?
       case Receive => s.reader.Idle? && s.port != []
       case ReadHeader => s.reader.Draining? && s.reader.left > 0
       case ReadPayload => s.reader.Sized?
       case Release => s.reader.Releasing?
       case Finish => s.reader.Draining? && s.reader.left == 0
  }

  /** The bytes a reader copies out for a length word it has read. */
  ghost function Copied(slot: seq<byte>, length: int): Frame {
    if 0 <= length <= |slot| - FRAME_HEADER then slot[FRAME_HEADER..FRAME_HEADER + length] else []
  }

  ghost function Apply(c: Config, s: State, step: Step): State
    requires Enabled(c, s, step)
  {
    match step
    case Begin =>
      var f := s.todo[0];
      s.(todo := s.todo[1..], writer := if Fits(c, f) && s.used < c.shape.slots then Writing(f) else Falling(f))
    case StoreHeader =>
      s.(mem := WithHeader(s.mem, c.shape, s.cursor, |s.writer.frame|), writer := Headed(s.writer.frame))
    case StorePayload =>
      s.(mem := WithPayload(s.mem, c.shape, s.cursor, s.writer.frame), writer := Filled(s.writer.frame))
    case Publish =>
      s.(used := s.used + 1, cursor := Next(s.cursor, c.shape.slots), writer := Published,
         sent := s.sent + [Item(s.writer.frame, true)], ringed := s.ringed + [s.writer.frame])
    case PostSignal =>
      s.(port := s.port + [Signal], writer := Ready)
    case PostEnvelope =>
      s.(port := s.port + [Envelope(s.writer.frame)], writer := Ready,
         sent := s.sent + [Item(s.writer.frame, false)])
    case Receive =>
      var s' := s.(port := s.port[1..]);
      if s.port[0].Signal? then
        s'.(reader := Draining(if !c.drainAll then 1 else if s.used > 0 then s.used else 0))
      else s'.(taken := s.taken + [Item(s.port[0].frame, false)], frames := s.frames + 1)
    case ReadHeader =>
      s.(reader := Sized(Length(Slot(s.mem, c.shape, s.read)), s.reader.left - 1))
    case ReadPayload =>
      s.(taken := s.taken + [Item(Copied(Slot(s.mem, c.shape, s.read), s.reader.length), true)],
         frames := s.frames + (if Passes(c.shape, c.byteLength, s.read, s.reader.length) then 1 else 0),
         read := Next(s.read, c.shape.slots), consumed := s.consumed + 1, reader := Releasing(s.reader.left))
    case Release =>
      s.(used := s.used - 1, released := s.released + 1, reader := Draining(s.reader.left))
    case Finish => s.(reader := Idle)
  }

  ghost predicate Legal(c: Config, s: State, steps: seq<Step>)
    decreases |steps|
  {
    steps == [] || (Enabled(c, s, steps[0]) && Legal(c, Apply(c, s, steps[0]), steps[1..]))
  }

  ghost function Run(c: Config, s: State, steps: seq<Step>): State
    requires Legal(c, s, steps)
    decreases |steps|
  {
    if steps == [] then s else Run(c, Apply(c, s, steps[0]), steps[1..])
  }

  ghost predicate Reachable(c: Config, program: seq<Frame>, s: State) {
    exists s0, steps: seq<Step> :: Initial(c, s0, program) && Legal(c, s0, steps) && Run(c, s0, steps) == s
  }

  // ----- logs

  ghost function Rings(items: seq<Item>): seq<Frame> {
    if items == [] then []
    else Rings(items[..|items| - 1]) + if items[|items| - 1].viaRing then [items[|items| - 1].frame] else []
  }

  ghost function Envelopes(items: seq<Item>): seq<Frame> {
    if items == [] then []
    else Envelopes(items[..|items| - 1]) + if items[|items| - 1].viaRing then [] else [items[|items| - 1].frame]
  }

  ghost function Frames(items: seq<Item>): seq<Frame> {
    if items == [] then [] else Frames(items[..|items| - 1]) + [items[|items| - 1].frame]
  }

  ghost function Posted(port: seq<Message>): seq<Frame> {
    if port == [] then []
    else (if port[0].Envelope? then [port[0].frame] else []) + Posted(port[1..])
  }

  lemma LogSnoc(items: seq<Item>, item: Item)
    ensures Rings(items + [item]) == Rings(items) + if item.viaRing then [item.frame] else []
    ensures Envelopes(items + [item]) == Envelopes(items) + if item.viaRing then [] else [item.frame]
    ensures Frames(items + [item]) == Frames(items) + [item.frame]
  {
    assert (items + [item])[..|items|] == items;
  }

  lemma {:induction false} PostedSnoc(port: seq<Message>, m: Message)
    ensures Posted(port + [m]) == Posted(port) + if m.Envelope? then [m.frame] else []
  {
    if port == [] {
      assert Posted([m][1..]) == [];
      assert [] + [m] == [m];
    } else {
      PostedSnoc(port[1..], m);
      assert (port + [m])[1..] == port[1..] + [m];
    }
  }

  // ----- invariant

  ghost predicate InSlot(w: Writer) { w.Writing? || w.Headed? || w.Filled? }

  /** Slots the current drain still has to take. */
  ghost function Left(r: Reader): nat {
    match r
    case Idle => 0
    case Draining(left) => left
    case Sized(_, left) => left + 1
    case Releasing(left) => left
  }

  ghost predicate CountInv(c: Config, s: State)
    requires Shaped(c, s)
  {
    && s.used == |s.ringed| - s.released
    && s.consumed == s.released + (if s.reader.Releasing? then 1 else 0)
    && s.consumed + Left(s.reader) <= |s.ringed| <= s.released + c.shape.slots
    && (InSlot(s.writer) ==> |s.ringed| < s.released + c.shape.slots && Fits(c, s.writer.frame))
    && s.cursor == SlotOf(|s.ringed|, c.shape.slots)
    && s.read == SlotOf(s.consumed, c.shape.slots)
  }

  ghost predicate MemInv(c: Config, s: State)
    requires Shaped(c, s) && CountInv(c, s)
  {
    && (forall k: nat :: s.consumed <= k < |s.ringed| ==>
          Holds(Slot(s.mem, c.shape, SlotOf(k, c.shape.slots)), s.ringed[k]))
    && (s.writer.Headed? ==> Length(Slot(s.mem, c.shape, s.cursor)) == |s.writer.frame|)
    && (s.writer.Filled? ==> Holds(Slot(s.mem, c.shape, s.cursor), s.writer.frame))
    && (s.reader.Sized? ==> s.reader.length == |s.ringed[s.consumed]|)
  }

  ghost predicate LogInv(s: State)
    requires s.consumed <= |s.ringed|
  {
    && Rings(s.sent) == s.ringed
    && Rings(s.taken) == s.ringed[..s.consumed]
    && Envelopes(s.taken) + Posted(s.port) == Envelopes(s.sent)
  }

  ghost function InFlight(w: Writer): seq<Frame> {
    if InSlot(w) || w.Falling? then [w.frame] else []
  }

  ghost predicate Inv(c: Config, program: seq<Frame>, s: State) {
    && Shaped(c, s)
    && CountInv(c, s)
    && MemInv(c, s)
    && LogInv(s)
    && ProgramInv(s, program)
  }

  lemma CountInvKept(c: Config, s: State, step: Step)
    requires Enabled(c, s, step) && CountInv(c, s)
    requires step.Receive? && s.port[0].Signal? && !c.drainAll ==> s.consumed < |s.ringed|
    ensures Shaped(c, Apply(c, s, step)) && CountInv(c, Apply(c, s, step))
  {
  }

  lemma StoresKeepUnread(c: Config, s: State, k: nat)
    requires Shaped(c, s) && CountInv(c, s) && InSlot(s.writer) && s.released <= k < |s.ringed|
    ensures SlotOf(k, c.shape.slots) != s.cursor
  {
    DifferentSlots(k, |s.ringed|, c.shape.slots);
  }

  lemma MemAfterStore(c: Config, s: State, step: Step)
    requires Enabled(c, s, step) && CountInv(c, s) && MemInv(c, s) && (step.StoreHeader? || step.StorePayload?)
    ensures Shaped(c, Apply(c, s, step)) && CountInv(c, Apply(c, s, step)) && MemInv(c, Apply(c, s, step))
  {
    var s' := Apply(c, s, step);
    if step.StoreHeader? {
      HeaderWritten(s.mem, c.shape, s.cursor, |s.writer.frame|);
    } else {
      PayloadWritten(s.mem, c.shape, s.cursor, s.writer.frame);
    }
    forall k: nat | s.consumed <= k < |s.ringed|
      ensures Holds(Slot(s'.mem, c.shape, SlotOf(k, c.shape.slots)), s.ringed[k])
    {
      StoresKeepUnread(c, s, k);
    }
  }

  lemma MemAfterPublish(c: Config, s: State)
    requires Enabled(c, s, Publish) && CountInv(c, s) && MemInv(c, s)
    requires Shaped(c, Apply(c, s, Publish)) && CountInv(c, Apply(c, s, Publish))
    ensures MemInv(c, Apply(c, s, Publish))
  {
    hide Holds, Slot;
    var s' := Apply(c, s, Publish);
    forall k: nat | s'.consumed <= k < |s'.ringed|
      ensures Holds(Slot(s'.mem, c.shape, SlotOf(k, c.shape.slots)), s'.ringed[k])
    {
      assert k < |s.ringed| ==> s'.ringed[k] == s.ringed[k];
    }
  }

  lemma MemInvKept(c: Config, s: State, step: Step)
    requires Enabled(c, s, step) && CountInv(c, s) && MemInv(c, s)
    requires Shaped(c, Apply(c, s, step)) && CountInv(c, Apply(c, s, step))
    ensures MemInv(c, Apply(c, s, step))
  {
    if step.StoreHeader? || step.StorePayload? {
      MemAfterStore(c, s, step);
    } else if step.Publish? {
      MemAfterPublish(c, s);
    } else {
      hide Holds, Slot, Copied;
    }
  }

  /** What is read is what was written. */
  lemma CopiedIsWritten(c: Config, s: State)
    requires Shaped(c, s) && CountInv(c, s) && MemInv(c, s) && s.reader.Sized?
    ensures Copied(Slot(s.mem, c.shape, s.read), s.reader.length) == s.ringed[s.consumed]
  {
  }

  lemma LogAfterPublish(c: Config, s: State)
    requires Enabled(c, s, Publish) && CountInv(c, s) && LogInv(s)
    ensures LogInv(Apply(c, s, Publish))
  {
    LogSnoc(s.sent, Item(s.writer.frame, true));
    assert (s.ringed + [s.writer.frame])[..s.consumed] == s.ringed[..s.consumed];
    assert Envelopes(s.sent) + [] == Envelopes(s.sent);
  }

  lemma LogAfterPost(c: Config, s: State, step: Step)
    requires Enabled(c, s, step) && (step.PostSignal? || step.PostEnvelope?) && CountInv(c, s) && LogInv(s)
    ensures LogInv(Apply(c, s, step))
  {
    if step.PostSignal? {
      PostedSnoc(s.port, Signal);
      assert Posted(s.port) + [] == Posted(s.port);
    } else {
      var f := s.writer.frame;
      LogSnoc(s.sent, Item(f, false));
      PostedSnoc(s.port, Envelope(f));
      assert Rings(s.sent) + [] == Rings(s.sent);
      assert Envelopes(s.taken) + (Posted(s.port) + [f]) == Envelopes(s.taken) + Posted(s.port) + [f];
    }
  }

  lemma LogAfterReceive(c: Config, s: State)
    requires Enabled(c, s, Receive) && CountInv(c, s) && LogInv(s)
    ensures LogInv(Apply(c, s, Receive))
  {
    if s.port[0].Envelope? {
      var f := s.port[0].frame;
      LogSnoc(s.taken, Item(f, false));
      assert Rings(s.taken) + [] == Rings(s.taken);
      assert Envelopes(s.taken) + ([f] + Posted(s.port[1..])) == Envelopes(s.taken) + [f] + Posted(s.port[1..]);
    } else {
      assert [] + Posted(s.port[1..]) == Posted(s.port[1..]);
    }
  }

  lemma LogAfterRead(c: Config, s: State)
    requires Enabled(c, s, ReadPayload) && CountInv(c, s) && MemInv(c, s) && LogInv(s)
    ensures LogInv(Apply(c, s, ReadPayload))
  {
    CopiedIsWritten(c, s);
    LogSnoc(s.taken, Item(s.ringed[s.consumed], true));
    assert s.ringed[..s.consumed + 1] == s.ringed[..s.consumed] + [s.ringed[s.consumed]];
    assert Envelopes(s.taken) + [] == Envelopes(s.taken);
  }

  lemma LogInvKept(c: Config, s: State, step: Step)
    requires Enabled(c, s, step) && CountInv(c, s) && MemInv(c, s) && LogInv(s)
    requires Shaped(c, Apply(c, s, step)) && CountInv(c, Apply(c, s, step))
    ensures LogInv(Apply(c, s, step))
  {
    match step
    case Publish => LogAfterPublish(c, s);
    case PostSignal => LogAfterPost(c, s, step);
    case PostEnvelope => LogAfterPost(c, s, step);
    case Receive => LogAfterReceive(c, s);
    case ReadPayload => LogAfterRead(c, s);
    case _ =>
  }

  ghost predicate ProgramInv(s: State, program: seq<Frame>) {
    Frames(s.sent) + InFlight(s.writer) + s.todo == program
  }

  lemma Handover(done: seq<Frame>, f: Frame, todo: seq<Frame>)
    ensures done + [] + ([f] + todo) == done + [f] + todo
    ensures done + [f] + todo == (done + [f]) + [] + todo
  {
  }

  lemma ProgramAfterBegin(c: Config, program: seq<Frame>, s: State)
    requires Enabled(c, s, Begin) && ProgramInv(s, program)
    ensures ProgramInv(Apply(c, s, Begin), program)
  {
    Handover(Frames(s.sent), s.todo[0], s.todo[1..]);
    assert s.todo == [s.todo[0]] + s.todo[1..];
  }

  lemma ProgramAfterSend(c: Config, program: seq<Frame>, s: State, step: Step)
    requires Enabled(c, s, step) && (step.Publish? || step.PostEnvelope?) && ProgramInv(s, program)
    ensures ProgramInv(Apply(c, s, step), program)
  {
    LogSnoc(s.sent, Item(s.writer.frame, step.Publish?));
    Handover(Frames(s.sent), s.writer.frame, s.todo);
  }

  lemma ProgramKept(c: Config, program: seq<Frame>, s: State, step: Step)
    requires Enabled(c, s, step) && ProgramInv(s, program)
    ensures ProgramInv(Apply(c, s, step), program)
  {
    match step
    case Begin => ProgramAfterBegin(c, program, s);
    case Publish => ProgramAfterSend(c, program, s, step);
    case PostEnvelope => ProgramAfterSend(c, program, s, step);
    case _ =>
      assert Apply(c, s, step).sent == s.sent && Apply(c, s, step).todo == s.todo;
  }

  lemma InvKept(c: Config, program: seq<Frame>, s: State, step: Step)
    requires Enabled(c, s, step) && Inv(c, program, s)
    requires step.Receive? && s.port[0].Signal? && !c.drainAll ==> s.consumed < |s.ringed|
    ensures Inv(c, program, Apply(c, s, step))
  {
    CountInvKept(c, s, step);
    MemInvKept(c, s, step);
    LogInvKept(c, s, step);
    ProgramKept(c, program, s, step);
  }
}
