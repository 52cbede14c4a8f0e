/** The ring and its message port as one channel: what each kind of consumer is guaranteed. */
module RingResults {
  import opened Words
  import opened SharedRing
  import opened RingRuns

  /** The worker has sent everything and the consumer has handled every message. */
  ghost predicate Finished(s: State) {
    s.writer.Ready? && s.todo == [] && s.port == [] && s.reader.Idle?
  }

  // ----- one frame per signal: a plain FIFO

  /** Each signal stands for the next unread ring frame, each envelope for its own frame. */
  ghost function Resolved(ms: seq<Message>, fs: seq<Frame>): seq<Item>
    decreases |ms|
  {
    if ms == [] then []
    else if ms[0].Envelope? then [Item(ms[0].frame, false)] + Resolved(ms[1..], fs)
    else if fs == [] then []
    else [Item(fs[0], true)] + Resolved(ms[1..], fs[1..])
  }

  ghost function Signals(ms: seq<Message>): nat {
    if ms == [] then 0 else (if ms[0].Signal? then 1 else 0) + Signals(ms[1..])
  }

  lemma {:induction false} SignalsSnoc(ms: seq<Message>, m: Message)
    ensures Signals(ms + [m]) == Signals(ms) + if m.Signal? then 1 else 0
  {
    if ms == [] {
      assert [] + [m] == [m];
      assert Signals([m][1..]) == 0;
    } else {
      SignalsSnoc(ms[1..], m);
      assert (ms + [m])[1..] == ms[1..] + [m];
    }
  }

  lemma {:induction false} ResolvedEnvelope(ms: seq<Message>, fs: seq<Frame>, f: Frame)
    requires Signals(ms) == |fs|
    ensures Resolved(ms + [Envelope(f)], fs) == Resolved(ms, fs) + [Item(f, false)]
    decreases |ms|
  {
    var m := Envelope(f);
    if ms == [] {
      assert [] + [m] == [m];
      assert Resolved([m][1..], fs) == [];
    } else {
      ResolvedEnvelope(ms[1..], if ms[0].Signal? then fs[1..] else fs, f);
      assert (ms + [m])[1..] == ms[1..] + [m];
    }
  }

  lemma {:induction false} ResolvedSignal(ms: seq<Message>, fs: seq<Frame>, f: Frame)
    requires Signals(ms) == |fs|
    ensures Resolved(ms + [Signal], fs + [f]) == Resolved(ms, fs) + [Item(f, true)]
    decreases |ms|
  {
    if ms == [] {
      assert [] + [Signal] == [Signal];
      assert Resolved([Signal][1..], (fs + [f])[1..]) == [];
      assert fs + [f] == [f];
    } else {
      assert (ms + [Signal])[1..] == ms[1..] + [Signal];
      if ms[0].Signal? {
        ResolvedSignal(ms[1..], fs[1..], f);
        assert (fs + [f])[1..] == fs[1..] + [f];
      } else {
        ResolvedSignal(ms[1..], fs, f);
      }
    }
  }

  /** The messages not yet acted on, counting a signal being handled and one about to be posted. */
  ghost function Backlog(s: State): seq<Message> {
    (if Left(s.reader) > 0 then [Signal] else []) + s.port + (if s.writer.Published? then [Signal] else [])
  }

  ghost predicate FifoInv(s: State)
    requires s.consumed <= |s.ringed|
  {
    && Left(s.reader) <= 1
    && Signals(Backlog(s)) == |s.ringed| - s.consumed
    && s.taken + Resolved(Backlog(s), s.ringed[s.consumed..]) == s.sent
  }

  lemma FifoAfterWrite(c: Config, s: State, step: Step)
    requires Enabled(c, s, step) && CountInv(c, s) && FifoInv(s)
    requires step.Publish? || step.PostSignal? || step.PostEnvelope?
    ensures FifoInv(Apply(c, s, step))
  {
    var s' := Apply(c, s, step);
    var rest := s.ringed[s.consumed..];
    match step
    case Publish =>
      var f := s.writer.frame;
      assert Backlog(s') == Backlog(s) + [Signal];
      assert s'.ringed[s.consumed..] == rest + [f];
      SignalsSnoc(Backlog(s), Signal);
      ResolvedSignal(Backlog(s), rest, f);
    case PostSignal =>
      assert Backlog(s') == Backlog(s);
    case PostEnvelope =>
      var m := Envelope(s.writer.frame);
      assert Backlog(s') == Backlog(s) + [m];
      SignalsSnoc(Backlog(s), m);
      ResolvedEnvelope(Backlog(s), rest, s.writer.frame);
  }

  lemma FifoAfterReceive(c: Config, s: State)
    requires Enabled(c, s, Receive) && CountInv(c, s) && FifoInv(s) && (!c.drainAll || c.shape.slots == 1)
    ensures FifoInv(Apply(c, s, Receive))
    ensures s.port[0].Signal? ==> s.consumed < |s.ringed|
  {
    var s' := Apply(c, s, Receive);
    assert Backlog(s)[0] == s.port[0];
    if s.port[0].Signal? {
      assert Backlog(s') == Backlog(s);
    } else {
      assert Backlog(s') == Backlog(s)[1..];
      var rest := Resolved(Backlog(s'), s.ringed[s.consumed..]);
      assert s.taken + ([Item(s.port[0].frame, false)] + rest) == s'.taken + rest;
    }
  }

  lemma FifoAfterRead(c: Config, s: State)
    requires Enabled(c, s, ReadPayload) && CountInv(c, s) && MemInv(c, s) && FifoInv(s)
    ensures FifoInv(Apply(c, s, ReadPayload))
  {
    hide MemInv, Slot, Copied, Passes;
    var s' := Apply(c, s, ReadPayload);
    CopiedIsWritten(c, s);
    assert Backlog(s)[0] == Signal && Backlog(s') == Backlog(s)[1..];
    var fs := s.ringed[s.consumed..];
    assert fs[1..] == s'.ringed[s'.consumed..];
    var rest := Resolved(Backlog(s'), fs[1..]);
    assert s.taken + ([Item(fs[0], true)] + rest) == s'.taken + rest;
  }

  lemma FifoInvKept(c: Config, s: State, step: Step)
    requires Enabled(c, s, step) && CountInv(c, s) && MemInv(c, s) && FifoInv(s)
    requires !c.drainAll || c.shape.slots == 1
    ensures Apply(c, s, step).consumed <= |Apply(c, s, step).ringed| && FifoInv(Apply(c, s, step))
    ensures step.Receive? && s.port[0].Signal? ==> s.consumed < |s.ringed|
  {
    match step
    case Publish => FifoAfterWrite(c, s, step);
    case PostSignal => FifoAfterWrite(c, s, step);
    case PostEnvelope => FifoAfterWrite(c, s, step);
    case Receive => FifoAfterReceive(c, s);
    case ReadPayload => FifoAfterRead(c, s);
    case _ =>
      assert Backlog(Apply(c, s, step)) == Backlog(s);
  }

  lemma {:induction false} FifoAfter(c: Config, program: seq<Frame>, s: State, steps: seq<Step>)
    requires !c.drainAll && Inv(c, program, s) && FifoInv(s) && Legal(c, s, steps)
    ensures Inv(c, program, Run(c, s, steps)) && FifoInv(Run(c, s, steps))
    decreases |steps|
  {
    if steps != [] {
      FifoInvKept(c, s, steps[0]);
      InvKept(c, program, s, steps[0]);
      FifoAfter(c, program, Apply(c, s, steps[0]), steps[1..]);
    }
  }

  /** Ring and port refine one FIFO: frames taken, then the backlog with each signal resolved to the next
      ring frame, are always the frames sent, and those are the program up to the frame in flight. */
  lemma PairIsFifo(c: Config, program: seq<Frame>, s: State)
    requires !c.drainAll && Reachable(c, program, s)
    ensures s.consumed <= |s.ringed|
    ensures s.taken + Resolved(Backlog(s), s.ringed[s.consumed..]) == s.sent
    ensures Frames(s.sent) + InFlight(s.writer) + s.todo == program
  {
    hide Initial, MemInv, LogInv, Resolved, Backlog;
    var s0, steps: seq<Step> :| Initial(c, s0, program) && Legal(c, s0, steps) && Run(c, s0, steps) == s;
    StartInv(c, program, s0);
    FifoAfter(c, program, s0, steps);
  }

  /** Once everything is handled the consumer has the responses in handler order and then Done, whatever
      mix of ring, full-ring fallback and oversized fallback carried them. */
  lemma DeliveredInOrderThenDone(c: Config, responses: seq<Frame>, done: Frame, s: State)
    requires !c.drainAll && Reachable(c, responses + [done], s) && Finished(s)
    ensures Frames(s.taken) == responses + [done]
  {
    PairIsFifo(c, responses + [done], s);
    assert Backlog(s) == [];
    assert s.taken + [] == s.taken;
    assert Frames(s.sent) + [] + [] == Frames(s.sent);
  }

  // ----- draining everything on each signal

  /** A published frame outside the current drain always has a signal coming. */
  ghost predicate WakeInv(s: State) {
    || s.consumed + Left(s.reader) == |s.ringed|
    || Signal in s.port
    || s.writer.Published?
  }

  lemma WakeInvKept(c: Config, s: State, step: Step)
    requires c.drainAll && Enabled(c, s, step) && CountInv(c, s) && WakeInv(s)
    ensures WakeInv(Apply(c, s, step))
  {
    var s' := Apply(c, s, step);
    if step.PostSignal? {
      assert s'.port[|s.port|] == Signal;
    } else if step.PostEnvelope? && Signal in s.port {
      var i :| 0 <= i < |s.port| && s.port[i] == Signal;
      assert s'.port[i] == Signal;
    }
  }

  lemma {:induction false} DrainAfter(c: Config, program: seq<Frame>, s: State, steps: seq<Step>)
    requires c.drainAll && Inv(c, program, s) && WakeInv(s) && Legal(c, s, steps)
    ensures Inv(c, program, Run(c, s, steps)) && WakeInv(Run(c, s, steps))
    decreases |steps|
  {
    if steps != [] {
      WakeInvKept(c, s, steps[0]);
      InvKept(c, program, s, steps[0]);
      DrainAfter(c, program, Apply(c, s, steps[0]), steps[1..]);
    }
  }

  lemma DrainHolds(c: Config, program: seq<Frame>, s: State)
    requires c.drainAll && Reachable(c, program, s)
    ensures Inv(c, program, s) && WakeInv(s)
  {
    var s0, steps: seq<Step> :| Initial(c, s0, program) && Legal(c, s0, steps) && Run(c, s0, steps) == s;
    DrainAfter(c, program, s0, steps);
  }

  /** Draining everything keeps the order of ring frames and the order of envelopes, and loses nothing:
      at the end both logs are complete. */
  lemma DrainKeepsBothOrders(c: Config, program: seq<Frame>, s: State)
    requires c.drainAll && Reachable(c, program, s)
    ensures Rings(s.taken) <= Rings(s.sent) && Envelopes(s.taken) <= Envelopes(s.sent)
    ensures Frames(s.sent) + InFlight(s.writer) + s.todo == program
    ensures Finished(s) ==> Rings(s.taken) == Rings(s.sent) && Envelopes(s.taken) == Envelopes(s.sent)
    ensures Finished(s) ==> |s.taken| == |s.sent| && Frames(s.sent) == program
  {
    DrainHolds(c, program, s);
    if Finished(s) {
      assert Envelopes(s.taken) + [] == Envelopes(s.taken);
      assert s.ringed[..|s.ringed|] == s.ringed;
      LogCounts(s.taken);
      LogCounts(s.sent);
      assert Frames(s.sent) + [] + [] == Frames(s.sent);
    }
  }

  lemma {:induction false} LogCounts(items: seq<Item>)
    ensures |Rings(items)| + |Envelopes(items)| == |items| == |Frames(items)|
  {
    if items != [] {
      LogCounts(items[..|items| - 1]);
    }
  }

  ghost function NonEmpty(fs: seq<Frame>): (n: nat)
    ensures n <= |fs|
    ensures n == |fs| <==> [] !in fs
  {
    if fs == [] then 0
    else
      assert fs == fs[..|fs| - 1] + [fs[|fs| - 1]];
      NonEmpty(fs[..|fs| - 1]) + if fs[|fs| - 1] != [] then 1 else 0
  }

  /** Any envelope, but ring frames only if not empty. */
  ghost function CountedFrames(items: seq<Item>): (n: nat)
    ensures n <= |items|
    ensures (forall i :: 0 <= i < |items| && items[i].viaRing ==> items[i].frame != []) ==> n == |items|
    ensures (exists i :: 0 <= i < |items| && items[i] == Item([], true)) ==> n < |items|
  {
    if items == [] then 0
    else
      var last := items[|items| - 1];
      CountedFrames(items[..|items| - 1]) + if last == Item([], true) then 0 else 1
  }

  /** The drain loop's own test on a slot agrees: it skips exactly the empty frames. */
  lemma SlotTestSkipsEmpty(mem: seq<byte>, shape: Shape, i: nat, frame: Frame)
    requires Usable(shape, |mem|) && i < shape.slots && Holds(Slot(mem, shape, i), frame)
    ensures Counted(mem, shape, i) <==> frame != []
  {
    SlotInBounds(shape, |mem|, i);
  }

  lemma {:induction false} NonEmptyFromFront(fs: seq<Frame>)
    requires fs != []
    ensures NonEmpty(fs) == (if fs[0] != [] then 1 else 0) + NonEmpty(fs[1..])
  {
    if |fs| > 1 {
      NonEmptyFromFront(fs[..|fs| - 1]);
      assert fs[..|fs| - 1][1..] == fs[1..][..|fs| - 2];
    } else {
      assert fs[..0] == [] == fs[1..];
    }
  }

  /** The slots from `read` on hold `frames`, in order. */
  ghost predicate HoldsAll(mem: seq<byte>, shape: Shape, read: nat, frames: seq<Frame>)
    requires Accepted(shape, |mem|) && read < shape.slots
    decreases |frames|
  {
    frames == [] ||
    (Holds(Slot(mem, shape, read), frames[0]) && HoldsAll(mem, shape, Next(read, shape.slots), frames[1..]))
  }

  /** So a whole drain counts the non-empty frames it passes. */
  lemma {:induction false} DrainCountsNonEmpty(mem: seq<byte>, shape: Shape, read: nat, frames: seq<Frame>)
    requires Usable(shape, |mem|) && read < shape.slots && HoldsAll(mem, shape, read, frames)
    ensures Tally(mem, shape, read, |frames|) == NonEmpty(frames)
    decreases |frames|
  {
    if frames != [] {
      SlotTestSkipsEmpty(mem, shape, read, frames[0]);
      NonEmptyFromFront(frames);
      DrainCountsNonEmpty(mem, shape, Next(read, shape.slots), frames[1..]);
    }
  }

  /** The page's counter, raised by the loop's test on each length word it reads and by each envelope. */
  ghost predicate PageInv(s: State) {
    s.frames == CountedFrames(s.taken)
  }

  /** The loop's test on the length word it has read skips exactly the empty frames. */
  lemma PassesIfNotEmpty(c: Config, s: State)
    requires Shaped(c, s) && CountInv(c, s) && MemInv(c, s) && s.reader.Sized?
    ensures Passes(c.shape, c.byteLength, s.read, s.reader.length) <==>
      Copied(Slot(s.mem, c.shape, s.read), s.reader.length) != []
  {
    CopiedIsWritten(c, s);
    SlotInBounds(c.shape, c.byteLength, s.read);
    hide Copied;
    assert s.reader.length == |s.ringed[s.consumed]|;
  }

  lemma PageInvKept(c: Config, s: State, step: Step)
    requires Enabled(c, s, step) && CountInv(c, s) && MemInv(c, s) && PageInv(s)
    ensures PageInv(Apply(c, s, step))
  {
    hide CountedFrames, MemInv, CountInv;
    if step.ReadPayload? {
      PassesIfNotEmpty(c, s);
      CountedSnoc(s.taken, Item(Copied(Slot(s.mem, c.shape, s.read), s.reader.length), true));
    } else if step.Receive? && s.port[0].Envelope? {
      CountedSnoc(s.taken, Item(s.port[0].frame, false));
    }
  }

  lemma CountedSnoc(items: seq<Item>, item: Item)
    ensures CountedFrames(items + [item]) == CountedFrames(items) + if item == Item([], true) then 0 else 1
  {
    assert (items + [item])[..|items|] == items;
  }

  lemma {:induction false} PageAfter(c: Config, program: seq<Frame>, s: State, steps: seq<Step>)
    requires c.drainAll && Inv(c, program, s) && PageInv(s) && Legal(c, s, steps)
    ensures PageInv(Run(c, s, steps))
    decreases |steps|
  {
    if steps != [] {
      PageInvKept(c, s, steps[0]);
      InvKept(c, program, s, steps[0]);
      PageAfter(c, program, Apply(c, s, steps[0]), steps[1..]);
    }
  }

  /** At every moment the page has counted the envelopes and the non-empty ring frames it has taken. */
  lemma PageCounts(c: Config, program: seq<Frame>, s: State)
    requires c.drainAll && Reachable(c, program, s)
    ensures s.frames == CountedFrames(s.taken)
  {
    var s0, steps: seq<Step> :| Initial(c, s0, program) && Legal(c, s0, steps) && Run(c, s0, steps) == s;
    StartInv(c, program, s0);
    PageAfter(c, program, s0, steps);
  }

  lemma {:induction false} RingItems(items: seq<Item>, i: nat)
    requires i < |items| && items[i].viaRing
    ensures items[i].frame in Rings(items)
  {
    if i < |items| - 1 {
      RingItems(items[..|items| - 1], i);
    }
  }

  lemma {:induction false} FramesContain(items: seq<Item>)
    ensures forall f :: f in Rings(items) ==> f in Frames(items)
  {
    if items != [] {
      FramesContain(items[..|items| - 1]);
    }
  }

  /** With no empty frame in the stream the count is complete at the end of every run. */
  lemma CountCompletes(c: Config, program: seq<Frame>, s: State)
    requires c.drainAll && Reachable(c, program, s) && Finished(s) && [] !in program
    ensures s.frames == |program|
  {
    PageCounts(c, program, s);
    DrainKeepsBothOrders(c, program, s);
    LogCounts(s.sent);
    FramesContain(s.sent);
    forall i: nat | i < |s.taken| && s.taken[i].viaRing
      ensures s.taken[i].frame != []
    {
      RingItems(s.taken, i);
    }
  }

  // ----- safety, for either consumer

  lemma ReachableInv(c: Config, program: seq<Frame>, s: State)
    requires Reachable(c, program, s)
    ensures Inv(c, program, s)
  {
    hide Inv, FifoInv;
    if c.drainAll {
      DrainHolds(c, program, s);
    } else {
      var s0, steps: seq<Step> :| Initial(c, s0, program) && Legal(c, s0, steps) && Run(c, s0, steps) == s;
      StartInv(c, program, s0);
      FifoAfter(c, program, s0, steps);
    }
  }

  lemma StartInv(c: Config, program: seq<Frame>, s: State)
    requires Initial(c, s, program)
    ensures Inv(c, program, s) && FifoInv(s) && WakeInv(s) && PageInv(s)
  {
    assert [] + [] + program == program;
  }

  lemma WrittenSlotIsFree(c: Config, s: State)
    requires Shaped(c, s) && CountInv(c, s) && InSlot(s.writer)
    ensures forall k: nat :: s.released <= k < |s.ringed| ==> k % c.shape.slots != s.cursor
  {
    hide CountInv;
    forall k: nat | s.released <= k < |s.ringed|
      ensures k % c.shape.slots != s.cursor
    {
      StoresKeepUnread(c, s, k);
      SlotOfIsRemainder(k, c.shape.slots);
    }
  }

  /** The counter stays within the ring, cursors are the frame counts modulo the slots, the slot being
      written is none of those the consumer has yet to release, and what is read is what was written. */
  lemma RingIsSafe(c: Config, program: seq<Frame>, s: State)
    requires Reachable(c, program, s)
    ensures Shaped(c, s)
    ensures 0 <= s.used <= c.shape.slots && s.used == |s.ringed| - s.released
    ensures s.cursor == |s.ringed| % c.shape.slots && s.read == s.consumed % c.shape.slots
    ensures InSlot(s.writer) ==>
      forall k: nat :: s.released <= k < |s.ringed| ==> k % c.shape.slots != s.cursor
    ensures s.reader.Sized? ==>
      s.consumed < |s.ringed| && Copied(Slot(s.mem, c.shape, s.read), s.reader.length) == s.ringed[s.consumed]
  {
    hide Copied, Slot, SlotOf;
    ReachableInv(c, program, s);
    SlotOfIsRemainder(|s.ringed|, c.shape.slots);
    SlotOfIsRemainder(s.consumed, c.shape.slots);
    if InSlot(s.writer) {
      WrittenSlotIsFree(c, s);
    }
    if s.reader.Sized? {
      CopiedIsWritten(c, s);
    }
  }
}
