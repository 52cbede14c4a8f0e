/** When draining the whole ring on each signal can reorder: exactly for the streams in which some frame
    between two ring-sized frames may have to travel as an envelope. */
module RingOrder {
  import opened SharedRing
  import opened RingRuns
  import opened RingResults

  ghost function FittingBefore(c: Config, program: seq<Frame>, i: nat): (n: nat)
    requires i <= |program|
    ensures n <= i
  {
    if i == 0 then 0 else FittingBefore(c, program, i - 1) + if Fits(c, program[i - 1]) then 1 else 0
  }

  /** Frame `i` may find no room: it is too large, or enough frames come before it to fill the ring. */
  ghost predicate MayFallBack(c: Config, program: seq<Frame>, i: nat)
    requires i < |program|
  {
    !Fits(c, program[i]) || FittingBefore(c, program, i) >= c.shape.slots
  }

  ghost predicate Sandwiched(c: Config, program: seq<Frame>, h: nat, i: nat, j: nat) {
    && h < i < j < |program|
    && Fits(c, program[h]) && MayFallBack(c, program, i) && Fits(c, program[j])
  }

  /** Checkable before the stream starts, from the frame sizes and the ring's shape alone. */
  ghost predicate Reorderable(c: Config, program: seq<Frame>) {
    c.shape.slots >= 2 && exists h: nat, i: nat, j: nat :: Sandwiched(c, program, h, i, j)
  }

  // ----- streams that stay in order

  lemma {:induction false} FramesAt(items: seq<Item>, i: nat)
    requires i < |items|
    ensures |Frames(items)| == |items| && Frames(items)[i] == items[i].frame
  {
    LogCounts(items);
    if i < |items| - 1 {
      FramesAt(items[..|items| - 1], i);
    } else {
      LogCounts(items[..|items| - 1]);
    }
  }

  /** What went through the ring fits, and what did not either does not fit or met a full ring. */
  ghost predicate ViaInv(c: Config, s: State) {
    && (forall i: nat :: i < |s.sent| && s.sent[i].viaRing ==> Fits(c, s.sent[i].frame))
    && (forall i: nat :: i < |s.sent| && !s.sent[i].viaRing ==>
          !Fits(c, s.sent[i].frame) || |Rings(s.sent[..i])| >= c.shape.slots)
    && (s.writer.Falling? ==> !Fits(c, s.writer.frame) || |s.ringed| >= c.shape.slots)
  }

  lemma ViaInvKept(c: Config, program: seq<Frame>, s: State, step: Step)
    requires Enabled(c, s, step) && Inv(c, program, s) && ViaInv(c, s)
    ensures ViaInv(c, Apply(c, s, step))
  {
    var s' := Apply(c, s, step);
    if step.Publish? || step.PostEnvelope? {
      assert s'.sent[..|s.sent|] == s.sent;
      forall i: nat | i < |s.sent|
        ensures s'.sent[i] == s.sent[i] && s'.sent[..i] == s.sent[..i]
      {
      }
    }
  }

  lemma {:induction false} RingsAreFitting(c: Config, items: seq<Item>, program: seq<Frame>, i: nat)
    requires i <= |items| <= |program|
    requires forall k: nat :: k < |items| ==> items[k].frame == program[k]
    requires forall k: nat :: k < |items| && items[k].viaRing ==> Fits(c, items[k].frame)
    ensures |Rings(items[..i])| <= FittingBefore(c, program, i)
  {
    if i > 0 {
      RingsAreFitting(c, items, program, i - 1);
      assert items[..i][..i - 1] == items[..i - 1];
    }
  }

  ghost predicate RingEnvelopeRing(items: seq<Item>, h: nat, i: nat, j: nat) {
    h < i < j < |items| && items[h].viaRing && !items[i].viaRing && items[j].viaRing
  }

  /** A ring frame, an envelope and a ring frame in this order make the stream sandwiched. */
  lemma SandwichShows(c: Config, program: seq<Frame>, s: State, h: nat, i: nat, j: nat)
    requires Inv(c, program, s) && ViaInv(c, s) && RingEnvelopeRing(s.sent, h, i, j)
    ensures Sandwiched(c, program, h, i, j)
  {
    LogCounts(s.sent);
    forall k: nat | k < |s.sent|
      ensures s.sent[k].frame == program[k]
    {
      FramesAt(s.sent, k);
      assert program[..|s.sent|] == Frames(s.sent);
    }
    RingsAreFitting(c, s.sent, program, i);
  }

  ghost predicate Unmixed(s: State) {
    forall h: nat, i: nat, j: nat :: !RingEnvelopeRing(s.sent, h, i, j)
  }

  /** How many items were sent before the first ring frame. */
  ghost function Lead(items: seq<Item>): (n: nat)
    ensures n <= |items|
    ensures forall i :: 0 <= i < n ==> !items[i].viaRing
    ensures n < |items| ==> items[n].viaRing
  {
    if items == [] || items[0].viaRing then 0 else 1 + Lead(items[1..])
  }

  lemma {:induction false} LeadSnoc(items: seq<Item>, item: Item)
    ensures Lead(items + [item]) ==
      if Lead(items) == |items| && !item.viaRing then |items| + 1 else Lead(items)
  {
    if items != [] && !items[0].viaRing {
      LeadSnoc(items[1..], item);
      assert (items + [item])[1..] == items[1..] + [item];
    } else if items == [] {
      assert items + [item] == [item];
      assert Lead([item][1..]) == 0;
    }
  }

  /** Taken so far is a prefix of sent; the leading envelopes are at the front of the port until taken; and
      after them no envelope is ahead of a signal. */
  ghost predicate OrderInv(s: State) {
    var lead := Lead(s.sent);
    && s.taken <= s.sent
    && (|s.taken| < lead ==>
          s.reader.Idle? && lead - |s.taken| <= |s.port|
          && forall i :: 0 <= i < lead - |s.taken| ==> s.port[i].Envelope?)
    && (lead == |s.sent| ==> |s.port| == |s.sent| - |s.taken| && s.reader.Idle? && !s.writer.Published?)
    && (forall i, j :: 0 <= i < j < |s.port| && s.port[i].Envelope? && s.port[j].Signal? ==> i < lead - |s.taken|)
    && (s.writer.Published? ==> s.sent != [] && s.sent[|s.sent| - 1].viaRing)
  }

  lemma {:induction false} RingsOfPrefix(items: seq<Item>, n: nat)
    requires n <= |items|
    ensures Rings(items[..n]) <= Rings(items) && Envelopes(items[..n]) <= Envelopes(items)
    ensures n < |items| && items[n].viaRing ==>
      |Rings(items[..n])| < |Rings(items)| && Rings(items)[|Rings(items[..n])|] == items[n].frame
    ensures n < |items| && !items[n].viaRing ==>
      |Envelopes(items[..n])| < |Envelopes(items)| && Envelopes(items)[|Envelopes(items[..n])|] == items[n].frame
    decreases |items| - n
  {
    if n == |items| {
      assert items[..n] == items;
    } else {
      RingsOfPrefix(items, n + 1);
      assert items[..n + 1] == items[..n] + [items[n]];
      LogSnoc(items[..n], items[n]);
    }
  }

  /** If a prefix has fewer items of a kind than the whole, the rest has one. */
  lemma {:induction false} SomeLater(items: seq<Item>, n: nat) returns (ring: nat, envelope: nat)
    requires n <= |items|
    ensures |Rings(items[..n])| < |Rings(items)| ==> n <= ring < |items| && items[ring].viaRing
    ensures |Envelopes(items[..n])| < |Envelopes(items)| ==> n <= envelope < |items| && !items[envelope].viaRing
    decreases |items| - n
  {
    if n == |items| {
      assert items[..n] == items;
      ring, envelope := 0, 0;
    } else {
      ring, envelope := SomeLater(items, n + 1);
      assert items[..n + 1] == items[..n] + [items[n]];
      LogSnoc(items[..n], items[n]);
      if items[n].viaRing {
        ring := n;
      } else {
        envelope := n;
      }
    }
  }

  ghost predicate Ordering(c: Config, program: seq<Frame>, s: State) {
    c.drainAll && Inv(c, program, s) && WakeInv(s) && OrderInv(s)
  }

  /** The next unread ring frame is the oldest item not taken yet. */
  lemma UnreadFrameIsNext(s: State)
    requires s.consumed < |s.ringed| && LogInv(s) && OrderInv(s) && !s.reader.Idle? && Unmixed(s)
    ensures |s.taken| < |s.sent| && s.sent[|s.taken|] == Item(s.ringed[s.consumed], true)
  {
    var t := |s.taken|;
    assert s.taken == s.sent[..t];
    assert |Rings(s.taken)| < |Rings(s.sent)|;
    var ring, _ := SomeLater(s.sent, t);
    assert RingEnvelopeRing(s.sent, Lead(s.sent), t, ring) || s.sent[t].viaRing;
    RingsOfPrefix(s.sent, t);
  }

  lemma OrderAfterRead(c: Config, program: seq<Frame>, s: State)
    requires Ordering(c, program, s) && Enabled(c, s, ReadPayload) && Unmixed(s)
    ensures OrderInv(Apply(c, s, ReadPayload))
  {
    UnreadFrameIsNext(s);
    CopiedIsWritten(c, s);
    assert Apply(c, s, ReadPayload).taken == s.sent[..|s.taken| + 1];
  }

  /** An envelope at the front of the port is the oldest item not taken yet. */
  lemma FrontEnvelopeIsNext(s: State)
    requires s.consumed <= |s.ringed| && LogInv(s) && OrderInv(s) && WakeInv(s) && Unmixed(s)
    requires s.reader.Idle? && s.port != [] && s.port[0].Envelope?
    ensures |s.taken| < |s.sent| && s.sent[|s.taken|] == Item(s.port[0].frame, false)
  {
    var t := |s.taken|;
    assert s.taken == s.sent[..t];
    assert Posted(s.port)[0] == s.port[0].frame;
    assert |Envelopes(s.taken)| < |Envelopes(s.sent)|;
    var _, e := SomeLater(s.sent, t);
    RingsOfPrefix(s.sent, t);
    if s.sent[t].viaRing {
      if s.writer.Published? {
        assert RingEnvelopeRing(s.sent, t, e, |s.sent| - 1);
      }
    }
    assert Envelopes(s.sent)[|Envelopes(s.taken)|] == Posted(s.port)[0];
  }

  lemma OrderAfterReceive(c: Config, program: seq<Frame>, s: State)
    requires Ordering(c, program, s) && Enabled(c, s, Receive) && Unmixed(s)
    ensures OrderInv(Apply(c, s, Receive))
  {
    var s' := Apply(c, s, Receive);
    if s.port[0].Envelope? {
      FrontEnvelopeIsNext(s);
      assert s'.taken == s.sent[..|s.taken| + 1];
    }
    forall i, j | 0 <= i < j < |s'.port| && s'.port[i].Envelope? && s'.port[j].Signal?
      ensures i < Lead(s'.sent) - |s'.taken|
    {
      assert s.port[i + 1].Envelope? && s.port[j + 1].Signal?;
    }
  }

  lemma {:induction false} PostedCount(port: seq<Message>, k: nat, i: nat)
    requires k <= i < |port| && port[i].Envelope?
    requires forall m :: 0 <= m < k ==> port[m].Envelope?
    ensures |Posted(port)| > k
  {
    if i > 0 {
      PostedCount(port[1..], if k == 0 then 0 else k - 1, i - 1);
    }
  }

  /** When the newest item went through the ring, every envelope was sent before the first ring frame. */
  lemma {:induction false} EnvelopesAreLeading(items: seq<Item>, n: nat)
    requires n <= |items|
    requires forall e :: Lead(items) <= e < |items| ==> items[e].viaRing
    ensures |Envelopes(items[..n])| == if n < Lead(items) then n else Lead(items)
  {
    if n > 0 {
      EnvelopesAreLeading(items, n - 1);
      assert items[..n] == items[..n - 1] + [items[n - 1]];
      LogSnoc(items[..n - 1], items[n - 1]);
    }
  }

  /** While a signal is about to be posted, only envelopes sent before the first ring frame are unread. */
  lemma OnlyLeadingEnvelopes(c: Config, program: seq<Frame>, s: State, i: nat)
    requires Ordering(c, program, s) && s.writer.Published? && Unmixed(s) && i < |s.port| && s.port[i].Envelope?
    ensures i < Lead(s.sent) - |s.taken|
  {
    var lead, t, last := Lead(s.sent), |s.taken|, |s.sent| - 1;
    forall e | lead <= e < |s.sent|
      ensures s.sent[e].viaRing
    {
      assert RingEnvelopeRing(s.sent, lead, e, last) || s.sent[e].viaRing;
    }
    EnvelopesAreLeading(s.sent, |s.sent|);
    EnvelopesAreLeading(s.sent, t);
    assert s.sent[..|s.sent|] == s.sent && s.sent[..t] == s.taken;
    if i >= lead - t {
      PostedCount(s.port, if lead >= t then lead - t else 0, i);
    }
  }

  lemma OrderAfterSignal(c: Config, program: seq<Frame>, s: State)
    requires Ordering(c, program, s) && Enabled(c, s, PostSignal) && Unmixed(s)
    ensures OrderInv(Apply(c, s, PostSignal))
  {
    forall i: nat | i < |s.port| && s.port[i].Envelope?
      ensures i < Lead(s.sent) - |s.taken|
    {
      OnlyLeadingEnvelopes(c, program, s, i);
    }
  }

  lemma OrderAfterSend(c: Config, program: seq<Frame>, s: State, step: Step)
    requires Ordering(c, program, s) && Enabled(c, s, step) && (step.Publish? || step.PostEnvelope?)
    ensures OrderInv(Apply(c, s, step))
  {
    LeadSnoc(s.sent, Item(s.writer.frame, step.Publish?));
  }

  lemma OrderInvKept(c: Config, program: seq<Frame>, s: State, step: Step)
    requires Ordering(c, program, s) && Enabled(c, s, step) && Unmixed(s)
    ensures OrderInv(Apply(c, s, step))
  {
    hide Lead, Inv, WakeInv;
    match step
    case ReadPayload => OrderAfterRead(c, program, s);
    case Receive => OrderAfterReceive(c, program, s);
    case PostSignal => OrderAfterSignal(c, program, s);
    case Publish => OrderAfterSend(c, program, s, step);
    case PostEnvelope => OrderAfterSend(c, program, s, step);
    case _ =>
  }

  lemma UnmixedUnlessReorderable(c: Config, program: seq<Frame>, s: State)
    requires Inv(c, program, s) && ViaInv(c, s) && c.shape.slots >= 2 && !Reorderable(c, program)
    ensures Unmixed(s)
  {
    forall h: nat, i: nat, j: nat | RingEnvelopeRing(s.sent, h, i, j)
      ensures false
    {
      SandwichShows(c, program, s, h, i, j);
    }
  }

  /** What has been sent stays sent, in the order sent. */
  lemma {:induction false} SentGrows(c: Config, s: State, steps: seq<Step>)
    requires Legal(c, s, steps)
    ensures s.sent <= Run(c, s, steps).sent
    decreases |steps|
  {
    if steps != [] {
      SentGrows(c, Apply(c, s, steps[0]), steps[1..]);
    }
  }

  /** So no state before an unmixed one is mixed. */
  lemma UnmixedBefore(c: Config, s: State, steps: seq<Step>)
    requires Legal(c, s, steps) && Unmixed(Run(c, s, steps))
    ensures Unmixed(s)
  {
    SentGrows(c, s, steps);
    forall h: nat, i: nat, j: nat
      ensures !RingEnvelopeRing(s.sent, h, i, j)
    {
      assert !RingEnvelopeRing(Run(c, s, steps).sent, h, i, j);
    }
  }

  lemma {:induction false} OrderAfter(c: Config, program: seq<Frame>, s: State, steps: seq<Step>)
    requires Ordering(c, program, s) && Legal(c, s, steps) && Unmixed(Run(c, s, steps))
    ensures OrderInv(Run(c, s, steps))
    decreases |steps|
  {
    if steps != [] {
      UnmixedBefore(c, s, steps);
      OrderInvKept(c, program, s, steps[0]);
      WakeInvKept(c, s, steps[0]);
      InvKept(c, program, s, steps[0]);
      OrderAfter(c, program, Apply(c, s, steps[0]), steps[1..]);
    }
  }

  /** Drain-all keeps total order on every run in which no envelope was sent between two ring frames,
      whatever the stream. */
  lemma UnmixedRunsKeepOrder(c: Config, program: seq<Frame>, s: State)
    requires c.drainAll && Reachable(c, program, s) && Unmixed(s)
    ensures s.taken <= s.sent
  {
    var s0, steps: seq<Step> :| Initial(c, s0, program) && Legal(c, s0, steps) && Run(c, s0, steps) == s;
    StartInv(c, program, s0);
    OrderAfter(c, program, s0, steps);
  }

  /** In particular, a run that never fell back is delivered in the order sent, and at its end in full. */
  lemma NoFallbackKeepsOrder(c: Config, program: seq<Frame>, s: State)
    requires c.drainAll && Reachable(c, program, s)
    requires forall i: nat :: i < |s.sent| ==> s.sent[i].viaRing
    ensures s.taken <= s.sent
    ensures Finished(s) ==> Frames(s.taken) == program
  {
    UnmixedRunsKeepOrder(c, program, s);
    DrainKeepsBothOrders(c, program, s);
    assert Finished(s) ==> s.taken == s.sent;
  }

  lemma {:induction false} ViaInvAfter(c: Config, program: seq<Frame>, s: State, steps: seq<Step>)
    requires c.drainAll && Inv(c, program, s) && ViaInv(c, s) && Legal(c, s, steps)
    ensures Inv(c, program, Run(c, s, steps)) && ViaInv(c, Run(c, s, steps))
    decreases |steps|
  {
    if steps != [] {
      ViaInvKept(c, program, s, steps[0]);
      InvKept(c, program, s, steps[0]);
      ViaInvAfter(c, program, Apply(c, s, steps[0]), steps[1..]);
    }
  }

  /** With a single slot a drain takes one frame, so the FIFO argument of the other consumer applies. */
  lemma {:induction false} SingleSlotAfter(c: Config, program: seq<Frame>, s: State, steps: seq<Step>)
    requires c.drainAll && c.shape.slots == 1 && Inv(c, program, s) && FifoInv(s) && Legal(c, s, steps)
    ensures Inv(c, program, Run(c, s, steps)) && FifoInv(Run(c, s, steps))
    decreases |steps|
  {
    if steps != [] {
      FifoInvKept(c, s, steps[0]);
      InvKept(c, program, s, steps[0]);
      SingleSlotAfter(c, program, Apply(c, s, steps[0]), steps[1..]);
    }
  }

  /** For streams that are not reorderable every run is unmixed, or the ring has a single slot. */
  lemma InOrderUnlessReorderable(c: Config, program: seq<Frame>, s: State)
    requires c.drainAll && Reachable(c, program, s) && !Reorderable(c, program)
    ensures s.taken <= s.sent
  {
    var s0, steps: seq<Step> :| Initial(c, s0, program) && Legal(c, s0, steps) && Run(c, s0, steps) == s;
    StartInv(c, program, s0);
    if c.shape.slots == 1 {
      SingleSlotAfter(c, program, s0, steps);
    } else {
      ViaInvAfter(c, program, s0, steps);
      UnmixedUnlessReorderable(c, program, s);
      UnmixedRunsKeepOrder(c, program, s);
    }
  }
}
