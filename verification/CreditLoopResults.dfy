/** What the credit loop guarantees in every reachable state. */
module CreditLoopResults {
  import opened CreditLoop
  import opened Backpressure
  import G = GateRuns
  import B = BackpressureRuns

  /** Items let through by the gate and not yet drained by the consumer's pump. */
  ghost function Undrained(s: Loop): nat {
    |s.holding| + |s.transit| + |s.flow.pending|
  }

  ghost function Travelling(s: Loop): nat {
    B.Sum(s.network) + s.buffered + Carried(s) + B.Sum(s.lookedUp)
  }

  lemma AcquiredSplits(sys: G.System)
    ensures |Acquired(sys)| == |G.Credited(sys)| + |Unlimited(sys)|
  {
    assert Acquired(sys) == G.Credited(sys) + Unlimited(sys);
    assert G.Credited(sys) !! Unlimited(sys);
  }

  lemma InvConserves(p: Policy, w: nat, s: Loop)
    requires Configured(p, w) && Inv(p, w, s)
    ensures w + |Unlimited(s.sys)| >= s.sys.gate.credits + Travelling(s) + Undrained(s)
    ensures !s.flow.closed ==> w + |Unlimited(s.sys)| == s.sys.gate.credits + Travelling(s) + Undrained(s)
  {
    AcquiredSplits(s.sys);
    assert |s.sent| == |s.flow.delivered| + |s.flow.pending| + |s.transit|;
  }

  /** Conservation: the window plus the acquisitions made while unbounded is what the gate has left, what
      travels towards it, and the items on their way to the consumer. Once the source is done its last items
      go out unreported, and the credits and items left can only be fewer. */
  lemma Conservation(p: Policy, w: nat, s: Loop)
    requires Configured(p, w) && Reachable(p, w, s)
    ensures w + |Unlimited(s.sys)| >= s.sys.gate.credits + Travelling(s) + Undrained(s)
    ensures !s.flow.closed ==> w + |Unlimited(s.sys)| == s.sys.gate.credits + Travelling(s) + Undrained(s)
    ensures s.sys.gate.credits >= 0
  {
    InvHolds(p, w, s);
    InvConserves(p, w, s);
  }

  /** Items reach the consumer's controller in the order sent, none lost, none twice; the rest wait. */
  lemma StreamIsLossless(p: Policy, w: nat, s: Loop)
    requires Configured(p, w) && Reachable(p, w, s)
    ensures s.sent == s.flow.delivered + s.flow.pending + s.transit
    ensures |s.flow.pending| <= p.bufferSize
    ensures s.flow.paused <==> |s.flow.pending| == p.bufferSize
  {
    InvHolds(p, w, s);
  }

  // ----- the window as a bound

  lemma SeededBound(p: Policy, w: nat, s: Loop)
    requires Configured(p, w) && Inv(p, w, s) && s.seeded
    ensures Undrained(s) <= w
  {
    InvConserves(p, w, s);
    assert |Unlimited(s.sys)| == 0;
  }

  lemma {:induction false} SeededStays(p: Policy, s: Loop, steps: seq<Step>)
    requires Legal(p, s, steps) && !s.stage.Unregistered?
    ensures Run(p, s, steps).seeded == s.seeded
    decreases |steps|
  {
    if steps != [] {
      SeededStays(p, Apply(p, s, steps[0]), steps[1..]);
    }
  }

  lemma {:induction false} RunConcat(p: Policy, s: Loop, a: seq<Step>, b: seq<Step>)
    requires Legal(p, s, a) && Legal(p, Run(p, s, a), b)
    ensures Legal(p, s, a + b) && Run(p, s, a + b) == Run(p, Run(p, s, a), b)
    decreases |a|
  {
    hide Enabled, Apply;
    if a == [] {
      assert a + b == b;
    } else {
      RunConcat(p, Apply(p, s, a[0]), a[1..], b);
      assert (a + b)[1..] == a[1..] + b;
    }
  }

  /** A live, still unbounded gate through which calls 0 to n-1 have passed and sent nothing yet. */
  ghost predicate Overrun(s: Loop, n: nat) {
    && s.stage.Live? && !s.sys.gate.bounded
    && |s.holding| == n
    && (forall c: nat :: c in s.sys.calls || c in s.holding ==> c < n)
  }

  lemma EnterKeepsOverrun(p: Policy, s: Loop, n: nat)
    requires Overrun(s, n)
    ensures Enabled(p, s, Producer(G.Enter(n)))
    ensures
      var s' := Apply(p, s, Producer(G.Enter(n)));
      && s'.stage.Live? && !s'.sys.gate.bounded && s'.holding == s.holding
      && s'.sys.calls == s.sys.calls[n := G.Trying]
  {
    assert Acquired(G.Apply(s.sys, G.Enter(n))) == Acquired(s.sys);
  }

  lemma TryOverruns(p: Policy, s: Loop, n: nat)
    requires s.stage.Live? && !s.sys.gate.bounded && G.IsTrying(s.sys, n)
    requires |s.holding| == n && (forall c: nat :: c in s.sys.calls ==> c <= n)
    requires (forall c: nat :: c in s.holding ==> c < n)
    ensures Enabled(p, s, Producer(G.Try(n))) && Overrun(Apply(p, s, Producer(G.Try(n))), n + 1)
  {
    var sys' := G.Apply(s.sys, G.Try(n));
    assert Acquired(sys') == Acquired(s.sys) + {n};
    assert Apply(p, s, Producer(G.Try(n))).holding == s.holding + {n};
  }

  lemma OneMore(p: Policy, s: Loop, n: nat)
    requires Overrun(s, n)
    ensures
      var pass := [Producer(G.Enter(n)), Producer(G.Try(n))];
      Legal(p, s, pass) && Overrun(Run(p, s, pass), n + 1)
  {
    EnterKeepsOverrun(p, s, n);
    var s1 := Apply(p, s, Producer(G.Enter(n)));
    TryOverruns(p, s1, n);
    hide Apply, Enabled;
    var s2 := Apply(p, s1, Producer(G.Try(n)));
    var rest := [Producer(G.Try(n))];
    var pass := [Producer(G.Enter(n)), Producer(G.Try(n))];
    assert pass[1..] == rest && rest[1..] == [];
    assert Legal(p, s2, []) && Legal(p, s1, rest) && Legal(p, s, pass);
    assert Run(p, s, pass) == Run(p, s1, rest) == Run(p, s2, []) == s2;
  }

  lemma {:induction false} OverrunBy(p: Policy, s: Loop, n: nat) returns (steps: seq<Step>)
    requires Overrun(s, 0)
    ensures Legal(p, s, steps) && Overrun(Run(p, s, steps), n)
  {
    if n == 0 {
      steps := [];
    } else {
      var before := OverrunBy(p, s, n - 1);
      OneMore(p, Run(p, s, before), n - 1);
      var pass := [Producer(G.Enter(n - 1)), Producer(G.Try(n - 1))];
      RunConcat(p, s, before, pass);
      steps := before + pass;
    }
  }

  ghost predicate WithinWindow(p: Policy, w: nat, s: Loop) {
    forall steps: seq<Step> :: Legal(p, s, steps) ==> Undrained(Run(p, s, steps)) <= w
  }

  lemma SeededStaysWithin(p: Policy, w: nat, s: Loop)
    requires Configured(p, w) && Inv(p, w, s) && s.seeded && !s.stage.Unregistered?
    ensures WithinWindow(p, w, s)
  {
    hide Inv;
    forall steps: seq<Step> | Legal(p, s, steps)
      ensures Undrained(Run(p, s, steps)) <= w
    {
      InvAfter(p, w, s, steps);
      SeededStays(p, s, steps);
      SeededBound(p, w, Run(p, s, steps));
    }
  }

  lemma UnseededOverruns(p: Policy, w: nat, s: Loop)
    requires s.stage == Registering(0) && !s.sys.gate.bounded && s.sys.calls == map[] && s.holding == {}
    ensures !WithinWindow(p, w, s)
  {
    var s' := Apply(p, s, FinishRegister);
    assert Overrun(s', 0);
    var more := OverrunBy(p, s', w + 1);
    var steps := [FinishRegister] + more;
    assert steps[1..] == more;
    assert Undrained(Run(p, s, steps)) > w;
  }

  /** The window bounds the undrained items of every continuation exactly when credits were already
      buffered for the port at the moment its gate was registered. */
  lemma WindowBoundsIffSeeded(p: Policy, w: nat, s: Loop)
    requires Configured(p, w) && Reachable(p, w, s) && s.stage.Unregistered?
    ensures WithinWindow(p, w, Apply(p, s, Register)) <==> s.buffered > 0
  {
    InvHolds(p, w, s);
    InvKept(p, w, s, Register);
    if s.buffered > 0 {
      SeededStaysWithin(p, w, Apply(p, s, Register));
    } else {
      assert Acquired(s.sys) == {};
      assert s.holding == {};
      UnseededOverruns(p, w, Apply(p, s, Register));
    }
  }

  // ----- no deadlock, no starvation

  /** Steps of the system itself: no new call, no cancellation, no consumer decision, no shutdown. */
  predicate Productive(step: Step) {
    match step
    case Arrive(_) => true
    case AddLooked(_) => true
    case FinishRegister => true
    case Producer(g) => g.Try? || g.Resume? || g.Leave? || g.Wake?
    case Send(_) => true
    case Deliver => true
    case _ => false
  }

  ghost function Open(sys: G.System): set<Call> {
    set c | c in sys.calls && !sys.calls[c].Ended?
  }

  ghost predicate Flowing(p: Policy, w: nat, s: Loop) {
    Configured(p, w) && Inv(p, w, s) && s.stage.Live? && !s.flow.held && !s.flow.cancelled
  }

  /** While the handler runs and the consumer neither paused nor left, an unfinished `Acquire` never faces a
      standstill: some step of the system itself is enabled. */
  lemma SomeStep(p: Policy, w: nat, s: Loop, c: Call) returns (step: Step)
    requires Flowing(p, w, s) && c in Open(s.sys)
    ensures Productive(step) && Enabled(p, s, step)
  {
    match s.sys.calls[c]
    case Trying => step := Producer(G.Try(c));
    case Leaving(_) => step := Producer(G.Leave(c));
    case Blocked(ch) =>
      assert G.WaitsOn(s.sys, c, ch);
      if ch in s.sys.shut {
        step := Producer(G.Resume(c));
      } else if ch in s.sys.waking {
        step := Producer(G.Wake(ch));
      } else {
        InvConserves(p, w, s);
        if s.network != [] {
          step := Arrive(0);
        } else if s.lookedUp != [] {
          step := AddLooked(0);
        } else if s.holding != {} {
          var held :| held in s.holding;
          step := Send(held);
        } else {
          step := Deliver;
        }
      }
  }

  lemma NoDeadlock(p: Policy, w: nat, s: Loop, c: Call)
    requires Configured(p, w) && Reachable(p, w, s) && s.stage.Live? && !s.flow.held && !s.flow.cancelled
    requires c in Open(s.sys)
    ensures exists step :: Productive(step) && Enabled(p, s, step)
  {
    InvHolds(p, w, s);
    var step := SomeStep(p, w, s, c);
  }

  // A measure that every productive step decreases: open calls first, then how far items and credits
  // still have to travel, then how far woken calls are from trying again.

  ghost function Distance(s: Loop): nat {
    4 * |s.holding| + 3 * |s.transit| + 2 * |s.network| + |s.lookedUp|
  }

  ghost function TryingCalls(sys: G.System): set<Call> {
    set c | c in sys.calls && sys.calls[c].Trying?
  }

  ghost function WokenCalls(sys: G.System): set<Call> {
    set c | c in sys.calls && sys.calls[c].Blocked? && sys.calls[c].w in sys.shut
  }

  ghost function Wakefulness(sys: G.System): nat {
    3 * |sys.waking| + 2 * |WokenCalls(sys)| + |TryingCalls(sys)|
  }

  ghost predicate Closer(s': Loop, s: Loop) {
    || |Open(s'.sys)| < |Open(s.sys)|
    || (|Open(s'.sys)| == |Open(s.sys)| &&
        (Distance(s') < Distance(s) || (Distance(s') == Distance(s) && Wakefulness(s'.sys) < Wakefulness(s.sys))))
  }

  lemma WakeIsCloser(sys: G.System, w: G.Chan)
    requires G.Inv(sys) && G.Enabled(sys, G.Wake(w))
    ensures Wakefulness(G.Apply(sys, G.Wake(w))) < Wakefulness(sys)
  {
    var sys' := G.Apply(sys, G.Wake(w));
    assert TryingCalls(sys') == TryingCalls(sys);
    var c := sys.owners[w];
    forall x | x in WokenCalls(sys') && x !in WokenCalls(sys)
      ensures x == c
    {
      assert G.WaitsOn(sys, x, w);
    }
    Smaller(WokenCalls(sys'), WokenCalls(sys) + {c});
    assert |sys'.waking| == |sys.waking| - 1;
  }

  lemma ResumeIsCloser(sys: G.System, c: Call)
    requires G.Enabled(sys, G.Resume(c))
    ensures Wakefulness(G.Apply(sys, G.Resume(c))) < Wakefulness(sys)
  {
    var sys' := G.Apply(sys, G.Resume(c));
    assert TryingCalls(sys') == TryingCalls(sys) + {c};
    assert WokenCalls(sys') == WokenCalls(sys) - {c};
  }

  lemma ParkingIsCloser(sys: G.System, c: Call)
    requires G.ChannelInv(sys) && G.Enabled(sys, G.Try(c)) && !G.Apply(sys, G.Try(c)).calls[c].Ended?
    ensures Wakefulness(G.Apply(sys, G.Try(c))) < Wakefulness(sys)
  {
    var sys' := G.Apply(sys, G.Try(c));
    assert TryingCalls(sys') == TryingCalls(sys) - {c};
    assert WokenCalls(sys') == WokenCalls(sys);
  }

  /** A wake-up, a resumption or a fresh attempt ends a call or brings one closer to its next attempt. */
  lemma GateStepIsCloser(sys: G.System, g: G.Step)
    requires G.Inv(sys) && G.Enabled(sys, g) && (g.Try? || g.Resume? || g.Leave? || g.Wake?)
    ensures
      var sys' := G.Apply(sys, g);
      || |Open(sys')| < |Open(sys)|
      || (Open(sys') == Open(sys) && Acquired(sys') == Acquired(sys) && Wakefulness(sys') < Wakefulness(sys))
  {
    if g.Wake? {
      WakeIsCloser(sys, g.w);
    } else if g.Resume? {
      ResumeIsCloser(sys, g.c);
    } else if G.Apply(sys, g).calls[g.c].Ended? {
      assert Open(G.Apply(sys, g)) == Open(sys) - {g.c};
    } else {
      ParkingIsCloser(sys, g.c);
    }
  }

  lemma Smaller<T>(a: set<T>, b: set<T>)
    requires a <= b
    ensures |a| <= |b|
  {
    if a != b {
      assert |b - a| == |b| - |a|;
    }
  }

  lemma DeliveryIsCloser(p: Policy, w: nat, s: Loop)
    requires Flowing(p, w, s) && Enabled(p, s, Deliver)
    ensures Distance(Apply(p, s, Deliver)) < Distance(s)
  {
    var s' := Apply(p, s, Deliver);
    ReportsAppend(p, s.flow, Data(s.transit[0]));
    assert |s'.network| <= |s.network| + 1;
  }

  lemma ProductiveIsCloser(p: Policy, w: nat, s: Loop, step: Step)
    requires Flowing(p, w, s) && Productive(step) && Enabled(p, s, step)
    ensures Closer(Apply(p, s, step), s)
  {
    var s' := Apply(p, s, step);
    match step
    case Producer(g) =>
      GateStepIsCloser(s.sys, g);
      if |Open(s'.sys)| == |Open(s.sys)| {
        assert s'.holding == s.holding;
      }
    case Deliver =>
      DeliveryIsCloser(p, w, s);
    case AddLooked(i) =>
      GrantKeepsCalls(s.sys, s.lookedUp[i]);
      assert Open(s'.sys) == Open(s.sys);
    case _ =>
  }

  /** Not refused and not given up: attempting, waiting, or let through. */
  ghost predicate Hopeful(sys: G.System, c: Call) {
    G.IsTrying(sys, c) || G.IsBlocked(sys, c) || c in Acquired(sys)
  }

  lemma GateStepKeepsHope(sys: G.System, g: G.Step, c: Call)
    requires G.Enabled(sys, g) && (g.Try? || g.Resume? || g.Leave? || g.Wake?)
    requires !sys.gate.closed && Hopeful(sys, c)
    ensures Hopeful(G.Apply(sys, g), c)
  {
  }

  lemma ProductiveKeepsHope(p: Policy, s: Loop, step: Step, c: Call)
    requires StageInv(s) && s.stage.Live? && Productive(step) && Enabled(p, s, step) && Hopeful(s.sys, c)
    ensures Hopeful(Apply(p, s, step).sys, c)
  {
    if step.Producer? {
      GateStepKeepsHope(s.sys, step.step, c);
    } else if step.AddLooked? {
      GrantKeepsCalls(s.sys, s.lookedUp[step.i]);
    }
  }

  lemma ProductiveKeepsFlowing(p: Policy, w: nat, s: Loop, step: Step)
    requires Flowing(p, w, s) && Productive(step) && Enabled(p, s, step)
    ensures Flowing(p, w, Apply(p, s, step))
  {
    InvKept(p, w, s, step);
  }

  /** `steps` only lets the system work, and leaves nothing for it to do. */
  ghost predicate Exhausts(p: Policy, s: Loop, steps: seq<Step>) {
    && Legal(p, s, steps)
    && (forall i :: 0 <= i < |steps| ==> Productive(steps[i]))
    && !exists step :: Productive(step) && Enabled(p, Run(p, s, steps), step)
  }

  /** No starvation: whenever the system has worked until it stands still, every call that was attempting or
      waiting has been let through, however the wake-ups and deliveries raced. */
  lemma {:induction false} WaitersGetThrough(p: Policy, w: nat, s: Loop, steps: seq<Step>, c: Call)
    requires Flowing(p, w, s) && Hopeful(s.sys, c) && Exhausts(p, s, steps)
    ensures c in Acquired(Run(p, s, steps).sys)
    decreases |steps|
  {
    if steps == [] {
      if c in Open(s.sys) {
        var step := SomeStep(p, w, s, c);
        assert false;
      }
    } else {
      ProductiveKeepsFlowing(p, w, s, steps[0]);
      ProductiveKeepsHope(p, s, steps[0], c);
      assert forall i :: 0 <= i < |steps[1..]| ==> steps[1..][i] == steps[i + 1];
      WaitersGetThrough(p, w, Apply(p, s, steps[0]), steps[1..], c);
    }
  }

  /** And the system does come to a standstill: no endless wake-and-park-again. */
  lemma {:induction false} WorkEnds(p: Policy, w: nat, s: Loop) returns (steps: seq<Step>)
    requires Flowing(p, w, s)
    ensures Exhausts(p, s, steps)
    decreases |Open(s.sys)|, Distance(s), Wakefulness(s.sys)
  {
    hide Flowing, Enabled, Apply, Open, Distance, Wakefulness, Productive;
    if step :| Productive(step) && Enabled(p, s, step) {
      ProductiveKeepsFlowing(p, w, s, step);
      ProductiveIsCloser(p, w, s, step);
      var rest := WorkEnds(p, w, Apply(p, s, step));
      steps := [step] + rest;
      assert steps[1..] == rest;
    } else {
      steps := [];
    }
  }
}
