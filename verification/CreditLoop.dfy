/** The whole credit loop of one streaming port: the Dart `block` buffer, credit requests in any order,
    the pending-credit map, the gate and its producers (rpc/flow.go, lib/bridge/backpressure.dart).
    An item is named after the `Acquire` call that let it through. */
module CreditLoop {
  import opened Backpressure
  import G = GateRuns
  import B = BackpressureRuns

  type Call = G.Call

  datatype Stage =
    | Unregistered              // the stream request has not been dispatched
    | Registering(carried: nat) // gate in the map, buffered credits read but not added yet
    | Live                      // the handler runs
    | Gone                      // the handler returned, gate out of the map

  datatype Loop = Loop(
    sys: G.System,
    flow: Flow<Call>,
    holding: set<Call>,   // acquired, not sent yet
    sent: seq<Call>,      // everything put on the stream so far
    transit: seq<Call>,   // sent, not seen by the transformer yet
    network: seq<nat>,    // credit requests in flight; any of them may be handled next
    buffered: nat,        // pendingFlowCredits[port]
    lookedUp: seq<nat>,   // grants whose handler found the gate but has not called AddCredits yet
    stage: Stage,
    seeded: bool)         // credits were buffered when the gate was registered

  datatype Step =
    | Arrive(i: nat)
    | AddLooked(i: nat)
    | Register
    | FinishRegister
    | Producer(step: G.Step)
    | Send(c: Call)
    | Deliver
    | Consumer(event: Event<Call>)
    | Unregister

  /** Initially only the window grant `w` is on its way. */
  function Start(w: nat): Loop {
    Loop(G.Start(), Listening(), {}, [], [], [w], 0, [], Unregistered, false)
  }

  ghost predicate Enabled(p: Policy, s: Loop, step: Step) {
    match step
    case Arrive(i) => i < |s.network|
    case AddLooked(i) => i < |s.lookedUp|
    case Register => s.stage.Unregistered?
    case FinishRegister => s.stage.Registering?
    case Producer(g) =>
      && G.Enabled(s.sys, g)
      && !g.Grant?
      && (g.Enter? ==> s.stage.Live? || s.stage.Gone?)
      && (g.CloseGate? ==> s.stage.Gone?)
    case Send(c) => c in s.holding
    case Deliver => s.transit != [] && CanFire(s.flow, Data(s.transit[0]))
    case Consumer(e) =>
      && !e.Data? && CanFire(s.flow, e)
      && (e.SourceDone? ==> s.stage.Gone? && s.transit == [])
    case Unregister => s.stage.Live?
  }

  function Without(ns: seq<nat>, i: nat): seq<nat>
    requires i < |ns|
  {
    ns[..i] + ns[i + 1..]
  }

  ghost function Acquired(sys: G.System): set<Call> {
    set c | c in sys.calls && (sys.calls[c] == G.Ended(G.GotCredit) || sys.calls[c] == G.Ended(G.GotUnlimited))
  }

  ghost function Unlimited(sys: G.System): set<Call> {
    set c | c in sys.calls && sys.calls[c] == G.Ended(G.GotUnlimited)
  }

  /** A grant reaching the gate. */
  ghost function AddCredits(s: Loop, n: nat): Loop {
    s.(sys := G.Apply(s.sys, G.Grant(n)))
  }

  /** An event of the transformer: each onDemand call becomes one credit request. */
  ghost function Fire(p: Policy, s: Loop, e: Event<Call>): Loop {
    var flow := OnEvent(p, s.flow, e);
    s.(flow := flow, network := s.network + NewReports(s.flow, flow))
  }

  ghost function NewReports(f: Flow<Call>, f': Flow<Call>): seq<nat> {
    if |f'.reported| <= |f.reported| then [] else f'.reported[|f.reported|..]
  }

  ghost function Apply(p: Policy, s: Loop, step: Step): Loop
    requires Enabled(p, s, step)
  {
    match step
    case Arrive(i) =>
      var n := s.network[i];
      var s' := s.(network := Without(s.network, i));
      if s.stage.Registering? || s.stage.Live? then s'.(lookedUp := s.lookedUp + [n])
      else s'.(buffered := s.buffered + n)
    case AddLooked(i) =>
      AddCredits(s, s.lookedUp[i]).(lookedUp := Without(s.lookedUp, i))
    case Register =>
      s.(stage := Registering(s.buffered), buffered := 0, seeded := s.buffered > 0)
    case FinishRegister =>
      (if s.stage.carried > 0 then AddCredits(s, s.stage.carried) else s).(stage := Live)
    case Producer(g) =>
      var sys := G.Apply(s.sys, g);
      s.(sys := sys, holding := s.holding + (Acquired(sys) - Acquired(s.sys)))
    case Send(c) =>
      s.(holding := s.holding - {c}, sent := s.sent + [c], transit := s.transit + [c])
    case Deliver =>
      Fire(p, s, Data(s.transit[0])).(transit := s.transit[1..])
    case Consumer(e) => Fire(p, s, e)
    case Unregister => s.(stage := Gone)
  }

  /** `steps` can be taken in order from `s`. */
  ghost predicate Legal(p: Policy, s: Loop, steps: seq<Step>)
    decreases |steps|
  {
    steps == [] || (Enabled(p, s, steps[0]) && Legal(p, Apply(p, s, steps[0]), steps[1..]))
  }

  ghost function Run(p: Policy, s: Loop, steps: seq<Step>): Loop
    requires Legal(p, s, steps)
    decreases |steps|
  {
    if steps == [] then s else Run(p, Apply(p, s, steps[0]), steps[1..])
  }

  ghost predicate Reachable(p: Policy, w: nat, s: Loop) {
    exists steps: seq<Step> :: Legal(p, Start(w), steps) && Run(p, Start(w), steps) == s
  }

  ghost predicate Configured(p: Policy, w: nat) {
    p.strategy.Block? && p.bufferSize >= 1 && w >= 1
  }

  // ----- invariant

  ghost function Carried(s: Loop): nat {
    if s.stage.Registering? then s.stage.carried else 0
  }

  /** Every credit issued is still travelling or has been granted. */
  ghost predicate CreditInv(w: nat, s: Loop) {
    w + B.Sum(s.flow.reported) ==
      s.sys.granted + B.Sum(s.network) + s.buffered + Carried(s) + B.Sum(s.lookedUp)
  }

  /** Every acquisition is held, in transit, pending or delivered. */
  ghost predicate ItemInv(s: Loop) {
    && s.holding <= Acquired(s.sys)
    && |Acquired(s.sys)| == |s.holding| + |s.sent|
    && s.sent == s.flow.delivered + s.flow.pending + s.transit
  }

  ghost predicate StageInv(s: Loop) {
    && (s.stage.Unregistered? ==> s.sys == G.Start() && s.lookedUp == [])
    && (s.stage.Unregistered? || s.stage.Registering? ==> s.sys.calls == map[])
    && (s.stage.Registering? || s.stage.Live? ==> s.buffered == 0)
    && (!s.stage.Gone? ==> !s.sys.gate.closed)
    && (s.stage.Registering? && s.seeded ==> s.stage.carried > 0)
    && (s.stage.Live? || s.stage.Gone? ==> s.seeded ==> s.sys.gate.bounded)
    && (s.seeded ==> Unlimited(s.sys) == {})
    && (s.flow.closed ==> s.stage.Gone?)
  }

  ghost predicate FlowInv(p: Policy, s: Loop) {
    B.BlockInv(p, s.flow, s.flow.delivered + s.flow.pending)
  }

  ghost predicate Inv(p: Policy, w: nat, s: Loop) {
    && G.Inv(s.sys)
    && CreditInv(w, s)
    && ItemInv(s)
    && StageInv(s)
    && FlowInv(p, s)
  }

  lemma {:induction false} SumWithout(ns: seq<nat>, i: nat)
    requires i < |ns|
    ensures B.Sum(Without(ns, i)) == B.Sum(ns) - ns[i]
  {
    var last := ns[|ns| - 1];
    if i == |ns| - 1 {
      assert Without(ns, i) == ns[..|ns| - 1];
    } else {
      SumWithout(ns[..|ns| - 1], i);
      assert Without(ns, i) == Without(ns[..|ns| - 1], i) + [last];
      B.SumSnoc(Without(ns[..|ns| - 1], i), last);
    }
  }

  /** A transformer event reports at most once, and appends that report. */
  lemma ReportsAppend(p: Policy, f: Flow<Call>, e: Event<Call>)
    requires p.strategy.Block?
    ensures
      var f' := OnEvent(p, f, e);
      || (f'.reported == f.reported && NewReports(f, f') == [])
      || (exists n: nat :: f'.reported == f.reported + [n] && NewReports(f, f') == [n])
  {
    var f' := OnEvent(p, f, e);
    if f'.reported != f.reported {
      var n := f'.reported[|f.reported|];
      assert f'.reported == f.reported + [n];
      assert NewReports(f, f') == [n];
    }
  }

  lemma CreditInvKept(p: Policy, w: nat, s: Loop, step: Step)
    requires p.strategy.Block? && CreditInv(w, s) && StageInv(s) && Enabled(p, s, step)
    ensures CreditInv(w, Apply(p, s, step))
  {
    match step
    case Arrive(i) =>
      SumWithout(s.network, i);
      B.SumSnoc(s.lookedUp, s.network[i]);
    case AddLooked(i) =>
      SumWithout(s.lookedUp, i);
    case Deliver =>
      FireKeepsCredits(p, s, Data(s.transit[0]));
    case Consumer(e) =>
      FireKeepsCredits(p, s, e);
    case Producer(g) =>
      assert G.Apply(s.sys, g).granted == s.sys.granted;
    case _ =>
  }

  lemma FireKeepsCredits(p: Policy, s: Loop, e: Event<Call>)
    requires p.strategy.Block?
    ensures
      var s' := Fire(p, s, e);
      B.Sum(s'.flow.reported) - B.Sum(s'.network) == B.Sum(s.flow.reported) - B.Sum(s.network)
  {
    var s' := Fire(p, s, e);
    ReportsAppend(p, s.flow, e);
    if s'.flow.reported != s.flow.reported {
      var n: nat :| s'.flow.reported == s.flow.reported + [n] && NewReports(s.flow, s'.flow) == [n];
      B.SumSnoc(s.flow.reported, n);
      B.SumSnoc(s.network, n);
    } else {
      assert s.network + [] == s.network;
    }
  }

  lemma GrantKeepsCalls(sys: G.System, n: int)
    ensures G.Apply(sys, G.Grant(n)).calls == sys.calls
  {
  }

  /** The gate lets at most one call through at a time. */
  lemma AcquiredGrows(sys: G.System, g: G.Step)
    requires G.Enabled(sys, g)
    ensures
      var sys' := G.Apply(sys, g);
      || Acquired(sys') == Acquired(sys)
      || (g.Try? && g.c !in Acquired(sys) && Acquired(sys') == Acquired(sys) + {g.c})
  {
    var sys' := G.Apply(sys, g);
    if g.Try? && g.c in Acquired(sys') {
      assert Acquired(sys') == Acquired(sys) + {g.c};
    } else {
      assert Acquired(sys') == Acquired(sys);
    }
  }

  lemma ItemsAfterProducer(p: Policy, s: Loop, g: G.Step)
    requires ItemInv(s) && Enabled(p, s, Producer(g))
    ensures ItemInv(Apply(p, s, Producer(g)))
  {
    var s' := Apply(p, s, Producer(g));
    AcquiredGrows(s.sys, g);
    if Acquired(s'.sys) == Acquired(s.sys) {
      assert s'.holding == s.holding;
    } else {
      assert s'.holding == s.holding + {g.c};
    }
  }

  /** The block buffer neither loses nor reorders. */
  lemma EventKeepsItems(p: Policy, f: Flow<Call>, e: Event<Call>)
    requires p.strategy.Block?
    ensures
      var f' := OnEvent(p, f, e);
      f'.delivered + f'.pending == f.delivered + f.pending + if e.Data? then [e.value] else []
  {
    if e.Data? {
      var g := f.(pending := f.pending + [e.value]);
      B.PumpKeepsItems(p, g.(paused := f.paused || |g.pending| >= p.bufferSize));
      assert f.delivered + f.pending + [e.value] == f.delivered + (f.pending + [e.value]);
    } else if e.Release? {
      B.PumpKeepsItems(p, f.(held := false));
    } else if e.Timeout? {
      B.PumpKeepsItems(p, f.(armed := false));
    }
  }

  lemma ItemsAfterFire(p: Policy, s: Loop, step: Step)
    requires p.strategy.Block? && ItemInv(s) && Enabled(p, s, step) && (step.Deliver? || step.Consumer?)
    ensures ItemInv(Apply(p, s, step))
  {
    var s' := Apply(p, s, step);
    if step.Deliver? {
      EventKeepsItems(p, s.flow, Data(s.transit[0]));
      assert s.transit == [s.transit[0]] + s.transit[1..];
      assert s'.flow == OnEvent(p, s.flow, Data(s.transit[0]));
    } else {
      EventKeepsItems(p, s.flow, step.event);
    }
  }

  lemma ItemInvKept(p: Policy, s: Loop, step: Step)
    requires p.strategy.Block? && ItemInv(s) && Enabled(p, s, step)
    ensures ItemInv(Apply(p, s, step))
  {
    if step.Producer? {
      ItemsAfterProducer(p, s, step.step);
    } else if step.Deliver? || step.Consumer? {
      ItemsAfterFire(p, s, step);
    } else if step.AddLooked? {
      GrantKeepsCalls(s.sys, s.lookedUp[step.i]);
    } else if step.FinishRegister? {
      GrantKeepsCalls(s.sys, s.stage.carried);
    } else if step.Send? {
      assert s.sent + [step.c] == s.flow.delivered + s.flow.pending + (s.transit + [step.c]);
    }
  }

  lemma StageAfterProducer(p: Policy, s: Loop, g: G.Step)
    requires StageInv(s) && Enabled(p, s, Producer(g))
    ensures StageInv(Apply(p, s, Producer(g)))
  {
    var sys' := G.Apply(s.sys, g);
    assert sys'.gate.bounded == s.sys.gate.bounded;
    if s.seeded {
      assert Unlimited(sys') == {};
    }
  }

  lemma StageInvKept(p: Policy, s: Loop, step: Step)
    requires StageInv(s) && Enabled(p, s, step)
    ensures StageInv(Apply(p, s, step))
  {
    match step
    case Producer(g) =>
      StageAfterProducer(p, s, g);
    case AddLooked(i) =>
      GrantKeepsCalls(s.sys, s.lookedUp[i]);
    case FinishRegister =>
      GrantKeepsCalls(s.sys, s.stage.carried);
    case Register =>
      assert Unlimited(s.sys) == {};
    case _ =>
  }

  lemma FlowInvKept(p: Policy, s: Loop, step: Step)
    requires p.strategy.Block? && p.bufferSize >= 1 && FlowInv(p, s) && Enabled(p, s, step)
    ensures FlowInv(p, Apply(p, s, step))
  {
    hide G.Apply, B.BlockInv;
    if step.Deliver? {
      EventKeepsFlow(p, s, Data(s.transit[0]));
    } else if step.Consumer? {
      EventKeepsFlow(p, s, step.event);
    }
  }

  lemma EventKeepsFlow(p: Policy, s: Loop, e: Event<Call>)
    requires p.strategy.Block? && p.bufferSize >= 1 && FlowInv(p, s) && CanFire(s.flow, e)
    ensures FlowInv(p, Fire(p, s, e))
  {
    var items := s.flow.delivered + s.flow.pending;
    B.BlockStep(p, s.flow, items, e);
    EventKeepsItems(p, s.flow, e);
  }

  lemma GateInvKept(p: Policy, w: nat, s: Loop, step: Step)
    requires Configured(p, w) && Inv(p, w, s) && Enabled(p, s, step)
    ensures G.Inv(Apply(p, s, step).sys)
  {
    match step
    case AddLooked(i) => G.InvKept(s.sys, G.Grant(s.lookedUp[i]));
    case FinishRegister => G.InvKept(s.sys, G.Grant(s.stage.carried));
    case Producer(g) => G.InvKept(s.sys, g);
    case _ =>
  }

  lemma InvKept(p: Policy, w: nat, s: Loop, step: Step)
    requires Configured(p, w) && Inv(p, w, s) && Enabled(p, s, step)
    ensures Inv(p, w, Apply(p, s, step))
  {
    GateInvKept(p, w, s, step);
    CreditInvKept(p, w, s, step);
    ItemInvKept(p, s, step);
    StageInvKept(p, s, step);
    FlowInvKept(p, s, step);
  }

  lemma {:induction false} InvAfter(p: Policy, w: nat, s: Loop, steps: seq<Step>)
    requires Configured(p, w) && Inv(p, w, s) && Legal(p, s, steps)
    ensures Inv(p, w, Run(p, s, steps))
    decreases |steps|
  {
    if steps != [] {
      InvKept(p, w, s, steps[0]);
      InvAfter(p, w, Apply(p, s, steps[0]), steps[1..]);
    }
  }

  lemma InvHolds(p: Policy, w: nat, s: Loop)
    requires Configured(p, w) && Reachable(p, w, s)
    ensures Inv(p, w, s)
  {
    var steps: seq<Step> :| Legal(p, Start(w), steps) && Run(p, Start(w), steps) == s;
    assert B.Sum([w]) == w by { B.SumSnoc([], w); assert [] + [w] == [w]; }
    InvAfter(p, w, Start(w), steps);
  }
}
