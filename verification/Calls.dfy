/** The life of a call in rpc/rpc.go: registration, relay of responses, cancellation by another call, the slow-call
    watchdog and the deferred clean-up, under every interleaving of calls with distinct ports in flight. */
module Calls {

  type Port = int
  type Path = string
  type Id = nat
  type Response = seq<int>

  // ----- the maps under the mutex

  /** A cancel function and the context it ends. */
  class Context {
    var done: bool

    /** A context derived from another starts out done if that one is. */
    constructor (done: bool)
      ensures this.done == done
    {
      this.done := done;
    }

    method Cancel()
      modifies this
      ensures done
    {
      done := true;
    }
  }

  datatype Info = Info(path: Path, started: int)

  class CallTable {
    var cancels: map<Port, Context>
    var inflight: map<Port, Info>
    var warnedSlow: set<Port>

    constructor ()
      ensures cancels == map[] && inflight == map[] && warnedSlow == {}
    {
      cancels, inflight, warnedSlow := map[], map[], {};
    }

    /** The first locked block of `Call`. */
    method Begin(port: Port, info: Info, baseDone: bool) returns (ctx: Context)
      modifies this
      ensures fresh(ctx) && ctx.done == baseDone
      ensures cancels == old(cancels)[port := ctx] && inflight == old(inflight)[port := info]
      ensures warnedSlow == old(warnedSlow)
    {
      ctx := new Context(baseDone);
      cancels := cancels[port := ctx];
      inflight := inflight[port := info];
    }

    /** The `Cancel` request for `target`. */
    method CancelPort(target: Port)
      modifies this`cancels, cancels.Values
      ensures target in old(cancels) ==> old(cancels)[target].done
      ensures cancels == old(cancels) - {target}
      ensures forall c :: c in old(cancels).Values && !(target in old(cancels) && c == old(cancels)[target]) ==>
        c.done == old(c.done)
    {
      if target in cancels {
        cancels[target].Cancel();
        cancels := cancels - {target};
      }
    }

    /** The deferred block of `Call`. */
    method Complete(port: Port) returns (remained: set<Port>)
      modifies this, cancels.Values
      ensures port in old(cancels) ==> old(cancels)[port].done
      ensures cancels == old(cancels) - {port} && inflight == old(inflight) - {port}
      ensures warnedSlow == old(warnedSlow) - {port}
      ensures remained == cancels.Keys
    {
      if port in cancels {
        cancels[port].Cancel();
        cancels := cancels - {port};
      }
      inflight := inflight - {port};
      warnedSlow := warnedSlow - {port};
      remained := cancels.Keys;
    }

    /** One tick of `watchSlowRPCs`: the ports to report are marked and returned. */
    method Scan(now: int, warnAfter: int, streaming: set<Path>) returns (report: set<Port>)
      modifies this`warnedSlow
      ensures report == Slow(old(inflight), old(warnedSlow), now, warnAfter, streaming)
      ensures forall p :: p in report <==>
                p in inflight && now - inflight[p].started >= warnAfter
                && p !in old(warnedSlow) && inflight[p].path !in streaming
      ensures warnedSlow == old(warnedSlow) + report
    {
      report := {};
      var todo := inflight.Keys;
      ghost var warned := warnedSlow;
      while todo != {}
        invariant todo <= inflight.Keys
        invariant warnedSlow == warned + report
        invariant forall p :: p in report <==>
                            p in inflight && p !in todo && IsSlow(inflight[p], p in warned, now, warnAfter, streaming)
        decreases |todo|
      {
        Inhabited(todo);
        var port :| port in todo;
        todo := todo - {port};
        var info := inflight[port];
        if now - info.started < warnAfter || port in warnedSlow {
          continue;
        }
        if info.path in streaming {
          continue;
        }
        warnedSlow := warnedSlow + {port};
        report := report + {port};
      }
      ghost var slow := Slow(inflight, warned, now, warnAfter, streaming);
      assert forall p :: p in report <==> p in slow;
      assert report == slow;
    }
  }

  lemma Inhabited(ports: set<Port>)
    ensures ports == {} || exists p :: p in ports
  {
    if forall p :: p !in ports {
      assert ports == {};
    }
  }

  predicate IsSlow(info: Info, warned: bool, now: int, warnAfter: int, streaming: set<Path>) {
    now - info.started >= warnAfter && !warned && info.path !in streaming
  }

  /** Calls in flight for long, not reported before and not streams. */
  function Slow(inflight: map<Port, Info>, warned: set<Port>, now: int, warnAfter: int, streaming: set<Path>)
    : set<Port>
  {
    set p | p in inflight && IsSlow(inflight[p], p in warned, now, warnAfter, streaming)
  }

  // ----- interleavings

  datatype Kind = Rpc | CancelRequest(target: Port) | Other

  datatype Phase =
    | Created     // goroutine started
    | Running     // registered
    | Serving     // gate registered, handler running (Rpc)
    | Returned    // handler done, its channel closed (Rpc)
    | Cleaning    // body done, deferred block next
    | Cleaned     // deferred block done
    | Closed      // response channel closed

  datatype Call = Call(
    port: Port, path: Path, kind: Kind, phase: Phase,
    done: bool,                       // its context is cancelled
    emitted: seq<Response>, relaying: seq<Response>, received: seq<Response>,
    closings: nat, reports: nat,
    streams: bool,                    // its path was a streaming path when it registered
    callerDone: bool)                 // the context it was called with is done

  datatype State = State(
    calls: map<Id, Call>,
    cancels: map<Port, Id>, inflight: map<Port, Id>, warned: set<Port>, gates: map<Port, Id>,
    streaming: set<Path>)

  datatype Step =
    | Create(c: Id, port: Port, path: Path, kind: Kind)
    | Reject(c: Id, port: Port, path: Path, kind: Kind)
    | CallerDone(c: Id)
    | Register(c: Id)
    | AddGate(c: Id)
    | Emit(c: Id, r: Response)
    | Relay(c: Id)
    | HandlerReturn(c: Id)
    | RemoveGate(c: Id)
    | DoCancel(c: Id)
    | Finish(c: Id)
    | CleanUp(c: Id)
    | CloseChannel(c: Id)
    | Watch(overdue: set<Port>)
    | AddStreaming(path: Path)

  const START := State(map[], map[], map[], {}, map[], {})

  predicate InFlight(phase: Phase) {
    !phase.Cleaned? && !phase.Closed?
  }

  /** Between registration and clean-up. */
  predicate Active(phase: Phase) {
    InFlight(phase) && !phase.Created?
  }

  ghost predicate At(s: State, c: Id, phase: Phase) {
    c in s.calls && s.calls[c].phase == phase
  }

  ghost predicate Shaped(s: State) {
    && (forall p :: p in s.cancels ==> s.cancels[p] in s.calls)
    && (forall p :: p in s.inflight ==> s.inflight[p] in s.calls)
  }

  /** Callers use distinct ports for calls in flight. */
  ghost predicate PortFree(s: State, port: Port) {
    forall c :: c in s.calls && InFlight(s.calls[c].phase) ==> s.calls[c].port != port
  }

  ghost predicate Enabled(s: State, step: Step) {
    && Shaped(s)
    && match step
       case Create(c, port, _, _) => c !in s.calls && PortFree(s, port)
       case Reject(c, _, _, _) => c !in s.calls
       case CallerDone(c) => c in s.calls
       case Register(c) => At(s, c, Created)
       case AddGate(c) => At(s, c, Running) && s.calls[c].kind.Rpc?
       case Emit(c, _) =>
         (At(s, c, Serving) || (At(s, c, Running) && s.calls[c].kind.Other?)) && s.calls[c].relaying == []
       case Relay(c) => c in s.calls && s.calls[c].relaying != []
       case HandlerReturn(c) => At(s, c, Serving)
       case RemoveGate(c) => At(s, c, Returned) && s.calls[c].relaying == []
       case DoCancel(c) => At(s, c, Running) && s.calls[c].kind.CancelRequest?
       case Finish(c) => At(s, c, Running) && s.calls[c].relaying == []
       case CleanUp(c) => At(s, c, Cleaning)
       case CloseChannel(c) => At(s, c, Cleaned)
       case Watch(_) => true
       case AddStreaming(_) => true
  }

  ghost function WithPhase(s: State, c: Id, phase: Phase): State
    requires c in s.calls
  {
    s.(calls := s.calls[c := s.calls[c].(phase := phase)])
  }

  /** A streaming call's context does not end with its caller's. */
  predicate Detached(call: Call) {
    call.kind.Rpc? && call.streams
  }

  /** Cancelling the context registered for `port`, if any. */
  ghost function CancelAt(s: State, port: Port): State
    requires Shaped(s)
  {
    if port !in s.cancels then s
    else
      var c := s.cancels[port];
      s.(calls := s.calls[c := s.calls[c].(done := true)], cancels := s.cancels - {port})
  }

  ghost function Report(s: State, overdue: set<Port>): set<Port>
    requires Shaped(s)
  {
    set p | p in s.inflight && p in overdue && p !in s.warned && s.calls[s.inflight[p]].path !in s.streaming
  }

  ghost function Apply(s: State, step: Step): State
    requires Enabled(s, step)
  {
    match step
    case Create(c, port, path, kind) =>
      s.(calls := s.calls[c := Call(port, path, kind, Created, false, [], [], [], 0, 0, false, false)])
    case Reject(c, port, path, kind) =>
      s.(calls := s.calls[c := Call(port, path, kind, Closed, true, [], [], [], 1, 0, false, true)])
    case CallerDone(c) =>
      var call := s.calls[c];
      s.(calls := s.calls[c := call.(callerDone := true, done := call.done || (Active(call.phase) && !Detached(call)))])
    case Register(c) =>
      var call := s.calls[c];
      var running := call.(phase := Running, streams := call.path in s.streaming);
      s.(calls := s.calls[c := running.(done := call.callerDone && !Detached(running))],
         cancels := s.cancels[call.port := c], inflight := s.inflight[call.port := c])
    case AddGate(c) =>
      WithPhase(s, c, Serving).(gates := s.gates[s.calls[c].port := c])
    case Emit(c, r) =>
      s.(calls := s.calls[c := s.calls[c].(emitted := s.calls[c].emitted + [r], relaying := [r])])
    case Relay(c) =>
      s.(calls := s.calls[c := s.calls[c].(received := s.calls[c].received + s.calls[c].relaying, relaying := [])])
    case HandlerReturn(c) => WithPhase(s, c, Returned)
    case RemoveGate(c) =>
      var port := s.calls[c].port;
      WithPhase(s, c, Cleaning).(gates := if port in s.gates && s.gates[port] == c then s.gates - {port} else s.gates)
    case DoCancel(c) => WithPhase(CancelAt(s, s.calls[c].kind.target), c, Cleaning)
    case Finish(c) => WithPhase(s, c, Cleaning)
    case CleanUp(c) =>
      var port := s.calls[c].port;
      WithPhase(CancelAt(s, port), c, Cleaned).(inflight := s.inflight - {port}, warned := s.warned - {port})
    case CloseChannel(c) =>
      s.(calls := s.calls[c := s.calls[c].(phase := Closed, closings := s.calls[c].closings + 1)])
    case Watch(overdue) =>
      var report := Report(s, overdue);
      s.(warned := s.warned + report,
         calls := map c | c in s.calls ::
           Reported(s.calls[c], s.calls[c].port in report && s.inflight[s.calls[c].port] == c))
    case AddStreaming(path) => s.(streaming := s.streaming + {path})
  }

  ghost function Reported(call: Call, hit: bool): Call {
    if hit then call.(reports := call.reports + 1) else call
  }

  ghost predicate Legal(steps: seq<Step>)
    decreases |steps|, 0
  {
    steps == [] || (Legal(steps[..|steps| - 1]) && Enabled(Run(steps[..|steps| - 1]), steps[|steps| - 1]))
  }

  ghost function Run(steps: seq<Step>): State
    requires Legal(steps)
    decreases |steps|, 1
  {
    if steps == [] then START else Apply(Run(steps[..|steps| - 1]), steps[|steps| - 1])
  }

  ghost predicate Reachable(s: State) {
    exists steps: seq<Step> :: Legal(steps) && Run(steps) == s
  }

  // ----- invariant

  /** Both calls are in flight, on one port. */
  ghost predicate FlyingOn(s: State, c: Id, d: Id) {
    && c in s.calls && d in s.calls
    && InFlight(s.calls[c].phase) && InFlight(s.calls[d].phase)
    && s.calls[c].port == s.calls[d].port
  }

  /** In-flight calls have distinct ports; a port is in `inflight` for exactly the active call on it. */
  ghost predicate PortInv(s: State) {
    && (forall c, d :: FlyingOn(s, c, d) ==> c == d)
    && (forall p :: p in s.inflight ==>
          s.inflight[p] in s.calls && s.calls[s.inflight[p]].port == p && Active(s.calls[s.inflight[p]].phase))
    && (forall c :: c in s.calls && Active(s.calls[c].phase) ==>
          s.calls[c].port in s.inflight && s.inflight[s.calls[c].port] == c)
  }

  /** A cancel function is registered for an active call only; an active call is cancelled exactly when it has
      none left or its caller's context is done and reaches it. */
  ghost predicate CancelInv(s: State) {
    && (forall p :: p in s.cancels ==>
          s.cancels[p] in s.calls && s.calls[s.cancels[p]].port == p && Active(s.calls[s.cancels[p]].phase))
    && (forall c :: c in s.calls ==> DoneRight(s, c))
  }

  ghost predicate DoneRight(s: State, c: Id)
    requires c in s.calls
  {
    var call := s.calls[c];
    && (call.phase.Created? ==> !call.done)
    && (Active(call.phase) ==> (call.done <==> call.port !in s.cancels || (call.callerDone && !Detached(call))))
    && (!InFlight(call.phase) ==> call.done)
  }

  ghost predicate GateRight(s: State, p: Port)
    requires p in s.gates
  {
    && s.gates[p] in s.calls && s.calls[s.gates[p]].port == p
    && (s.calls[s.gates[p]].phase.Serving? || s.calls[s.gates[p]].phase.Returned?)
  }

  /** A port has a gate exactly while its call is serving or has just returned. */
  ghost predicate GateInv(s: State) {
    && (forall p :: p in s.gates ==> GateRight(s, p))
    && (forall c :: c in s.calls && (s.calls[c].phase.Serving? || s.calls[c].phase.Returned?) ==> HasGate(s, c))
  }

  ghost predicate HasGate(s: State, c: Id)
    requires c in s.calls
  {
    s.calls[c].port in s.gates && s.gates[s.calls[c].port] == c
  }

  /** Warned ports are in flight; a call is reported once at most, and then its port is warned while it lasts. */
  ghost predicate WarnInv(s: State) {
    && (forall p :: p in s.warned ==> p in s.inflight)
    && (forall c :: c in s.calls ==> WarnedRight(s, c))
  }

  ghost predicate RelayInv(call: Call) {
    && call.emitted == call.received + call.relaying
    && (call.phase.Cleaning? || !InFlight(call.phase) ==> call.relaying == [])
    && call.closings == (if call.phase.Closed? then 1 else 0)
    && (!call.phase.Running? && !call.phase.Serving? && !call.phase.Returned? ==> call.relaying == [])
    && (call.phase.Running? && !call.kind.Other? ==> call.relaying == [])
  }

  ghost predicate CallsInv(s: State) {
    forall c :: c in s.calls ==> RelayInv(s.calls[c])
  }

  ghost predicate Inv(s: State) {
    PortInv(s) && CancelInv(s) && GateInv(s) && WarnInv(s) && CallsInv(s)
  }

  /** The calls whose phase a step can change. */
  predicate Moves(step: Step, c: Id) {
    match step
    case Create(d, _, _, _) => c == d
    case Reject(d, _, _, _) => c == d
    case Register(d) => c == d
    case AddGate(d) => c == d
    case HandlerReturn(d) => c == d
    case RemoveGate(d) => c == d
    case DoCancel(d) => c == d
    case Finish(d) => c == d
    case CleanUp(d) => c == d
    case CloseChannel(d) => c == d
    case _ => false
  }

  /** What no step changes about a call, and what only its own steps change. */
  lemma CallKept(s: State, step: Step, c: Id)
    requires Enabled(s, step) && c in s.calls
    ensures
      var s' := Apply(s, step);
      && c in s'.calls
      && s'.calls[c].port == s.calls[c].port && s'.calls[c].path == s.calls[c].path
      && (!Moves(step, c) ==> s'.calls[c].phase == s.calls[c].phase && s'.calls[c].streams == s.calls[c].streams)
      && (InFlight(s'.calls[c].phase) ==> InFlight(s.calls[c].phase))
      && (Active(s'.calls[c].phase) && !step.Register? ==> Active(s.calls[c].phase))
  {
  }

  lemma NewCallsAreCreated(s: State, step: Step, c: Id)
    requires Enabled(s, step) && c in Apply(s, step).calls && c !in s.calls
    ensures (step.Create? || step.Reject?) && step.c == c
    ensures Apply(s, step) == s.(calls := s.calls[c := Apply(s, step).calls[c]])
    ensures
      var call := Apply(s, step).calls[c];
      && (step.Create? ==> call.phase.Created? && !call.done && call.port == step.port)
      && (step.Reject? ==> call.phase.Closed? && call.done)
      && call.reports == 0 && !call.streams
  {
  }

  lemma PortsStayDistinct(s: State, step: Step, c: Id, d: Id)
    requires Enabled(s, step) && PortInv(s) && FlyingOn(Apply(s, step), c, d)
    ensures c == d
  {
    if c in s.calls && d in s.calls {
      CallKept(s, step, c);
      CallKept(s, step, d);
      assert FlyingOn(s, c, d);
    } else if c in s.calls {
      CallKept(s, step, c);
      NewCallsAreCreated(s, step, d);
    } else {
      NewCallsAreCreated(s, step, c);
      if d in s.calls {
        CallKept(s, step, d);
      } else {
        NewCallsAreCreated(s, step, d);
      }
    }
  }

  lemma ActiveIsListed(s: State, step: Step, c: Id)
    requires Enabled(s, step) && PortInv(s) && c in Apply(s, step).calls && Active(Apply(s, step).calls[c].phase)
    ensures
      var s' := Apply(s, step);
      s'.calls[c].port in s'.inflight && s'.inflight[s'.calls[c].port] == c
  {
    if c !in s.calls {
      NewCallsAreCreated(s, step, c);
    } else {
      CallKept(s, step, c);
      if step.Register? {
        assert c != step.c ==> !FlyingOn(s, c, step.c);
      } else if step.CleanUp? {
        assert c != step.c ==> !FlyingOn(s, c, step.c);
      }
    }
  }

  lemma ListedIsActive(s: State, step: Step, p: Port)
    requires Enabled(s, step) && PortInv(s) && p in Apply(s, step).inflight
    ensures
      var s' := Apply(s, step);
      s'.inflight[p] in s'.calls && s'.calls[s'.inflight[p]].port == p && Active(s'.calls[s'.inflight[p]].phase)
  {
    var s' := Apply(s, step);
    if p in s.inflight && s'.inflight[p] == s.inflight[p] {
      CallKept(s, step, s.inflight[p]);
    }
  }

  lemma PortInvKept(s: State, step: Step)
    requires Enabled(s, step) && PortInv(s)
    ensures PortInv(Apply(s, step))
  {
    var s' := Apply(s, step);
    hide Apply;
    forall c, d | FlyingOn(s', c, d)
      ensures c == d
    {
      PortsStayDistinct(s, step, c, d);
    }
    forall c | c in s'.calls && Active(s'.calls[c].phase)
      ensures s'.calls[c].port in s'.inflight && s'.inflight[s'.calls[c].port] == c
    {
      ActiveIsListed(s, step, c);
    }
    forall p | p in s'.inflight
      ensures s'.inflight[p] in s'.calls && s'.calls[s'.inflight[p]].port == p && Active(s'.calls[s'.inflight[p]].phase)
    {
      ListedIsActive(s, step, p);
    }
  }

  lemma CancelIsActive(s: State, step: Step, p: Port)
    requires Enabled(s, step) && PortInv(s) && CancelInv(s) && p in Apply(s, step).cancels
    ensures
      var s' := Apply(s, step);
      s'.cancels[p] in s'.calls && s'.calls[s'.cancels[p]].port == p && Active(s'.calls[s'.cancels[p]].phase)
  {
    var s' := Apply(s, step);
    if p in s.cancels && s'.cancels[p] == s.cancels[p] {
      CallKept(s, step, s.cancels[p]);
    }
  }

  /** How the steps touch a call's context. */
  lemma ContextKept(s: State, step: Step, c: Id)
    requires Enabled(s, step) && c in s.calls
    ensures
      var call, call' := s.calls[c], Apply(s, step).calls[c];
      var hit := (step.DoCancel? && CancelledBy(s, s.calls[step.c].kind.target, c))
                 || (step.CleanUp? && CancelledBy(s, s.calls[step.c].port, c));
      && (!step.Register? || step.c != c ==> Detached(call') == Detached(call))
      && call'.callerDone == (call.callerDone || step == CallerDone(c))
      && call'.done ==
           if step == Register(c) then call.callerDone && !Detached(call')
           else if step == CallerDone(c) then call.done || (Active(call.phase) && !Detached(call))
           else call.done || hit
  {
  }

  ghost predicate CancelledBy(s: State, port: Port, c: Id) {
    port in s.cancels && s.cancels[port] == c
  }

  lemma CancelsKept(s: State, step: Step)
    requires Enabled(s, step)
    ensures
      Apply(s, step).cancels ==
        match step
        case Register(c) => s.cancels[s.calls[c].port := c]
        case DoCancel(c) => s.cancels - {s.calls[c].kind.target}
        case CleanUp(c) => s.cancels - {s.calls[c].port}
        case _ => s.cancels
  {
  }

  /** Losing the cancel function, or finishing, comes with cancellation. */
  lemma DoneRightKept(s: State, step: Step, c: Id)
    requires Enabled(s, step) && PortInv(s) && CancelInv(s) && c in Apply(s, step).calls
    ensures DoneRight(Apply(s, step), c)
  {
    hide Apply;
    if c !in s.calls {
      NewCallsAreCreated(s, step, c);
    } else {
      CallKept(s, step, c);
      ContextKept(s, step, c);
      CancelsKept(s, step);
      PhaseAfter(s, step, c);
      assert DoneRight(s, c);
      var p := s.calls[c].port;
      if p in s.cancels {
        assert FlyingOn(s, c, s.cancels[p]) || !InFlight(s.calls[c].phase);
      }
      if step.CleanUp? || step.Register? {
        assert FlyingOn(s, c, step.c) ==> c == step.c;
      }
    }
  }

  lemma CancelInvKept(s: State, step: Step)
    requires Enabled(s, step) && PortInv(s) && CancelInv(s)
    ensures CancelInv(Apply(s, step))
  {
    var s' := Apply(s, step);
    hide Apply;
    forall p | p in s'.cancels
      ensures s'.cancels[p] in s'.calls && s'.calls[s'.cancels[p]].port == p && Active(s'.calls[s'.cancels[p]].phase)
    {
      CancelIsActive(s, step, p);
    }
    forall c | c in s'.calls
      ensures DoneRight(s', c)
    {
      DoneRightKept(s, step, c);
    }
  }

  lemma GateInvKept(s: State, step: Step)
    requires Enabled(s, step) && PortInv(s) && GateInv(s)
    ensures GateInv(Apply(s, step))
  {
    hide Apply;
    var s' := Apply(s, step);
    forall p | p in s'.gates
      ensures GateRight(s', p)
    {
      GateRightKept(s, step, p);
    }
    forall c | c in s'.calls && (s'.calls[c].phase.Serving? || s'.calls[c].phase.Returned?)
      ensures HasGate(s', c)
    {
      HasGateKept(s, step, c);
    }
  }

  lemma GatesKept(s: State, step: Step)
    requires Enabled(s, step)
    ensures
      Apply(s, step).gates ==
        match step
        case AddGate(c) => s.gates[s.calls[c].port := c]
        case RemoveGate(c) =>
          var p := s.calls[c].port;
          if p in s.gates && s.gates[p] == c then s.gates - {p} else s.gates
        case _ => s.gates
  {
  }

  lemma HasGateKept(s: State, step: Step, c: Id)
    requires Enabled(s, step) && PortInv(s) && GateInv(s) && c in Apply(s, step).calls
    requires Apply(s, step).calls[c].phase.Serving? || Apply(s, step).calls[c].phase.Returned?
    ensures HasGate(Apply(s, step), c)
  {
    hide Apply;
    if c !in s.calls {
      NewCallsAreCreated(s, step, c);
    } else {
      CallKept(s, step, c);
      PhaseAfter(s, step, c);
      GatesKept(s, step);
      if step.AddGate? || step.RemoveGate? {
        assert FlyingOn(s, c, step.c) ==> c == step.c;
      }
    }
  }

  lemma GateRightKept(s: State, step: Step, p: Port)
    requires Enabled(s, step) && GateInv(s) && p in Apply(s, step).gates
    ensures GateRight(Apply(s, step), p)
  {
    if p in s.gates {
      assert GateRight(s, p);
      CallKept(s, step, s.gates[p]);
    }
  }

  /** Where a call is after a step. */
  lemma PhaseAfter(s: State, step: Step, c: Id)
    requires Enabled(s, step) && c in s.calls
    ensures
      var phase' := Apply(s, step).calls[c].phase;
      && (Moves(step, c) ==> !phase'.Created?)
      && (step == Register(c) ==> phase'.Running?)
      && (step == CleanUp(c) ==> phase'.Cleaned?)
      && (Moves(step, c) && phase'.Serving? ==> step == AddGate(c))
      && (Moves(step, c) && phase'.Returned? ==> step == HandlerReturn(c))
      && (Moves(step, c) && !InFlight(phase') ==> step.CleanUp? || step.CloseChannel?)
  {
  }

  /** How one call's report count relates to the marks. */
  ghost predicate WarnedRight(s: State, c: Id)
    requires c in s.calls
  {
    var call := s.calls[c];
    && call.reports <= 1
    && (call.phase.Created? ==> call.reports == 0 && !call.streams)
    && (Active(call.phase) ==> (call.reports == 1 <==> call.port in s.warned))
    && (call.streams ==> call.reports == 0 && call.path in s.streaming)
  }

  lemma WarnedAfterWatch(s: State, overdue: set<Port>, c: Id)
    requires Shaped(s) && PortInv(s) && WarnInv(s) && c in s.calls
    ensures WarnedRight(Apply(s, Watch(overdue)), c)
  {
    assert WarnedRight(s, c);
    var s' := Apply(s, Watch(overdue));
    var hit := s.calls[c].port in Report(s, overdue) && s.inflight[s.calls[c].port] == c;
    assert s'.calls[c] == Reported(s.calls[c], hit);
  }

  /** Only the watchdog reports and marks; only clean-up takes a mark away. */
  lemma MarksKept(s: State, step: Step, c: Id)
    requires Enabled(s, step) && !step.Watch? && c in s.calls
    ensures
      var s' := Apply(s, step);
      && s'.calls[c].reports == s.calls[c].reports
      && (step == Register(c) ==> s'.calls[c].streams == (s.calls[c].path in s.streaming))
      && (step != Register(c) ==> s'.calls[c].streams == s.calls[c].streams)
      && s.streaming <= s'.streaming
      && s'.warned == if step.CleanUp? then s.warned - {s.calls[step.c].port} else s.warned
  {
  }

  lemma WarnedRightKept(s: State, step: Step, c: Id)
    requires Enabled(s, step) && PortInv(s) && WarnInv(s) && c in Apply(s, step).calls
    ensures WarnedRight(Apply(s, step), c)
  {
    hide Apply;
    if c !in s.calls {
      NewCallsAreCreated(s, step, c);
    } else if step.Watch? {
      WarnedAfterWatch(s, step.overdue, c);
    } else {
      CallKept(s, step, c);
      PhaseAfter(s, step, c);
      MarksKept(s, step, c);
      assert WarnedRight(s, c);
      assert InFlight(s.calls[c].phase) && s.calls[c].port in s.warned ==> FlyingOn(s, c, s.inflight[s.calls[c].port]);
      if step.CleanUp? {
        assert c != step.c ==> !FlyingOn(s, c, step.c);
      }
    }
  }

  lemma WarnInvKept(s: State, step: Step)
    requires Enabled(s, step) && PortInv(s) && WarnInv(s)
    ensures WarnInv(Apply(s, step))
  {
    var s' := Apply(s, step);
    forall p | p in s'.warned
      ensures p in s'.inflight
    {
    }
    hide Apply;
    forall c | c in s'.calls
      ensures WarnedRight(s', c)
    {
      WarnedRightKept(s, step, c);
    }
  }

  lemma CallsInvKept(s: State, step: Step)
    requires Enabled(s, step) && CallsInv(s)
    ensures CallsInv(Apply(s, step))
  {
    var s' := Apply(s, step);
    forall c | c in s'.calls
      ensures RelayInv(s'.calls[c])
    {
      RelayInvKept(s, step, c);
    }
  }

  lemma RelayInvKept(s: State, step: Step, c: Id)
    requires Enabled(s, step) && c in Apply(s, step).calls && (c in s.calls ==> RelayInv(s.calls[c]))
    ensures RelayInv(Apply(s, step).calls[c])
  {
    if c in s.calls {
      var call := s.calls[c];
      assert call.received + [] == call.received;
      assert call.received + call.relaying + [] == call.received + call.relaying;
    }
  }

  lemma InvKept(s: State, step: Step)
    requires Inv(s) && Enabled(s, step)
    ensures Inv(Apply(s, step))
  {
    hide PortInv, CancelInv, GateInv, WarnInv, CallsInv, Apply;
    PortInvKept(s, step);
    CancelInvKept(s, step);
    GateInvKept(s, step);
    WarnInvKept(s, step);
    CallsInvKept(s, step);
  }

  lemma {:induction false} InvAfter(steps: seq<Step>)
    requires Legal(steps)
    ensures Inv(Run(steps))
  {
    if steps != [] {
      InvAfter(steps[..|steps| - 1]);
      InvKept(Run(steps[..|steps| - 1]), steps[|steps| - 1]);
    }
  }

  lemma InvHolds(s: State)
    requires Reachable(s)
    ensures Inv(s)
  {
    var steps: seq<Step> :| Legal(steps) && Run(steps) == s;
    InvAfter(steps);
  }

  // ----- what every interleaving guarantees

  /** A completed call's context is cancelled, no map refers to it, and unless its port has been taken by a
      newer call in flight the port is gone from all of them. */
  lemma CompletionLeavesNothing(s: State, c: Id)
    requires Reachable(s) && c in s.calls && !InFlight(s.calls[c].phase)
    ensures s.calls[c].done
    ensures forall p :: p in s.cancels ==> s.cancels[p] != c
    ensures forall p :: p in s.inflight ==> s.inflight[p] != c
    ensures forall p :: p in s.gates ==> s.gates[p] != c
    ensures
      var p := s.calls[c].port;
      PortFree(s, p) ==> p !in s.cancels && p !in s.inflight && p !in s.gates && p !in s.warned
  {
    InvHolds(s);
    forall p | p in s.gates
      ensures GateRight(s, p)
    {
    }
  }

  /** What ends a call's context while it is active: its cancel function having been called, by a cancel request
      on its port, or, unless it is a stream, the end of its caller's context. */
  lemma ContextEndsIff(s: State, c: Id)
    requires Reachable(s) && c in s.calls && Active(s.calls[c].phase)
    ensures s.calls[c].done <==>
      s.calls[c].port !in s.cancels || (s.calls[c].callerDone && !(s.calls[c].kind.Rpc? && s.calls[c].streams))
  {
    InvHolds(s);
    assert DoneRight(s, c);
  }

  /** A port has a gate exactly while an RPC call on it is being served or about to remove it: credits reach the
      handler that is running and no other. */
  lemma GateWhileServing(s: State, port: Port, c: Id)
    requires Reachable(s)
    ensures port in s.gates && s.gates[port] == c <==>
      c in s.calls && s.calls[c].port == port && (s.calls[c].phase.Serving? || s.calls[c].phase.Returned?)
  {
    InvHolds(s);
    if port in s.gates {
      assert GateRight(s, port);
    }
    if c in s.calls && (s.calls[c].phase.Serving? || s.calls[c].phase.Returned?) {
      assert HasGate(s, c);
    }
  }

  /** Responses reach the channel in the order the handler gave them; a closed channel has them all and was
      closed once. */
  lemma ResponsesInOrder(s: State, c: Id)
    requires Reachable(s) && c in s.calls
    ensures s.calls[c].received <= s.calls[c].emitted
    ensures s.calls[c].phase.Closed? ==> s.calls[c].received == s.calls[c].emitted && s.calls[c].closings == 1
    ensures s.calls[c].closings <= 1
  {
    InvHolds(s);
    assert RelayInv(s.calls[c]);
    assert s.calls[c].received + [] == s.calls[c].received;
  }

  /** The watchdog's marks are on ports in flight; it reports a call at most once, and never a call whose path
      was registered as a stream before it. */
  lemma WatchdogIsQuiet(s: State, c: Id)
    requires Reachable(s) && c in s.calls
    ensures s.warned <= s.inflight.Keys
    ensures s.calls[c].reports <= 1 && (s.calls[c].streams ==> s.calls[c].reports == 0)
  {
    InvHolds(s);
    assert WarnedRight(s, c);
    assert forall p :: p in s.warned ==> p in s.inflight;
  }

  /** The table's scan and the watchdog step report the same ports, those overdue being the ones in flight for
      `warnAfter` or longer. */
  lemma ReportIsSlow(s: State, infos: map<Port, Info>, now: int, warnAfter: int, overdue: set<Port>)
    requires Shaped(s) && infos.Keys == s.inflight.Keys
    requires forall p :: p in infos ==> infos[p].path == s.calls[s.inflight[p]].path
    requires forall p :: p in infos ==> (p in overdue <==> now - infos[p].started >= warnAfter)
    ensures Report(s, overdue) == Slow(infos, s.warned, now, warnAfter, s.streaming)
  {
    var slow := Slow(infos, s.warned, now, warnAfter, s.streaming);
    forall p
      ensures p in Report(s, overdue) <==> p in slow
    {
      assert p in infos <==> p in s.inflight;
    }
  }

  /** A tick reports a call exactly if it is active, overdue, not a streaming path and not reported before; it
      changes no other report. */
  lemma WatchReportsExactly(s: State, overdue: set<Port>, c: Id)
    requires Reachable(s) && Enabled(s, Watch(overdue)) && c in s.calls
    ensures
      var call := s.calls[c];
      var hit := Active(call.phase) && call.port in overdue && call.reports == 0 && call.path !in s.streaming;
      && Apply(s, Watch(overdue)).calls[c] == call.(reports := call.reports + if hit then 1 else 0)
      && (hit ==> call.port in Apply(s, Watch(overdue)).warned)
  {
    InvHolds(s);
    assert WarnedRight(s, c);
  }

  lemma ReportsKept(s: State, step: Step, c: Id)
    requires Enabled(s, step) && c in s.calls
    ensures c in Apply(s, step).calls && Apply(s, step).calls[c].reports >= s.calls[c].reports
  {
    CallKept(s, step, c);
    if !step.Watch? {
      MarksKept(s, step, c);
    }
  }

  /** A call that a tick found active, overdue and not streaming has been reported once from then on, however
      often the watchdog runs. */
  lemma {:induction false} SlowCallsAreReportedOnce(steps: seq<Step>, k: nat, c: Id)
    requires Legal(steps) && k < |steps| && steps[k].Watch? && Legal(steps[..k]) && c in Run(steps[..k]).calls
    requires
      var s := Run(steps[..k]);
      Active(s.calls[c].phase) && s.calls[c].port in steps[k].overdue && s.calls[c].path !in s.streaming
    ensures c in Run(steps).calls && Run(steps).calls[c].reports == 1
    decreases |steps|
  {
    var before := steps[..|steps| - 1];
    InvAfter(steps);
    InvAfter(before);
    if k < |steps| - 1 {
      assert before[..k] == steps[..k];
      SlowCallsAreReportedOnce(before, k, c);
      ReportsKept(Run(before), steps[|steps| - 1], c);
    } else {
      WatchReportsExactly(Run(before), steps[k].overdue, c);
    }
    assert WarnedRight(Run(steps), c);
  }

  /** A cancel request reaches exactly the call in flight on its target port. */
  lemma CancelReachesTarget(s: State, c: Id, d: Id)
    requires Reachable(s) && Enabled(s, DoCancel(c)) && d in s.calls
    ensures
      var target := s.calls[c].kind.target;
      var s' := Apply(s, DoCancel(c));
      s'.calls[d].done <==> s.calls[d].done || (Active(s.calls[d].phase) && s.calls[d].port == target)
  {
    hide GateInv, WarnInv, CallsInv;
    InvHolds(s);
    var target := s.calls[c].kind.target;
    if target in s.cancels {
      assert FlyingOn(s, s.cancels[target], s.cancels[target]);
      assert FlyingOn(s, s.cancels[target], d) ==> s.cancels[target] == d;
    }
  }
}
