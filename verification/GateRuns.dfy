/** Every interleaving of `Acquire`, `AddCredits`, `close` and context cancellation on one gate.
    A step is one lock-protected block, one channel close, or one branch of the `select`. */
module GateRuns {
  import opened FlowGates

  type Chan = nat
  type Call = nat

  datatype Ending = GotCredit | GotUnlimited | GotClosed | GotCancelled

  /** Where a call to `Acquire` stands. */
  datatype Phase =
    | Trying                // about to enter the locked part
    | Blocked(w: Chan)      // in the select
    | Leaving(w: Chan)      // took the ctx.Done branch, about to remove itself
    | Ended(how: Ending)

  datatype System = System(
    gate: Gate<Chan>,
    calls: map<Call, Phase>,
    waking: multiset<Chan>, // detached from the list, not closed yet
    shut: set<Chan>,        // closed channels
    owners: seq<Call>,      // the call each channel was made for
    granted: nat)           // credits granted so far

  datatype Step =
    | Enter(c: Call)
    | Try(c: Call)
    | Resume(c: Call)
    | CtxDone(c: Call)
    | Leave(c: Call)
    | Grant(n: int)
    | CloseGate
    | Wake(w: Chan)

  function Start(): System {
    System(NewGate(), map[], multiset{}, {}, [], 0)
  }

  ghost predicate IsTrying(s: System, c: Call) { c in s.calls && s.calls[c].Trying? }
  ghost predicate IsBlocked(s: System, c: Call) { c in s.calls && s.calls[c].Blocked? }
  ghost predicate IsLeaving(s: System, c: Call) { c in s.calls && s.calls[c].Leaving? }
  ghost predicate HasEnded(s: System, c: Call) { c in s.calls && s.calls[c].Ended? }

  ghost predicate Enabled(s: System, step: Step) {
    match step
    case Enter(c) => c !in s.calls
    case Try(c) => IsTrying(s, c)
    case Resume(c) => IsBlocked(s, c) && s.calls[c].w in s.shut
    case CtxDone(c) => IsBlocked(s, c)
    case Leave(c) => IsLeaving(s, c)
    case Grant(_) => true
    case CloseGate => true
    case Wake(w) => w in s.waking
  }

  function AfterTry(w: Chan, v: Verdict): Phase {
    match v
    case Unlimited => Ended(GotUnlimited)
    case Credited => Ended(GotCredit)
    case Refused => Ended(GotClosed)
    case Parked => Blocked(w)
  }

  ghost function Apply(s: System, step: Step): System
    requires Enabled(s, step)
  {
    match step
    case Enter(c) => s.(calls := s.calls[c := Trying])
    case Try(c) =>
      var w := |s.owners|;
      var (gate, verdict) := Attempted(s.gate, w);
      s.(gate := gate, calls := s.calls[c := AfterTry(w, verdict)], owners := s.owners + [c])
    case Resume(c) => s.(calls := s.calls[c := Trying])
    case CtxDone(c) => s.(calls := s.calls[c := Leaving(s.calls[c].w)])
    case Leave(c) =>
      s.(gate := Abandoned(s.gate, s.calls[c].w), calls := s.calls[c := Ended(GotCancelled)])
    case Grant(n) =>
      var (gate, woken) := Granted(s.gate, n);
      s.(gate := gate, waking := s.waking + multiset(woken), granted := s.granted + if n > 0 then n else 0)
    case CloseGate =>
      var (gate, woken) := Closed(s.gate);
      s.(gate := gate, waking := s.waking + multiset(woken))
    case Wake(w) => s.(waking := s.waking - multiset{w}, shut := s.shut + {w})
  }

  /** `steps` can be taken in order from `Start()`. */
  ghost predicate Legal(steps: seq<Step>)
    decreases |steps|, 0
  {
    steps == [] || (Legal(steps[..|steps| - 1]) && Enabled(Run(steps[..|steps| - 1]), steps[|steps| - 1]))
  }

  ghost function Run(steps: seq<Step>): System
    requires Legal(steps)
    decreases |steps|, 1
  {
    if steps == [] then Start() else Apply(Run(steps[..|steps| - 1]), steps[|steps| - 1])
  }

  // ----- invariant

  ghost predicate GateInv(g: Gate<Chan>) {
    && g.credits >= 0
    && (!g.bounded ==> g.credits == 0)
    && (g.waiters != [] ==> g.bounded && g.credits == 0 && !g.closed)
    && Distinct(g.waiters)
  }

  /** Every channel made for a wait is in at most one of: the list, the being-woken set, the closed set. */
  ghost predicate ChannelInv(s: System) {
    && (forall w: Chan :: w in s.gate.waiters ==> w < |s.owners| && w !in s.waking && w !in s.shut)
    && (forall w: Chan :: w in s.waking ==> w < |s.owners| && s.waking[w] == 1 && w !in s.shut)
    && (forall w: Chan :: w in s.shut ==> w < |s.owners|)
  }

  ghost predicate WaitsOn(s: System, c: Call, w: Chan) {
    c in s.calls && (s.calls[c] == Blocked(w) || s.calls[c] == Leaving(w))
  }

  /** Waiting calls own their channel and it is in the list, being woken or closed; listed channels are waited on. */
  ghost predicate CallInv(s: System) {
    && (forall c: Call, w: Chan :: WaitsOn(s, c, w) ==>
          w < |s.owners| && s.owners[w] == c && (w in s.gate.waiters || w in s.waking || w in s.shut))
    && (forall w: Chan :: w in s.gate.waiters ==> w < |s.owners| && WaitsOn(s, s.owners[w], w))
  }

  ghost function Credited(s: System): set<Call> {
    set c | c in s.calls && s.calls[c] == Ended(GotCredit)
  }

  ghost predicate CreditInv(s: System) {
    && s.granted == s.gate.credits + |Credited(s)|
    && (!s.gate.bounded ==> s.granted == 0)
  }

  ghost predicate Inv(s: System) {
    GateInv(s.gate) && ChannelInv(s) && CallInv(s) && CreditInv(s)
  }

  lemma GateInvKept(s: System, step: Step)
    requires Inv(s) && Enabled(s, step)
    ensures GateInv(Apply(s, step).gate)
  {
    if step.Leave? {
      WithoutFirstDistinct(s.gate.waiters, s.calls[step.c].w);
    } else if step.Try? {
      assert forall i :: 0 <= i < |s.gate.waiters| ==> s.gate.waiters[i] in s.gate.waiters;
    }
  }

  lemma ChannelInvKept(s: System, step: Step)
    requires Inv(s) && Enabled(s, step)
    ensures ChannelInv(Apply(s, step))
  {
    var s' := Apply(s, step);
    if (step.Grant? && step.n > 0) || step.CloseGate? {
      OneEach(s.gate.waiters);
    }
  }

  lemma {:induction false} OneEach(ws: seq<Chan>)
    requires Distinct(ws)
    ensures forall w :: w in ws ==> multiset(ws)[w] == 1
  {
    if ws != [] {
      var rest := ws[..|ws| - 1];
      assert ws == rest + [ws[|ws| - 1]];
      OneEach(rest);
    }
  }

  lemma CallInvKept(s: System, step: Step)
    requires Inv(s) && Enabled(s, step)
    ensures CallInv(Apply(s, step))
  {
    var s' := Apply(s, step);
    forall c: Call, w: Chan | WaitsOn(s', c, w)
      ensures w < |s'.owners| && s'.owners[w] == c
      ensures w in s'.gate.waiters || w in s'.waking || w in s'.shut
    {
      if step == Try(c) {
        assert s'.gate.waiters == s.gate.waiters + [w];
      } else {
        assert WaitsOn(s, c, w);
        assert w in s.gate.waiters || w in s.waking || w in s.shut;
        if step.Leave? {
          assert WaitsOn(s, step.c, s.calls[step.c].w);
        }
      }
    }
    forall w: Chan | w in s'.gate.waiters
      ensures w < |s'.owners| && WaitsOn(s', s'.owners[w], w)
    {
      if step.Leave? {
        WithoutFirstDistinct(s.gate.waiters, s.calls[step.c].w);
      }
      assert w in s.gate.waiters || w == |s.owners|;
    }
  }

  lemma CreditInvKept(s: System, step: Step)
    requires Inv(s) && Enabled(s, step)
    ensures CreditInv(Apply(s, step))
  {
    var s' := Apply(s, step);
    if step.Try? && s.gate.bounded && s.gate.credits > 0 {
      assert Credited(s') == Credited(s) + {step.c};
    } else {
      assert Credited(s') == Credited(s);
    }
  }

  ghost predicate Reachable(s: System) {
    exists steps: seq<Step> :: Legal(steps) && Run(steps) == s
  }

  lemma InvKept(s: System, step: Step)
    requires Inv(s) && Enabled(s, step)
    ensures Inv(Apply(s, step))
  {
    GateInvKept(s, step);
    ChannelInvKept(s, step);
    CallInvKept(s, step);
    CreditInvKept(s, step);
  }

  lemma {:induction false} InvAfter(steps: seq<Step>)
    requires Legal(steps)
    ensures Inv(Run(steps))
  {
    if steps != [] {
      InvAfter(steps[..|steps| - 1]);
      InvKept(Run(steps[..|steps| - 1]), steps[|steps| - 1]);
    }
  }

  lemma InvHolds(s: System)
    requires Reachable(s)
    ensures Inv(s)
  {
    var steps: seq<Step> :| Legal(steps) && Run(steps) == s;
    InvAfter(steps);
  }

  // ----- what every interleaving guarantees

  /** No lost wake-up: a call blocked on an open channel is either listed exactly once, which needs a
      bounded, empty, open gate, or its channel has been detached and is about to be closed. */
  lemma NoLostWakeup(s: System, c: Call)
    requires Reachable(s) && IsBlocked(s, c)
    ensures
      var w := s.calls[c].w;
      if w in s.gate.waiters
      then s.gate.bounded && s.gate.credits == 0 && !s.gate.closed && multiset(s.gate.waiters)[w] == 1
           && w !in s.waking && w !in s.shut
      else Enabled(s, Wake(w)) || Enabled(s, Resume(c))
  {
    InvHolds(s);
    OneEach(s.gate.waiters);
    assert WaitsOn(s, c, s.calls[c].w);
  }

  /** Conversely, a listed channel is awaited by exactly one call: no stale entries. */
  lemma ListedChannelsAreAwaited(s: System, w: Chan)
    requires Reachable(s) && w in s.gate.waiters
    ensures exists c :: WaitsOn(s, c, w) && forall c' :: WaitsOn(s, c', w) ==> c' == c
  {
    InvHolds(s);
    assert WaitsOn(s, s.owners[w], w);
  }

  /** A channel is never closed twice, whichever wakers race. */
  lemma ChannelsCloseOnce(s: System, w: Chan)
    requires Reachable(s) && Enabled(s, Wake(w))
    ensures w !in s.shut && w !in Apply(s, Wake(w)).waking
  {
    InvHolds(s);
  }

  /** Credits granted are exactly those left plus one for each call that ended with a credit. */
  lemma CreditsAreConserved(s: System)
    requires Reachable(s)
    ensures s.granted == s.gate.credits + |Credited(s)| && s.gate.credits >= 0
  {
    InvHolds(s);
  }

  /** Every way a call can end, with the gate it ended on: a credit needs a positive balance even on a
      closed gate, a refusal needs a bounded, empty, closed gate, and cancelling costs nothing. */
  lemma HowCallsEnd(s: System, step: Step, c: Call)
    requires Reachable(s) && Enabled(s, step)
    requires !HasEnded(s, c) && HasEnded(Apply(s, step), c)
    ensures
      var g := s.gate;
      var g' := Apply(s, step).gate;
      match Apply(s, step).calls[c].how
      case GotUnlimited => !g.bounded && g' == g
      case GotCredit => g.bounded && g.credits > 0 && g' == g.(credits := g.credits - 1)
      case GotClosed => g.bounded && g.credits == 0 && g.closed && g' == g
      case GotCancelled => g'.credits == g.credits && g'.bounded == g.bounded && g'.closed == g.closed
  {
    InvHolds(s);
  }

  lemma EndedStays(s: System, step: Step, c: Call)
    requires Enabled(s, step) && HasEnded(s, c)
    ensures HasEnded(Apply(s, step), c) && Apply(s, step).calls[c] == s.calls[c]
  {
  }

  /** Endings are final over any continuation, so a call is counted under one ending only. */
  lemma {:induction false} EndingsAreFinal(steps: seq<Step>, k: nat, c: Call)
    requires Legal(steps) && k <= |steps| && Legal(steps[..k]) && HasEnded(Run(steps[..k]), c)
    ensures HasEnded(Run(steps), c) && Run(steps).calls[c] == Run(steps[..k]).calls[c]
    decreases |steps|
  {
    if k < |steps| {
      var before := steps[..|steps| - 1];
      assert before[..k] == steps[..k];
      EndingsAreFinal(before, k, c);
      EndedStays(Run(before), steps[|steps| - 1], c);
    } else {
      assert steps[..k] == steps;
    }
  }

  // ----- modes

  lemma ModesAfter(s: System, step: Step)
    requires Enabled(s, step)
    ensures Apply(s, step).gate.closed == (s.gate.closed || step.CloseGate?)
    ensures Apply(s, step).gate.bounded == (s.gate.bounded || Grants(step))
  {
  }

  /** A gate is closed exactly if it was closed at some step, whatever happened since. */
  lemma {:induction false} ClosedIff(steps: seq<Step>)
    requires Legal(steps)
    ensures Run(steps).gate.closed <==> CloseGate in steps
  {
    if steps != [] {
      var before, last := steps[..|steps| - 1], steps[|steps| - 1];
      ClosedIff(before);
      ModesAfter(Run(before), last);
      hide Apply;
      assert steps == before + [last];
    }
  }

  ghost predicate Grants(step: Step) { step.Grant? && step.n > 0 }

  /** And bounded exactly if a positive grant was made. */
  lemma {:induction false} BoundedIff(steps: seq<Step>)
    requires Legal(steps)
    ensures Run(steps).gate.bounded <==> exists k :: 0 <= k < |steps| && Grants(steps[k])
  {
    if steps != [] {
      var before, last := steps[..|steps| - 1], steps[|steps| - 1];
      BoundedIff(before);
      ModesAfter(Run(before), last);
      hide Apply, Grants;
      if k :| 0 <= k < |steps| && Grants(steps[k]) {
        assert k < |before| ==> before[k] == steps[k];
      }
      if k :| 0 <= k < |before| && Grants(before[k]) {
        assert steps[k] == before[k];
      }
    }
  }

  /** Closing sets the flag, empties the list and touches neither credits nor mode nor any call. */
  lemma CloseKeepsCredits(s: System)
    ensures
      var s' := Apply(s, CloseGate);
      && s'.gate == Gate(s.gate.bounded, s.gate.credits, true, [])
      && s'.waking == s.waking + multiset(s.gate.waiters)
      && s'.calls == s.calls && s'.shut == s.shut && s'.granted == s.granted
  {
  }

  /** Once the gate has been closed no attempt parks: it is refused exactly if the gate is bounded and empty,
      and else let through. */
  lemma ClosedGateNeverParks(steps: seq<Step>, c: Call)
    requires Legal(steps) && CloseGate in steps && Enabled(Run(steps), Try(c))
    ensures
      var s, s' := Run(steps), Apply(Run(steps), Try(c));
      && s'.gate.waiters == s.gate.waiters == []
      && HasEnded(s', c)
      && (s'.calls[c].how.GotClosed? <==> s.gate.bounded && s.gate.credits == 0)
      && (s'.calls[c].how.GotCredit? <==> s.gate.bounded && s.gate.credits > 0)
      && (s'.calls[c].how.GotUnlimited? <==> !s.gate.bounded)
  {
    ClosedIff(steps);
    InvAfter(steps);
  }
}
