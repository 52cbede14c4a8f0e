/** Calls from Go to Dart and back (rpc/rpc.go, `ReverseCall` and `receiveReverseResponse`): the table and
    its channels, and every interleaving of callers, cancellations and replies. */
module ReverseCalls {

  type Payload = seq<int>

  /** A channel of capacity one. */
  class ReplyChannel {
    var buffer: seq<Payload>

    constructor ()
      ensures buffer == []
    {
      buffer := [];
    }

    /** A send on a full channel would block. */
    method Send(payload: Payload)
      requires |buffer| < 1
      modifies this
      ensures buffer == old(buffer) + [payload]
    {
      buffer := buffer + [payload];
    }
  }

  class ReverseTable {
    var reverseID: nat
    var reversePending: map<nat, ReplyChannel>

    /** Pending ids were handed out, and nothing was sent on their channels yet. */
    ghost predicate Valid()
      reads this, reversePending.Values
    {
      && (forall id :: id in reversePending ==> 1 <= id <= reverseID && reversePending[id].buffer == [])
      && (forall a, b :: a in reversePending && b in reversePending && a != b ==>
            reversePending[a] != reversePending[b])
    }

    constructor ()
      ensures Valid() && reverseID == 0 && reversePending == map[]
    {
      reverseID, reversePending := 0, map[];
    }

    /** The first locked block of `ReverseCall`. */
    method Register() returns (id: nat, ch: ReplyChannel)
      requires Valid()
      modifies this
      ensures Valid() && fresh(ch)
      ensures id == reverseID == old(reverseID) + 1 && id !in old(reversePending)
      ensures reversePending == old(reversePending)[id := ch]
    {
      reverseID := reverseID + 1;
      id := reverseID;
      ch := new ReplyChannel();
      reversePending := reversePending[id := ch];
    }

    /** The locked block after a failed push or a done context. */
    method Forget(id: nat)
      requires Valid()
      modifies this
      ensures Valid() && reverseID == old(reverseID) && reversePending == old(reversePending) - {id}
    {
      reversePending := reversePending - {id};
    }

    /** `receiveReverseResponse`: the entry is removed under the lock, then the payload sent without blocking. */
    method Reply(id: nat, payload: Payload) returns (known: bool)
      requires Valid()
      modifies this, reversePending.Values
      ensures Valid() && reverseID == old(reverseID) && reversePending == old(reversePending) - {id}
      ensures known <==> id in old(reversePending)
      ensures known ==> old(reversePending)[id].buffer == [payload]
    {
      known := id in reversePending;
      if known {
        var ch := reversePending[id];
        reversePending := reversePending - {id};
        ch.Send(payload);
      }
    }
  }

  // ----- interleavings

  datatype Phase = Pushing | Waiting | GivingUp | Returned(payload: Payload) | PushFailed | Cancelled

  datatype Carried = Carried(id: nat, payload: Payload)

  datatype State = State(
    lastId: nat,
    pending: set<nat>,
    calls: map<nat, Phase>,
    buffers: map<nat, seq<Payload>>,
    carrying: seq<Carried>,    // taken from the table, not sent yet
    first: map<nat, Payload>)  // history: the first reply to each call made

  datatype Step =
    | Begin
    | Pushed(id: nat)
    | PushError(id: nat)
    | CtxDone(id: nat)
    | GiveUp(id: nat)
    | Receive(id: nat)
    | Reply(id: nat, payload: Payload)
    | Put(i: nat)

  const START := State(0, {}, map[], map[], [], map[])

  ghost predicate Is(s: State, id: nat, phase: Phase) {
    id in s.calls && s.calls[id] == phase
  }

  /** Each call has its channel. */
  ghost predicate Shaped(s: State) {
    s.buffers.Keys == s.calls.Keys && forall i :: 0 <= i < |s.carrying| ==> s.carrying[i].id in s.calls
  }

  ghost predicate Enabled(s: State, step: Step) {
    && Shaped(s)
    && match step
       case Begin => true
       case Pushed(id) => Is(s, id, Pushing)
       case PushError(id) => Is(s, id, Pushing)
       case CtxDone(id) => Is(s, id, Waiting)
       case GiveUp(id) => Is(s, id, GivingUp)
       case Receive(id) => Is(s, id, Waiting) && s.buffers[id] != []
       case Reply(_, _) => true
       case Put(i) => i < |s.carrying| && |s.buffers[s.carrying[i].id]| < 1
  }

  ghost function Apply(s: State, step: Step): State
    requires Enabled(s, step)
  {
    match step
    case Begin =>
      var id := s.lastId + 1;
      s.(lastId := id, pending := s.pending + {id}, calls := s.calls[id := Pushing], buffers := s.buffers[id := []])
    case Pushed(id) => s.(calls := s.calls[id := Waiting])
    case PushError(id) => s.(calls := s.calls[id := PushFailed], pending := s.pending - {id})
    case CtxDone(id) => s.(calls := s.calls[id := GivingUp])
    case GiveUp(id) => s.(calls := s.calls[id := Cancelled], pending := s.pending - {id})
    case Receive(id) =>
      s.(calls := s.calls[id := Returned(s.buffers[id][0])], buffers := s.buffers[id := s.buffers[id][1..]])
    case Reply(id, payload) =>
      var s' := if id in s.calls && id !in s.first then s.(first := s.first[id := payload]) else s;
      if id in s.pending && id in s.calls then
        s'.(pending := s.pending - {id}, carrying := s.carrying + [Carried(id, payload)])
      else s'
    case Put(i) =>
      var c := s.carrying[i];
      s.(carrying := s.carrying[..i] + s.carrying[i + 1..], buffers := s.buffers[c.id := s.buffers[c.id] + [c.payload]])
  }

  ghost predicate Legal(steps: seq<Step>)
    decreases |steps|, 0
  {
    steps == [] || (Legal(steps[..|steps| - 1]) && Enabled(Run(steps[..|steps| - 1]), steps[|steps| - 1]))
  }

  ghost function Run(steps: seq<Step>): State
    requires Legal(steps)
    decreases |steps|, 1
  {
    if steps == [] then START else Apply(Run(steps[..|steps| - 1]), steps[|steps| - 1])
  }

  ghost predicate Reachable(s: State) {
    exists steps: seq<Step> :: Legal(steps) && Run(steps) == s
  }

  ghost predicate CarriedFor(s: State, id: nat) {
    exists i :: 0 <= i < |s.carrying| && s.carrying[i].id == id
  }

  ghost predicate IdInv(s: State) {
    && Shaped(s)
    && (forall id: nat :: id in s.calls <==> 1 <= id <= s.lastId)
    && (forall id :: id in s.first ==> id in s.calls)
  }

  ghost predicate Unanswered(s: State, id: nat)
    requires Shaped(s) && id in s.calls
  {
    s.buffers[id] == [] && !s.calls[id].Returned?
  }

  /** The call has neither returned nor removed its entry. */
  predicate IsOpen(phase: Phase) {
    phase.Pushing? || phase.Waiting? || phase.GivingUp?
  }

  /** Awaited: no reply yet. */
  ghost predicate PendingInv(s: State)
    requires Shaped(s)
  {
    forall id :: id in s.pending ==> id in s.calls && IsOpen(s.calls[id]) && id !in s.first && Unanswered(s, id)
  }

  /** Carried: the first reply, once, and nothing of it anywhere else. */
  ghost predicate CarriedInv(s: State)
    requires Shaped(s)
  {
    && (forall i, j :: 0 <= i < j < |s.carrying| ==> s.carrying[i].id != s.carrying[j].id)
    && (forall i :: 0 <= i < |s.carrying| ==>
          s.carrying[i].id in s.first && s.first[s.carrying[i].id] == s.carrying[i].payload &&
          Unanswered(s, s.carrying[i].id))
  }

  /** Buffered or returned: the first reply. */
  ghost predicate AnswerInv(s: State)
    requires Shaped(s)
  {
    forall id :: id in s.calls ==> AnsweredRight(s, id)
  }

  /** An open call has an entry in the table, or the reply is on its way. */
  ghost predicate LiveInv(s: State)
    requires Shaped(s)
  {
    forall id :: id in s.calls && IsOpen(s.calls[id]) && id !in s.pending ==>
      CarriedFor(s, id) || s.buffers[id] != []
  }

  ghost predicate Inv(s: State) {
    IdInv(s) && PendingInv(s) && CarriedInv(s) && AnswerInv(s) && LiveInv(s)
  }

  lemma IdInvKept(s: State, step: Step)
    requires Enabled(s, step) && IdInv(s)
    ensures IdInv(Apply(s, step))
  {
  }

  lemma PendingInvKept(s: State, step: Step)
    requires Enabled(s, step) && IdInv(s) && PendingInv(s) && CarriedInv(s)
    ensures Shaped(Apply(s, step)) && PendingInv(Apply(s, step))
  {
    IdInvKept(s, step);
  }

  lemma CarriedAfterPut(s: State, i: nat)
    requires Enabled(s, Put(i)) && CarriedInv(s)
    ensures Shaped(Apply(s, Put(i))) && CarriedInv(Apply(s, Put(i)))
  {
    var s' := Apply(s, Put(i));
    forall j | 0 <= j < |s'.carrying|
      ensures s'.carrying[j] == s.carrying[if j < i then j else j + 1] && s'.carrying[j].id != s.carrying[i].id
    {
    }
  }

  lemma CarriedInvKept(s: State, step: Step)
    requires Enabled(s, step) && IdInv(s) && PendingInv(s) && CarriedInv(s)
    ensures Shaped(Apply(s, step)) && CarriedInv(Apply(s, step))
  {
    IdInvKept(s, step);
    if step.Put? {
      CarriedAfterPut(s, step.i);
    }
  }

  ghost predicate AnsweredRight(s: State, id: nat)
    requires Shaped(s) && id in s.calls
  {
    && (s.buffers[id] != [] ==> id in s.first && s.buffers[id] == [s.first[id]] && !s.calls[id].Returned?)
    && (s.calls[id].Returned? ==> id in s.first && s.calls[id].payload == s.first[id])
  }

  lemma AnsweredRightKept(s: State, step: Step, id: nat)
    requires Enabled(s, step) && IdInv(s) && CarriedInv(s) && AnswerInv(s)
    requires Shaped(Apply(s, step)) && id in Apply(s, step).calls
    ensures AnsweredRight(Apply(s, step), id)
  {
    if id in s.calls {
      assert AnsweredRight(s, id);
      if step == Receive(id) {
        assert Apply(s, step).buffers[id] == [];
      }
    }
  }

  lemma AnswerInvKept(s: State, step: Step)
    requires Enabled(s, step) && IdInv(s) && CarriedInv(s) && AnswerInv(s)
    ensures Shaped(Apply(s, step)) && AnswerInv(Apply(s, step))
  {
    IdInvKept(s, step);
    var s' := Apply(s, step);
    hide Apply;
    forall id | id in s'.calls
      ensures AnsweredRight(s', id)
    {
      AnsweredRightKept(s, step, id);
    }
  }

  lemma CarryingKept(s: State, step: Step, id: nat)
    requires Enabled(s, step) && CarriedFor(s, id)
    ensures CarriedFor(Apply(s, step), id) || (step.Put? && s.carrying[step.i].id == id)
  {
    var k :| 0 <= k < |s.carrying| && s.carrying[k].id == id;
    var s' := Apply(s, step);
    if step.Put? {
      if k != step.i {
        assert s'.carrying[if k < step.i then k else k - 1] == s.carrying[k];
      }
    } else {
      assert s'.carrying[k].id == id;
    }
  }

  lemma LiveInvKept(s: State, step: Step)
    requires Enabled(s, step) && IdInv(s) && LiveInv(s)
    ensures Shaped(Apply(s, step)) && LiveInv(Apply(s, step))
  {
    IdInvKept(s, step);
    var s' := Apply(s, step);
    forall id | id in s'.calls && IsOpen(s'.calls[id]) && id !in s'.pending
      ensures CarriedFor(s', id) || s'.buffers[id] != []
    {
      if CarriedFor(s, id) {
        CarryingKept(s, step, id);
      }
      if step.Reply? && step.id == id && id in s.pending {
        assert s'.carrying[|s.carrying|].id == id;
      }
    }
  }

  lemma InvKept(s: State, step: Step)
    requires Inv(s) && Enabled(s, step)
    ensures Inv(Apply(s, step))
  {
    hide IdInv, PendingInv, CarriedInv, AnswerInv, LiveInv, Apply;
    IdInvKept(s, step);
    PendingInvKept(s, step);
    CarriedInvKept(s, step);
    AnswerInvKept(s, step);
    LiveInvKept(s, step);
  }

  lemma {:induction false} InvAfter(steps: seq<Step>)
    requires Legal(steps)
    ensures Inv(Run(steps))
  {
    if steps != [] {
      InvAfter(steps[..|steps| - 1]);
      InvKept(Run(steps[..|steps| - 1]), steps[|steps| - 1]);
    }
  }

  lemma InvHolds(s: State)
    requires Reachable(s)
    ensures Inv(s)
  {
    var steps: seq<Step> :| Legal(steps) && Run(steps) == s;
    InvAfter(steps);
  }

  /** A reply taken from the table can always be sent at once, and each channel gets at most one. */
  lemma SendsNeverBlock(s: State, i: nat)
    requires Reachable(s) && i < |s.carrying|
    ensures Enabled(s, Put(i)) && s.buffers[s.carrying[i].id] == []
    ensures forall j :: 0 <= j < |s.carrying| && s.carrying[j].id == s.carrying[i].id ==> j == i
    ensures forall id :: id in s.calls ==> |s.buffers[id]| <= 1
  {
    InvHolds(s);
    assert forall id :: id in s.calls ==> AnsweredRight(s, id);
  }

  /** Ids are never handed out twice. */
  lemma IdsAreFresh(s: State)
    requires Reachable(s) && Enabled(s, Begin)
    ensures s.lastId + 1 !in s.calls && s.lastId + 1 !in s.pending && !CarriedFor(s, s.lastId + 1)
  {
    InvHolds(s);
  }

  /** What a call returns is the first reply made to its id; later ones are dropped. */
  lemma FirstReplyWins(s: State, id: nat)
    requires Reachable(s) && id in s.calls && s.calls[id].Returned?
    ensures id in s.first && s.calls[id].payload == s.first[id]
  {
    InvHolds(s);
    assert AnsweredRight(s, id);
  }

  /** A waiting call whose first reply has been received gets it: it is being sent or ready to be read. */
  lemma RepliesAreNotLost(s: State, id: nat)
    requires Reachable(s) && Is(s, id, Waiting) && id in s.first
    ensures Enabled(s, Receive(id)) || exists i :: 0 <= i < |s.carrying| && s.carrying[i].id == id && Enabled(s, Put(i))
  {
    InvHolds(s);
    if s.buffers[id] == [] {
      assert CarriedFor(s, id);
      var i :| 0 <= i < |s.carrying| && s.carrying[i].id == id;
      assert Enabled(s, Put(i));
    }
  }

  /** The table holds exactly the calls that are open and have had no reply: no entry outlives its call. */
  lemma TableIsExact(s: State, id: nat)
    requires Reachable(s)
    ensures id in s.pending <==> id in s.calls && IsOpen(s.calls[id]) && id !in s.first
  {
    InvHolds(s);
    if id in s.calls && IsOpen(s.calls[id]) && id !in s.pending {
      assert AnsweredRight(s, id);
    }
  }
}
