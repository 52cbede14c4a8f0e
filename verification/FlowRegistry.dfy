/** The per-port maps of rpc/flow.go: gates by port, credits that arrived before their gate, and the
    decoding of a credit request. */
module FlowRegistry {
  import opened Words
  import opened FlowGates
  import opened Backpressure
  import L = CreditLoop

  /** What a credit request does in its locked block. */
  datatype Receipt = Short | Ignored | Buffered | Forwarded(credits: nat)

  /** `live` ports have a gate; `pending` counts credits per port without one. */
  datatype Ports = Ports(live: set<int64>, pending: map<int64, nat>)

  function PendingOf(r: Ports, port: int64): nat {
    if port in r.pending then r.pending[port] else 0
  }

  function Received(r: Ports, port: int64, credits: int): (Ports, Receipt) {
    if credits <= 0 then (r, Ignored)
    else if port in r.live then (r, Forwarded(credits))
    else (r.(pending := r.pending[port := PendingOf(r, port) + credits]), Buffered)
  }

  /** Registration hands the buffered credits over. */
  function Registered(r: Ports, port: int64): (Ports, nat) {
    (Ports(r.live + {port}, r.pending - {port}), PendingOf(r, port))
  }

  // ----- the payload

  const PAYLOAD_LENGTH := 12

  function GrantPort(payload: seq<byte>): int64
    requires |payload| >= PAYLOAD_LENGTH
  {
    WordSizes();
    Int64(FromLittleEndian(payload[0..8]))
  }

  function GrantCredits(payload: seq<byte>): int32
    requires |payload| >= PAYLOAD_LENGTH
  {
    WordSizes();
    Int32(FromLittleEndian(payload[8..12]))
  }

  /** The sender's layout: port as eight bytes, credits as four. */
  function GrantPayload(port: int64, credits: int32): (payload: seq<byte>)
    ensures |payload| == PAYLOAD_LENGTH
  {
    ToLittleEndian(Uint64(port), 8) + ToLittleEndian(Uint64(credits) % TWO_32, 4)
  }

  /** A grant read back is the grant sent, for every port and count, negative ones included; bytes after
      the twelfth do not matter. */
  lemma GrantRoundTrip(port: int64, credits: int32, rest: seq<byte>)
    ensures GrantPort(GrantPayload(port, credits) + rest) == port
    ensures GrantCredits(GrantPayload(port, credits) + rest) == credits
  {
    WordSizes();
    var payload := GrantPayload(port, credits) + rest;
    assert payload[0..8] == ToLittleEndian(Uint64(port), 8);
    assert payload[8..12] == ToLittleEndian(Uint64(credits) % TWO_32, 4);
    LittleEndianRoundTrip(Uint64(port), 8);
    LittleEndianRoundTrip(Uint64(credits) % TWO_32, 4);
    SignedViews(port, credits, 0);
  }

  // ----- the maps

  class Registry {
    var flowGates: map<int64, FlowGate>
    var pendingFlowCredits: map<int64, nat>

    ghost function View(): Ports
      reads this
    {
      Ports(flowGates.Keys, pendingFlowCredits)
    }

    constructor ()
      ensures View() == Ports({}, map[])
    {
      flowGates, pendingFlowCredits := map[], map[];
    }

    /** The locked block of `registerFlowGate`; the caller then adds `pending` to `g` if positive. */
    method Register(port: int64, g: FlowGate) returns (pending: nat)
      modifies this
      ensures (View(), pending) == old(Registered(View(), port))
      ensures flowGates == old(flowGates)[port := g]
      ensures pending == if port in old(pendingFlowCredits) then old(pendingFlowCredits)[port] else 0
      ensures pendingFlowCredits == old(pendingFlowCredits) - {port}
    {
      flowGates := flowGates[port := g];
      pending := if port in pendingFlowCredits then pendingFlowCredits[port] else 0;
      pendingFlowCredits := pendingFlowCredits - {port};
      assert flowGates.Keys == old(flowGates.Keys) + {port};
    }

    /** The locked block of `unregisterFlowGate`; the caller then closes `g`. A newer gate stays. */
    method Unregister(port: int64, g: FlowGate)
      modifies this
      ensures pendingFlowCredits == old(pendingFlowCredits)
      ensures port in old(flowGates) && old(flowGates)[port] == g ==> flowGates == old(flowGates) - {port}
      ensures !(port in old(flowGates) && old(flowGates)[port] == g) ==> flowGates == old(flowGates)
    {
      if port in flowGates && flowGates[port] == g {
        flowGates := flowGates - {port};
      }
    }

    /** `receiveFlowCredit` up to the unlock; on `Forwarded` the caller adds the credits to `g`. */
    method Receive(payload: seq<byte>) returns (receipt: Receipt, g: FlowGate?)
      modifies this
      ensures flowGates == old(flowGates)
      ensures receipt.Short? <==> |payload| < PAYLOAD_LENGTH
      ensures receipt.Short? ==> View() == old(View())
      ensures !receipt.Short? ==>
        (View(), receipt) == Received(old(View()), GrantPort(payload), GrantCredits(payload))
      ensures receipt.Ignored? <==> !receipt.Short? && GrantCredits(payload) <= 0
      ensures receipt.Forwarded? <==>
        !receipt.Short? && GrantCredits(payload) > 0 && GrantPort(payload) in flowGates
      ensures receipt.Forwarded? ==> receipt.credits == GrantCredits(payload)
      ensures !receipt.Buffered? ==> pendingFlowCredits == old(pendingFlowCredits)
      ensures receipt.Buffered? ==>
        var port := GrantPort(payload);
        var before := if port in old(pendingFlowCredits) then old(pendingFlowCredits)[port] else 0;
        pendingFlowCredits == old(pendingFlowCredits)[port := before + GrantCredits(payload)]
      ensures receipt.Forwarded? ==> g == flowGates[GrantPort(payload)]
      ensures !receipt.Forwarded? ==> g == null
    {
      if |payload| < PAYLOAD_LENGTH {
        return Short, null;
      }
      var port := GrantPort(payload);
      var credits := GrantCredits(payload);
      if credits <= 0 {
        return Ignored, null;
      }
      if port !in flowGates {
        var before := if port in pendingFlowCredits then pendingFlowCredits[port] else 0;
        pendingFlowCredits := pendingFlowCredits[port := before + credits];
        return Buffered, null;
      }
      return Forwarded(credits), flowGates[port];
    }
  }

  // ----- each port sees its own credit loop

  /** The maps as the loop of one port sees them. */
  ghost predicate Shows(r: Ports, port: int64, s: L.Loop) {
    && (port in r.live <==> s.stage.Registering? || s.stage.Live?)
    && PendingOf(r, port) == s.buffered
  }

  /** Handling a credit request is the loop's `Arrive` on its own port and invisible to every other port. */
  lemma ReceiveIsArrive(p: Policy, r: Ports, port: int64, s: L.Loop, i: nat, other: int64, o: L.Loop)
    requires Shows(r, port, s) && L.Enabled(p, s, L.Arrive(i)) && s.network[i] > 0
    requires other != port && Shows(r, other, o)
    ensures
      var (r', receipt) := Received(r, port, s.network[i]);
      var s' := L.Apply(p, s, L.Arrive(i));
      && Shows(r', port, s') && Shows(r', other, o)
      && s'.lookedUp == s.lookedUp + if receipt.Forwarded? then [receipt.credits] else []
  {
    assert s.lookedUp + [] == s.lookedUp;
  }

  /** Registering is the loop's `Register`: exactly the credits buffered for that port move to its gate. */
  lemma RegisteredIsRegister(p: Policy, r: Ports, port: int64, s: L.Loop, other: int64, o: L.Loop)
    requires Shows(r, port, s) && L.Enabled(p, s, L.Register)
    requires other != port && Shows(r, other, o)
    ensures
      var (r', pending) := Registered(r, port);
      var s' := L.Apply(p, s, L.Register);
      Shows(r', port, s') && Shows(r', other, o) && s'.stage == L.Registering(pending)
  {
  }
}
