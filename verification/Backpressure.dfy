/** The stream transformer of lib/bridge/backpressure.dart: one event callback at a time as a function
    on a value, and the mutable transformer whose methods refine it. */
module Backpressure {

  datatype Strategy = PassThrough | DropLatest | BufferDrop | Block | Batch

  datatype Policy = Policy(strategy: Strategy, bufferSize: int, batchMaxSize: int)

  /** The transformer's fields plus what its surroundings can see of it. */
  datatype Flow<T> = Flow(
    pending: seq<T>,
    paused: bool,        // the source subscription is paused
    armed: bool,         // a flush timer is set
    held: bool,          // the consumer paused the controller
    delivered: seq<T>,   // handed to the controller
    reported: seq<nat>,  // arguments of the onDemand calls
    failures: nat,       // events that threw
    closed: bool,
    cancelled: bool)

  datatype Event<T> =
    | Data(value: T)
    | Hold
    | Release
    | Timeout
    | SourceDone
    | Cancel

  function Listening<T>(): Flow<T> {
    Flow([], false, false, false, [], [], 0, false, false)
  }

  /** `_pump`: everything goes out unless the consumer is paused; `Block` then reports and resumes. */
  function Pumped<T>(p: Policy, f: Flow<T>): Flow<T> {
    var g := if f.held then f else f.(pending := [], delivered := f.delivered + f.pending);
    if !p.strategy.Block? then g
    else g.(reported := if f.held || f.pending == [] then f.reported else f.reported + [|f.pending|],
            paused := f.paused && |g.pending| >= p.bufferSize)
  }

  function OnData<T>(p: Policy, f: Flow<T>, v: T): Flow<T> {
    match p.strategy
    case PassThrough => Pumped(p, f)
    case DropLatest => Pumped(p, f.(pending := [v]))
    case BufferDrop =>
      if |f.pending| >= p.bufferSize then
        if f.pending == [] then f.(failures := f.failures + 1)
        else Pumped(p, f.(pending := f.pending[1..] + [v]))
      else Pumped(p, f.(pending := f.pending + [v]))
    case Block =>
      var g := f.(pending := f.pending + [v]);
      Pumped(p, g.(paused := f.paused || |g.pending| >= p.bufferSize))
    case Batch =>
      var g := f.(pending := f.pending + [v]);
      if |g.pending| >= p.batchMaxSize then Pumped(p, g.(armed := false)) else g.(armed := true)
  }

  function OnDone<T>(f: Flow<T>): Flow<T> {
    f.(armed := false, delivered := f.delivered + f.pending, pending := [], closed := true)
  }

  function OnEvent<T>(p: Policy, f: Flow<T>, e: Event<T>): Flow<T> {
    match e
    case Data(v) => OnData(p, f, v)
    case Hold => f.(held := true)
    case Release => Pumped(p, f.(held := false))
    case Timeout => Pumped(p, f.(armed := false))
    case SourceDone => OnDone(f)
    case Cancel => f.(armed := false, cancelled := true)
  }

  /** When the surroundings can fire an event: a paused, ended or cancelled source sends nothing, a consumer
      that cancelled is gone, and a timer that is set may fire at any time. */
  predicate CanFire<T>(f: Flow<T>, e: Event<T>) {
    match e
    case Data(_) => !f.paused && !f.closed && !f.cancelled
    case Hold => !f.held && !f.cancelled
    case Release => f.held && !f.cancelled
    case Timeout => f.armed
    case SourceDone => !f.paused && !f.closed && !f.cancelled
    case Cancel => !f.cancelled
  }

  class Transformer<T> {
    const policy: Policy
    var pending: seq<T>
    var paused: bool
    var armed: bool
    var held: bool
    var delivered: seq<T>
    var reported: seq<nat>
    var failures: nat
    var closed: bool
    var cancelled: bool

    ghost function View(): Flow<T>
      reads this
    {
      Flow(pending, paused, armed, held, delivered, reported, failures, closed, cancelled)
    }

    constructor (policy: Policy)
      ensures View() == Listening() && this.policy == policy
    {
      this.policy := policy;
      pending, delivered, reported, failures := [], [], [], 0;
      paused, armed, held, closed, cancelled := false, false, false, false, false;
    }

    method Pump()
      modifies this
      ensures View() == Pumped(policy, old(View()))
      ensures held == old(held) && armed == old(armed) && delivered + pending == old(delivered + pending)
      ensures pending == if held then old(pending) else []
    {
      var drained := 0;
      while pending != [] && !held
        invariant View() == old(View()).(pending := pending, delivered := delivered)
        invariant delivered + pending == old(delivered + pending)
        invariant drained + |pending| == |old(pending)|
        invariant held ==> pending == old(pending) && delivered == old(delivered)
        decreases |pending|
      {
        delivered := delivered + [pending[0]];
        pending := pending[1..];
        drained := drained + 1;
      }
      assert pending == [] ==> delivered + pending == delivered;
      if policy.strategy.Block? {
        if drained > 0 {
          reported := reported + [drained];
        }
        if paused && |pending| < policy.bufferSize {
          paused := false;
        }
      }
    }

    method ReceiveBounded(value: T)
      requires policy.strategy.BufferDrop?
      modifies this
      ensures View() == OnData(policy, old(View()), value)
    {
      hide Pumped;
      if |pending| >= policy.bufferSize {
        if pending == [] {
          failures := failures + 1;
          return;
        }
        pending := pending[1..];
      }
      pending := pending + [value];
      Pump();
    }

    method ReceiveBlocking(value: T)
      requires policy.strategy.Block?
      modifies this
      ensures View() == OnData(policy, old(View()), value)
    {
      hide Pumped;
      pending := pending + [value];
      if |pending| >= policy.bufferSize && !paused {
        paused := true;
      }
      Pump();
    }

    method ReceiveBatched(value: T)
      requires policy.strategy.Batch?
      modifies this
      ensures View() == OnData(policy, old(View()), value)
      ensures old(|pending|) + 1 < policy.batchMaxSize ==>
        pending == old(pending) + [value] && delivered == old(delivered) && armed
      ensures old(|pending|) + 1 >= policy.batchMaxSize ==>
        !armed && delivered + pending == old(delivered + pending) + [value] && (held || pending == [])
    {
      hide Pumped;
      pending := pending + [value];
      if |pending| >= policy.batchMaxSize {
        armed := false;
        Pump();
        assert delivered + pending == old(delivered) + (old(pending) + [value]);
      } else if !armed {
        armed := true;
      }
    }

    /** `_onData`. */
    method Receive(value: T)
      modifies this
      ensures View() == OnData(policy, old(View()), value)
    {
      hide Pumped;
      match policy.strategy
      case PassThrough =>
        Pump();
      case DropLatest =>
        pending := [value];
        Pump();
      case BufferDrop =>
        ReceiveBounded(value);
      case Block =>
        ReceiveBlocking(value);
      case Batch =>
        ReceiveBatched(value);
    }

    method Fire()
      modifies this
      ensures View() == OnEvent(policy, old(View()), Timeout)
    {
      armed := false;
      Pump();
    }

    method Finish()
      modifies this
      ensures View() == OnDone(old(View()))
    {
      armed := false;
      while pending != []
        invariant View() == old(View()).(pending := pending, delivered := delivered, armed := false)
        invariant delivered + pending == old(delivered + pending)
        decreases |pending|
      {
        delivered := delivered + [pending[0]];
        pending := pending[1..];
      }
      assert delivered == delivered + pending;
      closed := true;
    }

    method Stop()
      modifies this
      ensures View() == OnEvent(policy, old(View()), Cancel)
      ensures !armed && cancelled && pending == old(pending) && delivered == old(delivered)
    {
      armed := false;
      cancelled := true;
    }

    /** The consumer resumes: `onResume` is `_pump`. */
    method Resume()
      modifies this
      ensures View() == OnEvent(policy, old(View()), Release)
    {
      held := false;
      Pump();
    }
  }
}
