/** What the strategies of lib/bridge/backpressure.dart guarantee over every sequence of events. */
module BackpressureRuns {
  import opened Backpressure

  // ----- runs, newest event last

  ghost predicate Legal<T>(p: Policy, events: seq<Event<T>>)
    decreases |events|
  {
    events == [] ||
    (var before := events[..|events| - 1];
     Legal(p, before) && CanFire(Run(p, before), events[|events| - 1]))
  }

  ghost function Run<T>(p: Policy, events: seq<Event<T>>): Flow<T>
    decreases |events|
  {
    if events == [] then Listening()
    else OnEvent(p, Run(p, events[..|events| - 1]), events[|events| - 1])
  }

  /** The items the source sent, oldest first. */
  ghost function Received<T>(events: seq<Event<T>>): seq<T>
    decreases |events|
  {
    if events == [] then []
    else
      var e := events[|events| - 1];
      Received(events[..|events| - 1]) + (if e.Data? then [e.value] else [])
  }

  ghost function Sum(ns: seq<nat>): nat {
    if ns == [] then 0 else Sum(ns[..|ns| - 1]) + ns[|ns| - 1]
  }

  lemma SumSnoc(ns: seq<nat>, n: nat)
    ensures Sum(ns + [n]) == Sum(ns) + n
  {
    assert (ns + [n])[..|ns|] == ns;
  }

  // ----- block

  ghost predicate BlockInv<T>(p: Policy, f: Flow<T>, received: seq<T>) {
    && f.delivered + f.pending == received
    && (f.paused <==> |f.pending| >= p.bufferSize)
    && |f.pending| <= p.bufferSize
    && (!f.held ==> f.pending == [])
    && Sum(f.reported) <= |f.delivered|
    && (!f.closed ==> Sum(f.reported) == |f.delivered|)
    && (f.closed ==> f.pending == [])
    && f.failures == 0
  }

  lemma BlockStep<T>(p: Policy, f: Flow<T>, received: seq<T>, e: Event<T>)
    requires p.strategy.Block? && p.bufferSize >= 1 && BlockInv(p, f, received) && CanFire(f, e)
    ensures BlockInv(p, OnEvent(p, f, e), received + if e.Data? then [e.value] else [])
  {
    var f' := OnEvent(p, f, e);
    var added := if e.Data? then [e.value] else [];
    assert f.delivered + f.pending + added == f.delivered + (f.pending + added);
    if !f.held || e.Release? {
      SumSnoc(f.reported, |f.pending + added|);
    }
  }

  /** Lossless, ordered, bounded, paused exactly when full, and every drained item reported once. */
  lemma {:induction false} BlockHolds<T>(p: Policy, events: seq<Event<T>>)
    requires p.strategy.Block? && p.bufferSize >= 1 && Legal(p, events)
    ensures BlockInv(p, Run(p, events), Received(events))
    decreases |events|
  {
    if events != [] {
      BlockHolds(p, events[..|events| - 1]);
      BlockStep(p, Run(p, events[..|events| - 1]), Received(events[..|events| - 1]), events[|events| - 1]);
    }
  }

  /** The number of items held back, by the events alone: those since the consumer paused. */
  ghost function HeldBack<T>(events: seq<Event<T>>): nat
    decreases |events|
  {
    if events == [] then 0
    else
      var before := events[..|events| - 1];
      match events[|events| - 1]
      case Data(_) => if IsHeld(before) then HeldBack(before) + 1 else 0
      case Release => 0
      case SourceDone => 0
      case _ => HeldBack(before)
  }

  /** How many items went out at each drain: one for an item that finds the consumer listening, all that were held
      back when it resumes. */
  ghost function Drains<T>(events: seq<Event<T>>): seq<nat>
    decreases |events|
  {
    if events == [] then []
    else
      var before := events[..|events| - 1];
      match events[|events| - 1]
      case Data(_) => if IsHeld(before) then Drains(before) else Drains(before) + [1]
      case Release => if HeldBack(before) > 0 then Drains(before) + [HeldBack(before)] else Drains(before)
      case _ => Drains(before)
  }

  /** What an event leaves pending and what it reports. */
  lemma BlockReports<T>(p: Policy, f: Flow<T>, e: Event<T>)
    requires p.strategy.Block? && (!f.held ==> f.pending == []) && !f.armed
    ensures
      var f' := OnEvent(p, f, e);
      !f'.armed &&
      match e
      case Data(_) =>
        |f'.pending| == (if f.held then |f.pending| + 1 else 0)
        && f'.reported == if f.held then f.reported else f.reported + [1]
      case Release =>
        f'.pending == [] && f'.reported == if f.pending == [] then f.reported else f.reported + [|f.pending|]
      case SourceDone => f'.pending == [] && f'.reported == f.reported
      case _ => f'.reported == f.reported && f'.pending == f.pending
  {
  }

  /** Each drain is reported, with its size, and nothing else is: no report of zero. */
  lemma {:induction false} ReportsAreDrains<T>(p: Policy, events: seq<Event<T>>)
    requires p.strategy.Block? && p.bufferSize >= 1 && Legal(p, events)
    ensures Run(p, events).reported == Drains(events)
    ensures |Run(p, events).pending| == HeldBack(events) && !Run(p, events).armed
    decreases |events|
  {
    if events != [] {
      var before := events[..|events| - 1];
      ReportsAreDrains(p, before);
      HeldByEvents(p, before);
      BlockHolds(p, before);
      BlockReports(p, Run(p, before), events[|events| - 1]);
      hide OnEvent, BlockInv;
    }
  }

  /** With a buffer size below one, which the policy's constructor allows, the first item pauses the
      source for good. */
  lemma {:induction false} BlockWedges<T>(p: Policy, events: seq<Event<T>>)
    requires p.strategy.Block? && p.bufferSize < 1 && Legal(p, events)
    ensures Run(p, events).paused <==> Received(events) != []
    ensures |Received(events)| <= 1
    decreases |events|
  {
    if events != [] {
      BlockWedges(p, events[..|events| - 1]);
    }
  }

  /** Once an item has arrived and the consumer is not paused, the source runs exactly when the buffer
      size is at least one. */
  lemma BlockRunsOnIff<T>(p: Policy, events: seq<Event<T>>)
    requires p.strategy.Block? && Legal(p, events)
    requires Received(events) != [] && !Run(p, events).held
    ensures !Run(p, events).paused <==> p.bufferSize >= 1
  {
    if p.bufferSize >= 1 {
      BlockHolds(p, events);
    } else {
      BlockWedges(p, events);
    }
  }

  // ----- bufferDrop

  /** The items received since pending was last emptied, oldest first. */
  ghost function SinceDrain<T>(p: Policy, events: seq<Event<T>>): seq<T>
    decreases |events|
  {
    if events == [] then []
    else
      var before := events[..|events| - 1];
      Waiting(Run(p, before).held, SinceDrain(p, before), events[|events| - 1])
  }

  ghost function Waiting<T>(held: bool, since: seq<T>, e: Event<T>): seq<T> {
    match e
    case Data(v) => if held then since + [v] else []
    case Release => []
    case SourceDone => []
    case _ => since
  }

  ghost function LastN<T>(s: seq<T>, n: int): seq<T> {
    if n <= 0 then [] else if |s| <= n then s else s[|s| - n..]
  }

  /** `a` can be had from `b` by leaving items out. */
  ghost predicate Subsequence<T>(a: seq<T>, b: seq<T>)
    decreases |b|
  {
    a == [] ||
    (b != [] &&
     ((a[|a| - 1] == b[|b| - 1] && Subsequence(a[..|a| - 1], b[..|b| - 1])) || Subsequence(a, b[..|b| - 1])))
  }

  lemma SubsequenceGrows<T>(a: seq<T>, b: seq<T>, v: T)
    requires Subsequence(a, b)
    ensures Subsequence(a + [v], b + [v]) && Subsequence(a, b + [v])
  {
    assert (a + [v])[..|a|] == a && (b + [v])[..|b|] == b;
  }

  /** Leaving one more item out of a subsequence. */
  lemma {:induction false} SubsequenceWithout<T>(a: seq<T>, i: nat, b: seq<T>)
    requires i < |a| && Subsequence(a, b)
    ensures Subsequence(a[..i] + a[i + 1..], b)
    decreases |b|
  {
    var a' := a[..|a| - 1];
    var b' := b[..|b| - 1];
    var shorter := a[..i] + a[i + 1..];
    if a[|a| - 1] == b[|b| - 1] && Subsequence(a', b') {
      if i == |a| - 1 {
        assert shorter == a';
      } else {
        SubsequenceWithout(a', i, b');
        assert shorter[..|shorter| - 1] == a'[..i] + a'[i + 1..];
      }
    } else {
      SubsequenceWithout(a, i, b');
    }
  }

  ghost predicate DropInv<T>(p: Policy, f: Flow<T>, received: seq<T>, sinceDrain: seq<T>) {
    && f.pending == LastN(sinceDrain, p.bufferSize)
    && (!f.held ==> f.pending == [] && sinceDrain == [])
    && Subsequence(f.delivered + f.pending, received)
    && !f.paused
    && f.failures == (if p.bufferSize >= 1 then 0 else |received|)
  }

  lemma PumpKeepsItems<T>(p: Policy, f: Flow<T>)
    ensures Pumped(p, f).delivered + Pumped(p, f).pending == f.delivered + f.pending
  {
  }

  /** The items held or handed on after one more arrival: all of them, or all but the oldest pending one. */
  ghost function KeptItems<T>(p: Policy, f: Flow<T>, v: T): seq<T> {
    var all := f.delivered + f.pending;
    if |f.pending| < p.bufferSize then all + [v]
    else if f.pending == [] then all
    else (all + [v])[..|f.delivered|] + (all + [v])[|f.delivered| + 1..]
  }

  lemma DropOnDataKeeps<T>(p: Policy, f: Flow<T>, v: T)
    requires p.strategy.BufferDrop?
    ensures OnData(p, f, v).delivered + OnData(p, f, v).pending == KeptItems(p, f, v)
  {
    hide Pumped;
    if |f.pending| < p.bufferSize {
      PumpKeepsItems(p, f.(pending := f.pending + [v]));
    } else if f.pending != [] {
      PumpKeepsItems(p, f.(pending := f.pending[1..] + [v]));
      var all := f.delivered + f.pending + [v];
      assert all[..|f.delivered|] == f.delivered && all[|f.delivered| + 1..] == f.pending[1..] + [v];
    }
  }

  lemma KeptItemsSubsequence<T>(p: Policy, f: Flow<T>, received: seq<T>, v: T)
    requires Subsequence(f.delivered + f.pending, received)
    ensures Subsequence(KeptItems(p, f, v), received + [v])
  {
    var all := f.delivered + f.pending;
    SubsequenceGrows(all, received, v);
    if |f.pending| >= p.bufferSize && f.pending != [] {
      SubsequenceWithout(all + [v], |f.delivered|, received + [v]);
    }
  }

  /** The newest `bufferSize` items stay pending. */
  lemma DropKeepsNewest<T>(p: Policy, f: Flow<T>, since: seq<T>, e: Event<T>)
    requires p.strategy.BufferDrop? && f.pending == LastN(since, p.bufferSize) && CanFire(f, e)
    requires !f.held ==> f.pending == [] && since == []
    ensures
      var f' := OnEvent(p, f, e);
      && f'.pending == LastN(Waiting(f.held, since, e), p.bufferSize)
      && (!f'.held ==> f'.pending == [] && Waiting(f.held, since, e) == [])
  {
    if e.Data? && f.held && p.bufferSize >= 1 {
      var all := since + [e.value];
      if |since| < p.bufferSize {
        assert f.pending + [e.value] == all;
      } else {
        assert f.pending[1..] + [e.value] == all[|all| - p.bufferSize..];
      }
    }
  }

  lemma LastNBelowOne<T>(s: seq<T>, n: int)
    ensures n < 1 ==> LastN(s, n) == []
  {
  }

  lemma DropStep<T>(p: Policy, f: Flow<T>, received: seq<T>, since: seq<T>, e: Event<T>)
    requires p.strategy.BufferDrop? && DropInv(p, f, received, since) && CanFire(f, e)
    ensures DropInv(p, OnEvent(p, f, e), received + (if e.Data? then [e.value] else []), Waiting(f.held, since, e))
  {
    hide Subsequence, LastN;
    var f' := OnEvent(p, f, e);
    DropKeepsNewest(p, f, since, e);
    LastNBelowOne(since, p.bufferSize);
    if e.Data? {
      DropOnDataKeeps(p, f, e.value);
      KeptItemsSubsequence(p, f, received, e.value);
    } else {
      assert received + [] == received;
      assert f'.delivered + f'.pending == f.delivered + f.pending;
    }
  }

  /** Pending holds the newest `bufferSize` items since the last drain, and what is delivered keeps its
      order: only whole items are left out. With a size below one every arrival throws instead. */
  lemma {:induction false} BufferDropHolds<T>(p: Policy, events: seq<Event<T>>)
    requires p.strategy.BufferDrop? && Legal(p, events)
    ensures DropInv(p, Run(p, events), Received(events), SinceDrain(p, events))
    decreases |events|
  {
    if events != [] {
      var before := events[..|events| - 1];
      BufferDropHolds(p, before);
      DropStep(p, Run(p, before), Received(before), SinceDrain(p, before), events[|events| - 1]);
    }
  }

  /** Conflation is the ring buffer of size one, whatever its own `bufferSize` says. */
  lemma {:induction false} DropLatestIsBufferDropOfOne<T>(latest: Policy, ring: Policy, events: seq<Event<T>>)
    requires latest.strategy.DropLatest? && ring.strategy.BufferDrop? && ring.bufferSize == 1
    requires Legal(latest, events)
    ensures Legal(ring, events) && Run(latest, events) == Run(ring, events)
    ensures |Run(latest, events).pending| <= 1
    decreases |events|
  {
    if events != [] {
      DropLatestIsBufferDropOfOne(latest, ring, events[..|events| - 1]);
    }
  }

  // ----- batch

  ghost predicate BatchInv<T>(p: Policy, f: Flow<T>, received: seq<T>) {
    && f.delivered + f.pending == received
    && (f.pending != [] ==> f.armed || f.held || f.cancelled)
    && (!f.held ==> f.pending == [] || |f.pending| < p.batchMaxSize)
    && !f.paused && f.failures == 0 && f.reported == []
  }

  /** Lossless and ordered; a held-back item always has something left to flush it; and while the consumer
      listens a batch never reaches its maximum size without going out. */
  lemma {:induction false} BatchHolds<T>(p: Policy, events: seq<Event<T>>)
    requires p.strategy.Batch? && Legal(p, events)
    ensures BatchInv(p, Run(p, events), Received(events))
    decreases |events|
  {
    if events != [] {
      var before := events[..|events| - 1];
      var e := events[|events| - 1];
      BatchHolds(p, before);
      var f := Run(p, before);
      var added := if e.Data? then [e.value] else [];
      assert f.delivered + f.pending + added == f.delivered + (f.pending + added);
    }
  }

  /** Whether the consumer has paused the controller, by its own events alone. */
  ghost predicate IsHeld<T>(events: seq<Event<T>>)
    decreases |events|
  {
    events != [] &&
    match events[|events| - 1]
    case Hold => true
    case Release => false
    case _ => IsHeld(events[..|events| - 1])
  }

  /** The items since the last flush: a full batch or a timeout reaching a listening consumer, the consumer
      resuming, or the end of the source. */
  ghost function SinceFlush<T>(max: int, events: seq<Event<T>>): seq<T>
    decreases |events|
  {
    if events == [] then []
    else
      var before := events[..|events| - 1];
      var since := SinceFlush(max, before);
      match events[|events| - 1]
      case Data(v) => if !IsHeld(before) && |since| + 1 >= max then [] else since + [v]
      case Timeout => if IsHeld(before) then since else []
      case Release => []
      case SourceDone => []
      case Hold => since
      case Cancel => since
  }

  /** Whether the timer is set: a partial batch sets it; a full one, a timeout, the end and a cancellation
      clear it. */
  ghost predicate TimerSet<T>(max: int, events: seq<Event<T>>)
    decreases |events|
  {
    events != [] &&
    var before := events[..|events| - 1];
    match events[|events| - 1]
    case Data(_) => |SinceFlush(max, before)| + 1 < max
    case Hold => TimerSet(max, before)
    case Release => TimerSet(max, before)
    case _ => false
  }

  lemma {:induction false} HeldByEvents<T>(p: Policy, events: seq<Event<T>>)
    requires Legal(p, events)
    ensures Run(p, events).held == IsHeld(events)
    decreases |events|
  {
    if events != [] {
      HeldByEvents(p, events[..|events| - 1]);
    }
  }

  /** What an event leaves pending and whether the timer is set then. */
  lemma BatchKeeps<T>(p: Policy, f: Flow<T>, e: Event<T>)
    requires p.strategy.Batch?
    ensures
      var f' := OnEvent(p, f, e);
      match e
      case Data(v) =>
        var full := |f.pending| + 1 >= p.batchMaxSize;
        f'.pending == (if full && !f.held then [] else f.pending + [v]) && f'.armed == !full
      case Hold => f'.pending == f.pending && f'.armed == f.armed
      case Release => f'.pending == [] && f'.armed == f.armed
      case Timeout => f'.pending == (if f.held then f.pending else []) && !f'.armed
      case SourceDone => f'.pending == [] && !f'.armed
      case Cancel => f'.pending == f.pending && !f'.armed
  {
  }

  /** Exactly the items since the last flush are held back, all earlier ones have gone out, and the timer is
      set as the events say. */
  lemma {:induction false} BatchHoldsBack<T>(p: Policy, events: seq<Event<T>>)
    requires p.strategy.Batch? && Legal(p, events)
    ensures Run(p, events).pending == SinceFlush(p.batchMaxSize, events)
    ensures Run(p, events).delivered + SinceFlush(p.batchMaxSize, events) == Received(events)
    ensures Run(p, events).armed == TimerSet(p.batchMaxSize, events)
    decreases |events|
  {
    BatchHolds(p, events);
    if events != [] {
      var before := events[..|events| - 1];
      HeldByEvents(p, before);
      BatchHoldsBack(p, before);
      BatchKeeps(p, Run(p, before), events[|events| - 1]);
      hide OnEvent;
    }
  }

  /** While the consumer listens, an item goes out on arrival exactly when it completes a batch, and one held
      back has the timer set. */
  lemma BatchGoesOutWhenFull<T>(p: Policy, events: seq<Event<T>>, v: T)
    requires p.strategy.Batch? && Legal(p, events + [Data(v)]) && !IsHeld(events)
    ensures Legal(p, events)
    ensures
      var f, f' := Run(p, events), Run(p, events + [Data(v)]);
      if |SinceFlush(p.batchMaxSize, events)| + 1 >= p.batchMaxSize
      then f'.delivered == f.delivered + f.pending + [v] && f'.pending == []
      else f'.delivered == f.delivered && f'.pending == f.pending + [v] && f'.armed
  {
    var all := events + [Data(v)];
    assert all[..|all| - 1] == events;
    BatchHoldsBack(p, events);
    HeldByEvents(p, events);
  }

  // ----- the end of a run

  /** After a cancellation the timer is off, and no event can fire any more: nothing further is delivered. */
  lemma {:induction false} CancelIsFinal<T>(p: Policy, events: seq<Event<T>>, e: Event<T>)
    requires Legal(p, events) && Run(p, events).cancelled
    ensures !Run(p, events).armed && !CanFire(Run(p, events), e)
    ensures events[|events| - 1].Cancel? && Legal(p, events[..|events| - 1])
    ensures
      var f, before := Run(p, events), Run(p, events[..|events| - 1]);
      f.delivered == before.delivered && f.pending == before.pending && f.reported == before.reported
    decreases |events|
  {
    var before := events[..|events| - 1];
    if Run(p, before).cancelled {
      CancelIsFinal(p, before, events[|events| - 1]);
    }
  }

  /** After the end of the source the timer is off too. */
  lemma {:induction false} DoneStopsTimer<T>(p: Policy, events: seq<Event<T>>)
    requires Legal(p, events) && Run(p, events).closed
    ensures !Run(p, events).armed
    decreases |events|
  {
    var before := events[..|events| - 1];
    if Run(p, before).closed {
      DoneStopsTimer(p, before);
    }
  }

  /** The branch for `none` hands nothing on: `applyBackpressure` never builds a transformer for it. */
  lemma {:induction false} PassThroughIsBypassed<T>(p: Policy, events: seq<Event<T>>)
    requires p.strategy.PassThrough? && Legal(p, events)
    ensures Run(p, events).delivered == [] && Run(p, events).pending == [] && Run(p, events).reported == []
    decreases |events|
  {
    if events != [] {
      PassThroughIsBypassed(p, events[..|events| - 1]);
    }
  }

  /** Whatever the strategy, once the source is done and unless cancelled nothing stays behind. */
  lemma {:induction false} DoneFlushes<T>(p: Policy, events: seq<Event<T>>)
    requires Legal(p, events) && Run(p, events).closed
    ensures Run(p, events).pending == []
    decreases |events|
  {
    if events != [] {
      var before := events[..|events| - 1];
      if Run(p, before).closed {
        DoneFlushes(p, before);
      }
    }
  }
}
