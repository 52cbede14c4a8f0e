/** A run that reorders, for every stream that RingOrder calls reorderable. */
module RingReorder {
  import opened Words
  import opened SharedRing
  import opened RingRuns
  import opened RingResults
  import opened RingOrder

  ghost predicate Leads(c: Config, s: State, steps: seq<Step>, s': State) {
    Legal(c, s, steps) && Run(c, s, steps) == s'
  }

  lemma {:induction false} Chain(c: Config, s: State, a: seq<Step>, mid: State, b: seq<Step>, s': State)
    requires Leads(c, s, a, mid) && Leads(c, mid, b, s')
    ensures Leads(c, s, a + b, s')
    decreases |a|
  {
    if a == [] {
      assert a + b == b;
    } else {
      Chain(c, Apply(c, s, a[0]), a[1..], mid, b, s');
      assert (a + b)[1..] == a[1..] + b;
    }
  }

  /** One more step at the end. */
  lemma Extend(c: Config, program: seq<Frame>, s: State, a: seq<Step>, mid: State, step: Step)
    requires Leads(c, s, a, mid) && Inv(c, program, mid) && Enabled(c, mid, step)
    requires step.Receive? ==> c.drainAll
    ensures Leads(c, s, a + [step], Apply(c, mid, step)) && Inv(c, program, Apply(c, mid, step))
  {
    hide Inv, Enabled, Apply;
    InvKept(c, program, mid, step);
    var one, after := [step], Apply(c, mid, step);
    assert one[0] == step && one[1..] == [];
    assert Legal(c, after, []) && Run(c, after, []) == after;
    assert Leads(c, mid, one, after);
    Chain(c, s, a, mid, [step], Apply(c, mid, step));
  }

  lemma SendViaRing(c: Config, program: seq<Frame>, s: State) returns (steps: seq<Step>, s': State)
    requires Inv(c, program, s) && s.writer.Ready? && s.todo != []
    requires Fits(c, s.todo[0]) && s.used < c.shape.slots
    ensures Leads(c, s, steps, s') && Inv(c, program, s')
    ensures s' == s.(mem := s'.mem, cursor := s'.cursor, used := s.used + 1, port := s.port + [Signal],
                     todo := s.todo[1..], sent := s.sent + [Item(s.todo[0], true)], ringed := s.ringed + [s.todo[0]])
    ensures s'.cursor == Next(s.cursor, c.shape.slots)
    ensures s'.mem ==
      WithPayload(WithHeader(s.mem, c.shape, s.cursor, |s.todo[0]|), c.shape, s.cursor, s.todo[0])
  {
    hide WithHeader, WithPayload, CountInv, MemInv, LogInv, ProgramInv;
    Extend(c, program, s, [], s, Begin);
    var s1 := Apply(c, s, Begin);
    Extend(c, program, s, [] + [Begin], s1, StoreHeader);
    var s2 := Apply(c, s1, StoreHeader);
    Extend(c, program, s, [] + [Begin] + [StoreHeader], s2, StorePayload);
    var s3 := Apply(c, s2, StorePayload);
    Extend(c, program, s, [] + [Begin] + [StoreHeader] + [StorePayload], s3, Publish);
    var s4 := Apply(c, s3, Publish);
    steps := [] + [Begin] + [StoreHeader] + [StorePayload] + [Publish];
    Extend(c, program, s, steps, s4, PostSignal);
    steps, s' := steps + [PostSignal], Apply(c, s4, PostSignal);
  }

  /** Those six steps do to bytes, cursor and counter exactly what `RingWriter.Send` does. */
  lemma RingSendDelivers(c: Config, program: seq<Frame>, s: State) returns (steps: seq<Step>, s': State)
    requires Inv(c, program, s) && s.writer.Ready? && s.todo != []
    requires Fits(c, s.todo[0]) && s.used < c.shape.slots
    ensures Leads(c, s, steps, s') && s'.port == s.port + [Signal]
    ensures s.used >= 0 && s'.used >= 0 && |s'.mem| == |s.mem|
    ensures Delivers(s.mem, s'.mem, c.shape, s.cursor, s'.cursor, s.used, s'.used, s.todo[0])
  {
    hide WithHeader, WithPayload, Slot, Holds;
    steps, s' := SendViaRing(c, program, s);
    FrameWritten(s.mem, c.shape, s.cursor, s.todo[0]);
    OnlyItsSlotWritten(s.mem, c.shape, s.cursor, s.todo[0]);
  }

  lemma SendViaEnvelope(c: Config, program: seq<Frame>, s: State) returns (steps: seq<Step>, s': State)
    requires Inv(c, program, s) && s.writer.Ready? && s.todo != []
    requires !Fits(c, s.todo[0]) || s.used >= c.shape.slots
    ensures Leads(c, s, steps, s') && Inv(c, program, s')
    ensures s' == s.(port := s.port + [Envelope(s.todo[0])], todo := s.todo[1..],
                     sent := s.sent + [Item(s.todo[0], false)])
  {
    Extend(c, program, s, [], s, Begin);
    var s1 := Apply(c, s, Begin);
    steps := [] + [Begin];
    Extend(c, program, s, steps, s1, PostEnvelope);
    steps, s' := steps + [PostEnvelope], Apply(c, s1, PostEnvelope);
  }

  /** Finishing a drain of `n` frames. */
  lemma {:induction false} TakeFrames(c: Config, program: seq<Frame>, s: State, n: nat)
    returns (steps: seq<Step>, s': State)
    requires Inv(c, program, s) && s.reader == Draining(n)
    ensures Leads(c, s, steps, s') && Inv(c, program, s')
    ensures s' == s.(reader := Idle, taken := s'.taken, frames := s'.frames, read := s'.read, used := s.used - n,
                     consumed := s.consumed + n, released := s.released + n)
    ensures |s'.taken| == |s.taken| + n && s.taken <= s'.taken
    ensures forall k :: |s.taken| <= k < |s'.taken| ==> s'.taken[k].viaRing
    decreases n
  {
    hide CountInv, MemInv, LogInv, ProgramInv;
    if n == 0 {
      Extend(c, program, s, [], s, Finish);
      steps, s' := [] + [Finish], Apply(c, s, Finish);
    } else {
      Extend(c, program, s, [], s, ReadHeader);
      var s1 := Apply(c, s, ReadHeader);
      steps := [] + [ReadHeader];
      Extend(c, program, s, steps, s1, ReadPayload);
      var s2 := Apply(c, s1, ReadPayload);
      steps := steps + [ReadPayload];
      Extend(c, program, s, steps, s2, Release);
      var s3 := Apply(c, s2, Release);
      steps := steps + [Release];
      var more;
      more, s' := TakeFrames(c, program, s3, n - 1);
      Chain(c, s, steps, s3, more, s');
      steps := steps + more;
    }
  }

  /** A signal makes the consumer take everything published. */
  lemma DrainOnSignal(c: Config, program: seq<Frame>, s: State) returns (steps: seq<Step>, s': State)
    requires c.drainAll && Inv(c, program, s) && s.reader.Idle? && s.port != [] && s.port[0].Signal?
    ensures Leads(c, s, steps, s') && Inv(c, program, s')
    ensures s' == s.(port := s.port[1..], taken := s'.taken, frames := s'.frames, read := s'.read, used := 0,
                     consumed := |s.ringed|, released := |s.ringed|)
    ensures |s'.taken| == |s.taken| + s.used && s.taken <= s'.taken
    ensures forall k :: |s.taken| <= k < |s'.taken| ==> s'.taken[k].viaRing
  {
    Extend(c, program, s, [], s, Receive);
    var s1 := Apply(c, s, Receive);
    var more;
    more, s' := TakeFrames(c, program, s1, s.used);
    Chain(c, s, [] + [Receive], s1, more, s');
    steps := [] + [Receive] + more;
  }

  /** The first `n` frames of the program are sent and taken, in order, and nothing is under way. */
  ghost predicate Settled(c: Config, program: seq<Frame>, s: State, n: nat) {
    && Inv(c, program, s) && n <= |program|
    && s.writer.Ready? && s.reader.Idle? && s.port == [] && s.used == 0
    && s.todo == program[n..] && |s.sent| == n && |s.taken| == n
    && forall k :: 0 <= k < n ==> s.sent[k] == Item(program[k], Fits(c, program[k]))
  }

  lemma SettleOne(c: Config, program: seq<Frame>, s: State, n: nat) returns (steps: seq<Step>, s': State)
    requires c.drainAll && Settled(c, program, s, n) && n < |program|
    ensures Leads(c, s, steps, s') && Settled(c, program, s', n + 1)
  {
    hide WithHeader, WithPayload, MemInv, LogInv, ProgramInv;
    var s1, more;
    if Fits(c, s.todo[0]) {
      steps, s1 := SendViaRing(c, program, s);
      more, s' := DrainOnSignal(c, program, s1);
      Chain(c, s, steps, s1, more, s');
      steps := steps + more;
    } else {
      steps, s1 := SendViaEnvelope(c, program, s);
      Extend(c, program, s, steps, s1, Receive);
      steps, s' := steps + [Receive], Apply(c, s1, Receive);
    }
  }

  lemma {:induction false} Settle(c: Config, program: seq<Frame>, n: nat)
    returns (s0: State, steps: seq<Step>, s: State)
    requires c.drainAll && Usable(c.shape, c.byteLength) && n <= |program|
    ensures Initial(c, s0, program) && Leads(c, s0, steps, s) && Settled(c, program, s, n)
  {
    if n == 0 {
      var mem: seq<byte> := seq(c.byteLength, _ => 0);
      s0 := State(mem, 0, 0, 0, [], Ready, Idle, program, 0, [], [], [], 0, 0);
      steps, s := [], s0;
      assert program[0..] == program;
      assert [] + [] + program == program;
    } else {
      s0, steps, s := Settle(c, program, n - 1);
      var more, s' := SettleOne(c, program, s, n - 1);
      Chain(c, s0, steps, s, more, s');
      steps, s := steps + more, s';
    }
  }

  /** Sending `n` frames in a row through the ring, the consumer doing nothing. */
  lemma {:induction false} SendManyViaRing(c: Config, program: seq<Frame>, s: State, n: nat)
    returns (steps: seq<Step>, s': State)
    requires Inv(c, program, s) && s.writer.Ready? && n <= |s.todo| && s.used + n <= c.shape.slots
    requires forall k :: 0 <= k < n ==> Fits(c, s.todo[k])
    ensures Leads(c, s, steps, s') && Inv(c, program, s')
    ensures s' == s.(mem := s'.mem, cursor := s'.cursor, used := s.used + n, port := s'.port,
                     todo := s.todo[n..], sent := s'.sent, ringed := s'.ringed)
    ensures |s'.port| == |s.port| + n && s.port <= s'.port
    ensures forall k :: |s.port| <= k < |s'.port| ==> s'.port[k].Signal?
    ensures |s'.sent| == |s.sent| + n && s.sent <= s'.sent
    decreases n
  {
    if n == 0 {
      steps, s' := [], s;
      assert Leads(c, s, steps, s');
    } else {
      hide WithHeader, WithPayload, Inv, Leads, Fits;
      var s1, more;
      steps, s1 := SendViaRing(c, program, s);
      assert s1.todo[n - 1..] == s.todo[n..] && s1.port == s.port + [Signal] && s.sent <= s1.sent;
      more, s' := SendManyViaRing(c, program, s1, n - 1);
      Chain(c, s, steps, s1, more, s');
      steps := steps + more;
    }
  }

  lemma {:induction false} SendManyViaEnvelope(c: Config, program: seq<Frame>, s: State, n: nat)
    returns (steps: seq<Step>, s': State)
    requires Inv(c, program, s) && s.writer.Ready? && n <= |s.todo|
    requires forall k :: 0 <= k < n ==> !Fits(c, s.todo[k])
    ensures Leads(c, s, steps, s') && Inv(c, program, s')
    ensures s' == s.(port := s'.port, todo := s.todo[n..], sent := s'.sent)
    ensures s.port <= s'.port
    ensures |s'.sent| == |s.sent| + n && s.sent <= s'.sent
    ensures forall k :: |s.sent| <= k < |s'.sent| ==> !s'.sent[k].viaRing
    decreases n
  {
    if n == 0 {
      steps, s' := [], s;
    } else {
      var s1, more;
      steps, s1 := SendViaEnvelope(c, program, s);
      more, s' := SendManyViaEnvelope(c, program, s1, n - 1);
      Chain(c, s, steps, s1, more, s');
      steps := steps + more;
    }
  }

  ghost predicate OutOfOrder(c: Config, program: seq<Frame>, s: State) {
    Reachable(c, program, s) && !(s.taken <= s.sent)
  }

  /** Draining past an envelope that is still in the port. */
  lemma Overtake(c: Config, program: seq<Frame>, s0: State, steps: seq<Step>, s: State, k: nat) returns (s': State)
    requires c.drainAll && Initial(c, s0, program) && Leads(c, s0, steps, s) && Inv(c, program, s)
    requires s.reader.Idle? && s.port != [] && s.port[0].Signal?
    requires |s.taken| <= k < |s.taken| + s.used && k < |s.sent| && !s.sent[k].viaRing
    ensures OutOfOrder(c, program, s')
  {
    var more;
    more, s' := DrainOnSignal(c, program, s);
    Chain(c, s0, steps, s, more, s');
    assert s'.taken[k].viaRing;
  }

  /** Frame `h` published but not taken, the oversized frames up to `j` posted behind its signal. */
  lemma PostOversized(c: Config, program: seq<Frame>, h: nat, j: nat) returns (s0: State, steps: seq<Step>, s': State)
    requires c.drainAll && Usable(c.shape, c.byteLength)
    requires h + 1 < j < |program| && Fits(c, program[h])
    requires forall k :: h < k < j ==> !Fits(c, program[k])
    ensures Initial(c, s0, program) && Leads(c, s0, steps, s') && Inv(c, program, s')
    ensures s'.reader.Idle? && s'.writer.Ready? && s'.port != [] && s'.port[0].Signal?
    ensures s'.used == 1 && |s'.taken| == h && s'.todo == program[j..]
    ensures h + 1 < |s'.sent| && !s'.sent[h + 1].viaRing
  {
    var s, s1, more;
    s0, steps, s := Settle(c, program, h);
    more, s1 := SendViaRing(c, program, s);
    Chain(c, s0, steps, s, more, s1);
    steps := steps + more;
    assert s1.todo == program[h + 1..];
    more, s' := SendManyViaEnvelope(c, program, s1, j - h - 1);
    Chain(c, s0, steps, s1, more, s');
    steps := steps + more;
    assert s1.port[0].Signal?;
  }

  /** Frames `h` and `j` fit, everything between them does not: `j` overtakes. */
  lemma OvertakeOversized(c: Config, program: seq<Frame>, h: nat, j: nat) returns (s': State)
    requires c.drainAll && Usable(c.shape, c.byteLength) && c.shape.slots >= 2
    requires h + 1 < j < |program| && Fits(c, program[h]) && Fits(c, program[j])
    requires forall k :: h < k < j ==> !Fits(c, program[k])
    ensures OutOfOrder(c, program, s')
  {
    var s0, steps, s := PostOversized(c, program, h, j);
    var more, s1 := SendViaRing(c, program, s);
    Chain(c, s0, steps, s, more, s1);
    s' := Overtake(c, program, s0, steps + more, s1, h + 1);
  }

  /** The ring filled by the frames before `i`, none taken. */
  lemma FillRing(c: Config, program: seq<Frame>, i: nat) returns (s0: State, steps: seq<Step>, s': State)
    requires c.drainAll && Usable(c.shape, c.byteLength)
    requires c.shape.slots <= i < |program|
    requires forall k :: i - c.shape.slots <= k < i ==> Fits(c, program[k])
    ensures Initial(c, s0, program) && Leads(c, s0, steps, s') && Inv(c, program, s')
    ensures s'.reader.Idle? && s'.writer.Ready? && s'.used == c.shape.slots && s'.todo == program[i..]
    ensures |s'.taken| == i - c.shape.slots && |s'.sent| == i
    ensures |s'.port| == c.shape.slots && forall k :: 0 <= k < |s'.port| ==> s'.port[k].Signal?
  {
    var s, more;
    s0, steps, s := Settle(c, program, i - c.shape.slots);
    more, s' := SendManyViaRing(c, program, s, c.shape.slots);
    Chain(c, s0, steps, s, more, s');
    steps := steps + more;
  }

  /** Frames up to `i + 1` fit but fill the ring before `i`: `i + 1` overtakes. */
  lemma OvertakeFull(c: Config, program: seq<Frame>, i: nat) returns (s': State)
    requires c.drainAll && Usable(c.shape, c.byteLength) && c.shape.slots >= 2
    requires c.shape.slots <= i && i + 1 < |program|
    requires forall k :: i - c.shape.slots <= k <= i + 1 ==> Fits(c, program[k])
    ensures OutOfOrder(c, program, s')
  {
    var s0, steps, s1 := FillRing(c, program, i);
    var more, s2 := SendViaEnvelope(c, program, s1);
    Chain(c, s0, steps, s1, more, s2);
    steps := steps + more;
    var s3, s4;
    more, s3 := DrainOnSignal(c, program, s2);
    Chain(c, s0, steps, s2, more, s3);
    steps := steps + more;
    more, s4 := SendViaRing(c, program, s3);
    Chain(c, s0, steps, s3, more, s4);
    s' := Overtake(c, program, s0, steps + more, s4, i);
  }

  // ----- finding where to overtake

  lemma {:induction false} LastFitting(c: Config, program: seq<Frame>, h: nat, i: nat) returns (h': nat)
    requires h < i <= |program| && Fits(c, program[h])
    ensures h <= h' < i && Fits(c, program[h']) && forall k :: h' < k < i ==> !Fits(c, program[k])
    decreases i
  {
    if Fits(c, program[i - 1]) {
      h' := i - 1;
    } else {
      h' := LastFitting(c, program, h, i - 1);
    }
  }

  lemma {:induction false} FirstFitting(c: Config, program: seq<Frame>, i: nat, j: nat) returns (j': nat)
    requires i <= j < |program| && Fits(c, program[j])
    ensures i <= j' <= j && Fits(c, program[j']) && forall k :: i <= k < j' ==> !Fits(c, program[k])
    decreases j - i
  {
    if Fits(c, program[i]) {
      j' := i;
    } else {
      j' := FirstFitting(c, program, i + 1, j);
    }
  }

  /** `n` fitting frames before `i` reach back at least `n` places. */
  lemma {:induction false} ReachBack(c: Config, program: seq<Frame>, i: nat, n: nat) returns (h: nat)
    requires i <= |program| && 1 <= n <= FittingBefore(c, program, i)
    ensures h + n <= i && Fits(c, program[h])
    decreases i
  {
    if Fits(c, program[i - 1]) {
      if n == 1 {
        h := i - 1;
      } else {
        h := ReachBack(c, program, i - 1, n - 1);
      }
    } else {
      h := ReachBack(c, program, i - 1, n);
    }
  }

  lemma ReorderingRun(c: Config, program: seq<Frame>) returns (s: State)
    requires c.drainAll && Usable(c.shape, c.byteLength) && Reorderable(c, program)
    ensures OutOfOrder(c, program, s)
  {
    var h: nat, i: nat, j: nat :| Sandwiched(c, program, h, i, j);
    if Fits(c, program[i]) {
      h := ReachBack(c, program, i, c.shape.slots);
      if k: nat :| h < k < j && !Fits(c, program[k]) {
        i := k;
      } else {
        assert forall k: nat :: h <= k <= j ==> Fits(c, program[k]);
        s := OvertakeFull(c, program, i);
        return;
      }
    }
    var h' := LastFitting(c, program, h, i);
    var j' := FirstFitting(c, program, i + 1, j);
    s := OvertakeOversized(c, program, h', j');
  }

  /** The drain-all consumer keeps the order of a stream on every schedule exactly when the stream is not
      reorderable: one slot, or no frame that may fall back between two that fit. */
  lemma DrainKeepsTotalOrderIff(c: Config, program: seq<Frame>)
    requires c.drainAll && Usable(c.shape, c.byteLength)
    ensures (forall s :: Reachable(c, program, s) ==> s.taken <= s.sent) <==> !Reorderable(c, program)
  {
    if Reorderable(c, program) {
      var s := ReorderingRun(c, program);
    } else {
      forall s | Reachable(c, program, s)
        ensures s.taken <= s.sent
      {
        InOrderUnlessReorderable(c, program, s);
      }
    }
  }

  // ----- the page's count

  lemma {:induction false} EmptyInRings(items: seq<Item>)
    requires [] in Rings(items)
    ensures exists i :: 0 <= i < |items| && items[i] == Item([], true)
  {
    if items[|items| - 1] != Item([], true) {
      EmptyInRings(items[..|items| - 1]);
    }
  }

  /** An empty frame fits every slot; a consumer that keeps up takes it from the ring and does not count it. */
  lemma UndercountingRun(c: Config, program: seq<Frame>) returns (s: State)
    requires c.drainAll && Usable(c.shape, c.byteLength) && [] in program
    ensures Reachable(c, program, s) && Finished(s) && s.frames < |program|
  {
    var s0, steps;
    s0, steps, s := Settle(c, program, |program|);
    var k :| 0 <= k < |program| && program[k] == [];
    RingItems(s.sent, k);
    assert Reachable(c, program, s);
    DrainKeepsBothOrders(c, program, s);
    EmptyInRings(s.taken);
    PageCounts(c, program, s);
  }

  /** The page's counter reaches the number of frames sent on every run exactly for streams without an
      empty frame. */
  lemma CountIsCompleteIff(c: Config, program: seq<Frame>)
    requires c.drainAll && Usable(c.shape, c.byteLength)
    ensures (forall s :: Reachable(c, program, s) && Finished(s) ==> s.frames == |program|) <==> [] !in program
  {
    if [] in program {
      var s := UndercountingRun(c, program);
    } else {
      forall s | Reachable(c, program, s) && Finished(s)
        ensures s.frames == |program|
      {
        CountCompletes(c, program, s);
      }
    }
  }
}
