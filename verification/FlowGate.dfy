/** The credit gate of rpc/flow.go: its four lock-protected blocks as functions on a value,
    and the mutable gate whose methods refine them. */
module FlowGates {

  /** What one pass through the locked part of `Acquire` decides. */
  datatype Verdict = Unlimited | Credited | Refused | Parked

  /** The fields of a gate; `C` is the type of wake-up channels. */
  datatype Gate<C(==)> = Gate(bounded: bool, credits: int, closed: bool, waiters: seq<C>)

  function NewGate<C(==)>(): Gate<C> {
    Gate(false, 0, false, [])
  }

  /** A grant: the new gate and the channels it detaches for waking. */
  function Granted<C(==)>(g: Gate<C>, n: int): (Gate<C>, seq<C>) {
    if n <= 0 then (g, [])
    else (Gate(true, (if g.bounded then g.credits else 0) + n, g.closed, []), g.waiters)
  }

  /** One attempt to take a credit; `w` is the channel to park on. */
  function Attempted<C(==)>(g: Gate<C>, w: C): (Gate<C>, Verdict) {
    if !g.bounded then (g, Unlimited)
    else if g.credits > 0 then (g.(credits := g.credits - 1), Credited)
    else if g.closed then (g, Refused)
    else (g.(waiters := g.waiters + [w]), Parked)
  }

  function WithoutFirst<C(==)>(s: seq<C>, w: C): (r: seq<C>)
    ensures w !in s ==> r == s
    ensures forall x :: x in r ==> x in s
    ensures forall x :: x in s && x != w ==> x in r
  {
    if s == [] then []
    else if s[0] == w then s[1..]
    else
      assert s == [s[0]] + s[1..];
      [s[0]] + WithoutFirst(s[1..], w)
  }

  function Abandoned<C(==)>(g: Gate<C>, w: C): Gate<C> {
    g.(waiters := WithoutFirst(g.waiters, w))
  }

  function Closed<C(==)>(g: Gate<C>): (Gate<C>, seq<C>) {
    (g.(closed := true, waiters := []), g.waiters)
  }

  ghost predicate Distinct<C>(s: seq<C>) {
    forall i, j :: 0 <= i < j < |s| ==> s[i] != s[j]
  }

  /** Removing a channel from a list without repeats removes it altogether and keeps the rest in order. */
  lemma {:induction false} WithoutFirstSplits<C>(s: seq<C>, k: nat)
    requires k < |s| && s[k] !in s[..k]
    ensures WithoutFirst(s, s[k]) == s[..k] + s[k + 1..]
  {
    if k == 0 {
    } else {
      assert s[0] in s[..k];
      assert s[1..][..k - 1] == s[1..k];
      assert forall x :: x in s[1..k] ==> x in s[..k];
      WithoutFirstSplits(s[1..], k - 1);
      assert [s[0]] + (s[1..][..k - 1] + s[1..][k..]) == s[..k] + s[k + 1..];
    }
  }

  lemma WithoutFirstDistinct<C>(s: seq<C>, w: C)
    requires Distinct(s)
    ensures Distinct(WithoutFirst(s, w)) && w !in WithoutFirst(s, w)
  {
    if w in s {
      var k :| 0 <= k < |s| && s[k] == w;
      WithoutFirstSplits(s, k);
      assert WithoutFirst(s, w) == s[..k] + s[k + 1..];
    }
  }

  /** A channel that is only ever closed, and at most once: closing twice panics in Go. */
  class Channel {
    var closed: bool

    constructor ()
      ensures !closed
    {
      closed := false;
    }

    method Close()
      requires !closed
      modifies this
      ensures closed
    {
      closed := true;
    }
  }

  class FlowGate {
    var bounded: bool
    var credits: int
    var closed: bool
    var waiters: seq<Channel>

    ghost function View(): Gate<Channel>
      reads this
    {
      Gate(bounded, credits, closed, waiters)
    }

    /** Listed channels are distinct and still open, so waking them cannot panic. */
    ghost predicate Valid()
      reads this, waiters
    {
      && Distinct(waiters)
      && (forall w :: w in waiters ==> !w.closed)
    }

    constructor ()
      ensures Valid() && View() == NewGate()
    {
      bounded, credits, closed, waiters := false, 0, false, [];
    }

    /** The locked block of `AddCredits`. */
    method Grant(n: int) returns (woken: seq<Channel>)
      modifies this
      ensures (View(), woken) == old(Granted(View(), n))
      ensures n <= 0 ==> unchanged(this) && woken == []
      ensures n > 0 ==> bounded && credits == (if old(bounded) then old(credits) else 0) + n
      ensures n > 0 ==> closed == old(closed) && waiters == [] && woken == old(waiters)
    {
      if n <= 0 {
        return [];
      }
      if !bounded {
        bounded := true;
        credits := 0;
      }
      credits := credits + n;
      woken := waiters;
      waiters := [];
    }

    method AddCredits(n: int)
      requires Valid()
      modifies this, waiters
      ensures Valid() && View() == old(Granted(View(), n).0)
      ensures n > 0 ==> forall w :: w in old(waiters) ==> w.closed
      ensures n <= 0 ==> forall w :: w in old(waiters) ==> !w.closed
    {
      var woken := Grant(n);
      if n > 0 {
        WakeAll(woken);
      }
    }

    /** One pass of the loop in `Acquire` up to the point where it would block;
        `w` is the channel to wait on when the verdict is `Parked`. */
    method Attempt() returns (verdict: Verdict, w: Channel)
      requires Valid()
      modifies this
      ensures fresh(w) && (View(), verdict) == Attempted(old(View()), w)
      ensures Valid()
      ensures verdict.Unlimited? <==> !old(bounded)
      ensures verdict.Credited? <==> old(bounded) && old(credits) > 0
      ensures verdict.Refused? <==> old(bounded) && old(credits) <= 0 && old(closed)
      ensures credits == old(credits) - (if verdict.Credited? then 1 else 0)
      ensures waiters == old(waiters) + (if verdict.Parked? then [w] else [])
      ensures bounded == old(bounded) && closed == old(closed)
    {
      w := new Channel();
      if !bounded {
        return Unlimited, w;
      }
      if credits > 0 {
        credits := credits - 1;
        return Credited, w;
      }
      if closed {
        return Refused, w;
      }
      waiters := waiters + [w];
      return Parked, w;
    }

    /** The locked block run when the caller's context is done while it waits on `w`. */
    method Abandon(w: Channel)
      requires Valid()
      modifies this
      ensures Valid() && View() == old(Abandoned(View(), w))
      ensures w !in waiters && forall x :: x in old(waiters) && x != w ==> x in waiters
      ensures bounded == old(bounded) && credits == old(credits) && closed == old(closed)
    {
      var i := 0;
      while i < |waiters|
        invariant 0 <= i <= |waiters|
        invariant waiters == old(waiters)
        invariant w !in waiters[..i]
      {
        if waiters[i] == w {
          WithoutFirstSplits(waiters, i);
          waiters := waiters[..i] + waiters[i + 1..];
          return;
        }
        i := i + 1;
      }
    }

    method Close()
      requires Valid()
      modifies this, waiters
      ensures Valid() && View() == old(Closed(View()).0)
      ensures closed && waiters == [] && bounded == old(bounded) && credits == old(credits)
      ensures forall w :: w in old(waiters) ==> w.closed
    {
      closed := true;
      var woken := waiters;
      waiters := [];
      WakeAll(woken);
    }
  }

  /** Closing detached channels, outside the lock. */
  method WakeAll(woken: seq<Channel>)
    requires Distinct(woken)
    requires forall w :: w in woken ==> !w.closed
    modifies woken
    ensures forall w :: w in woken ==> w.closed
  {
    for i := 0 to |woken|
      invariant forall k :: 0 <= k < i ==> woken[k].closed
      invariant forall k :: i <= k < |woken| ==> !woken[k].closed
    {
      woken[i].Close();
    }
  }
}
