/** One EE timer: counting lazily in jumps against counting one tick at a time. */
module TimerCore {

  /** Added to a target that must not fire before the next overflow. */
  const FUTURE: nat := 0x1000_0000

  /** The target register's 16 bits, and bit 28 of it, `future`, apart. */
  datatype Counter = Counter(
    count: nat, target: nat, future: bool,
    zeroReturn: bool, targetInterrupt: bool, overflowInterrupt: bool,
    targetReached: bool, overflowReached: bool)
  {
    /** The target register as a number. */
    function FullTarget(): nat { if future then target + FUTURE else target }
  }

  datatype Kind = Target | Overflow

  /** A test that passed, and whether it raised the timer's interrupt. */
  datatype Event = Event(kind: Kind, raised: bool)

  type Result = (Counter, seq<Event>)

  function TestTarget(c: Counter): Result {
    if c.count < c.FullTarget() then (c, [])
    else
      var raised := c.targetInterrupt && !c.targetReached;
      var f := c.(targetReached := c.targetReached || c.targetInterrupt);
      (if c.zeroReturn then f.(count := c.count - c.FullTarget()) else f.(future := true),
       [Event(Target, raised)])
  }

  function TestOverflow(c: Counter): Result {
    if c.count <= 0xFFFF then (c, [])
    else
      var raised := c.overflowInterrupt && !c.overflowReached;
      (c.(overflowReached := c.overflowReached || c.overflowInterrupt, count := c.count - 0x1_0000, future := false),
       [Event(Overflow, raised)])
  }

  /** What an update does after n more ticks: one overflow test, then one target test. */
  function Update(c: Counter, n: nat): Result {
    var o := TestOverflow(c.(count := c.count + n));
    var t := TestTarget(o.0);
    (t.0, o.1 + t.1)
  }

  /** One tick of the counter in the machine: it wraps around at 16 bits, which switches the target on
      again, and meets the target by being equal to it, which starts a zero-return counter over. Each of the
      two is an event; it raises the interrupt if that is enabled and the flag of the kind is still clear. */
  function Tick(c: Counter): Result {
    var wraps := c.count == 0xFFFF;
    var count := if wraps then 0 else c.count + 1;
    var hits := (wraps || !c.future) && count == c.target;
    (c.(count := if hits && c.zeroReturn then 0 else count,
        future := if hits then !c.zeroReturn else c.future && !wraps,
        overflowReached := c.overflowReached || (wraps && c.overflowInterrupt),
        targetReached := c.targetReached || (hits && c.targetInterrupt)),
     (if wraps then [Event(Overflow, c.overflowInterrupt && !c.overflowReached)] else [])
     + (if hits then [Event(Target, c.targetInterrupt && !c.targetReached)] else []))
  }

  /** n ticks, one at a time. */
  function Ticks(c: Counter, n: nat): Result {
    if n == 0 then (c, [])
    else
      var r := Ticks(c, n - 1);
      var s := Tick(r.0);
      (s.0, r.1 + s.1)
  }

  /** Where an update leaves a counter that is not running late. A zero-return counter with target 0
      is never settled: it fires on every update. */
  predicate Settled(c: Counter) {
    && c.count <= 0xFFFF && c.target <= 0xFFFF
    && (!c.future ==> c.count < c.target)
    && (c.zeroReturn ==> c.target > 0)
  }

  /** The jump crosses at most the events that one overflow test and one target test can see. */
  predicate Exact(c: Counter, n: nat) {
    var last := c.count + n;
    if !c.future then last <= 0xFFFF && (c.zeroReturn ==> last < 2 * c.target)
    else if last <= 0xFFFF then true
    else if c.zeroReturn then last - 0x1_0000 < 2 * c.target
    else last - 0x1_0000 <= 0xFFFF
  }

  // ---- Ticks, in closed form ----

  lemma {:induction false} TicksSplit(c: Counter, a: nat, b: nat)
    ensures Ticks(c, a + b) == (Ticks(Ticks(c, a).0, b).0, Ticks(c, a).1 + Ticks(Ticks(c, a).0, b).1)
  {
    hide Tick;
    var m := Ticks(c, a);
    if b == 0 {
      assert m.1 + [] == m.1;
    } else {
      TicksSplit(c, a, b - 1);
      var r := Ticks(m.0, b - 1);
      var e := Tick(r.0).1;
      assert a + b - 1 == a + (b - 1);
      assert (m.1 + r.1) + e == m.1 + (r.1 + e);
    }
  }

  lemma UpdateFree(c: Counter, n: nat)
    requires c.count + n <= 0xFFFF && c.count + n < c.FullTarget()
    ensures Update(c, n) == (c.(count := c.count + n), [])
  {
    var none: seq<Event> := [];
    assert none + none == none;
  }

  /** The lazy tests after one tick see what the machine's counter does. */
  lemma TickIsUpdate(c: Counter)
    requires Settled(c)
    ensures Tick(c) == Update(c, 1)
  {
    if c.count == 0xFFFF {
      TickAcross(c);
    } else {
      UpdateNoOverflow(c, 1);
      hide Update;
      var none: seq<Event> := [];
      assert forall e: seq<Event> :: none + e == e;
    }
  }

  lemma TickAcross(c: Counter)
    requires Settled(c) && c.count == 0xFFFF
    ensures Tick(c) == Update(c, 1)
  {
  }

  lemma TickFree(c: Counter)
    requires c.count < 0xFFFF && c.count + 1 < c.FullTarget()
    ensures Tick(c) == (c.(count := c.count + 1), [])
  {
    var none: seq<Event> := [];
    assert none + none == none;
  }

  /** Between events only the count moves. */
  lemma {:induction false} TicksFree(c: Counter, n: nat)
    requires c.count + n <= 0xFFFF && (n > 0 ==> c.count + n < c.FullTarget())
    ensures Ticks(c, n) == (c.(count := c.count + n), [])
  {
    hide Tick;
    if n > 0 {
      TicksFree(c, n - 1);
      TickFree(c.(count := c.count + (n - 1)));
      var none: seq<Event> := [];
      assert none + none == none;
    }
  }

  /** Up to and including the first tick that has an event. */
  lemma TicksTo(c: Counter, n: nat)
    requires n > 0 && Settled(c) && c.count + n - 1 <= 0xFFFF && (n > 1 ==> c.count + n - 1 < c.FullTarget())
    ensures Ticks(c, n) == Update(c, n)
  {
    hide Update, Tick;
    var r := Ticks(c, n - 1);
    TicksFree(c, n - 1);
    UpdateSplit(c, n);
    TickIsUpdate(r.0);
    assert Update(r.0, 1) == Update(c, n);
    assert r.1 + Update(c, n).1 == Update(c, n).1;
  }

  lemma UpdateSplit(c: Counter, n: nat)
    requires n > 0
    ensures Update(c.(count := c.count + (n - 1)), 1) == Update(c, n)
  {
    hide TestOverflow, TestTarget;
    assert c.(count := c.count + (n - 1)).(count := c.count + n) == c.(count := c.count + n);
  }

  /** Two stretches of ticks. */
  lemma TicksThen(c: Counter, a: nat, n: nat)
    requires a <= n
    ensures Ticks(c, n) == (Ticks(Ticks(c, a).0, n - a).0, Ticks(c, a).1 + Ticks(Ticks(c, a).0, n - a).1)
  {
    TicksSplit(c, a, n - a);
  }

  // ---- Jumps that are exact ----

  /** One target test sees everything there is to see. */
  predicate OneTarget(c: Counter, n: nat) {
    var last := c.count + n;
    !c.future && (if c.zeroReturn then last < 2 * c.target else last <= 0xFFFF)
  }

  function Advance(c: Counter, n: nat): Counter {
    c.(count := c.count + n)
  }

  /** A target that has been reached fires the same way however far past it the count is. */
  lemma FiresLater(c: Counter, a: nat, n: nat)
    requires a <= n && c.count + a >= c.FullTarget()
    ensures var m := TestTarget(Advance(c, a));
            TestTarget(Advance(c, n)) == (Advance(m.0, n - a), m.1)
  {
    hide TestTarget;
    var f := c.(targetReached := c.targetReached || c.targetInterrupt);
    var e := [Event(Target, c.targetInterrupt && !c.targetReached)];
    Fires(c, f, e, a);
    Fires(c, f, e, n);
  }

  lemma Fires(c: Counter, f: Counter, e: seq<Event>, n: nat)
    requires c.count + n >= c.FullTarget()
    requires f == c.(targetReached := c.targetReached || c.targetInterrupt)
    requires e == [Event(Target, c.targetInterrupt && !c.targetReached)]
    ensures TestTarget(Advance(c, n)) ==
      (if c.zeroReturn then f.(count := c.count + n - c.FullTarget()) else f.(count := c.count + n, future := true), e)
  {
  }

  lemma AfterTarget(c: Counter)
    requires !c.future && c.count == c.target
    ensures var m := TestTarget(c).0;
            && m.count == (if c.zeroReturn then 0 else c.target)
            && m.future == !c.zeroReturn && m.target == c.target && m.zeroReturn == c.zeroReturn
  {
  }

  /** Ticks through at most one firing of a live target. */
  lemma TicksLive(c: Counter, n: nat)
    requires Settled(c) && OneTarget(c, n)
    ensures Ticks(c, n) == TestTarget(Advance(c, n))
  {
    hide Update, Ticks;
    if c.count + n < c.target {
      TicksFree(c, n);
    } else {
      var a := c.target - c.count;
      TicksTo(c, a);
      TicksThen(c, a, n);
      UpdateNoOverflow(c, a);
      FiresLater(c, a, n);
      AfterTarget(Advance(c, a));
      hide TestTarget;
      var m := TestTarget(Advance(c, a));
      TicksFree(m.0, n - a);
      assert m.1 + [] == m.1;
    }
  }

  lemma UpdateNoOverflow(c: Counter, n: nat)
    requires c.count + n <= 0xFFFF
    ensures Update(c, n) == TestTarget(Advance(c, n))
  {
    hide TestTarget;
    var t := TestTarget(Advance(c, n));
    assert [] + t.1 == t.1;
  }

  lemma UpdateOverflow(c: Counter, n: nat)
    requires c.count + n > 0xFFFF
    ensures var o := TestOverflow(Advance(c, n)); var t := TestTarget(o.0);
            && |o.1| == 1 && o.1[0].kind == Overflow
            && Update(c, n) == (t.0, o.1 + t.1)
  {
    hide TestTarget;
  }

  lemma AfterOverflow(c: Counter, a: nat, n: nat)
    requires a <= n && c.count + a == 0x1_0000
    ensures var o := TestOverflow(Advance(c, a));
            && o.0.count == 0 && !o.0.future && o.0.target == c.target && o.0.zeroReturn == c.zeroReturn
            && TestOverflow(Advance(c, n)) == (Advance(o.0, n - a), o.1)
  {
  }

  /** A jump across an overflow with the target off until then. */
  lemma TicksOverflow(c: Counter, n: nat)
    requires Settled(c) && c.future && c.count + n > 0xFFFF && Exact(c, n)
    ensures Ticks(c, n) == Update(c, n)
  {
    hide Update, Ticks;
    var a := 0x1_0000 - c.count;
    TicksTo(c, a);
    TicksThen(c, a, n);
    UpdateOverflow(c, a);
    UpdateOverflow(c, n);
    AfterOverflow(c, a, n);
    hide TestOverflow, TestTarget;
    var o := TestOverflow(Advance(c, a));
    FromZero(o.0, n - a);
    var z := TestTarget(o.0);
    assert (o.1 + z.1) + Ticks(z.0, n - a).1 == o.1 + (z.1 + Ticks(z.0, n - a).1);
  }

  /** What follows an overflow: the target test at zero and then the remaining ticks. */
  lemma FromZero(c: Counter, n: nat)
    requires c.count == 0 && !c.future && c.target <= 0xFFFF && (c.zeroReturn ==> c.target > 0)
    requires OneTarget(c, n)
    ensures var z := TestTarget(c);
            TestTarget(Advance(c, n)) == (Ticks(z.0, n).0, z.1 + Ticks(z.0, n).1)
  {
    hide Update, Ticks;
    if c.target > 0 {
      TicksLive(c, n);
      var t := TestTarget(Advance(c, n));
      assert TestTarget(c) == (c, []) && [] + t.1 == t.1;
    } else {
      assert Advance(c, 0) == c;
      FiresLater(c, 0, n);
      AfterTarget(c);
      hide TestTarget;
      var z := TestTarget(c);
      TicksFree(z.0, n);
      assert z.1 + [] == z.1;
    }
  }

  lemma ExactJump(c: Counter, n: nat)
    requires Settled(c) && Exact(c, n)
    ensures Ticks(c, n) == Update(c, n)
  {
    if c.count + n > 0xFFFF {
      TicksOverflow(c, n);
    } else if c.future {
      TicksFree(c, n);
      UpdateFree(c, n);
    } else {
      TicksLive(c, n);
      UpdateNoOverflow(c, n);
    }
  }

  lemma ExactStaysSettled(c: Counter, n: nat)
    requires Settled(c) && Exact(c, n)
    ensures Settled(Update(c, n).0)
  {
    if c.count + n > 0xFFFF {
      UpdateOverflow(c, n);
    } else {
      UpdateNoOverflow(c, n);
    }
    hide Update;
  }

  // ---- Jumps that are not ----

  lemma {:induction false} TicksBounded(c: Counter, n: nat)
    requires Settled(c)
    ensures Settled(Ticks(c, n).0)
  {
    if n > 0 {
      TicksBounded(c, n - 1);
      TickIsUpdate(Ticks(c, n - 1).0);
      ExactStaysSettled(Ticks(c, n - 1).0, 1);
      hide Tick, Update, Settled;
    }
  }

  lemma EventsAtMostOne(c: Counter)
    ensures |TestTarget(c).1| <= 1 && |TestOverflow(c).1| <= 1
    ensures c.count >= c.FullTarget() ==> |TestTarget(c).1| == 1 && TestTarget(c).1[0].kind == Target
  {
  }

  /** The first firing of a live target, tick by tick. */
  lemma FirstFiring(c: Counter, n: nat)
    requires Settled(c) && !c.future && c.count + n >= c.target
    ensures var a := c.target - c.count; var m := Ticks(c, a);
            && a <= n && |m.1| == 1 && m.1[0].kind == Target && Settled(m.0)
            && m.0.zeroReturn == c.zeroReturn && m.0.target == c.target
            && (c.zeroReturn ==> m.0.count == 0 && !m.0.future)
            && Ticks(c, n) == (Ticks(m.0, n - a).0, m.1 + Ticks(m.0, n - a).1)
  {
    hide Update, Ticks;
    var a := c.target - c.count;
    TicksLive(c, a);
    AfterTarget(Advance(c, a));
    EventsAtMostOne(Advance(c, a));
    TicksBounded(c, a);
    TicksThen(c, a, n);
  }

  lemma TwoFirings(c: Counter, n: nat)
    requires Settled(c) && !c.future && c.zeroReturn && c.count + n >= 2 * c.target
    ensures |Ticks(c, n).1| >= 2
  {
    hide Update, Ticks;
    FirstFiring(c, n);
    var a := c.target - c.count;
    FirstFiring(Ticks(c, a).0, n - a);
  }

  lemma LateJump(c: Counter, n: nat)
    requires Settled(c) && !Exact(c, n)
    ensures Ticks(c, n) != Update(c, n)
  {
    hide Update, Ticks;
    if !c.future && c.count + n > 0xFFFF {
      UpdateOverflow(c, n);
      FirstFiring(c, n);
      assert Ticks(c, n).1[0].kind == Target && Update(c, n).1[0].kind == Overflow;
    } else if !c.future {
      UpdateNoOverflow(c, n);
      EventsAtMostOne(Advance(c, n));
      TwoFirings(c, n);
    } else {
      LateOverflow(c, n);
    }
  }

  lemma LateOverflow(c: Counter, n: nat)
    requires Settled(c) && !Exact(c, n) && c.future
    ensures Ticks(c, n) != Update(c, n)
  {
    hide Update, Ticks;
    UpdateOverflow(c, n);
    if c.zeroReturn {
      var a := 0x1_0000 - c.count;
      EventsAtMostOne(TestOverflow(Advance(c, n)).0);
      ExactJump(c, a);
      UpdateOverflow(c, a);
      TicksThen(c, a, n);
      TicksBounded(c, a);
      AfterOverflow(c, a, n);
      assert TestTarget(TestOverflow(Advance(c, a)).0) == (TestOverflow(Advance(c, a)).0, []);
      hide TestOverflow, TestTarget;
      TwoFirings(Ticks(c, a).0, n - a);
    } else {
      TicksBounded(c, n);
      AfterOverflow(c, 0x1_0000 - c.count, n);
    }
  }

  /** The lazy timer counts and fires exactly as the one that ticks, if and only if the jump
      crosses no live target and then an overflow, no zero-return target twice, and no second
      overflow. */
  lemma LazyIsExact(c: Counter, n: nat)
    requires Settled(c)
    ensures Update(c, n) == Ticks(c, n) <==> Exact(c, n)
  {
    hide Update, Ticks;
    if Exact(c, n) {
      ExactJump(c, n);
    } else {
      LateJump(c, n);
    }
  }
}
