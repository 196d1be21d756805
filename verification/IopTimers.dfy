/** Interrupt modes of the IOP timers: repeating or one-shot, pulsed or toggled. */
module IopTimers {
  import opened Arith

  datatype Kind = Target | Overflow

  /** `repeating` and `toggle` are the mode as last latched; `targetIntr` and `overflIntr` say which
      events may interrupt; `intrEnable` is the mode register's interrupt bit, which the timer itself
      moves. */
  datatype Irq = Irq(
    intrEnable: bool, targetFlag: bool, overflowFlag: bool, repeating: bool, toggle: bool,
    targetIntr: bool, overflIntr: bool, raised: nat)
  {
    predicate Enabled(kind: Kind) { if kind == Overflow then overflIntr else targetIntr }
  }

  /** The interrupt side of psxRcntSync: a pulsed repeating interrupt is armed again. */
  function Synced(q: Irq): Irq {
    if q.repeating && !q.toggle then q.(intrEnable := true) else q
  }

  /** _rcntFireInterrupt */
  function Fired(q: Irq, kind: Kind): Irq {
    var alreadySet := if kind == Overflow then q.overflowFlag else q.targetFlag;
    var raise_ := q.intrEnable && (q.repeating || !alreadySet);
    var update := q.repeating || (q.intrEnable && q.toggle);
    q.(raised := q.raised + (if raise_ then 1 else 0),
       intrEnable := if !update then q.intrEnable else if q.toggle then !q.intrEnable else false)
  }

  /** An event: fire if it is enabled, then set the event's flag. */
  function Event(q: Irq, kind: Kind): Irq {
    var f := if q.Enabled(kind) then Fired(q, kind) else q;
    if kind == Overflow then f.(overflowFlag := true) else f.(targetFlag := true)
  }

  function Events(q: Irq, kinds: seq<Kind>): Irq {
    if kinds == [] then q else Event(Events(q, kinds[..|kinds| - 1]), kinds[|kinds| - 1])
  }

  /** A run of updates; each synchronises once and then has its events (at most an overflow and a
      target, in that order). */
  function Updates(q: Irq, us: seq<seq<Kind>>): Irq {
    if us == [] then q else Events(Synced(Updates(q, us[..|us| - 1])), us[|us| - 1])
  }

  predicate AsUpdate(kinds: seq<Kind>) {
    kinds == [] || kinds == [Target] || kinds == [Overflow] || kinds == [Overflow, Target]
  }

  // ---- What each mode promises, counted independently ----

  /** The enabled events of one update. */
  function Count(q: Irq, kinds: seq<Kind>): nat {
    if kinds == [] then 0
    else Count(q, kinds[..|kinds| - 1]) + (if q.Enabled(kinds[|kinds| - 1]) then 1 else 0)
  }

  /** Updates that had an enabled event. */
  function Busy(q: Irq, us: seq<seq<Kind>>): nat {
    if us == [] then 0
    else Busy(q, us[..|us| - 1]) + (if Count(q, us[|us| - 1]) > 0 then 1 else 0)
  }

  function Total(q: Irq, us: seq<seq<Kind>>): nat {
    if us == [] then 0 else Total(q, us[..|us| - 1]) + Count(q, us[|us| - 1])
  }

  predicate Had(us: seq<seq<Kind>>, kind: Kind) {
    exists i | 0 <= i < |us| :: kind in us[i]
  }

  /** From the updates with an enabled event, the enabled events, and the kinds that occurred. */
  function PromisedFor(q: Irq, busy: nat, total: nat, hadTarget: bool, hadOverflow: bool): nat {
    if q.repeating && !q.toggle then busy
    else if q.repeating then (total + 1) / 2
    else if !q.toggle then
      (if q.targetIntr && hadTarget then 1 else 0) + (if q.overflIntr && hadOverflow then 1 else 0)
    else if total > 0 then 1 else 0
  }

  function Promised(q: Irq, us: seq<seq<Kind>>): nat {
    PromisedFor(q, Busy(q, us), Total(q, us), Had(us, Target), Had(us, Overflow))
  }

  ghost predicate Armed(q: Irq) {
    q.intrEnable && !q.targetFlag && !q.overflowFlag && q.raised == 0
  }

  /** The state reached, in closed form. An event that is not enabled only leaves its flag. */
  ghost predicate ReachedFor(q: Irq, busy: nat, total: nat, hadTarget: bool, hadOverflow: bool) {
    && q.raised == PromisedFor(q, busy, total, hadTarget, hadOverflow)
    && (q.targetFlag <==> hadTarget) && (q.overflowFlag <==> hadOverflow)
    && (!q.repeating && !q.toggle ==> q.intrEnable)
    && (!q.repeating && q.toggle ==> (q.intrEnable <==> total == 0))
    && (q.repeating && q.toggle ==> (q.intrEnable <==> total % 2 == 0))
    && (total == 0 ==> !(q.targetIntr && hadTarget) && !(q.overflIntr && hadOverflow))
  }

  ghost predicate Reached(q: Irq, us: seq<seq<Kind>>) {
    ReachedFor(q, Busy(q, us), Total(q, us), Had(us, Target), Had(us, Overflow))
  }

  predicate SameMode(q: Irq, r: Irq) {
    r.repeating == q.repeating && r.toggle == q.toggle && r.targetIntr == q.targetIntr && r.overflIntr == q.overflIntr
  }

  lemma HadAppend(us: seq<seq<Kind>>, u: seq<Kind>, kind: Kind)
    ensures Had(us + [u], kind) <==> Had(us, kind) || kind in u
  {
    var all := us + [u];
    if Had(us, kind) {
      var i :| 0 <= i < |us| && kind in us[i];
      assert all[i] == us[i];
    }
    if kind in u { assert all[|us|] == u; }
  }

  lemma {:induction false} SameCounts(q: Irq, r: Irq, us: seq<seq<Kind>>)
    requires SameMode(q, r)
    ensures Total(q, us) == Total(r, us) && Busy(q, us) == Busy(r, us) && Promised(q, us) == Promised(r, us)
  {
    if us != [] {
      SameCounts(q, r, us[..|us| - 1]);
      SameCount(q, r, us[|us| - 1]);
    }
  }

  lemma {:induction false} SameCount(q: Irq, r: Irq, kinds: seq<Kind>)
    requires SameMode(q, r)
    ensures Count(q, kinds) == Count(r, kinds)
  {
    if kinds != [] { SameCount(q, r, kinds[..|kinds| - 1]); }
  }

  /** Over any run of updates of a freshly armed timer, whichever events are enabled, the interrupts
      raised are exactly: one per update that had an enabled event (repeating, pulsed); every other
      enabled event, starting with the first (repeating, toggled); one per enabled kind of event
      (one-shot, pulsed); one in all (one-shot, toggled). */
  lemma {:induction false} RaisedAsPromised(q: Irq, us: seq<seq<Kind>>)
    requires Armed(q) && forall i | 0 <= i < |us| :: AsUpdate(us[i])
    ensures var r := Updates(q, us); SameMode(q, r) && Reached(r, us) && r.raised == Promised(q, us)
  {
    if us != [] {
      var init, u := us[..|us| - 1], us[|us| - 1];
      RaisedAsPromised(q, init);
      assert us == init + [u];
      HadAppend(init, u, Target);
      HadAppend(init, u, Overflow);
      UpdateReaches(Updates(q, init), init, u);
    }
    hide Reached, Promised;
    SameCounts(q, Updates(q, us), us);
    ReachedRaised(Updates(q, us), us);
  }

  lemma ReachedRaised(q: Irq, us: seq<seq<Kind>>)
    requires Reached(q, us)
    ensures q.raised == Promised(q, us)
  {
  }

  /** An overflow, if there was one, and then a target, if there was one. */
  function Either(q: Irq, target: bool, overflow: bool): Irq {
    var o := if overflow then Event(q, Overflow) else q;
    if target then Event(o, Target) else o
  }

  function Number(q: Irq, target: bool, overflow: bool): nat {
    (if overflow && q.overflIntr then 1 else 0) + (if target && q.targetIntr then 1 else 0)
  }

  /** The events of one update, one by one. */
  lemma EventsOf(s: Irq, u: seq<Kind>)
    requires AsUpdate(u)
    ensures Events(s, u) == Either(s, Target in u, Overflow in u)
    ensures Count(s, u) == Number(s, Target in u, Overflow in u)
  {
    hide Event;
    if |u| == 1 {
      assert u[..0] == [] && Events(s, []) == s && Count(s, []) == 0;
      assert Target in u <==> u[0] == Target;
      assert Overflow in u <==> u[0] == Overflow;
    } else if |u| == 2 {
      assert u[..1] == [Overflow] && u[..1][..0] == [];
      assert Events(s, [Overflow]) == Event(s, Overflow);
      assert Count(s, [Overflow]) == if s.overflIntr then 1 else 0;
    }
  }

  lemma UpdateReaches(q: Irq, us: seq<seq<Kind>>, u: seq<Kind>)
    requires Reached(q, us) && AsUpdate(u)
    requires Had(us + [u], Target) <==> Had(us, Target) || Target in u
    requires Had(us + [u], Overflow) <==> Had(us, Overflow) || Overflow in u
    ensures var r := Events(Synced(q), u); SameMode(q, r) && Reached(r, us + [u])
  {
    hide Had, Events, Count, AsUpdate, Either, Synced, ReachedFor;
    var s, r := Synced(q), Events(Synced(q), u);
    SyncedMode(q);
    EventsOf(s, u);
    SameCount(q, s, u);
    assert (us + [u])[..|us|] == us;
    assert Total(q, us + [u]) == Total(q, us) + Count(q, u);
    assert Busy(q, us + [u]) == Busy(q, us) + (if Count(q, u) > 0 then 1 else 0);
    EventsReach(q, Busy(q, us), Total(q, us), Had(us, Target), Had(us, Overflow), Target in u, Overflow in u);
    SameCounts(q, r, us + [u]);
  }

  lemma SyncedMode(q: Irq)
    ensures SameMode(q, Synced(q))
  {
  }

  /** The events of one update, in numbers. */
  lemma EventsReach(q: Irq, busy: nat, total: nat, hadTarget: bool, hadOverflow: bool, target: bool, overflow: bool)
    requires ReachedFor(q, busy, total, hadTarget, hadOverflow)
    ensures var r, n := Either(Synced(q), target, overflow), Number(q, target, overflow);
            && SameMode(q, r)
            && ReachedFor(r, busy + (if n > 0 then 1 else 0), total + n, hadTarget || target, hadOverflow || overflow)
  {
    hide ReachedFor, Either, Number;
    if q.repeating && !q.toggle {
      PulsesReach(q, busy, total, hadTarget, hadOverflow, target, overflow);
    } else {
      SinglesReach(q, busy, total, hadTarget, hadOverflow, target, overflow);
    }
  }

  lemma SinglesReach(q: Irq, busy: nat, total: nat, hadTarget: bool, hadOverflow: bool, target: bool, overflow: bool)
    requires ReachedFor(q, busy, total, hadTarget, hadOverflow) && !(q.repeating && !q.toggle)
    ensures var r, n := Either(Synced(q), target, overflow), Number(q, target, overflow);
            && SameMode(q, r)
            && ReachedFor(r, busy + (if n > 0 then 1 else 0), total + n, hadTarget || target, hadOverflow || overflow)
  {
    hide Event, ReachedFor;
    var busy' := busy + (if Number(q, target, overflow) > 0 then 1 else 0);
    EventReaches(q, busy, busy', total, hadTarget, hadOverflow, Overflow, overflow);
    var o := if overflow then Event(q, Overflow) else q;
    EventReaches(o, busy', busy', total + Number(q, false, overflow), hadTarget, hadOverflow || overflow,
                 Target, target);
  }

  /** In the other modes than repeating pulsed each event counts for itself. */
  lemma EventReaches(q: Irq, busy: nat, busy': nat, total: nat, hadTarget: bool, hadOverflow: bool, kind: Kind,
                     happens: bool)
    requires ReachedFor(q, busy, total, hadTarget, hadOverflow) && !(q.repeating && !q.toggle)
    ensures var r := if happens then Event(q, kind) else q;
            && SameMode(q, r)
            && ReachedFor(r, busy', total + (if happens && q.Enabled(kind) then 1 else 0),
                          hadTarget || (happens && kind == Target), hadOverflow || (happens && kind == Overflow))
  {
  }

  lemma PulsesReach(q: Irq, busy: nat, total: nat, hadTarget: bool, hadOverflow: bool, target: bool, overflow: bool)
    requires ReachedFor(q, busy, total, hadTarget, hadOverflow) && q.repeating && !q.toggle
    ensures var r, n := Either(Synced(q), target, overflow), Number(q, target, overflow);
            && SameMode(q, r)
            && ReachedFor(r, busy + (if n > 0 then 1 else 0), total + n, hadTarget || target, hadOverflow || overflow)
  {
  }

  /** In repeating pulsed mode an overflow and a target met by the same update share one interrupt,
      where two updates would have raised two. */
  lemma PulseSharedByUpdate(q: Irq)
    requires Armed(q) && q.repeating && !q.toggle && q.targetIntr && q.overflIntr
    ensures Updates(q, [[Overflow, Target]]).raised == 1
    ensures Updates(q, [[Overflow], [Target]]).raised == 2
  {
    RaisedAsPromised(q, [[Overflow, Target]]);
    RaisedAsPromised(q, [[Overflow], [Target]]);
    EventsOf(q, [Overflow, Target]);
    EventsOf(q, [Overflow]);
    EventsOf(q, [Target]);
    assert [[Overflow], [Target]][..1] == [[Overflow]];
    assert Busy(q, [[Overflow]]) == 1;
  }

  // ---- Ticks ----

  /** The rate that stands for the hblank signal, which the EE's scanlines count. */
  const PSXHBLANK: nat := 0x2001

  /** The pixel clock's rate, the one rate that is no power of two. */
  const PSXPIXEL: nat := 3

  predicate IsRate(rate: nat) { rate in {1, PSXPIXEL, 8, 16, 256} }

  /** Whole ticks between two cycles. */
  function Due(start: nat, cycle: nat, rate: nat): nat
    requires rate > 0 && start <= cycle
  {
    (cycle - start) / rate
  }

  /** `x & ~(rate - 1)`: rounds down to a multiple of a power of two; at rate 3 it clears bit 1. */
  function Masked(x: nat, rate: nat): (r: nat)
    requires IsRate(rate)
    ensures r <= x
  {
    if rate == PSXPIXEL then x - x / 2 % 2 * 2 else x - x % rate
  }

  /** Where a sync leaves startCycle: moved on by whole ticks and masked, if there were any. */
  function Restart(start: nat, cycle: nat, rate: nat): (r: nat)
    requires IsRate(rate) && start <= cycle
    ensures r <= cycle
  {
    QuotientFits(cycle - start, rate);
    if Due(start, cycle, rate) == 0 then start else Masked(start + Due(start, cycle, rate) * rate, rate)
  }

  lemma QuotientFits(x: nat, r: nat)
    requires r > 0
    ensures x / r * r <= x < x / r * r + r
  {
    assert x == r * (x / r) + x % r;
  }

  /** Ticks counted by two syncs in a row. */
  function InTwo(start: nat, a: nat, b: nat, rate: nat): nat
    requires IsRate(rate) && start <= a <= b
  {
    Due(start, a, rate) + Due(Restart(start, a, rate), b, rate)
  }

  /** One more sync in between never changes the count, exactly if the counter does not run by the
      pixel clock and startCycle is a multiple of the rate. */
  lemma SyncSplits(start: nat, rate: nat)
    requires IsRate(rate)
    ensures (forall a: nat, b: nat | start <= a <= b :: InTwo(start, a, b, rate) == Due(start, b, rate))
       <==> rate != PSXPIXEL && start % rate == 0
  {
    if rate != PSXPIXEL && start % rate == 0 {
      forall a: nat, b: nat | start <= a <= b ensures InTwo(start, a, b, rate) == Due(start, b, rate) {
        AlignedSplits(start, a, b, rate);
      }
    } else {
      var a, b := SplitFails(start, rate);
    }
  }

  lemma AlignedSplits(start: nat, a: nat, b: nat, rate: nat)
    requires IsRate(rate) && rate != PSXPIXEL && start % rate == 0 && start <= a <= b
    ensures InTwo(start, a, b, rate) == Due(start, b, rate)
  {
    var n := Due(start, a, rate);
    var m := Due(start + n * rate, b, rate);
    QuotientFits(a - start, rate);
    QuotientFits(b - (start + n * rate), rate);
    var q := start / rate;
    assert start == rate * q;
    MulCommutes(rate, q);
    MulDistributes(q, n, rate);
    DivModUnique(start + n * rate, q + n, rate, 0);
    MulDistributes(n, m, rate);
    DivModUnique(b - start, n + m, rate, b - start - (n + m) * rate);
  }

  /** Where it does not hold, a sync right at a tick makes the counter count one tick too many. */
  lemma SplitFails(start: nat, rate: nat) returns (a: nat, b: nat)
    requires IsRate(rate) && !(rate != PSXPIXEL && start % rate == 0)
    ensures start <= a <= b && InTwo(start, a, b, rate) == Due(start, b, rate) + 1
  {
    hide InTwo, Due, PixelTicks;
    if rate == PSXPIXEL {
      a, b := start + 3 * PixelTicks(start), start + 3 * PixelTicks(start) + 1;
      PixelSplit(start, PixelTicks(start));
    } else {
      a, b := start + rate, start + 2 * rate - start % rate;
      UnalignedSplit(start, rate);
    }
  }

  /** Ticks that set bit 1 of startCycle. */
  function PixelTicks(start: nat): (n: nat)
    ensures n > 0 && (start + 3 * n) / 2 % 2 == 1
  {
    if start % 4 == 1 then 2 else if start % 4 == 2 then 3 else 1
  }

  /** After n pixel ticks that set bit 1 of startCycle it is moved back by two cycles. */
  lemma PixelSplit(start: nat, n: nat)
    requires n > 0 && (start + 3 * n) / 2 % 2 == 1
    ensures var a := start + 3 * n; InTwo(start, a, a + 1, PSXPIXEL) == Due(start, a + 1, PSXPIXEL) + 1
  {
    var a := start + 3 * n;
    assert Due(start, a, PSXPIXEL) == Due(start, a + 1, PSXPIXEL) == n;
    assert Restart(start, a, PSXPIXEL) == a - 2 && Due(a - 2, a + 1, PSXPIXEL) == 1;
  }

  /** The first tick after an unaligned start moves startCycle back to a multiple of the rate. */
  lemma UnalignedSplit(start: nat, rate: nat)
    requires IsRate(rate) && rate != PSXPIXEL && start % rate > 0
    ensures var b := start + 2 * rate - start % rate;
            start + rate <= b && InTwo(start, start + rate, b, rate) == Due(start, b, rate) + 1
  {
    var e := start % rate;
    FirstTick(start, rate);
    hide Masked;
    assert Due(start, start + rate, rate) == 1;
    MaskedMultiple(start + rate, rate);
    assert Restart(start, start + rate, rate) == start + rate - e;
  }

  lemma MaskedMultiple(x: nat, rate: nat)
    requires IsRate(rate) && rate != PSXPIXEL
    ensures Masked(x, rate) == x - x % rate
  {
  }

  lemma FirstTick(start: nat, rate: nat)
    requires rate > 0 && start % rate > 0
    ensures (start + rate) % rate == start % rate && rate / rate == 1 && (2 * rate - start % rate) / rate == 1
  {
    var q, e := start / rate, start % rate;
    assert start == rate * q + e;
    MulCommutes(rate, q);
    MulDistributes(q, 1, rate);
    DivModUnique(start + rate, q + 1, rate, e);
    DivModUnique(rate, 1, rate, 0);
    DivModUnique(2 * rate - e, 1, rate, rate - e);
  }

  class IopCounter {
    /** Counters 3, 4 and 5 have 32 bits. */
    const wide: bool
    var count: nat
    var target: nat
    /** The bit that keeps the target off until the next overflow. */
    var future: bool
    var rate: nat
    var startCycle: nat
    var gateEnable: bool
    var gateMode: nat
    var targetIntr: bool
    var overflIntr: bool
    var zeroReturn: bool
    var intrEnable: bool
    var targetFlag: bool
    var overflowFlag: bool
    var repeating: bool
    var toggle: bool
    /** Interrupts raised so far. */
    var raised: nat

    constructor (wide: bool, cycle: nat)
      ensures Armed(Q()) && Valid() && this.wide == wide && startCycle == cycle
    {
      this.wide := wide;
      count, target, future, rate, startCycle := 0, 0, true, 1, cycle;
      gateEnable, gateMode, targetIntr, overflIntr, zeroReturn := false, 0, false, false, false;
      intrEnable, targetFlag, overflowFlag, repeating, toggle, raised := true, false, false, false, false, 0;
    }

    function Modulus(): nat { if wide then 0x1_0000_0000 else 0x1_0000 }

    function Q(): Irq
      reads this
    {
      Irq(intrEnable, targetFlag, overflowFlag, repeating, toggle, targetIntr, overflIntr, raised)
    }

    ghost predicate Valid()
      reads this
    {
      (IsRate(rate) || rate == PSXHBLANK) && target < Modulus()
    }

    method Sync(cycle: nat, canCount: bool)
      requires Valid() && startCycle <= cycle
      modifies this`intrEnable, this`count, this`startCycle
      ensures Q() == Synced(old(Q()))
      ensures canCount && rate != PSXHBLANK ==> count == old(count) + Due(old(startCycle), cycle, rate)
      ensures !(canCount && rate != PSXHBLANK) ==>
        count == (if gateEnable && gateMode == 2 then 0 else old(count)) && startCycle == cycle
      ensures canCount && rate != PSXHBLANK ==> startCycle == Restart(old(startCycle), cycle, rate)
      ensures startCycle <= cycle
    {
      hide Due, Masked;
      if repeating && !toggle {
        intrEnable := true;
      }
      if canCount && rate != PSXHBLANK {
        var change := Due(startCycle, cycle, rate);
        if change > 0 {
          count := count + change;
          startCycle := Masked(startCycle + change * rate, rate);
        }
      } else {
        if gateEnable && gateMode == 2 {
          count := 0;
        }
        startCycle := cycle;
      }
    }

    method FireInterrupt(isOverflow: bool)
      modifies this`intrEnable, this`raised
      ensures Q() == Fired(old(Q()), if isOverflow then Overflow else Target)
    {
      var updateIntr := repeating;
      if intrEnable {
        var alreadySet := if isOverflow then overflowFlag else targetFlag;
        if updateIntr || !alreadySet {
          raised := raised + 1;
        }
        updateIntr := updateIntr || toggle;
      }
      if updateIntr {
        if toggle {
          intrEnable := !intrEnable;
        } else {
          intrEnable := false;
        }
      }
    }

    /** True if the target has been reached. */
    method TestTarget() returns (hit: bool)
      requires Valid()
      modifies this`intrEnable, this`raised, this`targetFlag, this`count, this`future
      ensures Valid() && hit == (!old(future) && old(count) >= target)
      ensures !hit ==> Q() == old(Q()) && count == old(count) && future == old(future)
      ensures hit ==> Q() == Event(old(Q()), Target)
      ensures hit ==> count == (if zeroReturn then old(count) - target else old(count)) && future == !zeroReturn
    {
      if future || count < target {
        return false;
      }
      if targetIntr {
        FireInterrupt(false);
      }
      targetFlag := true;
      if zeroReturn {
        count := count - target;
      } else {
        future := true;
      }
      return true;
    }

    /** True if the counter has overflowed. */
    method TestOverflow() returns (hit: bool)
      requires Valid()
      modifies this`intrEnable, this`raised, this`overflowFlag, this`count, this`future
      ensures Valid() && hit == (old(count) >= Modulus()) && Modulus() == if wide then 0x1_0000_0000 else 0x1_0000
      ensures !hit ==> Q() == old(Q()) && count == old(count) && future == old(future)
      ensures hit ==> Q() == Event(old(Q()), Overflow)
      ensures hit ==> count == old(count) - Modulus() && !future
    {
      if count < Modulus() {
        return false;
      }
      if overflIntr {
        FireInterrupt(true);
      }
      overflowFlag := true;
      count := count - Modulus();
      future := false;
      return true;
    }

    /** Count, future bit and events that the two tests make of a count: an overflow takes one turn
        off and turns the target on again; a target that is on and reached starts the count over or
        turns itself off. */
    function Counted(n: nat, off: bool): (nat, bool, seq<Kind>)
      requires target < Modulus()
      reads this`target, this`zeroReturn
    {
      var over := n >= Modulus();
      var c := if over then n - Modulus() else n;
      var hit := !(off && !over) && c >= target;
      (if hit && zeroReturn then c - target else c,
       if hit then !zeroReturn else off && !over,
       (if over then [Overflow] else []) + (if hit then [Target] else []))
    }

    /** One pass of psxRcntUpdate over this counter: one update of the run above, whichever events are
        enabled; the events it met are returned in order. */
    method Update(cycle: nat, canCount: bool) returns (kinds: seq<Kind>)
      requires Valid() && startCycle <= cycle
      modifies this
      ensures Valid() && startCycle <= cycle && rate == old(rate)
      ensures AsUpdate(kinds) && Q() == Events(Synced(old(Q())), kinds)
      ensures !(canCount && rate != PSXHBLANK) ==> kinds == []
      ensures canCount && rate != PSXHBLANK ==>
        (count, future, kinds) == Counted(old(count) + Due(old(startCycle), cycle, rate), old(future))
    {
      hide Due, Restart, Fired, Synced, Modulus;
      Sync(cycle, canCount);
      kinds := [];
      if rate == PSXHBLANK || !canCount {
        return;
      }
      ghost var s := Q();
      var o := TestOverflow();
      if o {
        kinds := [Overflow];
      }
      var t := TestTarget();
      if t {
        kinds := kinds + [Target];
      }
      assert kinds == (if o then [Overflow] else []) + (if t then [Target] else []);
      EventsOf(s, kinds);
    }

    /** Any run of updates of a freshly armed counter raises what its mode promises for the events
        that the updates met. */
    method Run(updates: seq<Pass>) returns (us: seq<seq<Kind>>)
      requires Valid() && Armed(Q())
      requires forall k | 0 <= k < |updates| :: startCycle <= updates[k].cycle
      requires forall j, k | 0 <= j < k < |updates| :: updates[j].cycle <= updates[k].cycle
      modifies this
      ensures Valid() && |us| == |updates| && forall k | 0 <= k < |us| :: AsUpdate(us[k])
      ensures Q() == Updates(old(Q()), us) && raised == Promised(old(Q()), us)
    {
      us := [];
      for n := 0 to |updates|
        invariant Valid() && |us| == n && forall k | 0 <= k < n :: AsUpdate(us[k])
        invariant Q() == Updates(old(Q()), us)
        invariant forall k | n <= k < |updates| :: startCycle <= updates[k].cycle
      {
        var u := Update(updates[n].cycle, updates[n].canCount);
        assert (us + [u])[..n] == us;
        us := us + [u];
      }
      RaisedAsPromised(old(Q()), us);
    }
  }

  /** When an update comes, and whether the gates let the counter count then. */
  datatype Pass = Pass(cycle: nat, canCount: bool)
}
