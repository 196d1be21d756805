/** The EE timers in cycles: lazy synchronisation against a timer that ticks by the clock. */
module EeTimers {
  import opened Arith
  import opened TimerCore

  /** A counter with its clock: it ticks at the multiples of `rate`; the last tick counted was at
      startCycle. `clockSource` 3 is the hblank signal, which ticks elsewhere. */
  datatype Timer = Timer(
    c: Counter, rate: nat, startCycle: nat, clockSource: nat,
    enableGate: bool, gateOnVBlank: bool, gateMode: nat, isCounting: bool)

  function FloorTo(x: nat, rate: nat): nat
    requires rate > 0
  {
    x - x % rate
  }

  /** Ticks that have passed by `cycle` and are not counted yet. */
  function TicksDue(t: Timer, cycle: nat): nat
    requires t.rate > 0 && t.startCycle <= cycle
  {
    (cycle - t.startCycle) / t.rate
  }

  /** rcntSyncCounter: counts the ticks that have passed and moves startCycle to the last one. */
  function Sync(t: Timer, cycle: nat, canCount: bool): Timer
    requires t.rate > 0 && t.startCycle <= cycle
  {
    if t.clockSource == 3 then t.(startCycle := cycle)
    else
      var change := (cycle - t.startCycle) / t.rate;
      t.(startCycle := FloorTo(t.startCycle + change * t.rate, t.rate),
         c := if canCount then Advance(t.c, change) else t.c)
  }

  ghost predicate Aligned(t: Timer) {
    t.rate > 0 && t.startCycle % t.rate == 0
  }

  lemma DivFloor(x: nat, r: nat)
    requires r > 0
    ensures FloorTo(x, r) == x / r * r && FloorTo(x, r) % r == 0 && FloorTo(x, r) <= x < FloorTo(x, r) + r
    ensures FloorTo(x, r) / r == x / r && FloorTo(FloorTo(x, r), r) == FloorTo(x, r)
  {
    var q := x / r;
    assert x == r * q + x % r;
    MulCommutes(r, q);
    DivModUnique(q * r, q, r, 0);
  }

  /** Ticks between an aligned cycle and a later one. */
  lemma TicksBetween(s: nat, x: nat, r: nat)
    requires r > 0 && s % r == 0 && s <= x
    ensures (x - s) / r == x / r - s / r && s + (x - s) / r * r == FloorTo(x, r)
  {
    DivFloor(x, r);
    DivFloor(s, r);
    MulDistributes(x / r, s / r, r);
    DivModUnique(x - s, x / r - s / r, r, x % r);
  }

  /** Where a sync leaves startCycle. */
  lemma SyncAligned(t: Timer, cycle: nat, canCount: bool)
    requires Aligned(t) && t.startCycle <= cycle && t.clockSource != 3
    ensures Sync(t, cycle, canCount) == t.(startCycle := FloorTo(cycle, t.rate),
      c := if canCount then Advance(t.c, (cycle - t.startCycle) / t.rate) else t.c)
    ensures (cycle - t.startCycle) / t.rate == cycle / t.rate - t.startCycle / t.rate
    ensures Aligned(Sync(t, cycle, canCount)) && FloorTo(cycle, t.rate) <= cycle
  {
    hide FloorTo;
    TicksBetween(t.startCycle, cycle, t.rate);
    DivFloor(cycle, t.rate);
  }

  /** Synchronising at one more cycle in between changes nothing, whatever the cycles, exactly if
      startCycle is a multiple of the rate. */
  lemma SyncSplits(t: Timer)
    requires t.rate > 0 && t.clockSource != 3
    ensures Aligned(t) <==>
      forall a: nat, b: nat | t.startCycle <= a <= b ::
        Sync(t, a, true).startCycle <= b && Sync(Sync(t, a, true), b, true) == Sync(t, b, true)
  {
    if Aligned(t) {
      forall a: nat, b: nat | t.startCycle <= a <= b
        ensures Sync(t, a, true).startCycle <= b && Sync(Sync(t, a, true), b, true) == Sync(t, b, true)
      {
        AlignedSplit(t, a, b);
      }
    } else {
      hide Sync, FloorTo;
      UnalignedSync(t);
    }
  }

  lemma AlignedSplit(t: Timer, a: nat, b: nat)
    requires Aligned(t) && t.clockSource != 3 && t.startCycle <= a <= b
    ensures Sync(t, a, true).startCycle <= b && Sync(Sync(t, a, true), b, true) == Sync(t, b, true)
  {
    hide Sync, FloorTo;
    SyncAligned(t, a, true);
    DivFloor(a, t.rate);
    SyncAligned(Sync(t, a, true), b, true);
    SyncAligned(t, b, true);
  }

  /** A sync at startCycle itself moves an unaligned startCycle back; the tick is then counted twice. */
  lemma UnalignedSync(t: Timer)
    requires t.rate > 0 && t.clockSource != 3 && !Aligned(t)
    ensures var a, b := t.startCycle, FloorTo(t.startCycle, t.rate) + t.rate;
            && a <= b && Sync(t, a, true).startCycle <= b
            && Sync(Sync(t, a, true), b, true).c.count == Sync(t, b, true).c.count + 1
  {
    var a, r := t.startCycle, t.rate;
    var lo := FloorTo(a, r);
    DivFloor(a, r);
    DivModUnique(0, 0, r, 0);
    DivModUnique(r, 1, r, 0);
    DivModUnique(lo + r - a, 0, r, lo + r - a);
    assert Sync(t, a, true) == t.(startCycle := lo);
    SyncAligned(t.(startCycle := lo), lo + r, true);
    TicksBetween(lo, lo + r, r);
  }

  // ---- A run of lazy updates against a timer that ticks by the clock ----

  /** One pass of rcntUpdate over a timer that can count. */
  function UpdateAt(t: Timer, cycle: nat): (Timer, seq<Event>)
    requires t.rate > 0 && t.startCycle <= cycle
  {
    var s := Sync(t, cycle, true);
    var u := Update(s.c, 0);
    (s.(c := u.0), u.1)
  }

  /** The reference: at every cycle after `start` up to `end` that is a multiple of the rate, one tick. */
  function ByCycle(c: Counter, rate: nat, start: nat, end: nat): Result
    requires rate > 0 && start <= end
    decreases end
  {
    if start == end then (c, [])
    else
      var r := ByCycle(c, rate, start, end - 1);
      if end % rate != 0 then r
      else
        var s := Tick(r.0);
        (s.0, r.1 + s.1)
  }

  /** What matters of a timer between updates. */
  ghost predicate Ready(t: Timer) {
    Settled(t.c) && Aligned(t) && t.clockSource != 3
  }

  /** Updates at the given cycles, oldest first, none so late that its jump crosses more than it can
      see. */
  ghost predicate Punctual(t: Timer, now: nat, cycles: seq<nat>)
    decreases |cycles|
  {
    cycles == [] ||
    (&& t.rate > 0 && t.startCycle <= now <= cycles[0]
     && Exact(t.c, (cycles[0] - t.startCycle) / t.rate)
     && Punctual(UpdateAt(t, cycles[0]).0, cycles[0], cycles[1..]))
  }

  function LazyRun(t: Timer, cycles: seq<nat>): (Timer, seq<Event>)
    decreases |cycles|
  {
    if cycles == [] || t.rate == 0 || cycles[0] < t.startCycle then (t, [])
    else
      var s := UpdateAt(t, cycles[0]);
      var r := LazyRun(s.0, cycles[1..]);
      (r.0, s.1 + r.1)
  }

  function Last(now: nat, cycles: seq<nat>): nat {
    if cycles == [] then now else cycles[|cycles| - 1]
  }

  lemma {:induction false} ByCycleTicks(c: Counter, rate: nat, start: nat, end: nat)
    requires rate > 0 && start <= end
    ensures end / rate >= start / rate && ByCycle(c, rate, start, end) == Ticks(c, end / rate - start / rate)
    decreases end
  {
    hide Tick;
    if start < end {
      ByCycleTicks(c, rate, start, end - 1);
      NextQuotient(end, rate);
    }
  }

  lemma NextQuotient(x: nat, r: nat)
    requires x > 0 && r > 0
    ensures x / r == (x - 1) / r + (if x % r == 0 then 1 else 0)
  {
    var q := x / r;
    assert x == r * q + x % r;
    MulCommutes(r, q);
    if x % r == 0 {
      MulDistributes(q, 1, r);
      DivModUnique(x - 1, q - 1, r, r - 1);
    } else {
      DivModUnique(x - 1, q, r, x % r - 1);
    }
  }

  lemma UpdateAfterAdvance(c: Counter, n: nat)
    ensures Update(Advance(c, n), 0) == Update(c, n)
  {
    hide TestOverflow, TestTarget;
    assert Advance(c, n).(count := c.count + n) == c.(count := c.count + n);
  }

  /** One update that is not late: the counter moves exactly as by the clock. */
  lemma UpdateAtIsByCycle(t: Timer, now: nat, u: nat)
    requires Ready(t) && t.startCycle <= now <= u && FloorTo(now, t.rate) == t.startCycle
    requires Exact(t.c, (u - t.startCycle) / t.rate)
    ensures var r := UpdateAt(t, u);
            && (r.0.c, r.1) == ByCycle(t.c, t.rate, now, u)
            && r.0 == t.(c := r.0.c, startCycle := FloorTo(u, t.rate)) && r.0.startCycle <= u
            && Ready(r.0)
  {
    hide Update, Ticks, FloorTo, Exact, Settled, ByCycle, UpdateAt, Sync;
    UpdateAtIsUpdate(t, u);
    DivFloor(now, t.rate);
    DivFloor(u, t.rate);
    var n := (u - t.startCycle) / t.rate;
    ExactJump(t.c, n);
    ExactStaysSettled(t.c, n);
    ByCycleTicks(t.c, t.rate, now, u);
  }

  lemma UpdateAtIsUpdate(t: Timer, u: nat)
    requires Aligned(t) && t.clockSource != 3 && t.startCycle <= u
    ensures var n := (u - t.startCycle) / t.rate;
            && n == u / t.rate - t.startCycle / t.rate
            && UpdateAt(t, u) == (t.(c := Update(t.c, n).0, startCycle := FloorTo(u, t.rate)), Update(t.c, n).1)
  {
    hide Update, FloorTo, Sync;
    SyncAligned(t, u, true);
    UpdateAfterAdvance(t.c, (u - t.startCycle) / t.rate);
  }

  lemma ByCycleSplit(c: Counter, rate: nat, a: nat, b: nat, d: nat)
    requires rate > 0 && a <= b <= d
    ensures var m := ByCycle(c, rate, a, b); var e := ByCycle(m.0, rate, b, d);
            ByCycle(c, rate, a, d) == (e.0, m.1 + e.1)
  {
    hide Update, Ticks, ByCycle;
    ByCycleTicks(c, rate, a, b);
    ByCycleTicks(c, rate, a, d);
    var m := ByCycle(c, rate, a, b);
    ByCycleTicks(m.0, rate, b, d);
    TicksSplit(c, b / rate - a / rate, d / rate - b / rate);
  }

  /** Whenever its updates come, as long as none is late, the lazy timer has after each of them the
      count, the flags and the events of the timer that ticks by the clock. */
  lemma {:induction false} LazyRunIsByCycle(t: Timer, now: nat, cycles: seq<nat>)
    requires Ready(t) && t.startCycle <= now && FloorTo(now, t.rate) == t.startCycle && Punctual(t, now, cycles)
    ensures now <= Last(now, cycles)
    ensures var r := LazyRun(t, cycles);
            && (r.0.c, r.1) == ByCycle(t.c, t.rate, now, Last(now, cycles))
            && r.0 == t.(c := r.0.c, startCycle := FloorTo(Last(now, cycles), t.rate)) && Ready(r.0)
    decreases |cycles|
  {
    hide Update, Ticks, FloorTo, Exact, Settled, UpdateAt;
    if cycles != [] {
      var u := cycles[0];
      UpdateAtIsByCycle(t, now, u);
      DivFloor(u, t.rate);
      var s := UpdateAt(t, u);
      LazyRunIsByCycle(s.0, u, cycles[1..]);
      assert Last(u, cycles[1..]) == Last(now, cycles);
      ByCycleSplit(t.c, t.rate, now, u, Last(now, cycles));
    }
  }
}
