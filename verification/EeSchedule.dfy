/** The EE timer registers and the cycle of the next timer update. */
module EeSchedule {
  import opened Arith
  import opened TimerCore
  import opened EeTimers

  /** Conversion to a signed 32-bit number. */
  function S32(x: int): (r: int)
    ensures -0x8000_0000 <= r < 0x8000_0000 && (x - r) % 0x1_0000_0000 == 0
    ensures -0x8000_0000 <= x < 0x8000_0000 ==> r == x
    ensures x >= 0 ==> r <= x
  {
    (x + 0x8000_0000) % 0x1_0000_0000 - 0x8000_0000
  }

  function OverflowAt(t: Timer): int {
    t.startCycle + (0x1_0000 - t.c.count) * t.rate
  }

  function TargetAt(t: Timer): int {
    t.startCycle + (t.c.target - t.c.count) * t.rate
  }

  /** Does the scheduler look at this timer at all? */
  predicate Watched(t: Timer, canCount: bool) {
    canCount && t.clockSource != 3 && (t.c.targetInterrupt || t.c.overflowInterrupt || t.c.zeroReturn)
  }

  /** A timer the scheduler looks at does not depend on a gate. */
  predicate Plain(t: Timer) {
    Watched(t, true) ==> !t.enableGate
  }

  predicate JustPassed(t: Timer) {
    t.c.count > 0x1_0000 || t.c.count > t.c.FullTarget()
  }

  /** _rcntSet: the new delta, counted from `base`, the cycle of the last schedule. */
  function NextDelta(t: Timer, canCount: bool, base: int, delta: int, cycle: int): int {
    if !Watched(t, canCount) then delta
    else if JustPassed(t) then 4
    else
      var o := S32((0x1_0000 - t.c.count) * t.rate - (cycle - t.startCycle) + (cycle - base));
      var d := if o < delta then o else delta;
      if t.c.future then d
      else
        var g := S32((t.c.FullTarget() - t.c.count) * t.rate - (cycle - t.startCycle) + (cycle - base));
        if g < d then g else d
  }

  /** The next thing the timer does is no later than this. */
  predicate Covered(t: Timer, canCount: bool, due: int) {
    Watched(t, canCount) ==> due <= OverflowAt(t) && (!t.c.future ==> due <= TargetAt(t))
  }

  /** startCycle and the last schedule are recent enough for 32-bit differences. */
  predicate InRange(t: Timer, base: int) {
    && t.c.count <= 0x1_0000 && t.c.target <= 0xFFFF && t.rate <= 512
    && -0x4000_0000 < t.startCycle - base < 0x4000_0000
  }

  lemma ProductBounds(n: int, r: nat)
    requires 0 <= n <= 0x1_0000 && r <= 512
    ensures 0 <= n * r <= 0x200_0000
  {
    assert n * r <= 0x1_0000 * r;
  }

  /** After _rcntSet the schedule covers the timer, and has only moved earlier, unless the timer's
      target or overflow has just passed; then whatever was scheduled is replaced by 4. */
  lemma NextDeltaCovers(t: Timer, canCount: bool, base: int, delta: int, cycle: int)
    requires InRange(t, base)
    ensures !(Watched(t, canCount) && JustPassed(t)) ==>
      var d := NextDelta(t, canCount, base, delta, cycle);
      d <= delta && Covered(t, canCount, base + d) &&
      (d == delta || base + d == OverflowAt(t) || base + d == TargetAt(t))
    ensures Watched(t, canCount) && JustPassed(t) ==> NextDelta(t, canCount, base, delta, cycle) == 4
  {
    if Watched(t, canCount) && !JustPassed(t) {
      ProductBounds(0x1_0000 - t.c.count, t.rate);
      if !t.c.future { ProductBounds(t.c.target - t.c.count, t.rate); }
    }
  }

  lemma KeepsSchedule(t: Timer, canCount: bool, delta: int, cycle: int)
    requires Watched(t, canCount) ==> InRange(t, cycle) && !JustPassed(t)
    ensures NextDelta(t, canCount, cycle, delta, cycle) <= delta
    ensures Covered(t, canCount, cycle + NextDelta(t, canCount, cycle, delta, cycle))
  {
    if Watched(t, canCount) { NextDeltaCovers(t, canCount, cycle, delta, cycle); }
  }

  /** So a deadline that was met before the step is met after it, whatever the deadline, exactly if
      the timer has not just passed or the deadline is at least 4 cycles off. */
  lemma DeadlineKept(t: Timer, canCount: bool, base: int, delta: int, cycle: int, deadline: int)
    requires InRange(t, base) && base + delta <= deadline
    ensures base + NextDelta(t, canCount, base, delta, cycle) <= deadline <==>
      !(Watched(t, canCount) && JustPassed(t)) || base + 4 <= deadline
  {
    NextDeltaCovers(t, canCount, base, delta, cycle);
  }

  /** A timer at its last update, in cycle 1001: one short of its target, which interrupts nothing. */
  const UNWATCHED := Timer(Counter(4, 5, false, false, false, false, false, false), 2, 1000, 0, false, false, 0, true)

  /** Three cycles later, with the hblank due at once, a mode write turns the interrupt on. The timer has
      run past its target unnoticed, and the update is put off by a cycle. */
  lemma ModeWritePutsOff(hPeriod: nat)
    requires hPeriod > 0
    ensures var u := ModeWritten(Sync(UNWATCHED, 1004, true), 0x180, 1004, hPeriod);
            && u.c.count == 6 && Watched(u, true) && InRange(u, 1001) && JustPassed(u)
            && NextDelta(u, true, 1001, 3, 1004) == 4
  {
    hide Sync, S32, ModeWritten;
    TwoTicks();
    EnablesTarget(Sync(UNWATCHED, 1004, true), hPeriod);
  }

  lemma TwoTicks()
    ensures Sync(UNWATCHED, 1004, true) == UNWATCHED.(startCycle := 1004, c := Advance(UNWATCHED.c, 2))
  {
    assert (1004 - 1000) / 2 == 2 && FloorTo(1004, 2) == 1004;
  }

  lemma EnablesTarget(s: Timer, hPeriod: nat)
    requires hPeriod > 0
    ensures var u := ModeWritten(s, 0x180, 1004, hPeriod);
            u.c == s.c.(zeroReturn := false, targetInterrupt := true, overflowInterrupt := false)
            && u.rate == 2 && u.startCycle == 1004 && u.clockSource == 0 && u.isCounting
  {
  }

  /** A timer that has just been updated in time has not just passed. */
  lemma SettledNotPassed(t: Timer)
    requires Settled(t.c)
    ensures !JustPassed(t)
  {
  }

  /** Keeping the schedule is enough to be exact: an update less than one tick after a cycle that
      covers the timer makes a jump that sees everything. */
  lemma OnTimeIsExact(t: Timer, due: int, u: nat)
    requires Ready(t) && Watched(t, true) && Covered(t, true, due) && t.startCycle <= u < due + t.rate
    ensures Exact(t.c, (u - t.startCycle) / t.rate)
  {
    var n := (u - t.startCycle) / t.rate;
    var d := if t.c.future then 0x1_0000 - t.c.count else t.c.target - t.c.count;
    assert u - t.startCycle < d * t.rate + t.rate;
    assert n * t.rate <= u - t.startCycle by {
      assert u - t.startCycle == t.rate * n + (u - t.startCycle) % t.rate;
      MulCommutes(t.rate, n);
    }
    MulDistributes(n, d + 1, t.rate);
    MulDistributes(d, 1, t.rate);
    assert (n - (d + 1)) * t.rate < 0;
    MulAtLeast(n - (d + 1), t.rate);
    assert n <= d;
  }

  // ---- Register writes ----

  datatype Register = CountReg | TargetReg | ModeReg

  /** A write to a timer that has been synchronised; `hPeriod` is the length of a scanline. */
  function Wrote(t: Timer, reg: Register, value: nat, cycle: nat, hPeriod: nat): Timer
    requires hPeriod > 0
  {
    match reg
    case CountReg => CountWritten(t, value)
    case TargetReg => TargetWritten(t, value)
    case ModeReg => ModeWritten(t, value, cycle, hPeriod)
  }


  /** A count write: a target at or below the new count waits for the next overflow. */
  function CountWritten(t: Timer, value: nat): Timer {
    var count := value % 0x1_0000;
    t.(c := t.c.(count := count, future := count >= t.c.target))
  }

  /** A target write, likewise; the timer has been synchronised after the target was stored. */
  function TargetWritten(t: Timer, value: nat): Timer {
    var target := value % 0x1_0000;
    t.(c := t.c.(target := target, future := target <= t.c.count))
  }

  function Bit(value: nat, weight: nat): bool
    requires weight > 0
  {
    (value / weight) % 2 == 1
  }

  /** A mode write; `hPeriod` is the length of a scanline in cycles. */
  function ModeWritten(t: Timer, value: nat, cycle: nat, hPeriod: nat): (r: Timer)
    requires hPeriod > 0
    ensures r.rate > 0 && r.startCycle <= cycle && (r.clockSource != 3 ==> Aligned(r) && r.rate <= 512)
  {
    var source := value % 4;
    var rate := if source == 0 then 2 else if source == 1 then 32 else if source == 2 then 512 else hPeriod;
    DivFloor(cycle, rate);
    t.(rate := rate, startCycle := FloorTo(cycle, rate), clockSource := source,
       enableGate := Bit(value, 4), gateOnVBlank := Bit(value, 8), gateMode := (value / 16) % 4,
       isCounting := Bit(value, 128),
       c := t.c.(zeroReturn := Bit(value, 64),
                 targetInterrupt := Bit(value, 256), overflowInterrupt := Bit(value, 512),
                 targetReached := t.c.targetReached && !Bit(value, 1024),
                 overflowReached := t.c.overflowReached && !Bit(value, 2048)))
  }

  /** The fields of a mode value. */
  datatype Mode = Mode(source: nat, gate: bool, onVBlank: bool, gateMode: nat, zeroReturn: bool, counting: bool,
                       target: bool, overflow: bool, clearTarget: bool, clearOverflow: bool, rest: nat)

  /** A flag, or two bits, and what lies above. */
  function Flag(b: bool, above: nat): nat { 2 * above + if b then 1 else 0 }

  function Pair(k: nat, above: nat): nat { 4 * above + k }

  /** Each at its place. */
  function ValueOf(m: Mode): nat {
    Pair(m.source, Flag(m.gate, Flag(m.onVBlank, Pair(m.gateMode, Flag(m.zeroReturn, Flag(m.counting,
      Flag(m.target, Flag(m.overflow, Flag(m.clearTarget, Flag(m.clearOverflow, m.rest))))))))))
  }

  /** A mode write takes each field for what it is: the clock, the gate, and what the timer does at its
      target and its overflow; flags are cleared by writing ones. */
  lemma ModeRead(t: Timer, m: Mode, cycle: nat, hPeriod: nat)
    requires m.source < 4 && m.gateMode < 4 && hPeriod > 0
    ensures var u := ModeWritten(t, ValueOf(m), cycle, hPeriod);
            && u.rate == (if m.source == 0 then 2 else if m.source == 1 then 32 else if m.source == 2 then 512
                          else hPeriod)
            && u.startCycle == cycle - cycle % u.rate
            && u == Timer(t.c.(zeroReturn := m.zeroReturn, targetInterrupt := m.target,
                               overflowInterrupt := m.overflow,
                               targetReached := t.c.targetReached && !m.clearTarget,
                               overflowReached := t.c.overflowReached && !m.clearOverflow),
                          u.rate, u.startCycle, m.source, m.gate, m.onVBlank, m.gateMode, m.counting)
  {
    hide ValueOf, Bit;
    FieldsOf(m, ValueOf(m));
    assert ValueOf(m) / 1 == ValueOf(m);
  }

  function Shift(v: nat, w: nat): nat
    requires w > 0
  {
    v / w
  }

  function TwoBits(v: nat, w: nat): nat
    requires w > 0
  {
    v / w % 4
  }

  lemma FieldsOf(m: Mode, v: nat)
    requires m.source < 4 && m.gateMode < 4 && v == ValueOf(m)
    ensures TwoBits(v, 1) == m.source && TwoBits(v, 16) == m.gateMode
    ensures Bit(v, 4) == m.gate && Bit(v, 8) == m.onVBlank && Bit(v, 64) == m.zeroReturn
    ensures Bit(v, 128) == m.counting && Bit(v, 256) == m.target && Bit(v, 512) == m.overflow
    ensures Bit(v, 1024) == m.clearTarget && Bit(v, 2048) == m.clearOverflow
  {
    hide Flag, Pair, Bit, Shift, TwoBits;
    var h := Flag(m.clearOverflow, m.rest);
    var g := Flag(m.clearTarget, h);
    var f := Flag(m.overflow, g);
    var e := Flag(m.target, f);
    var d := Flag(m.counting, e);
    var c := Flag(m.zeroReturn, d);
    var b := Pair(m.gateMode, c);
    var a := Flag(m.onVBlank, b);
    NoShift(v);
    Quarter(v, 1, m.source, Flag(m.gate, a));
    Half(v, 4, m.gate, a);
    Half(v, 8, m.onVBlank, b);
    Quarter(v, 16, m.gateMode, c);
    Half(v, 64, m.zeroReturn, d);
    Half(v, 128, m.counting, e);
    Half(v, 256, m.target, f);
    Half(v, 512, m.overflow, g);
    Half(v, 1024, m.clearTarget, h);
    Half(v, 2048, m.clearOverflow, m.rest);
  }

  lemma NoShift(v: nat)
    ensures Shift(v, 1) == v
  {
  }

  /** A flag at weight w, and what lies above it. */
  lemma Half(v: nat, w: nat, b: bool, x: nat)
    requires w > 0 && Shift(v, w) == Flag(b, x)
    ensures Bit(v, w) == b && Shift(v, 2 * w) == x
  {
    Above(v, w, 2, if b then 1 else 0, x);
  }

  lemma Quarter(v: nat, w: nat, k: nat, x: nat)
    requires w > 0 && k < 4 && Shift(v, w) == Pair(k, x)
    ensures TwoBits(v, w) == k && Shift(v, 4 * w) == x
  {
    Above(v, w, 4, k, x);
  }

  lemma Above(v: nat, w: nat, n: nat, k: nat, x: nat)
    requires w > 0 && k < n && v / w == k + n * x
    ensures n * w > 0 && v / (n * w) == x
  {
    var r := v % w;
    assert v == w * (v / w) + r;
    assert w * (k + n * x) == k * w + x * (n * w) by { Spread(w, k, n, x); }
    MulDistributes(n - 1, k, w);
    MulAtLeast(n - 1 - k, w);
    MulDistributes(n, 1, w);
    DivModUnique(v, x, n * w, k * w + r);
  }

  lemma Spread(w: int, k: int, n: int, x: int)
    ensures w * (k + n * x) == k * w + x * (n * w)
  {
  }

  /** Neither write lets the target fire at once, and a count write never looks overdue. */
  lemma WritesDoNotFireAtOnce(t: Timer, value: nat)
    requires t.c.count < FUTURE && t.c.target <= 0xFFFF
    ensures TestTarget(CountWritten(t, value).c).1 == [] && TestTarget(TargetWritten(t, value).c).1 == []
    ensures !JustPassed(CountWritten(t, value))
    ensures Settled(CountWritten(t, value).c) <==> (t.c.zeroReturn ==> t.c.target > 0)
  {
  }

  /** The two registers take the low 16 bits; the target waits for the overflow if the count is not below it. */
  lemma LowHalfWritten(t: Timer, low: nat, high: nat)
    requires low < 0x1_0000
    ensures CountWritten(t, 0x1_0000 * high + low) == t.(c := t.c.(count := low, future := low >= t.c.target))
    ensures TargetWritten(t, 0x1_0000 * high + low) == t.(c := t.c.(target := low, future := low <= t.c.count))
  {
    assert (0x1_0000 * high + low) % 0x1_0000 == low;
  }

  /** What a reschedule after a register write comes to. */
  lemma Reschedules(t: Timer, canCount: bool, base: int, delta: int, cycle: int)
    ensures InRange(t, base) && !JustPassed(t) ==>
      NextDelta(t, canCount, base, delta, cycle) <= delta
      && Covered(t, canCount, base + NextDelta(t, canCount, base, delta, cycle))
  {
    if InRange(t, base) && !JustPassed(t) {
      NextDeltaCovers(t, canCount, base, delta, cycle);
    }
  }

  lemma Unscheduled(t: Timer, canCount: bool, base: int, delta: int, cycle: int)
    ensures !Watched(t, canCount) ==> NextDelta(t, canCount, base, delta, cycle) == delta
  {
  }
}
