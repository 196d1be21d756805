/** The four EE timers together: rcntUpdate with its two signals, the register writes and the
    schedule that ties the updates to the clock. */
module EeTimerBank {
  import opened Arith
  import opened TimerCore
  import opened EeTimers
  import opened EeSchedule
  import opened Basics

  // ---- Passes over the timers ----

  /** What a loop over the timers does to each: the tests of an update, or the start or the end of
      the hblank or vblank signal (`at` is when it was due), or nothing. */
  datatype Pass = Idle | Tests | Opens(isVblank: bool, at: nat) | Closes(isVblank: bool, at: nat)

  predicate Sound(t: Timer, cycle: nat) {
    t.rate > 0 && t.startCycle <= cycle && (t.clockSource != 3 ==> t.startCycle % t.rate == 0)
  }

  predicate EdgeBy(p: Pass, cycle: nat) {
    p.Opens? || p.Closes? ==> p.at <= cycle
  }

  /** A gate that starts the count over. */
  function Restarted(t: Timer, at: nat, cycle: nat, canCount: bool): Timer
    requires t.rate > 0 && t.startCycle <= cycle
  {
    var s := Sync(t, cycle, canCount);
    s.(c := s.c.(count := 0, future := false), startCycle := FloorTo(at, t.rate))
  }

  predicate GatedBy(t: Timer, isVblank: bool) {
    t.enableGate && t.gateOnVBlank == isVblank
  }

  /** The bodies of the loops of rcntUpdate, rcntStartGate and rcntEndGate. Timers that count
      hblanks tick when the hblank signal starts. */
  function Passed(t: Timer, p: Pass, cycle: nat, canCount: bool): (Timer, seq<Event>)
    requires Sound(t, cycle)
  {
    match p
    case Idle => (t, [])
    case Tests =>
      if t.clockSource != 3 && canCount then UpdateAt(t, cycle) else (Sync(t, cycle, canCount), [])
    case Opens(isVblank, at) =>
      var u := if !isVblank && t.clockSource == 3 && canCount then Update(t.c, 1) else (t.c, []);
      var h := t.(c := u.0);
      (if !GatedBy(t, isVblank) || t.gateMode == 2 then h
       else if t.gateMode == 0 then Sync(h, cycle, canCount).(startCycle := FloorTo(at, t.rate))
       else Restarted(h, at, cycle, canCount), u.1)
    case Closes(isVblank, at) =>
      (if !GatedBy(t, isVblank) || t.gateMode == 1 then t
       else if t.gateMode == 0 then t.(startCycle := FloorTo(at, t.rate))
       else Restarted(t, at, cycle, canCount), [])
  }

  predicate SameSettings(c: Counter, u: Counter) {
    && u.target == c.target && u.zeroReturn == c.zeroReturn
    && u.targetInterrupt == c.targetInterrupt && u.overflowInterrupt == c.overflowInterrupt
  }

  /** What no pass changes: a timer's settings; and startCycle stays a multiple of the rate. */
  predicate Kept(t: Timer, u: Timer, cycle: nat) {
    u == t.(c := u.c, startCycle := u.startCycle) && Sound(u, cycle) && SameSettings(t.c, u.c)
  }

  lemma SyncKeeps(t: Timer, cycle: nat, canCount: bool)
    requires t.rate > 0 && t.startCycle <= cycle
    ensures Kept(t, Sync(t, cycle, canCount), cycle)
  {
    if t.clockSource != 3 {
      var q := (cycle - t.startCycle) / t.rate;
      assert cycle - t.startCycle == t.rate * q + (cycle - t.startCycle) % t.rate;
      MulCommutes(t.rate, q);
      DivFloor(t.startCycle + q * t.rate, t.rate);
    }
  }

  lemma UpdateKeeps(c: Counter, n: nat)
    ensures SameSettings(c, Update(c, n).0)
  {
    var o := c.(count := c.count + n);
    TestsKeep(o);
    TestsKeep(TestOverflow(o).0);
    hide TestTarget, TestOverflow;
  }

  lemma TestsKeep(c: Counter)
    ensures SameSettings(c, TestTarget(c).0) && SameSettings(c, TestOverflow(c).0)
  {
  }

  lemma RestartKeeps(t: Timer, at: nat, cycle: nat, canCount: bool)
    requires t.rate > 0 && t.startCycle <= cycle && at <= cycle
    ensures Kept(t, Restarted(t, at, cycle, canCount), cycle)
    ensures Kept(t, Sync(t, cycle, canCount).(startCycle := FloorTo(at, t.rate)), cycle)
    ensures Sound(t, cycle) ==> Kept(t, t.(startCycle := FloorTo(at, t.rate)), cycle)
  {
    hide Sync, FloorTo;
    SyncKeeps(t, cycle, canCount);
    DivFloor(at, t.rate);
  }

  lemma PassKeeps(t: Timer, p: Pass, cycle: nat, canCount: bool)
    requires Sound(t, cycle) && EdgeBy(p, cycle)
    ensures Kept(t, Passed(t, p, cycle, canCount).0, cycle)
  {
    hide Sync, Update, FloorTo, Restarted;
    match p
    case Idle =>
    case Tests =>
      SyncKeeps(t, cycle, canCount);
      UpdateKeeps(Sync(t, cycle, canCount).c, 0);
    case Opens(_, at) =>
      var h := t.(c := Update(t.c, 1).0);
      UpdateKeeps(t.c, 1);
      RestartKeeps(t, at, cycle, canCount);
      RestartKeeps(h, at, cycle, canCount);
    case Closes(_, at) =>
      RestartKeeps(t, at, cycle, canCount);
  }

  function Tagged(i: nat, events: seq<Event>): seq<(nat, Event)> {
    seq(|events|, k requires 0 <= k < |events| => (i, events[k]))
  }

  /** The events of a pass over the first n timers, in order. */
  function Events(ts: seq<Timer>, p: Pass, can: seq<bool>, cycle: nat, n: nat): seq<(nat, Event)>
    requires n <= |ts| == |can| && forall k | 0 <= k < |ts| :: Sound(ts[k], cycle)
  {
    if n == 0 then []
    else Events(ts, p, can, cycle, n - 1) + Tagged(n - 1, Passed(ts[n - 1], p, cycle, can[n - 1]).1)
  }

  /** The events of one timer in a log. */
  function PartOf(log: seq<(nat, Event)>, i: nat): seq<Event> {
    if log == [] then []
    else PartOf(log[..|log| - 1], i) + (if log[|log| - 1].0 == i then [log[|log| - 1].1] else [])
  }

  lemma {:induction false} PartOfAppend(a: seq<(nat, Event)>, b: seq<(nat, Event)>, i: nat)
    ensures PartOf(a + b, i) == PartOf(a, i) + PartOf(b, i)
  {
    if b == [] {
      assert a + b == a;
    } else {
      assert (a + b)[..|a + b| - 1] == a + b[..|b| - 1];
      PartOfAppend(a, b[..|b| - 1], i);
    }
  }

  lemma {:induction false} PartOfTagged(k: nat, events: seq<Event>, i: nat)
    ensures PartOf(Tagged(k, events), i) == if i == k then events else []
  {
    if events != [] {
      var init := events[..|events| - 1];
      assert Tagged(k, events)[..|events| - 1] == Tagged(k, init);
      PartOfTagged(k, init, i);
      assert init + [events[|events| - 1]] == events;
    }
  }

  lemma {:induction false} PartOfEvents(ts: seq<Timer>, p: Pass, can: seq<bool>, cycle: nat, n: nat, i: nat)
    requires n <= |ts| == |can| && forall k | 0 <= k < |ts| :: Sound(ts[k], cycle)
    ensures PartOf(Events(ts, p, can, cycle, n), i) == if i < n then Passed(ts[i], p, cycle, can[i]).1 else []
  {
    hide Passed, Tagged, PartOf;
    if n == 0 {
      PartOfEmpty(i);
    } else {
      PartOfEvents(ts, p, can, cycle, n - 1, i);
      var e := Passed(ts[n - 1], p, cycle, can[n - 1]).1;
      PartOfAppend(Events(ts, p, can, cycle, n - 1), Tagged(n - 1, e), i);
      PartOfTagged(n - 1, e, i);
    }
  }

  lemma LogPart(log: seq<(nat, Event)>, ts: seq<Timer>, p: Pass, can: seq<bool>, cycle: nat, i: nat)
    requires i < |ts| == |can| && forall k | 0 <= k < |ts| :: Sound(ts[k], cycle)
    ensures PartOf(log + Events(ts, p, can, cycle, |ts|), i) == PartOf(log, i) + Passed(ts[i], p, cycle, can[i]).1
  {
    PartOfEvents(ts, p, can, cycle, |ts|, i);
    PartOfAppend(log, Events(ts, p, can, cycle, |ts|), i);
  }

  lemma {:induction false} IdlePass(ts: seq<Timer>, can: seq<bool>, cycle: nat, n: nat)
    requires n <= |ts| == |can| && forall k | 0 <= k < |ts| :: Sound(ts[k], cycle)
    ensures Events(ts, Idle, can, cycle, n) == []
  {
    if n > 0 { IdlePass(ts, can, cycle, n - 1); }
  }

  lemma PartOfEmpty(i: nat)
    ensures PartOf([], i) == []
  {
  }

  // ---- Timers that keep their schedule ----

  /** What holds of a timer between updates that keep the schedule. */
  ghost predicate Scheduled(t: Timer, canCount: bool, due: int) {
    Watched(t, canCount) ==> Ready(t) && t.rate <= 512 && Covered(t, canCount, due)
  }

  /** A timer's next event is no earlier than now. */
  ghost predicate NotOverdue(t: Timer, canCount: bool, cycle: nat) {
    Watched(t, canCount) ==>
      !JustPassed(t) && InRange(t, cycle) && OverflowAt(t) >= cycle && (!t.c.future ==> TargetAt(t) >= cycle)
  }

  lemma SettledNotOverdue(u: Timer, cycle: nat)
    requires Settled(u.c) && 0 < u.rate <= 512 && u.startCycle <= cycle < u.startCycle + u.rate
    ensures NotOverdue(u, true, cycle)
  {
    SettledNotPassed(u);
    MulAtLeast(0x1_0000 - u.c.count, u.rate);
    if !u.c.future { MulAtLeast(u.c.target - u.c.count, u.rate); }
  }

  /** Before the cycle it is scheduled for, a timer has nothing to do: a register access there sees
      the count that a timer ticking by the clock has, and no event is late. */
  lemma AccessBeforeDue(t: Timer, due: int, w: nat)
    requires Ready(t) && Watched(t, true) && Covered(t, true, due) && t.startCycle <= w < due
    ensures ByCycle(t.c, t.rate, t.startCycle, w) == (Sync(t, w, true).c, [])
  {
    hide Sync, Ticks, Update, FloorTo, ByCycle;
    var n := TicksDue(t, w);
    TicksFit(w - t.startCycle, t.rate, if t.c.future then 0x1_0000 - t.c.count else t.c.target - t.c.count);
    SyncAligned(t, w, true);
    hide Covered, TicksDue, Watched;
    TicksFree(t.c, n);
    ByCycleTicks(t.c, t.rate, t.startCycle, w);
  }

  lemma TicksFit(x: nat, r: nat, d: int)
    requires r > 0 && x < d * r
    ensures x / r < d
  {
    assert x == r * (x / r) + x % r;
    MulCommutes(r, x / r);
    MulDistributes(x / r, d, r);
    MulAtLeast(x / r - d, r);
  }

  /** An update that comes within a tick of the schedule is exact, and leaves the timer in order and
      no event overdue. */
  lemma OnTimeUpdate(t: Timer, due: int, u: nat)
    requires Watched(t, true) && Scheduled(t, true, due) && t.startCycle <= u < due + t.rate
    ensures var r := Passed(t, Tests, u, true);
            && (r.0.c, r.1) == ByCycle(t.c, t.rate, t.startCycle, u)
            && Ready(r.0) && r.0 == t.(c := r.0.c, startCycle := FloorTo(u, t.rate)) && NotOverdue(r.0, true, u)
  {
    hide UpdateAt, Exact, ByCycle, Settled, FloorTo, TargetAt, OverflowAt, NotOverdue;
    DivFloor(u, t.rate);
    Rounded(t.startCycle, t.rate);
    OnTimeIsExact(t, due, u);
    UpdateAtIsByCycle(t, t.startCycle, u);
    SettledNotOverdue(UpdateAt(t, u).0, u);
  }

  lemma Rounded(x: nat, r: nat)
    requires r > 0 && x % r == 0
    ensures FloorTo(x, r) == x
  {
  }

  // ---- The four timers ----

  datatype VMode = VRender | GsBlank | VBlank

  /** Lengths in cycles; `hError` is what a frame of scanlines falls short by. */
  datatype Video = Video(render: nat, blank: nat, gsBlank: nat, hRender: nat, hBlank: nat, hError: nat)

  /** rcntCanCount */
  predicate CanCountWhen(t: Timer, hRender: bool, vRender: bool) {
    t.isCounting &&
    (!t.enableGate
     || (!t.gateOnVBlank && t.clockSource != 3 && (hRender || t.gateMode != 0))
     || (t.gateOnVBlank && (vRender || t.gateMode != 0)))
  }

  /** What the two signals do in one update, and where they are before and after it. */
  datatype Sweep = Sweep(v: Pass, h: Pass, hRender: bool, vRender: bool, hRender': bool, vRender': bool) {
    predicate Timely(cycle: nat) {
      EdgeBy(v, cycle) && EdgeBy(h, cycle) && !v.Tests? && !h.Tests?
    }
  }

  /** One timer's way through an update: the passes of the two signals and the tests. */
  function Updated(t: Timer, w: Sweep, cycle: nat): (Timer, seq<Event>)
    requires Sound(t, cycle) && w.Timely(cycle)
  {
    var a := Passed(t, w.v, cycle, CanCountWhen(t, w.hRender, w.vRender));
    PassKeeps(t, w.v, cycle, CanCountWhen(t, w.hRender, w.vRender));
    var b := Passed(a.0, w.h, cycle, CanCountWhen(a.0, w.hRender, w.vRender'));
    PassKeeps(a.0, w.h, cycle, CanCountWhen(a.0, w.hRender, w.vRender'));
    var c := Passed(b.0, Tests, cycle, CanCountWhen(b.0, w.hRender', w.vRender'));
    (c.0, a.1 + b.1 + c.1)
  }

  /** A timer in order, updated in time: it leaves the update in order, with the counts and events of
      a timer that ticks by the clock. */
  lemma UpdateOnTime(t: Timer, due: int, w: Sweep, cycle: nat)
    requires Sound(t, cycle) && w.Timely(cycle) && Plain(t)
    requires Watched(t, t.isCounting) ==> Scheduled(t, true, due) && cycle < due + t.rate
    ensures var r := Updated(t, w, cycle);
            && r.0 == t.(c := r.0.c, startCycle := r.0.startCycle) && Sound(r.0, cycle) && Plain(r.0)
            && Watched(r.0, r.0.isCounting) == Watched(t, t.isCounting)
            && NotOverdue(r.0, r.0.isCounting, cycle)
            && (Watched(t, t.isCounting) ==>
                  && Ready(r.0) && r.0.rate <= 512 && r.0.startCycle == FloorTo(cycle, t.rate)
                  && (r.0.c, r.1) == ByCycle(t.c, t.rate, t.startCycle, cycle))
  {
    hide Passed, ByCycle, Ready, Covered, FloorTo, NotOverdue, CanCountWhen;
    UpdatedKeeps(t, w, cycle);
    if Watched(t, t.isCounting) {
      UngatedUpdate(t, w, cycle);
      OnTimeUpdate(t, due, cycle);
    } else {
      UnwatchedNotOverdue(Updated(t, w, cycle).0, cycle);
    }
  }

  lemma UnwatchedNotOverdue(t: Timer, cycle: nat)
    requires !Watched(t, t.isCounting)
    ensures NotOverdue(t, t.isCounting, cycle)
  {
  }

  lemma UpdatedKeeps(t: Timer, w: Sweep, cycle: nat)
    requires Sound(t, cycle) && w.Timely(cycle)
    ensures Kept(t, Updated(t, w, cycle).0, cycle)
  {
    hide Passed, Sound, CanCountWhen, Kept;
    var can := CanCountWhen(t, w.hRender, w.vRender);
    var a := Passed(t, w.v, cycle, can).0;
    PassKeeps(t, w.v, cycle, can);
    KeptSound(t, a, cycle);
    var can' := CanCountWhen(a, w.hRender, w.vRender');
    var b := Passed(a, w.h, cycle, can').0;
    PassKeeps(a, w.h, cycle, can');
    KeptAgain(t, a, b, cycle);
    var can'' := CanCountWhen(b, w.hRender', w.vRender');
    PassKeeps(b, Tests, cycle, can'');
    KeptAgain(t, b, Passed(b, Tests, cycle, can'').0, cycle);
  }

  lemma KeptSound(t: Timer, u: Timer, cycle: nat)
    requires Kept(t, u, cycle)
    ensures Sound(u, cycle)
  {
  }

  lemma KeptAgain(t: Timer, u: Timer, w: Timer, cycle: nat)
    requires Kept(t, u, cycle) && Kept(u, w, cycle)
    ensures Kept(t, w, cycle) && Sound(u, cycle)
  {
  }

  /** The signals do nothing to a timer that uses no gate and counts cycles. */
  lemma UngatedUpdate(t: Timer, w: Sweep, cycle: nat)
    requires Sound(t, cycle) && w.Timely(cycle)
    requires !t.enableGate && t.clockSource != 3
    ensures Updated(t, w, cycle) == Passed(t, Tests, cycle, t.isCounting)
  {
    hide UpdateAt, Sync, Update, Restarted, FloorTo, Sound;
    assert Passed(t, w.v, cycle, t.isCounting) == (t, []) && Passed(t, w.h, cycle, t.isCounting) == (t, []);
    hide Passed;
    var e := Passed(t, Tests, cycle, t.isCounting).1;
    assert [] + [] + e == e;
  }

  // ---- Gates ----

  /** A timer that a gate does not hold counts if it is switched on. A gate on the hblank signal stops a
      timer that counts hblanks; else gate mode 0 stops it while the signal is high. */
  lemma WhoCounts(t: Timer, hRender: bool, vRender: bool)
    ensures !t.isCounting ==> !CanCountWhen(t, hRender, vRender)
    ensures t.isCounting && !t.enableGate ==> CanCountWhen(t, hRender, vRender)
    ensures t.isCounting && t.enableGate && !t.gateOnVBlank && t.clockSource == 3 ==>
      !CanCountWhen(t, hRender, vRender)
    ensures t.isCounting && t.enableGate && (t.gateOnVBlank || t.clockSource != 3) ==>
      (CanCountWhen(t, hRender, vRender) <==> t.gateMode > 0 || (if t.gateOnVBlank then vRender else hRender))
  {
  }

  /** A timer that is stopped keeps its count through an update; one that counts hblanks ticks where the
      hblank signal opens, and nowhere else. */
  lemma HblanksTick(t: Timer, p: Pass, cycle: nat, canCount: bool)
    requires Sound(t, cycle) && t.clockSource == 3 && Settled(t.c) && !t.enableGate
    ensures var r := Passed(t, p, cycle, canCount);
            (r.0.c, r.1) == if p.Opens? && !p.isVblank && canCount then Tick(t.c) else (t.c, [])
  {
    TickIsUpdate(t.c);
    hide Tick, Update;
  }

  lemma StoppedKeeps(t: Timer, cycle: nat)
    requires Sound(t, cycle)
    ensures var r := Passed(t, Tests, cycle, false); r.0.c == t.c && r.1 == []
  {
  }

  /** What the edges of a gate's signal do to a timer that hangs on it and counts cycles: mode 0 counts
      between them, modes 1 to 3 start over at the first, at the second, or at both. */
  lemma GateOpens(t: Timer, isVblank: bool, at: nat, cycle: nat, canCount: bool)
    requires Sound(t, cycle) && at <= cycle && t.clockSource != 3 && t.gateMode < 4
    requires t.enableGate && t.gateOnVBlank == isVblank
    ensures var o := Passed(t, Opens(isVblank, at), cycle, canCount);
            && o.1 == []
            && (t.gateMode == 0 ==> o.0 == Sync(t, cycle, canCount).(startCycle := at - at % t.rate))
            && (t.gateMode in {1, 3} ==>
                  o.0 == t.(c := t.c.(count := 0, future := false), startCycle := at - at % t.rate))
            && (t.gateMode == 2 ==> o.0 == t)
  {
    RestartedIs(t, at, cycle, canCount);
    hide Sync, Restarted;
  }

  lemma GateCloses(t: Timer, isVblank: bool, at: nat, cycle: nat, canCount: bool)
    requires Sound(t, cycle) && at <= cycle && t.clockSource != 3 && t.gateMode < 4
    requires t.enableGate && t.gateOnVBlank == isVblank
    ensures var c := Passed(t, Closes(isVblank, at), cycle, canCount);
            && c.1 == []
            && (t.gateMode == 0 ==> c.0 == t.(startCycle := at - at % t.rate))
            && (t.gateMode == 1 ==> c.0 == t)
            && (t.gateMode in {2, 3} ==>
                  c.0 == t.(c := t.c.(count := 0, future := false), startCycle := at - at % t.rate))
  {
    RestartedIs(t, at, cycle, canCount);
    hide Sync, Restarted;
  }

  lemma RestartedIs(t: Timer, at: nat, cycle: nat, canCount: bool)
    requires t.rate > 0 && t.startCycle <= cycle
    ensures Restarted(t, at, cycle, canCount) ==
      t.(c := t.c.(count := 0, future := false), startCycle := at - at % t.rate)
  {
    SyncMovesCount(t, cycle, canCount);
    FloorIs(at, t.rate);
    hide Sync, FloorTo;
  }

  lemma SyncMovesCount(t: Timer, cycle: nat, canCount: bool)
    requires t.rate > 0 && t.startCycle <= cycle
    ensures var s := Sync(t, cycle, canCount);
            s == t.(startCycle := s.startCycle, c := t.c.(count := s.c.count))
  {
    if t.clockSource != 3 {
      var n := TicksDue(t, cycle);
      SyncIs(t, cycle, canCount, n);
      hide Sync, TicksDue, FloorTo;
    }
  }

  lemma SyncIs(t: Timer, cycle: nat, canCount: bool, n: nat)
    requires t.rate > 0 && t.startCycle <= cycle && t.clockSource != 3 && n == TicksDue(t, cycle)
    ensures var s := Sync(t, cycle, canCount);
            s == t.(startCycle := s.startCycle, c := if canCount then Advance(t.c, n) else t.c)
  {
    hide FloorTo, Advance;
  }

  /** So in gate mode 0 a period in which the signal is low, from a to b, adds the ticks from a to the cycle
      in which its end is noticed: those of the period, if that is in the tick of b. */
  lemma LowPeriodCounts(t: Timer, isVblank: bool, a: nat, seenA: nat, b: nat, seenB: nat)
    requires Sound(t, seenA) && t.clockSource != 3 && t.gateMode == 0 && t.enableGate && t.gateOnVBlank == isVblank
    requires a <= seenA <= seenB && a <= b <= seenB
    ensures var u := Passed(t, Closes(isVblank, a), seenA, false).0;
            && Sound(u, seenB)
            && var w := Passed(u, Opens(isVblank, b), seenB, true).0;
               && w.c.count == t.c.count + (seenB / t.rate - a / t.rate)
               && (seenB / t.rate == b / t.rate ==> w.c.count == t.c.count + (b / t.rate - a / t.rate))
               && w.startCycle == b - b % t.rate
  {
    DivFloor(a, t.rate);
    var u := Passed(t, Closes(isVblank, a), seenA, false).0;
    assert u == t.(startCycle := FloorTo(a, t.rate));
    hide FloorTo;
    SyncAligned(u, seenB, true);
    FloorIs(b, t.rate);
    hide Sync;
  }

  lemma FloorIs(x: nat, r: nat)
    requires r > 0
    ensures FloorTo(x, r) == x - x % r
  {
  }

  /** Other signals leave such a timer alone. */
  lemma OtherSignals(t: Timer, p: Pass, cycle: nat, canCount: bool)
    requires Sound(t, cycle) && t.clockSource != 3 && (p.Opens? || p.Closes?)
    requires !(t.enableGate && t.gateOnVBlank == p.isVblank)
    ensures Passed(t, p, cycle, canCount) == (t, [])
  {
  }

  /** One pass over the four timers, told apart by timer. */
  ghost predicate PassedOver(ts: seq<Timer>, us: seq<Timer>, log: seq<(nat, Event)>, log': seq<(nat, Event)>,
                             p: Pass, hRender: bool, vRender: bool, cycle: nat) {
    && |ts| == |us| == 4 && EdgeBy(p, cycle) && (forall i | 0 <= i < 4 :: Sound(ts[i], cycle))
    && forall i | 0 <= i < 4 ::
         var r := Passed(ts[i], p, cycle, CanCountWhen(ts[i], hRender, vRender));
         us[i] == r.0 && PartOf(log', i) == PartOf(log, i) + r.1
  }

  lemma PassLogged(ts: seq<Timer>, us: seq<Timer>, can: seq<bool>, log: seq<(nat, Event)>,
                   p: Pass, hRender: bool, vRender: bool, cycle: nat)
    requires |ts| == |us| == |can| == 4 && EdgeBy(p, cycle) && forall i | 0 <= i < |ts| :: Sound(ts[i], cycle)
    requires forall i | 0 <= i < 4 :: can[i] == CanCountWhen(ts[i], hRender, vRender)
    requires forall i | 0 <= i < 4 :: us[i] == Passed(ts[i], p, cycle, can[i]).0
    ensures PassedOver(ts, us, log, log + Events(ts, p, can, cycle, 4), p, hRender, vRender, cycle)
  {
    hide Passed, Events, PartOf, Sound, CanCountWhen;
    forall i | 0 <= i < 4
      ensures PartOf(log + Events(ts, p, can, cycle, 4), i) == PartOf(log, i) + Passed(ts[i], p, cycle, can[i]).1
    {
      LogPart(log, ts, p, can, cycle, i);
    }
    assert forall i | 0 <= i < 4 :: us[i] == Passed(ts[i], p, cycle, CanCountWhen(ts[i], hRender, vRender)).0;
  }

  lemma IdlePassedOver(ts: seq<Timer>, log: seq<(nat, Event)>, hRender: bool, vRender: bool, cycle: nat)
    requires |ts| == 4 && forall i | 0 <= i < 4 :: Sound(ts[i], cycle)
    ensures PassedOver(ts, ts, log, log, Idle, hRender, vRender, cycle)
  {
    hide PartOf, CanCountWhen;
  }

  lemma ThreePasses(ts: seq<Timer>, t1: seq<Timer>, t2: seq<Timer>, t3: seq<Timer>,
                    l: seq<(nat, Event)>, l1: seq<(nat, Event)>, l2: seq<(nat, Event)>, l3: seq<(nat, Event)>,
                    w: Sweep, cycle: nat)
    requires w.Timely(cycle)
    requires PassedOver(ts, t1, l, l1, w.v, w.hRender, w.vRender, cycle)
    requires PassedOver(t1, t2, l1, l2, w.h, w.hRender, w.vRender', cycle)
    requires PassedOver(t2, t3, l2, l3, Tests, w.hRender', w.vRender', cycle)
    ensures UpdatedAll(ts, t3, l, l3, w, cycle)
  {
    hide Passed, PartOf, Sound, CanCountWhen;
    forall i | 0 <= i < 4
      ensures var r := Updated(ts[i], w, cycle);
              t3[i] == r.0 && PartOf(l3, i) == PartOf(l, i) + r.1
    {
      var e1 := Passed(ts[i], w.v, cycle, CanCountWhen(ts[i], w.hRender, w.vRender)).1;
      var e2 := Passed(t1[i], w.h, cycle, CanCountWhen(t1[i], w.hRender, w.vRender')).1;
      var e3 := Passed(t2[i], Tests, cycle, CanCountWhen(t2[i], w.hRender', w.vRender')).1;
      assert PartOf(l, i) + e1 + e2 + e3 == PartOf(l, i) + (e1 + e2 + e3);
    }
  }

  function NextMode(m: VMode): VMode {
    match m case VRender => GsBlank case GsBlank => VBlank case VBlank => VRender
  }

  ghost predicate UpdatedAll(ts: seq<Timer>, us: seq<Timer>, log: seq<(nat, Event)>, log': seq<(nat, Event)>,
                             w: Sweep, cycle: nat) {
    && |ts| == |us| == 4 && w.Timely(cycle) && (forall i | 0 <= i < 4 :: Sound(ts[i], cycle))
    && forall i | 0 <= i < 4 ::
         var r := Updated(ts[i], w, cycle);
         us[i] == r.0 && PartOf(log', i) == PartOf(log, i) + r.1
  }

  /** Timer i went from t to u, and the log grew by, what its clock ticking up to `cycle` makes. */
  ghost predicate Clocked(t: Timer, u: Timer, log: seq<(nat, Event)>, log': seq<(nat, Event)>, i: nat, cycle: nat) {
    && t.rate > 0 && t.startCycle <= cycle
    && u == t.(c := u.c, startCycle := FloorTo(cycle, t.rate))
    && var r := ByCycle(t.c, t.rate, t.startCycle, cycle);
       u.c == r.0 && PartOf(log', i) == PartOf(log, i) + r.1
  }

  ghost predicate AllClocked(ts: seq<Timer>, us: seq<Timer>, log: seq<(nat, Event)>, log': seq<(nat, Event)>,
                             cycle: nat)
  {
    && |ts| == |us| == 4
    && forall i | 0 <= i < 4 ::
         && Watched(us[i], us[i].isCounting) == Watched(ts[i], ts[i].isCounting)
         && (Watched(ts[i], ts[i].isCounting) ==>
           us[i].rate == ts[i].rate && Clocked(ts[i], us[i], log, log', i, cycle))
  }

  lemma UpdatesOnTime(ts: seq<Timer>, us: seq<Timer>, log: seq<(nat, Event)>, log': seq<(nat, Event)>,
                      w: Sweep, cycle: nat, due: int)
    requires UpdatedAll(ts, us, log, log', w, cycle)
    requires forall i | 0 <= i < 4 :: Plain(ts[i]) && Scheduled(ts[i], ts[i].isCounting, due)
    requires forall i | 0 <= i < 4 && Watched(ts[i], ts[i].isCounting) :: cycle < due + ts[i].rate
    ensures AllClocked(ts, us, log, log', cycle)
    ensures forall i | 0 <= i < 4 ::
      && Plain(us[i]) && NotOverdue(us[i], CanCountWhen(us[i], w.hRender', w.vRender'), cycle)
      && (Watched(us[i], us[i].isCounting) ==> Ready(us[i]) && us[i].rate <= 512)
  {
    hide Updated, PartOf, Ready, Covered, NotOverdue, ByCycle, FloorTo;
    forall i | 0 <= i < 4
      ensures && Watched(us[i], us[i].isCounting) == Watched(ts[i], ts[i].isCounting)
              && (Watched(ts[i], ts[i].isCounting) ==>
                    us[i].rate == ts[i].rate && Clocked(ts[i], us[i], log, log', i, cycle))
      ensures && Plain(us[i]) && NotOverdue(us[i], CanCountWhen(us[i], w.hRender', w.vRender'), cycle)
              && (Watched(us[i], us[i].isCounting) ==> Ready(us[i]) && us[i].rate <= 512)
    {
      UpdateOnTime(ts[i], due, w, cycle);
      PlainCanCount(us[i], w.hRender', w.vRender', cycle);
    }
  }

  lemma PlainCanCount(t: Timer, hRender: bool, vRender: bool, cycle: nat)
    requires Plain(t)
    ensures NotOverdue(t, CanCountWhen(t, hRender, vRender), cycle) == NotOverdue(t, t.isCounting, cycle)
  {
  }

  /** Two stretches of the clock, the second from the last tick of the first. */
  lemma ClockedOn(t: Timer, u: Timer, w: Timer, log: seq<(nat, Event)>, log': seq<(nat, Event)>,
                  log'': seq<(nat, Event)>, i: nat, mid: nat, cycle: nat)
    requires Clocked(t, u, log, log', i, mid) && Clocked(u, w, log', log'', i, cycle) && mid <= cycle
    ensures Clocked(t, w, log, log'', i, cycle)
  {
    hide ByCycle, FloorTo, PartOf;
    DivFloor(mid, t.rate);
    ByCycleTicks(u.c, t.rate, FloorTo(mid, t.rate), cycle);
    ByCycleTicks(u.c, t.rate, mid, cycle);
    ByCycleSplit(t.c, t.rate, t.startCycle, mid, cycle);
    var m := ByCycle(t.c, t.rate, t.startCycle, mid);
    var e := ByCycle(m.0, t.rate, mid, cycle);
    assert PartOf(log, i) + m.1 + e.1 == PartOf(log, i) + (m.1 + e.1);
  }

  lemma AllClockedOn(ts: seq<Timer>, us: seq<Timer>, ws: seq<Timer>, log: seq<(nat, Event)>, log': seq<(nat, Event)>,
                     log'': seq<(nat, Event)>, mid: nat, cycle: nat)
    requires AllClocked(ts, us, log, log', mid) && AllClocked(us, ws, log', log'', cycle) && mid <= cycle
    ensures AllClocked(ts, ws, log, log'', cycle)
  {
    hide Clocked;
    forall i | 0 <= i < 4 && Watched(ts[i], ts[i].isCounting) ensures Clocked(ts[i], ws[i], log, log'', i, cycle) {
      ClockedOn(ts[i], us[i], ws[i], log, log', log'', i, mid, cycle);
    }
  }

  /** A delay shorter than a tick of every timer the scheduler looks at. */
  predicate WithinATick(ts: seq<Timer>, slack: nat) {
    forall i | 0 <= i < |ts| && Watched(ts[i], ts[i].isCounting) :: slack < ts[i].rate
  }

  lemma StillWithin(ts: seq<Timer>, us: seq<Timer>, log: seq<(nat, Event)>, log': seq<(nat, Event)>, cycle: nat,
                    slack: nat)
    requires AllClocked(ts, us, log, log', cycle) && WithinATick(ts, slack)
    ensures WithinATick(us, slack)
  {
    hide Clocked;
  }

  /** An update of the timers that comes `slack` cycles after the one it was scheduled for. */
  datatype Step = Step(slack: nat, sint: bool)

  // ---- Updates and register writes ----

  /** A write that leaves nothing overdue: the timer is not looked at, or its next event is ahead. */
  predicate Keeps(u: Timer, base: int) {
    Plain(u) && (Watched(u, u.isCounting) ==> Settled(u.c) && InRange(u, base))
  }

  /** What the machine does: an update of the timers `slack` cycles after the one it was scheduled for,
      or, `wait` cycles from now, a write to a timer's register. */
  datatype Action =
    | Updates(slack: nat, sint: bool)
    | Writes(wait: nat, i: nat, reg: Register, value: nat)

  /** What was done, with the cycle. */
  datatype Deed = AtUpdate(cycle: nat) | AtWrite(cycle: nat, i: nat, reg: Register, value: nat)

  /** The deed does what was asked, not before cycle `now`; a write comes exactly when it was asked for. */
  predicate Answers(a: Action, d: Deed, now: nat) {
    match a
    case Updates(_, _) => d.AtUpdate? && now <= d.cycle
    case Writes(wait, i, reg, value) => d == AtWrite(now + wait, i, reg, value)
  }

  /** The cycle after k deeds of a run that began at cycle `start`. */
  function CycleAfter(start: nat, deeds: seq<Deed>, k: nat): nat
    requires k <= |deeds|
  {
    if k == 0 then start else deeds[k - 1].cycle
  }

  lemma AnswersAppend(start: nat, actions: seq<Action>, deeds: seq<Deed>, d: Deed)
    requires |deeds| < |actions|
    requires forall k | 0 <= k < |deeds| :: Answers(actions[k], deeds[k], CycleAfter(start, deeds, k))
    requires Answers(actions[|deeds|], d, CycleAfter(start, deeds, |deeds|))
    ensures var more := deeds + [d];
            forall k | 0 <= k < |more| :: Answers(actions[k], more[k], CycleAfter(start, more, k))
  {
    hide Answers;
  }

  /** A timer that has ticked by the clock up to `cycle`, and its events. */
  function ByClock(t: Timer, cycle: nat): (Timer, seq<Event>) {
    if t.rate == 0 || t.startCycle > cycle then (t, [])
    else
      var r := ByCycle(t.c, t.rate, t.startCycle, cycle);
      (t.(c := r.0, startCycle := FloorTo(cycle, t.rate)), r.1)
  }

  /** The reference for timer i: it ticks by the clock, and takes the writes that are meant for it. It is
      followed as long as the scheduler looks at it. */
  function Follow(t: Timer, i: nat, deeds: seq<Deed>, hPeriod: nat): Option<(Timer, seq<Event>)>
    requires hPeriod > 0
  {
    if deeds == [] then Some((t, []))
    else
      match Follow(t, i, deeds[..|deeds| - 1], hPeriod)
      case None => None
      case Some(r) =>
        var looks := r.0.c.targetInterrupt || r.0.c.overflowInterrupt || r.0.c.zeroReturn;
        if !(looks && r.0.isCounting && r.0.clockSource != 3) then None
        else
          match deeds[|deeds| - 1]
          case AtUpdate(cycle) =>
            var c := ByClock(r.0, cycle);
            Some((c.0, r.1 + c.1))
          case AtWrite(cycle, k, reg, value) =>
            if k != i then Some(r)
            else
              var c := ByClock(r.0, cycle);
              Some((Wrote(c.0, reg, value, cycle, hPeriod), r.1 + c.1))
  }

  /** The timers and the log stand where the reference stands, for every timer it still follows. */
  ghost predicate Followed(ts: seq<Timer>, us: seq<Timer>, log: seq<(nat, Event)>, log': seq<(nat, Event)>,
                           deeds: seq<Deed>, hPeriod: nat)
    requires hPeriod > 0
  {
    && |ts| == |us| == 4
    && forall i | 0 <= i < 4 ::
         match Follow(ts[i], i, deeds, hPeriod)
         case None => true
         case Some(r) => us[i] == r.0 && PartOf(log', i) == PartOf(log, i) + r.1
  }

  lemma FollowsUpdate(ts: seq<Timer>, us: seq<Timer>, ws: seq<Timer>, log: seq<(nat, Event)>, log': seq<(nat, Event)>,
                      log'': seq<(nat, Event)>, deeds: seq<Deed>, cycle: nat, hPeriod: nat)
    requires hPeriod > 0 && Followed(ts, us, log, log', deeds, hPeriod) && AllClocked(us, ws, log', log'', cycle)
    ensures Followed(ts, ws, log, log'', deeds + [AtUpdate(cycle)], hPeriod)
  {
    hide ByCycle, FloorTo, PartOf, Wrote;
    var more := deeds + [AtUpdate(cycle)];
    assert more[..|more| - 1] == deeds;
    forall i | 0 <= i < 4 && Follow(ts[i], i, more, hPeriod).Some?
      ensures var r := Follow(ts[i], i, more, hPeriod).value; ws[i] == r.0 && PartOf(log'', i) == PartOf(log, i) + r.1
    {
      var r, c := Follow(ts[i], i, deeds, hPeriod).value, ByClock(us[i], cycle);
      assert PartOf(log, i) + r.1 + c.1 == PartOf(log, i) + (r.1 + c.1);
    }
  }

  lemma FollowsWrite(ts: seq<Timer>, us: seq<Timer>, ws: seq<Timer>, log: seq<(nat, Event)>, log': seq<(nat, Event)>,
                     deeds: seq<Deed>, cycle: nat, k: nat, reg: Register, value: nat, hPeriod: nat)
    requires hPeriod > 0 && Followed(ts, us, log, log', deeds, hPeriod) && k < 4 == |ws|
    requires forall i | 0 <= i < 4 && i != k :: ws[i] == us[i]
    requires Watched(us[k], us[k].isCounting) ==>
      ByClock(us[k], cycle).1 == [] && ws[k] == Wrote(ByClock(us[k], cycle).0, reg, value, cycle, hPeriod)
    ensures Followed(ts, ws, log, log', deeds + [AtWrite(cycle, k, reg, value)], hPeriod)
  {
    hide ByClock, PartOf, Wrote;
    var more := deeds + [AtWrite(cycle, k, reg, value)];
    assert more[..|more| - 1] == deeds;
    forall i | 0 <= i < 4 && Follow(ts[i], i, more, hPeriod).Some?
      ensures var r := Follow(ts[i], i, more, hPeriod).value; ws[i] == r.0 && PartOf(log', i) == PartOf(log, i) + r.1
    {
      var r := Follow(ts[i], i, deeds, hPeriod).value;
      assert r.1 + [] == r.1;
    }
  }

  lemma FollowsNothing(ts: seq<Timer>, log: seq<(nat, Event)>, hPeriod: nat)
    requires hPeriod > 0 && |ts| == 4
    ensures Followed(ts, ts, log, log, [], hPeriod)
  {
  }

  lemma SoundStart(t: Timer, cycle: nat)
    requires Sound(t, cycle)
    ensures t.startCycle <= cycle
  {
  }

  /** Before its next event a synchronised timer stands where the clock has it. */
  lemma SyncByClock(t: Timer, due: int, w: nat)
    requires Watched(t, t.isCounting) && Scheduled(t, t.isCounting, due) && t.startCycle <= w < due
    ensures ByClock(t, w) == (Sync(t, w, t.isCounting), [])
  {
    hide ByCycle, FloorTo, Sync, Settled, Covered;
    AccessBeforeDue(t, due, w);
    SyncAligned(t, w, true);
  }

  class TimerBank {
    const timers: array<Timer>
    const video: Video
    var cycle: nat
    /** The hblank and vblank events: when each was last scheduled, and how far off it is. */
    var hsyncStart: nat
    var hsyncDelta: nat
    var hRender: bool
    var vsyncStart: nat
    var vsyncDelta: nat
    var vMode: VMode
    var nextStart: int
    var nextDelta: int
    /** Timer events in order, each with its timer. */
    var log: seq<(nat, Event)>

    /** rcntInit; the machine is reset at cycle 0, an even number. */
    constructor (video: Video, cycle: nat)
      requires video.hRender + video.hBlank > 0 && cycle % 2 == 0
      ensures Valid() && fresh(timers) && this.video == video && this.cycle == cycle && log == []
      ensures InOrder() && forall i | 0 <= i < 4 :: Settled(timers[i].c) && !timers[i].isCounting
    {
      var c := Counter(0, 0xFFFF, false, false, false, false, false, false);
      timers := new Timer[4](_ => Timer(c, 2, cycle, 0, false, false, 0, false));
      this.video, this.cycle := video, cycle;
      hsyncStart, hsyncDelta, hRender := cycle, video.hRender, true;
      vsyncStart, vsyncDelta, vMode := cycle, video.render, VRender;
      nextStart, nextDelta, log := cycle, 0, [];
    }

    ghost predicate Valid()
      reads this, timers
    {
      && timers.Length == 4 && video.hRender + video.hBlank > 0
      && (forall i | 0 <= i < 4 :: Sound(timers[i], cycle))
      && ScanValid()
    }

    /** A signal's next edge is never announced before it is due. */
    ghost predicate ScanValid()
      reads this`cycle, this`hsyncStart, this`hsyncDelta, this`hRender, this`vsyncStart, this`vsyncDelta, this`vMode
    {
      && hsyncStart <= cycle && vsyncStart <= cycle
      && hsyncDelta >= (if hRender then video.hRender else video.hBlank)
      && vsyncDelta == (match vMode
                        case VRender => video.render
                        case GsBlank => video.gsBlank
                        case VBlank => video.blank)
    }

    predicate CanCount(i: nat)
      requires i < timers.Length
      reads this`hRender, this`vMode, timers
    {
      CanCountWhen(timers[i], hRender, vMode == VRender)
    }

    ghost function CanCounts(): (can: seq<bool>)
      requires timers.Length == 4
      reads this`hRender, this`vMode, timers
      ensures |can| == 4 && forall i | 0 <= i < 4 :: can[i] == CanCount(i)
    {
      [CanCount(0), CanCount(1), CanCount(2), CanCount(3)]
    }

    method RcntSet(i: nat)
      requires Valid() && i < 4
      modifies this`nextDelta
      ensures nextDelta == NextDelta(timers[i], CanCount(i), nextStart, old(nextDelta), cycle)
    {
      var t := timers[i];
      if !CanCount(i) || t.clockSource == 3 {
        return;
      }
      if !t.c.targetInterrupt && !t.c.overflowInterrupt && !t.c.zeroReturn {
        return;
      }
      if t.c.count > 0x1_0000 || t.c.count > t.c.FullTarget() {
        nextDelta := 4;
        return;
      }
      var c := S32((0x1_0000 - t.c.count) * t.rate - (cycle - t.startCycle) + (cycle - nextStart));
      if c < nextDelta {
        nextDelta := c;
      }
      if t.c.future {
        return;
      }
      c := S32((t.c.FullTarget() - t.c.count) * t.rate - (cycle - t.startCycle) + (cycle - nextStart));
      if c < nextDelta {
        nextDelta := c;
      }
    }

    ghost predicate NoneOverdue()
      requires timers.Length == 4
      reads this`cycle, this`hRender, this`vMode, timers
    {
      forall i | 0 <= i < 4 :: NotOverdue(timers[i], CanCount(i), cycle)
    }

    /** The next update comes no later than the next vblank, the next hblank, and the next target or
        overflow of every timer, unless one of them is overdue already. */
    method CpuRcntSet()
      requires Valid()
      modifies this`nextStart, this`nextDelta
      ensures nextStart == cycle && nextDelta >= 0
      ensures NoneOverdue() ==>
        && (forall i | 0 <= i < 4 :: Covered(timers[i], CanCount(i), nextStart + nextDelta))
        && (vsyncStart + vsyncDelta >= cycle ==> nextStart + nextDelta <= vsyncStart + vsyncDelta)
        && (hsyncStart + hsyncDelta >= cycle ==> nextStart + nextDelta <= hsyncStart + hsyncDelta)
    {
      hide NextDelta, OverflowAt, TargetAt, InRange, JustPassed, S32, CanCountWhen, Watched, Sound;
      nextStart := cycle;
      nextDelta := vsyncDelta - (cycle - vsyncStart);
      var nextHsync := hsyncDelta - (cycle - hsyncStart);
      if nextHsync < nextDelta {
        nextDelta := nextHsync;
      }
      ghost var d := nextDelta;
      for i := 0 to 4
        invariant nextStart == cycle && (NoneOverdue() ==> nextDelta <= d)
        invariant NoneOverdue() ==>
          forall k | 0 <= k < i :: Covered(timers[k], CanCount(k), nextStart + nextDelta)
      {
        if NoneOverdue() {
          assert NotOverdue(timers[i], CanCount(i), cycle);
          KeepsSchedule(timers[i], CanCount(i), nextDelta, cycle);
        }
        RcntSet(i);
      }
      if nextDelta < 0 {
        nextDelta := 0;
        if NoneOverdue() {
          forall k | 0 <= k < 4 ensures Covered(timers[k], CanCount(k), nextStart + nextDelta) {
            assert NotOverdue(timers[k], CanCount(k), cycle);
          }
        }
      }
    }

    /** One of the three loops over the timers. */
    method PassOver(p: Pass)
      requires Valid() && EdgeBy(p, cycle)
      modifies timers, this`log
      ensures Valid() && CanCounts() == old(CanCounts())
      ensures log == old(log) + Events(old(timers[..]), p, old(CanCounts()), cycle, 4)
      ensures PassedOver(old(timers[..]), timers[..], old(log), log, p, hRender, vMode == VRender, cycle)
    {
      hide Passed, Tagged, CanCountWhen, PartOf, PassedOver;
      ghost var was, can := timers[..], CanCounts();
      for i := 0 to 4
        invariant Valid()
        invariant forall k | 0 <= k < 4 :: timers[k] == if k < i then Passed(was[k], p, cycle, can[k]).0 else was[k]
        invariant forall k | 0 <= k < 4 :: CanCount(k) == can[k]
        invariant log == old(log) + Events(was, p, can, cycle, i)
      {
        PassTimer(p, i);
      }
      PassLogged(was, timers[..], can, old(log), p, hRender, vMode == VRender, cycle);
    }

    method PassTimer(p: Pass, i: nat)
      requires Valid() && EdgeBy(p, cycle) && i < 4
      modifies timers, this`log
      ensures Valid() && timers[i] == Passed(old(timers[i]), p, cycle, old(CanCount(i))).0
      ensures forall k | 0 <= k < 4 && k != i :: timers[k] == old(timers[k])
      ensures forall k | 0 <= k < 4 :: CanCount(k) == old(CanCount(k))
      ensures log == old(log) + Tagged(i, Passed(old(timers[i]), p, cycle, old(CanCount(i))).1)
    {
      hide Passed, Tagged;
      PassKeeps(timers[i], p, cycle, CanCount(i));
      var u := Passed(timers[i], p, cycle, CanCount(i));
      timers[i] := u.0;
      log := log + Tagged(i, u.1);
    }

    predicate VsyncDue()
      reads this`cycle, this`vsyncStart, this`vsyncDelta
    {
      S32(cycle - vsyncStart) >= vsyncDelta
    }

    /** The pass over the timers that the vertical signal asks for now. */
    function VsyncPass(sint: bool): (p: Pass)
      requires ScanValid()
      reads this`cycle, this`hsyncStart, this`hsyncDelta, this`hRender, this`vsyncStart, this`vsyncDelta, this`vMode
      ensures EdgeBy(p, cycle) && !p.Tests?
    {
      if !VsyncDue() || vMode == GsBlank || sint then Idle
      else if vMode == VBlank then Closes(true, vsyncStart + video.blank)
      else Opens(true, vsyncStart + video.render)
    }

    predicate HsyncDue(delta: nat)
      reads this`cycle, this`hsyncStart
    {
      S32(cycle - hsyncStart) >= delta
    }

    function HsyncPass(sint: bool, delta: nat): (p: Pass)
      requires hsyncStart <= cycle && delta >= (if hRender then video.hRender else video.hBlank)
      reads this`cycle, this`hsyncStart, this`hRender
      ensures EdgeBy(p, cycle) && !p.Tests?
    {
      if !HsyncDue(delta) || sint then Idle
      else if !hRender then Closes(false, hsyncStart + video.hBlank)
      else Opens(false, hsyncStart + video.hRender)
    }

    /** rcntUpdate_vSync; `sint` is the GS's SMODE1.SINT. The frame's start moves on by its exact
        length however late the update is. */
    method UpdateVsync(sint: bool)
      requires Valid()
      modifies timers, this`log, this`vsyncStart, this`vsyncDelta, this`vMode, this`hsyncDelta
      ensures Valid()
      ensures log == old(log) + Events(old(timers[..]), old(VsyncPass(sint)), old(CanCounts()), cycle, 4)
      ensures PassedOver(old(timers[..]), timers[..], old(log), log, old(VsyncPass(sint)),
                         old(hRender), old(vMode == VRender), cycle)
      // the gates open where rendering ends and close where the blank does, unless the GS has no vblank
      ensures old(VsyncPass(sint)) ==
        if old(S32(cycle - vsyncStart) < vsyncDelta) || old(vMode) == GsBlank || sint then Idle
        else if old(vMode) == VRender then Opens(true, vsyncStart) else Closes(true, vsyncStart)
      ensures old(S32(cycle - vsyncStart) < vsyncDelta) ==>
        vMode == old(vMode) && vsyncStart == old(vsyncStart) && hsyncDelta == old(hsyncDelta)
      ensures old(S32(cycle - vsyncStart) >= vsyncDelta) ==>
        match old(vMode)
        case VRender =>
          vMode == GsBlank && vsyncStart == old(vsyncStart) + video.render
            && hsyncDelta == old(hsyncDelta) + video.hError
        case GsBlank => vMode == VBlank && vsyncStart == old(vsyncStart) && hsyncDelta == old(hsyncDelta)
        case VBlank => vMode == VRender && vsyncStart == old(vsyncStart) + video.blank && hsyncDelta == old(hsyncDelta)
    {
      hide Passed, PassedOver, PartOf, Tagged, CanCountWhen, S32;
      if !VsyncDue() {
        IdlePass(timers[..], CanCounts(), cycle, 4);
        IdlePassedOver(timers[..], log, hRender, vMode == VRender, cycle);
        return;
      }
      SignalPass(VsyncPass(sint));
      match vMode
      case VBlank =>
        vsyncStart := vsyncStart + video.blank;
        vsyncDelta := video.render;
        vMode := VRender;
      case GsBlank =>
        vMode := VBlank;
        vsyncDelta := video.blank;
      case VRender =>
        vsyncStart := vsyncStart + video.render;
        vsyncDelta := video.gsBlank;
        vMode := GsBlank;
        hsyncDelta := hsyncDelta + video.hError;
    }

    /** rcntUpdate_hScanline */
    method UpdateHsync(sint: bool)
      requires Valid()
      modifies timers, this`log, this`hsyncStart, this`hsyncDelta, this`hRender
      ensures Valid()
      ensures log == old(log) + Events(old(timers[..]), old(HsyncPass(sint, hsyncDelta)), old(CanCounts()), cycle, 4)
      ensures PassedOver(old(timers[..]), timers[..], old(log), log, old(HsyncPass(sint, hsyncDelta)),
                         old(hRender), old(vMode == VRender), cycle)
      ensures old(HsyncPass(sint, hsyncDelta)) ==
        if old(S32(cycle - hsyncStart) < hsyncDelta) || sint then Idle
        else if old(hRender) then Opens(false, hsyncStart) else Closes(false, hsyncStart)
      ensures hRender == (if old(S32(cycle - hsyncStart) >= hsyncDelta) then !old(hRender) else old(hRender))
      ensures old(S32(cycle - hsyncStart) >= hsyncDelta) ==>
        && hsyncStart == old(hsyncStart) + (if hRender then video.hBlank else video.hRender)
        && hsyncDelta == if hRender then video.hRender else video.hBlank
      ensures old(S32(cycle - hsyncStart) < hsyncDelta) ==>
        hsyncStart == old(hsyncStart) && hsyncDelta == old(hsyncDelta)
    {
      hide Passed, PassedOver, PartOf, Tagged, CanCountWhen, S32;
      if !HsyncDue(hsyncDelta) {
        IdlePass(timers[..], CanCounts(), cycle, 4);
        IdlePassedOver(timers[..], log, hRender, vMode == VRender, cycle);
        return;
      }
      SignalPass(HsyncPass(sint, hsyncDelta));
      if !hRender {
        hsyncStart := hsyncStart + video.hBlank;
        hsyncDelta := video.hRender;
        hRender := true;
      } else {
        hsyncStart := hsyncStart + video.hRender;
        hsyncDelta := video.hBlank;
        hRender := false;
      }
    }

    /** The loop over the gates, if the signal's handler calls it. */
    method SignalPass(p: Pass)
      requires Valid() && EdgeBy(p, cycle)
      modifies timers, this`log
      ensures Valid() && CanCounts() == old(CanCounts())
      ensures log == old(log) + Events(old(timers[..]), p, old(CanCounts()), cycle, 4)
      ensures PassedOver(old(timers[..]), timers[..], old(log), log, p, hRender, vMode == VRender, cycle)
    {
      hide Passed, PassedOver, PartOf, CanCountWhen;
      if p.Idle? {
        IdlePass(timers[..], CanCounts(), cycle, 4);
        IdlePassedOver(timers[..], log, hRender, vMode == VRender, cycle);
      } else {
        PassOver(p);
      }
    }

    /** How far off the hblank is once the vertical signal has been looked at. */
    function HsyncDeltaNext(): nat
      reads this`cycle, this`vsyncStart, this`vsyncDelta, this`vMode, this`hsyncDelta
    {
      if VsyncDue() && vMode == VRender then hsyncDelta + video.hError else hsyncDelta
    }

    /** The two signals, then the tests of every timer. */
    method UpdateAll(sint: bool)
      requires Valid()
      modifies timers, this`log, this`vsyncStart, this`vsyncDelta, this`vMode, this`hsyncStart, this`hsyncDelta,
               this`hRender
      ensures Valid()
      ensures vMode == (if !old(VsyncDue()) then old(vMode) else NextMode(old(vMode)))
      ensures hRender == (if old(HsyncDue(HsyncDeltaNext())) then !old(hRender) else old(hRender))
      ensures var w := Sweep(old(VsyncPass(sint)), old(HsyncPass(sint, HsyncDeltaNext())),
                             old(hRender), old(vMode == VRender), hRender, vMode == VRender);
              UpdatedAll(old(timers[..]), timers[..], old(log), log, w, cycle)
    {
      hide Passed, CanCountWhen, S32, PartOf, Events, PassedOver, Updated, Sound;
      ghost var v, h := VsyncPass(sint), HsyncPass(sint, HsyncDeltaNext());
      ghost var hr, vr, ts, l := hRender, vMode == VRender, timers[..], log;
      UpdateVsync(sint);
      ghost var t1, l1 := timers[..], log;
      UpdateHsync(sint);
      ghost var t2, l2 := timers[..], log;
      PassOver(Tests);
      ghost var w := Sweep(v, h, hr, vr, hRender, vMode == VRender);
      ThreePasses(ts, t1, t2, timers[..], l, l1, l2, log, w, cycle);
    }

    /** Every timer the scheduler looks at is in order, and the next update is early enough for it. */
    ghost predicate InOrder()
      requires timers.Length == 4
      reads this`nextStart, this`nextDelta, timers
    {
      forall i | 0 <= i < 4 ::
        Plain(timers[i]) && Scheduled(timers[i], timers[i].isCounting, nextStart + nextDelta)
    }

    /** `at` is within a tick of the next update, for every timer the scheduler looks at. */
    ghost predicate OnTime(at: int)
      requires timers.Length == 4
      reads this`nextStart, this`nextDelta, timers
    {
      forall i | 0 <= i < 4 && Watched(timers[i], timers[i].isCounting) ::
        at < nextStart + nextDelta + timers[i].rate
    }

    /** rcntUpdate: the two signals, the tests of every timer, the next schedule. An update that is on
        time finds and leaves the timers in order, and to each of them it is the clock. */
    method RcntUpdate(sint: bool)
      requires Valid()
      modifies this, timers
      ensures Valid() && cycle == old(cycle) && nextStart == cycle && nextDelta >= 0
      ensures vMode == (if !old(VsyncDue()) then old(vMode) else NextMode(old(vMode)))
      ensures hRender == (if old(HsyncDue(HsyncDeltaNext())) then !old(hRender) else old(hRender))
      ensures var w := Sweep(old(VsyncPass(sint)), old(HsyncPass(sint, HsyncDeltaNext())),
                             old(hRender), old(vMode == VRender), hRender, vMode == VRender);
              UpdatedAll(old(timers[..]), timers[..], old(log), log, w, cycle)
      ensures old(InOrder() && OnTime(cycle)) ==>
        InOrder() && AllClocked(old(timers[..]), timers[..], old(log), log, cycle)
    {
      hide UpdatedAll, NextMode, VsyncDue, HsyncDue, VsyncPass, HsyncPass, Covered, AllClocked, NotOverdue, Sound,
           Ready;
      ghost var ts, l, d := timers[..], log, nextStart + nextDelta;
      ghost var v, h, hr, vr := VsyncPass(sint), HsyncPass(sint, HsyncDeltaNext()), hRender, vMode == VRender;
      UpdateAll(sint);
      ghost var inOrder := old(InOrder() && OnTime(cycle));
      if inOrder {
        ghost var w := Sweep(v, h, hr, vr, hRender, vMode == VRender);
        UpdatesOnTime(ts, timers[..], l, log, w, cycle, d);
      }
      CpuRcntSet();
    }

    /** The machine runs on to a later cycle. */
    method RunTo(c: nat)
      requires Valid() && cycle <= c
      modifies this`cycle
      ensures Valid() && cycle == c
    {
      cycle := c;
    }

    /** Over any run of updates that each come within a tick of their schedule, every timer the
        scheduler looks at has the counts, the flags and the events of a timer that ticks by the
        clock, whatever the other timers and the video signals do. */
    method RunUpdates(steps: seq<Step>)
      requires Valid() && InOrder() && cycle <= nextStart + nextDelta && |steps| > 0
      requires forall k | 0 <= k < |steps| :: WithinATick(timers[..], steps[k].slack)
      modifies this, timers
      ensures Valid() && InOrder() && nextStart == cycle && nextDelta >= 0
      ensures AllClocked(old(timers[..]), timers[..], old(log), log, cycle)
    {
      hide UpdatedAll, AllClocked, NextMode, Sound, Scheduled, Watched, Plain, WithinATick;
      ghost var ts, l := timers[..], log;
      RunStep(steps[0]);
      for k := 1 to |steps|
        invariant Valid() && InOrder() && nextStart == cycle && nextDelta >= 0
        invariant AllClocked(ts, timers[..], l, log, cycle)
      {
        ghost var us, l1, mid := timers[..], log, cycle;
        StillWithin(ts, us, l, l1, mid, steps[k].slack);
        RunStep(steps[k]);
        AllClockedOn(ts, us, timers[..], l, l1, log, mid, cycle);
      }
    }

    method RunStep(step: Step)
      requires Valid() && InOrder() && cycle <= nextStart + nextDelta + step.slack
      requires WithinATick(timers[..], step.slack)
      modifies this, timers
      ensures Valid() && InOrder() && nextStart == cycle && nextDelta >= 0
      ensures cycle == old(nextStart + nextDelta + step.slack)
      ensures AllClocked(old(timers[..]), timers[..], old(log), log, cycle)
    {
      hide UpdatedAll, AllClocked, NextMode, Sound, Scheduled, Watched, Plain;
      RunTo(nextStart + nextDelta + step.slack);
      RcntUpdate(step.sint);
    }

    /** A write to timer i leaves all timers in order if the others were. */
    ghost predicate StaysInOrder(i: nat, ts: seq<Timer>, delta: int)
      requires timers.Length == 4 == |ts| && i < 4
      reads this`nextStart, this`nextDelta, timers
    {
      (forall k | 0 <= k < 4 && k != i :: Plain(ts[k]) && Scheduled(ts[k], ts[k].isCounting, nextStart + delta))
      ==> InOrder()
    }

    lemma WriteInOrder(i: nat, ts: seq<Timer>, delta: int)
      requires Valid() && i < 4 == |ts| && forall k | 0 <= k < 4 && k != i :: timers[k] == ts[k]
      requires InRange(timers[i], nextStart) && !JustPassed(timers[i]) ==>
        nextDelta <= delta && Covered(timers[i], CanCount(i), nextStart + nextDelta)
      requires !Watched(timers[i], CanCount(i)) ==> nextDelta == delta
      ensures Keeps(timers[i], nextStart) ==> StaysInOrder(i, ts, delta)
    {
      if Settled(timers[i].c) { SettledNotPassed(timers[i]); }
      hide OverflowAt, TargetAt, JustPassed;
    }

    method WriteCount(i: nat, value: nat)
      requires Valid() && i < 4
      modifies timers, this`nextDelta
      ensures Valid() && timers[i] == CountWritten(Sync(old(timers[i]), cycle, old(CanCount(i))), value)
      ensures forall k | 0 <= k < 4 && k != i :: timers[k] == old(timers[k])
      ensures nextDelta == NextDelta(timers[i], CanCount(i), nextStart, old(nextDelta), cycle)
      ensures InRange(timers[i], nextStart) && !JustPassed(timers[i]) ==>
        nextDelta <= old(nextDelta) && Covered(timers[i], CanCount(i), nextStart + nextDelta)
      ensures Keeps(timers[i], nextStart) ==> StaysInOrder(i, old(timers[..]), old(nextDelta))
    {
      hide NextDelta, Covered, InRange, JustPassed;
      SyncKeeps(timers[i], cycle, CanCount(i));
      timers[i] := CountWritten(Sync(timers[i], cycle, CanCount(i)), value);
      RcntSet(i);
      Reschedules(timers[i], CanCount(i), nextStart, old(nextDelta), cycle);
      Unscheduled(timers[i], CanCount(i), nextStart, old(nextDelta), cycle);
      WriteInOrder(i, old(timers[..]), old(nextDelta));
    }

    method WriteTarget(i: nat, value: nat)
      requires Valid() && i < 4
      modifies timers, this`nextDelta
      ensures Valid() && timers[i] == TargetWritten(Sync(old(timers[i]), cycle, old(CanCount(i))), value)
      ensures forall k | 0 <= k < 4 && k != i :: timers[k] == old(timers[k])
      ensures nextDelta == NextDelta(timers[i], CanCount(i), nextStart, old(nextDelta), cycle)
      ensures InRange(timers[i], nextStart) && !JustPassed(timers[i]) ==>
        nextDelta <= old(nextDelta) && Covered(timers[i], CanCount(i), nextStart + nextDelta)
      ensures Keeps(timers[i], nextStart) ==> StaysInOrder(i, old(timers[..]), old(nextDelta))
    {
      hide NextDelta, Covered, InRange, JustPassed;
      SyncKeeps(timers[i], cycle, CanCount(i));
      timers[i] := TargetWritten(Sync(timers[i], cycle, CanCount(i)), value);
      RcntSet(i);
      Reschedules(timers[i], CanCount(i), nextStart, old(nextDelta), cycle);
      Unscheduled(timers[i], CanCount(i), nextStart, old(nextDelta), cycle);
      WriteInOrder(i, old(timers[..]), old(nextDelta));
    }

    method WriteMode(i: nat, value: nat)
      requires Valid() && i < 4
      modifies timers, this`nextDelta
      ensures Valid() && timers[i] ==
        ModeWritten(Sync(old(timers[i]), cycle, old(CanCount(i))), value, cycle, video.hRender + video.hBlank)
      ensures forall k | 0 <= k < 4 && k != i :: timers[k] == old(timers[k])
      ensures nextDelta == NextDelta(timers[i], CanCount(i), nextStart, old(nextDelta), cycle)
      ensures InRange(timers[i], nextStart) && !JustPassed(timers[i]) ==>
        nextDelta <= old(nextDelta) && Covered(timers[i], CanCount(i), nextStart + nextDelta)
      ensures Keeps(timers[i], nextStart) ==> StaysInOrder(i, old(timers[..]), old(nextDelta))
    {
      hide NextDelta, Covered, InRange, JustPassed;
      timers[i] := ModeWritten(Sync(timers[i], cycle, CanCount(i)), value, cycle, video.hRender + video.hBlank);
      RcntSet(i);
      Reschedules(timers[i], CanCount(i), nextStart, old(nextDelta), cycle);
      Unscheduled(timers[i], CanCount(i), nextStart, old(nextDelta), cycle);
      WriteInOrder(i, old(timers[..]), old(nextDelta));
    }

    method WriteRegister(i: nat, reg: Register, value: nat)
      requires Valid() && i < 4
      modifies timers, this`nextDelta
      ensures Valid() && timers[i] == Wrote(Sync(old(timers[i]), cycle, old(CanCount(i))), reg, value, cycle, HPeriod())
      ensures forall k | 0 <= k < 4 && k != i :: timers[k] == old(timers[k])
      ensures Keeps(timers[i], nextStart) ==> StaysInOrder(i, old(timers[..]), old(nextDelta))
    {
      hide CountWritten, TargetWritten, ModeWritten, Sync, StaysInOrder, Keeps, NextDelta;
      match reg
      case CountReg => WriteCount(i, value);
      case TargetReg => WriteTarget(i, value);
      case ModeReg => WriteMode(i, value);
    }

    function HPeriod(): nat { video.hRender + video.hBlank }

    /** It comes when it should: an update within a tick of its schedule; a write before the next update,
        that leaves nothing overdue. */
    predicate Orderly(a: Action)
      requires Valid()
      reads this, timers
    {
      match a
      case Updates(slack, _) => cycle <= nextStart + nextDelta + slack && WithinATick(timers[..], slack)
      case Writes(wait, i, reg, value) =>
        i < 4 && cycle + wait < nextStart + nextDelta &&
        Keeps(Wrote(Sync(timers[i], cycle + wait, CanCount(i)), reg, value, cycle + wait, HPeriod()), nextStart)
    }

    /** Any run of updates and register writes, up to the first that does not come when it should: every
        timer that the scheduler looks at all along has the counts, the flags and the events of a timer
        that ticks by the clock and takes the same writes, whatever the other timers and the video
        signals do. */
    method Run(actions: seq<Action>) returns (deeds: seq<Deed>)
      requires Valid() && InOrder()
      modifies this, timers
      ensures Valid() && InOrder() && |deeds| <= |actions|
      ensures Followed(old(timers[..]), timers[..], old(log), log, deeds, HPeriod())
      ensures forall k | 0 <= k < |deeds| :: Answers(actions[k], deeds[k], CycleAfter(old(cycle), deeds, k))
      ensures cycle == CycleAfter(old(cycle), deeds, |deeds|)
      ensures |deeds| < |actions| ==> !Orderly(actions[|deeds|])
    {
      hide Answers, Followed, Sound, Scheduled, Watched, Plain, WithinATick, Keeps, Wrote, Sync, Orderly;
      ghost var ts, l := timers[..], log;
      deeds := [];
      FollowsNothing(ts, l, HPeriod());
      while |deeds| < |actions| && Orderly(actions[|deeds|])
        invariant Valid() && InOrder() && |deeds| <= |actions|
        invariant Followed(ts, timers[..], l, log, deeds, HPeriod())
        invariant forall k | 0 <= k < |deeds| :: Answers(actions[k], deeds[k], CycleAfter(old(cycle), deeds, k))
        invariant cycle == CycleAfter(old(cycle), deeds, |deeds|)
      {
        var d := Act(actions[|deeds|], ts, l, deeds);
        AnswersAppend(old(cycle), actions, deeds, d);
        deeds := deeds + [d];
      }
    }

    method Act(a: Action, ghost ts: seq<Timer>, ghost l: seq<(nat, Event)>, ghost deeds: seq<Deed>) returns (d: Deed)
      requires Valid() && InOrder() && Orderly(a) && Followed(ts, timers[..], l, log, deeds, HPeriod())
      modifies this, timers
      ensures Valid() && InOrder() && Followed(ts, timers[..], l, log, deeds + [d], HPeriod())
      ensures cycle == d.cycle && Answers(a, d, old(cycle))
    {
      hide Followed, Sound, Scheduled, Watched, Plain, WithinATick, Keeps, Wrote, Sync, AllClocked;
      ghost var us, l1 := timers[..], log;
      match a
      case Updates(slack, sint) =>
        RunStep(Step(slack, sint));
        d := AtUpdate(cycle);
        FollowsUpdate(ts, us, timers[..], l, l1, log, deeds, cycle, HPeriod());
      case Writes(wait, i, reg, value) =>
        WriteAt(cycle + wait, i, reg, value);
        d := AtWrite(cycle, i, reg, value);
        FollowsWrite(ts, us, timers[..], l, l1, deeds, cycle, i, reg, value, HPeriod());
    }

    /** A write before the next update, at cycle w. */
    method WriteAt(w: nat, i: nat, reg: Register, value: nat)
      requires Valid() && InOrder() && i < 4 && cycle <= w < nextStart + nextDelta
      requires Keeps(Wrote(Sync(timers[i], w, CanCount(i)), reg, value, w, HPeriod()), nextStart)
      modifies this`cycle, this`nextDelta, timers
      ensures Valid() && InOrder() && cycle == w
      ensures forall k | 0 <= k < 4 && k != i :: timers[k] == old(timers[k])
      ensures Watched(old(timers[i]), old(timers[i]).isCounting) ==>
        && ByClock(old(timers[i]), w).1 == []
        && timers[i] == Wrote(ByClock(old(timers[i]), w).0, reg, value, w, HPeriod())
    {
      hide Sound, Scheduled, Keeps, Wrote, Sync, ByClock;
      CountingPlain(i);
      if Watched(timers[i], timers[i].isCounting) {
        SoundStart(timers[i], cycle);
        SyncByClock(timers[i], nextStart + nextDelta, w);
      }
      RunTo(w);
      WriteRegister(i, reg, value);
    }

    lemma CountingPlain(i: nat)
      requires timers.Length == 4 && i < 4 && Plain(timers[i])
      ensures Watched(timers[i], timers[i].isCounting) ==> CanCount(i) && timers[i].isCounting
    {
    }
  }
}
