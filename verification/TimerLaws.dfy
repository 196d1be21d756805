/** What any number of ticks does to a counter, in closed form. */
module TimerLaws {
  import opened Arith
  import opened TimerCore

  function Count(kind: Kind, events: seq<Event>): nat {
    if events == [] then 0
    else Count(kind, events[..|events| - 1]) + if events[|events| - 1].kind == kind then 1 else 0
  }

  lemma CountAppend(kind: Kind, a: seq<Event>, b: seq<Event>)
    ensures Count(kind, a + b) == Count(kind, a) + Count(kind, b)
  {
    if b == [] {
      assert a + b == a;
    } else {
      assert (a + b)[..|a + b| - 1] == a + b[..|b| - 1];
      CountAppend(kind, a, b[..|b| - 1]);
    }
  }

  predicate Enabled(c: Counter, kind: Kind) {
    if kind == Target then c.targetInterrupt else c.overflowInterrupt
  }

  predicate Reached(c: Counter, kind: Kind) {
    if kind == Target then c.targetReached else c.overflowReached
  }

  /** Ticks never touch the settings. */
  lemma {:induction false} SettingsStay(c: Counter, n: nat)
    ensures var r := Ticks(c, n).0;
            r == c.(count := r.count, future := r.future, targetReached := r.targetReached,
                    overflowReached := r.overflowReached)
  {
    if n > 0 {
      SettingsStay(c, n - 1);
    }
  }

  lemma SameEnabled(c: Counter, n: nat, kind: Kind)
    ensures Enabled(Ticks(c, n).0, kind) == Enabled(c, kind)
  {
    SettingsStay(c, n);
    hide Ticks;
  }

  /** An enabled event sets its flag, and only the first one that finds the flag clear raises the interrupt. */
  lemma {:induction false} RaisedOnce(c: Counter, n: nat, kind: Kind)
    ensures var r := Ticks(c, n);
            && (Reached(r.0, kind) <==> Reached(c, kind) || (Enabled(c, kind) && Count(kind, r.1) > 0))
            && forall i | 0 <= i < |r.1| && r.1[i].kind == kind ::
                 r.1[i].raised <==> Enabled(c, kind) && !Reached(c, kind) && Count(kind, r.1[..i]) == 0
  {
    hide Tick, Enabled, Reached, Count;
    if n == 0 {
      CountNone(kind);
    } else {
      RaisedOnce(c, n - 1, kind);
      var r := Ticks(c, n - 1);
      var s := Tick(r.0);
      SameEnabled(c, n - 1, kind);
      RaisedByTick(r.0, kind);
      CountAppend(kind, r.1, s.1);
      FirstRaises(r.1, s.1, kind, Enabled(c, kind), Reached(c, kind));
    }
  }

  /** Events after which no further one raises: `on` says the kind is enabled, `set` that its flag was set. */
  lemma FirstRaises(a: seq<Event>, b: seq<Event>, kind: Kind, on: bool, set_: bool)
    requires forall i | 0 <= i < |a| && a[i].kind == kind ::
               a[i].raised <==> on && !set_ && Count(kind, a[..i]) == 0
    requires forall i | 0 <= i < |b| && b[i].kind == kind ::
               (b[i].raised <==> on && !(set_ || (on && Count(kind, a) > 0))) && Count(kind, b[..i]) == 0
    ensures forall i | 0 <= i < |a + b| && (a + b)[i].kind == kind ::
              (a + b)[i].raised <==> on && !set_ && Count(kind, (a + b)[..i]) == 0
  {
    hide Count;
    forall i | 0 <= i < |a + b| && (a + b)[i].kind == kind
      ensures (a + b)[i].raised <==> on && !set_ && Count(kind, (a + b)[..i]) == 0
    {
      if i < |a| {
        assert (a + b)[..i] == a[..i];
      } else {
        assert (a + b)[..i] == a + b[..i - |a|];
        CountAppend(kind, a, b[..i - |a|]);
      }
    }
  }

  lemma RaisedByTick(c: Counter, kind: Kind)
    ensures var s := Tick(c);
            && (Reached(s.0, kind) <==> Reached(c, kind) || (Enabled(c, kind) && Count(kind, s.1) > 0))
            && forall i | 0 <= i < |s.1| && s.1[i].kind == kind ::
                 (s.1[i].raised <==> Enabled(c, kind) && !Reached(c, kind)) && Count(kind, s.1[..i]) == 0
  {
    EventsOfTick(c);
    hide Count;
    var s := Tick(c);
    forall i | 0 <= i < |s.1| && s.1[i].kind == kind ensures Count(kind, s.1[..i]) == 0 {
      BeforeFirst(s.1, kind, i);
    }
  }

  /** One event of each kind at most, the overflow first. */
  lemma BeforeFirst(events: seq<Event>, kind: Kind, i: nat)
    requires |events| <= 2 && i < |events| && events[i].kind == kind
    requires |events| == 2 ==> events[0].kind != events[1].kind
    ensures Count(kind, events[..i]) == 0
  {
    if i == 1 {
      assert events[..1] == [events[0]] && [events[0]][..0] == [];
    }
  }

  lemma EventsOfTick(c: Counter)
    ensures var wraps := c.count == 0xFFFF;
            var hits := (wraps || !c.future) && (if wraps then 0 else c.count + 1) == c.target;
            && Count(Overflow, Tick(c).1) == (if wraps then 1 else 0)
            && Count(Target, Tick(c).1) == (if hits then 1 else 0)
  {
    var wraps := c.count == 0xFFFF;
    var hits := (wraps || !c.future) && (if wraps then 0 else c.count + 1) == c.target;
    var o, t := Event(Overflow, c.overflowInterrupt && !c.overflowReached),
                Event(Target, c.targetInterrupt && !c.targetReached);
    var a, b := if wraps then [o] else [], if hits then [t] else [];
    CountOne(o);
    CountOne(t);
    CountAppend(Overflow, a, b);
    CountAppend(Target, a, b);
    hide Count;
    assert Tick(c).1 == a + b;
    CountNone(Overflow);
    CountNone(Target);
  }

  lemma CountOne(e: Event)
    ensures forall kind :: Count(kind, [e]) == if e.kind == kind then 1 else 0
  {
    assert [e][..0] == [];
  }

  lemma CountNone(kind: Kind)
    ensures Count(kind, []) == 0
  {
  }

  /** Without zero return the count is the 16-bit sum, with one overflow for each turn, and the target is
      met once in each turn, but for the first if it was switched off. */
  lemma WrapsAround(c: Counter, n: nat)
    requires Settled(c) && !c.zeroReturn
    ensures var r := Ticks(c, n); var sum := c.count + n;
            && r.0.count == sum % 0x1_0000
            && Count(Overflow, r.1) == sum / 0x1_0000
            && Count(Target, r.1) == Passes(c, sum)
            && (r.0.future <==> sum % 0x1_0000 >= c.target || (c.future && sum < 0x1_0000))
  {
    WrapsBy(c, n);
    hide Ticks, Passes, Count;
  }

  function Turns(sum: nat): nat { sum / 0x1_0000 }

  function Rest(sum: nat): nat { sum % 0x1_0000 }

  lemma {:induction false} WrapsBy(c: Counter, n: nat)
    requires Settled(c) && !c.zeroReturn
    ensures var r := Ticks(c, n); var sum := c.count + n;
            && r.0.count == Rest(sum) && Count(Overflow, r.1) == Turns(sum) && Count(Target, r.1) == Passes(c, sum)
            && (r.0.future <==> Rest(sum) >= c.target || (c.future && sum < 0x1_0000))
  {
    hide Tick, Passes, Turns, Rest, Count;
    if n == 0 {
      CountNone(Overflow);
      CountNone(Target);
      AtStart(c);
    } else {
      WrapsBy(c, n - 1);
      var r := Ticks(c, n - 1);
      SettingsStay(c, n - 1);
      CountAppend(Overflow, r.1, Tick(r.0).1);
      CountAppend(Target, r.1, Tick(r.0).1);
      EventsOfTick(r.0);
      StepsOn(r.0);
      NextSum(c.count + n - 1);
      PassesOn(c, c.count + n - 1, r.0.future);
    }
  }

  /** How often a count that goes on to `sum` meets the target. */
  function Passes(c: Counter, sum: nat): nat {
    var turns := sum / 0x1_0000 + if sum % 0x1_0000 >= c.target then 1 else 0;
    if c.future && turns > 0 then turns - 1 else turns
  }

  lemma AtStart(c: Counter)
    requires Settled(c)
    ensures Rest(c.count) == c.count && Turns(c.count) == 0 && Passes(c, c.count) == 0
  {
  }

  lemma StepsOn(c: Counter)
    requires !c.zeroReturn
    ensures var s := Tick(c).0; var wraps := c.count == 0xFFFF;
            var hits := (wraps || !c.future) && (if wraps then 0 else c.count + 1) == c.target;
            s.count == (if wraps then 0 else c.count + 1) && s.future == (hits || (c.future && !wraps))
  {
  }

  lemma NextSum(sum: nat)
    ensures var wraps := Rest(sum) == 0xFFFF;
            && Rest(sum + 1) == (if wraps then 0 else Rest(sum) + 1)
            && Turns(sum + 1) == Turns(sum) + (if wraps then 1 else 0)
  {
  }

  lemma PassesOn(c: Counter, sum: nat, future: bool)
    requires c.target <= 0xFFFF
    requires future <==> Rest(sum) >= c.target || (c.future && sum < 0x1_0000)
    ensures var wraps := Rest(sum) == 0xFFFF;
            var hits := (wraps || !future) && (if wraps then 0 else Rest(sum) + 1) == c.target;
            && Passes(c, sum + 1) == Passes(c, sum) + (if hits then 1 else 0)
            && (hits || (future && !wraps) <==> Rest(sum + 1) >= c.target || (c.future && sum + 1 < 0x1_0000))
  {
    NextSum(sum);
  }

  /** With zero return a live target takes the count around: it never overflows, and the target is met
      once for each turn. */
  lemma {:induction false} StartsOver(c: Counter, n: nat)
    requires Settled(c) && c.zeroReturn && !c.future
    ensures var r := Ticks(c, n); var sum := c.count + n;
            && r.0.count == sum % c.target && !r.0.future
            && Count(Overflow, r.1) == 0 && Count(Target, r.1) == sum / c.target
  {
    hide Tick;
    if n == 0 {
      DivModUnique(c.count, 0, c.target, c.count);
    } else {
      StartsOver(c, n - 1);
      var r := Ticks(c, n - 1);
      SettingsStay(c, n - 1);
      CountAppend(Overflow, r.1, Tick(r.0).1);
      CountAppend(Target, r.1, Tick(r.0).1);
      EventsOfTick(r.0);
      OverTick(r.0);
      NextTurn(c.count + n - 1, c.target);
    }
  }

  lemma OverTick(c: Counter)
    requires c.zeroReturn && !c.future && c.count < c.target <= 0xFFFF
    ensures var s := Tick(c).0; s.count == (if c.count + 1 == c.target then 0 else c.count + 1) && !s.future
  {
  }

  lemma NextTurn(sum: nat, t: nat)
    requires t > 0
    ensures sum % t < t
    ensures (sum + 1) % t == (if sum % t + 1 == t then 0 else sum % t + 1)
    ensures (sum + 1) / t == sum / t + (if sum % t + 1 == t then 1 else 0)
  {
    var q, m := sum / t, sum % t;
    MulCommutes(t, q);
    if m + 1 == t {
      MulDistributes(q, -1, t);
      DivModUnique(sum + 1, q + 1, t, 0);
    } else {
      DivModUnique(sum + 1, q, t, m + 1);
    }
  }
}
