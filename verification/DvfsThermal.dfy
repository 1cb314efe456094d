/**
 The kernel's frequency control (kernel/mvgal_power.c): a DVFS work item and a thermal
 work item both write one GPU's clock.  The policy limits are set once, to the default
 values, and nothing in the driver changes them.
 */
module DvfsThermal {

  import opened Common

  const MIN_MHZ: nat := 300
  const MAX_MHZ: nat := 2000
  const UP: nat := 80
  const DOWN: nat := 30
  const STEP_MHZ: nat := 100

  datatype Mode = Performance | Balanced | Powersave | Custom

  /** `level` is the throttle level in percent. */
  datatype State = State(mode: Mode, current: nat, target: nat,
                         throttleTemp: int, criticalTemp: int, level: nat)

  /** The thresholds as a check reads them, without a lock: for the critical test, the
      throttle test, the numerator, and the two operands of the divisor. */
  datatype Reads = Reads(critical: int, throttle: int, base: int, top: int, bottom: int)

  datatype Event =
    | Tick(utilization: nat)                     // DVFS work item
    | SetMode(mode: Mode)
    | ThermalCheck(temp: int)                    // thermal work item
    | TornCheck(temp: int, r: Reads)             // the same while thresholds are being changed
    | SetThresholds(throttle: int, critical: int)

  predicate Initial(s: State) {
    s == State(Balanced, MAX_MHZ, MAX_MHZ, 75, 95, 0)
  }

  /** The throttle computation of a check stays within a signed 32-bit int and does not
      divide by zero. */
  predicate Enabled(s: State, e: Event) {
    match e
    case ThermalCheck(temp) => Defined(temp, Consistent(s))
    case TornCheck(temp, r) => Defined(temp, r)
    case _ => true
  }

  predicate Fits(x: int) {
    -0x8000_0000 < x < 0x8000_0000
  }

  predicate Defined(temp: int, r: Reads) {
    r.throttle <= temp < r.critical ==>
      r.top != r.bottom && Fits((temp - r.base) * 100) && Fits(r.top - r.bottom)
  }

  /** What a check reads when nobody changes the thresholds. */
  function Consistent(s: State): Reads {
    Reads(s.criticalTemp, s.throttleTemp, s.throttleTemp, s.criticalTemp, s.throttleTemp)
  }

  function Abs(x: int): nat {
    if x < 0 then -x else x
  }

  /** C's `/` truncates towards zero. */
  function TruncDiv(a: int, d: int): int
    requires d != 0
  {
    var q := Abs(a) / Abs(d);
    if (a < 0) == (d < 0) then q else -q
  }

  /** The throttle level: converted to uint32_t, then at most 100. */
  function TornLevel(temp: int, r: Reads): nat
    requires temp < r.critical && Defined(temp, r)
  {
    if temp < r.throttle then 0 else Min(TruncDiv((temp - r.base) * 100, r.top - r.bottom) % TWO32, 100)
  }

  /** What the DVFS work item aims at. */
  function Aim(s: State, utilization: nat): nat {
    match s.mode
    case Performance => MAX_MHZ
    case Powersave => MIN_MHZ
    case Balanced =>
      if utilization >= UP then
        if s.current < MAX_MHZ then Min(s.current + STEP_MHZ, MAX_MHZ) else s.target
      else if utilization <= DOWN then
        if s.current > MIN_MHZ then Max(Down(s.current), MIN_MHZ) else s.target
      else s.target
    case Custom => s.target
  }

  /** 32-bit `freq - 100`. */
  function Down(freq: nat): nat {
    (freq + TWO32 - STEP_MHZ) % TWO32
  }

  /** Both DVFS entry points end by making the target the current frequency. */
  function Applied(s: State, target: nat): State {
    s.(target := target, current := target)
  }

  function Level(temp: int, throttle: int, critical: int): nat
    requires throttle < critical
  {
    if temp < throttle then 0 else Min((temp - throttle) * 100 / (critical - throttle), 100)
  }

  /** The frequency limit for a throttle level, in 32-bit arithmetic. */
  function Limit(level: nat): nat
    requires level < TWO32
  {
    if level == 0 then MAX_MHZ
    else Max(MAX_MHZ * ((TWO32 + 100 - level) % TWO32) % TWO32 / 100, MIN_MHZ)
  }

  function Limited(s: State, level: nat): State
    requires level <= 100
  {
    s.(level := level, target := Min(s.target, Limit(level)), current := Min(s.current, Limit(level)))
  }

  function Step(s: State, e: Event): State
    requires s.throttleTemp < s.criticalTemp && Enabled(s, e)
  {
    match e
    case Tick(utilization) => Applied(s, Aim(s, utilization))
    case SetMode(mode) =>
      Applied(s.(mode := mode),
              if mode == Performance then MAX_MHZ else if mode == Powersave then MIN_MHZ else s.target)
    case ThermalCheck(temp) =>
      if temp >= s.criticalTemp then s.(level := 100)
      else Limited(s, Level(temp, s.throttleTemp, s.criticalTemp))
    case TornCheck(temp, r) =>
      if temp >= r.critical then s.(level := 100) else Limited(s, TornLevel(temp, r))
    case SetThresholds(throttle, critical) =>
      if throttle >= critical then s else s.(throttleTemp := throttle, criticalTemp := critical)
  }

  predicate Inv(s: State) {
    && s.throttleTemp < s.criticalTemp
    && s.target == s.current && MIN_MHZ <= s.current <= MAX_MHZ
    && s.level <= 100
  }

  ghost predicate IsRun(ss: seq<State>, es: seq<Event>) {
    && |ss| == |es| + 1
    && Initial(ss[0])
    && forall i | 0 <= i < |es| ::
         ss[i].throttleTemp < ss[i].criticalTemp && Enabled(ss[i], es[i]) && ss[i + 1] == Step(ss[i], es[i])
  }

  /** A percentage up to 100 gives that much less than the maximum, but at least the minimum. */
  lemma LimitBounds(level: nat)
    requires level <= 100
    ensures Limit(level) == Max(MAX_MHZ * (100 - level) / 100, MIN_MHZ)
    ensures MIN_MHZ <= Limit(level) <= MAX_MHZ
  {
    assert (TWO32 + 100 - level) % TWO32 == 100 - level;
  }

  lemma StepKeepsInv(s: State, e: Event)
    requires Inv(s) && Enabled(s, e)
    ensures Inv(Step(s, e))
  {
    if e.ThermalCheck? && e.temp < s.criticalTemp {
      LimitBounds(Level(e.temp, s.throttleTemp, s.criticalTemp));
    } else if e.TornCheck? && e.temp < e.r.critical {
      LimitBounds(TornLevel(e.temp, e.r));
    }
  }

  lemma {:induction false} RunKeepsInv(ss: seq<State>, es: seq<Event>, k: nat)
    requires IsRun(ss, es) && k <= |es|
    ensures Inv(ss[k])
  {
    if k == 0 {
    } else {
      RunKeepsInv(ss, es, k - 1);
      StepKeepsInv(ss[k - 1], es[k - 1]);
    }
  }

  /** In every interleaving of the two controllers and of mode and threshold changes,
      checks that see half of a change included, the target is the current frequency and both stay within the policy. */
  lemma ControllersAgree(ss: seq<State>, es: seq<Event>, k: nat)
    requires IsRun(ss, es) && k <= |es|
    ensures ss[k].target == ss[k].current
    ensures MIN_MHZ <= ss[k].current <= MAX_MHZ
  {
    RunKeepsInv(ss, es, k);
  }

  // ---- The thermal cap ----

  /** The cap a check at `temp` imposes under the thresholds of s. */
  function Cap(s: State, temp: int): nat
    requires s.throttleTemp < s.criticalTemp && temp < s.criticalTemp
  {
    Limit(Level(temp, s.throttleTemp, s.criticalTemp))
  }

  /** Hotter never means faster. */
  lemma CapIsAntitone(s: State, cool: int, hot: int)
    requires s.throttleTemp < s.criticalTemp && cool <= hot < s.criticalTemp
    ensures Cap(s, hot) <= Cap(s, cool)
  {
    var l1, l2 := Level(cool, s.throttleTemp, s.criticalTemp), Level(hot, s.throttleTemp, s.criticalTemp);
    if s.throttleTemp <= cool {
      DivLe((cool - s.throttleTemp) * 100, (hot - s.throttleTemp) * 100, s.criticalTemp - s.throttleTemp);
    }
    assert l1 <= l2;
    LimitBounds(l1);
    LimitBounds(l2);
    DivLe(MAX_MHZ * (100 - l2), MAX_MHZ * (100 - l1), 100);
  }

  /** A check below the critical temperature brings the frequency down to the cap and
      never raises it; at or above the critical temperature it leaves it alone. */
  lemma CheckIsExact(ss: seq<State>, es: seq<Event>, i: nat)
    requires IsRun(ss, es) && i < |es| && es[i].ThermalCheck?
    ensures es[i].temp < ss[i].criticalTemp ==> ss[i + 1].current == Min(ss[i].current, Cap(ss[i], es[i].temp))
    ensures es[i].temp >= ss[i].criticalTemp ==> ss[i + 1].current == ss[i].current && ss[i + 1].level == 100
  {
    RunKeepsInv(ss, es, i);
    assert ss[i + 1] == Step(ss[i], es[i]);
  }

  /** Balanced-mode DVFS ticks among the events from i to j. */
  ghost function Ticks(ss: seq<State>, es: seq<Event>, i: nat, j: nat): nat
    requires i <= j <= |es| <= |ss|
    decreases j - i
  {
    if i == j then 0
    else Ticks(ss, es, i, j - 1) + if es[j - 1].Tick? && ss[j - 1].mode == Balanced then 1 else 0
  }

  /** Nothing but a switch to performance mode, or a tick in it, sets the maximum outright. */
  predicate Boosts(s: State, e: Event) {
    e == SetMode(Performance) || (e.Tick? && s.mode == Performance)
  }

  lemma RiseIsBounded(s: State, e: Event)
    requires Inv(s) && Enabled(s, e)
    ensures Boosts(s, e) ==> Step(s, e).current == MAX_MHZ
    ensures !Boosts(s, e) ==>
              Step(s, e).current <= s.current + if e.Tick? && s.mode == Balanced then STEP_MHZ else 0
  {
  }

  /** What is left at step j of the cap imposed at step i: 100 MHz more per balanced tick. */
  ghost function Bound(ss: seq<State>, es: seq<Event>, i: nat, j: nat): nat
    requires i < j <= |es| <= |ss|
    requires ss[i].throttleTemp < ss[i].criticalTemp && es[i].ThermalCheck? && es[i].temp < ss[i].criticalTemp
  {
    Cap(ss[i], es[i].temp) + STEP_MHZ * Ticks(ss, es, i + 1, j)
  }

  /** Event i is a check below the critical temperature. */
  ghost predicate Caps(ss: seq<State>, es: seq<Event>, i: nat) {
    i < |es| < |ss| && ss[i].throttleTemp < ss[i].criticalTemp && es[i].ThermalCheck? && es[i].temp < ss[i].criticalTemp
  }

  /** A boost between i and j finds the cap already worn off. */
  ghost predicate BoostHarmless(ss: seq<State>, es: seq<Event>, i: nat, m: nat)
    requires Caps(ss, es, i) && i < m < |es|
  {
    Boosts(ss[m], es[m]) ==> Bound(ss, es, i, m + 1) >= MAX_MHZ
  }

  lemma {:induction false} BoundHolds(ss: seq<State>, es: seq<Event>, i: nat, j: nat)
    requires IsRun(ss, es) && Caps(ss, es, i) && i < j <= |es|
    requires forall m | i < m < j :: BoostHarmless(ss, es, i, m)
    ensures ss[j].current <= Bound(ss, es, i, j)
    decreases j - i
  {
    RunKeepsInv(ss, es, j);
    if j == i + 1 {
      CheckIsExact(ss, es, i);
    } else {
      BoundHolds(ss, es, i, j - 1);
      RunKeepsInv(ss, es, j - 1);
      RiseIsBounded(ss[j - 1], es[j - 1]);
      assert BoostHarmless(ss, es, i, j - 1);
    }
  }

  /** The cap of a below-critical check wears off by at most 100 MHz per balanced tick, at
      every point up to j and whatever checks, threshold and mode changes follow, if and
      only if every boost to the maximum in between comes when the cap has already worn
      off.  In performance mode, then, a cap lasts until the next tick. */
  lemma CapHoldsIffNoEarlyBoost(ss: seq<State>, es: seq<Event>, i: nat, j: nat)
    requires IsRun(ss, es) && Caps(ss, es, i) && i < j <= |es|
    ensures (forall m | i < m <= j :: ss[m].current <= Bound(ss, es, i, m)) <==>
            (forall m | i < m < j :: BoostHarmless(ss, es, i, m))
  {
    if forall m | i < m < j :: BoostHarmless(ss, es, i, m) {
      forall m | i < m <= j ensures ss[m].current <= Bound(ss, es, i, m) {
        BoundHolds(ss, es, i, m);
      }
    }
    if forall m | i < m <= j :: ss[m].current <= Bound(ss, es, i, m) {
      forall m | i < m < j ensures BoostHarmless(ss, es, i, m) {
        RunKeepsInv(ss, es, m);
        RiseIsBounded(ss[m], es[m]);
        assert ss[m + 1].current <= Bound(ss, es, i, m + 1);
      }
    }
  }

  /** Outside performance mode there is no boost, so the bound holds throughout. */
  lemma {:induction false} CapWearsOffSlowly(ss: seq<State>, es: seq<Event>, i: nat, j: nat)
    requires IsRun(ss, es) && Caps(ss, es, i) && i < j <= |es|
    requires forall m | i < m <= j :: ss[m].mode != Performance
    ensures ss[j].current <= Min(MAX_MHZ, Bound(ss, es, i, j))
  {
    forall m | i < m < j ensures BoostHarmless(ss, es, i, m) {
      assert ss[m + 1].mode != Performance;
      NoBoost(ss[m], es[m]);
    }
    BoundHolds(ss, es, i, j);
    RunKeepsInv(ss, es, j);
  }

  lemma NoBoost(s: State, e: Event)
    requires s.throttleTemp < s.criticalTemp && Enabled(s, e)
    requires s.mode != Performance && Step(s, e).mode != Performance
    ensures !Boosts(s, e)
  {
  }

  // ---- What a tick and a mode change do ----

  /** One DVFS tick, mode by mode, in every state of every run: the maximum in performance
      mode, the minimum in powersave mode, and in balanced mode 100 MHz up at 80 percent
      load or more and 100 MHz down at 30 percent or less, within the limits; otherwise the
      frequency stays. */
  lemma TickIsExact(ss: seq<State>, es: seq<Event>, k: nat)
    requires IsRun(ss, es) && k < |es| && es[k].Tick?
    ensures var u, f := es[k].utilization, ss[k].current;
            ss[k + 1].current == match ss[k].mode
                                 case Performance => 2000
                                 case Powersave => 300
                                 case Custom => f
                                 case Balanced =>
                                   if u >= 80 then Min(f + 100, 2000)
                                   else if u > 30 then f
                                   else if f >= 400 then f - 100 else 300
    ensures ss[k + 1].mode == ss[k].mode
  {
    RunKeepsInv(ss, es, k);
    assert ss[k + 1] == Step(ss[k], es[k]);
  }

  /** A mode change applies the extremes at once and leaves the frequency alone otherwise. */
  lemma ModeChangeIsExact(ss: seq<State>, es: seq<Event>, k: nat)
    requires IsRun(ss, es) && k < |es| && es[k].SetMode?
    ensures ss[k + 1].mode == es[k].mode
    ensures ss[k + 1].current == match es[k].mode
                                 case Performance => 2000
                                 case Powersave => 300
                                 case _ => ss[k].current
  {
    RunKeepsInv(ss, es, k);
    assert ss[k + 1] == Step(ss[k], es[k]);
  }

  /** A GPU in balanced mode that sees only idle ticks slows down by 100 MHz with each of
      them, down to the minimum. */
  lemma {:induction false} IdleGpuRampsDown(ss: seq<State>, es: seq<Event>, i: nat, j: nat)
    requires IsRun(ss, es) && i <= j <= |es| && ss[i].mode == Balanced
    requires forall m | i <= m < j :: es[m].Tick? && es[m].utilization <= 30
    ensures ss[j].mode == Balanced
    ensures ss[j].current == if ss[i].current >= 300 + 100 * (j - i) then ss[i].current - 100 * (j - i) else 300
    decreases j - i
  {
    RunKeepsInv(ss, es, i);
    if i == j {
    } else {
      IdleGpuRampsDown(ss, es, i, j - 1);
      TickIsExact(ss, es, j - 1);
    }
  }

  /** The throttle level is the whole percentage of the way from the throttle to the critical
      temperature, and the cap that much less than the maximum, but at least the minimum. */
  lemma CapIsPercentage(s: State, temp: int)
    requires s.throttleTemp <= temp < s.criticalTemp
    ensures var level := Level(temp, s.throttleTemp, s.criticalTemp);
            && level <= 100
            && level * (s.criticalTemp - s.throttleTemp) <= (temp - s.throttleTemp) * 100
               < (level + 1) * (s.criticalTemp - s.throttleTemp)
            && Cap(s, temp) == Max(20 * (100 - level), 300)
  {
    var a, d := (temp - s.throttleTemp) * 100, s.criticalTemp - s.throttleTemp;
    QuotientBounds(a, d);
    assert a < 100 * d;
    if a / d >= 100 {
      MulLe(100, a / d, d);
    }
    LimitBounds(Level(temp, s.throttleTemp, s.criticalTemp));
  }

  lemma QuotientBounds(a: nat, d: nat)
    requires d > 0
    ensures a / d * d <= a < (a / d + 1) * d
  {
    assert a == d * (a / d) + a % d;
  }

  /** Below the throttle temperature there is no cap. */
  lemma CoolMeansNoCap(s: State, temp: int)
    requires temp < s.throttleTemp < s.criticalTemp
    ensures Cap(s, temp) == 2000
  {
  }

  // ---- Checks during a threshold change ----

  /** A check whose reads agree is the ordinary check. */
  lemma ConsistentReads(s: State, temp: int)
    requires s.throttleTemp < s.criticalTemp && Enabled(s, ThermalCheck(temp))
    ensures Step(s, TornCheck(temp, Consistent(s))) == Step(s, ThermalCheck(temp))
  {
    if s.throttleTemp <= temp < s.criticalTemp {
      var a, d := (temp - s.throttleTemp) * 100, s.criticalTemp - s.throttleTemp;
      DivLe(0, a, d);
      QuotientSmall(a, d);
    }
  }

  lemma QuotientSmall(a: nat, d: nat)
    requires d > 0 && a < TWO32
    ensures a / d % TWO32 == a / d
  {
    assert a / d <= a;
  }

  /** The order of a threshold change's two stores and a check's five reads, as times.  The
      stores are ordered and the tests come first; the rest of the reads, operands of one
      expression, come in any order. */
  datatype Schedule = Schedule(storeThrottle: int, storeCritical: int,
                               critical: int, throttle: int, base: int, top: int, bottom: int)

  predicate IsSchedule(x: Schedule) {
    && x.storeThrottle < x.storeCritical
    && x.critical < x.throttle && x.throttle < x.base && x.throttle < x.top && x.throttle < x.bottom
  }

  /** What the check reads when (t, c) becomes (t', c'). */
  function ReadsOf(x: Schedule, t: int, c: int, t': int, c': int): Reads {
    Reads(if x.critical > x.storeCritical then c' else c,
          if x.throttle > x.storeThrottle then t' else t,
          if x.base > x.storeThrottle then t' else t,
          if x.top > x.storeCritical then c' else c,
          if x.bottom > x.storeThrottle then t' else t)
  }

  predicate DividesByZero(temp: int, r: Reads) {
    r.throttle <= temp < r.critical && r.top == r.bottom
  }

  /** A check can divide by zero during a change of valid thresholds to valid thresholds if
      and only if it runs at a throttling temperature of the old ones and the new throttle
      temperature is the old critical one, or the new critical one the old throttle one. */
  lemma ZeroDivisionIff(temp: int, t: int, c: int, t': int, c': int)
    requires t < c && t' < c'
    ensures (exists x :: IsSchedule(x) && DividesByZero(temp, ReadsOf(x, t, c, t', c')))
            <==> t <= temp < c && (t' == c || c' == t)
  {
    if t <= temp < c && t' == c {
      var x := Schedule(4, 7, 1, 2, 3, 5, 6);
      assert IsSchedule(x) && DividesByZero(temp, ReadsOf(x, t, c, t', c'));
    } else if t <= temp < c && c' == t {
      var x := Schedule(5, 6, 1, 2, 4, 7, 3);
      assert IsSchedule(x) && DividesByZero(temp, ReadsOf(x, t, c, t', c'));
    }
  }

  // ---- Critical checks ----

  /** The state after a sequence of events; events that are not enabled are skipped. */
  function After(s: State, es: seq<Event>): State
    requires s.throttleTemp < s.criticalTemp
    decreases es
  {
    if es == [] then s
    else if Enabled(s, es[0]) then After(Step(s, es[0]), es[1..])
    else After(s, es[1..])
  }

  predicate IsCritical(s: State, e: Event) {
    (e.ThermalCheck? && e.temp >= s.criticalTemp) || (e.TornCheck? && e.temp >= e.r.critical)
  }

  /** The same events without the checks that find the temperature critical. */
  function WithoutCritical(s: State, es: seq<Event>): seq<Event>
    requires s.throttleTemp < s.criticalTemp
    decreases es
  {
    if es == [] then []
    else if !Enabled(s, es[0]) then WithoutCritical(s, es[1..])
    else (if IsCritical(s, es[0]) then [] else [es[0]]) + WithoutCritical(Step(s, es[0]), es[1..])
  }

  /** Equal but for the reported throttle level. */
  predicate Alike(s: State, t: State) {
    t == s.(level := t.level)
  }

  lemma AlikeSteps(s: State, t: State, e: Event)
    requires s.throttleTemp < s.criticalTemp && Alike(s, t) && Enabled(s, e)
    ensures Enabled(t, e) && Alike(Step(s, e), Step(t, e))
    ensures IsCritical(s, e) ==> Alike(Step(s, e), t)
  {
  }

  /** A critical check has no influence on the frequency, now or ever after: from any state,
      any sequence of events leads to the same mode, frequencies and thresholds as the
      sequence without its critical checks. */
  lemma {:induction false} CriticalChecksAreInvisible(s: State, t: State, es: seq<Event>)
    requires s.throttleTemp < s.criticalTemp && Alike(s, t)
    ensures Alike(After(s, es), After(t, WithoutCritical(s, es)))
    decreases es
  {
    if es == [] {
    } else if !Enabled(s, es[0]) {
      CriticalChecksAreInvisible(s, t, es[1..]);
    } else {
      AlikeSteps(s, t, es[0]);
      if IsCritical(s, es[0]) {
        CriticalChecksAreInvisible(Step(s, es[0]), t, es[1..]);
        assert [] + WithoutCritical(Step(s, es[0]), es[1..]) == WithoutCritical(Step(s, es[0]), es[1..]);
      } else {
        CriticalChecksAreInvisible(Step(s, es[0]), Step(t, es[0]), es[1..]);
        var rest := WithoutCritical(Step(s, es[0]), es[1..]);
        assert ([es[0]] + rest)[1..] == rest;
      }
    }
  }

  /** Full load on an overheated GPU: busy ticks and critical checks only. */
  predicate Overheated(s: State, e: Event) {
    IsCritical(s, e) || (e.Tick? && e.utilization >= UP)
  }

  /** However long an overheated GPU in balanced mode stays under load, its frequency is
      raised by 100 MHz with every tick, up to the maximum, and never lowered. */
  lemma {:induction false} OverheatedGpuRampsUp(ss: seq<State>, es: seq<Event>, i: nat, j: nat)
    requires IsRun(ss, es) && i <= j <= |es| && ss[i].mode == Balanced
    requires forall m | i <= m < j :: Overheated(ss[m], es[m])
    ensures ss[j].mode == Balanced
    ensures ss[j].current == Min(MAX_MHZ, ss[i].current + STEP_MHZ * Ticks(ss, es, i, j))
    decreases j - i
  {
    RunKeepsInv(ss, es, i);
    if i == j {
    } else {
      OverheatedGpuRampsUp(ss, es, i, j - 1);
      RunKeepsInv(ss, es, j - 1);
      assert ss[j] == Step(ss[j - 1], es[j - 1]);
    }
  }

  // ---- The device ----

  class Gpu {
    var mode: Mode
    var current: nat
    var target: nat
    var throttleTemp: int
    var criticalTemp: int
    var level: nat

    ghost function View(): State
      reads this
    {
      State(mode, current, target, throttleTemp, criticalTemp, level)
    }

    constructor ()
      ensures Initial(View())
      ensures mode == Balanced && current == target == 2000 && throttleTemp == 75 && criticalTemp == 95 && level == 0
    {
      mode, current, target := Balanced, MAX_MHZ, MAX_MHZ;
      throttleTemp, criticalTemp, level := 75, 95, 0;
    }

    method DvfsWork(utilization: nat)
      requires Inv(View())
      modifies this
      ensures View() == Step(old(View()), Tick(utilization))
      ensures Inv(View())
    {
      match mode {
        case Performance => target := MAX_MHZ;
        case Powersave => target := MIN_MHZ;
        case Balanced =>
          if utilization >= UP {
            if current < MAX_MHZ {
              target := Min(current + STEP_MHZ, MAX_MHZ);
            }
          } else if utilization <= DOWN {
            if current > MIN_MHZ {
              target := Max(current - STEP_MHZ, MIN_MHZ);
            }
          }
        case Custom =>
      }
      if target != current {
        current := target;
      }
      StepKeepsInv(old(View()), Tick(utilization));
    }

    method SetDvfsMode(m: Mode)
      requires Inv(View())
      modifies this
      ensures View() == Step(old(View()), SetMode(m))
      ensures Inv(View())
    {
      mode := m;
      match m {
        case Performance => target := MAX_MHZ;
        case Powersave => target := MIN_MHZ;
        case Balanced =>
        case Custom =>
      }
      if target != current {
        current := target;
      }
    }

    /** mvgal_set_freq_limit. */
    method SetFreqLimit(percent: nat)
      requires percent < TWO32
      modifies this`target, this`current
      ensures target == Min(old(target), Limit(percent)) && current == Min(old(current), Limit(percent))
    {
      var maxFreq;
      if percent == 0 {
        maxFreq := MAX_MHZ;
      } else {
        maxFreq := MAX_MHZ * ((TWO32 + 100 - percent) % TWO32) % TWO32 / 100;
        maxFreq := Max(maxFreq, MIN_MHZ);
      }
      target := Min(target, maxFreq);
      if current > maxFreq {
        current := maxFreq;
      }
    }

    method ThermalWork(temp: int)
      requires Inv(View()) && Enabled(View(), ThermalCheck(temp))
      modifies this
      ensures View() == Step(old(View()), ThermalCheck(temp))
      ensures Inv(View())
    {
      StepKeepsInv(View(), ThermalCheck(temp));
      if temp >= criticalTemp {
        level := 100;
      } else if temp >= throttleTemp {
        var throttle := (temp - throttleTemp) * 100 / (criticalTemp - throttleTemp);
        level := Min(throttle, 100);
        SetFreqLimit(level);
      } else {
        level := 0;
        SetFreqLimit(0);
      }
    }

    method SetThermalThresholds(throttle: int, critical: int) returns (ok: bool)
      requires Inv(View())
      modifies this
      ensures ok <==> throttle < critical
      ensures View() == Step(old(View()), SetThresholds(throttle, critical))
      ensures ok ==> throttleTemp == throttle && criticalTemp == critical
      ensures !ok ==> View() == old(View())
      ensures Inv(View())
    {
      if throttle >= critical {
        return false;
      }
      throttleTemp, criticalTemp := throttle, critical;
      ok := true;
    }
  }
}
