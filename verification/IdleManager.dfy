/**
 The daemon's idle state machine (runtime/daemon/power_manager.cpp): activity
 notifications, idle polls and thermal polls move each GPU between ACTIVE, SUSTAINED,
 IDLE and PARK.  Every entry point holds the manager's lock, so a run is a sequence of
 whole calls.  Times are in nanoseconds; the configured timeouts are 32-bit
 milliseconds whose sums are formed in 32 bits.
 */
module IdleManager {

  import opened Common

  const NS_PER_MS: nat := 1_000_000

  datatype PowerState = Active | Sustained | Idle | Park

  function Depth(s: PowerState): nat {
    match s
    case Active => 0
    case Sustained => 1
    case Idle => 2
    case Park => 3
  }

  datatype Config = Config(idleMs: nat, sustainedMs: nat, parkMs: nat, aggressive: bool,
                           thermalThreshold: nat, criticalThreshold: nat)

  datatype Info = Info(state: PowerState, lastActivity: int, enabled: bool, throttled: bool)

  datatype Manager = Manager(config: Config, gpus: seq<Info>)

  datatype Event =
    | Activity(gpu: nat, now: int)
    | Poll(now: int)                   // checkIdleTimeouts
    | Thermal(temps: seq<int>)         // checkThermalState over the latest temperatures
    | SetEnabled(gpu: nat, on: bool)
    | SetConfig(config: Config)

  predicate Initial(m: Manager) {
    forall g | 0 <= g < |m.gpus| :: m.gpus[g].state == Active && m.gpus[g].enabled && !m.gpus[g].throttled
  }

  predicate Enabled(m: Manager, e: Event) {
    e.Thermal? ==> |e.temps| == |m.gpus|
  }

  /** duration_cast to milliseconds truncates towards zero. */
  function ElapsedMs(now: int, last: int): int {
    if now >= last then (now - last) / NS_PER_MS else -((last - now) / NS_PER_MS)
  }

  /** The three timeouts, added in 32 bits. */
  function ToSustained(c: Config): nat { c.idleMs % TWO32 }
  function ToIdle(c: Config): nat { (c.idleMs + c.sustainedMs) % TWO32 }
  function ToPark(c: Config): nat { (c.idleMs + c.sustainedMs + c.parkMs) % TWO32 }

  /** The state an idle poll moves to. */
  function Decide(c: Config, state: PowerState, elapsed: int): PowerState {
    match state
    case Active => if elapsed >= ToSustained(c) then Sustained else Active
    case Sustained =>
      if elapsed >= ToIdle(c) then Idle else if elapsed < ToSustained(c) then Active else Sustained
    case Idle =>
      if elapsed >= ToPark(c) then (if c.aggressive then Park else Idle)
      else if elapsed < ToIdle(c) then Active else Idle
    case Park => if elapsed < ToPark(c) then Active else Park
  }

  function Polled(c: Config, g: Info, now: int): Info {
    if !g.enabled || g.throttled then g else g.(state := Decide(c, g.state, ElapsedMs(now, g.lastActivity)))
  }

  /** Conversion of a 32-bit unsigned value to int32_t. */
  function ToInt32(x: nat): int {
    if x % TWO32 < 0x8000_0000 then x % TWO32 else x % TWO32 - TWO32
  }

  /** A GPU throttles from the lower of the two thresholds upwards. */
  predicate TooHot(c: Config, temp: int) {
    temp >= ToInt32(c.criticalThreshold) || temp >= ToInt32(c.thermalThreshold)
  }

  function Checked(c: Config, g: Info, temp: int): Info {
    if TooHot(c, temp) then g.(throttled := true, state := Active) else g.(throttled := false)
  }

  function Woken(g: Info, now: int): Info {
    g.(lastActivity := now, state := if g.throttled then g.state else Active)
  }

  function Step(m: Manager, e: Event): Manager
    requires Enabled(m, e)
  {
    match e
    case Activity(gpu, now) =>
      if gpu < |m.gpus| then m.(gpus := m.gpus[gpu := Woken(m.gpus[gpu], now)]) else m
    case Poll(now) =>
      m.(gpus := seq(|m.gpus|, i requires 0 <= i < |m.gpus| => Polled(m.config, m.gpus[i], now)))
    case Thermal(temps) =>
      m.(gpus := seq(|m.gpus|, i requires 0 <= i < |m.gpus| => Checked(m.config, m.gpus[i], temps[i])))
    case SetEnabled(gpu, on) =>
      if gpu < |m.gpus| then m.(gpus := m.gpus[gpu := m.gpus[gpu].(enabled := on)]) else m
    case SetConfig(config) => m.(config := config)
  }

  ghost predicate IsRun(ms: seq<Manager>, es: seq<Event>) {
    && |ms| == |es| + 1
    && Initial(ms[0])
    && forall i | 0 <= i < |es| :: Enabled(ms[i], es[i]) && ms[i + 1] == Step(ms[i], es[i])
  }

  // ---- Throttled GPUs ----

  /** A thermally throttled GPU is always ACTIVE, over every run. */
  lemma {:induction false} ThrottledIsActive(ms: seq<Manager>, es: seq<Event>, k: nat)
    requires IsRun(ms, es) && k <= |es|
    ensures |ms[k].gpus| == |ms[0].gpus|
    ensures forall g | 0 <= g < |ms[k].gpus| && ms[k].gpus[g].throttled :: ms[k].gpus[g].state == Active
  {
    if k == 0 {
    } else {
      ThrottledIsActive(ms, es, k - 1);
      assert ms[k] == Step(ms[k - 1], es[k - 1]);
    }
  }

  /** The latest temperature poll among the first k events found GPU g at or above the lower
      of the two thresholds of that moment, read as signed 32-bit numbers. */
  ghost predicate LastFoundHot(ms: seq<Manager>, es: seq<Event>, k: nat, g: nat)
    requires k <= |es| < |ms| && Thresholds32Bit(ms)
  {
    if k == 0 then false
    else if es[k - 1].Thermal? && g < |es[k - 1].temps| then
      var c := ms[k - 1].config;
      es[k - 1].temps[g] >= Signed(c.thermalThreshold) || es[k - 1].temps[g] >= Signed(c.criticalThreshold)
    else LastFoundHot(ms, es, k - 1, g)
  }

  /** The number with the two's complement bits of x. */
  ghost function Signed(x: nat): (r: int)
    requires x < TWO32
    ensures -0x8000_0000 <= r < 0x8000_0000 && (r == x || r == x - TWO32)
  {
    if x < 0x8000_0000 then x else x - TWO32
  }

  /** When GPU g was last active: its latest activity event, or start-up. */
  ghost function LastActive(es: seq<Event>, k: nat, g: nat, start: int): int
    requires k <= |es|
  {
    if k == 0 then start
    else if es[k - 1].Activity? && es[k - 1].gpu == g then es[k - 1].now
    else LastActive(es, k - 1, g, start)
  }

  ghost predicate Thresholds32Bit(ms: seq<Manager>) {
    forall k | 0 <= k < |ms| :: ms[k].config.thermalThreshold < TWO32 && ms[k].config.criticalThreshold < TWO32
  }

  /** Whether GPU g was last enabled or disabled. */
  ghost predicate LastEnabled(es: seq<Event>, k: nat, g: nat)
    requires k <= |es|
  {
    if k == 0 then true
    else if es[k - 1].SetEnabled? && es[k - 1].gpu == g then es[k - 1].on
    else LastEnabled(es, k - 1, g)
  }

  ghost function LastConfig(es: seq<Event>, k: nat, start: Config): Config
    requires k <= |es|
  {
    if k == 0 then start else if es[k - 1].SetConfig? then es[k - 1].config else LastConfig(es, k - 1, start)
  }

  /** What a GPU remembers, over every run: it is throttled exactly if the latest
      temperature poll found it hot, carries the time of its latest activity, and is enabled
      and configured as it was told last. */
  lemma {:induction false} GpuFollowsEvents(ms: seq<Manager>, es: seq<Event>, k: nat, g: nat)
    requires IsRun(ms, es) && k <= |es| && g < |ms[0].gpus| && Thresholds32Bit(ms)
    ensures |ms[k].gpus| == |ms[0].gpus|
    ensures ms[k].gpus[g].throttled <==> LastFoundHot(ms, es, k, g)
    ensures ms[k].gpus[g].lastActivity == LastActive(es, k, g, ms[0].gpus[g].lastActivity)
    ensures ms[k].gpus[g].enabled <==> LastEnabled(es, k, g)
    ensures ms[k].config == LastConfig(es, k, ms[0].config)
  {
    if k == 0 {
    } else {
      GpuFollowsEvents(ms, es, k - 1, g);
      assert ms[k] == Step(ms[k - 1], es[k - 1]);
    }
  }

  // ---- Never too deep ----

  predicate SumsFit(c: Config) {
    c.idleMs + c.sustainedMs + c.parkMs < TWO32
  }

  /** The deepest state the idle time justifies, from the documented meaning of the
      three timeouts. */
  function Allowed(c: Config, elapsed: int): nat {
    if elapsed < c.idleMs then 0
    else if elapsed < c.idleMs + c.sustainedMs then 1
    else if elapsed < c.idleMs + c.sustainedMs + c.parkMs then 2
    else 3
  }

  lemma SumsAreExact(c: Config)
    requires SumsFit(c)
    ensures ToSustained(c) == c.idleMs && ToIdle(c) == c.idleMs + c.sustainedMs
    ensures ToPark(c) == c.idleMs + c.sustainedMs + c.parkMs
  {
  }

  /** An idle poll never leaves an enabled, unthrottled GPU deeper than its idle time
      allows, deepens it by at most one level, and enters PARK only with aggressive
      power-down; whatever the state before. */
  lemma PollNeverTooDeep(ms: seq<Manager>, es: seq<Event>, k: nat, g: nat)
    requires IsRun(ms, es) && k < |es| && es[k].Poll? && SumsFit(ms[k].config)
    requires g < |ms[k].gpus| && ms[k].gpus[g].enabled && !ms[k].gpus[g].throttled
    ensures |ms[k + 1].gpus| == |ms[k].gpus|
    ensures Depth(ms[k + 1].gpus[g].state) <= Allowed(ms[k].config, ElapsedMs(es[k].now, ms[k].gpus[g].lastActivity))
    ensures Depth(ms[k + 1].gpus[g].state) <= Depth(ms[k].gpus[g].state) + 1
    ensures ms[k + 1].gpus[g].state == Park && ms[k].gpus[g].state != Park ==> ms[k].config.aggressive
  {
    SumsAreExact(ms[k].config);
    assert ms[k + 1] == Step(ms[k], es[k]);
  }

  /** What an idle poll does to a GPU, exactly: nothing if it is disabled or throttled; it
      wakes up if it is deeper than its idle time allows, and otherwise goes one level
      deeper if that is allowed, to PARK only with aggressive power-down. */
  lemma PollIsExact(ms: seq<Manager>, es: seq<Event>, k: nat, g: nat)
    requires IsRun(ms, es) && k < |es| && es[k].Poll? && SumsFit(ms[k].config) && g < |ms[k].gpus|
    ensures |ms[k + 1].gpus| == |ms[k].gpus|
    ensures var i, i' := ms[k].gpus[g], ms[k + 1].gpus[g];
            var allowed := Allowed(ms[k].config, ElapsedMs(es[k].now, i.lastActivity));
            var reach := if ms[k].config.aggressive then allowed else Min(allowed, 2);
            && i' == i.(state := i'.state)
            && (!i.enabled || i.throttled ==> i' == i)
            && (i.enabled && !i.throttled ==>
                  Depth(i'.state) == if Depth(i.state) > allowed then 0
                                     else if i.state == Park then 3
                                     else Min(Depth(i.state) + 1, reach))
  {
    SumsAreExact(ms[k].config);
    assert ms[k + 1] == Step(ms[k], es[k]);
  }

  /** Elapsed time in whole milliseconds, rounded towards zero also when the clock went back. */
  lemma ElapsedIsWholeMs(now: int, last: int)
    ensures now >= last ==> ElapsedMs(now, last) * 1_000_000 <= now - last < (ElapsedMs(now, last) + 1) * 1_000_000
    ensures now < last ==> (ElapsedMs(now, last) - 1) * 1_000_000 < now - last <= ElapsedMs(now, last) * 1_000_000
  {
  }

  /** PARK is entered by nothing but an idle poll with aggressive power-down on. */
  lemma ParkOnlyWhenAggressive(ms: seq<Manager>, es: seq<Event>, k: nat, g: nat)
    requires IsRun(ms, es) && k < |es| && g < |ms[k].gpus|
    ensures |ms[k + 1].gpus| == |ms[k].gpus|
    ensures ms[k + 1].gpus[g].state == Park && ms[k].gpus[g].state != Park ==>
              es[k].Poll? && ms[k].config.aggressive
  {
    assert ms[k + 1] == Step(ms[k], es[k]);
  }

  /** The poll made by event k leaves GPU g deeper than its idle time allows. */
  ghost predicate TooDeep(ms: seq<Manager>, es: seq<Event>, k: nat, g: nat) {
    && k < |es| < |ms| && es[k].Poll? && g < |ms[k].gpus| && g < |ms[k + 1].gpus|
    && ms[k].gpus[g].enabled && !ms[k].gpus[g].throttled
    && Depth(ms[k + 1].gpus[g].state) > Allowed(ms[k].config, ElapsedMs(es[k].now, ms[k].gpus[g].lastActivity))
  }

  predicate Timed(e: Event) { e.Activity? || e.Poll? }

  /** The clock never goes back. */
  ghost predicate Steady(ms: seq<Manager>, es: seq<Event>)
    requires |ms| > 0
  {
    && (forall i, j | 0 <= i < j < |es| && Timed(es[i]) && Timed(es[j]) :: es[i].now <= es[j].now)
    && forall g, i | 0 <= g < |ms[0].gpus| && 0 <= i < |es| && Timed(es[i]) :: ms[0].gpus[g].lastActivity <= es[i].now
  }

  ghost predicate FixedConfig(es: seq<Event>) {
    forall i | 0 <= i < |es| :: !es[i].SetConfig?
  }

  /** No poll under c, in any run with a steady clock, leaves a GPU too deep. */
  ghost predicate Safe(c: Config) {
    forall ms: seq<Manager>, es: seq<Event>, k: nat, g: nat |
      IsRun(ms, es) && Steady(ms, es) && TooDeep(ms, es, k, g) :: ms[k].config != c
  }

  /** The same for runs that keep the configuration c throughout. */
  ghost predicate SafeWhenFixed(c: Config) {
    forall ms: seq<Manager>, es: seq<Event> | IsRun(ms, es) && Steady(ms, es) && FixedConfig(es) && ms[0].config == c ::
      forall k: nat, g: nat :: !TooDeep(ms, es, k, g)
  }

  /** The same again, but the clock may be set back. */
  ghost predicate SafeWithAnyClock(c: Config) {
    forall ms: seq<Manager>, es: seq<Event> | IsRun(ms, es) && FixedConfig(es) && ms[0].config == c ::
      forall k: nat, g: nat :: !TooDeep(ms, es, k, g)
  }

  predicate Is32Bit(c: Config) {
    c.idleMs < TWO32 && c.sustainedMs < TWO32 && c.parkMs < TWO32
  }

  // -- Runs of one GPU that was last active at time 0 --

  function One(c: Config, state: PowerState): Manager {
    Manager(c, [Info(state, 0, true, false)])
  }

  function PollAt(elapsed: nat): Event {
    Poll(elapsed * NS_PER_MS)
  }

  lemma ElapsedOf(x: nat)
    ensures ElapsedMs(x * NS_PER_MS, 0) == x
  {
  }

  lemma PollMoves(c: Config, state: PowerState, elapsed: nat)
    ensures Step(One(c, state), PollAt(elapsed)) == One(c, Decide(c, state, elapsed))
  {
    ElapsedOf(elapsed);
  }

  lemma Wraps(c: Config)
    requires Is32Bit(c)
    ensures ToSustained(c) == c.idleMs
    ensures var sum := c.idleMs + c.sustainedMs;
            ToIdle(c) == if sum < TWO32 then sum else sum - TWO32
    ensures !SumsFit(c) ==> ToPark(c) < c.idleMs + c.sustainedMs + c.parkMs
    ensures !SumsFit(c) && c.idleMs + c.sustainedMs < TWO32 ==> ToPark(c) < c.idleMs + c.sustainedMs
  {
  }

  /** The first wait wraps: a GPU goes idle too early. */
  lemma EarlyIdle(c: Config) returns (ms: seq<Manager>, es: seq<Event>)
    requires Is32Bit(c) && c.idleMs + c.sustainedMs >= TWO32
    ensures IsRun(ms, es) && Steady(ms, es) && FixedConfig(es) && ms[0].config == c && TooDeep(ms, es, 1, 0)
  {
    Wraps(c);
    var last := Max(c.idleMs, ToIdle(c));
    ms := [One(c, Active), One(c, Sustained), One(c, Idle)];
    es := [PollAt(c.idleMs), PollAt(last)];
    PollMoves(c, Active, c.idleMs);
    PollMoves(c, Sustained, last);
    ElapsedOf(last);
  }

  /** The second wait wraps: with aggressive power-down a GPU parks too early. */
  lemma EarlyPark(c: Config) returns (ms: seq<Manager>, es: seq<Event>)
    requires Is32Bit(c) && c.idleMs + c.sustainedMs < TWO32 && !SumsFit(c) && c.aggressive
    ensures IsRun(ms, es) && Steady(ms, es) && FixedConfig(es) && ms[0].config == c && TooDeep(ms, es, 2, 0)
  {
    Wraps(c);
    var idle := c.idleMs + c.sustainedMs;
    ms := [One(c, Active), One(c, Sustained), One(c, Idle), One(c, Park)];
    es := [PollAt(idle), PollAt(idle), PollAt(idle)];
    PollMoves(c, Active, idle);
    PollMoves(c, Sustained, idle);
    PollMoves(c, Idle, idle);
    ElapsedOf(idle);
  }

  /** Without it, a clock that is set back leaves a GPU idle although its idle time is short. */
  lemma IdleAfterSetBack(c: Config) returns (ms: seq<Manager>, es: seq<Event>)
    requires Is32Bit(c) && c.idleMs + c.sustainedMs < TWO32 && !SumsFit(c) && !c.aggressive
    ensures IsRun(ms, es) && FixedConfig(es) && ms[0].config == c && TooDeep(ms, es, 2, 0)
  {
    Wraps(c);
    var idle := c.idleMs + c.sustainedMs;
    ms := [One(c, Active), One(c, Sustained), One(c, Idle), One(c, Idle)];
    es := [PollAt(idle), PollAt(idle), PollAt(ToPark(c))];
    PollMoves(c, Active, idle);
    PollMoves(c, Sustained, idle);
    PollMoves(c, Idle, ToPark(c));
    ElapsedOf(ToPark(c));
  }

  /** A GPU parked under another configuration stays parked too long. */
  lemma ParkedTooLong(c: Config) returns (ms: seq<Manager>, es: seq<Event>)
    requires Is32Bit(c) && !SumsFit(c)
    ensures IsRun(ms, es) && Steady(ms, es) && TooDeep(ms, es, 4, 0) && ms[4].config == c
  {
    Wraps(c);
    var hasty := c.(idleMs := 0, sustainedMs := 0, parkMs := 0, aggressive := true);
    ms := [One(hasty, Active), One(hasty, Sustained), One(hasty, Idle), One(hasty, Park), One(c, Park), One(c, Park)];
    es := [PollAt(0), PollAt(0), PollAt(0), SetConfig(c), PollAt(ToPark(c))];
    PollMoves(hasty, Active, 0);
    PollMoves(hasty, Sustained, 0);
    PollMoves(hasty, Idle, 0);
    PollMoves(c, Park, ToPark(c));
    ElapsedOf(ToPark(c));
  }

  lemma FittingIsNeverTooDeep(ms: seq<Manager>, es: seq<Event>, k: nat, g: nat)
    requires IsRun(ms, es) && TooDeep(ms, es, k, g)
    ensures !SumsFit(ms[k].config)
  {
    if SumsFit(ms[k].config) {
      PollNeverTooDeep(ms, es, k, g);
    }
  }

  /** A configuration is safe in every run if and only if its timeouts can be added in 32
      bits: when the sum wraps, a GPU that was parked before stays parked too long. */
  lemma SafeIffSumsFit(c: Config)
    requires Is32Bit(c)
    ensures Safe(c) <==> SumsFit(c)
  {
    if SumsFit(c) {
      forall ms: seq<Manager>, es: seq<Event>, k: nat, g: nat |
        IsRun(ms, es) && Steady(ms, es) && TooDeep(ms, es, k, g)
        ensures ms[k].config != c
      {
        FittingIsNeverTooDeep(ms, es, k, g);
      }
    } else {
      var ms, es := ParkedTooLong(c);
    }
  }

  lemma {:induction false} ConfigStays(ms: seq<Manager>, es: seq<Event>, k: nat)
    requires IsRun(ms, es) && FixedConfig(es) && k <= |es|
    ensures ms[k].config == ms[0].config
  {
    if k == 0 {
    } else {
      ConfigStays(ms, es, k - 1);
    }
  }

  lemma ElapsedGrows(now: int, later: int, last: int)
    requires now <= later
    ensures ElapsedMs(now, last) <= ElapsedMs(later, last)
  {
    if now >= last {
      DivLe(now - last, later - last, NS_PER_MS);
    } else if later < last {
      DivLe(last - later, last - now, NS_PER_MS);
    }
  }

  /** From event k on, the clock readings find GPU g idle for at least `ms` milliseconds. */
  ghost predicate IdleFor(m: Manager, es: seq<Event>, k: nat, g: nat, ms: nat)
    requires g < |m.gpus|
  {
    forall j | k <= j < |es| && Timed(es[j]) :: ElapsedMs(es[j].now, m.gpus[g].lastActivity) >= ms
  }

  /** With a steady clock and no aggressive power-down, a GPU is never parked, and it is idle
      only while its idle time is long enough. */
  lemma {:induction false} IdleMeansIdle(ms: seq<Manager>, es: seq<Event>, k: nat, g: nat)
    requires IsRun(ms, es) && Steady(ms, es) && FixedConfig(es) && k <= |es| && g < |ms[0].gpus|
    requires var c := ms[0].config; Is32Bit(c) && c.idleMs + c.sustainedMs < TWO32 && !c.aggressive
    ensures |ms[k].gpus| == |ms[0].gpus| && ms[k].gpus[g].state != Park
    ensures ms[k].gpus[g].state == Idle ==> IdleFor(ms[k], es, k, g, ms[0].config.idleMs + ms[0].config.sustainedMs)
  {
    ThrottledIsActive(ms, es, k);
    if k == 0 {
    } else {
      IdleMeansIdle(ms, es, k - 1, g);
      ThrottledIsActive(ms, es, k - 1);
      ConfigStays(ms, es, k - 1);
      IdleMeansIdleStep(ms, es, k - 1, g);
    }
  }

  lemma IdleMeansIdleStep(ms: seq<Manager>, es: seq<Event>, k: nat, g: nat)
    requires IsRun(ms, es) && Steady(ms, es) && FixedConfig(es) && k < |es| && g < |ms[k].gpus| == |ms[k + 1].gpus|
    requires var c := ms[k].config; Is32Bit(c) && c.idleMs + c.sustainedMs < TWO32 && !c.aggressive
    requires ms[k].gpus[g].state != Park && (ms[k].gpus[g].throttled ==> ms[k].gpus[g].state == Active)
    requires ms[k].gpus[g].state == Idle ==> IdleFor(ms[k], es, k, g, ms[k].config.idleMs + ms[k].config.sustainedMs)
    ensures ms[k + 1].gpus[g].state != Park
    ensures ms[k + 1].gpus[g].state == Idle ==>
              IdleFor(ms[k + 1], es, k + 1, g, ms[k].config.idleMs + ms[k].config.sustainedMs)
  {
    Wraps(ms[k].config);
    var m, e, m' := ms[k], es[k], ms[k + 1];
    assert m' == Step(m, e);
    if m'.gpus[g].state == Idle && m.gpus[g].state != Idle {
      assert e.Poll? && m.gpus[g].state == Sustained;
      forall j | k + 1 <= j < |es| && Timed(es[j])
        ensures ElapsedMs(es[j].now, m'.gpus[g].lastActivity) >= m.config.idleMs + m.config.sustainedMs
      {
        ElapsedGrows(e.now, es[j].now, m.gpus[g].lastActivity);
      }
    }
  }

  lemma CautiousIsNeverTooDeep(ms: seq<Manager>, es: seq<Event>, k: nat, g: nat)
    requires IsRun(ms, es) && Steady(ms, es) && FixedConfig(es)
    requires var c := ms[0].config; Is32Bit(c) && c.idleMs + c.sustainedMs < TWO32 && !c.aggressive
    ensures !TooDeep(ms, es, k, g)
  {
    if TooDeep(ms, es, k, g) {
      ThrottledIsActive(ms, es, k);
      ConfigStays(ms, es, k);
      IdleMeansIdle(ms, es, k, g);
      Wraps(ms[k].config);
    }
  }

  /** While the configuration stays the same and the clock is steady, less is needed: the
      first two timeouts must fit, and all three only with aggressive power-down. */
  lemma SafeWhenFixedIff(c: Config)
    requires Is32Bit(c)
    ensures SafeWhenFixed(c) <==> c.idleMs + c.sustainedMs < TWO32 && (c.aggressive ==> SumsFit(c))
  {
    if c.idleMs + c.sustainedMs >= TWO32 {
      var ms, es := EarlyIdle(c);
    } else if c.aggressive && !SumsFit(c) {
      var ms, es := EarlyPark(c);
    } else {
      forall ms: seq<Manager>, es: seq<Event>, k: nat, g: nat |
        IsRun(ms, es) && Steady(ms, es) && FixedConfig(es) && ms[0].config == c
        ensures !TooDeep(ms, es, k, g)
      {
        if TooDeep(ms, es, k, g) {
          ConfigStays(ms, es, k);
          FittingIsNeverTooDeep(ms, es, k, g);
          CautiousIsNeverTooDeep(ms, es, k, g);
        }
      }
    }
  }

  /** With a clock that may be set back, all three must fit again. */
  lemma SafeWithAnyClockIff(c: Config)
    requires Is32Bit(c)
    ensures SafeWithAnyClock(c) <==> SumsFit(c)
  {
    if SumsFit(c) {
      forall ms: seq<Manager>, es: seq<Event>, k: nat, g: nat | IsRun(ms, es) && FixedConfig(es) && ms[0].config == c
        ensures !TooDeep(ms, es, k, g)
      {
        if TooDeep(ms, es, k, g) {
          ConfigStays(ms, es, k);
          FittingIsNeverTooDeep(ms, es, k, g);
        }
      }
    } else if c.idleMs + c.sustainedMs >= TWO32 {
      var ms, es := EarlyIdle(c);
    } else if c.aggressive {
      var ms, es := EarlyPark(c);
    } else {
      var ms, es := IdleAfterSetBack(c);
    }
  }

  // ---- Quiet GPUs sink ----

  /** Nothing in the event touches GPU g except idle polls past its full timeout. */
  predicate Quiet(m: Manager, e: Event, g: nat)
    requires Enabled(m, e) && g < |m.gpus|
  {
    match e
    case Activity(gpu, _) => gpu != g
    case Poll(now) => ElapsedMs(now, m.gpus[g].lastActivity) >= ToPark(m.config)
    case Thermal(temps) => !TooHot(m.config, temps[g])
    case SetEnabled(gpu, _) => gpu != g
    case SetConfig(_) => false
  }

  ghost function Polls(es: seq<Event>, i: nat, j: nat): nat
    requires i <= j <= |es|
    decreases j - i
  {
    if i == j then 0 else Polls(es, i, j - 1) + if es[j - 1].Poll? then 1 else 0
  }

  /** The state a GPU that starts at `depth` sinks to after n quiet polls. */
  function Sunk(depth: nat, n: nat, aggressive: bool): nat {
    var floor := if aggressive || depth == 3 then 3 else 2;
    if depth + n < floor then depth + n else floor
  }

  lemma QuietStepSinks(m: Manager, e: Event, g: nat)
    requires Enabled(m, e) && g < |m.gpus| && Quiet(m, e, g) && SumsFit(m.config)
    requires m.gpus[g].enabled && !m.gpus[g].throttled
    ensures var m' := Step(m, e);
            && |m'.gpus| == |m.gpus| && m'.config == m.config
            && m'.gpus[g] == m.gpus[g].(state := m'.gpus[g].state)
            && Depth(m'.gpus[g].state)
               == Sunk(Depth(m.gpus[g].state), if e.Poll? then 1 else 0, m.config.aggressive)
  {
    SumsAreExact(m.config);
  }

  /** A quiet GPU sinks one level per poll, down to PARK with aggressive power-down and
      to IDLE without (unless it is already parked); other events in between, on other
      GPUs or harmless thermal polls, change nothing. */
  lemma {:induction false} QuietGpuSinks(ms: seq<Manager>, es: seq<Event>, i: nat, j: nat, g: nat)
    requires IsRun(ms, es) && i <= j <= |es| && g < |ms[i].gpus| && SumsFit(ms[i].config)
    requires ms[i].gpus[g].enabled && !ms[i].gpus[g].throttled
    requires forall k | i <= k < j :: g < |ms[k].gpus| && Quiet(ms[k], es[k], g)
    ensures |ms[j].gpus| == |ms[i].gpus| && ms[j].config == ms[i].config
    ensures ms[j].gpus[g].lastActivity == ms[i].gpus[g].lastActivity
    ensures ms[j].gpus[g].enabled && !ms[j].gpus[g].throttled
    ensures Depth(ms[j].gpus[g].state) == Sunk(Depth(ms[i].gpus[g].state), Polls(es, i, j), ms[i].config.aggressive)
    decreases j - i
  {
    if i == j {
    } else {
      QuietGpuSinks(ms, es, i, j - 1, g);
      QuietStepSinks(ms[j - 1], es[j - 1], g);
    }
  }

  /** Three quiet polls past the full timeout reach PARK (aggressive power-down on), or
      leave a GPU that was not parked IDLE (off). */
  lemma ThreeQuietPolls(ms: seq<Manager>, es: seq<Event>, i: nat, j: nat, g: nat)
    requires IsRun(ms, es) && i <= j <= |es| && g < |ms[i].gpus| && SumsFit(ms[i].config)
    requires ms[i].gpus[g].enabled && !ms[i].gpus[g].throttled
    requires forall k | i <= k < j :: g < |ms[k].gpus| && Quiet(ms[k], es[k], g)
    requires Polls(es, i, j) >= 3
    ensures g < |ms[j].gpus|
    ensures ms[i].config.aggressive ==> ms[j].gpus[g].state == Park
    ensures !ms[i].config.aggressive && ms[i].gpus[g].state != Park ==> ms[j].gpus[g].state == Idle
  {
    QuietGpuSinks(ms, es, i, j, g);
  }

  /** Activity wakes an unthrottled GPU at once. */
  lemma ActivityWakes(ms: seq<Manager>, es: seq<Event>, k: nat)
    requires IsRun(ms, es) && k < |es| && es[k].Activity? && es[k].gpu < |ms[k].gpus|
    ensures |ms[k + 1].gpus| == |ms[k].gpus|
    ensures ms[k + 1].gpus[es[k].gpu].state == Active
    ensures forall g | 0 <= g < |ms[k].gpus| && g != es[k].gpu :: ms[k + 1].gpus[g] == ms[k].gpus[g]
  {
    ThrottledIsActive(ms, es, k);
    assert ms[k + 1] == Step(ms[k], es[k]);
  }

  // ---- The manager itself ----

  class PowerManager {
    var config: Config
    var gpus: seq<Info>

    ghost function View(): Manager
      reads this
    {
      Manager(config, gpus)
    }

    constructor (config: Config, count: nat, now: int)
      ensures Initial(View()) && |gpus| == count && this.config == config
    {
      this.config := config;
      gpus := seq(count, _ => Info(Active, now, true, false));
    }

    method Transition(gpu: nat, state: PowerState)
      requires gpu < |gpus|
      modifies this`gpus
      ensures gpus == old(gpus)[gpu := old(gpus)[gpu].(state := state)]
    {
      if gpus[gpu].state == state {
        return;
      }
      gpus := gpus[gpu := gpus[gpu].(state := state)];
    }

    method NotifyActivity(gpu: nat, now: int)
      modifies this`gpus
      ensures View() == Step(old(View()), Activity(gpu, now))
    {
      if gpu >= |gpus| {
        return;
      }
      gpus := gpus[gpu := gpus[gpu].(lastActivity := now)];
      if gpus[gpu].state != Active && !gpus[gpu].throttled {
        Transition(gpu, Active);
      }
    }

    method CheckIdleTimeouts(now: int)
      modifies this`gpus
      ensures View() == Step(old(View()), Poll(now))
    {
      for i := 0 to |gpus|
        invariant |gpus| == |old(gpus)|
        invariant forall j | 0 <= j < |gpus| ::
                    gpus[j] == if j < i then Polled(config, old(gpus)[j], now) else old(gpus)[j]
      {
        if gpus[i].enabled && !gpus[i].throttled {
          var elapsed := ElapsedMs(now, gpus[i].lastActivity);
          var newState := gpus[i].state;
          match gpus[i].state {
            case Active =>
              if elapsed >= ToSustained(config) { newState := Sustained; }
            case Sustained =>
              if elapsed >= ToIdle(config) {
                newState := Idle;
              } else if elapsed < ToSustained(config) {
                newState := Active;
              }
            case Idle =>
              if elapsed >= ToPark(config) {
                if config.aggressive { newState := Park; }
              } else if elapsed < ToIdle(config) {
                newState := Active;
              }
            case Park =>
              if elapsed < ToPark(config) { newState := Active; }
          }
          if newState != gpus[i].state {
            Transition(i, newState);
          }
        }
      }
    }

    method CheckThermalState(temps: seq<int>)
      requires |temps| == |gpus|
      modifies this`gpus
      ensures View() == Step(old(View()), Thermal(temps))
    {
      for i := 0 to |gpus|
        invariant |gpus| == |old(gpus)|
        invariant forall j | 0 <= j < |gpus| ::
                    gpus[j] == if j < i then Checked(config, old(gpus)[j], temps[j]) else old(gpus)[j]
      {
        var hot := false;
        if temps[i] >= ToInt32(config.criticalThreshold) {
          hot := true;
        } else if temps[i] >= ToInt32(config.thermalThreshold) {
          hot := true;
        }
        gpus := gpus[i := gpus[i].(throttled := hot)];
        if hot && gpus[i].state != Active {
          Transition(i, Active);
        }
      }
    }
  }
}
