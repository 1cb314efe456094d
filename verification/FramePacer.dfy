/**
 The frame pacer (steam/mvgal_frame_pacer.c): any number of submitting threads and one
 pacer thread share a ring of eight frames under a lock.

 A step is a critical section, the unlocked test of `running`, a clock reading, or a
 move of the environment (time passing, a spurious wake-up).  The clock is monotone
 and times do not overflow 64 bits.
 */
module FramePacer {

  const DEPTH: nat := 8
  const DEFAULT_HZ: nat := 60
  const SECOND_NS: nat := 1_000_000_000

  datatype Frame = Frame(id: nat, ready: nat, target: nat, gpu: nat)

  /** Where the pacer thread is. */
  datatype Pc =
    | Top                            // about to test `running`
    | AtLock                         // about to take the lock
    | Asleep                         // in pthread_cond_wait
    | Woken
    | InFlight(f: Frame)             // frame dequeued, about to sleep until its target
    | Napping(f: Frame, since: nat, sec: nat, nsec: nat)   // in nanosleep
    | Awake(f: Frame)                // about to read the presentation time
    | Publishing(f: Frame, at: nat)  // presentation time read, statistics not yet updated
    | Exited

  datatype Shown = Shown(f: Frame, at: nat)

  /** `accepted`, `shown` and `submissions` record what has happened so far. */
  datatype State = State(
    ring: seq<Frame>, head: nat, tail: nat, count: nat,
    interval: nat, lastPresent: nat, running: bool,
    paced: nat, dropped: nat, jitter: nat,
    clock: nat, pc: Pc,
    accepted: seq<Frame>, shown: seq<Shown>, submissions: nat)

  datatype Event =
    | Advance(ns: nat)
    | Submit(id: nat, gpu: nat)
    | SetHz(hz: nat)
    | Destroy
    | TestRunning
    | TakeNext                       // the pacer's first critical section
    | SpuriousWake
    | StartSleep                     // sleep_until_ns reads the clock
    | EndSleep(full: bool)           // nanosleep returns; `full` unless interrupted
    | Present                        // the presentation time is read
    | Publish                        // the pacer's second critical section

  function Interval(hz: nat): nat
    requires hz > 0
  {
    SECOND_NS / hz
  }

  predicate Initial(s: State) {
    && |s.ring| == DEPTH && s.head == 0 && s.tail == 0 && s.count == 0
    && s.lastPresent == 0 && s.running
    && s.paced == 0 && s.dropped == 0 && s.jitter == 0
    && s.pc == Top
    && s.accepted == [] && s.shown == [] && s.submissions == 0
  }

  predicate Enabled(s: State, e: Event) {
    && |s.ring| == DEPTH && s.head < DEPTH && s.tail < DEPTH
    && match e
       case TestRunning => s.pc == Top
       case TakeNext => s.pc == AtLock || s.pc == Woken
       case SpuriousWake => s.pc == Asleep
       case StartSleep => s.pc.InFlight?
       case EndSleep(full) =>
         s.pc.Napping? && (full ==> s.clock >= s.pc.since + s.pc.sec * SECOND_NS + s.pc.nsec)
       case Present => s.pc.Awake?
       case Publish => s.pc.Publishing?
       case _ => true
  }

  /** The vsync boundary a frame that becomes ready at `now` is aimed at. */
  function Target(lastPresent: nat, interval: nat, now: nat): nat {
    var last := if lastPresent != 0 then lastPresent else now;
    if last + interval < now then now + interval else last + interval
  }

  /** sleep_until_ns at time `now`: nothing if the target has passed, otherwise a relative
      sleep split into seconds and nanoseconds. */
  function SleepUntil(f: Frame, now: nat): Pc {
    if now >= f.target then Awake(f)
    else
      var delta := f.target - now;
      Napping(f, now, delta / SECOND_NS, delta % SECOND_NS)
  }

  function Distance(a: nat, b: nat): (d: nat)
    ensures d == a - b || d == b - a
  {
    if a < b then b - a else a - b
  }

  /** pthread_cond_signal: only the pacer ever waits. */
  function Signaled(pc: Pc): Pc {
    if pc == Asleep then Woken else pc
  }

  function Step(s: State, e: Event): State
    requires Enabled(s, e)
  {
    match e
    case Advance(ns) => s.(clock := s.clock + ns)
    case Submit(id, gpu) =>
      if s.count >= DEPTH then s.(dropped := s.dropped + 1, submissions := s.submissions + 1)
      else
        var f := Frame(id, s.clock, Target(s.lastPresent, s.interval, s.clock), gpu);
        s.(ring := s.ring[s.head := f], head := (s.head + 1) % DEPTH, count := s.count + 1,
           pc := Signaled(s.pc), accepted := s.accepted + [f], submissions := s.submissions + 1)
    case SetHz(hz) => if hz == 0 then s else s.(interval := Interval(hz))
    case Destroy => s.(running := false, pc := Signaled(s.pc))
    case TestRunning => s.(pc := if s.running then AtLock else Exited)
    case TakeNext =>
      if !s.running then s.(pc := Exited)
      else if s.count == 0 then s.(pc := Asleep)
      else s.(pc := InFlight(s.ring[s.tail]), tail := (s.tail + 1) % DEPTH, count := s.count - 1)
    case SpuriousWake => s.(pc := Woken)
    case StartSleep => s.(pc := SleepUntil(s.pc.f, s.clock))
    case EndSleep(_) => s.(pc := Awake(s.pc.f))
    case Present => s.(pc := Publishing(s.pc.f, s.clock))
    case Publish =>
      s.(paced := s.paced + 1, jitter := s.jitter + Distance(s.pc.at, s.pc.f.target),
         lastPresent := s.pc.at, shown := s.shown + [Shown(s.pc.f, s.pc.at)], pc := Top)
  }

  ghost predicate IsRun(ss: seq<State>, es: seq<Event>) {
    && |ss| == |es| + 1
    && Initial(ss[0])
    && forall i | 0 <= i < |es| :: Enabled(ss[i], es[i]) && ss[i + 1] == Step(ss[i], es[i])
  }

  // ---- The ring as a queue ----

  /** The frames in the ring, oldest first. */
  function Queue(s: State): seq<Frame>
    requires |s.ring| == DEPTH
  {
    seq(s.count, i requires 0 <= i < s.count => s.ring[(s.tail + i) % DEPTH])
  }

  /** The frame the pacer thread holds, if any. */
  function Held(pc: Pc): seq<Frame> {
    if pc.InFlight? || pc.Napping? || pc.Awake? || pc.Publishing? then [pc.f] else []
  }

  function Frames(shown: seq<Shown>): seq<Frame> {
    seq(|shown|, i requires 0 <= i < |shown| => shown[i].f)
  }

  predicate RingInv(s: State) {
    && |s.ring| == DEPTH && s.tail < DEPTH && s.count <= DEPTH
    && s.head == (s.tail + s.count) % DEPTH
  }

  /** Slots less than a full turn apart are different. */
  lemma SlotsDiffer(tail: nat, i: nat, j: nat)
    requires tail < DEPTH && i < j < DEPTH
    ensures (tail + i) % DEPTH != (tail + j) % DEPTH
  {
  }

  lemma NextSlot(tail: nat, i: nat)
    requires tail < DEPTH && i < DEPTH
    ensures ((tail + 1) % DEPTH + i) % DEPTH == (tail + (i + 1)) % DEPTH
    ensures ((tail + i) % DEPTH + 1) % DEPTH == (tail + (i + 1)) % DEPTH
  {
  }

  lemma PutAppends(s: State, f: Frame)
    requires RingInv(s) && s.count < DEPTH
    ensures var s' := s.(ring := s.ring[s.head := f], head := (s.head + 1) % DEPTH, count := s.count + 1);
            RingInv(s') && Queue(s') == Queue(s) + [f]
  {
    var s' := s.(ring := s.ring[s.head := f], head := (s.head + 1) % DEPTH, count := s.count + 1);
    NextSlot(s.tail, s.count);
    forall i | 0 <= i < s.count ensures Queue(s')[i] == Queue(s)[i] {
      SlotsDiffer(s.tail, i, s.count);
    }
  }

  function WithoutOldest(s: State): State
    requires s.count > 0
  {
    s.(tail := (s.tail + 1) % DEPTH, count := s.count - 1)
  }

  lemma TakeKeepsRing(s: State)
    requires RingInv(s) && s.count > 0
    ensures RingInv(WithoutOldest(s))
  {
    NextSlot(s.tail, s.count - 1);
  }

  lemma TakeRemovesOldest(s: State)
    requires RingInv(s) && s.count > 0
    ensures Queue(s) == [s.ring[s.tail]] + Queue(WithoutOldest(s))
  {
    var s' := WithoutOldest(s);
    assert Queue(s)[0] == s.ring[s.tail];
    forall i | 0 <= i < s'.count ensures Queue(s')[i] == Queue(s)[i + 1] {
      NextSlot(s.tail, i);
    }
  }

  // ---- Invariant: nothing is lost, duplicated or reordered ----

  predicate QueueInv(s: State) {
    && RingInv(s)
    && s.accepted == Frames(s.shown) + Held(s.pc) + Queue(s)
    && s.submissions == s.dropped + |s.accepted|
    && s.paced == |s.shown|
    && (s.pc == Asleep ==> s.count == 0 && s.running)
  }

  lemma SubmitKeepsQueueInv(s: State, e: Event)
    requires QueueInv(s) && e.Submit? && Enabled(s, e)
    ensures QueueInv(Step(s, e))
  {
    if s.count < DEPTH {
      var f := Frame(e.id, s.clock, Target(s.lastPresent, s.interval, s.clock), e.gpu);
      PutAppends(s, f);
      assert Queue(Step(s, e)) == Queue(s) + [f];
      assert Held(Signaled(s.pc)) == Held(s.pc);
    }
  }

  lemma TakeKeepsQueueInv(s: State, e: Event)
    requires QueueInv(s) && e.TakeNext? && Enabled(s, e)
    ensures QueueInv(Step(s, e))
  {
    if s.running && s.count > 0 {
      TakeKeepsRing(s);
      TakeRemovesOldest(s);
      var s' := Step(s, e);
      assert Queue(s') == Queue(WithoutOldest(s));
      assert Queue(s) == Held(s'.pc) + Queue(s');
    }
  }

  lemma PublishKeepsQueueInv(s: State, e: Event)
    requires QueueInv(s) && e.Publish? && Enabled(s, e)
    ensures QueueInv(Step(s, e))
  {
    assert Frames(Step(s, e).shown) == Frames(s.shown) + Held(s.pc);
  }

  lemma StepKeepsQueueInv(s: State, e: Event)
    requires QueueInv(s) && Enabled(s, e)
    ensures QueueInv(Step(s, e))
  {
    match e
    case Submit(_, _) => SubmitKeepsQueueInv(s, e);
    case TakeNext => TakeKeepsQueueInv(s, e);
    case Publish => PublishKeepsQueueInv(s, e);
    case _ =>
      var s' := Step(s, e);
      assert Queue(s') == Queue(s) && Held(s'.pc) == Held(s.pc);
  }

  lemma {:induction false} RunKeepsQueueInv(ss: seq<State>, es: seq<Event>, k: nat)
    requires IsRun(ss, es) && k <= |es|
    ensures QueueInv(ss[k])
  {
    if k == 0 {
    } else {
      RunKeepsQueueInv(ss, es, k - 1);
      StepKeepsQueueInv(ss[k - 1], es[k - 1]);
    }
  }

  /** The pacer is a bounded FIFO under every interleaving: what was accepted is what was
      shown, then the frame in flight, then the ring, in submission order; every
      submission is dropped, shown, in flight or queued; head trails tail by the count. */
  lemma PacerIsFifo(ss: seq<State>, es: seq<Event>, k: nat)
    requires IsRun(ss, es) && k <= |es|
    ensures |ss[k].ring| == DEPTH && ss[k].head == (ss[k].tail + ss[k].count) % DEPTH
    ensures ss[k].accepted == Frames(ss[k].shown) + Held(ss[k].pc) + Queue(ss[k])
    ensures Frames(ss[k].shown) <= ss[k].accepted
    ensures ss[k].submissions == ss[k].dropped + ss[k].paced + |Held(ss[k].pc)| + ss[k].count
    ensures |Held(ss[k].pc)| <= 1 && ss[k].count <= DEPTH
  {
    RunKeepsQueueInv(ss, es, k);
  }

  /** No lost wake-up: a sleeping pacer means an empty ring and no shutdown request. */
  lemma SleepingMeansIdle(ss: seq<State>, es: seq<Event>, k: nat)
    requires IsRun(ss, es) && k <= |es| && ss[k].pc == Asleep
    ensures ss[k].count == 0 && ss[k].running
  {
    RunKeepsQueueInv(ss, es, k);
  }

  // ---- Timing ----

  ghost predicate Increasing(shown: seq<Shown>) {
    forall i, j | 0 <= i < j < |shown| :: shown[i].at <= shown[j].at
  }

  ghost predicate ClockInv(s: State) {
    && s.lastPresent <= s.clock
    && (s.pc.Publishing? ==> s.lastPresent <= s.pc.at <= s.clock)
    && Increasing(s.shown)
    && (forall i | 0 <= i < |s.shown| :: s.shown[i].at <= s.lastPresent)
    && s.jitter == TotalJitter(s.shown)
  }

  function TotalJitter(shown: seq<Shown>): nat {
    if shown == [] then 0
    else
      var last := shown[|shown| - 1];
      TotalJitter(shown[..|shown| - 1]) + Distance(last.at, last.f.target)
  }

  lemma StepKeepsClockInv(s: State, e: Event)
    requires ClockInv(s) && Enabled(s, e)
    ensures ClockInv(Step(s, e))
  {
    if e.Publish? {
      var shown := Step(s, e).shown;
      assert shown[..|shown| - 1] == s.shown;
    }
  }

  lemma {:induction false} RunKeepsClockInv(ss: seq<State>, es: seq<Event>, k: nat)
    requires IsRun(ss, es) && k <= |es|
    ensures ClockInv(ss[k])
  {
    if k == 0 {
    } else {
      RunKeepsClockInv(ss, es, k - 1);
      StepKeepsClockInv(ss[k - 1], es[k - 1]);
    }
  }

  /** Presentation times never go backwards or beyond the clock, and the accumulated
      jitter is the sum over the shown frames of their distance to their targets. */
  lemma PresentationTimes(ss: seq<State>, es: seq<Event>, k: nat)
    requires IsRun(ss, es) && k <= |es|
    ensures ss[k].lastPresent <= ss[k].clock
    ensures forall i, j | 0 <= i < j < |ss[k].shown| :: ss[k].shown[i].at <= ss[k].shown[j].at
    ensures ss[k].jitter == TotalJitter(ss[k].shown)
  {
    RunKeepsClockInv(ss, es, k);
  }

  /** The last presentation is that of the frame shown last. */
  lemma {:induction false} LastPresentIsLastShown(ss: seq<State>, es: seq<Event>, k: nat)
    requires IsRun(ss, es) && k <= |es|
    ensures ss[k].lastPresent == if ss[k].shown == [] then 0 else ss[k].shown[|ss[k].shown| - 1].at
  {
    if k == 0 {
    } else {
      LastPresentIsLastShown(ss, es, k - 1);
      assert ss[k] == Step(ss[k - 1], es[k - 1]);
    }
  }

  /** The exact target of an accepted frame: one interval after the last presentation, if
      there has been one (not at time 0) and the frame is ready by then; otherwise one
      interval after the frame is ready. */
  lemma TargetIsExact(ss: seq<State>, es: seq<Event>, k: nat)
    requires IsRun(ss, es) && k < |es| && es[k].Submit? && ss[k].count < DEPTH
    ensures |ss[k + 1].accepted| == |ss[k].accepted| + 1
    ensures var f, shown := ss[k + 1].accepted[|ss[k].accepted|], ss[k].shown;
            var last := if shown == [] then 0 else shown[|shown| - 1].at;
            f.target == if last > 0 && f.ready <= last + ss[k].interval
                        then last + ss[k].interval else f.ready + ss[k].interval
  {
    LastPresentIsLastShown(ss, es, k);
    assert ss[k + 1] == Step(ss[k], es[k]);
  }

  /** The refresh rate set last among the first k events, or the initial one. */
  ghost function LastHz(es: seq<Event>, k: nat, initial: nat): nat
    requires k <= |es|
  {
    if k == 0 then initial
    else if es[k - 1].SetHz? && es[k - 1].hz != 0 then es[k - 1].hz
    else LastHz(es, k - 1, initial)
  }

  /** The interval is always the whole nanoseconds of one period of the rate set last. */
  lemma {:induction false} IntervalIsOnePeriod(ss: seq<State>, es: seq<Event>, k: nat, initial: nat)
    requires IsRun(ss, es) && k <= |es| && initial > 0 && ss[0].interval == Interval(initial)
    ensures var hz := LastHz(es, k, initial);
            hz > 0 && ss[k].interval * hz <= 1_000_000_000 < (ss[k].interval + 1) * hz
  {
    if k == 0 {
      OnePeriod(initial);
    } else {
      IntervalIsOnePeriod(ss, es, k - 1, initial);
      assert ss[k] == Step(ss[k - 1], es[k - 1]);
      if es[k - 1].SetHz? && es[k - 1].hz != 0 {
        OnePeriod(es[k - 1].hz);
      }
    }
  }

  lemma OnePeriod(hz: nat)
    requires hz > 0
    ensures Interval(hz) * hz <= 1_000_000_000 < (Interval(hz) + 1) * hz
  {
  }

  /** Once destroyed, the pacer takes no frame out of the ring: at most the frame it holds
      is still shown. */
  lemma {:induction false} NothingTakenAfterDestroy(ss: seq<State>, es: seq<Event>, i: nat, k: nat)
    requires IsRun(ss, es) && i < k <= |es| && es[i].Destroy?
    ensures !ss[k].running && ss[k].pc != Asleep
    ensures |ss[k].shown| + |Held(ss[k].pc)| == |ss[i].shown| + |Held(ss[i].pc)|
    ensures es[k - 1].TestRunning? || es[k - 1].TakeNext? ==> ss[k].pc == Exited
    decreases k - i
  {
    assert ss[k] == Step(ss[k - 1], es[k - 1]);
    if k == i + 1 {
    } else {
      NothingTakenAfterDestroy(ss, es, i, k - 1);
    }
  }

  /** A frame is aimed at a moment between its ready time and one refresh interval
      later, whatever refresh changes came before. */
  lemma TargetWithinOneInterval(ss: seq<State>, es: seq<Event>, k: nat)
    requires IsRun(ss, es) && k < |es| && es[k].Submit? && ss[k].count < DEPTH
    ensures |ss[k + 1].accepted| == |ss[k].accepted| + 1
    ensures var f := ss[k + 1].accepted[|ss[k].accepted|];
            && f.id == es[k].id && f.gpu == es[k].gpu
            && f.ready == ss[k].clock
            && f.ready <= f.target <= f.ready + ss[k].interval
  {
    RunKeepsClockInv(ss, es, k);
    assert ss[k + 1] == Step(ss[k], es[k]);
  }

  /** A relative sleep asks for a valid timespec that ends exactly at the target. */
  predicate NapIsExact(s: State) {
    s.pc.Napping? ==>
      && s.pc.since <= s.clock && s.pc.nsec < SECOND_NS
      && s.pc.since + s.pc.sec * SECOND_NS + s.pc.nsec == s.pc.f.target
  }

  /** Over every run, interrupted sleeps included. */
  lemma {:induction false} NapsEndAtTarget(ss: seq<State>, es: seq<Event>, k: nat)
    requires IsRun(ss, es) && k <= |es|
    ensures NapIsExact(ss[k])
  {
    if k == 0 {
    } else {
      NapsEndAtTarget(ss, es, k - 1);
      assert ss[k] == Step(ss[k - 1], es[k - 1]);
    }
  }

  ghost predicate NotEarly(s: State) {
    && (s.pc.Awake? ==> s.clock >= s.pc.f.target)
    && (s.pc.Publishing? ==> s.pc.at >= s.pc.f.target)
    && forall i | 0 <= i < |s.shown| :: s.shown[i].at >= s.shown[i].f.target
  }

  /** If no sleep is cut short, no frame is shown before its target. */
  lemma {:induction false} FullSleepsNeverEarly(ss: seq<State>, es: seq<Event>, k: nat)
    requires IsRun(ss, es) && k <= |es|
    requires forall i | 0 <= i < |es| && es[i].EndSleep? :: es[i].full
    ensures NotEarly(ss[k])
  {
    if k == 0 {
    } else {
      FullSleepsNeverEarly(ss, es, k - 1);
      NapsEndAtTarget(ss, es, k - 1);
      assert ss[k] == Step(ss[k - 1], es[k - 1]);
    }
  }

  /** The frame that event k presents. */
  predicate Presents(ss: seq<State>, es: seq<Event>, k: nat)
    requires |ss| == |es| + 1 && k < |es|
  {
    es[k].Present? && ss[k].pc.Awake? && ss[k + 1].pc.Publishing?
  }

  /** The time that passes during the events from i to j. */
  function Elapsed(es: seq<Event>, i: nat, j: nat): nat
    requires i <= j <= |es|
    decreases j - i
  {
    if i == j then 0 else Elapsed(es, i, j - 1) + if es[j - 1].Advance? then es[j - 1].ns else 0
  }

  lemma {:induction false} ClockAdds(ss: seq<State>, es: seq<Event>, i: nat, j: nat)
    requires IsRun(ss, es) && i <= j <= |es|
    ensures ss[j].clock == ss[i].clock + Elapsed(es, i, j)
    decreases j - i
  {
    if i == j {
    } else {
      ClockAdds(ss, es, i, j - 1);
      assert ss[j] == Step(ss[j - 1], es[j - 1]);
    }
  }

  /** Between a presentation and the start of its sleep, the pacer naps, then is awake. */
  lemma {:induction false} SleptBefore(ss: seq<State>, es: seq<Event>, i: nat, k: nat)
    requires IsRun(ss, es) && i <= k <= |es| && (ss[k].pc.Awake? || ss[k].pc.Napping?)
    requires forall m | i <= m < k :: !es[m].StartSleep?
    ensures ss[i].pc == ss[k].pc || (ss[i].pc.Napping? && ss[k].pc == Awake(ss[i].pc.f))
    ensures ss[i].pc.Napping? && ss[k].pc.Awake? && (forall m | i <= m < k && es[m].EndSleep? :: es[m].full)
            ==> ss[k].clock >= ss[i].pc.since + ss[i].pc.sec * SECOND_NS + ss[i].pc.nsec
    decreases k - i
  {
    if i == k {
    } else {
      var s, e := ss[k - 1], es[k - 1];
      assert ss[k] == Step(s, e);
      SleptBefore(ss, es, i, k - 1);
    }
  }

  /** The time a frame's sleep asks nanosleep for, 0 if it does not sleep. */
  function Requested(pc: Pc): nat {
    if pc.Napping? then pc.sec * SECOND_NS + pc.nsec else 0
  }

  /** A frame whose sleep starts with event i and which event k presents is early if and
      only if less time passes between these two events than its sleep asked for; it is
      early by just the difference, and then its sleep was cut short. */
  lemma EarlyIffTooLittleTime(ss: seq<State>, es: seq<Event>, i: nat, k: nat)
    requires IsRun(ss, es) && i < k < |es| && es[i].StartSleep? && Presents(ss, es, k)
    requires forall m | i < m < k :: !es[m].StartSleep?
    ensures var f, at, slept := ss[k + 1].pc.f, ss[k + 1].pc.at, Elapsed(es, i, k);
            && f == ss[i].pc.f
            && (at < f.target <==> slept < Requested(ss[i + 1].pc))
            && (at < f.target ==> f.target - at == Requested(ss[i + 1].pc) - slept)
            && (at < f.target ==> exists m | i < m < k :: es[m] == EndSleep(false))
  {
    assert ss[i + 1] == Step(ss[i], es[i]) && ss[k + 1] == Step(ss[k], es[k]);
    SleptBefore(ss, es, i + 1, k);
    ClockAdds(ss, es, i, k);
    NapsEndAtTarget(ss, es, i + 1);
    var f := ss[i].pc.f;
    assert ss[k].clock == ss[i].clock + Elapsed(es, i, k);
    if ss[k].clock < f.target && forall m | i < m < k && es[m].EndSleep? :: es[m].full {
      assert ss[i + 1].pc.Napping?;
    }
  }

  lemma {:induction false} QuietInterval(ss: seq<State>, es: seq<Event>, i: nat, j: nat)
    requires IsRun(ss, es) && i <= j <= |es|
    requires forall m | i <= m < j :: !es[m].Publish? && !es[m].SetHz?
    ensures ss[j].lastPresent == ss[i].lastPresent && ss[j].interval == ss[i].interval
    ensures ss[j].clock >= ss[i].clock
    decreases j - i
  {
    if i == j {
    } else {
      QuietInterval(ss, es, i, j - 1);
      assert ss[j] == Step(ss[j - 1], es[j - 1]);
    }
  }

  /** The k-th event accepted a frame. */
  predicate Accepts(ss: seq<State>, es: seq<Event>, k: nat)
    requires |ss| == |es| + 1 && k < |es|
  {
    es[k].Submit? && ss[k].count < DEPTH && |ss[k + 1].accepted| == |ss[k].accepted| + 1
  }

  function TargetOf(ss: seq<State>, es: seq<Event>, k: nat): nat
    requires |ss| == |es| + 1 && k < |es| && Accepts(ss, es, k)
  {
    ss[k + 1].accepted[|ss[k].accepted|].target
  }

  /** Frames are spaced only by what has already been shown.  Of two frames accepted with
      no presentation (and no refresh change) in between, the second is aimed at the very
      same moment as the first if and only if it arrives no later than one interval after
      the last presentation (if there has been one), or at the same time as the first.
      A burst shares one target. */
  lemma BurstSharesTarget(ss: seq<State>, es: seq<Event>, i: nat, j: nat)
    requires IsRun(ss, es) && i < j < |es| && Accepts(ss, es, i) && Accepts(ss, es, j)
    requires forall m | i <= m < j :: !es[m].Publish? && !es[m].SetHz?
    ensures TargetOf(ss, es, i) == TargetOf(ss, es, j) <==>
            (ss[i].lastPresent > 0 && ss[j].clock <= ss[i].lastPresent + ss[i].interval)
            || ss[i].clock == ss[j].clock
  {
    QuietInterval(ss, es, i, j);
    RunKeepsClockInv(ss, es, i);
    assert ss[i + 1] == Step(ss[i], es[i]) && ss[j + 1] == Step(ss[j], es[j]);
    assert TargetOf(ss, es, i) == Target(ss[i].lastPresent, ss[i].interval, ss[i].clock);
    assert TargetOf(ss, es, j) == Target(ss[j].lastPresent, ss[j].interval, ss[j].clock);
  }

  // ---- The object itself ----

  class Pacer {
    const ring: array<Frame>
    var head: nat
    var tail: nat
    var count: nat
    var interval: nat
    var lastPresent: nat
    var running: bool
    var paced: nat
    var dropped: nat
    var jitter: nat
    ghost var clock: nat
    ghost var pc: Pc
    ghost var accepted: seq<Frame>
    ghost var shown: seq<Shown>
    ghost var submissions: nat

    ghost function View(): State
      reads this, ring
    {
      State(ring[..], head, tail, count, interval, lastPresent, running, paced, dropped, jitter,
            clock, pc, accepted, shown, submissions)
    }

    /** mvgal_fp_create: a refresh rate of 0 means the default of 60 Hz. */
    constructor (hz: nat, ghost now: nat)
      ensures Initial(View()) && fresh(ring) && clock == now
      ensures interval == Interval(if hz == 0 then DEFAULT_HZ else hz)
      ensures ring.Length == 8 && (hz == 0 ==> interval == 16_666_666)
    {
      ring := new Frame[DEPTH](_ => Frame(0, 0, 0, 0));
      head, tail, count := 0, 0, 0;
      interval := Interval(if hz == 0 then DEFAULT_HZ else hz);
      lastPresent, running := 0, true;
      paced, dropped, jitter := 0, 0, 0;
      clock, pc, accepted, shown, submissions := now, Top, [], [], 0;
    }

    method NextVsync(now: nat) returns (nextVsync: nat)
      ensures nextVsync == Target(lastPresent, interval, now)
    {
      var last := if lastPresent != 0 then lastPresent else now;
      nextVsync := last + interval;
      if nextVsync < now {
        nextVsync := now + interval;
      }
    }

    /** mvgal_fp_submit_frame; `now` is the clock reading. */
    method SubmitFrame(id: nat, gpu: nat, now: nat) returns (ok: bool)
      requires Enabled(View(), Submit(id, gpu)) && now == clock
      modifies this, ring
      ensures ok <==> old(count) < 8
      ensures View() == Step(old(View()), Submit(id, gpu))
    {
      submissions := submissions + 1;
      if count >= DEPTH {
        dropped := dropped + 1;
        return false;
      }
      var nextVsync := NextVsync(now);
      ring[head] := Frame(id, now, nextVsync, gpu);
      assert ring[..] == old(ring[..])[head := Frame(id, now, nextVsync, gpu)];
      accepted := accepted + [ring[head]];
      head := (head + 1) % DEPTH;
      count := count + 1;
      pc := Signaled(pc);
      ok := true;
    }

    /** The pacer's first critical section: stop, sleep, or take the oldest frame. */
    method TakeNextFrame() returns (got: bool, f: Frame)
      requires Enabled(View(), TakeNext)
      modifies this
      ensures got <==> old(running) && old(count) > 0
      ensures got ==> f == old(ring[tail])
      ensures View() == Step(old(View()), TakeNext)
    {
      got, f := false, ring[tail];
      if count == 0 && running {
        pc := Asleep;
        return;
      }
      if !running {
        pc := Exited;
        return;
      }
      got := true;
      tail := (tail + 1) % DEPTH;
      count := count - 1;
      pc := InFlight(f);
    }

    /** sleep_until_ns up to nanosleep, for the frame in flight; `now` is the clock reading. */
    method BeginSleep(f: Frame, now: nat) returns (nap: bool, sec: nat, nsec: nat)
      requires Enabled(View(), StartSleep) && pc == InFlight(f) && now == clock
      modifies this`pc
      ensures View() == Step(old(View()), StartSleep)
      ensures nap <==> now < f.target
      ensures nap ==> nsec < SECOND_NS && now + sec * SECOND_NS + nsec == f.target
    {
      nap, sec, nsec := false, 0, 0;
      if now >= f.target {
        pc := Awake(f);
        return;
      }
      var delta := f.target - now;
      nap, sec, nsec := true, delta / SECOND_NS, delta % SECOND_NS;
      pc := Napping(f, now, sec, nsec);
    }

    /** The pacer's second critical section. */
    method PublishFrame(f: Frame, at: nat)
      requires Enabled(View(), Publish) && pc == Publishing(f, at)
      modifies this
      ensures View() == Step(old(View()), Publish)
    {
      var difference := at - f.target;
      if difference < 0 {
        difference := -difference;
      }
      paced := paced + 1;
      jitter := jitter + difference;
      lastPresent := at;
      shown := shown + [Shown(f, at)];
      pc := Top;
    }

    method SetRefreshHz(hz: nat)
      requires Enabled(View(), SetHz(hz))
      modifies this`interval
      ensures View() == Step(old(View()), SetHz(hz))
    {
      if hz != 0 {
        interval := SECOND_NS / hz;
      }
    }
  }
}
