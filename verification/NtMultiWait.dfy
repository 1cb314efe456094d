/**
 The polling multi-waits of compat/windows/mvgal_ntsync.c.

 A call inspects its objects one after the other, each inspection being one atomic
 step (the owner fields a mutex inspection writes after its compare-and-swap are
 covered by NtMutex).  Between any two steps other threads may do anything to the
 objects.  mvgal_nt_wait_multiple is the case in which every object is an event.
 */
module NtMultiWait {

  import opened Common
  import NtEvent

  type Handle = nat

  datatype Obj =
    | Event(ev: NtEvent.State)
    | Mutex(word: nat, owner: nat, count: nat)
    | Semaphore(tokens: nat)

  type World = map<Handle, Obj>

  /** A call of `me` over `handles`, where None is a NULL entry. */
  datatype Call = Call(me: nat, handles: seq<Option<Handle>>, any: bool, patience: Patience)

  datatype Outcome = Hit(index: nat) | AllHit | TimedOut | Failed

  /** The numeric result handed to the caller. */
  const WAIT_TIMEOUT: nat := 0x102
  const WAIT_ABANDONED: nat := 0x080
  const WAIT_FAILED: nat := 0xFFFF_FFFF

  function Code(r: Outcome): nat {
    match r
    case Hit(i) => i
    case AllHit => 0
    case TimedOut => WAIT_TIMEOUT
    case Failed => WAIT_FAILED
  }

  predicate Available(o: Obj) {
    match o
    case Event(ev) => ev.signaled
    case Mutex(word, _, _) => word == 0
    case Semaphore(tokens) => tokens > 0
  }

  /** The object after an inspection by thread `me`. */
  function Inspected(o: Obj, me: nat): Obj {
    match o
    case Event(ev) => Event(NtEvent.Step(ev, NtEvent.Probe))
    case Mutex(word, _, _) => if word == 0 then Mutex(1, me, 1) else o
    case Semaphore(tokens) => if tokens > 0 then Semaphore(tokens - 1) else o
  }

  /** How much an object has to give: an auto-reset signal, a free mutex, tokens. */
  function Stock(o: Obj): nat {
    match o
    case Event(ev) => if ev.auto && ev.signaled then 1 else 0
    case Mutex(word, _, _) => if word == 0 then 1 else 0
    case Semaphore(tokens) => tokens
  }

  predicate Valid(c: Call, w: World) {
    forall i | 0 <= i < |c.handles| && c.handles[i].Some? :: c.handles[i].value in w
  }

  /** One inspection, as the call experienced it. */
  datatype Probe = Probe(pass: nat, index: nat, before: Obj, after: Obj) {
    predicate Sig() { Available(before) }
  }

  datatype Pc =
    | At(i: nat, hits: nat)     // next object to inspect, and hits of this pass
    | Sleeping                  // between two passes
    | Done(r: Outcome)

  datatype State = State(world: World, pc: Pc, pass: nat, log: seq<Probe>)

  datatype Step =
    | Interfere(w: World)       // other threads
    | Inspect
    | EndPass(expired: bool)    // `expired`: the clock has reached the deadline
    | NextPass

  predicate Initial(c: Call, s: State) {
    && Valid(c, s.world)
    && s.pc == (if |c.handles| == 0 then Done(Failed) else At(0, 0))
    && s.pass == 0 && s.log == []
  }

  predicate Enabled(c: Call, s: State, e: Step) {
    && Valid(c, s.world)
    && match e
       case Interfere(w) => Valid(c, w)
       case Inspect => s.pc.At? && s.pc.i < |c.handles|
       case EndPass(_) => s.pc.At? && s.pc.i == |c.handles|
       case NextPass => s.pc.Sleeping?
  }

  function Next(c: Call, s: State, e: Step): State
    requires Enabled(c, s, e)
  {
    match e
    case Interfere(w) => s.(world := w)
    case Inspect =>
      var i := s.pc.i;
      if c.handles[i].None? then s.(pc := At(i + 1, s.pc.hits))
      else
        var h := c.handles[i].value;
        var p := Probe(s.pass, i, s.world[h], Inspected(s.world[h], c.me));
        var s' := s.(world := s.world[h := p.after], log := s.log + [p]);
        if !p.Sig() then s'.(pc := At(i + 1, s.pc.hits))
        else if c.any then s'.(pc := Done(Hit(i)))
        else s'.(pc := At(i + 1, s.pc.hits + 1))
    case EndPass(expired) =>
      if !c.any && s.pc.hits == |c.handles| then s.(pc := Done(AllHit))
      else if c.patience == NoWait || (c.patience == Timed && expired) then s.(pc := Done(TimedOut))
      else s.(pc := Sleeping)
    case NextPass => s.(pc := At(0, 0), pass := s.pass + 1)
  }

  ghost predicate IsRun(c: Call, ss: seq<State>, es: seq<Step>) {
    && |ss| == |es| + 1
    && Initial(c, ss[0])
    && forall i | 0 <= i < |es| :: Enabled(c, ss[i], es[i]) && ss[i + 1] == Next(c, ss[i], es[i])
  }

  // ---- Wait for any ----

  /** p is the inspection of entry j in the current pass. */
  predicate InPass(s: State, p: Probe, j: nat) {
    p in s.log && p.pass == s.pass && p.index == j
  }

  /** Every non-null entry below n has been inspected in the current pass. */
  ghost predicate Covered(c: Call, s: State, n: nat)
    requires n <= |c.handles|
  {
    forall j | 0 <= j < n && c.handles[j].Some? :: exists p :: InPass(s, p, j)
  }

  /** None of these inspections found anything, and none changed its object. */
  predicate Fruitless(log: seq<Probe>) {
    forall p | p in log :: !p.Sig() && p.after == p.before
  }

  ghost predicate AnyInv(c: Call, s: State) {
    match s.pc
    case At(i, _) => i <= |c.handles| && Fruitless(s.log) && Covered(c, s, i)
    case Sleeping => Fruitless(s.log) && Covered(c, s, |c.handles|)
    case Done(Hit(i)) =>
      && i < |c.handles| && c.handles[i].Some?
      && s.log != []
      && (var last := s.log[|s.log| - 1];
          last.pass == s.pass && last.index == i && last.Sig() && last.after == Inspected(last.before, c.me))
      && Fruitless(s.log[..|s.log| - 1])
      && Covered(c, s, i)
    case Done(TimedOut) => Fruitless(s.log) && Covered(c, s, |c.handles|)
    case Done(Failed) => s.log == [] && c.handles == []
    case Done(AllHit) => false
  }

  lemma CoverageGrows(c: Call, s: State, s': State, n: nat)
    requires n <= |c.handles| && Covered(c, s, n)
    requires s'.pass == s.pass && s.log <= s'.log
    ensures Covered(c, s', n)
  {
    forall j | 0 <= j < n && c.handles[j].Some? ensures exists p :: InPass(s', p, j) {
      var p :| InPass(s, p, j);
      assert InPass(s', p, j);
    }
  }

  lemma InspectKeepsAnyInv(c: Call, s: State)
    requires c.any && AnyInv(c, s) && Enabled(c, s, Inspect)
    ensures AnyInv(c, Next(c, s, Inspect))
  {
    var s' := Next(c, s, Inspect);
    CoverageGrows(c, s, s', s.pc.i);
    if c.handles[s.pc.i].Some? {
      var p := s'.log[|s'.log| - 1];
      assert s'.log[..|s'.log| - 1] == s.log;
      assert InPass(s', p, s.pc.i);
    }
  }

  lemma StepKeepsAnyInv(c: Call, s: State, e: Step)
    requires c.any && AnyInv(c, s) && Enabled(c, s, e)
    ensures AnyInv(c, Next(c, s, e))
  {
    var s' := Next(c, s, e);
    if e.Inspect? {
      InspectKeepsAnyInv(c, s);
    } else if !e.NextPass? {
      if s.pc.At? {
        CoverageGrows(c, s, s', s.pc.i);
      } else if s.pc.Sleeping? || s.pc == Done(TimedOut) {
        CoverageGrows(c, s, s', |c.handles|);
      } else if s.pc.r.Hit? {
        CoverageGrows(c, s, s', s.pc.r.index);
      }
    }
  }

  lemma {:induction false} RunKeepsAnyInv(c: Call, ss: seq<State>, es: seq<Step>, k: nat)
    requires c.any && IsRun(c, ss, es) && k <= |es|
    ensures AnyInv(c, ss[k])
  {
    if k == 0 {
    } else {
      RunKeepsAnyInv(c, ss, es, k - 1);
      StepKeepsAnyInv(c, ss[k - 1], es[k - 1]);
    }
  }

  /** Exactly one unit has gone from the object, or it is a signaled manual-reset event. */
  predicate OneUnit(p: Probe) {
    Stock(p.after) + 1 == Stock(p.before) || (p.after == p.before && p.before.Event?)
  }

  /** What an object looks like when `me` has taken one unit of it. */
  predicate TakenBy(o: Obj, o': Obj, me: nat) {
    match o
    case Event(ev) => o' == Event(NtEvent.State(ev.auto, !ev.auto))
    case Mutex(_, _, _) => o' == Mutex(1, me, 1)
    case Semaphore(tokens) => tokens > 0 && o' == Semaphore(tokens - 1)
  }

  /** WAIT_ANY under arbitrary interference.  A call that reports entry i took at most
      one unit in all its passes, and took it from entry i; every lower non-null entry
      was inspected in the last pass and found unavailable.  A call that times out
      took nothing in any pass. */
  lemma WaitAnyIsExact(c: Call, ss: seq<State>, es: seq<Step>, k: nat)
    requires c.any && IsRun(c, ss, es) && k <= |es| && ss[k].pc.Done?
    ensures ss[k].pc.r.TimedOut? ==> forall p | p in ss[k].log :: !p.Sig() && p.after == p.before
    ensures ss[k].pc.r.Hit? ==>
              var i, log := ss[k].pc.r.index, ss[k].log;
              && 0 <= i < |c.handles| && c.handles[i].Some?
              && log != [] && log[|log| - 1].index == i && log[|log| - 1].Sig() && OneUnit(log[|log| - 1])
              && TakenBy(log[|log| - 1].before, log[|log| - 1].after, c.me)
              && forall q | 0 <= q < |log| - 1 :: log[q].after == log[q].before
    ensures ss[k].pc.r.Hit? ==>
              forall j | 0 <= j < ss[k].pc.r.index && c.handles[j].Some? ::
                exists p :: InPass(ss[k], p, j) && !p.Sig()
    ensures ss[k].pc.r.TimedOut? || ss[k].pc.r.Hit? || (ss[k].pc.r.Failed? && c.handles == [])
  {
    RunKeepsAnyInv(c, ss, es, k);
    if ss[k].pc.r.Hit? {
      var log := ss[k].log;
      var before := log[..|log| - 1];
      forall q | 0 <= q < |log| - 1 ensures log[q].after == log[q].before && !log[q].Sig() {
        assert before[q] in before;
      }
      forall j | 0 <= j < ss[k].pc.r.index && c.handles[j].Some?
        ensures exists p :: InPass(ss[k], p, j) && !p.Sig()
      {
        var p :| InPass(ss[k], p, j);
        assert p != log[|log| - 1];
        assert p in before;
        assert InPass(ss[k], p, j) && !p.Sig();
      }
    }
  }

  /** Without interference, WAIT_ANY is a search: it changes nothing before it finds
      something, and it finds the lowest available entry of the initial world. */
  lemma {:induction false} UndisturbedAnyFindsFirst(c: Call, ss: seq<State>, es: seq<Step>, k: nat)
    requires c.any && IsRun(c, ss, es) && k <= |es|
    requires forall i | 0 <= i < |es| :: !es[i].Interfere?
    ensures match ss[k].pc
            case Done(Hit(i)) =>
              && i < |c.handles| && c.handles[i].Some?
              && Available(ss[0].world[c.handles[i].value])
              && (forall j | 0 <= j < i && c.handles[j].Some? :: !Available(ss[0].world[c.handles[j].value]))
              && ss[k].world == ss[0].world[c.handles[i].value := Inspected(ss[0].world[c.handles[i].value], c.me)]
            case At(i, _) =>
              && i <= |c.handles| && ss[k].world == ss[0].world
              && forall j | 0 <= j < i && c.handles[j].Some? :: !Available(ss[0].world[c.handles[j].value])
            case _ =>
              && ss[k].world == ss[0].world
              && forall j | 0 <= j < |c.handles| && c.handles[j].Some? :: !Available(ss[0].world[c.handles[j].value])
  {
    if k == 0 {
    } else {
      UndisturbedAnyFindsFirst(c, ss, es, k - 1);
      var s, s' := ss[k - 1], ss[k];
      assert s' == Next(c, s, es[k - 1]);
      if es[k - 1].Inspect? && c.handles[s.pc.i].Some? {
        var h := c.handles[s.pc.i].value;
        if !Available(s.world[h]) {
          assert s.world[h := s.world[h]] == s.world;
        }
      }
    }
  }

  /** A success code can be mistaken for a timeout exactly when a call lists more than
      0x102 objects; it is never mistaken for a failure. */
  lemma SuccessCodesAreDistinct(c: Call)
    requires |c.handles| < 0x1_0000_0000
    ensures (exists i: nat | i < |c.handles| :: Code(Hit(i)) == Code(TimedOut)) <==> |c.handles| > 0x102
    ensures (exists i: nat | i < |c.handles| :: Code(Hit(i)) == WAIT_ABANDONED) <==> |c.handles| > 0x80
    ensures forall i: nat | i < |c.handles| :: Code(Hit(i)) != Code(Failed)
  {
    if |c.handles| > 0x102 {
      assert Code(Hit(0x102)) == Code(TimedOut);
    }
    if |c.handles| > 0x80 {
      assert Code(Hit(0x80)) == WAIT_ABANDONED;
    }
  }

  // ---- Wait for all ----

  ghost predicate Distinct(c: Call) {
    forall i, j | 0 <= i < j < |c.handles| && c.handles[i].Some? :: c.handles[i] != c.handles[j]
  }

  ghost predicate AllInv(c: Call, s: State) {
    match s.pc
    case At(i, hits) =>
      && hits <= i <= |c.handles| && c.handles != []
      && Logged(s, i)
      && (hits == i <==> AllFound(c, s, i))
    case Sleeping => !AllFound(c, s, |c.handles|) && Logged(s, |c.handles|)
    case Done(AllHit) => AllFound(c, s, |c.handles|)
    case Done(TimedOut) => !AllFound(c, s, |c.handles|)
    case Done(Hit(_)) => false
    case Done(Failed) => c.handles == []
  }

  /** The log has no later pass, and of the current pass only entries below n. */
  predicate Logged(s: State, n: nat) {
    forall p | p in s.log :: p.pass < s.pass || (p.pass == s.pass && p.index < n)
  }

  /** Entry j was inspected in this pass and found available. */
  ghost predicate Found(s: State, j: nat) {
    exists p :: InPass(s, p, j) && p.Sig()
  }

  /** Each of the first n entries is non-null and was found available in this pass. */
  ghost predicate AllFound(c: Call, s: State, n: nat)
    requires n <= |c.handles|
  {
    forall j: nat | j < n :: c.handles[j].Some? && Found(s, j)
  }

  lemma FindingsPersist(c: Call, s: State, s': State, n: nat)
    requires n <= |c.handles| && AllFound(c, s, n)
    requires s'.pass == s.pass && s.log <= s'.log
    ensures AllFound(c, s', n)
  {
    forall j: nat | j < n ensures c.handles[j].Some? && Found(s', j) {
      assert Found(s, j);
      var p :| InPass(s, p, j) && p.Sig();
      assert InPass(s', p, j) && p.Sig();
    }
  }

  lemma StepKeepsAllInv(c: Call, s: State, e: Step)
    requires !c.any && AllInv(c, s) && Enabled(c, s, e)
    ensures AllInv(c, Next(c, s, e))
  {
    var s' := Next(c, s, e);
    if e.Inspect? {
      InspectKeepsAllInv(c, s);
    } else if e.Interfere? || e.EndPass? {
      SameLogSameFindings(c, s, s');
    }
  }

  lemma SameLogSameFindings(c: Call, s: State, s': State)
    requires s'.log == s.log && s'.pass == s.pass
    ensures forall n | 0 <= n <= |c.handles| :: AllFound(c, s', n) == AllFound(c, s, n)
  {
    forall n | 0 <= n <= |c.handles| ensures AllFound(c, s', n) == AllFound(c, s, n) {
      if AllFound(c, s, n) {
        FindingsPersist(c, s, s', n);
      }
      if AllFound(c, s', n) {
        FindingsPersist(c, s', s, n);
      }
    }
  }

  /** Inspecting entry i decides whether the first i + 1 entries have all been found. */
  lemma InspectKeepsAllInv(c: Call, s: State)
    requires !c.any && AllInv(c, s) && Enabled(c, s, Inspect)
    ensures AllInv(c, Next(c, s, Inspect))
  {
    var i, s' := s.pc.i, Next(c, s, Inspect);
    FindingsGrow(c, s, s', i);
    if c.handles[i].Some? {
      var p := s'.log[|s'.log| - 1];
      assert InPass(s', p, i);
      assert Found(s', i) <==> p.Sig();
    }
    assert AllFound(c, s', i + 1) <==> AllFound(c, s', i) && c.handles[i].Some? && Found(s', i);
  }

  /** New inspections of entries from n on do not change what was found below. */
  lemma FindingsGrow(c: Call, s: State, s': State, n: nat)
    requires n <= |c.handles| && s'.pass == s.pass && s.log <= s'.log
    requires forall q | |s.log| <= q < |s'.log| :: s'.log[q].index >= n
    ensures AllFound(c, s', n) == AllFound(c, s, n)
  {
    if AllFound(c, s, n) {
      FindingsPersist(c, s, s', n);
    }
    if AllFound(c, s', n) {
      forall j: nat | j < n ensures c.handles[j].Some? && Found(s, j) {
        assert Found(s', j);
        var p :| InPass(s', p, j) && p.Sig();
        assert InPass(s, p, j);
      }
    }
  }

  lemma {:induction false} RunKeepsAllInv(c: Call, ss: seq<State>, es: seq<Step>, k: nat)
    requires !c.any && IsRun(c, ss, es) && k <= |es|
    ensures AllInv(c, ss[k])
  {
    if k == 0 {
    } else {
      RunKeepsAllInv(c, ss, es, k - 1);
      StepKeepsAllInv(c, ss[k - 1], es[k - 1]);
    }
  }

  /** A WAIT_ALL call, under any interference, has succeeded if and only if in its last pass
      every entry was found available: a call that has succeeded found them all, and one
      that has timed out or goes on to another pass missed some, or has a NULL entry. */
  lemma WaitAllMeansAll(c: Call, ss: seq<State>, es: seq<Step>, k: nat)
    requires !c.any && IsRun(c, ss, es) && k <= |es| && c.handles != []
    requires ss[k].pc.Done? || ss[k].pc.Sleeping?
    ensures ss[k].pc == Done(AllHit) <==>
            forall j: nat | j < |c.handles| :: c.handles[j].Some? && Found(ss[k], j)
    ensures None in c.handles ==> ss[k].pc != Done(AllHit)
  {
    RunKeepsAllInv(c, ss, es, k);
  }

  /** How a pass ends, for either kind of wait and under any interference: a pass that found
      every entry ends a WAIT_ALL call with success; any other pass that gets to its end
      ends the call with TIMEOUT if and only if it may not wait or its deadline is reached,
      and leads to another pass otherwise. */
  lemma PassEndIsExact(c: Call, ss: seq<State>, es: seq<Step>, k: nat)
    requires IsRun(c, ss, es) && k < |es| && es[k].EndPass?
    ensures var all := !c.any && forall j: nat | j < |c.handles| :: c.handles[j].Some? && Found(ss[k], j);
            var late := c.patience == NoWait || (c.patience == Timed && es[k].expired);
            ss[k + 1].pc == if all then Done(AllHit) else if late then Done(TimedOut) else Sleeping
  {
    assert ss[k + 1] == Next(c, ss[k], es[k]);
    if !c.any {
      RunKeepsAllInv(c, ss, es, k);
      assert (forall j: nat | j < |c.handles| :: c.handles[j].Some? && Found(ss[k], j))
             <==> AllFound(c, ss[k], |c.handles|);
    }
  }

  /** A WAIT_ALL call that nobody disturbs, on different objects that are all available,
      succeeds in its first pass, whatever its timeout. */
  lemma {:induction false} UndisturbedAllSucceeds(c: Call, ss: seq<State>, es: seq<Step>, k: nat)
    requires !c.any && IsRun(c, ss, es) && k <= |es| && c.handles != [] && Distinct(c)
    requires forall i | 0 <= i < |es| :: !es[i].Interfere?
    requires forall j | 0 <= j < |c.handles| ::
               c.handles[j].Some? && Available(ss[0].world[c.handles[j].value])
    ensures k <= |c.handles| ==>
              && ss[k].pc == At(k, k) && Valid(c, ss[k].world)
              && forall j | k <= j < |c.handles| ::
                   ss[k].world[c.handles[j].value] == ss[0].world[c.handles[j].value]
    ensures k > |c.handles| ==> ss[k].pc == Done(AllHit)
  {
    if k == 0 {
    } else {
      UndisturbedAllSucceeds(c, ss, es, k - 1);
      assert ss[k] == Next(c, ss[k - 1], es[k - 1]);
    }
  }

  // ---- Pulses ----

  /** Every listed object is an event without a signal. */
  predicate NothingSignaled(c: Call, w: World)
    requires Valid(c, w)
  {
    forall i | 0 <= i < |c.handles| && c.handles[i].Some? ::
      w[c.handles[i].value].Event? && !w[c.handles[i].value].ev.signaled
  }

  /** The event after a sequence of operations by other threads. */
  function Applied(ev: NtEvent.State, ops: seq<NtEvent.Event>): NtEvent.State
    decreases ops
  {
    if ops == [] then ev else Applied(NtEvent.Step(ev, ops[0]), ops[1..])
  }

  /** The operations other threads may have made on one event, no set among them. */
  ghost predicate NotSet(o: Obj, o': Obj) {
    o.Event? ==> o'.Event? && exists ops :: NtEvent.Set !in ops && o'.ev == Applied(o.ev, ops)
  }

  /** Other threads pulse, reset and read the listed events any number of times. */
  ghost predicate SetsNothing(c: Call, w: World, w': World)
    requires Valid(c, w) && Valid(c, w')
  {
    forall i | 0 <= i < |c.handles| && c.handles[i].Some? ::
      NotSet(w[c.handles[i].value], w'[c.handles[i].value])
  }

  lemma {:induction false} OnlySetsSignal(ev: NtEvent.State, ops: seq<NtEvent.Event>)
    requires !ev.signaled && NtEvent.Set !in ops
    ensures !Applied(ev, ops).signaled
    decreases ops
  {
    if ops == [] {
    } else {
      assert ops[0] in ops;
      OnlySetsSignal(NtEvent.Step(ev, ops[0]), ops[1..]);
    }
  }

  lemma InterferenceSignalsNothing(c: Call, w: World, w': World)
    requires Valid(c, w) && Valid(c, w') && NothingSignaled(c, w) && SetsNothing(c, w, w')
    ensures NothingSignaled(c, w')
  {
    forall i | 0 <= i < |c.handles| && c.handles[i].Some?
      ensures w'[c.handles[i].value].Event? && !w'[c.handles[i].value].ev.signaled
    {
      var h := c.handles[i].value;
      assert NotSet(w[h], w'[h]);
      var ops :| NtEvent.Set !in ops && w'[h].ev == Applied(w[h].ev, ops);
      OnlySetsSignal(w[h].ev, ops);
    }
  }

  /** The documentation says that a pulse wakes the current waiters.  Waits only poll, so a
      wait for any or all of some unsignaled events is never ended by pulses: in every run
      in which other threads do anything to these events but set them, it finds nothing. */
  lemma {:induction false} PulseWakesNobody(c: Call, ss: seq<State>, es: seq<Step>, k: nat)
    requires IsRun(c, ss, es) && k <= |es| && NothingSignaled(c, ss[0].world)
    requires forall i | 0 <= i < |es| && es[i].Interfere? :: SetsNothing(c, ss[i].world, es[i].w)
    ensures !Succeeded(ss[k].pc)
  {
    NothingFoundFrom(c, ss, es, 0, k);
  }

  predicate Succeeded(pc: Pc) {
    pc.Done? && (pc.r.Hit? || pc.r.AllHit?)
  }

  /** Nothing is signaled and nothing has been found in the current pass. */
  predicate NothingFound(c: Call, s: State) {
    && Valid(c, s.world) && NothingSignaled(c, s.world)
    && (s.pc.At? ==> s.pc.hits == 0 && c.handles != [])
    && (s.pc.Sleeping? ==> c.handles != [])
    && !Succeeded(s.pc)
  }

  /** From such a state on, a call finds nothing as long as nobody sets a listed event. */
  lemma {:induction false} NothingFoundFrom(c: Call, ss: seq<State>, es: seq<Step>, i: nat, k: nat)
    requires IsRun(c, ss, es) && i <= k <= |es| && NothingFound(c, ss[i])
    requires forall m | i <= m < |es| && es[m].Interfere? :: SetsNothing(c, ss[m].world, es[m].w)
    ensures NothingFound(c, ss[k])
    decreases k - i
  {
    if i == k {
    } else {
      NothingFoundFrom(c, ss, es, i, k - 1);
      var s, e := ss[k - 1], es[k - 1];
      assert ss[k] == Next(c, s, e);
      if e.Interfere? {
        InterferenceSignalsNothing(c, s.world, e.w);
      } else if e.Inspect? && c.handles[s.pc.i].Some? {
        var h := c.handles[s.pc.i].value;
        assert s.world[h := s.world[h]] == s.world;
      }
    }
  }

  /** Own steps of a call that ends with a hit, before its deadline. */
  ghost predicate EndsWithHit(c: Call, s: State) {
    exists ss: seq<State>, es: seq<Step> :: IsOwnPath(c, ss, es) && ss[0] == s && HasHit(ss[|es|].pc)
  }

  predicate HasHit(pc: Pc) {
    pc.Done? && pc.r.Hit?
  }

  ghost predicate IsOwnPath(c: Call, ss: seq<State>, es: seq<Step>) {
    && |ss| == |es| + 1
    && forall i | 0 <= i < |es| ::
         Enabled(c, ss[i], es[i]) && ss[i + 1] == Next(c, ss[i], es[i])
         && !es[i].Interfere? && es[i] != EndPass(true)
  }

  lemma HitAfter(c: Call, s: State, e: Step)
    requires Enabled(c, s, e) && !e.Interfere? && e != EndPass(true) && EndsWithHit(c, Next(c, s, e))
    ensures EndsWithHit(c, s)
  {
    var ss: seq<State>, es: seq<Step> :| IsOwnPath(c, ss, es) && ss[0] == Next(c, s, e) && HasHit(ss[|es|].pc);
    OwnPathPrepend(c, s, e, ss, es);
    var ss', es' := [s] + ss, [e] + es;
    assert ss'[0] == s && ss'[|es'|] == ss[|es|];
  }

  lemma OwnPathPrepend(c: Call, s: State, e: Step, ss: seq<State>, es: seq<Step>)
    requires Enabled(c, s, e) && !e.Interfere? && e != EndPass(true)
    requires IsOwnPath(c, ss, es) && ss[0] == Next(c, s, e)
    ensures IsOwnPath(c, [s] + ss, [e] + es)
  {
    var ss', es' := [s] + ss, [e] + es;
    forall i | 0 <= i < |es'|
      ensures Enabled(c, ss'[i], es'[i]) && ss'[i + 1] == Next(c, ss'[i], es'[i])
              && !es'[i].Interfere? && es'[i] != EndPass(true)
    {
      assert i > 0 ==> es'[i] == es[i - 1] && ss'[i] == ss[i - 1] && ss'[i + 1] == ss[i];
    }
  }

  lemma HitNow(c: Call, s: State)
    requires s.pc.Done? && s.pc.r.Hit?
    ensures EndsWithHit(c, s)
  {
    var ss, es: seq<Step> := [s], [];
    assert IsOwnPath(c, ss, es) && ss[|es|] == s;
  }

  /** A wait for any that is still polling finds entry j, or an earlier one, once j is available. */
  lemma {:induction false} PollingFinds(c: Call, s: State, j: nat)
    requires c.any && c.patience != NoWait && Valid(c, s.world)
    requires j < |c.handles| && c.handles[j].Some? && Available(s.world[c.handles[j].value])
    requires s.pc.Sleeping? || (s.pc.At? && s.pc.i <= |c.handles|)
    ensures EndsWithHit(c, s)
    decreases if s.pc.At? && s.pc.i > j then 2 else if s.pc.Sleeping? then 1 else 0,
              if s.pc.At? then |c.handles| - s.pc.i else 0
  {
    var e := if s.pc.Sleeping? then NextPass else if s.pc.i == |c.handles| then EndPass(false) else Inspect;
    var s' := Next(c, s, e);
    if s'.pc.Done? {
      HitNow(c, s');
    } else {
      if e.Inspect? && c.handles[s.pc.i].Some? {
        var h := c.handles[s.pc.i].value;
        assert s.world[h := s.world[h]] == s.world;
      }
      PollingFinds(c, s', j);
    }
    HitAfter(c, s, e);
  }

  /** A set does what a pulse does not: from every state in which a wait for any with a
      nonzero timeout is still polling, one set of a listed event is enough to end it. */
  lemma OneSetEndsTheWait(c: Call, s: State, j: nat)
    requires c.any && c.patience != NoWait && Valid(c, s.world)
    requires s.pc.Sleeping? || (s.pc.At? && s.pc.i <= |c.handles|)
    requires j < |c.handles| && c.handles[j].Some? && s.world[c.handles[j].value].Event?
    ensures var h := c.handles[j].value;
            var wake := Interfere(s.world[h := Event(NtEvent.Step(s.world[h].ev, NtEvent.Set))]);
            Enabled(c, s, wake) && EndsWithHit(c, Next(c, s, wake))
  {
    var h := c.handles[j].value;
    var w := s.world[h := Event(NtEvent.Step(s.world[h].ev, NtEvent.Set))];
    PollingFinds(c, Next(c, s, Interfere(w)), j);
  }

  // ---- One undisturbed pass, as the source runs it ----

  predicate Listed(c: Call, n: nat, h: Handle)
    requires n <= |c.handles|
  {
    exists j | 0 <= j < n :: c.handles[j] == Some(h)
  }

  /** `after` is `world` once the first n entries have been inspected: listed objects with
      something to give have given some of it, everything else is as it was. */
  ghost predicate Drained(c: Call, world: World, after: World, n: nat)
    requires n <= |c.handles|
  {
    && after.Keys == world.Keys
    && forall h | h in world ::
         if Listed(c, n, h) && Stock(world[h]) > 0 then Stock(after[h]) < Stock(world[h])
         else after[h] == world[h]
  }

  lemma InspectionDrains(c: Call, world: World, after: World, n: nat, next: World)
    requires n < |c.handles| && Drained(c, world, after, n)
    requires if c.handles[n].None? then next == after
             else c.handles[n].value in world
                  && next == after[c.handles[n].value := Inspected(after[c.handles[n].value], c.me)]
    ensures Drained(c, world, next, n + 1)
  {
    forall h | h in world
      ensures if Listed(c, n + 1, h) && Stock(world[h]) > 0 then Stock(next[h]) < Stock(world[h])
              else next[h] == world[h]
    {
      assert Listed(c, n + 1, h) <==> Listed(c, n, h) || c.handles[n] == Some(h);
    }
  }

  /** How many entries have been inspected at least once. */
  function Seen(c: Call, s: State): nat {
    if s.pass == 0 && s.pc.At? then Min(s.pc.i, |c.handles|) else |c.handles|
  }

  /** A further inspection, in a later pass, changes nothing about that. */
  lemma InspectionAgainDrains(c: Call, world: World, after: World, i: nat)
    requires i < |c.handles| && c.handles[i].Some? && c.handles[i].value in world
    requires Drained(c, world, after, |c.handles|)
    ensures var h := c.handles[i].value;
            Drained(c, world, after[h := Inspected(after[h], c.me)], |c.handles|)
  {
    assert Listed(c, |c.handles|, c.handles[i].value);
  }

  lemma {:induction false} UndisturbedAllDrains(c: Call, ss: seq<State>, es: seq<Step>, k: nat)
    requires !c.any && IsRun(c, ss, es) && k <= |es| && c.handles != []
    requires forall i | 0 <= i < |es| :: !es[i].Interfere?
    ensures ss[k].pc.At? ==> ss[k].pc.i <= |c.handles|
    ensures Drained(c, ss[0].world, ss[k].world, Seen(c, ss[k]))
  {
    if k == 0 {
    } else {
      UndisturbedAllDrains(c, ss, es, k - 1);
      assert ss[k] == Next(c, ss[k - 1], es[k - 1]);
      if es[k - 1].Inspect? {
        InspectDrains(c, ss[0].world, ss[k - 1]);
      }
    }
  }

  lemma InspectDrains(c: Call, world: World, s: State)
    requires !c.any && Valid(c, world) && Enabled(c, s, Inspect) && Drained(c, world, s.world, Seen(c, s))
    ensures Drained(c, world, Next(c, s, Inspect).world, Seen(c, Next(c, s, Inspect)))
  {
    var i := s.pc.i;
    if s.pass == 0 {
      InspectionDrains(c, world, s.world, i, Next(c, s, Inspect).world);
    } else if c.handles[i].Some? {
      InspectionAgainDrains(c, world, s.world, i);
    }
  }

  /** WAIT_ALL is not all-or-nothing: a call that nobody disturbs and that times out, after
      any number of passes, leaves the objects as they were if and only if none of them had
      anything to give. */
  lemma TimedOutAllKeepsIffNothingToTake(c: Call, ss: seq<State>, es: seq<Step>, k: nat)
    requires !c.any && IsRun(c, ss, es) && k <= |es|
    requires forall i | 0 <= i < |es| :: !es[i].Interfere?
    requires ss[k].pc == Done(TimedOut)
    ensures ss[k].world == ss[0].world <==>
            forall j | 0 <= j < |c.handles| && c.handles[j].Some? :: Stock(ss[0].world[c.handles[j].value]) == 0
  {
    EmptyCallsFail(c, ss, es, k);
    UndisturbedAllDrains(c, ss, es, k);
    DrainedNothing(c, ss[0].world, ss[k].world);
  }

  lemma {:induction false} EmptyCallsFail(c: Call, ss: seq<State>, es: seq<Step>, k: nat)
    requires IsRun(c, ss, es) && k <= |es|
    ensures c.handles == [] ==> ss[k].pc == Done(Failed)
  {
    if k == 0 {
    } else {
      EmptyCallsFail(c, ss, es, k - 1);
    }
  }

  /** The world in which events a and b are auto-reset and have these signals. */
  function TwoEvents(a: Handle, b: Handle, first: bool, second: bool): World {
    map[a := Event(NtEvent.State(true, first)), b := Event(NtEvent.State(true, second))]
  }

  predicate StepsTo(c: Call, s: State, e: Step, s': State) {
    Enabled(c, s, e) && s' == Next(c, s, e)
  }

  ghost predicate IsPath(c: Call, ss: seq<State>, es: seq<Step>) {
    |ss| == |es| + 1 && forall i | 0 <= i < |es| :: StepsTo(c, ss[i], es[i], ss[i + 1])
  }

  lemma PathConcat(c: Call, ss: seq<State>, es: seq<Step>, ss': seq<State>, es': seq<Step>)
    requires IsPath(c, ss, es) && IsPath(c, ss', es') && ss[|es|] == ss'[0]
    ensures IsPath(c, ss + ss'[1..], es + es')
    ensures (ss + ss'[1..])[|es + es'|] == ss'[|es'|] && (ss + ss'[1..])[0] == ss[0]
  {
    var all, steps := ss + ss'[1..], es + es';
    forall i | 0 <= i < |steps| ensures StepsTo(c, all[i], steps[i], all[i + 1]) {
      assert i < |es| ==> all[i] == ss[i] && all[i + 1] == ss[i + 1] && steps[i] == es[i];
      assert i >= |es| ==> all[i] == ss'[i - |es|] && all[i + 1] == ss'[i - |es| + 1] && steps[i] == es'[i - |es|];
    }
  }

  /** Set one of two auto-reset events, then poll both. */
  function SetAndPoll(w: World): seq<Step> {
    [Interfere(w), Inspect, Inspect, EndPass(false)]
  }

  /** A pass after one of two unsignaled events has been set takes that signal, and no more. */
  lemma OnePass(c: Call, s: State, a: Handle, b: Handle, w: World) returns (ss: seq<State>)
    requires a != b && c.handles == [Some(a), Some(b)] && !c.any && c.patience != NoWait
    requires s.pc == At(0, 0) && s.world == TwoEvents(a, b, false, false)
    requires w == TwoEvents(a, b, true, false) || w == TwoEvents(a, b, false, true)
    ensures IsPath(c, ss, SetAndPoll(w)) && ss[0] == s
    ensures ss[4].pc == Sleeping && ss[4].world == TwoEvents(a, b, false, false)
  {
    var s1 := Next(c, s, Interfere(w));
    var s2 := Next(c, s1, Inspect);
    var s3 := Next(c, s2, Inspect);
    assert s3.world == TwoEvents(a, b, false, false);
    ss := [s, s1, s2, s3, Next(c, s3, EndPass(false))];
  }

  /** Two auto-reset events, each set once after the call has started, never meet: the call
      takes the one signal in one pass and the other in the next.  It goes on polling with
      both signals gone, and NothingFoundFrom says that it will not succeed. */
  lemma SetsTakenApart(a: Handle, b: Handle, me: nat, p: Patience) returns (c: Call, ss: seq<State>, es: seq<Step>)
    requires a != b && p != NoWait
    ensures c == Call(me, [Some(a), Some(b)], false, p) && IsRun(c, ss, es)
    ensures ss[0].world == TwoEvents(a, b, false, false)
    ensures es == SetAndPoll(TwoEvents(a, b, true, false)) + [NextPass] + SetAndPoll(TwoEvents(a, b, false, true))
    ensures ss[|es|].pc.Sleeping? && NothingFound(c, ss[|es|])
  {
    c := Call(me, [Some(a), Some(b)], false, p);
    var start := State(TwoEvents(a, b, false, false), At(0, 0), 0, []);
    var one, two := TwoEvents(a, b, true, false), TwoEvents(a, b, false, true);
    var first := OnePass(c, start, a, b, one);
    var again := Next(c, first[4], NextPass);
    var second := OnePass(c, again, a, b, two);
    PathConcat(c, first, SetAndPoll(one), [first[4], again], [NextPass]);
    ss, es := first + [first[4], again][1..], SetAndPoll(one) + [NextPass];
    PathConcat(c, ss, es, second, SetAndPoll(two));
    ss, es := ss + second[1..], es + SetAndPoll(two);
    PathIsRun(c, ss, es);
  }

  lemma PathIsRun(c: Call, ss: seq<State>, es: seq<Step>)
    requires IsPath(c, ss, es) && Initial(c, ss[0])
    ensures IsRun(c, ss, es)
  {
    forall i | 0 <= i < |es| ensures Enabled(c, ss[i], es[i]) && ss[i + 1] == Next(c, ss[i], es[i]) {
      assert StepsTo(c, ss[i], es[i], ss[i + 1]);
    }
  }

  /** The first n entries are all non-null and available. */
  predicate AllAvailable(c: Call, w: World, n: nat)
    requires n <= |c.handles| && Valid(c, w)
  {
    forall j | 0 <= j < n :: c.handles[j].Some? && Available(w[c.handles[j].value])
  }

  predicate NoneAvailable(c: Call, w: World, n: nat)
    requires n <= |c.handles| && Valid(c, w)
  {
    forall j | 0 <= j < n && c.handles[j].Some? :: !Available(w[c.handles[j].value])
  }

  lemma DrainedNothing(c: Call, world: World, after: World)
    requires Valid(c, world) && Drained(c, world, after, |c.handles|)
    ensures after == world <==>
            forall j | 0 <= j < |c.handles| && c.handles[j].Some? :: Stock(world[c.handles[j].value]) == 0
  {
    if after == world {
      forall j | 0 <= j < |c.handles| && c.handles[j].Some? ensures Stock(world[c.handles[j].value]) == 0 {
        assert Listed(c, |c.handles|, c.handles[j].value);
      }
    }
  }

  /** What a pass has established once it has inspected the first n entries. */
  ghost predicate PassInv(c: Call, world: World, after: World, n: nat, hits: nat)
    requires n <= |c.handles| && Valid(c, world)
  {
    && Drained(c, world, after, n)
    && hits <= n
    && (c.any ==> after == world && NoneAvailable(c, world, n))
    && (!c.any && Distinct(c) ==> (hits == n <==> AllAvailable(c, world, n)))
  }

  /** An object not listed so far is still as it was. */
  lemma FirstInspection(c: Call, world: World, after: World, n: nat)
    requires n < |c.handles| && Valid(c, world) && Drained(c, world, after, n) && c.handles[n].Some?
    ensures c.handles[n].value in after
    ensures Distinct(c) ==> after[c.handles[n].value] == world[c.handles[n].value]
  {
    assert Distinct(c) ==> !Listed(c, n, c.handles[n].value);
  }

  /** An inspection that does not end the pass. */
  lemma InspectionKeepsPassInv(c: Call, world: World, after: World, n: nat, hits: nat, next: World, found: bool)
    requires n < |c.handles| && Valid(c, world) && PassInv(c, world, after, n, hits)
    requires if c.handles[n].None? then next == after && !found
             else
               && c.handles[n].value in after
               && next == after[c.handles[n].value := Inspected(after[c.handles[n].value], c.me)]
               && found == Available(after[c.handles[n].value])
    requires c.any ==> !found
    ensures PassInv(c, world, next, n + 1, if found then hits + 1 else hits)
  {
    InspectionDrains(c, world, after, n, next);
    if c.handles[n].Some? {
      FirstInspection(c, world, after, n);
      if !found {
        assert next == after;
      }
    }
  }

  /** One pass of the polling loop.  A wait for any stops at the first available entry.
      A wait for all inspects everything, and what it takes from the available entries
      is gone whether or not the pass succeeds: the pass leaves the objects alone if
      and only if no listed object had anything to give. */
  method InspectPass(c: Call, world: World) returns (hit: Option<nat>, hits: nat, after: World)
    requires Valid(c, world)
    ensures c.any && hit.Some? ==>
              && hit.value < |c.handles| && c.handles[hit.value].Some?
              && (var h := c.handles[hit.value].value;
                  Available(world[h]) && after == world[h := Inspected(world[h], c.me)])
              && NoneAvailable(c, world, hit.value)
    ensures c.any && hit.None? ==> after == world && NoneAvailable(c, world, |c.handles|)
    ensures !c.any ==> hit.None? && hits <= |c.handles|
    ensures !c.any && Distinct(c) ==> (hits == |c.handles| <==> AllAvailable(c, world, |c.handles|))
    ensures !c.any ==>
              (after == world <==>
               forall j | 0 <= j < |c.handles| && c.handles[j].Some? :: Stock(world[c.handles[j].value]) == 0)
  {
    hit, hits, after := None, 0, world;
    for i := 0 to |c.handles|
      invariant hit.None? && PassInv(c, world, after, i, hits)
    {
      ghost var before, hitsBefore := after, hits;
      var sig := false;
      if c.handles[i].Some? {
        var h := c.handles[i].value;
        sig := Available(after[h]);
        after := after[h := Inspected(after[h], c.me)];
        if sig {
          hits := hits + 1;
          if c.any {
            return Some(i), hits, after;
          }
        }
      }
      InspectionKeepsPassInv(c, world, before, i, hitsBefore, after, sig);
    }
    DrainedNothing(c, world, after);
  }
}
