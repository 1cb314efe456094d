/**
 The recursive NT mutex of compat/windows/mvgal_ntsync.c, as a machine whose steps
 are single accesses to shared fields or whole pthread-lock critical sections.

 A mutex is acquired in three ways: by re-entry, without any lock; by a
 compare-and-swap on `word` (a try-lock or a multi-wait); and by the blocking path,
 which loads `word` and later stores 1 to it while holding the pthread lock
 (`guard`).  A compare-and-swap does not take the guard, so it can land between the
 blocking path's load and its store.

 Re-entry reads and writes the recursion count without the guard, so every read and
 write of that field is a step of its own, under the guard as well.  Only the pair of
 stores to the owner and the count is one step: no thread outside the guard, once it
 has seen the new owner, looks at the count before the guard is free again.
 */
module NtMutex {

  import opened Common

  /** A thread identifier; 0 is "nobody". */
  type Tid = t: nat | t > 0 witness 1

  /** Where a thread is.  `resumed` marks a blocking acquirer that has been woken. */
  datatype Pc =
    | Out
    | CheckCount(p: Patience)                 // owner_thread was ours: test recursion_count
    | IncLoad                                 // recursion_count++ : read ...
    | IncStore(v: nat)                        // ... and write
    | TryCas                                  // non-blocking path
    | Won(poll: bool)                         // compare-and-swap succeeded, owner not yet written
    | TakeGuard(timed: bool)                  // blocking path, about to lock
    | LoadWord(timed: bool, resumed: bool)    // guard held: loop test
    | MustWait(timed: bool)                   // guard held: word was not 0
    | Asleep(timed: bool)
    | Woken(timed: bool)
    | Expired                                 // timed out, must re-take the guard to return
    | MustStore(resumed: bool)                // guard held: word was 0
    | MustOwn                                 // guard held: 1 stored, owner not yet written
    | DecLoad                                 // unlock, guard held: recursion_count-- : read ...
    | DecStore(v: nat)                        // ... and write
    | MustDrop                                // unlock, guard held: last level, owner to be cleared
    | MustClear                               // unlock, guard held: owner cleared, word still 1
    | MustSignal                              // unlock, guard held: word cleared

  /** `depth[t]` is the number of completed locks of t that t has not yet undone. */
  datatype State = State(word: nat, owner: nat, count: nat, abandoned: bool, guard: nat,
                         pc: map<Tid, Pc>, depth: map<Tid, nat>)

  datatype Event =
    | CallLock(t: Tid, p: Patience)
    | DoCheckCount(t: Tid)
    | DoIncLoad(t: Tid)
    | DoIncStore(t: Tid)
    | DoCas(t: Tid)
    | PollCas(t: Tid)            // compare-and-swap of a multi-wait
    | Publish(t: Tid)            // section after a successful compare-and-swap
    | DoTakeGuard(t: Tid)
    | DoLoadWord(t: Tid)
    | DoWait(t: Tid)
    | SpuriousWake(t: Tid)
    | Expire(t: Tid)
    | ReturnTimeout(t: Tid)
    | DoStore(t: Tid)
    | DoOwn(t: Tid)
    | CallUnlock(t: Tid)
    | DoDecLoad(t: Tid)
    | DoDecStore(t: Tid)
    | DoDrop(t: Tid)
    | DoClear(t: Tid)
    | DoSignal(t: Tid, wake: set<Tid>)

  predicate WellTyped(s: State) {
    s.depth.Keys == s.pc.Keys
  }

  /** Every thread is outside; either nobody or the creating thread owns the mutex. */
  predicate Initial(s: State) {
    && WellTyped(s)
    && (forall t | t in s.pc :: s.pc[t] == Out)
    && s.guard == 0 && !s.abandoned
    && (if s.owner == 0
        then s.word == 0 && s.count == 0 && forall t | t in s.depth :: s.depth[t] == 0
        else s.word == 1 && s.count == 1 && s.owner in s.depth
             && forall t | t in s.depth :: s.depth[t] == if t == s.owner then 1 else 0)
  }

  function Sleepers(s: State): set<Tid> {
    set t | t in s.pc && s.pc[t].Asleep?
  }

  predicate Enabled(s: State, e: Event) {
    && WellTyped(s)
    && e.t in s.pc
    && match e
       case CallLock(t, _) => s.pc[t] == Out
       case DoCheckCount(t) => s.pc[t].CheckCount?
       case DoIncLoad(t) => s.pc[t] == IncLoad
       case DoIncStore(t) => s.pc[t].IncStore?
       case DoCas(t) => s.pc[t] == TryCas
       case PollCas(t) => s.pc[t] == Out
       case Publish(t) => s.pc[t].Won? && s.guard == 0
       case DoTakeGuard(t) => (s.pc[t].TakeGuard? || s.pc[t].Woken?) && s.guard == 0
       case DoLoadWord(t) => s.pc[t].LoadWord?
       case DoWait(t) => s.pc[t].MustWait?
       case SpuriousWake(t) => s.pc[t].Asleep?
       case Expire(t) => s.pc[t] == Asleep(true)
       case ReturnTimeout(t) => s.pc[t] == Expired && s.guard == 0
       case DoStore(t) => s.pc[t].MustStore?
       case DoOwn(t) => s.pc[t] == MustOwn
       case CallUnlock(t) => s.pc[t] == Out && s.guard == 0
       case DoDecLoad(t) => s.pc[t] == DecLoad
       case DoDecStore(t) => s.pc[t].DecStore?
       case DoDrop(t) => s.pc[t] == MustDrop
       case DoClear(t) => s.pc[t] == MustClear
       case DoSignal(t, wake) =>
         && s.pc[t] == MustSignal
         && wake <= Sleepers(s) && (wake == {} ==> Sleepers(s) == {})
  }

  function Goto(s: State, t: Tid, pc: Pc): State {
    s.(pc := s.pc[t := pc])
  }

  /** The path taken when the caller does not already own the mutex. */
  function Start(p: Patience): Pc {
    if p == NoWait then TryCas else TakeGuard(p == Timed)
  }

  /** An unlock undoes one lock of the caller, if it has any. */
  function Less(depth: nat): nat {
    if depth > 0 then depth - 1 else 0
  }

  function Wake(s: State, wake: set<Tid>): map<Tid, Pc> {
    map t | t in s.pc :: if t in wake && s.pc[t].Asleep? then Woken(s.pc[t].timed) else s.pc[t]
  }

  function Step(s: State, e: Event): State
    requires Enabled(s, e)
  {
    match e
    case CallLock(t, p) => Goto(s, t, if s.owner == t then CheckCount(p) else Start(p))
    case DoCheckCount(t) => Goto(s, t, if s.count > 0 then IncLoad else Start(s.pc[t].p))
    case DoIncLoad(t) => Goto(s, t, IncStore(s.count))
    case DoIncStore(t) =>
      Goto(s, t, Out).(count := (s.pc[t].v + 1) % TWO32, depth := s.depth[t := s.depth[t] + 1])
    case DoCas(t) => if s.word == 0 then Goto(s, t, Won(false)).(word := 1) else Goto(s, t, Out)
    case PollCas(t) => if s.word == 0 then Goto(s, t, Won(true)).(word := 1) else s
    case Publish(t) =>
      Goto(s, t, Out).(owner := t, count := 1, abandoned := s.pc[t].poll && s.abandoned,
                       depth := s.depth[t := s.depth[t] + 1])
    case DoTakeGuard(t) => Goto(s, t, LoadWord(s.pc[t].timed, s.pc[t].Woken?)).(guard := t)
    case DoLoadWord(t) =>
      Goto(s, t, if s.word != 0 then MustWait(s.pc[t].timed) else MustStore(s.pc[t].resumed))
    case DoWait(t) => Goto(s, t, Asleep(s.pc[t].timed)).(guard := 0)
    case SpuriousWake(t) => Goto(s, t, Woken(s.pc[t].timed))
    case Expire(t) => Goto(s, t, Expired)
    case ReturnTimeout(t) => Goto(s, t, Out)
    case DoStore(t) => Goto(s, t, MustOwn).(word := 1)
    case DoOwn(t) =>
      Goto(s, t, Out).(owner := t, count := 1, abandoned := false, guard := 0,
                       depth := s.depth[t := s.depth[t] + 1])
    case CallUnlock(t) => Goto(s, t, if s.count > 1 then DecLoad else MustDrop).(guard := t)
    case DoDecLoad(t) => Goto(s, t, DecStore(s.count))
    case DoDecStore(t) =>
      Goto(s, t, Out).(count := (s.pc[t].v + TWO32 - 1) % TWO32, guard := 0, depth := s.depth[t := Less(s.depth[t])])
    case DoDrop(t) => Goto(s, t, MustClear).(owner := 0, count := 0, depth := s.depth[t := Less(s.depth[t])])
    case DoClear(t) => Goto(s, t, MustSignal).(word := 0)
    case DoSignal(t, wake) => Goto(s.(pc := Wake(s, wake)), t, Out).(guard := 0)
  }

  /** A finite execution from any state. */
  ghost predicate IsPath(ss: seq<State>, es: seq<Event>) {
    && |ss| == |es| + 1
    && forall i | 0 <= i < |es| :: Enabled(ss[i], es[i]) && ss[i + 1] == Step(ss[i], es[i])
  }

  ghost predicate IsRun(ss: seq<State>, es: seq<Event>) {
    IsPath(ss, es) && Initial(ss[0])
  }

  // ---- The pthread lock and the condition variable: every run ----

  predicate Guarded(pc: Pc) {
    || pc.LoadWord? || pc.MustWait? || pc.MustStore? || pc.MustOwn?
    || pc.DecLoad? || pc.DecStore? || pc.MustDrop? || pc.MustClear? || pc.MustSignal?
  }

  /** A blocking acquirer that was woken and has not yet acted on it. */
  predicate YetToRun(pc: Pc) {
    pc.Woken? || (pc.LoadWord? && pc.resumed) || (pc.MustStore? && pc.resumed)
  }

  ghost predicate GuardInv(s: State) {
    && WellTyped(s)
    && s.word <= 1
    && !s.abandoned
    && (s.guard != 0 ==> s.guard in s.pc)
    && forall t | t in s.pc :: GuardThread(s, t)
  }

  ghost predicate GuardThread(s: State, t: Tid)
    requires t in s.pc
  {
    && (Guarded(s.pc[t]) <==> s.guard == t)
    && (s.pc[t].MustWait? ==> s.word == 1)
  }

  /** A free mutex with a sleeper has a woken waiter on its way, or an unlock about to signal. */
  ghost predicate WakeInv(s: State) {
    s.word == 0 && (exists t | t in s.pc :: s.pc[t].Asleep?) ==>
      exists u | u in s.pc :: YetToRun(s.pc[u]) || s.pc[u] == MustSignal
  }

  lemma StepKeepsGuardInv(s: State, e: Event)
    requires GuardInv(s) && Enabled(s, e)
    ensures GuardInv(Step(s, e))
  {
    var s' := Step(s, e);
    StepKeepsThreads(s, e);
    assert GuardThread(s, e.t);
    MoverKeepsGuard(s, e);
    FieldsStep(s, e);
    forall t | t in s'.pc && t != e.t ensures GuardThread(s', t) {
      OthersStayPut(s, e, t);
      assert GuardThread(s, t);
    }
  }

  lemma MoverKeepsGuard(s: State, e: Event)
    requires GuardInv(s) && Enabled(s, e)
    ensures WellTyped(Step(s, e)) && e.t in Step(s, e).pc && GuardThread(Step(s, e), e.t)
    ensures Step(s, e).guard == s.guard || (s.guard == 0 && Step(s, e).guard == e.t)
            || (s.guard == e.t && Step(s, e).guard == 0)
  {
    StepKeepsThreads(s, e);
    GuardMoves(s, e);
    assert Step(s, e).pc[e.t].MustWait? ==> Step(s, e).word == 1 by {
      assert GuardThread(s, e.t);
      FieldsStep(s, e);
    }
  }

  /** A step takes the guard, gives it up or leaves it, as the new place of its thread says. */
  lemma GuardMoves(s: State, e: Event)
    requires GuardInv(s) && Enabled(s, e)
    ensures e.t in Step(s, e).pc && (Guarded(Step(s, e).pc[e.t]) <==> Step(s, e).guard == e.t)
    ensures Step(s, e).guard == s.guard || (s.guard == 0 && Step(s, e).guard == e.t)
            || (s.guard == e.t && Step(s, e).guard == 0)
  {
    assert GuardThread(s, e.t);
  }

  lemma FieldsStep(s: State, e: Event)
    requires GuardInv(s) && Enabled(s, e)
    ensures Step(s, e).word <= 1 && !Step(s, e).abandoned
    ensures Step(s, e).word < s.word ==> s.guard == e.t
  {
    assert GuardThread(s, e.t);
  }

  /** A step moves its own thread; a signal also wakes sleepers. */
  lemma OthersStayPut(s: State, e: Event, t: Tid)
    requires Enabled(s, e) && t in s.pc && t != e.t
    ensures var s' := Step(s, e);
            && t in s'.pc && s'.depth.Keys == s'.pc.Keys && s'.depth[t] == s.depth[t]
            && (s'.pc[t] == s.pc[t] || (s.pc[t].Asleep? && s'.pc[t].Woken?))
  {
  }

  lemma StepKeepsThreads(s: State, e: Event)
    requires Enabled(s, e)
    ensures WellTyped(Step(s, e)) && Step(s, e).pc.Keys == s.pc.Keys
  {
  }

  lemma StepKeepsWakeInv(s: State, e: Event)
    requires GuardInv(s) && WakeInv(s) && Enabled(s, e)
    ensures WakeInv(Step(s, e))
  {
    var s' := Step(s, e);
    if s'.word == 0 && exists t | t in s'.pc :: s'.pc[t].Asleep? {
      if e.DoSignal? {
        assert e.wake != {};
        var w :| w in e.wake;
        assert YetToRun(s'.pc[w]);
      } else if e.DoClear? {
        assert s'.pc[e.t] == MustSignal;
      } else if e.SpuriousWake? {
        assert YetToRun(s'.pc[e.t]);
      } else {
        var t :| t in s'.pc && s'.pc[t].Asleep?;
        assert s.pc[t].Asleep?;
        var u :| u in s.pc && (YetToRun(s.pc[u]) || s.pc[u] == MustSignal);
        assert YetToRun(s'.pc[u]) || s'.pc[u] == MustSignal;
      }
    }
  }

  lemma {:induction false} RunKeepsWakeInv(ss: seq<State>, es: seq<Event>, k: nat)
    requires IsRun(ss, es) && k <= |es|
    ensures GuardInv(ss[k]) && WakeInv(ss[k])
  {
    if k == 0 {
    } else {
      RunKeepsWakeInv(ss, es, k - 1);
      StepKeepsGuardInv(ss[k - 1], es[k - 1]);
      StepKeepsWakeInv(ss[k - 1], es[k - 1]);
    }
  }

  /** No wake-up is lost, in any run at all: threads may steal the mutex by
      compare-and-swap, time out, wake spuriously or unlock what they do not own. */
  lemma NoLostWakeUp(ss: seq<State>, es: seq<Event>, k: nat)
    requires IsRun(ss, es) && k <= |es|
    requires ss[k].word == 0 && Sleepers(ss[k]) != {}
    requires forall t | t in ss[k].pc :: ss[k].pc[t] != MustSignal
    ensures exists u | u in ss[k].pc :: YetToRun(ss[k].pc[u])
  {
    RunKeepsWakeInv(ss, es, k);
    var t :| t in Sleepers(ss[k]);
    assert ss[k].pc[t].Asleep?;
  }

  /** At most one thread is inside the pthread lock, and `abandoned` is never set, so
      a lock call never reports WAIT_ABANDONED. */
  lemma GuardIsExclusiveAndNeverAbandoned(ss: seq<State>, es: seq<Event>, k: nat)
    requires IsRun(ss, es) && k <= |es|
    ensures !ss[k].abandoned
    ensures forall t, u | t in ss[k].pc && u in ss[k].pc :: Guarded(ss[k].pc[t]) && Guarded(ss[k].pc[u]) ==> t == u
  {
    RunKeepsWakeInv(ss, es, k);
  }

  // ---- Timeouts: every run ----

  /** The timeout thread t gave to its latest lock call among the first k events. */
  ghost function LastPatience(es: seq<Event>, k: nat, t: Tid): Option<Patience>
    requires k <= |es|
  {
    if k == 0 then None
    else if es[k - 1].CallLock? && es[k - 1].t == t then Some(es[k - 1].p)
    else LastPatience(es, k - 1, t)
  }

  /** What the place of a thread says about the timeout it gave. */
  predicate Remembers(pc: Pc, last: Option<Patience>) {
    match pc
    case CheckCount(p) => last == Some(p)
    case TryCas => last == Some(NoWait)
    case TakeGuard(timed) => Blocking(timed, last)
    case LoadWord(timed, _) => Blocking(timed, last)
    case MustWait(timed) => Blocking(timed, last)
    case Asleep(timed) => Blocking(timed, last)
    case Woken(timed) => Blocking(timed, last)
    case Expired => last == Some(Timed)
    case MustStore(_) => last == Some(Timed) || last == Some(Forever)
    case MustOwn => last == Some(Timed) || last == Some(Forever)
    case Won(poll) => !poll ==> last == Some(NoWait)
    case _ => true
  }

  predicate Blocking(timed: bool, last: Option<Patience>) {
    last == Some(if timed then Timed else Forever)
  }

  lemma {:induction false} PatienceIsRemembered(ss: seq<State>, es: seq<Event>, k: nat, t: Tid)
    requires IsRun(ss, es) && k <= |es| && t in ss[0].pc
    ensures t in ss[k].pc && Remembers(ss[k].pc[t], LastPatience(es, k, t))
  {
    if k == 0 {
    } else {
      PatienceIsRemembered(ss, es, k - 1, t);
      PatienceStep(ss[k - 1], es[k - 1], t, LastPatience(es, k - 1, t));
    }
  }

  lemma PatienceStep(s: State, e: Event, t: Tid, last: Option<Patience>)
    requires Enabled(s, e) && t in s.pc && Remembers(s.pc[t], last)
    ensures t in Step(s, e).pc
    ensures Remembers(Step(s, e).pc[t], if e.CallLock? && e.t == t then Some(e.p) else last)
  {
    if t == e.t {
      MoverRemembers(s, e, last);
    } else {
      OthersStayPut(s, e, t);
    }
  }

  lemma MoverRemembers(s: State, e: Event, last: Option<Patience>)
    requires Enabled(s, e) && Remembers(s.pc[e.t], last)
    ensures e.t in Step(s, e).pc
    ensures Remembers(Step(s, e).pc[e.t], if e.CallLock? then Some(e.p) else last)
  {
  }

  /** Waiting threads and their timeouts, over every run: a thread sleeps only in a call that
      gave a nonzero timeout; its deadline can pass exactly if that timeout was finite. */
  lemma SleepersMayExpireIffTimed(ss: seq<State>, es: seq<Event>, k: nat, t: Tid)
    requires IsRun(ss, es) && k <= |es| && t in ss[k].pc && ss[k].pc[t].Asleep?
    ensures LastPatience(es, k, t) == Some(Timed) || LastPatience(es, k, t) == Some(Forever)
    ensures Enabled(ss[k], Expire(t)) <==> LastPatience(es, k, t) == Some(Timed)
  {
    PathKeepsThreads(ss, es, k);
    PatienceIsRemembered(ss, es, k, t);
  }

  datatype LockResult = Object0 | Timeout | Abandoned

  /** What a lock call of the step's thread returns in this step, if it returns at all. */
  function Returns(s: State, e: Event): Option<LockResult>
    requires Enabled(s, e)
  {
    match e
    case DoIncStore(_) => Some(Object0)
    case DoCas(_) => if s.word != 0 then Some(Timeout) else None
    case Publish(t) => if s.pc[t].poll then None else Some(Object0)
    case ReturnTimeout(_) => Some(Timeout)
    case DoOwn(_) => Some(if s.abandoned then Abandoned else Object0)
    case _ => None
  }

  /** Lock calls report TIMEOUT only for a reason: a call with timeout 0 that found the word
      taken, or a call with a finite timeout.  They report success exactly when the caller
      has gained one more level, and never WAIT_ABANDONED. */
  lemma LockResultsAreEarned(ss: seq<State>, es: seq<Event>, k: nat)
    requires IsRun(ss, es) && k < |es|
    ensures Returns(ss[k], es[k]) == Some(Timeout) ==>
              || LastPatience(es, k, es[k].t) == Some(Timed)
              || (LastPatience(es, k, es[k].t) == Some(NoWait) && ss[k].word != 0)
    ensures es[k].ReturnTimeout? ==> LastPatience(es, k, es[k].t) == Some(Timed)
    ensures Returns(ss[k], es[k]) != Some(Abandoned)
    ensures WellTyped(ss[k + 1]) && es[k].t in ss[k + 1].pc
    ensures Returns(ss[k], es[k]) == Some(Object0) || (es[k].Publish? && ss[k].pc[es[k].t].poll)
            <==> ss[k + 1].depth[es[k].t] == ss[k].depth[es[k].t] + 1
  {
    PathKeepsThreads(ss, es, k);
    PatienceIsRemembered(ss, es, k, es[k].t);
    RunKeepsWakeInv(ss, es, k);
    StepKeepsThreads(ss[k], es[k]);
  }

  // ---- Mutual exclusion: disciplined runs ----

  /** t has taken the mutex (its compare-and-swap or store has happened) and has not
      yet put 0 back into the word. */
  predicate Claims(s: State, t: Tid)
    requires WellTyped(s) && t in s.pc
  {
    s.pc[t].Won? || s.pc[t].MustOwn? || s.pc[t].MustClear? || s.depth[t] > 0
  }

  ghost predicate Exclusive(s: State)
    requires WellTyped(s)
  {
    forall t, u | t in s.pc && u in s.pc && Claims(s, t) && Claims(s, u) :: t == u
  }

  predicate WindowOpen(s: State) {
    exists t | t in s.pc :: s.pc[t].MustStore?
  }

  /** Only holders unlock; no compare-and-swap succeeds while a blocking acquirer is
      between its load of 0 and its store of 1; recursion stays below 2^32. */
  predicate Disciplined(s: State, e: Event)
    requires Enabled(s, e)
  {
    match e
    case CallUnlock(t) => s.depth[t] > 0
    case DoCas(_) => s.word == 0 ==> !WindowOpen(s)
    case PollCas(_) => s.word == 0 ==> !WindowOpen(s)
    case DoIncStore(t) => s.pc[t].v + 1 < TWO32
    case _ => true
  }

  /** A thread that relies on the mutex: it holds it, or is on its way in or out. */
  predicate Involved(pc: Pc) {
    pc.Won? || pc.MustStore? || pc.MustOwn? || pc.MustClear? || Counting(pc)
  }

  /** A thread that is changing the recursion count. */
  predicate Counting(pc: Pc) {
    pc.CheckCount? || pc.IncLoad? || pc.IncStore? || pc.DecLoad? || pc.DecStore? || pc.MustDrop?
  }

  /** What the program counter of a thread says about the shared fields. */
  ghost predicate ThreadInv(s: State, t: Tid)
    requires WellTyped(s) && t in s.pc
  {
    && (s.depth[t] > 0 <==> s.owner == t)
    && (s.depth[t] > 0 ==>
          match s.pc[t]
          case Out => s.count == s.depth[t]
          case CheckCount(_) => s.count == s.depth[t]
          case IncLoad => s.count == s.depth[t]
          case IncStore(v) => s.count <= v == s.depth[t] < TWO32     // about to overwrite the count
          case DecLoad => s.count == s.depth[t] > 1
          case DecStore(v) => v == s.count == s.depth[t] > 1
          case MustDrop => s.count == s.depth[t] == 1
          case _ => false)
    && (Counting(s.pc[t]) ==> s.depth[t] > 0)
    && (s.pc[t].MustStore? ==> s.word == 0)
    && (Claims(s, t) ==> s.word == 1)
  }

  ghost predicate ExclInv(s: State) {
    && GuardInv(s)
    && Exclusive(s)
    && (s.word == 1 ==> exists t | t in s.pc :: Claims(s, t))
    && (s.owner != 0 ==> s.owner in s.pc)
    && (s.owner == 0 ==> s.count == 0)
    && s.count < TWO32
    && forall t | t in s.pc :: ThreadInv(s, t)
  }

  /** The recursion count is that of the owner. */
  ghost predicate CountExact(s: State)
    requires WellTyped(s)
  {
    forall t | t in s.pc && s.depth[t] > 0 :: s.count == s.depth[t]
  }

  ghost predicate IsDisciplinedPath(ss: seq<State>, es: seq<Event>) {
    IsPath(ss, es) && forall i | 0 <= i < |es| :: Disciplined(ss[i], es[i])
  }

  /** A step that leaves the word, the owner and the depths alone, and moves threads only
      between places that neither claim the mutex nor rely on its fields. */
  lemma QuietStepKeepsExclInv(s: State, s': State)
    requires ExclInv(s) && GuardInv(s')
    requires s'.word == s.word && s'.owner == s.owner && s'.count == s.count
    requires s'.depth == s.depth
    requires forall t | t in s.pc :: s'.pc[t] == s.pc[t] ||
               (ThreadInv(s', t) && Claims(s, t) == Claims(s', t))
    ensures ExclInv(s')
  {
    forall t | t in s'.pc ensures ThreadInv(s', t) && Claims(s, t) == Claims(s', t) {
      assert ThreadInv(s, t);
    }
  }

  /** Steps that take the mutex. */
  lemma AcquireKeepsExclInv(s: State, e: Event)
    requires ExclInv(s) && Enabled(s, e) && Disciplined(s, e)
    requires e.DoCas? || e.PollCas? || e.DoStore?
    ensures ExclInv(Step(s, e))
  {
    var s' := Step(s, e);
    StepKeepsGuardInv(s, e);
    assert ThreadInv(s, e.t);
    if s.word == 0 {
      assert Claims(s', e.t);
      forall t | t in s'.pc ensures ThreadInv(s', t) && (Claims(s', t) ==> t == e.t) {
        assert ThreadInv(s, t) && !Claims(s, t) && GuardThread(s, t) && GuardThread(s, e.t);
      }
    } else {
      QuietStepKeepsExclInv(s, s');
    }
  }

  lemma OwnKeepsExclInv(s: State, e: Event)
    requires ExclInv(s) && Enabled(s, e) && Disciplined(s, e)
    requires e.Publish? || e.DoOwn? || e.DoIncStore?
    ensures ExclInv(Step(s, e))
  {
    var s' := Step(s, e);
    StepKeepsGuardInv(s, e);
    assert ThreadInv(s, e.t) && Claims(s, e.t) && Claims(s', e.t);
    forall t | t in s'.pc ensures ThreadInv(s', t) && (Claims(s', t) ==> t == e.t) {
      assert ThreadInv(s, t) && (Claims(s, t) ==> t == e.t);
    }
  }

  /** The test and the load of an unlock. */
  lemma UnlockKeepsExclInv(s: State, e: Event)
    requires ExclInv(s) && Enabled(s, e) && Disciplined(s, e) && (e.CallUnlock? || e.DoDecLoad?)
    ensures ExclInv(Step(s, e))
  {
    StepKeepsGuardInv(s, e);
    assert ThreadInv(s, e.t);
    QuietStepKeepsExclInv(s, Step(s, e));
  }

  /** The stores of an unlock, before the word is cleared. */
  lemma UndoKeepsExclInv(s: State, e: Event)
    requires ExclInv(s) && Enabled(s, e) && (e.DoDecStore? || e.DoDrop?)
    ensures ExclInv(Step(s, e))
  {
    StepKeepsGuardInv(s, e);
    var s' := Step(s, e);
    assert ThreadInv(s, e.t) && Claims(s, e.t) && Claims(s', e.t);
    forall t | t in s'.pc ensures ThreadInv(s', t) && (Claims(s', t) ==> t == e.t) {
      assert ThreadInv(s, t) && (Claims(s, t) ==> t == e.t);
    }
  }

  lemma ClearKeepsExclInv(s: State, e: Event)
    requires ExclInv(s) && Enabled(s, e) && e.DoClear?
    ensures ExclInv(Step(s, e))
  {
    StepKeepsGuardInv(s, e);
    assert Claims(s, e.t);
    var s' := Step(s, e);
    forall t | t in s'.pc ensures !Claims(s', t) && ThreadInv(s', t) {
      assert ThreadInv(s, t) && (Claims(s, t) ==> t == e.t);
    }
  }

  /** The unlocked recursion test. */
  lemma ReentryKeepsExclInv(s: State, e: Event)
    requires ExclInv(s) && Enabled(s, e)
    requires e.CallLock? || e.DoCheckCount? || e.DoIncLoad?
    ensures ExclInv(Step(s, e))
  {
    StepKeepsGuardInv(s, e);
    assert ThreadInv(s, e.t);
    QuietStepKeepsExclInv(s, Step(s, e));
  }

  /** One thread moves between places that neither claim the mutex nor rely on its fields. */
  lemma MoveKeepsExclInv(s: State, s': State, t: Tid, pc: Pc)
    requires ExclInv(s) && GuardInv(s') && t in s.pc && s' == s.(pc := s.pc[t := pc], guard := s'.guard)
    requires !Involved(s.pc[t]) && s.depth[t] == 0
    requires !Involved(pc) || (pc.MustStore? && s.word == 0)
    ensures ExclInv(s')
  {
    assert ThreadInv(s, t);
    assert ThreadInv(s', t) && Claims(s, t) == Claims(s', t);
    QuietStepKeepsExclInv(s, s');
  }

  /** The loop of the blocking path, under the guard. */
  lemma LoopKeepsExclInv(s: State, e: Event)
    requires ExclInv(s) && Enabled(s, e)
    requires e.DoTakeGuard? || e.DoLoadWord? || e.DoWait?
    ensures ExclInv(Step(s, e))
  {
    StepKeepsGuardInv(s, e);
    assert ThreadInv(s, e.t);
    MoveKeepsExclInv(s, Step(s, e), e.t, Step(s, e).pc[e.t]);
  }

  /** Waiters leaving the condition variable on their own. */
  lemma WaiterLeavesKeepsExclInv(s: State, e: Event)
    requires ExclInv(s) && Enabled(s, e)
    requires e.SpuriousWake? || e.Expire? || e.ReturnTimeout?
    ensures ExclInv(Step(s, e))
  {
    StepKeepsGuardInv(s, e);
    assert ThreadInv(s, e.t);
    MoveKeepsExclInv(s, Step(s, e), e.t, Step(s, e).pc[e.t]);
  }

  lemma SignalKeepsExclInv(s: State, e: Event)
    requires ExclInv(s) && Enabled(s, e) && e.DoSignal?
    ensures ExclInv(Step(s, e))
  {
    StepKeepsGuardInv(s, e);
    var s' := Step(s, e);
    forall t | t in s.pc && s'.pc[t] != s.pc[t]
      ensures ThreadInv(s', t) && Claims(s, t) == Claims(s', t)
    {
      SignalMoves(s, e, t);
      MovedThread(s, s', t);
    }
    QuietStepKeepsExclInv(s, s');
  }

  lemma SignalMoves(s: State, e: Event, t: Tid)
    requires Enabled(s, e) && e.DoSignal? && t in s.pc
    ensures var s' := Step(s, e);
            && s'.pc.Keys == s.pc.Keys
            && (|| s'.pc[t] == s.pc[t]
                || (s.pc[t].Asleep? && s'.pc[t].Woken?)
                || (s.pc[t].MustSignal? && s'.pc[t] == Out))
  {
  }

  /** A thread that moves between places that neither claim nor rely on anything. */
  lemma MovedThread(s: State, s': State, t: Tid)
    requires ExclInv(s) && WellTyped(s') && t in s.pc && t in s'.pc
    requires s'.word == s.word && s'.owner == s.owner && s'.count == s.count && s'.depth == s.depth
    requires (s.pc[t].Asleep? && s'.pc[t].Woken?) || (s.pc[t].MustSignal? && s'.pc[t] == Out)
    ensures ThreadInv(s', t) && Claims(s, t) == Claims(s', t)
  {
    assert ThreadInv(s, t);
  }

  lemma StepKeepsExclInv(s: State, e: Event)
    requires ExclInv(s) && Enabled(s, e) && Disciplined(s, e)
    ensures ExclInv(Step(s, e))
  {
    if e.DoCas? || e.PollCas? || e.DoStore? {
      AcquireKeepsExclInv(s, e);
    } else if e.Publish? || e.DoOwn? || e.DoIncStore? {
      OwnKeepsExclInv(s, e);
    } else if e.CallUnlock? || e.DoDecLoad? {
      UnlockKeepsExclInv(s, e);
    } else if e.DoDecStore? || e.DoDrop? {
      UndoKeepsExclInv(s, e);
    } else if e.DoClear? {
      ClearKeepsExclInv(s, e);
    } else if e.DoSignal? {
      SignalKeepsExclInv(s, e);
    } else if e.CallLock? || e.DoCheckCount? || e.DoIncLoad? {
      ReentryKeepsExclInv(s, e);
    } else if e.DoTakeGuard? || e.DoLoadWord? || e.DoWait? {
      LoopKeepsExclInv(s, e);
    } else {
      WaiterLeavesKeepsExclInv(s, e);
    }
  }

  lemma {:induction false} PathKeepsExclInv(ss: seq<State>, es: seq<Event>, k: nat)
    requires IsDisciplinedPath(ss, es) && ExclInv(ss[0]) && k <= |es|
    ensures ExclInv(ss[k])
  {
    if k == 0 {
    } else {
      PathKeepsExclInv(ss, es, k - 1);
      StepKeepsExclInv(ss[k - 1], es[k - 1]);
    }
  }

  lemma StepKeepsCountExact(s: State, e: Event)
    requires ExclInv(s) && CountExact(s) && Enabled(s, e) && Disciplined(s, e)
    ensures WellTyped(Step(s, e)) && CountExact(Step(s, e))
  {
    assert ThreadInv(s, e.t);
    StepKeepsExclInv(s, e);
    var s' := Step(s, e);
    forall t | t in s'.pc && s'.depth[t] > 0 ensures s'.count == s'.depth[t] {
      assert ThreadInv(s, t) && ThreadInv(s', t);
    }
  }

  lemma {:induction false} PathKeepsCountExact(ss: seq<State>, es: seq<Event>, k: nat)
    requires IsDisciplinedPath(ss, es) && ExclInv(ss[0]) && CountExact(ss[0]) && k <= |es|
    ensures ExclInv(ss[k]) && CountExact(ss[k])
  {
    if k == 0 {
    } else {
      PathKeepsCountExact(ss, es, k - 1);
      StepKeepsExclInv(ss[k - 1], es[k - 1]);
      StepKeepsCountExact(ss[k - 1], es[k - 1]);
    }
  }

  lemma InitialIsExclInv(s: State)
    requires Initial(s)
    ensures ExclInv(s) && CountExact(s)
  {
    if s.owner != 0 {
      assert Claims(s, s.owner);
    }
  }

  /** Mutual exclusion over every disciplined run, across all three acquire paths: at
      most one thread has the mutex; the word is 1 exactly while someone has it; a
      thread whose acquire has completed is the one named by the owner field, and the
      recursion count is its nested locks minus its unlocks. */
  lemma MutualExclusion(ss: seq<State>, es: seq<Event>, k: nat)
    requires IsDisciplinedPath(ss, es) && Initial(ss[0]) && k <= |es|
    ensures WellTyped(ss[k]) && Exclusive(ss[k])
    ensures ss[k].word == 1 <==> exists t | t in ss[k].pc :: Claims(ss[k], t)
    ensures forall t | t in ss[k].pc :: ss[k].depth[t] > 0 <==> ss[k].owner == t
    ensures forall t | t in ss[k].pc && ss[k].depth[t] > 0 :: ss[k].count == ss[k].depth[t]
  {
    InitialIsExclInv(ss[0]);
    PathKeepsCountExact(ss, es, k);
  }

  // ---- The discipline is needed: exactly when each rule may be broken ----

  /** t has taken the mutex and its own unlocks have not yet undone that. */
  predicate Holds(s: State, t: Tid)
    requires WellTyped(s) && t in s.pc
  {
    s.pc[t].Won? || s.pc[t].MustOwn? || s.depth[t] > 0
  }

  ghost predicate TwoHolders(s: State) {
    WellTyped(s) && exists t, u | t in s.pc && u in s.pc :: t != u && Holds(s, t) && Holds(s, u)
  }

  /** Every disciplined continuation keeps the mutex with at most one thread. */
  ghost predicate SafeFrom(s: State) {
    forall ss, es | IsDisciplinedPath(ss, es) && ss[0] == s ::
      forall k | 0 <= k <= |es| :: WellTyped(ss[k]) && Exclusive(ss[k])
  }

  /** Some disciplined continuation ends with two holders. */
  ghost predicate CanBeHeldTwice(s: State) {
    exists ss, es :: IsDisciplinedPath(ss, es) && ss[0] == s && TwoHolders(ss[|es|])
  }

  lemma InvariantIsSafe(s: State)
    requires ExclInv(s)
    ensures SafeFrom(s)
  {
    forall ss, es, k | IsDisciplinedPath(ss, es) && ss[0] == s && 0 <= k <= |es|
      ensures WellTyped(ss[k]) && Exclusive(ss[k])
    {
      PathKeepsExclInv(ss, es, k);
    }
  }

  lemma HeldTwiceIsUnsafe(s: State)
    requires CanBeHeldTwice(s)
    ensures !SafeFrom(s)
  {
    var ss, es :| IsDisciplinedPath(ss, es) && ss[0] == s && TwoHolders(ss[|es|]);
    var last: State := ss[|es|];
    var t, u :| t in last.pc && u in last.pc && t != u && Holds(last, t) && Holds(last, u);
    assert Claims(last, t) && Claims(last, u);
    assert !Exclusive(last);
  }

  lemma HeldTwiceNow(s: State)
    requires TwoHolders(s)
    ensures CanBeHeldTwice(s)
  {
    var ss, es: seq<Event> := [s], [];
    assert IsDisciplinedPath(ss, es) && TwoHolders(ss[|es|]);
  }

  lemma HeldTwiceAfter(s: State, e: Event)
    requires Enabled(s, e) && Disciplined(s, e) && CanBeHeldTwice(Step(s, e))
    ensures CanBeHeldTwice(s)
  {
    var ss, es :| IsDisciplinedPath(ss, es) && ss[0] == Step(s, e) && TwoHolders(ss[|es|]);
    PathPrepend(s, e, ss, es);
    var ss', es' := [s] + ss, [e] + es;
    assert ss'[0] == s && ss'[|es'|] == ss[|es|];
  }

  lemma PathPrepend(s: State, e: Event, ss: seq<State>, es: seq<Event>)
    requires Enabled(s, e) && Disciplined(s, e) && IsDisciplinedPath(ss, es) && ss[0] == Step(s, e)
    ensures IsDisciplinedPath([s] + ss, [e] + es)
  {
    var ss', es' := [s] + ss, [e] + es;
    forall i | 0 <= i < |es'|
      ensures Enabled(ss'[i], es'[i]) && ss'[i + 1] == Step(ss'[i], es'[i]) && Disciplined(ss'[i], es'[i])
    {
      assert i > 0 ==> es'[i] == es[i - 1] && ss'[i] == ss[i - 1] && ss'[i + 1] == ss[i];
    }
  }

  // -- Rule one: no compare-and-swap inside a window --

  /** A compare-and-swap that succeeds, in a try-lock or a multi-wait. */
  predicate Steals(s: State, e: Event) {
    (e.DoCas? || e.PollCas?) && Enabled(s, e) && s.word == 0
  }

  /** Whenever a compare-and-swap succeeds inside an open window, the very next step of
      the blocking acquirer gives the mutex to two threads. */
  lemma StealInWindowBreaksExclusion(s: State, e: Event, t: Tid)
    requires GuardInv(s) && Steals(s, e) && t in s.pc && s.pc[t].MustStore?
    ensures Enabled(Step(s, e), DoStore(t))
    ensures TwoHolders(Step(Step(s, e), DoStore(t)))
  {
    var s' := Step(Step(s, e), DoStore(t));
    assert Holds(s', t) && Holds(s', e.t);
  }

  /** A successful compare-and-swap is harmless exactly when no window is open. */
  lemma StealIsSafeIffNoWindow(s: State, e: Event)
    requires ExclInv(s) && Steals(s, e)
    ensures SafeFrom(Step(s, e)) <==> !WindowOpen(s)
    ensures CanBeHeldTwice(Step(s, e)) <==> WindowOpen(s)
  {
    if WindowOpen(s) {
      var t :| t in s.pc && s.pc[t].MustStore?;
      StealInWindowBreaksExclusion(s, e, t);
      HeldTwiceNow(Step(Step(s, e), DoStore(t)));
      HeldTwiceAfter(Step(s, e), DoStore(t));
      HeldTwiceIsUnsafe(Step(s, e));
    } else {
      StepKeepsExclInv(s, e);
      SafeMeansNeverTwice(Step(s, e));
    }
  }

  lemma SafeMeansNeverTwice(s: State)
    requires ExclInv(s)
    ensures SafeFrom(s) && !CanBeHeldTwice(s)
  {
    InvariantIsSafe(s);
    if CanBeHeldTwice(s) {
      HeldTwiceIsUnsafe(s);
    }
  }

  /** It happens: from every new mutex without an owner, five steps of any two threads
      leave both of them holding it. */
  lemma StealFromStart(s: State, t: Tid, u: Tid) returns (ss: seq<State>, es: seq<Event>)
    requires Initial(s) && s.owner == 0 && t in s.pc && u in s.pc && t != u
    ensures IsRun(ss, es) && ss[0] == s && |es| == 5 && TwoHolders(ss[5])
  {
    var s1 := Step(s, CallLock(t, Forever));
    var s2 := Step(s1, DoTakeGuard(t));
    var s3 := Step(s2, DoLoadWord(t));
    var s4 := Step(s3, PollCas(u));
    var s5 := Step(s4, DoStore(t));
    ss := [s, s1, s2, s3, s4, s5];
    es := [CallLock(t, Forever), DoTakeGuard(t), DoLoadWord(t), PollCas(u), DoStore(t)];
    assert Holds(s5, t) && Holds(s5, u);
  }

  // -- Rule two: only holders unlock --

  /** Outside windows a successful compare-and-swap makes a second holder. */
  lemma TakenAtOnce(s: State, h: Tid, e: Event)
    requires Steals(s, e) && !WindowOpen(s) && h in s.pc && e.t != h && Holds(s, h)
    ensures CanBeHeldTwice(s)
  {
    var s1 := Step(s, e);
    assert Holds(s1, h) && Holds(s1, e.t);
    HeldTwiceNow(s1);
    HeldTwiceAfter(s, e);
  }

  /** A thread that is clearing a mutex somebody else holds can then take it itself. */
  lemma ClearThenTake(s: State, u: Tid, h: Tid)
    requires GuardInv(s) && u in s.pc && h in s.pc && u != h && s.pc[u] == MustClear && Holds(s, h)
    ensures CanBeHeldTwice(s)
  {
    StepKeepsGuardInv(s, DoClear(u));
    SignalThenTake(Step(s, DoClear(u)), u, h);
    HeldTwiceAfter(s, DoClear(u));
  }

  lemma SignalThenTake(s: State, u: Tid, h: Tid)
    requires GuardInv(s) && u in s.pc && h in s.pc && u != h && s.pc[u] == MustSignal && s.word == 0 && Holds(s, h)
    ensures CanBeHeldTwice(s)
  {
    assert forall t | t in s.pc :: GuardThread(s, t);
    var signal := DoSignal(u, Sleepers(s));
    var s1 := Step(s, signal);
    assert !WindowOpen(s1) && Holds(s1, h);
    TakenAtOnce(s1, h, PollCas(u));
    HeldTwiceAfter(s, signal);
  }

  /** The owner has read the recursion count and is about to store it plus one. */
  predicate Reentering(s: State) {
    exists h | h in s.pc :: s.pc[h].IncStore?
  }

  predicate OthersUninvolved(s: State, h: Tid) {
    forall t | t in s.pc && t != h :: !Involved(s.pc[t])
  }

  /** Any other thread can take a mutex whose word is 0, however it is waiting. */
  lemma OtherTakes(s: State, h: Tid, u: Tid)
    requires GuardInv(s) && s.word == 0 && s.guard == 0
    requires h in s.pc && s.pc[h] == Out && s.depth[h] > 0 && OthersUninvolved(s, h)
    requires u in s.pc && u != h
    ensures CanBeHeldTwice(s)
    decreases if s.pc[u].Asleep? || s.pc[u].Expired? then 1 else 0
  {
    assert GuardThread(s, u);
    if s.pc[u] == Out {
      TakenAtOnce(s, h, PollCas(u));
    } else if s.pc[u] == TryCas {
      TakenAtOnce(s, h, DoCas(u));
    } else if s.pc[u].Asleep? {
      StepKeepsGuardInv(s, SpuriousWake(u));
      OtherTakes(Step(s, SpuriousWake(u)), h, u);
      HeldTwiceAfter(s, SpuriousWake(u));
    } else if s.pc[u] == Expired {
      StepKeepsGuardInv(s, ReturnTimeout(u));
      OtherTakes(Step(s, ReturnTimeout(u)), h, u);
      HeldTwiceAfter(s, ReturnTimeout(u));
    } else {
      TakenByBlocking(s, h, u);
    }
  }

  lemma TakenByBlocking(s: State, h: Tid, u: Tid)
    requires WellTyped(s) && s.word == 0 && s.guard == 0 && h in s.pc && s.depth[h] > 0
    requires u in s.pc && u != h && (s.pc[u].TakeGuard? || s.pc[u].Woken?)
    ensures CanBeHeldTwice(s)
  {
    var s1 := Step(s, DoTakeGuard(u));
    var s2 := Step(s1, DoLoadWord(u));
    var s3 := Step(s2, DoStore(u));
    assert Holds(s3, h) && Holds(s3, u);
    HeldTwiceNow(s3);
    HeldTwiceAfter(s2, DoStore(u));
    HeldTwiceAfter(s1, DoLoadWord(u));
    HeldTwiceAfter(s, DoTakeGuard(u));
  }

  /** The recursion count is less than the number of locks h has yet to undo. */
  predicate Shortchanged(s: State, h: Tid) {
    && WellTyped(s) && h in s.pc && s.pc[h] == Out && s.word == 1
    && s.depth[h] >= 2 && s.depth[h] > s.count
    && OthersUninvolved(s, h)
  }

  /** How far the thread inside the pthread lock is from leaving it. */
  function Inside(s: State): nat {
    if s.guard == 0 || s.guard !in s.pc then 0
    else match s.pc[s.guard]
         case LoadWord(_, _) => 3
         case MustWait(_) => 2
         case _ => 1
  }

  /** The step by which the thread inside the pthread lock goes on. */
  function Onward(s: State): Event
    requires s.guard != 0 && s.guard in s.pc
  {
    match s.pc[s.guard]
    case LoadWord(_, _) => DoLoadWord(s.guard)
    case MustWait(_) => DoWait(s.guard)
    case _ => DoSignal(s.guard, Sleepers(s))
  }

  lemma OnwardKeepsShortchanged(s: State, h: Tid)
    requires GuardInv(s) && Shortchanged(s, h) && s.guard != 0
    ensures Enabled(s, Onward(s)) && Disciplined(s, Onward(s))
    ensures var s' := Step(s, Onward(s));
            GuardInv(s') && Shortchanged(s', h) && s'.count == s.count && Inside(s') < Inside(s)
            && s'.pc.Keys == s.pc.Keys
  {
    assert GuardThread(s, s.guard) && GuardThread(s, h);
    StepKeepsGuardInv(s, Onward(s));
    StepKeepsThreads(s, Onward(s));
    if s.pc[s.guard].MustSignal? {
      SignalKeepsUninvolved(s, h);
    }
  }

  lemma SignalKeepsUninvolved(s: State, h: Tid)
    requires GuardInv(s) && Shortchanged(s, h) && s.guard != 0 && s.pc[s.guard] == MustSignal
    ensures var s' := Step(s, DoSignal(s.guard, Sleepers(s)));
            OthersUninvolved(s', h) && s'.pc[h] == Out
  {
    assert GuardThread(s, h);
  }

  /** h has cleared the word although it still has locks to undo. */
  lemma SignalledTooEarly(s: State, h: Tid, u: Tid)
    requires GuardInv(s) && h in s.pc && s.pc[h] == MustSignal && s.word == 0 && s.depth[h] > 0
    requires OthersUninvolved(s, h) && u in s.pc && u != h
    ensures CanBeHeldTwice(s)
  {
    var signal := DoSignal(h, Sleepers(s));
    StepKeepsGuardInv(s, signal);
    OtherTakes(Step(s, signal), h, u);
    HeldTwiceAfter(s, signal);
  }

  lemma ClearedTooEarly(s: State, h: Tid, u: Tid)
    requires GuardInv(s) && h in s.pc && s.pc[h] == MustClear && s.depth[h] > 0
    requires OthersUninvolved(s, h) && u in s.pc && u != h
    ensures CanBeHeldTwice(s)
  {
    StepKeepsGuardInv(s, DoClear(h));
    SignalledTooEarly(Step(s, DoClear(h)), h, u);
    HeldTwiceAfter(s, DoClear(h));
  }

  lemma GivenUpTooEarly(s: State, h: Tid, u: Tid)
    requires GuardInv(s) && Shortchanged(s, h) && s.guard == 0 && s.count <= 1 && u in s.pc && u != h
    ensures CanBeHeldTwice(s)
  {
    StepKeepsGuardInv(s, CallUnlock(h));
    var s1 := Step(s, CallUnlock(h));
    StepKeepsGuardInv(s1, DoDrop(h));
    ClearedTooEarly(Step(s1, DoDrop(h)), h, u);
    HeldTwiceAfter(s1, DoDrop(h));
    HeldTwiceAfter(s, CallUnlock(h));
  }

  /** A whole nested unlock by h. */
  function Unnested(s: State, h: Tid): State
    requires WellTyped(s) && h in s.pc && s.count > 0
  {
    s.(count := s.count - 1, depth := s.depth[h := Less(s.depth[h])])
  }

  lemma HeldTwiceAfterUnlock(s: State, h: Tid)
    requires WellTyped(s) && h in s.pc && s.pc[h] == Out && s.guard == 0 && 1 < s.count < TWO32 && s.depth[h] > 0
    requires CanBeHeldTwice(Unnested(s, h))
    ensures CanBeHeldTwice(s)
  {
    var s1 := s.(pc := s.pc[h := DecLoad], guard := h);
    var s2 := s.(pc := s.pc[h := DecStore(s.count)], guard := h);
    UnlockSteps(s, h);
    HeldTwiceAfter(s2, DoDecStore(h));
    HeldTwiceAfter(s1, DoDecLoad(h));
    HeldTwiceAfter(s, CallUnlock(h));
  }

  /** The three steps of a nested unlock that nobody disturbs. */
  lemma UnlockSteps(s: State, h: Tid)
    requires WellTyped(s) && h in s.pc && s.pc[h] == Out && s.guard == 0 && 1 < s.count < TWO32
    ensures var s1 := s.(pc := s.pc[h := DecLoad], guard := h);
            var s2 := s.(pc := s.pc[h := DecStore(s.count)], guard := h);
            && Enabled(s, CallUnlock(h)) && Step(s, CallUnlock(h)) == s1
            && Enabled(s1, DoDecLoad(h)) && Step(s1, DoDecLoad(h)) == s2
            && Enabled(s2, DoDecStore(h)) && Step(s2, DoDecStore(h)) == Unnested(s, h)
  {
    assert s.pc[h := DecLoad][h := DecStore(s.count)] == s.pc[h := DecStore(s.count)];
    assert s.pc[h := DecStore(s.count)][h := Out] == s.pc;
    OneLess(s.count);
  }

  lemma OneLess(v: nat)
    requires 0 < v < TWO32
    ensures (v + TWO32 - 1) % TWO32 == v - 1
  {
  }

  lemma UnnestedKeepsGuardInv(s: State, h: Tid)
    requires GuardInv(s) && h in s.pc && s.count > 0
    ensures GuardInv(Unnested(s, h))
  {
    forall t | t in s.pc ensures GuardThread(Unnested(s, h), t) {
      assert GuardThread(s, t);
    }
  }

  /** Once a holder is shortchanged, its own unlocks let any second thread in. */
  lemma {:induction false} ShortchangedBreaks(s: State, h: Tid, u: Tid)
    requires GuardInv(s) && Shortchanged(s, h) && s.count < TWO32 && u in s.pc && u != h
    ensures CanBeHeldTwice(s)
    decreases s.count, Inside(s)
  {
    if s.guard != 0 {
      OnwardKeepsShortchanged(s, h);
      ShortchangedBreaks(Step(s, Onward(s)), h, u);
      HeldTwiceAfter(s, Onward(s));
    } else if s.count > 1 {
      UnnestedKeepsGuardInv(s, h);
      ShortchangedBreaks(Unnested(s, h), h, u);
      HeldTwiceAfterUnlock(s, h);
    } else {
      GivenUpTooEarly(s, h, u);
    }
  }

  /** A holder whose count was lowered by a stranger, wherever its next lock call is. */
  ghost predicate LoweredBelow(s: State, h: Tid) {
    && GuardInv(s) && h in s.pc && s.word == 1 && OthersUninvolved(s, h)
    && s.owner == h && 0 < s.count < s.depth[h] < TWO32
    && (s.pc[h] == Out || s.pc[h].CheckCount? || s.pc[h] == IncLoad)
  }

  lemma LoweredBreaks(s: State, h: Tid, u: Tid)
    requires LoweredBelow(s, h) && u in s.pc && u != h
    ensures CanBeHeldTwice(s)
    decreases if s.pc[h].CheckCount? then 1 else 0
  {
    if s.pc[h] == Out {
      ShortchangedBreaks(s, h, u);
    } else if s.pc[h].CheckCount? {
      StepKeepsGuardInv(s, DoCheckCount(h));
      LoweredBreaks(Step(s, DoCheckCount(h)), h, u);
      HeldTwiceAfter(s, DoCheckCount(h));
    } else {
      var s1 := Step(s, DoIncLoad(h));
      StepKeepsGuardInv(s, DoIncLoad(h));
      StepKeepsGuardInv(s1, DoIncStore(h));
      ShortchangedBreaks(Step(s1, DoIncStore(h)), h, u);
      HeldTwiceAfter(s1, DoIncStore(h));
      HeldTwiceAfter(s, DoIncLoad(h));
    }
  }

  lemma OthersAreUninvolved(s: State, h: Tid)
    requires ExclInv(s) && h in s.pc && s.depth[h] > 0
    ensures OthersUninvolved(s, h) && s.word == 1 && s.owner == h
  {
    assert ThreadInv(s, h) && Claims(s, h);
    forall t | t in s.pc && t != h ensures !Involved(s.pc[t]) {
      assert ThreadInv(s, t) && !Claims(s, t);
    }
  }

  /** u, which does not hold the mutex, is inside the nested branch of an unlock of the
      mutex h holds. */
  ghost predicate Intruding(s: State, u: Tid, h: Tid) {
    && GuardInv(s) && u in s.pc && h in s.pc && u != h
    && s.guard == u && s.word == 1 && s.owner == h && 1 < s.count <= s.depth[h] < TWO32
    && (s.pc[u] == DecLoad || (s.pc[u].DecStore? && 1 < s.pc[u].v <= s.depth[h]))
    && (forall t | t in s.pc && t != h :: s.depth[t] == 0)
    && (forall t | t in s.pc && t != h && t != u :: !Involved(s.pc[t]))
    && match s.pc[h]
       case Out => s.count == s.depth[h]
       case CheckCount(_) => s.count == s.depth[h]
       case IncLoad => s.count == s.depth[h]
       case IncStore(w) => w == s.depth[h]
       case _ => false
  }

  lemma UnlockIntrudes(s: State, u: Tid)
    requires ExclInv(s) && Enabled(s, CallUnlock(u)) && s.depth[u] == 0 && s.count > 1
    ensures Intruding(Step(s, CallUnlock(u)), u, s.owner)
  {
    var h := s.owner;
    StepKeepsGuardInv(s, CallUnlock(u));
    assert ThreadInv(s, h) && GuardThread(s, h);
    OthersAreUninvolved(s, h);
    forall t | t in s.pc && t != h ensures s.depth[t] == 0 {
      assert ThreadInv(s, t);
    }
  }

  lemma LoadIntrudes(s: State, u: Tid, h: Tid)
    requires Intruding(s, u, h) && s.pc[u] == DecLoad
    ensures Intruding(Step(s, DoDecLoad(u)), u, h)
  {
    StepKeepsGuardInv(s, DoDecLoad(u));
  }

  /** An intruder's store on a holder that is not between its own load and store. */
  lemma IntrusionLowers(s: State, u: Tid, h: Tid)
    requires Intruding(s, u, h) && s.pc[u].DecStore? && !s.pc[h].IncStore?
    ensures CanBeHeldTwice(Step(s, DoDecStore(u)))
  {
    StepKeepsGuardInv(s, DoDecStore(u));
    var s1 := Step(s, DoDecStore(u));
    OneLess(s.pc[u].v);
    LoweredBreaks(s1, h, u);
  }

  lemma StoreIntrudes(s: State, u: Tid, h: Tid)
    requires Intruding(s, u, h) && s.pc[h].IncStore? && s.pc[h].v + 1 < TWO32
    ensures Intruding(Step(s, DoIncStore(h)), u, h)
  {
    StepKeepsGuardInv(s, DoIncStore(h));
  }

  /** The owner has read the largest count there is, so discipline forbids its store. */
  predicate AtLimit(pc: Pc) {
    pc == IncStore(TWO32 - 1)
  }

  lemma IntrusionBreaks(s: State, u: Tid, h: Tid)
    requires Intruding(s, u, h) && s.pc[u].DecStore? && !AtLimit(s.pc[h])
    ensures CanBeHeldTwice(s)
  {
    if s.pc[h].IncStore? {
      StoreIntrudes(s, u, h);
      var s1 := Step(s, DoIncStore(h));
      IntrusionLowers(s1, u, h);
      HeldTwiceAfter(s1, DoDecStore(u));
      HeldTwiceAfter(s, DoIncStore(h));
    } else {
      IntrusionLowers(s, u, h);
      HeldTwiceAfter(s, DoDecStore(u));
    }
  }

  /** The holder can make no disciplined step, and nobody else is on the way in. */
  ghost predicate Frozen(s: State, h: Tid) {
    && GuardInv(s) && h in s.pc && AtLimit(s.pc[h]) && s.word == 1 && s.owner == h
    && forall t | t in s.pc && t != h :: s.depth[t] == 0 && Bystander(s.pc[t])
  }

  /** Not on the way in; possibly a stranger inside a nested unlock. */
  predicate Bystander(pc: Pc) {
    !Involved(pc) || pc.DecLoad? || pc.DecStore?
  }

  lemma FrozenStep(s: State, h: Tid, e: Event)
    requires Frozen(s, h) && Enabled(s, e) && Disciplined(s, e)
    ensures Frozen(Step(s, e), h)
  {
    StepKeepsGuardInv(s, e);
    StepKeepsThreads(s, e);
    BystanderSteps(s, h, e);
    var s' := Step(s, e);
    forall t | t in s'.pc && t != h && t != e.t ensures s'.depth[t] == 0 && Bystander(s'.pc[t]) {
      OthersStayPut(s, e, t);
    }
  }

  /** The only thread that moves is a bystander, and it stays one. */
  lemma BystanderSteps(s: State, h: Tid, e: Event)
    requires Frozen(s, h) && Enabled(s, e) && Disciplined(s, e)
    ensures e.t != h
    ensures var s' := Step(s, e);
            && s'.word == 1 && s'.owner == h && s'.pc[h] == s.pc[h]
            && e.t in s'.pc && Bystander(s'.pc[e.t]) && s'.depth == s.depth
  {
    assert e.t != h;
    assert Bystander(s.pc[e.t]) && GuardThread(s, e.t) && s.depth[e.t] == 0;
  }

  lemma {:induction false} FrozenPath(ss: seq<State>, es: seq<Event>, h: Tid, k: nat)
    requires IsDisciplinedPath(ss, es) && Frozen(ss[0], h) && k <= |es|
    ensures Frozen(ss[k], h)
  {
    if k == 0 {
    } else {
      FrozenPath(ss, es, h, k - 1);
      FrozenStep(ss[k - 1], h, es[k - 1]);
    }
  }

  lemma FrozenIsSafe(s: State, h: Tid)
    requires Frozen(s, h)
    ensures SafeFrom(s) && !CanBeHeldTwice(s)
  {
    forall ss, es, k | IsDisciplinedPath(ss, es) && ss[0] == s && 0 <= k <= |es|
      ensures WellTyped(ss[k]) && Exclusive(ss[k])
    {
      FrozenPath(ss, es, h, k);
    }
    if CanBeHeldTwice(s) {
      HeldTwiceIsUnsafe(s);
    }
  }

  /** An intruder's decrement that the owner's store is about to overwrite. */
  lemma ErasedStoreKeepsExclInv(s: State, u: Tid, h: Tid)
    requires Intruding(s, u, h) && s.pc[u].DecStore? && s.pc[h].IncStore?
    ensures ExclInv(Step(s, DoDecStore(u)))
  {
    var s1 := Step(s, DoDecStore(u));
    StepKeepsGuardInv(s, DoDecStore(u));
    OneLess(s.pc[u].v);
    assert Claims(s1, h);
    forall t | t in s1.pc ensures ThreadInv(s1, t) && (Claims(s1, t) ==> t == h) {
      assert GuardThread(s1, t);
    }
  }

  /** A last-level unlock by a thread that does not hold the mutex. */
  lemma DropThenTake(s: State, u: Tid, h: Tid)
    requires GuardInv(s) && u in s.pc && h in s.pc && u != h && s.pc[u] == MustDrop && Holds(s, h)
    ensures CanBeHeldTwice(s)
  {
    StepKeepsGuardInv(s, DoDrop(u));
    ClearThenTake(Step(s, DoDrop(u)), u, h);
    HeldTwiceAfter(s, DoDrop(u));
  }

  /** Some owner stands at the limit. */
  predicate OwnerAtLimit(s: State) {
    exists h | h in s.pc :: AtLimit(s.pc[h])
  }

  lemma OnlyOwnerReenters(s: State, h: Tid)
    requires ExclInv(s) && h in s.pc && s.pc[h].IncStore?
    ensures h == s.owner
  {
    assert ThreadInv(s, h);
  }

  /** Unlocking a held mutex, first step: the test.  It is harmless exactly when the caller
      holds the mutex, or when it finds a nested count and the owner can store no more. */
  lemma UnlockTestIsSafeIff(s: State, u: Tid)
    requires ExclInv(s) && s.word == 1 && Enabled(s, CallUnlock(u))
    ensures var s1 := Step(s, CallUnlock(u));
            && (SafeFrom(s1) <==> s.depth[u] > 0 || (s.count > 1 && OwnerAtLimit(s)))
            && (CanBeHeldTwice(s1) <==> !SafeFrom(s1))
  {
    var s1 := Step(s, CallUnlock(u));
    if s.depth[u] > 0 {
      StepKeepsExclInv(s, CallUnlock(u));
      SafeMeansNeverTwice(s1);
    } else if s.count <= 1 {
      StepKeepsGuardInv(s, CallUnlock(u));
      var h :| h in s.pc && Claims(s, h);
      assert GuardThread(s, h);
      DropThenTake(s1, u, h);
      HeldTwiceIsUnsafe(s1);
    } else {
      var h := s.owner;
      UnlockIntrudes(s, u);
      if OwnerAtLimit(s) {
        var o :| o in s.pc && AtLimit(s.pc[o]);
        OnlyOwnerReenters(s, o);
        FrozenIsSafe(s1, h);
      } else {
        LoadIntrudes(s1, u, h);
        IntrusionBreaks(Step(s1, DoDecLoad(u)), u, h);
        HeldTwiceAfter(s1, DoDecLoad(u));
        HeldTwiceIsUnsafe(s1);
      }
    }
  }

  /** The states in which u is inside a nested unlock, as the holder or not. */
  ghost predicate Unlocking(s: State, u: Tid) {
    && (ExclInv(s) || (s.owner > 0 && Intruding(s, u, s.owner)))
    && u in s.pc && (s.pc[u] == DecLoad || s.pc[u].DecStore?)
  }

  /** Second step: the load.  It is harmless exactly when the caller holds the mutex or the
      owner can store no more: otherwise the owner's increment can come between this load
      and the store. */
  lemma UnlockLoadIsSafeIff(s: State, u: Tid)
    requires Unlocking(s, u) && s.pc[u] == DecLoad
    ensures var s1 := Step(s, DoDecLoad(u));
            && (SafeFrom(s1) <==> s.depth[u] > 0 || OwnerAtLimit(s))
            && (CanBeHeldTwice(s1) <==> !SafeFrom(s1))
  {
    var s1 := Step(s, DoDecLoad(u));
    if ExclInv(s) {
      assert ThreadInv(s, u);
      StepKeepsExclInv(s, DoDecLoad(u));
      SafeMeansNeverTwice(s1);
    } else {
      var h := s.owner;
      LoadIntrudes(s, u, h);
      if AtLimit(s.pc[h]) {
        FrozenIsSafe(s1, h);
      } else {
        IntrusionBreaks(s1, u, h);
        HeldTwiceIsUnsafe(s1);
      }
    }
  }

  /** Third step: the store.  It is harmless exactly when the caller holds the mutex or the
      owner is between its own load and store, which then erases it. */
  lemma UnlockStoreIsSafeIff(s: State, u: Tid)
    requires Unlocking(s, u) && s.pc[u].DecStore?
    ensures var s1 := Step(s, DoDecStore(u));
            && (SafeFrom(s1) <==> s.depth[u] > 0 || Reentering(s))
            && (CanBeHeldTwice(s1) <==> !SafeFrom(s1))
  {
    var s1 := Step(s, DoDecStore(u));
    if ExclInv(s) {
      assert ThreadInv(s, u);
      StepKeepsExclInv(s, DoDecStore(u));
      SafeMeansNeverTwice(s1);
    } else {
      var h := s.owner;
      if s.pc[h].IncStore? {
        ErasedStoreKeepsExclInv(s, u, h);
        SafeMeansNeverTwice(s1);
      } else {
        IntrusionLowers(s, u, h);
        HeldTwiceIsUnsafe(s1);
      }
    }
  }

  /** u is unlocking a mutex nobody holds, and everybody else is waiting for the pthread lock. */
  ghost predicate ClearingFree(s: State, u: Tid) {
    && GuardInv(s) && u in s.pc && (s.pc[u] == MustDrop || s.pc[u] == MustClear)
    && s.word == 0 && s.owner == 0 && s.count == 0
    && (forall t | t in s.pc :: s.depth[t] == 0)
    && forall t | t in s.pc && t != u :: s.pc[t].TakeGuard? || s.pc[t].Asleep? || s.pc[t].Woken? || s.pc[t].Expired?
  }

  lemma ClearingFreeStep(s: State, u: Tid, e: Event)
    requires ClearingFree(s, u) && Enabled(s, e)
    ensures ClearingFree(Step(s, e), u) || ExclInv(Step(s, e))
  {
    StepKeepsGuardInv(s, e);
    assert GuardThread(s, u);
    if e == DoClear(u) {
      ClearedFree(s, u);
    } else if e.t == u {
      assert e == DoDrop(u);
    } else {
      assert s.guard == u && GuardThread(s, e.t);
      assert e.SpuriousWake? || e.Expire?;
    }
  }

  lemma ClearedFree(s: State, u: Tid)
    requires ClearingFree(s, u) && s.pc[u] == MustClear
    ensures ExclInv(Step(s, DoClear(u)))
  {
    StepKeepsGuardInv(s, DoClear(u));
    var s' := Step(s, DoClear(u));
    forall t | t in s'.pc ensures ThreadInv(s', t) && !Claims(s', t) {
    }
  }

  lemma {:induction false} ClearingFreePath(ss: seq<State>, es: seq<Event>, u: Tid, k: nat)
    requires IsDisciplinedPath(ss, es) && ClearingFree(ss[0], u) && k <= |es|
    ensures ClearingFree(ss[k], u) || ExclInv(ss[k])
  {
    if k == 0 {
    } else {
      ClearingFreePath(ss, es, u, k - 1);
      if ClearingFree(ss[k - 1], u) {
        ClearingFreeStep(ss[k - 1], u, es[k - 1]);
      } else {
        StepKeepsExclInv(ss[k - 1], es[k - 1]);
      }
    }
  }

  lemma ClearingFreeIsSafe(s: State, u: Tid)
    requires ClearingFree(s, u)
    ensures SafeFrom(s) && !CanBeHeldTwice(s)
  {
    forall ss, es, k | IsDisciplinedPath(ss, es) && ss[0] == s && 0 <= k <= |es|
      ensures WellTyped(ss[k]) && Exclusive(ss[k])
    {
      ClearingFreePath(ss, es, u, k);
    }
    if CanBeHeldTwice(s) {
      HeldTwiceIsUnsafe(s);
    }
  }

  /** In a free mutex there is nothing to unlock. */
  lemma FreeMutex(s: State)
    requires ExclInv(s) && s.word == 0
    ensures s.owner == 0 && s.count == 0
    ensures forall t | t in s.pc :: s.depth[t] == 0 && (Involved(s.pc[t]) ==> s.pc[t].MustStore?)
  {
    forall t | t in s.pc ensures s.depth[t] == 0 && (Involved(s.pc[t]) ==> s.pc[t].MustStore?) {
      assert ThreadInv(s, t);
    }
  }

  /** Can thread v take the mutex without the pthread lock? */
  predicate CanSwap(s: State, v: Tid) {
    v in s.pc && (s.pc[v] == Out || s.pc[v] == TryCas)
  }

  lemma FreeUnlockBreaks(s: State, u: Tid, v: Tid)
    requires ExclInv(s) && s.word == 0 && Enabled(s, CallUnlock(u)) && v != u && CanSwap(s, v)
    ensures CanBeHeldTwice(Step(s, CallUnlock(u)))
  {
    FreeMutex(s);
    var s1 := Step(s, CallUnlock(u));
    StepKeepsGuardInv(s, CallUnlock(u));
    assert forall t | t in s1.pc :: GuardThread(s1, t);
    var swap := if s.pc[v] == Out then PollCas(v) else DoCas(v);
    StepKeepsGuardInv(s1, swap);
    DropThenTake(Step(s1, swap), u, v);
    HeldTwiceAfter(s1, swap);
  }

  /** An unlock of a free mutex is harmless exactly when no other thread can swap the word
      meanwhile: otherwise it erases that thread's acquisition. */
  lemma UnlockOfFreeIsSafeIff(s: State, u: Tid)
    requires ExclInv(s) && s.word == 0 && Enabled(s, CallUnlock(u))
    ensures var s1 := Step(s, CallUnlock(u));
            && (SafeFrom(s1) <==> forall v | v in s.pc && v != u :: !CanSwap(s, v))
            && (CanBeHeldTwice(s1) <==> !SafeFrom(s1))
  {
    var s1 := Step(s, CallUnlock(u));
    if v :| v in s.pc && v != u && CanSwap(s, v) {
      FreeUnlockBreaks(s, u, v);
      HeldTwiceIsUnsafe(s1);
    } else {
      FreeMutex(s);
      StepKeepsGuardInv(s, CallUnlock(u));
      forall t | t in s1.pc && t != u
        ensures s1.pc[t].TakeGuard? || s1.pc[t].Asleep? || s1.pc[t].Woken? || s1.pc[t].Expired?
      {
        assert GuardThread(s, t) && !CanSwap(s, t);
      }
      ClearingFreeIsSafe(s1, u);
    }
  }

  /** It happens: any thread but the creator can do it to a mutex created with an owner. */
  lemma ForeignUnlockFromStart(s: State, u: Tid)
    requires Initial(s) && s.owner != 0 && u in s.pc && u != s.owner
    ensures Enabled(s, CallUnlock(u)) && CanBeHeldTwice(Step(s, CallUnlock(u)))
  {
    InitialIsExclInv(s);
    UnlockTestIsSafeIff(s, u);
  }

  // -- Rule three: fewer than 2^32 nested locks --

  lemma {:induction false} PathKeepsThreads(ss: seq<State>, es: seq<Event>, k: nat)
    requires IsPath(ss, es) && WellTyped(ss[0]) && k <= |es|
    ensures WellTyped(ss[k]) && ss[k].pc.Keys == ss[0].pc.Keys
  {
    if k == 0 {
    } else {
      PathKeepsThreads(ss, es, k - 1);
      StepKeepsThreads(ss[k - 1], es[k - 1]);
    }
  }

  lemma AloneIsSafe(s: State, t: Tid)
    requires WellTyped(s) && s.pc.Keys == {t}
    ensures SafeFrom(s)
  {
    forall ss, es, k | IsDisciplinedPath(ss, es) && ss[0] == s && 0 <= k <= |es|
      ensures WellTyped(ss[k]) && Exclusive(ss[k])
    {
      PathKeepsThreads(ss, es, k);
    }
  }

  /** A nested lock is harmless exactly when the incremented count fits in 32 bits, or there
      is no other thread: at 2^32 the count becomes 0 and the next unlock gives the mutex up. */
  lemma NestingIsSafeIffCountFits(s: State, t: Tid)
    requires ExclInv(s) && Enabled(s, DoIncStore(t))
    ensures var s1 := Step(s, DoIncStore(t));
            && (SafeFrom(s1) <==> s.pc[t].v + 1 < TWO32 || s.pc.Keys == {t})
            && (CanBeHeldTwice(s1) <==> !SafeFrom(s1))
  {
    var s1 := Step(s, DoIncStore(t));
    StepKeepsGuardInv(s, DoIncStore(t));
    assert ThreadInv(s, t);
    if s.pc[t].v + 1 < TWO32 {
      StepKeepsExclInv(s, DoIncStore(t));
      SafeMeansNeverTwice(s1);
    } else if u :| u in s.pc && u != t {
      OthersAreUninvolved(s, t);
      ShortchangedBreaks(s1, t, u);
      HeldTwiceIsUnsafe(s1);
    } else {
      assert s1.pc.Keys == {t};
      AloneIsSafe(s1, t);
      if CanBeHeldTwice(s1) {
        HeldTwiceIsUnsafe(s1);
      }
    }
  }

  ghost predicate Reaches(s: State, s': State) {
    exists ss, es :: IsDisciplinedPath(ss, es) && ss[0] == s && ss[|es|] == s'
  }

  lemma ReachesNext(s: State, s': State, e: Event)
    requires Reaches(s, s') && Enabled(s', e) && Disciplined(s', e)
    ensures Reaches(s, Step(s', e))
  {
    var ss, es :| IsDisciplinedPath(ss, es) && ss[0] == s && ss[|es|] == s';
    PathAppend(ss, es, e);
    var ss', es' := ss + [Step(s', e)], es + [e];
    assert ss'[0] == s && ss'[|es'|] == Step(s', e);
  }

  lemma PathAppend(ss: seq<State>, es: seq<Event>, e: Event)
    requires IsDisciplinedPath(ss, es) && Enabled(ss[|es|], e) && Disciplined(ss[|es|], e)
    ensures IsDisciplinedPath(ss + [Step(ss[|es|], e)], es + [e])
  {
    var ss', es' := ss + [Step(ss[|es|], e)], es + [e];
    forall i | 0 <= i < |es'|
      ensures Enabled(ss'[i], es'[i]) && ss'[i + 1] == Step(ss'[i], es'[i]) && Disciplined(ss'[i], es'[i])
    {
      assert i < |es| ==> es'[i] == es[i] && ss'[i] == ss[i] && ss'[i + 1] == ss[i + 1];
    }
  }

  lemma ReachedKeepsExclInv(s: State, s': State)
    requires Initial(s) && Reaches(s, s')
    ensures ExclInv(s')
  {
    InitialIsExclInv(s);
    var ss, es :| IsDisciplinedPath(ss, es) && ss[0] == s && ss[|es|] == s';
    PathKeepsExclInv(ss, es, |es|);
  }

  /** The owner of s nested n deep. */
  function Nested(s: State, t: Tid, n: nat): State {
    s.(count := n, depth := s.depth[t := n])
  }

  lemma {:induction false} NestingReaches(s: State, t: Tid, n: nat)
    requires Initial(s) && s.owner == t && 0 < n < TWO32
    ensures Reaches(s, Nested(s, t, n))
  {
    if n == 1 {
      assert Nested(s, t, 1) == s;
      ReachesItself(s);
    } else {
      NestingReaches(s, t, n - 1);
      OneMoreLevel(s, t, n - 1);
      StoreNests(s, t, n - 1);
      ReachesNext(s, AboutToNest(s, t, n - 1), DoIncStore(t));
    }
  }

  lemma ReachesItself(s: State)
    ensures Reaches(s, s)
  {
    var ss, es: seq<Event> := [s], [];
    assert IsDisciplinedPath(ss, es) && ss[|es|] == s;
  }

  lemma StoreNests(s: State, t: Tid, n: nat)
    requires Initial(s) && s.owner == t && 0 < n && n + 1 < TWO32
    ensures var deep := AboutToNest(s, t, n);
            && Enabled(deep, DoIncStore(t)) && Disciplined(deep, DoIncStore(t))
            && Step(deep, DoIncStore(t)) == Nested(s, t, n + 1)
  {
    assert s.pc[t := IncStore(n)][t := Out] == s.pc;
    assert s.depth[t := n][t := n + 1] == s.depth[t := n + 1];
  }

  /** The owner, n deep, in a further lock call that has read the count. */
  function AboutToNest(s: State, t: Tid, n: nat): State {
    Nested(s, t, n).(pc := s.pc[t := IncStore(n)])
  }

  lemma OneMoreLevel(s: State, t: Tid, n: nat)
    requires Initial(s) && s.owner == t && 0 < n && Reaches(s, Nested(s, t, n))
    ensures Reaches(s, AboutToNest(s, t, n)) && Enabled(AboutToNest(s, t, n), DoIncStore(t))
  {
    var s0 := Nested(s, t, n);
    ReachesNext(s, s0, CallLock(t, Forever));
    var s1 := Step(s0, CallLock(t, Forever));
    ReachesNext(s, s1, DoCheckCount(t));
    var s2 := Step(s1, DoCheckCount(t));
    ReachesNext(s, s2, DoIncLoad(t));
    assert Step(s2, DoIncLoad(t)) == AboutToNest(s, t, n) by {
      assert s2.pc[t := IncStore(n)] == s.pc[t := IncStore(n)];
    }
  }

  /** The owner two deep and about to store 3; a stranger has read 2 for its unlock. */
  function Crossing(s: State, t: Tid, u: Tid): State {
    AboutToNest(s, t, 2).(pc := s.pc[t := IncStore(2)][u := DecStore(2)], guard := u)
  }

  lemma CrossingSteps(s: State, t: Tid, u: Tid)
    requires Initial(s) && s.owner == t && u in s.pc && u != t
    ensures var busy := AboutToNest(s, t, 2);
            && Enabled(busy, CallUnlock(u))
            && var tested := Step(busy, CallUnlock(u));
            && Enabled(tested, DoDecLoad(u)) && Step(tested, DoDecLoad(u)) == Crossing(s, t, u)
  {
    assert s.pc[t := IncStore(2)][u := DecLoad][u := DecStore(2)] == s.pc[t := IncStore(2)][u := DecStore(2)];
  }

  /** A disciplined run and the first two steps of the stranger's unlock lead there. */
  lemma CrossingFromStart(s: State, t: Tid, u: Tid)
    requires Initial(s) && s.owner == t && u in s.pc && u != t
    ensures var busy := AboutToNest(s, t, 2);
            && Reaches(s, busy) && Enabled(busy, CallUnlock(u))
            && var tested := Step(busy, CallUnlock(u));
            && Enabled(tested, DoDecLoad(u)) && Step(tested, DoDecLoad(u)) == Crossing(s, t, u)
    ensures Intruding(Crossing(s, t, u), u, t)
  {
    NestingReaches(s, t, 2);
    OneMoreLevel(s, t, 2);
    CrossingSteps(s, t, u);
    CrossingIntrudes(s, t, u);
  }

  lemma CrossingIntrudes(s: State, t: Tid, u: Tid)
    requires Initial(s) && s.owner == t && u in s.pc && u != t
    ensures Intruding(Crossing(s, t, u), u, t)
  {
    var x := Crossing(s, t, u);
    forall k | k in x.pc ensures GuardThread(x, k) {
    }
  }

  /** If the stranger stores first, the owner's store erases that and no harm is done. */
  lemma ErasedUnlockFromStart(s: State, t: Tid, u: Tid)
    requires Initial(s) && s.owner == t && u in s.pc && u != t
    ensures Enabled(Crossing(s, t, u), DoDecStore(u))
    ensures SafeFrom(Step(Crossing(s, t, u), DoDecStore(u)))
  {
    CrossingIntrudes(s, t, u);
    assert Crossing(s, t, u).pc[t].IncStore?;
    UnlockStoreIsSafeIff(Crossing(s, t, u), u);
  }

  /** If the owner stores first, it has three locks to undo against a count of 1, and two
      threads can hold the mutex. */
  lemma TornUnlockFromStart(s: State, t: Tid, u: Tid)
    requires Initial(s) && s.owner == t && u in s.pc && u != t
    ensures Enabled(Crossing(s, t, u), DoIncStore(t))
    ensures var nested := Step(Crossing(s, t, u), DoIncStore(t));
            && Enabled(nested, DoDecStore(u))
            && var torn := Step(nested, DoDecStore(u));
            torn.depth[t] == 3 && torn.count == 1 && CanBeHeldTwice(torn)
  {
    CrossingIntrudes(s, t, u);
    StoreIntrudes(Crossing(s, t, u), u, t);
    IntrusionLowers(Step(Crossing(s, t, u), DoIncStore(t)), u, t);
    OneLess(2);
  }

  /** It happens: a disciplined run of the creator's nested locks leads to it. */
  lemma DeepNestingFromStart(s: State, t: Tid, u: Tid)
    requires Initial(s) && s.owner == t && u in s.pc && u != t
    ensures var deep := AboutToNest(s, t, TWO32 - 1);
            && Reaches(s, deep) && Enabled(deep, DoIncStore(t))
            && CanBeHeldTwice(Step(deep, DoIncStore(t)))
  {
    NestingReaches(s, t, TWO32 - 1);
    OneMoreLevel(s, t, TWO32 - 1);
    ReachedKeepsExclInv(s, AboutToNest(s, t, TWO32 - 1));
    NestingIsSafeIffCountFits(AboutToNest(s, t, TWO32 - 1), t);
  }

  // ---- The object itself ----

  /** The mutex fields together with the threads using it.  Each method is one step. */
  class Mutex {
    var word: nat
    var owner: nat
    var count: nat
    var abandoned: bool
    ghost var guard: nat
    ghost var pc: map<Tid, Pc>
    ghost var depth: map<Tid, nat>

    ghost function View(): State
      reads this
    {
      State(word, owner, count, abandoned, guard, pc, depth)
    }

    /** mvgal_nt_mutex_create, called by `self` among `threads`. */
    constructor (self: Tid, initialOwner: bool, ghost threads: set<Tid>)
      requires self in threads
      ensures Initial(View()) && pc.Keys == threads
      ensures owner == if initialOwner then self else 0
    {
      word := if initialOwner then 1 else 0;
      count := if initialOwner then 1 else 0;
      owner := if initialOwner then self else 0;
      abandoned, guard := false, 0;
      pc := map t | t in threads :: Out;
      depth := map t | t in threads :: if initialOwner && t == self then 1 else 0;
    }

    /** atomic_compare_exchange_strong(&state, 0, 1), in a try-lock or a multi-wait. */
    method CompareAndSwap(t: Tid, poll: bool) returns (won: bool)
      requires Enabled(View(), if poll then PollCas(t) else DoCas(t))
      modifies this
      ensures won <==> old(word) == 0
      ensures View() == Step(old(View()), if poll then PollCas(t) else DoCas(t))
    {
      won := word == 0;
      if won {
        word := 1;
        pc := pc[t := Won(poll)];
      } else {
        assert poll ==> pc == pc[t := Out];
        pc := pc[t := Out];
      }
    }

    /** The critical section that follows a successful compare-and-swap; a multi-wait
        does not touch `abandoned`. */
    method PublishOwner(t: Tid, poll: bool)
      requires Enabled(View(), Publish(t)) && pc[t] == Won(poll)
      modifies this
      ensures View() == Step(old(View()), Publish(t))
    {
      owner, count := t, 1;
      if !poll {
        abandoned := false;
      }
      pc, depth := pc[t := Out], depth[t := depth[t] + 1];
    }

    /** The end of the blocking path; the result is WAIT_ABANDONED when `wasAbandoned`. */
    method TakeOwnership(t: Tid) returns (wasAbandoned: bool)
      requires Enabled(View(), DoOwn(t))
      modifies this
      ensures wasAbandoned == old(abandoned)
      ensures View() == Step(old(View()), DoOwn(t))
    {
      wasAbandoned := abandoned;
      owner, count, abandoned := t, 1, false;
      guard, pc, depth := 0, pc[t := Out], depth[t := depth[t] + 1];
    }

    /** mvgal_nt_mutex_unlock: the lock and the test. */
    method BeginUnlock(t: Tid) returns (nested: bool)
      requires Enabled(View(), CallUnlock(t))
      modifies this
      ensures nested <==> old(count) > 1
      ensures View() == Step(old(View()), CallUnlock(t))
    {
      nested := count > 1;
      guard, pc := t, pc[t := if nested then DecLoad else MustDrop];
    }

    /** The nested branch reads the count ... */
    method LoadCount(t: Tid) returns (v: nat)
      requires Enabled(View(), DoDecLoad(t))
      modifies this`pc
      ensures v == count && View() == Step(old(View()), DoDecLoad(t))
    {
      v := count;
      pc := pc[t := DecStore(v)];
    }

    /** ... and stores it less one. */
    method StoreCount(t: Tid, v: nat)
      requires Enabled(View(), DoDecStore(t)) && pc[t] == DecStore(v)
      modifies this
      ensures View() == Step(old(View()), DoDecStore(t))
    {
      count := (v + TWO32 - 1) % TWO32;
      guard, pc, depth := 0, pc[t := Out], depth[t := Less(depth[t])];
    }

    /** The last level clears owner and count. */
    method DropOwner(t: Tid)
      requires Enabled(View(), DoDrop(t))
      modifies this
      ensures View() == Step(old(View()), DoDrop(t))
    {
      owner, count := 0, 0;
      pc, depth := pc[t := MustClear], depth[t := Less(depth[t])];
    }
  }
}
