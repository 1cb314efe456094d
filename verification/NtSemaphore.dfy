/**
 The counted NT semaphore of compat/windows/mvgal_ntsync.c.

 Every access to `count` happens under the semaphore's pthread lock, so one step
 of the machine is one critical section.  The condition variable follows POSIX.1:
 a signal moves at least one sleeper (if there is one) to `woken`, wake-ups may be
 spurious, and a sleeper that times out has consumed no signal.
 */
module NtSemaphore {

  import opened Common

  type Tid = nat

  datatype WaitResult = Object0 | Timeout

  /** `asleep`: blocked on the condition variable; `woken`: must re-take the lock and
      look at `count` again; `expired`: timed out, must re-take the lock to return;
      `timed`: the waiters that gave a finite timeout. */
  datatype State = State(count: nat, max: nat,
                         asleep: set<Tid>, woken: set<Tid>, expired: set<Tid>, timed: set<Tid>)

  datatype Event =
    | Release(n: nat, wake: set<Tid>)   // a whole release call; `wake` left the condition variable
    | Enter(t: Tid, p: Patience)        // first critical section of a wait call
    | Resume(t: Tid)                    // a woken waiter runs
    | SpuriousWake(t: Tid)
    | Expire(t: Tid)                    // the deadline passes while asleep
    | Leave(t: Tid)                     // a timed-out waiter returns
    | Poll                              // the probe made by a multi-wait

  predicate Initial(s: State) {
    && s.count <= s.max && 0 < s.max < TWO32
    && s.asleep == {} && s.woken == {} && s.expired == {} && s.timed == {}
  }

  predicate Waiting(s: State, t: Tid) {
    t in s.asleep || t in s.woken || t in s.expired
  }

  /** `release` returns 0: a positive amount whose 32-bit sum is within the maximum. */
  predicate Accepts(s: State, n: nat) {
    n != 0 && (s.count + n) % TWO32 <= s.max
  }

  /** How many of the first `n` turns of the wake-up loop call pthread_cond_signal. */
  function Signals(before: nat, n: nat, max: nat): nat {
    if n == 0 then 0
    else Signals(before, n - 1, max) + if (before + n - 1) % TWO32 < max then 1 else 0
  }

  predicate Enabled(s: State, e: Event) {
    match e
    case Release(n, wake) =>
      && n < TWO32
      && wake <= s.asleep
      && (if Accepts(s, n)
          then |wake| >= Signals(s.count, n, s.max) || wake == s.asleep
          else wake == {})
    case Enter(t, _) => !Waiting(s, t)
    case Resume(t) => t in s.woken
    case SpuriousWake(t) => t in s.asleep
    case Expire(t) => t in s.asleep && t in s.timed
    case Leave(t) => t in s.expired
    case Poll => true
  }

  /** atomic_fetch_sub on a 32-bit counter. */
  function FetchSub(count: nat): nat {
    (count + TWO32 - 1) % TWO32
  }

  function Sleep(s: State, t: Tid, timed: bool): State {
    s.(asleep := s.asleep + {t}, timed := if timed then s.timed + {t} else s.timed - {t})
  }

  function Step(s: State, e: Event): State
    requires Enabled(s, e)
  {
    match e
    case Release(n, wake) =>
      if !Accepts(s, n) then s
      else s.(count := (s.count + n) % TWO32, asleep := s.asleep - wake, woken := s.woken + wake)
    case Enter(t, p) =>
      if s.count > 0 then s.(count := s.count - 1)
      else if p == NoWait then s
      else Sleep(s, t, p == Timed)
    case Resume(t) =>
      if s.count == 0 then s.(asleep := s.asleep + {t}, woken := s.woken - {t})
      else s.(count := FetchSub(s.count), woken := s.woken - {t})
    case SpuriousWake(t) => s.(asleep := s.asleep - {t}, woken := s.woken + {t})
    case Expire(t) => s.(asleep := s.asleep - {t}, expired := s.expired + {t})
    case Leave(t) => s.(expired := s.expired - {t})
    case Poll => if s.count > 0 then s.(count := s.count - 1) else s
  }

  /** What a wait call (or a probe) returns in this step, if it returns at all. */
  function Returns(s: State, e: Event): Option<WaitResult> {
    match e
    case Enter(_, p) => if s.count > 0 then Some(Object0) else if p == NoWait then Some(Timeout) else None
    case Resume(_) => if s.count == 0 then None else Some(AfterLoop(s.count))
    case Leave(_) => Some(Timeout)
    case Poll => if s.count > 0 then Some(Object0) else None
    case _ => None
  }

  /** The result computed after the waiting loop from the value before the decrement. */
  function AfterLoop(cur: nat): WaitResult {
    if cur > 0 then Object0 else Timeout
  }

  // ---- Runs ----

  ghost predicate IsRun(ss: seq<State>, es: seq<Event>) {
    && |ss| == |es| + 1
    && Initial(ss[0])
    && forall i | 0 <= i < |es| :: Enabled(ss[i], es[i]) && ss[i + 1] == Step(ss[i], es[i])
  }

  /** The sum of an observation over the first `k` steps of a run. */
  ghost function Total(ss: seq<State>, es: seq<Event>, f: (State, Event) -> nat, k: nat): nat
    requires k <= |es| <= |ss|
  {
    if k == 0 then 0 else Total(ss, es, f, k - 1) + f(ss[k - 1], es[k - 1])
  }

  /** Tokens handed out: calls and probes that report success. */
  function Taken(s: State, e: Event): nat {
    if Returns(s, e) == Some(Object0) then 1 else 0
  }

  /** Tokens promised to callers of accepted releases. */
  function Added(s: State, e: Event): nat {
    if e.Release? && Accepts(s, e.n) then e.n else 0
  }

  /** Accepted releases whose 32-bit sum wrapped. */
  function Wrapped(s: State, e: Event): nat {
    if e.Release? && Accepts(s, e.n) && s.count + e.n >= TWO32 then 1 else 0
  }

  // ---- Invariant ----

  ghost predicate Inv(s: State) {
    && s.count <= s.max < TWO32
    && s.asleep !! s.woken && s.asleep !! s.expired && s.woken !! s.expired
    && (s.asleep != {} ==> s.count <= |s.woken|)
  }

  lemma {:induction false} AllTurnsSignal(before: nat, n: nat, max: nat)
    requires before + n <= max < TWO32
    ensures Signals(before, n, max) == n
  {
    if n == 0 {
    } else {
      AllTurnsSignal(before, n - 1, max);
    }
  }

  lemma DisjointSizes(a: set<Tid>, b: set<Tid>)
    requires a !! b
    ensures |a + b| == |a| + |b|
  {
  }

  lemma {:induction false} SubsetSize(a: set<Tid>, b: set<Tid>, t: Tid)
    requires a <= b - {t} && t in b
    ensures |a| < |b|
  {
    DisjointSizes(a, b - a);
    assert a + (b - a) == b;
    assert t in b - a;
  }

  lemma ReleaseKeepsInv(s: State, e: Event)
    requires Inv(s) && e.Release? && Enabled(s, e)
    ensures Inv(Step(s, e))
  {
    if Accepts(s, e.n) {
      DisjointSizes(s.woken, e.wake);
      Sum32(s.count, e.n);
      if s.count + e.n < TWO32 {
        AllTurnsSignal(s.count, e.n, s.max);
      }
    }
  }

  lemma Sum32(a: nat, b: nat)
    requires a < TWO32 && b < TWO32
    ensures (a + b) % TWO32 == if a + b < TWO32 then a + b else a + b - TWO32
  {
  }

  lemma ResumeKeepsInv(s: State, e: Event)
    requires Inv(s) && e.Resume? && Enabled(s, e)
    ensures Inv(Step(s, e))
  {
    DisjointSizes(s.woken - {e.t}, {e.t});
    assert s.woken - {e.t} + {e.t} == s.woken;
    if s.count > 0 {
      Sum32(s.count, TWO32 - 1);
    }
  }

  lemma SpuriousWakeKeepsInv(s: State, e: Event)
    requires Inv(s) && e.SpuriousWake? && Enabled(s, e)
    ensures Inv(Step(s, e))
  {
    DisjointSizes(s.woken, {e.t});
  }

  lemma StepKeepsInv(s: State, e: Event)
    requires Inv(s) && Enabled(s, e)
    ensures Inv(Step(s, e))
    ensures Step(s, e).max == s.max
  {
    match e
    case Release(_, _) => ReleaseKeepsInv(s, e);
    case Resume(t) => ResumeKeepsInv(s, e);
    case SpuriousWake(t) => SpuriousWakeKeepsInv(s, e);
    case _ =>
  }

  lemma {:induction false} RunKeepsInv(ss: seq<State>, es: seq<Event>, k: nat)
    requires IsRun(ss, es) && k <= |es|
    ensures Inv(ss[k]) && ss[k].max == ss[0].max
  {
    if k == 0 {
    } else {
      RunKeepsInv(ss, es, k - 1);
      StepKeepsInv(ss[k - 1], es[k - 1]);
    }
  }

  // ---- Main results ----

  /** No wake-up is ever lost, whatever the interleaving and even if a release wraps:
      while somebody sleeps, every token is covered by a woken waiter yet to run. */
  lemma NoLostWakeUp(ss: seq<State>, es: seq<Event>, k: nat)
    requires IsRun(ss, es) && k <= |es|
    ensures ss[k].asleep != {} ==> ss[k].count <= |ss[k].woken|
    ensures ss[k].woken == {} && ss[k].count > 0 ==> ss[k].asleep == {}
    ensures ss[k].asleep != {} && ss[k].count > 0 ==>
              exists t | t in ss[k].woken :: Returns(ss[k], Resume(t)) == Some(Object0)
  {
    RunKeepsInv(ss, es, k);
    if ss[k].asleep != {} && ss[k].count > 0 {
      assert ss[k].woken != {};
      var t :| t in ss[k].woken;
      assert Returns(ss[k], Resume(t)) == Some(Object0);
    }
  }

  /** The decrement after the waiting loop never underflows, so the TIMEOUT that
      follows it is unreachable; the count never exceeds the maximum. */
  lemma PostLoopDecrementIsSafe(ss: seq<State>, es: seq<Event>, k: nat)
    requires IsRun(ss, es) && k < |es|
    ensures ss[k + 1].count <= ss[0].max
    ensures es[k].Resume? && Returns(ss[k], es[k]).Some? ==>
              Returns(ss[k], es[k]).value == Object0 && ss[k + 1].count == ss[k].count - 1
  {
    RunKeepsInv(ss, es, k);
    RunKeepsInv(ss, es, k + 1);
    if es[k].Resume? && ss[k].count > 0 {
      Sum32(ss[k].count, TWO32 - 1);
    }
  }

  /** Tokens are conserved up to the 2^32 lost by each wrapped release. */
  lemma {:induction false} Conservation(ss: seq<State>, es: seq<Event>, k: nat)
    requires IsRun(ss, es) && k <= |es|
    ensures ss[k].count + Total(ss, es, Taken, k) + TWO32 * Total(ss, es, Wrapped, k)
            == ss[0].count + Total(ss, es, Added, k)
  {
    if k == 0 {
    } else {
      Conservation(ss, es, k - 1);
      RunKeepsInv(ss, es, k - 1);
      StepAccounts(ss[k - 1], es[k - 1]);
    }
  }

  lemma StepAccounts(s: State, e: Event)
    requires Inv(s) && Enabled(s, e)
    ensures Step(s, e).count + Taken(s, e) + TWO32 * Wrapped(s, e) == s.count + Added(s, e)
  {
    match e
    case Release(n, _) => Sum32(s.count, n);
    case Resume(_) =>
      if s.count > 0 {
        Sum32(s.count, TWO32 - 1);
      }
    case _ =>
  }

  /** The books balance exactly if and only if no accepted release has wrapped. */
  lemma ExactUnlessWrapped(ss: seq<State>, es: seq<Event>, k: nat)
    requires IsRun(ss, es) && k <= |es|
    ensures ss[k].count == ss[0].count + Total(ss, es, Added, k) - Total(ss, es, Taken, k)
            <==> Total(ss, es, Wrapped, k) == 0
  {
    Conservation(ss, es, k);
  }

  /** Modulo 2^32 they always balance. */
  lemma BalancedModulo(ss: seq<State>, es: seq<Event>, k: nat)
    requires IsRun(ss, es) && k <= |es|
    ensures (ss[k].count + Total(ss, es, Taken, k)) % TWO32
            == (ss[0].count + Total(ss, es, Added, k)) % TWO32
  {
    Conservation(ss, es, k);
    ModPlusMultiple(ss[k].count + Total(ss, es, Taken, k), Total(ss, es, Wrapped, k));
  }

  lemma {:induction false} ModPlusMultiple(x: nat, w: nat)
    ensures (x + TWO32 * w) % TWO32 == x % TWO32
  {
    if w == 0 {
    } else {
      ModPlusMultiple(x, w - 1);
      assert x + TWO32 * w == (x + TWO32 * (w - 1)) + TWO32;
    }
  }

  /** What a release decides, in every state of every run: without overflow it is accepted
      exactly if the semaphore has room for all of it; a release of just the room there is
      is accepted and fills the semaphore. */
  lemma ReleaseAcceptedIffRoom(ss: seq<State>, es: seq<Event>, k: nat)
    requires IsRun(ss, es) && k < |es| && es[k].Release?
    ensures 0 < es[k].n && ss[k].count + es[k].n < TWO32 ==>
              if ss[k].count + es[k].n <= ss[0].max
              then ss[k + 1].count == ss[k].count + es[k].n
              else ss[k + 1] == ss[k]
    ensures es[k].n == 0 ==> ss[k + 1] == ss[k]
    ensures es[k].n > 0 && ss[k].count + es[k].n == ss[0].max ==> ss[k + 1].count == ss[0].max
  {
    RunKeepsInv(ss, es, k);
    Sum32(ss[k].count, es[k].n);
    assert ss[k + 1] == Step(ss[k], es[k]);
  }

  /** What a wait call and a probe decide at once: they succeed and take one token exactly
      if there is one; without one, a call with timeout 0 reports TIMEOUT and any other
      sleeps, with a deadline exactly if its timeout is finite. */
  lemma EntryIsExact(ss: seq<State>, es: seq<Event>, k: nat)
    requires IsRun(ss, es) && k < |es|
    ensures es[k].Enter? || es[k].Poll? ==>
              (Returns(ss[k], es[k]) == Some(Object0) <==> ss[k].count > 0)
              && (ss[k].count > 0 ==> ss[k + 1] == ss[k].(count := ss[k].count - 1))
    ensures es[k].Poll? && ss[k].count == 0 ==> ss[k + 1] == ss[k]
    ensures es[k].Enter? && ss[k].count == 0 ==>
              if es[k].p == NoWait then Returns(ss[k], es[k]) == Some(Timeout) && ss[k + 1] == ss[k]
              else
                && Returns(ss[k], es[k]) == None
                && ss[k + 1].asleep == ss[k].asleep + {es[k].t}
                && (Enabled(ss[k + 1], Expire(es[k].t)) <==> es[k].p == Timed)
    ensures Returns(ss[k], es[k]) == Some(Timeout) ==> (es[k].Enter? && es[k].p == NoWait) || es[k].Leave?
  {
    RunKeepsInv(ss, es, k);
    assert ss[k + 1] == Step(ss[k], es[k]);
  }

  /** An accepted release leaves fewer tokens than it found if and only if it wraps. */
  lemma ReleaseLosesIffWraps(s: State, e: Event)
    requires Inv(s) && Enabled(s, e) && e.Release? && Accepts(s, e.n)
    ensures Step(s, e).count < s.count <==> s.count + e.n >= TWO32
  {
    Sum32(s.count, e.n);
  }

  /** It happens: releasing 2^32 - 1 tokens to any new semaphore that has some is accepted
      and takes one away. */
  lemma WrappingReleaseLosesTokens(s: State)
    requires Initial(s) && s.count > 0
    ensures var e := Release(TWO32 - 1, {});
            Enabled(s, e) && Accepts(s, e.n) && Step(s, e).count == s.count - 1
  {
    Sum32(s.count, TWO32 - 1);
  }

  /** The timeout thread `t` gave to its most recent wait call among the first `k` events. */
  ghost function LastPatience(es: seq<Event>, k: nat, t: Tid): Option<Patience>
    requires k <= |es|
  {
    if k == 0 then None
    else if es[k - 1].Enter? && es[k - 1].t == t then Some(es[k - 1].p)
    else LastPatience(es, k - 1, t)
  }

  lemma {:induction false} ExpiredAreTimed(ss: seq<State>, es: seq<Event>, k: nat)
    requires IsRun(ss, es) && k <= |es|
    ensures ss[k].expired <= ss[k].timed
  {
    if k == 0 {
    } else {
      ExpiredAreTimed(ss, es, k - 1);
      assert ss[k] == Step(ss[k - 1], es[k - 1]);
    }
  }

  lemma {:induction false} WaitersRememberPatience(ss: seq<State>, es: seq<Event>, k: nat, t: Tid)
    requires IsRun(ss, es) && k <= |es| && Waiting(ss[k], t)
    ensures LastPatience(es, k, t) == Some(if t in ss[k].timed then Timed else Forever)
  {
    if es[k - 1].Enter? && es[k - 1].t == t {
    } else {
      WaitersRememberPatience(ss, es, k - 1, t);
    }
  }

  /** A blocked wait reports TIMEOUT only to a caller that gave a finite timeout. */
  lemma OnlyTimedWaitsExpire(ss: seq<State>, es: seq<Event>, k: nat)
    requires IsRun(ss, es) && k < |es| && es[k].Leave?
    ensures LastPatience(es, k, es[k].t) == Some(Timed)
  {
    ExpiredAreTimed(ss, es, k);
    WaitersRememberPatience(ss, es, k, es[k].t);
  }

  // ---- The object itself ----

  class Semaphore {
    var count: nat
    const max: nat
    var asleep: set<Tid>
    var woken: set<Tid>
    var expired: set<Tid>
    var timed: set<Tid>

    ghost function View(): State
      reads this
    {
      State(count, max, asleep, woken, expired, timed)
    }

    constructor (initialCount: nat, maxCount: nat)
      requires initialCount <= maxCount && 0 < maxCount < TWO32
      ensures Initial(View()) && count == initialCount && max == maxCount
    {
      count, max := initialCount, maxCount;
      asleep, woken, expired, timed := {}, {}, {}, {};
    }

    /** mvgal_nt_semaphore_create: refuses a zero maximum or an initial count above it. */
    static method Create(initialCount: nat, maxCount: nat) returns (s: Semaphore?)
      requires maxCount < TWO32
      ensures s == null <==> initialCount > maxCount || maxCount == 0
      ensures s != null ==> fresh(s) && Initial(s.View()) && s.count == initialCount && s.max == maxCount
    {
      if initialCount > maxCount || maxCount == 0 {
        return null;
      }
      s := new Semaphore(initialCount, maxCount);
    }

    /** pthread_cond_signal: unblocks some sleepers, at least one if there is any. */
    method Signal()
      modifies this`asleep, this`woken
      ensures asleep <= old(asleep) && woken == old(woken) + (old(asleep) - asleep)
      ensures old(asleep) != {} ==> |asleep| < |old(asleep)|
    {
      if asleep != {} {
        var first :| first in asleep;
        var stay: set<Tid> :| stay <= asleep - {first};
        SubsetSize(stay, asleep, first);
        asleep, woken := stay, woken + (asleep - stay);
      }
    }

    /** The wake-up loop of a release that found `previous` tokens. */
    method WakeUp(previous: nat, n: nat) returns (wake: set<Tid>)
      modifies this`asleep, this`woken
      ensures wake <= old(asleep)
      ensures |wake| >= Signals(previous, n, max) || wake == old(asleep)
      ensures asleep == old(asleep) - wake && woken == old(woken) + wake
    {
      var start := asleep;
      for i := 0 to n
        invariant asleep <= start && woken == old(woken) + (start - asleep)
        invariant |asleep| + Signals(previous, i, max) <= |start| || asleep == {}
      {
        if (previous + i) % TWO32 < max {
          Signal();
        }
      }
      wake := start - asleep;
      DisjointSizes(wake, asleep);
      assert wake + asleep == start;
    }

    /** mvgal_nt_semaphore_release; an amount of 0 is refused before the count is read. */
    method Release(n: nat) returns (ok: bool, previous: Option<nat>, wake: set<Tid>)
      requires Inv(View()) && n < TWO32
      modifies this
      ensures previous == if n == 0 then None else Some(old(count))
      ensures ok == Accepts(old(View()), n)
      ensures 0 < n && old(count) + n < TWO32 ==> (ok <==> old(count) + n <= max)
      ensures old(count) + n >= TWO32 ==> (ok <==> old(count) + n - TWO32 <= max)
      ensures ok ==> count == if old(count) + n < TWO32 then old(count) + n else old(count) + n - TWO32
      ensures !ok ==> View() == old(View())
      ensures Enabled(old(View()), Event.Release(n, wake))
      ensures View() == Step(old(View()), Event.Release(n, wake))
      ensures Inv(View())
    {
      Sum32(count, n);
      if n == 0 {
        return false, None, {};
      }
      var found := count;
      previous := Some(found);
      var newCount := (found + n) % TWO32;
      if newCount > max {
        return false, previous, {};
      }
      ghost var before := View();
      count := newCount;
      wake := WakeUp(found, n);
      ok := true;
      ReleaseKeepsInv(before, Event.Release(n, wake));
    }

    /** The wait call up to its return or its first sleep. */
    method Wait(t: Tid, p: Patience) returns (r: Option<WaitResult>)
      requires Inv(View()) && !Waiting(View(), t)
      modifies this
      ensures View() == Step(old(View()), Enter(t, p))
      ensures r == Returns(old(View()), Enter(t, p))
      ensures Inv(View())
    {
      StepKeepsInv(View(), Enter(t, p));
      var cur := count;
      if cur > 0 {
        count := cur - 1;
        return Some(Object0);
      }
      if p == NoWait {
        return Some(Timeout);
      }
      asleep := asleep + {t};
      timed := if p == Timed then timed + {t} else timed - {t};
      r := None;
    }

    /** A woken waiter re-tests the loop condition under the lock. */
    method ResumeWait(t: Tid) returns (r: Option<WaitResult>)
      requires Inv(View()) && t in woken
      modifies this
      ensures View() == Step(old(View()), Resume(t))
      ensures r == Returns(old(View()), Resume(t))
      ensures Inv(View())
    {
      StepKeepsInv(View(), Resume(t));
      if count == 0 {
        asleep, woken := asleep + {t}, woken - {t};
        return None;
      }
      var cur := count;
      count := FetchSub(cur);
      woken := woken - {t};
      r := Some(AfterLoop(cur));
    }

    /** The semaphore arm of mvgal_nt_wait_multiple_any. */
    method TryTake() returns (got: bool)
      requires Inv(View())
      modifies this`count
      ensures View() == Step(old(View()), Poll)
      ensures got <==> Returns(old(View()), Poll) == Some(Object0)
      ensures Inv(View())
    {
      StepKeepsInv(View(), Poll);
      got := count > 0;
      if got {
        count := count - 1;
      }
    }
  }
}
