/**
 NT events of compat/windows/mvgal_ntsync.c: manual-reset ("notification") and
 auto-reset ("synchronization").  Every operation is one critical section.
 */
module NtEvent {

  datatype State = State(auto: bool, signaled: bool)

  datatype Event =
    | Set
    | Reset
    | Pulse
    | Query      // consuming read: mvgal_nt_event_query
    | Probe      // consuming read made by either multi-wait

  function Step(s: State, e: Event): State {
    match e
    case Set => s.(signaled := true)
    case Reset => s.(signaled := false)
    case Pulse => s.(signaled := true).(signaled := false)
    case Query => if s.signaled && s.auto then s.(signaled := false) else s
    case Probe => if s.signaled && s.auto then s.(signaled := false) else s
  }

  /** What a consuming read reports. */
  predicate Reports(s: State, e: Event) {
    (e == Query || e == Probe) && s.signaled
  }

  ghost predicate IsRun(ss: seq<State>, es: seq<Event>) {
    && |ss| == |es| + 1
    && forall i | 0 <= i < |es| :: ss[i + 1] == Step(ss[i], es[i])
  }

  ghost function Count(ss: seq<State>, es: seq<Event>, p: (State, Event) -> bool, k: nat): nat
    requires k <= |es| <= |ss|
  {
    if k == 0 then 0
    else Count(ss, es, p, k - 1) + if p(ss[k - 1], es[k - 1]) then 1 else 0
  }

  predicate IsSet(s: State, e: Event) { e == Set }

  /** A set that finds the event already signaled adds nothing. */
  predicate Absorbed(s: State, e: Event) { e == Set && s.signaled }

  /** A signal thrown away by a reset or a pulse. */
  predicate Discarded(s: State, e: Event) { (e == Reset || e == Pulse) && s.signaled }

  function Unit(b: bool): nat { if b then 1 else 0 }

  /** Every signal of an auto-reset event is accounted for: what it started with and
      what was set is either reported to exactly one reader, absorbed by an earlier
      signal, discarded by a reset or pulse, or still pending. */
  lemma {:induction false} SignalConservation(ss: seq<State>, es: seq<Event>, k: nat)
    requires IsRun(ss, es) && k <= |es| && ss[0].auto
    ensures ss[k].auto
    ensures Unit(ss[0].signaled) + Count(ss, es, IsSet, k)
            == Count(ss, es, Reports, k) + Count(ss, es, Absorbed, k)
               + Count(ss, es, Discarded, k) + Unit(ss[k].signaled)
  {
    if k == 0 {
    } else {
      SignalConservation(ss, es, k - 1);
      assert ss[k] == Step(ss[k - 1], es[k - 1]);
    }
  }

  /** Hence readers never see more signals than were sent. */
  lemma ConsumptionsBounded(ss: seq<State>, es: seq<Event>, k: nat)
    requires IsRun(ss, es) && k <= |es| && ss[0].auto
    ensures Count(ss, es, Reports, k) <= Unit(ss[0].signaled) + Count(ss, es, IsSet, k)
  {
    SignalConservation(ss, es, k);
  }

  predicate Clears(e: Event) { e == Reset || e == Pulse }

  /** A manual-reset event reports its signal to every reader until a reset or pulse:
      it reports exactly when the latest set, reset or pulse was a set. */
  ghost predicate LatestIsSet(es: seq<Event>, k: nat, initially: bool)
    requires k <= |es|
  {
    if k == 0 then initially
    else if es[k - 1] == Set then true
    else if Clears(es[k - 1]) then false
    else LatestIsSet(es, k - 1, initially)
  }

  lemma {:induction false} ManualResetReportsToAll(ss: seq<State>, es: seq<Event>, k: nat)
    requires IsRun(ss, es) && k <= |es| && !ss[0].auto
    ensures !ss[k].auto && ss[k].signaled == LatestIsSet(es, k, ss[0].signaled)
  {
    if k == 0 {
    } else {
      ManualResetReportsToAll(ss, es, k - 1);
      assert ss[k] == Step(ss[k - 1], es[k - 1]);
    }
  }

  class NtEvent {
    const auto: bool
    var signaled: bool

    ghost function View(): State
      reads this
    {
      State(auto, signaled)
    }

    constructor (autoReset: bool, initiallySignaled: bool)
      ensures View() == State(autoReset, initiallySignaled)
    {
      auto, signaled := autoReset, initiallySignaled;
    }

    method SetEvent()
      modifies this
      ensures View() == Step(old(View()), Set)
    {
      signaled := true;
    }

    method ResetEvent()
      modifies this
      ensures View() == Step(old(View()), Reset)
    {
      signaled := false;
    }

    method PulseEvent()
      modifies this
      ensures View() == Step(old(View()), Pulse)
    {
      signaled := true;
      signaled := false;
    }

    method QueryEvent() returns (sig: bool)
      modifies this
      ensures View() == Step(old(View()), Query)
      ensures sig == Reports(old(View()), Query)
    {
      sig := signaled;
      if signaled && auto {
        signaled := false;
      }
    }
  }
}
