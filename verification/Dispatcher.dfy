/**
 The kernel scheduler (kernel/mvgal_scheduler.c): four FIFO queues, one per priority
 class, drained from the highest class to the lowest; each workload goes to the least
 utilised GPU its mask allows.
 */
module Dispatcher {

  import opened Common

  const CLASSES: nat := 4
  const MAX_PRIORITY: nat := 15
  const INT_MAX: nat := 0x7FFF_FFFF

  /** A 32-bit mask, bit by bit, least significant first. */
  type Mask = m: seq<bool> | |m| == 32 witness seq(32, _ => false)

  datatype Workload = Workload(id: nat, priority: nat, mask: Mask)

  datatype Gpu = Gpu(devfn: nat, enabled: bool, available: bool, utilization: nat)

  // ---- Choosing a GPU ----

  /** Bit `devfn & 0x1F` of the mask. */
  predicate InMask(mask: Mask, devfn: nat) {
    mask[devfn % 32]
  }

  /** The search starts from INT_MAX, so a GPU reporting that much or more is never chosen. */
  predicate Eligible(g: Gpu, mask: Mask) {
    InMask(mask, g.devfn) && g.enabled && g.available && g.utilization < INT_MAX
  }

  predicate HasGpu(gpus: seq<Gpu>, mask: Mask) {
    exists i | 0 <= i < |gpus| :: Eligible(gpus[i], mask)
  }

  /** GPU k is the first among the least utilised eligible ones. */
  predicate IsFirstLeast(gpus: seq<Gpu>, mask: Mask, k: nat) {
    && k < |gpus| && Eligible(gpus[k], mask)
    && (forall i | 0 <= i < |gpus| && Eligible(gpus[i], mask) :: gpus[k].utilization <= gpus[i].utilization)
    && forall i | 0 <= i < k && Eligible(gpus[i], mask) :: gpus[k].utilization < gpus[i].utilization
  }

  /** mvgal_find_available_gpu. */
  method FindAvailableGpu(gpus: seq<Gpu>, mask: Mask) returns (best: Option<nat>)
    ensures best.None? <==> !HasGpu(gpus, mask)
    ensures best.Some? ==> IsFirstLeast(gpus, mask, best.value)
    ensures best.Some? ==>
              best.value < |gpus| && var g := gpus[best.value]; g.enabled && g.available && mask[g.devfn % 32]
    ensures forall i | 0 <= i < |gpus| ::
              gpus[i].enabled && gpus[i].available && mask[gpus[i].devfn % 32] && gpus[i].utilization < 0x7FFF_FFFF ==>
                && best.Some? && gpus[best.value].utilization <= gpus[i].utilization
                && (gpus[best.value].utilization == gpus[i].utilization ==> best.value <= i)
  {
    best := None;
    var bestUtilization := INT_MAX;
    for i := 0 to |gpus|
      invariant best.None? ==> bestUtilization == INT_MAX
      invariant best.None? ==> forall j | 0 <= j < i :: !Eligible(gpus[j], mask)
      invariant best.Some? ==>
                  && best.value < i && Eligible(gpus[best.value], mask)
                  && bestUtilization == gpus[best.value].utilization
      invariant best.Some? ==>
                  forall j | 0 <= j < i && Eligible(gpus[j], mask) ::
                    if j < best.value then bestUtilization < gpus[j].utilization
                    else bestUtilization <= gpus[j].utilization
    {
      if InMask(mask, gpus[i].devfn) {
        if gpus[i].enabled && gpus[i].available {
          if gpus[i].utilization < bestUtilization {
            bestUtilization := gpus[i].utilization;
            best := Some(i);
          }
        }
      }
    }
  }

  // ---- Priority classes ----

  function ClassOf(w: Workload): (c: nat)
    ensures c < CLASSES
    ensures 4 * c <= Min(w.priority, 15) < 4 * c + 4
  {
    var priority := if w.priority > MAX_PRIORITY then MAX_PRIORITY else w.priority;
    priority / 4
  }

  /** The workloads of class c, in order. */
  function OfClass(ws: seq<Workload>, c: nat): seq<Workload> {
    if ws == [] then []
    else
      var rest := OfClass(ws[..|ws| - 1], c);
      if ClassOf(ws[|ws| - 1]) == c then rest + [ws[|ws| - 1]] else rest
  }

  /** `out` is `ws` sorted by descending class, equal classes keeping their order. */
  ghost predicate IsStableSort(ws: seq<Workload>, out: seq<Workload>) {
    Descending(out) && KeepsClasses(ws, out)
  }

  ghost predicate KeepsClasses(ws: seq<Workload>, out: seq<Workload>) {
    forall c | 0 <= c < CLASSES :: OfClass(out, c) == OfClass(ws, c)
  }

  // -- The same on the priorities themselves --

  /** Of two workloads in different quarters of the priority range 0 to 15, the more urgent
      comes first. */
  ghost predicate UrgentFirst(out: seq<Workload>) {
    forall i, j | 0 <= i < j < |out| :: Min(out[i].priority, 15) / 4 >= Min(out[j].priority, 15) / 4
  }

  /** The workloads of one quarter of the priority range, in order. */
  function Quarter(ws: seq<Workload>, q: nat): seq<Workload> {
    if ws == [] then []
    else (if Min(ws[0].priority, 15) / 4 == q then [ws[0]] else []) + Quarter(ws[1..], q)
  }

  /** Workloads of the same quarter come in order of arrival. */
  ghost predicate KeepsArrival(ws: seq<Workload>, out: seq<Workload>) {
    forall q | 0 <= q < 4 :: Quarter(out, q) == Quarter(ws, q)
  }

  lemma DescendingIsUrgentFirst(out: seq<Workload>)
    requires Descending(out)
    ensures UrgentFirst(out)
  {
    forall i, j | 0 <= i < j < |out| ensures Min(out[i].priority, 15) / 4 >= Min(out[j].priority, 15) / 4 {
      assert ClassOf(out[i]) >= ClassOf(out[j]);
    }
  }

  lemma {:induction false} QuarterIsClass(ws: seq<Workload>, q: nat)
    ensures Quarter(ws, q) == OfClass(ws, q)
  {
    if ws == [] {
    } else {
      QuarterIsClass(ws[1..], q);
      OfClassConcat([ws[0]], ws[1..], q);
      assert ws == [ws[0]] + ws[1..];
      assert OfClass([ws[0]], q) == if ClassOf(ws[0]) == q then [ws[0]] else [] by {
        assert [ws[0]][..0] == [];
      }
    }
  }

  lemma StableSortInPriorities(ws: seq<Workload>, out: seq<Workload>)
    requires IsStableSort(ws, out)
    ensures UrgentFirst(out) && KeepsArrival(ws, out)
  {
    DescendingIsUrgentFirst(out);
    forall q | 0 <= q < 4 ensures Quarter(out, q) == Quarter(ws, q) {
      QuarterIsClass(ws, q);
      QuarterIsClass(out, q);
    }
  }

  lemma {:induction false} OfClassConcat(a: seq<Workload>, b: seq<Workload>, c: nat)
    ensures OfClass(a + b, c) == OfClass(a, c) + OfClass(b, c)
  {
    if b == [] {
      assert a + b == a;
    } else {
      var init, last := b[..|b| - 1], b[|b| - 1];
      OfClassConcat(a, init, c);
      assert (a + b)[..|a + b| - 1] == a + init;
    }
  }

  lemma {:induction false} OfClassMembers(ws: seq<Workload>, c: nat)
    ensures forall i | 0 <= i < |OfClass(ws, c)| :: ClassOf(OfClass(ws, c)[i]) == c
  {
    if ws == [] {
    } else {
      OfClassMembers(ws[..|ws| - 1], c);
    }
  }

  ghost predicate Descending(ws: seq<Workload>) {
    forall i, j | 0 <= i < j < |ws| :: ClassOf(ws[i]) >= ClassOf(ws[j])
  }

  /** The last part first, down to part c. */
  function HighFirst(parts: seq<seq<Workload>>, c: nat): seq<Workload>
    requires c <= |parts|
    decreases |parts| - c
  {
    if c == |parts| then [] else HighFirst(parts, c + 1) + parts[c]
  }

  ghost predicate AllOf(ws: seq<Workload>, c: nat) {
    forall i | 0 <= i < |ws| :: ClassOf(ws[i]) == c
  }

  lemma {:induction false} OfClassOfOne(ws: seq<Workload>, c: nat, d: nat)
    requires AllOf(ws, c)
    ensures OfClass(ws, d) == if c == d then ws else []
  {
    if ws == [] {
    } else {
      OfClassOfOne(ws[..|ws| - 1], c, d);
    }
  }

  lemma PartsOfBoth(high: seq<Workload>, mine: seq<Workload>, c: nat, d: nat)
    requires AllOf(mine, c) && (d <= c ==> OfClass(high, d) == [])
    ensures OfClass(high + mine, d) == if d == c then mine else OfClass(high, d)
  {
    OfClassOfOne(mine, c, d);
    OfClassConcat(high, mine, d);
  }

  lemma {:induction false} ClassOfParts(parts: seq<seq<Workload>>, c: nat, d: nat)
    requires c <= |parts| && forall k | 0 <= k < |parts| :: AllOf(parts[k], k)
    ensures OfClass(HighFirst(parts, c), d) == if c <= d < |parts| then parts[d] else []
    decreases |parts| - c
  {
    if c == |parts| {
    } else {
      ClassOfParts(parts, c + 1, d);
      PartsOfBoth(HighFirst(parts, c + 1), parts[c], c, d);
    }
  }

  ghost predicate AllFrom(ws: seq<Workload>, c: nat) {
    forall i | 0 <= i < |ws| :: ClassOf(ws[i]) >= c
  }

  lemma {:induction false} PartsDescend(parts: seq<seq<Workload>>, c: nat)
    requires c <= |parts| && forall k | 0 <= k < |parts| :: AllOf(parts[k], k)
    ensures AllFrom(HighFirst(parts, c), c) && Descending(HighFirst(parts, c))
    decreases |parts| - c
  {
    if c == |parts| {
    } else {
      PartsDescend(parts, c + 1);
      AppendClass(HighFirst(parts, c + 1), parts[c], c);
    }
  }

  lemma AppendClass(a: seq<Workload>, b: seq<Workload>, c: nat)
    requires AllFrom(a, c + 1) && Descending(a) && AllOf(b, c)
    ensures AllFrom(a + b, c) && Descending(a + b)
  {
    forall i | 0 <= i < |a + b| ensures ClassOf((a + b)[i]) == if i < |a| then ClassOf(a[i]) else c {
    }
  }

  /** The four queues of these workloads. */
  function Queues(ws: seq<Workload>): seq<seq<Workload>> {
    seq(CLASSES, c requires 0 <= c < CLASSES => OfClass(ws, c))
  }

  /** The workloads by class, from high to low. */
  function ByClass(ws: seq<Workload>): seq<Workload> {
    HighFirst(Queues(ws), 0)
  }

  /** Taking the classes from high to low yields a stable priority sort. */
  lemma ByClassIsStableSort(ws: seq<Workload>)
    ensures IsStableSort(ws, ByClass(ws))
    ensures UrgentFirst(ByClass(ws)) && KeepsArrival(ws, ByClass(ws))
  {
    var parts := Queues(ws);
    forall k | 0 <= k < CLASSES ensures AllOf(parts[k], k) {
      OfClassMembers(ws, k);
    }
    PartsDescend(parts, 0);
    forall c | 0 <= c < CLASSES ensures OfClass(ByClass(ws), c) == OfClass(ws, c) {
      ClassOfParts(parts, 0, c);
    }
    StableSortInPriorities(ws, ByClass(ws));
  }

  lemma {:induction false} ClassCounts(ws: seq<Workload>, w: Workload)
    ensures multiset(ws)[w] == multiset(OfClass(ws, ClassOf(w)))[w]
  {
    if ws == [] {
    } else {
      var init, last := ws[..|ws| - 1], ws[|ws| - 1];
      ClassCounts(init, w);
      assert ws == init + [last];
    }
  }

  /** A stable sort has every workload exactly as often as the input. */
  lemma StableSortIsPermutation(ws: seq<Workload>, out: seq<Workload>)
    requires IsStableSort(ws, out)
    ensures multiset(out) == multiset(ws)
  {
    forall w ensures multiset(out)[w] == multiset(ws)[w] {
      ClassCounts(ws, w);
      ClassCounts(out, w);
    }
  }

  lemma SameLast(x: seq<Workload>, a: Workload, y: seq<Workload>, b: Workload)
    requires x + [a] == y + [b]
    ensures a == b && x == y
  {
    assert (x + [a])[|x|] == a && (y + [b])[|y|] == b;
    assert x == (x + [a])[..|x|] && y == (y + [b])[..|y|];
  }

  /** There is only one stable sort: two outputs with the same classes are equal. */
  lemma {:induction false} StableSortIsUnique(ws: seq<Workload>, a: seq<Workload>, b: seq<Workload>)
    requires IsStableSort(ws, a) && IsStableSort(ws, b)
    ensures a == b
    decreases |a|
  {
    StableSortIsPermutation(ws, a);
    StableSortIsPermutation(ws, b);
    assert |a| == |multiset(a)| == |multiset(b)| == |b|;
    if a == [] {
    } else {
      var la, lb := a[|a| - 1], b[|b| - 1];
      assert la in b && lb in a by {
        assert la in multiset(a) && lb in multiset(b);
      }
      var c := ClassOf(la);
      assert ClassOf(lb) == c;
      assert OfClass(a, c) == OfClass(ws, c) == OfClass(b, c);
      var ia, ib := a[..|a| - 1], b[..|b| - 1];
      SameLast(OfClass(ia, c), la, OfClass(ib, c), lb);
      forall d | 0 <= d < CLASSES ensures OfClass(ib, d) == OfClass(ia, d) {
        assert OfClass(a, d) == OfClass(ws, d) == OfClass(b, d);
      }
      StableSortIsUnique(ia, ia, ib);
    }
  }

  // ---- Draining one queue, with retries ----

  /** One turn of the inner loop: the head leaves the queue if it was served and goes to
      the back otherwise. */
  function Turn(q: seq<Workload>, served: bool): seq<Workload>
    requires q != []
  {
    if served then q[1..] else q[1..] + [q[0]]
  }

  /** `log` says which turns served their workload; no turn starts on an empty queue. */
  predicate Plays(q: seq<Workload>, log: seq<bool>)
    decreases log
  {
    log == [] || (q != [] && Plays(Turn(q, log[0]), log[1..]))
  }

  /** The queue after these turns. */
  function Rest(q: seq<Workload>, log: seq<bool>): seq<Workload>
    requires Plays(q, log)
    decreases log
  {
    if log == [] then q else Rest(Turn(q, log[0]), log[1..])
  }

  /** The workloads served in these turns, in order. */
  function Served(q: seq<Workload>, log: seq<bool>): seq<Workload>
    requires Plays(q, log)
    decreases log
  {
    if log == [] then []
    else (if log[0] then [q[0]] else []) + Served(Turn(q, log[0]), log[1..])
  }

  /** `log` is what happens when turn k meets the GPU list gpus(k), from turn `from` on. */
  ghost predicate Follows(q: seq<Workload>, gpus: nat -> seq<Gpu>, from: nat, log: seq<bool>)
    requires Plays(q, log)
    decreases log
  {
    log == [] ||
    (log[0] == HasGpu(gpus(from), q[0].mask) && Follows(Turn(q, log[0]), gpus, from + 1, log[1..]))
  }

  /** The drain of q ends after the turns of `log`. */
  ghost predicate Drains(q: seq<Workload>, gpus: nat -> seq<Gpu>, from: nat, log: seq<bool>) {
    Plays(q, log) && Follows(q, gpus, from, log) && Rest(q, log) == []
  }

  /** Whatever the GPUs do, no workload is lost or duplicated. */
  lemma {:induction false} TurnsConserve(q: seq<Workload>, log: seq<bool>)
    requires Plays(q, log)
    ensures multiset(Served(q, log)) + multiset(Rest(q, log)) == multiset(q)
    decreases log
  {
    if log == [] {
    } else {
      var next := Turn(q, log[0]);
      TurnsConserve(next, log[1..]);
      HeadAndTail(q);
      ServedCounts(q, log);
    }
  }

  lemma HeadAndTail(q: seq<Workload>)
    requires q != []
    ensures multiset(q) == multiset{q[0]} + multiset(q[1..])
    ensures multiset(q[1..] + [q[0]]) == multiset(q)
  {
    assert q == [q[0]] + q[1..];
  }

  lemma ServedCounts(q: seq<Workload>, log: seq<bool>)
    requires Plays(q, log) && log != []
    ensures multiset(Served(q, log)) ==
            (if log[0] then multiset{q[0]} else multiset{}) + multiset(Served(Turn(q, log[0]), log[1..]))
  {
    var rest := Served(Turn(q, log[0]), log[1..]);
    assert [] + rest == rest;
  }

  // -- When a drain ends --

  function Always(gpus: seq<Gpu>): nat -> seq<Gpu> {
    _ => gpus
  }

  function Stuck(q: seq<Workload>, gpus: seq<Gpu>): multiset<Workload> {
    if q == [] then multiset{}
    else Stuck(q[1..], gpus) + if HasGpu(gpus, q[0].mask) then multiset{} else multiset{q[0]}
  }

  lemma {:induction false} StuckConcat(q: seq<Workload>, w: Workload, gpus: seq<Gpu>)
    ensures Stuck(q + [w], gpus) == Stuck(q, gpus) + if HasGpu(gpus, w.mask) then multiset{} else multiset{w}
  {
    if q == [] {
      assert (q + [w])[1..] == [];
    } else {
      StuckConcat(q[1..], w, gpus);
      assert (q + [w])[1..] == q[1..] + [w];
    }
  }

  /** A workload without a suitable GPU never leaves the queue. */
  lemma {:induction false} StuckForever(q: seq<Workload>, gpus: seq<Gpu>, from: nat, log: seq<bool>)
    requires Plays(q, log) && Follows(q, Always(gpus), from, log)
    ensures Stuck(Rest(q, log), gpus) == Stuck(q, gpus)
    decreases log
  {
    if log == [] {
    } else {
      StuckForever(Turn(q, log[0]), gpus, from + 1, log[1..]);
      if !log[0] {
        StuckConcat(q[1..], q[0], gpus);
      }
    }
  }

  lemma {:induction false} AllServed(q: seq<Workload>, gpus: seq<Gpu>, from: nat) returns (log: seq<bool>)
    requires forall i | 0 <= i < |q| :: HasGpu(gpus, q[i].mask)
    ensures Drains(q, Always(gpus), from, log)
  {
    if q == [] {
      log := [];
    } else {
      var rest := AllServed(q[1..], gpus, from + 1);
      log := [true] + rest;
      assert log[1..] == rest;
    }
  }

  lemma {:induction false} SomeStuck(q: seq<Workload>, gpus: seq<Gpu>, i: nat)
    requires i < |q| && !HasGpu(gpus, q[i].mask)
    ensures Stuck(q, gpus) != multiset{}
  {
    if i == 0 {
      assert q[0] in Stuck(q, gpus);
    } else {
      SomeStuck(q[1..], gpus, i - 1);
      var w :| w in Stuck(q[1..], gpus);
      assert w in Stuck(q, gpus);
    }
  }

  /** With an unchanging set of GPUs the drain of a queue ends if and only if every queued
      workload has a suitable GPU; otherwise it rotates the queue forever. */
  lemma DrainEndsIffAllMatch(q: seq<Workload>, gpus: seq<Gpu>, from: nat)
    ensures (exists log :: Drains(q, Always(gpus), from, log)) <==> forall i | 0 <= i < |q| :: HasGpu(gpus, q[i].mask)
  {
    if forall i | 0 <= i < |q| :: HasGpu(gpus, q[i].mask) {
      var log := AllServed(q, gpus, from);
    } else {
      var i :| 0 <= i < |q| && !HasGpu(gpus, q[i].mask);
      SomeStuck(q, gpus, i);
      forall log ensures !Drains(q, Always(gpus), from, log) {
        if Drains(q, Always(gpus), from, log) {
          StuckForever(q, gpus, from, log);
        }
      }
    }
  }

  // -- When a drain keeps the order --

  predicate Distinct(q: seq<Workload>) {
    forall i, j | 0 <= i < j < |q| :: q[i] != q[j]
  }

  /** Every success comes after a whole number of failed rounds through the n workloads
      that were then queued; `failures` have been counted already. */
  predicate WholeRounds(log: seq<bool>, n: nat, failures: nat)
    decreases log
  {
    if log == [] then true
    else if log[0] then n > 0 && failures % n == 0 && WholeRounds(log[1..], n - 1, 0)
    else WholeRounds(log[1..], n, failures + 1)
  }

  function Rotated(q: seq<Workload>, n: nat): (r: seq<Workload>)
    ensures |r| == |q|
  {
    if q == [] then [] else q[n % |q|..] + q[..n % |q|]
  }

  lemma NextModulo(n: nat, d: nat)
    requires d > 0
    ensures (n + 1) % d == if n % d + 1 == d then 0 else n % d + 1
  {
    var q, r := n / d, n % d;
    assert n + 1 == d * q + (r + 1);
    if r + 1 == d {
      assert n + 1 == d * (q + 1);
      MultipleModulo(q + 1, 0, d);
    } else {
      MultipleModulo(q, r + 1, d);
    }
  }

  lemma MultipleModulo(q: nat, r: nat, d: nat)
    requires r < d
    ensures (d * q + r) % d == r
  {
    var x := d * q + r;
    assert x == d * (x / d) + x % d;
    assert d * (q - x / d) == x % d - r;
    if q > x / d {
      MulLe(1, q - x / d, d);
    } else if q < x / d {
      MulLe(1, x / d - q, d);
    }
  }

  lemma FailureRotates(q: seq<Workload>, n: nat)
    requires q != []
    ensures Turn(Rotated(q, n), false) == Rotated(q, n + 1)
  {
    NextModulo(n, |q|);
  }

  lemma {:induction false} OrderKept(q: seq<Workload>, failures: nat, log: seq<bool>)
    requires Distinct(q) && Plays(Rotated(q, failures), log) && Rest(Rotated(q, failures), log) == []
    ensures Served(Rotated(q, failures), log) == q <==> WholeRounds(log, |q|, failures)
    decreases log
  {
    var now := Rotated(q, failures);
    if log == [] {
    } else if !log[0] {
      FailureRotates(q, failures);
      OrderKept(q, failures + 1, log[1..]);
      assert [] + Served(Turn(now, false), log[1..]) == Served(Turn(now, false), log[1..]);
    } else if failures % |q| == 0 {
      assert now == q;
      assert Rotated(q[1..], 0) == q[1..];
      OrderKept(q[1..], 0, log[1..]);
      FirstThenRest(q, Served(q[1..], log[1..]));
    } else {
      assert Served(now, log)[0] == now[0] == q[failures % |q|] != q[0];
    }
  }

  lemma FirstThenRest(q: seq<Workload>, rest: seq<Workload>)
    requires q != []
    ensures [q[0]] + rest == q <==> rest == q[1..]
  {
    assert ([q[0]] + rest)[1..] == rest;
    assert q == [q[0]] + q[1..];
  }

  /** A drain, under any changes of the GPU list, serves a queue of different workloads in
      its order if and only if each success comes after a whole number of failed rounds. */
  lemma DrainKeepsOrderIff(q: seq<Workload>, gpus: nat -> seq<Gpu>, from: nat, log: seq<bool>)
    requires Distinct(q) && Drains(q, gpus, from, log)
    ensures Served(q, log) == q <==> WholeRounds(log, |q|, 0)
  {
    assert Rotated(q, 0) == q;
    OrderKept(q, 0, log);
  }

  // ---- Draining all queues ----

  /** The turn at which the drain of class c starts, when the classes from n-1 down come first. */
  function StartOf(logs: seq<seq<bool>>, from: nat, c: nat): nat
    requires c < |logs|
    decreases |logs| - c
  {
    if c + 1 == |logs| then from else StartOf(logs, from, c + 1) + |logs[c + 1]|
  }

  /** A whole pass over the pending workloads ends, with these turns for each class. */
  ghost predicate PassEnds(ws: seq<Workload>, gpus: nat -> seq<Gpu>, from: nat, logs: seq<seq<bool>>) {
    |logs| == CLASSES && DrainsAll(Queues(ws), gpus, from, logs)
  }

  ghost predicate DrainsAll(parts: seq<seq<Workload>>, gpus: nat -> seq<Gpu>, from: nat, logs: seq<seq<bool>>) {
    && |logs| == |parts|
    && forall c | 0 <= c < |parts| :: Drains(parts[c], gpus, StartOf(logs, from, c), logs[c])
  }

  lemma ClassDrains(ws: seq<Workload>, gpus: nat -> seq<Gpu>, from: nat, logs: seq<seq<bool>>, c: nat)
    requires PassEnds(ws, gpus, from, logs) && c < CLASSES
    ensures Drains(OfClass(ws, c), gpus, StartOf(logs, from, c), logs[c])
  {
    assert Queues(ws)[c] == OfClass(ws, c);
  }

  lemma EndedPassPlays(ws: seq<Workload>, gpus: nat -> seq<Gpu>, from: nat, logs: seq<seq<bool>>)
    requires PassEnds(ws, gpus, from, logs)
    ensures PlaysAll(ws, logs)
  {
    forall c | 0 <= c < |logs| ensures Plays(OfClass(ws, c), logs[c]) {
      ClassDrains(ws, gpus, from, logs, c);
    }
  }

  predicate PlaysAll(ws: seq<Workload>, logs: seq<seq<bool>>) {
    forall c | 0 <= c < |logs| :: Plays(OfClass(ws, c), logs[c])
  }

  /** What each class serves, in order. */
  function Parts(ws: seq<Workload>, logs: seq<seq<bool>>): seq<seq<Workload>>
    requires PlaysAll(ws, logs)
  {
    seq(|logs|, c requires 0 <= c < |logs| && PlaysAll(ws, logs) => Served(OfClass(ws, c), logs[c]))
  }

  /** The order in which a pass serves the workloads. */
  function Dispatched(ws: seq<Workload>, logs: seq<seq<bool>>): seq<Workload>
    requires PlaysAll(ws, logs)
  {
    HighFirst(Parts(ws, logs), 0)
  }

  lemma ServedInClass(ws: seq<Workload>, c: nat, log: seq<bool>)
    requires Plays(OfClass(ws, c), log)
    ensures AllOf(Served(OfClass(ws, c), log), c)
  {
    var q := OfClass(ws, c);
    var out := Served(q, log);
    TurnsConserve(q, log);
    OfClassMembers(ws, c);
    forall i | 0 <= i < |out| ensures ClassOf(out[i]) == c {
      assert out[i] in multiset(out);
      assert out[i] in multiset(q);
    }
  }

  /** A pass serves classes from high to low, and from each class what that class serves. */
  lemma DispatchedParts(ws: seq<Workload>, logs: seq<seq<bool>>, d: nat)
    requires PlaysAll(ws, logs)
    ensures Descending(Dispatched(ws, logs))
    ensures OfClass(Dispatched(ws, logs), d) == if d < |logs| then Served(OfClass(ws, d), logs[d]) else []
  {
    var parts := Parts(ws, logs);
    forall k | 0 <= k < |parts| ensures AllOf(parts[k], k) {
      ServedInClass(ws, k, logs[k]);
    }
    PartsDescend(parts, 0);
    ClassOfParts(parts, 0, d);
  }

  /** Every element of a class is one of the workloads, and different ones stay different. */
  lemma {:induction false} OfClassDistinct(ws: seq<Workload>, c: nat)
    ensures forall w | w in OfClass(ws, c) :: w in ws
    ensures Distinct(ws) ==> Distinct(OfClass(ws, c))
  {
    if ws == [] {
    } else {
      var init, last := ws[..|ws| - 1], ws[|ws| - 1];
      OfClassDistinct(init, c);
      assert ws == init + [last];
      assert Distinct(ws) ==> Distinct(init) && last !in init;
    }
  }

  /** The order in which a pass serves different workloads: classes from high to low always,
      each workload once always, and the stable priority order if and only if in every
      class each success comes after a whole number of failed rounds. */
  lemma PassOrder(ws: seq<Workload>, gpus: nat -> seq<Gpu>, from: nat, logs: seq<seq<bool>>)
    requires PassEnds(ws, gpus, from, logs)
    ensures PlaysAll(ws, logs)
    ensures Descending(Dispatched(ws, logs)) && UrgentFirst(Dispatched(ws, logs))
    ensures multiset(Dispatched(ws, logs)) == multiset(ws)
    ensures Distinct(ws) ==>
              (IsStableSort(ws, Dispatched(ws, logs)) <==>
               forall c | 0 <= c < CLASSES :: WholeRounds(logs[c], |OfClass(ws, c)|, 0))
  {
    EndedPassPlays(ws, gpus, from, logs);
    var out := Dispatched(ws, logs);
    DispatchedParts(ws, logs, 0);
    DescendingIsUrgentFirst(out);
    PassServesAll(ws, gpus, from, logs);
    if Distinct(ws) {
      forall c | 0 <= c < CLASSES
        ensures OfClass(out, c) == OfClass(ws, c) <==> WholeRounds(logs[c], |OfClass(ws, c)|, 0)
      {
        DispatchedParts(ws, logs, c);
        OfClassDistinct(ws, c);
        ClassDrains(ws, gpus, from, logs, c);
        DrainKeepsOrderIff(OfClass(ws, c), gpus, StartOf(logs, from, c), logs[c]);
      }
    }
  }

  lemma PassServesAll(ws: seq<Workload>, gpus: nat -> seq<Gpu>, from: nat, logs: seq<seq<bool>>)
    requires PassEnds(ws, gpus, from, logs) && PlaysAll(ws, logs)
    ensures multiset(Dispatched(ws, logs)) == multiset(ws)
  {
    var out := Dispatched(ws, logs);
    forall w ensures multiset(out)[w] == multiset(ws)[w] {
      var c := ClassOf(w);
      ClassCounts(ws, w);
      ClassCounts(out, w);
      DispatchedParts(ws, logs, c);
      ClassDrains(ws, gpus, from, logs, c);
      TurnsConserve(OfClass(ws, c), logs[c]);
    }
  }

  // -- Passes in which every workload is served at its own turn --

  /** n turns that all serve. */
  function AllTrue(n: nat): (r: seq<bool>)
    ensures |r| == n && forall i | 0 <= i < n :: r[i]
  {
    seq(n, _ => true)
  }

  /** The k-th workload of q finds a suitable GPU at turn from + k. */
  ghost predicate InTurn(q: seq<Workload>, gpus: nat -> seq<Gpu>, from: nat) {
    forall k | 0 <= k < |q| :: HasGpu(gpus(from + k), q[k].mask)
  }

  lemma {:induction false} AllTrueServes(q: seq<Workload>)
    ensures Plays(q, AllTrue(|q|)) && Rest(q, AllTrue(|q|)) == [] && Served(q, AllTrue(|q|)) == q
  {
    if q == [] {
    } else {
      var log := AllTrue(|q|);
      AllTrueServes(q[1..]);
      assert log[1..] == AllTrue(|q[1..]|);
      assert Turn(q, log[0]) == q[1..];
      assert [q[0]] + q[1..] == q;
    }
  }

  lemma {:induction false} AllTrueFollows(q: seq<Workload>, gpus: nat -> seq<Gpu>, from: nat)
    requires Plays(q, AllTrue(|q|))
    ensures Follows(q, gpus, from, AllTrue(|q|)) <==> InTurn(q, gpus, from)
  {
    if q == [] {
    } else {
      var log := AllTrue(|q|);
      assert log[1..] == AllTrue(|q[1..]|);
      assert Turn(q, log[0]) == q[1..];
      AllTrueFollows(q[1..], gpus, from + 1);
      HeadInTurn(q, gpus, from);
    }
  }

  lemma HeadInTurn(q: seq<Workload>, gpus: nat -> seq<Gpu>, from: nat)
    requires q != []
    ensures InTurn(q, gpus, from) <==> HasGpu(gpus(from), q[0].mask) && InTurn(q[1..], gpus, from + 1)
  {
    InTurnSplits([q[0]], q[1..], gpus, from);
    assert q == [q[0]] + q[1..];
    assert InTurn([q[0]], gpus, from) <==> HasGpu(gpus(from + 0), [q[0]][0].mask);
  }

  lemma InTurnSplits(a: seq<Workload>, b: seq<Workload>, gpus: nat -> seq<Gpu>, from: nat)
    ensures InTurn(a + b, gpus, from) <==> InTurn(a, gpus, from) && InTurn(b, gpus, from + |a|)
  {
    if InTurn(a + b, gpus, from) {
      forall k | 0 <= k < |a| ensures HasGpu(gpus(from + k), a[k].mask) {
        assert (a + b)[k] == a[k];
      }
      forall k | 0 <= k < |b| ensures HasGpu(gpus(from + |a| + k), b[k].mask) {
        assert (a + b)[|a| + k] == b[k] && from + (|a| + k) == from + |a| + k;
      }
    }
    if InTurn(a, gpus, from) && InTurn(b, gpus, from + |a|) {
      forall k | 0 <= k < |a + b| ensures HasGpu(gpus(from + k), (a + b)[k].mask) {
        assert k >= |a| ==> (a + b)[k] == b[k - |a|] && from + k == from + |a| + (k - |a|);
      }
    }
  }

  /** One successful turn for each workload of each part. */
  function Straight(parts: seq<seq<Workload>>): (logs: seq<seq<bool>>)
    ensures |logs| == |parts|
  {
    seq(|parts|, c requires 0 <= c < |parts| => AllTrue(|parts[c]|))
  }

  /** When no turn fails, a class starts after the workloads of the higher classes. */
  lemma {:induction false} StraightStart(parts: seq<seq<Workload>>, from: nat, c: nat)
    requires c < |parts|
    ensures StartOf(Straight(parts), from, c) == from + |HighFirst(parts, c + 1)|
    decreases |parts| - c
  {
    if c + 1 == |parts| {
    } else {
      StraightStart(parts, from, c + 1);
    }
  }

  /** Part k is served in turn after the higher parts. */
  ghost predicate PartInTurn(parts: seq<seq<Workload>>, gpus: nat -> seq<Gpu>, from: nat, k: nat)
    requires k < |parts|
  {
    InTurn(parts[k], gpus, from + |HighFirst(parts, k + 1)|)
  }

  /** The parts are each served in turn if and only if the whole order is. */
  lemma {:induction false} PartsInTurn(parts: seq<seq<Workload>>, gpus: nat -> seq<Gpu>, from: nat, c: nat)
    requires c <= |parts|
    ensures InTurn(HighFirst(parts, c), gpus, from) <==> forall k | c <= k < |parts| :: PartInTurn(parts, gpus, from, k)
    decreases |parts| - c
  {
    if c == |parts| {
    } else {
      var high := HighFirst(parts, c + 1);
      PartsInTurn(parts, gpus, from, c + 1);
      InTurnSplits(high, parts[c], gpus, from);
      assert HighFirst(parts, c) == high + parts[c];
      assert PartInTurn(parts, gpus, from, c) <==> InTurn(parts[c], gpus, from + |high|);
      if InTurn(HighFirst(parts, c), gpus, from) {
        forall k | c <= k < |parts| ensures PartInTurn(parts, gpus, from, k) {
          assert k > c ==> PartInTurn(parts, gpus, from, k);
        }
      }
    }
  }

  lemma {:induction false} AllTrueDrains(q: seq<Workload>, gpus: nat -> seq<Gpu>, from: nat)
    ensures Drains(q, gpus, from, AllTrue(|q|)) <==> InTurn(q, gpus, from)
  {
    AllTrueServes(q);
    AllTrueFollows(q, gpus, from);
  }

  lemma {:induction false} StraightPart(parts: seq<seq<Workload>>, gpus: nat -> seq<Gpu>, from: nat, c: nat)
    requires c < |parts|
    ensures Drains(parts[c], gpus, StartOf(Straight(parts), from, c), Straight(parts)[c])
            <==> PartInTurn(parts, gpus, from, c)
  {
    var start := StartOf(Straight(parts), from, c);
    StraightStart(parts, from, c);
    assert Straight(parts)[c] == AllTrue(|parts[c]|);
    AllTrueDrains(parts[c], gpus, start);
  }

  lemma {:induction false} StraightParts(parts: seq<seq<Workload>>, gpus: nat -> seq<Gpu>, from: nat)
    ensures DrainsAll(parts, gpus, from, Straight(parts)) <==> InTurn(HighFirst(parts, 0), gpus, from)
  {
    PartsInTurn(parts, gpus, from, 0);
    forall c | 0 <= c < |parts|
      ensures Drains(parts[c], gpus, StartOf(Straight(parts), from, c), Straight(parts)[c])
              <==> PartInTurn(parts, gpus, from, c)
    {
      StraightPart(parts, gpus, from, c);
    }
  }

  lemma {:induction false} StraightOrder(ws: seq<Workload>, logs: seq<seq<bool>>)
    requires logs == Straight(Queues(ws))
    ensures PlaysAll(ws, logs) && Dispatched(ws, logs) == ByClass(ws)
  {
    var parts := Queues(ws);
    forall c | 0 <= c < |logs| ensures Plays(OfClass(ws, c), logs[c]) && Served(OfClass(ws, c), logs[c]) == parts[c] {
      AllTrueServes(parts[c]);
    }
    assert Parts(ws, logs) == parts;
  }

  /** A pass goes through without a failed turn if and only if, in the stable priority
      order, each workload finds a suitable GPU at its own turn; it then ends and serves
      exactly that order.  The GPU list may change at every turn. */
  lemma {:induction false} StraightPass(ws: seq<Workload>, gpus: nat -> seq<Gpu>, from: nat)
    ensures var logs := Straight(Queues(ws));
            && (PassEnds(ws, gpus, from, logs) <==> InTurn(ByClass(ws), gpus, from))
            && PlaysAll(ws, logs) && Dispatched(ws, logs) == ByClass(ws)
    ensures IsStableSort(ws, ByClass(ws))
  {
    StraightParts(Queues(ws), gpus, from);
    StraightOrder(ws, Straight(Queues(ws)));
    ByClassIsStableSort(ws);
  }

  // -- A fixed GPU list --

  ghost predicate AllMatch(ws: seq<Workload>, gpus: seq<Gpu>) {
    forall i | 0 <= i < |ws| :: HasGpu(gpus, ws[i].mask)
  }

  /** With a fixed list no turn fails in a drain that ends. */
  lemma {:induction false} FixedLogIsStraight(q: seq<Workload>, gpus: seq<Gpu>, from: nat, log: seq<bool>)
    requires AllMatch(q, gpus) && Drains(q, Always(gpus), from, log)
    ensures log == AllTrue(|q|)
    decreases log
  {
    if log == [] {
    } else {
      FixedLogIsStraight(q[1..], gpus, from + 1, log[1..]);
    }
  }

  lemma MatchingSorted(ws: seq<Workload>, gpus: seq<Gpu>, from: nat)
    requires AllMatch(ws, gpus)
    ensures InTurn(ByClass(ws), Always(gpus), from)
  {
    var out := ByClass(ws);
    ByClassIsStableSort(ws);
    StableSortIsPermutation(ws, out);
    forall k | 0 <= k < |out| ensures HasGpu(gpus, out[k].mask) {
      assert out[k] in multiset(out);
      assert out[k] in multiset(ws);
    }
  }

  /** With a fixed GPU list a dispatch pass ends if and only if every pending workload has a
      suitable GPU, and when it ends it has served them all in the stable priority order. */
  lemma FixedPassEndsIffAllMatch(ws: seq<Workload>, gpus: seq<Gpu>, from: nat)
    ensures (exists logs :: PassEnds(ws, Always(gpus), from, logs)) <==> AllMatch(ws, gpus)
    ensures forall logs | PassEnds(ws, Always(gpus), from, logs) ::
              PlaysAll(ws, logs) && Dispatched(ws, logs) == ByClass(ws)
    ensures IsStableSort(ws, ByClass(ws))
  {
    StraightPass(ws, Always(gpus), from);
    if AllMatch(ws, gpus) {
      MatchingSorted(ws, gpus, from);
    }
    forall logs | PassEnds(ws, Always(gpus), from, logs)
      ensures AllMatch(ws, gpus) && PlaysAll(ws, logs) && Dispatched(ws, logs) == ByClass(ws)
    {
      EndedPassMatches(ws, gpus, from, logs);
      FixedPassIsStraight(ws, gpus, from, logs);
    }
  }

  lemma FixedPassIsStraight(ws: seq<Workload>, gpus: seq<Gpu>, from: nat, logs: seq<seq<bool>>)
    requires PassEnds(ws, Always(gpus), from, logs) && AllMatch(ws, gpus)
    ensures logs == Straight(Queues(ws))
  {
    forall c | 0 <= c < |logs| ensures logs[c] == Straight(Queues(ws))[c] {
      OfClassDistinct(ws, c);
      ClassDrains(ws, Always(gpus), from, logs, c);
      ClassMatches(ws, gpus, c);
      FixedLogIsStraight(OfClass(ws, c), gpus, StartOf(logs, from, c), logs[c]);
    }
  }

  lemma ClassMatches(ws: seq<Workload>, gpus: seq<Gpu>, c: nat)
    requires AllMatch(ws, gpus)
    ensures AllMatch(OfClass(ws, c), gpus)
  {
    OfClassDistinct(ws, c);
    forall i | 0 <= i < |OfClass(ws, c)| ensures HasGpu(gpus, OfClass(ws, c)[i].mask) {
      assert OfClass(ws, c)[i] in ws;
    }
  }

  lemma EndedPassMatches(ws: seq<Workload>, gpus: seq<Gpu>, from: nat, logs: seq<seq<bool>>)
    requires PassEnds(ws, Always(gpus), from, logs)
    ensures AllMatch(ws, gpus)
  {
    forall i | 0 <= i < |ws| ensures HasGpu(gpus, ws[i].mask) {
      var c := ClassOf(ws[i]);
      InItsClass(ws, i);
      ClassDrains(ws, Always(gpus), from, logs, c);
      DrainEndsIffAllMatch(OfClass(ws, c), gpus, StartOf(logs, from, c));
    }
  }

  lemma {:induction false} InItsClass(ws: seq<Workload>, i: nat)
    requires i < |ws|
    ensures ws[i] in OfClass(ws, ClassOf(ws[i]))
  {
    if i == |ws| - 1 {
    } else {
      InItsClass(ws[..|ws| - 1], i);
    }
  }

  // ---- The scheduler itself ----

  /** A completed workload: the turn and the GPU it ran on, the vendor's result, and the
      final state. */
  datatype Signal = Signal(w: Workload, turn: nat, gpu: nat, result: int, complete: bool)

  function Workloads(log: seq<Signal>): seq<Workload> {
    seq(|log|, i requires 0 <= i < |log| => log[i].w)
  }

  class Scheduler {
    var queues: seq<seq<Workload>>
    var signals: seq<Signal>
    ghost var pending: seq<Workload>   // submitted and not yet dispatched, in order of arrival

    ghost predicate Valid()
      reads this
    {
      |queues| == CLASSES && forall c | 0 <= c < CLASSES :: queues[c] == OfClass(pending, c)
    }

    constructor ()
      ensures Valid() && pending == [] && signals == []
    {
      queues, signals, pending := [[], [], [], []], [], [];
    }

    /** mvgal_workload_submit. */
    method Submit(w: Workload)
      requires Valid()
      modifies this
      ensures Valid() && signals == old(signals)
      ensures pending == old(pending) + [w.(priority := if w.priority > MAX_PRIORITY then MAX_PRIORITY else w.priority)]
    {
      var clamped := w;
      if clamped.priority > MAX_PRIORITY {
        clamped := clamped.(priority := MAX_PRIORITY);
      }
      var queue := clamped.priority / 4;
      if queue >= CLASSES {
        queue := CLASSES - 1;
      }
      queues := queues[queue := queues[queue] + [clamped]];
      pending := pending + [clamped];
      assert pending[..|pending| - 1] == old(pending);
    }

    /** The signal went to the first least utilised eligible GPU of its turn and carries the
        vendor's result. */
    static ghost predicate Right(s: Signal, gpus: nat -> seq<Gpu>, results: nat -> int) {
      IsFirstLeast(gpus(s.turn), s.w.mask, s.gpu) && s.result == results(s.turn) && (s.complete <==> s.result == 0)
    }

    /** What remains to be done when the queue is q and the signals are `done`. */
    static ghost predicate Remains(q: seq<Workload>, done: seq<Signal>, gpus: nat -> seq<Gpu>, turn: nat,
                                   log: seq<bool>, all: seq<Workload>)
    {
      Drains(q, gpus, turn, log) && Workloads(done) + Served(q, log) == all
    }

    /** Empties queue c from turn `from` on.  `gpus(k)` is the GPU list turn k finds and
        `results(k)` what the vendor driver returns then.  The loop ends exactly if there
        is a `log` of turns that drain the queue. */
    method Drain(c: nat, gpus: nat -> seq<Gpu>, results: nat -> int, from: nat, ghost log: seq<bool>)
      returns (to: nat)
      requires |queues| == CLASSES && c < CLASSES
      requires Drains(queues[c], gpus, from, log)
      modifies this`queues, this`signals
      ensures to == from + |log|
      ensures queues == old(queues)[c := []]
      ensures old(signals) <= signals
      ensures Workloads(signals) == Workloads(old(signals)) + Served(old(queues[c]), log)
      ensures forall k | |old(signals)| <= k < |signals| :: Right(signals[k], gpus, results)
    {
      ghost var all := Workloads(signals) + Served(queues[c], log);
      ghost var left := log;
      to := from;
      while queues[c] != []
        invariant |queues| == CLASSES && queues == old(queues)[c := queues[c]]
        invariant old(signals) <= signals && to + |left| == from + |log|
        invariant Remains(queues[c], signals, gpus, to, left, all)
        invariant forall k | |old(signals)| <= k < |signals| :: Right(signals[k], gpus, results)
        decreases |left|
      {
        TurnRemains(queues[c], signals, gpus, to, left, all);
        var w := queues[c][0];
        queues := queues[c := queues[c][1..]];
        var gpu := FindAvailableGpu(gpus(to), w.mask);
        if gpu.None? {
          queues := queues[c := queues[c] + [w]];
        } else {
          var result := results(to);
          signals := signals + [Signal(w, to, gpu.value, result, result == 0)];
          assert Workloads(signals) == Workloads(signals[..|signals| - 1]) + [w];
          assert signals[..|signals| - 1] + [signals[|signals| - 1]] == signals;
        }
        left := left[1..];
        to := to + 1;
      }
    }

    static lemma TurnRemains(q: seq<Workload>, done: seq<Signal>, gpus: nat -> seq<Gpu>, turn: nat,
                             log: seq<bool>, all: seq<Workload>)
      requires q != [] && Remains(q, done, gpus, turn, log, all)
      ensures log != []
      ensures !HasGpu(gpus(turn), q[0].mask) ==> Remains(q[1..] + [q[0]], done, gpus, turn + 1, log[1..], all)
      ensures forall s: Signal | HasGpu(gpus(turn), q[0].mask) && s.w == q[0] ::
                Remains(q[1..], done + [s], gpus, turn + 1, log[1..], all)
    {
      var rest := Served(Turn(q, log[0]), log[1..]);
      forall s: Signal | HasGpu(gpus(turn), q[0].mask) && s.w == q[0]
        ensures Remains(q[1..], done + [s], gpus, turn + 1, log[1..], all)
      {
        assert Workloads(done + [s]) == Workloads(done) + [q[0]];
        assert Workloads(done) + ([q[0]] + rest) == (Workloads(done) + [q[0]]) + rest;
      }
      if !HasGpu(gpus(turn), q[0].mask) {
        assert [] + rest == rest;
      }
    }

    /** The classes from c upwards of `ws` have been drained since `start`. */
    ghost predicate DrainedDownTo(c: nat, ws: seq<Workload>, start: seq<Signal>, logs: seq<seq<bool>>,
                                  gpus: nat -> seq<Gpu>, results: nat -> int)
      reads this
      requires c <= CLASSES == |logs| && PlaysAll(ws, logs)
    {
      && |queues| == CLASSES
      && (forall d | 0 <= d < CLASSES :: queues[d] == if d < c then OfClass(ws, d) else [])
      && start <= signals
      && Workloads(signals) == Workloads(start) + HighFirst(Parts(ws, logs), c)
      && forall k | |start| <= k < |signals| :: Right(signals[k], gpus, results)
    }

    method DrainClass(c: nat, ghost ws: seq<Workload>, ghost start: seq<Signal>, ghost logs: seq<seq<bool>>,
                      gpus: nat -> seq<Gpu>, results: nat -> int, from: nat)
      returns (to: nat)
      requires c < CLASSES == |logs| && PlaysAll(ws, logs)
      requires DrainedDownTo(c + 1, ws, start, logs, gpus, results)
      requires Drains(OfClass(ws, c), gpus, from, logs[c])
      modifies this`queues, this`signals
      ensures to == from + |logs[c]|
      ensures DrainedDownTo(c, ws, start, logs, gpus, results)
    {
      assert queues[c] == OfClass(ws, c);
      ghost var before := signals;
      to := Drain(c, gpus, results, from, logs[c]);
      OneMoreClass(ws, logs, c, start, before, signals);
      assert queues == old(queues)[c := []];
    }

    static lemma OneMoreClass(ws: seq<Workload>, logs: seq<seq<bool>>, c: nat,
                              start: seq<Signal>, before: seq<Signal>, after: seq<Signal>)
      requires c < |logs| && PlaysAll(ws, logs)
      requires Workloads(before) == Workloads(start) + HighFirst(Parts(ws, logs), c + 1)
      requires Workloads(after) == Workloads(before) + Served(OfClass(ws, c), logs[c])
      ensures Workloads(after) == Workloads(start) + HighFirst(Parts(ws, logs), c)
    {
    }

    method DrainAll(ghost ws: seq<Workload>, ghost logs: seq<seq<bool>>, gpus: nat -> seq<Gpu>,
                    results: nat -> int, from: nat)
      requires PassEnds(ws, gpus, from, logs) && PlaysAll(ws, logs)
      requires DrainedDownTo(CLASSES, ws, signals, logs, gpus, results)
      modifies this`queues, this`signals
      ensures DrainedDownTo(0, ws, old(signals), logs, gpus, results)
    {
      ghost var start := signals;
      var c: nat := CLASSES;
      var turn := from;
      while c > 0
        invariant c <= CLASSES
        invariant c > 0 ==> turn == StartOf(logs, from, c - 1)
        invariant DrainedDownTo(c, ws, start, logs, gpus, results)
      {
        c := c - 1;
        ClassDrains(ws, gpus, from, logs, c);
        turn := DrainClass(c, ws, start, logs, gpus, results, turn);
      }
    }

    /** mvgal_scheduler_dispatch, when nothing arrives during the pass and, in the stable
        priority order, each pending workload finds a suitable GPU at its own turn: the pass
        ends, leaves the queues empty and signals the workloads in that order. */
    method Dispatch(gpus: nat -> seq<Gpu>, results: nat -> int, from: nat)
      requires Valid() && InTurn(ByClass(pending), gpus, from)
      modifies this
      ensures Valid() && pending == [] && queues == [[], [], [], []]
      ensures old(signals) <= signals
      ensures Workloads(signals) == Workloads(old(signals)) + ByClass(old(pending))
      ensures IsStableSort(old(pending), ByClass(old(pending)))
      ensures UrgentFirst(ByClass(old(pending))) && KeepsArrival(old(pending), ByClass(old(pending)))
      ensures forall k | |old(signals)| <= k < |signals| :: Right(signals[k], gpus, results)
    {
      StraightPass(pending, gpus, from);
      StableSortInPriorities(pending, ByClass(pending));
      DispatchWithRetries(gpus, results, from, Straight(Queues(pending)));
    }

    /** In particular with GPUs that do not change and suit every pending workload. */
    method DispatchFixed(gpus: seq<Gpu>, results: nat -> int, from: nat)
      requires Valid() && AllMatch(pending, gpus)
      modifies this
      ensures Valid() && pending == [] && queues == [[], [], [], []]
      ensures old(signals) <= signals
      ensures Workloads(signals) == Workloads(old(signals)) + ByClass(old(pending))
      ensures IsStableSort(old(pending), ByClass(old(pending)))
      ensures UrgentFirst(ByClass(old(pending))) && KeepsArrival(old(pending), ByClass(old(pending)))
      ensures forall k | |old(signals)| <= k < |signals| ::
                IsFirstLeast(gpus, signals[k].w.mask, signals[k].gpu) && signals[k].result == results(signals[k].turn)
    {
      MatchingSorted(pending, gpus, from);
      Dispatch(Always(gpus), results, from);
    }

    /** The same as Dispatch with any number of retries, whenever the pass ends: every pending
        workload is signaled once, the more urgent quarters first; PassOrder says when that is the stable
        priority order, FixedPassEndsIffAllMatch when a pass with a fixed GPU list ends. */
    method DispatchWithRetries(gpus: nat -> seq<Gpu>, results: nat -> int, from: nat, ghost logs: seq<seq<bool>>)
      requires Valid() && PassEnds(pending, gpus, from, logs)
      modifies this
      ensures Valid() && pending == [] && queues == [[], [], [], []]
      ensures PlaysAll(old(pending), logs)
      ensures old(signals) <= signals
      ensures Workloads(signals) == Workloads(old(signals)) + Dispatched(old(pending), logs)
      ensures UrgentFirst(Dispatched(old(pending), logs))
      ensures multiset(Dispatched(old(pending), logs)) == multiset(old(pending))
      ensures forall k | |old(signals)| <= k < |signals| :: Right(signals[k], gpus, results)
    {
      EndedPassPlays(pending, gpus, from, logs);
      PassOrder(pending, gpus, from, logs);
      assert Workloads(signals) + [] == Workloads(signals);
      DrainAll(pending, logs, gpus, results, from);
      pending := [];
    }
  }
}
