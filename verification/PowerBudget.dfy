/**
 The kernel's power budget (kernel/mvgal_power.c): eight slots of per-GPU limits, and a
 distribution that grants every listed GPU a share of the watts that depends on the
 workload's priority.  All arithmetic is 32-bit.
 */
module PowerBudget {

  import opened Common

  const MAX_GPUS: nat := 8
  const FLOOR_WATTS: nat := 50

  datatype Slot = Slot(min: nat, max: nat, current: nat, limit: nat)

  datatype Budget = Budget(total: nat, headroom: nat, reserved: nat, slots: seq<Slot>, gpus: nat)

  datatype Event =
    | Register(index: nat)
    | Unregister(index: nat)
    | Distribute(indices: seq<nat>, priority: nat)
    | SetTotal(watts: nat)
    | SetHeadroom(watts: nat)

  predicate Initial(b: Budget) {
    b == Budget(500, 50, 0, seq(MAX_GPUS, _ => Slot(0, 0, 0, 0)), 0)
  }

  function Mul32(a: nat, b: nat): nat { a * b % TWO32 }

  function Sub32(a: nat, b: nat): nat { (a + TWO32 - b % TWO32) % TWO32 }

  function Available(b: Budget): nat {
    Sub32(b.total, b.headroom)
  }

  /** 15 times a nonzero 32-bit number is never 0 in 32 bits. */
  lemma NonzeroDivisor(n: nat)
    requires 0 < n < TWO32
    ensures Mul32(15, n) > 0
  {
  }

  /** The share of each of n GPUs. */
  function Share(available: nat, n: nat, priority: nat): nat
    requires Mul32(15, n) > 0
  {
    Max(Mul32(priority, available) / Mul32(15, n), FLOOR_WATTS)
  }

  function Granted(slot: Slot, share: nat): Slot {
    slot.(min := share, limit := Min(Mul32(share, 2), slot.max))
  }

  /** The slots after granting `share` to the first k listed GPUs. */
  function GrantAll(slots: seq<Slot>, indices: seq<nat>, share: nat, k: nat): (r: seq<Slot>)
    requires k <= |indices| && forall i | 0 <= i < |indices| :: indices[i] < |slots|
    ensures |r| == |slots|
  {
    if k == 0 then slots
    else
      var before := GrantAll(slots, indices, share, k - 1);
      before[indices[k - 1] := Granted(before[indices[k - 1]], share)]
  }

  /** The indices of a distribution are not checked by the code; out of range is undefined. */
  predicate Enabled(b: Budget, e: Event) {
    && |b.slots| == MAX_GPUS
    && (e.Distribute? && e.indices != [] ==>
          && |e.indices| < TWO32
          && forall i | 0 <= i < |e.indices| :: e.indices[i] < MAX_GPUS)
  }

  function Step(b: Budget, e: Event): Budget
    requires Enabled(b, e)
  {
    match e
    case Register(index) =>
      if index >= MAX_GPUS || b.gpus >= MAX_GPUS then b
      else b.(slots := b.slots[index := Slot(50, 300, 0, 300)], gpus := b.gpus + 1)
    case Unregister(index) =>
      if index >= MAX_GPUS then b
      else b.(slots := b.slots[index := Slot(0, 0, 0, 0)], gpus := if b.gpus > 0 then b.gpus - 1 else 0)
    case Distribute(indices, priority) =>
      if indices == [] then b
      else
        NonzeroDivisor(|indices|);
        var share := Share(Available(b), |indices|, priority);
        b.(slots := GrantAll(b.slots, indices, share, Min(|indices|, MAX_GPUS)),
           reserved := Mul32(share, |indices|))
    case SetTotal(watts) => b.(total := watts)
    case SetHeadroom(watts) => b.(headroom := watts)
  }

  ghost predicate IsRun(bs: seq<Budget>, es: seq<Event>) {
    && |bs| == |es| + 1
    && Initial(bs[0])
    && forall i | 0 <= i < |es| :: Enabled(bs[i], es[i]) && bs[i + 1] == Step(bs[i], es[i])
  }

  // ---- No limit exceeds the maximum ----

  predicate LimitsOk(slots: seq<Slot>) {
    forall i | 0 <= i < |slots| :: slots[i].limit <= slots[i].max
  }

  lemma {:induction false} GrantKeepsLimits(slots: seq<Slot>, indices: seq<nat>, share: nat, k: nat)
    requires k <= |indices| && forall i | 0 <= i < |indices| :: indices[i] < |slots|
    requires LimitsOk(slots)
    ensures LimitsOk(GrantAll(slots, indices, share, k))
  {
    if k == 0 {
    } else {
      GrantKeepsLimits(slots, indices, share, k - 1);
    }
  }

  /** On every run, wrap-around included, no GPU's limit exceeds its maximum. */
  lemma {:induction false} LimitsStayBelowMaximum(bs: seq<Budget>, es: seq<Event>, k: nat)
    requires IsRun(bs, es) && k <= |es|
    ensures LimitsOk(bs[k].slots) && bs[k].gpus <= MAX_GPUS
  {
    if k == 0 {
    } else {
      LimitsStayBelowMaximum(bs, es, k - 1);
      var b, e := bs[k - 1], es[k - 1];
      assert bs[k] == Step(b, e);
      if e.Distribute? && e.indices != [] {
        NonzeroDivisor(|e.indices|);
        GrantKeepsLimits(b.slots, e.indices, Share(Available(b), |e.indices|, e.priority), Min(|e.indices|, MAX_GPUS));
      }
    }
  }

  ghost function LastTotal(es: seq<Event>, k: nat): nat
    requires k <= |es|
  {
    if k == 0 then 500 else if es[k - 1].SetTotal? then es[k - 1].watts else LastTotal(es, k - 1)
  }

  ghost function LastHeadroom(es: seq<Event>, k: nat): nat
    requires k <= |es|
  {
    if k == 0 then 50 else if es[k - 1].SetHeadroom? then es[k - 1].watts else LastHeadroom(es, k - 1)
  }

  /** Total and headroom are those set last, 500 W and 50 W at first. */
  lemma {:induction false} BudgetFollowsSettings(bs: seq<Budget>, es: seq<Event>, k: nat)
    requires IsRun(bs, es) && k <= |es|
    ensures bs[k].total == LastTotal(es, k) && bs[k].headroom == LastHeadroom(es, k)
  {
    if k == 0 {
    } else {
      BudgetFollowsSettings(bs, es, k - 1);
      assert bs[k] == Step(bs[k - 1], es[k - 1]);
    }
  }

  // ---- What a distribution grants ----

  ghost predicate Distinct(indices: seq<nat>) {
    forall i, j | 0 <= i < j < |indices| :: indices[i] != indices[j]
  }

  lemma {:induction false} GrantEffect(slots: seq<Slot>, indices: seq<nat>, share: nat, k: nat, j: nat)
    requires k <= |indices| && forall i | 0 <= i < |indices| :: indices[i] < |slots|
    requires j < |slots|
    ensures var slot := GrantAll(slots, indices, share, k)[j];
            slot == if j in indices[..k] then Granted(slots[j], share) else slots[j]
  {
    if k == 0 {
    } else {
      GrantEffect(slots, indices, share, k - 1, j);
      assert indices[..k] == indices[..k - 1] + [indices[k - 1]];
    }
  }

  /** The minimum watts of the listed GPUs. */
  function SumOfMinima(slots: seq<Slot>, gpus: set<nat>, k: nat): nat
    requires k <= |slots|
  {
    if k == 0 then 0 else SumOfMinima(slots, gpus, k - 1) + if k - 1 in gpus then slots[k - 1].min else 0
  }

  function Members(indices: seq<nat>): set<nat> {
    set j | j in indices
  }

  function Below(gpus: set<nat>, k: nat): set<nat> {
    set j | j in gpus && j < k
  }

  lemma {:induction false} SumOfEqualMinima(slots: seq<Slot>, gpus: set<nat>, share: nat, k: nat)
    requires k <= |slots|
    requires forall j | j in gpus && j < k :: slots[j].min == share
    ensures SumOfMinima(slots, gpus, k) == share * |Below(gpus, k)|
  {
    if k == 0 {
      assert Below(gpus, 0) == {};
    } else {
      SumOfEqualMinima(slots, gpus, share, k - 1);
      if k - 1 in gpus {
        assert Below(gpus, k) == Below(gpus, k - 1) + {k - 1};
      } else {
        assert Below(gpus, k) == Below(gpus, k - 1);
      }
    }
  }

  lemma {:induction false} DistinctCount(indices: seq<nat>)
    ensures |Members(indices)| <= |indices|
    ensures |Members(indices)| == |indices| <==> Distinct(indices)
  {
    if indices == [] {
    } else {
      var rest, last := indices[..|indices| - 1], indices[|indices| - 1];
      DistinctCount(rest);
      assert indices == rest + [last];
      assert Members(indices) == Members(rest) + {last};
      assert Distinct(indices) <==> Distinct(rest) && last !in rest;
    }
  }

  /** Distinct indices below 8 are at most 8 in number. */
  lemma DistinctFit(indices: seq<nat>)
    requires Distinct(indices) && forall i | 0 <= i < |indices| :: indices[i] < MAX_GPUS
    ensures |indices| <= MAX_GPUS
  {
    DistinctCount(indices);
    SubsetSize(Members(indices), {0, 1, 2, 3, 4, 5, 6, 7});
  }

  lemma {:induction false} SubsetSize(a: set<nat>, b: set<nat>)
    requires a <= b
    ensures |a| <= |b|
    decreases a
  {
    if a == {} {
    } else {
      var x :| x in a;
      SubsetSize(a - {x}, b - {x});
    }
  }

  lemma DivTimes(a: nat, d: nat)
    requires d > 0
    ensures a / d * d <= a
  {
  }

  lemma Mul32Small(a: nat, b: nat)
    requires a * b < TWO32
    ensures Mul32(a, b) == a * b
  {
  }

  lemma Mul32AtMost(a: nat, b: nat)
    ensures Mul32(a, b) <= a * b && Mul32(a, b) < TWO32
  {
    ModAtMost(a * b);
  }

  lemma ModAtMost(x: nat)
    ensures x % TWO32 <= x
  {
  }

  /** A share above the floor: 15 times what all GPUs get together is at most the product of
      priority and available watts, even if that product wraps. */
  lemma ShareTimesCount(available: nat, n: nat, priority: nat) returns (q: nat)
    requires 0 < n && 15 * n < TWO32
    ensures Mul32(15, n) > 0 && Share(available, n, priority) == Max(q, FLOOR_WATTS)
    ensures q == Mul32(priority, available) / (15 * n)
    ensures 15 * (q * n) <= Mul32(priority, available)
  {
    Mul32Small(15, n);
    q := Mul32(priority, available) / (15 * n);
    DivTimes(Mul32(priority, available), 15 * n);
    assert q * (15 * n) == 15 * (q * n);
  }

  /** The floor times n, in 32 bits, is never the floor times a different m up to 8. */
  lemma FloorSumsDiffer(n: nat, m: nat)
    requires 15 * n < TWO32 && m <= MAX_GPUS
    ensures Mul32(FLOOR_WATTS, n) == FLOOR_WATTS * m <==> n == m
  {
    var wraps := FLOOR_WATTS * n / TWO32;
    assert wraps == 0 || wraps == 1 || wraps == 2 || wraps == 3;
  }

  /** The GPUs a distribution reaches: the first eight listed. */
  function Reached(indices: seq<nat>): seq<nat> {
    indices[..Min(|indices|, MAX_GPUS)]
  }

  lemma ReachedCount(indices: seq<nat>)
    requires forall i | 0 <= i < |indices| :: indices[i] < MAX_GPUS
    ensures |Members(Reached(indices))| <= MAX_GPUS
    ensures |Members(Reached(indices))| == |indices| <==> Distinct(indices)
  {
    DistinctCount(Reached(indices));
    if Distinct(indices) {
      DistinctFit(indices);
    }
    if |indices| <= MAX_GPUS {
      assert Reached(indices) == indices;
    }
  }

  /** A distribution grants every GPU it reaches the same share and touches no other GPU;
      the minima of the reached GPUs sum to the recorded allocation if and only if no GPU
      is listed twice. */
  lemma GrantsSumToAllocationIffDistinct(b: Budget, e: Event)
    requires Enabled(b, e) && e.Distribute? && e.indices != []
    requires 15 * |e.indices| < TWO32
    ensures var b', reached := Step(b, e), Reached(e.indices);
            && (SumOfMinima(b'.slots, Members(reached), MAX_GPUS) == b'.reserved <==> Distinct(e.indices))
            && (forall j | 0 <= j < MAX_GPUS && j !in reached :: b'.slots[j] == b.slots[j])
  {
    var n, reached := |e.indices|, Reached(e.indices);
    var b' := Step(b, e);
    var q := ShareTimesCount(Available(b), n, e.priority);
    var share := Share(Available(b), n, e.priority);
    forall j | 0 <= j < MAX_GPUS
      ensures b'.slots[j] == if j in reached then Granted(b.slots[j], share) else b.slots[j]
    {
      GrantEffect(b.slots, e.indices, share, |reached|, j);
    }
    var gpus := Members(reached);
    SumOfEqualMinima(b'.slots, gpus, share, MAX_GPUS);
    assert Below(gpus, MAX_GPUS) == gpus;
    ReachedCount(e.indices);
    SumsDiffer(Available(b), n, e.priority, |gpus|);
  }

  lemma SumsDiffer(available: nat, n: nat, priority: nat, m: nat)
    requires 0 < n && 15 * n < TWO32 && m <= MAX_GPUS
    ensures Mul32(15, n) > 0
    ensures Mul32(Share(available, n, priority), n) == Share(available, n, priority) * m <==> n == m
  {
    var q := ShareTimesCount(available, n, priority);
    if q > FLOOR_WATTS {
      Mul32AtMost(priority, available);
      Mul32Small(q, n);
      MulCancel(q, n, m);
    } else {
      FloorSumsDiffer(n, m);
    }
  }

  lemma MulCancel(share: nat, a: nat, b: nat)
    requires share > 0
    ensures share * a == share * b <==> a == b
  {
  }

  /** What a distribution writes: every GPU it reaches gets the share as its minimum and the
      smaller of twice the share and its maximum as its limit, and the recorded allocation
      is the share times the length of the list.  The share is the largest whole number
      whose 15 n-fold is at most the 32-bit product of priority and available watts, or 50
      if that is more. */
  lemma DistributionIsExact(b: Budget, e: Event) returns (share: nat, q: nat)
    requires Enabled(b, e) && e.Distribute? && e.indices != []
    requires b.headroom <= b.total < TWO32 && 50 * |e.indices| < TWO32
    ensures var n, product := |e.indices|, e.priority * (b.total - b.headroom) % TWO32;
            q * (15 * n) <= product < (q + 1) * (15 * n) && share == if q < 50 then 50 else q
    ensures var b' := Step(b, e);
            && b'.reserved == share * |e.indices| && b'.total == b.total && b'.headroom == b.headroom
            && forall j | 0 <= j < MAX_GPUS && j in Reached(e.indices) ::
                 var slot := b.slots[j];
                 var limit := if 2 * share < slot.max then 2 * share else slot.max;
                 b'.slots[j] == Slot(share, slot.max, slot.current, limit)
  {
    var n, a := |e.indices|, b.total - b.headroom;
    assert Available(b) == a;
    q := ShareTimesCount(a, n, e.priority);
    share := Share(a, n, e.priority);
    QuotientBounds(Mul32(e.priority, a), 15 * n);
    Mul32AtMost(e.priority, a);
    Mul32Small(Max(q, FLOOR_WATTS), n);
    ShareIsSmall(q, n, Mul32(e.priority, a));
    Mul32Small(share, 2);
    forall j | 0 <= j < MAX_GPUS && j in Reached(e.indices)
      ensures Step(b, e).slots[j] == Granted(b.slots[j], share)
    {
      GrantEffect(b.slots, e.indices, share, |Reached(e.indices)|, j);
    }
  }

  lemma QuotientBounds(a: nat, d: nat)
    requires d > 0
    ensures a / d * d <= a < (a / d + 1) * d
  {
    assert a == d * (a / d) + a % d;
  }

  lemma ShareIsSmall(q: nat, n: nat, product: nat)
    requires n > 0 && 15 * (q * n) <= product < TWO32
    ensures 2 * Max(q, FLOOR_WATTS) < TWO32
  {
    MulLe(1, n, q);
  }

  /** When a quotient times n stays within a. */
  lemma QuotientFits(m: nat, n: nat, a: nat)
    requires n > 0
    ensures m / (15 * n) * n <= a <==> m < 15 * n * (a / n + 1)
  {
    TimesFits(m / (15 * n), n, a);
    QuotientLe(m, 15 * n, a / n);
  }

  lemma QuotientLe(m: nat, d: nat, k: nat)
    requires d > 0
    ensures m / d <= k <==> m < d * (k + 1)
  {
    assert m == d * (m / d) + m % d;
    if m / d <= k {
      MulLe(m / d + 1, k + 1, d);
      assert d * (m / d + 1) == d * (m / d) + d;
    } else {
      MulLe(k + 1, m / d, d);
    }
  }

  lemma TimesFits(q: nat, n: nat, a: nat)
    requires n > 0
    ensures q * n <= a <==> q <= a / n
  {
    assert a == n * (a / n) + a % n;
    if q <= a / n {
      MulLe(q, a / n, n);
    } else {
      MulLe(a / n + 1, q, n);
      assert n * (a / n + 1) == n * (a / n) + n;
    }
  }

  /** For every priority, wrapped products included: the allocation is within total minus
      headroom if and only if 50 W per GPU are, and the 32-bit product of priority and
      available watts is less than 15 n times one more than the whole watts per GPU. */
  lemma AllocationWithinBudgetIff(b: Budget, e: Event)
    requires Enabled(b, e) && e.Distribute? && e.indices != []
    requires b.headroom <= b.total < TWO32 && FLOOR_WATTS * |e.indices| < TWO32
    ensures var n, a := |e.indices|, b.total - b.headroom;
            Step(b, e).reserved <= a <==>
            FLOOR_WATTS * n <= a && Mul32(e.priority, a) < 15 * n * (a / n + 1)
  {
    var n, a := |e.indices|, b.total - b.headroom;
    assert Available(b) == a;
    var q := ShareTimesCount(a, n, e.priority);
    Mul32AtMost(e.priority, a);
    Mul32Small(Max(q, FLOOR_WATTS), n);
    QuotientFits(Mul32(e.priority, a), n, a);
    if q >= FLOOR_WATTS {
      MulLe(FLOOR_WATTS, q, n);
    } else {
      MulLe(q, FLOOR_WATTS, n);
    }
  }

  /** The budget is respected if and only if the 50 W floor fits: for priorities up to 15
      the allocation is within total minus headroom exactly when 50 W per GPU are, even if
      the product of priority and watts wraps.  (With a headroom above the total neither is.) */
  lemma AllocationWithinBudgetIffFloorFits(b: Budget, e: Event)
    requires Enabled(b, e) && e.Distribute? && e.indices != []
    requires b.total < TWO32 && e.priority <= 15 && FLOOR_WATTS * |e.indices| < TWO32
    ensures Step(b, e).reserved <= b.total - b.headroom <==> FLOOR_WATTS * |e.indices| <= b.total - b.headroom
  {
    if b.headroom <= b.total {
      var n, a := |e.indices|, b.total - b.headroom;
      assert Available(b) == a;
      var q := ShareTimesCount(a, n, e.priority);
      Mul32AtMost(e.priority, a);
      MulLe(e.priority, 15, a);
      assert q * n <= a;
      Mul32Small(Max(q, FLOOR_WATTS), n);
      if q >= FLOOR_WATTS {
        MulLe(FLOOR_WATTS, q, n);
      }
    }
  }

  // ---- The budget object ----

  class PowerManager {
    var total: nat
    var headroom: nat
    var reserved: nat
    const slots: array<Slot>
    var gpus: nat

    ghost function View(): Budget
      reads this, slots
    {
      Budget(total, headroom, reserved, slots[..], gpus)
    }

    constructor ()
      ensures Initial(View()) && fresh(slots)
    {
      slots := new Slot[MAX_GPUS](_ => Slot(0, 0, 0, 0));
      total, headroom, reserved, gpus := 500, 50, 0, 0;
      new;
      assert slots[..] == seq(MAX_GPUS, _ => Slot(0, 0, 0, 0));
    }

    method RegisterGpu(index: nat) returns (ok: bool)
      requires slots.Length == MAX_GPUS
      modifies this, slots
      ensures ok <==> index < 8 && old(gpus) < 8
      ensures View() == Step(old(View()), Register(index))
      ensures ok ==> slots[..] == old(slots[..])[index := Slot(50, 300, 0, 300)] && gpus == old(gpus) + 1
      ensures !ok ==> View() == old(View())
    {
      if index >= MAX_GPUS || gpus >= MAX_GPUS {
        return false;
      }
      slots[index] := Slot(50, 300, 0, 300);
      gpus := gpus + 1;
      ok := true;
    }

    method UnregisterGpu(index: nat) returns (ok: bool)
      requires slots.Length == MAX_GPUS
      modifies this, slots
      ensures ok <==> index < 8
      ensures View() == Step(old(View()), Unregister(index))
      ensures ok ==> slots[..] == old(slots[..])[index := Slot(0, 0, 0, 0)]
      ensures ok ==> gpus == if old(gpus) > 0 then old(gpus) - 1 else 0
      ensures !ok ==> View() == old(View())
    {
      if index >= MAX_GPUS {
        return false;
      }
      slots[index] := Slot(0, 0, 0, 0);
      if gpus > 0 {
        gpus := gpus - 1;
      }
      ok := true;
    }

    /** The loop of mvgal_power_budget_distribute. */
    method Grant(indices: seq<nat>, perGpu: nat)
      requires slots.Length == MAX_GPUS && forall i | 0 <= i < |indices| :: indices[i] < MAX_GPUS
      modifies slots
      ensures slots[..] == GrantAll(old(slots[..]), indices, perGpu, Min(|indices|, MAX_GPUS))
    {
      var i := 0;
      while i < |indices| && i < MAX_GPUS
        invariant i <= |indices| && i <= MAX_GPUS
        invariant slots[..] == GrantAll(old(slots[..]), indices, perGpu, i)
      {
        var index := indices[i];
        slots[index] := slots[index].(min := perGpu, limit := Min(Mul32(perGpu, 2), slots[index].max));
        i := i + 1;
      }
    }

    /** The watts each of n GPUs gets. */
    method PerGpu(n: nat, priority: nat) returns (perGpu: nat)
      requires 0 < n < TWO32
      ensures Mul32(15, n) > 0 && perGpu == Share(Sub32(total, headroom), n, priority)
    {
      NonzeroDivisor(n);
      var available := Sub32(total, headroom);
      perGpu := Mul32(priority, available) / Mul32(15, n);
      perGpu := Max(perGpu, FLOOR_WATTS);
    }

    /** mvgal_power_budget_distribute. */
    method DistributePower(indices: seq<nat>, priority: nat) returns (ok: bool)
      requires Enabled(View(), Distribute(indices, priority))
      modifies this, slots
      ensures ok <==> indices != []
      ensures View() == Step(old(View()), Distribute(indices, priority))
    {
      if indices == [] {
        return false;
      }
      var perGpu := PerGpu(|indices|, priority);
      Grant(indices, perGpu);
      reserved := Mul32(perGpu, |indices|);
      ok := true;
    }
  }
}
