/**
 The daemon's power curve (runtime/daemon/power_manager.cpp): a table of knots from GPU
 utilisation to power limit, interpolated with integer division.
 */
module PowerCurve {

  import opened Common

  /** Both fields are 8-bit. */
  datatype Knot = Knot(util: nat, limit: nat)

  /** C's `/` truncates towards zero. */
  function TruncDiv(a: int, d: int): int
    requires d > 0
  {
    if a >= 0 then a / d else -((-a) / d)
  }

  /** Conversion to uint8_t. */
  function ToByte(x: int): nat {
    x % 256
  }

  predicate Bytes(curve: seq<Knot>) {
    forall i | 0 <= i < |curve| :: curve[i].util < 256 && curve[i].limit < 256
  }

  /** The utilisations of a usable curve strictly increase. */
  predicate Ordered(curve: seq<Knot>) {
    forall i, j | 0 <= i < j < |curve| :: curve[i].util < curve[j].util
  }

  predicate Rising(curve: seq<Knot>) {
    && (forall i, j | 0 <= i < j < |curve| :: curve[i].limit <= curve[j].limit)
    && forall i | 0 <= i < |curve| :: curve[i].limit <= 100
  }

  /** The first knot at or above u, or the number of knots. */
  function Segment(curve: seq<Knot>, u: nat, i: nat): (r: nat)
    requires i <= |curve|
    ensures i <= r <= |curve|
    ensures forall j | i <= j < r :: curve[j].util < u
    ensures r < |curve| ==> u <= curve[r].util
    decreases |curve| - i
  {
    if i == |curve| || u <= curve[i].util then i else Segment(curve, u, i + 1)
  }

  /** The value on the line from lo to hi. */
  function Between(lo: Knot, hi: Knot, u: nat): int
    requires lo.util < hi.util
  {
    lo.limit + TruncDiv((hi.limit - lo.limit) * (u - lo.util), hi.util - lo.util)
  }

  /** The limit at utilisation u: on the segment that ends at the first knot at or above
      u, or the limit of the first or last knot outside the curve.  Such a segment always
      has a positive span, so the source's guard for an empty span never fires. */
  function At(curve: seq<Knot>, u: nat): nat {
    if curve == [] then 100
    else
      var k := Segment(curve, u, 0);
      if k == 0 then curve[0].limit
      else if k == |curve| then curve[|curve| - 1].limit
      else ToByte(Between(curve[k - 1], curve[k], u))
  }

  // ---- Arithmetic ----

  lemma DivOfMultiple(a: nat, d: nat)
    requires d > 0
    ensures a * d / d == a
  {
    var q, r := a * d / d, a * d % d;
    assert a * d == d * q + r && r < d;
    assert d * (a - q) == r;
    if a > q {
      MulLe(1, a - q, d);
    }
  }

  /** Truncated a * t / span lies between 0 and a. */
  lemma FractionBounds(a: nat, t: nat, span: nat)
    requires 0 < span && t <= span
    ensures 0 <= a * t / span <= a
    ensures t == span ==> a * t / span == a
    ensures t == 0 ==> a * t / span == 0
  {
    MulLe(t, span, a);
    DivLe(a * t, a * span, span);
    DivOfMultiple(a, span);
  }

  // ---- One segment ----

  /** On its segment the line stays between the two limits, whichever is larger, meets
      both ends, and needs no 8-bit wrap-around. */
  lemma SegmentBounds(lo: Knot, hi: Knot, u: nat)
    requires lo.util <= u <= hi.util && lo.util < hi.util && lo.limit < 256 && hi.limit < 256
    ensures lo.limit <= hi.limit ==> lo.limit <= Between(lo, hi, u) <= hi.limit
    ensures hi.limit <= lo.limit ==> hi.limit <= Between(lo, hi, u) <= lo.limit
    ensures u == lo.util ==> Between(lo, hi, u) == lo.limit
    ensures u == hi.util ==> Between(lo, hi, u) == hi.limit
    ensures ToByte(Between(lo, hi, u)) == Between(lo, hi, u)
  {
    var t, span := u - lo.util, hi.util - lo.util;
    if hi.limit >= lo.limit {
      FractionBounds(hi.limit - lo.limit, t, span);
      assert (hi.limit - lo.limit) * t >= 0;
    } else {
      FractionBounds(lo.limit - hi.limit, t, span);
      assert (hi.limit - lo.limit) * t == -((lo.limit - hi.limit) * t);
    }
  }

  /** Less than one unit from the straight line through the two knots, on the side of the
      lower knot's limit: rounded down where the curve rises and up where it falls. */
  lemma DistanceToLine(lo: Knot, hi: Knot, u: nat)
    requires lo.util <= u <= hi.util && lo.util < hi.util
    ensures var span := hi.util - lo.util;
            var line := lo.limit * span + (hi.limit - lo.limit) * (u - lo.util);   // times span
            if lo.limit <= hi.limit
            then Between(lo, hi, u) * span <= line < (Between(lo, hi, u) + 1) * span
            else (Between(lo, hi, u) - 1) * span < line <= Between(lo, hi, u) * span
  {
    RoundedLine(lo.limit, hi.limit - lo.limit, u - lo.util, hi.util - lo.util);
  }

  lemma RoundedLine(base: int, d: int, t: nat, span: nat)
    requires span > 0
    ensures var v := base + TruncDiv(d * t, span);
            if d >= 0 then v * span <= base * span + d * t < (v + 1) * span
            else (v - 1) * span < base * span + d * t <= v * span
  {
    if d >= 0 {
      ProductSign(d, t);
      Scaled(d * t, span, base);
    } else {
      ProductSign(-d, t);
      Opposite(d, t);
      ScaledDown(-(d * t), span, base);
    }
  }

  lemma ProductSign(d: nat, t: nat)
    ensures d * t >= 0
  {
  }

  lemma Opposite(d: int, t: nat)
    ensures -d * t == -(d * t)
  {
  }

  lemma Scaled(a: nat, span: nat, base: int)
    requires span > 0
    ensures (base + a / span) * span <= base * span + a < (base + a / span + 1) * span
  {
    assert a == span * (a / span) + a % span;
    assert (base + a / span) * span == base * span + a / span * span;
    assert (base + a / span + 1) * span == base * span + a / span * span + span;
  }

  lemma ScaledDown(a: nat, span: nat, base: int)
    requires span > 0
    ensures (base - a / span - 1) * span < base * span - a <= (base - a / span) * span
  {
    assert a == span * (a / span) + a % span;
    assert (base - a / span) * span == base * span - a / span * span;
    assert (base - a / span - 1) * span == base * span - a / span * span - span;
  }

  /** The whole curve follows the line of the segment u lies in, and is constant outside. */
  lemma CurveFollowsLine(curve: seq<Knot>, u: nat)
    requires Bytes(curve) && Ordered(curve)
    ensures curve == [] ==> At(curve, u) == 100
    ensures curve != [] && u <= curve[0].util ==> At(curve, u) == curve[0].limit
    ensures curve != [] && u >= curve[|curve| - 1].util ==> At(curve, u) == curve[|curve| - 1].limit
    ensures forall i | 0 < i < |curve| && curve[i - 1].util < u <= curve[i].util ::
              At(curve, u) == Between(curve[i - 1], curve[i], u)
  {
    if curve != [] {
      var k := Segment(curve, u, 0);
      if u >= curve[|curve| - 1].util && k < |curve| {
        ExactAtKnots(curve, |curve| - 1);
      }
      if 0 < k < |curve| {
        SegmentBounds(curve[k - 1], curve[k], u);
      }
      forall i | 0 < i < |curve| && curve[i - 1].util < u <= curve[i].util
        ensures At(curve, u) == Between(curve[i - 1], curve[i], u)
      {
        assert k == i;
      }
    }
  }

  lemma SegmentMonotone(lo: Knot, hi: Knot, u: nat, v: nat)
    requires lo.util <= u <= v <= hi.util && lo.util < hi.util && lo.limit <= hi.limit
    ensures Between(lo, hi, u) <= Between(lo, hi, v)
  {
    var a := hi.limit - lo.limit;
    MulLe(u - lo.util, v - lo.util, a);
    DivLe(a * (u - lo.util), a * (v - lo.util), hi.util - lo.util);
  }

  // ---- The whole curve ----

  /** At every knot the interpolation gives exactly the knot's limit. */
  lemma ExactAtKnots(curve: seq<Knot>, i: nat)
    requires Bytes(curve) && Ordered(curve) && i < |curve|
    ensures At(curve, curve[i].util) == curve[i].limit
  {
    var k := Segment(curve, curve[i].util, 0);
    assert k == i;
    if i > 0 {
      SegmentBounds(curve[i - 1], curve[i], curve[i].util);
    }
  }

  /** Between two neighbouring knots the result lies between their limits, also where
      the curve falls. */
  lemma BetweenNeighbours(curve: seq<Knot>, i: nat, u: nat)
    requires Bytes(curve) && Ordered(curve) && 0 < i < |curve|
    requires curve[i - 1].util <= u <= curve[i].util
    ensures curve[i - 1].limit <= curve[i].limit ==> curve[i - 1].limit <= At(curve, u) <= curve[i].limit
    ensures curve[i].limit <= curve[i - 1].limit ==> curve[i].limit <= At(curve, u) <= curve[i - 1].limit
  {
    if u == curve[i - 1].util {
      ExactAtKnots(curve, i - 1);
    } else {
      var k := Segment(curve, u, 0);
      assert k == i;
      SegmentBounds(curve[i - 1], curve[i], u);
    }
  }

  /** On a rising curve more utilisation never means a lower limit, across all segments,
      and the limit never leaves the range of the curve. */
  lemma RisingCurveIsMonotone(curve: seq<Knot>, u: nat, v: nat)
    requires Bytes(curve) && Ordered(curve) && Rising(curve) && u <= v
    ensures At(curve, u) <= At(curve, v) <= 100
  {
    if curve != [] {
      var i, j := Segment(curve, u, 0), Segment(curve, v, 0);
      assert i <= j;
      UpperBound(curve, u);
      UpperBound(curve, v);
      LowerBound(curve, v);
      if i == j && 0 < i < |curve| {
        SegmentMonotone(curve[i - 1], curve[i], u, v);
        SegmentBounds(curve[i - 1], curve[i], u);
        SegmentBounds(curve[i - 1], curve[i], v);
      }
    }
  }

  lemma UpperBound(curve: seq<Knot>, u: nat)
    requires Bytes(curve) && Ordered(curve) && Rising(curve) && curve != []
    ensures var k := Segment(curve, u, 0);
            At(curve, u) <= curve[if k == |curve| then k - 1 else k].limit
  {
    var k := Segment(curve, u, 0);
    if 0 < k < |curve| {
      SegmentBounds(curve[k - 1], curve[k], u);
    }
  }

  lemma LowerBound(curve: seq<Knot>, u: nat)
    requires Bytes(curve) && Ordered(curve) && Rising(curve) && curve != []
    ensures var k := Segment(curve, u, 0);
            At(curve, u) >= curve[if k == 0 then 0 else k - 1].limit
  {
    var k := Segment(curve, u, 0);
    if 0 < k < |curve| {
      SegmentBounds(curve[k - 1], curve[k], u);
    }
  }

  /** interpolatePowerLimit, as the source loops. */
  method InterpolatePowerLimit(curve: seq<Knot>, u: nat) returns (r: nat)
    requires Bytes(curve) && u < 256
    ensures r == At(curve, u)
  {
    if |curve| == 0 {
      return 100;
    }
    if u <= curve[0].util {
      return curve[0].limit;
    }
    for i := 1 to |curve|
      invariant forall j | 0 <= j < i :: curve[j].util < u
    {
      var lo, hi := curve[i - 1], curve[i];
      if u <= hi.util {
        var span := hi.util - lo.util;
        if span <= 0 {
          return hi.limit;
        }
        var t := u - lo.util;
        assert Segment(curve, u, 0) == i;
        return ToByte(lo.limit + TruncDiv((hi.limit - lo.limit) * t, span));
      }
    }
    r := curve[|curve| - 1].limit;
  }
}
