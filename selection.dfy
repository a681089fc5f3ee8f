/**
 * The feature-selection rule shared by the bootstrap (which features get a margin of
 * error) and the report (which features are plotted): a threshold of 1 or more picks
 * the first and last n features of an order, a threshold below 1 picks the features
 * whose score reaches one of the two tail quantiles.
 */
module Selection {
  import opened Outcomes
  import opened Sorting

  /** The selection threshold as the caller passes it: a Python int or a Python float. */
  datatype NFeatures = AsInt(count: int) | AsFloat(fraction: real)

  function Min(a: nat, b: nat): nat { if a < b then a else b }

  /** The interpolation position (m-1)*q of level q among m sorted values. */
  function QuantilePosition(m: nat, q: real): (h: real)
    requires m > 0 && 0.0 <= q <= 1.0
    ensures 0.0 <= h <= (m - 1) as real
  {
    var k := (m - 1) as real;
    MulNonNegative(k, q);
    ScaleMonotone(k, q, 1.0);
    k * q
  }

  /** The integer part of a position below m, found as the largest index not above it. */
  function QuantileLow(m: nat, h: real): (lo: nat)
    requires m > 0 && 0.0 <= h < m as real
    ensures lo < m && lo as real <= h < lo as real + 1.0
  {
    if m == 1 || h >= (m - 1) as real then m - 1 else QuantileLow(m - 1, h)
  }

  /**
   * `Series.quantile(q)` of sorted values (pandas' default linear interpolation): the value at
   * the position's integer part, moved towards the next value by the fractional part.
   */
  function Quantile(v: seq<real>, q: real): (x: real)
    requires |v| > 0 && 0.0 <= q <= 1.0
    ensures Sorted(v) ==> v[0] <= x <= v[|v| - 1]
  {
    var h := QuantilePosition(|v|, q);
    var lo := QuantileLow(|v|, h);
    var hi := if lo + 1 < |v| then lo + 1 else |v| - 1;
    assert Sorted(v) ==> v[0] <= v[lo] <= v[hi] <= v[|v| - 1];
    Interpolate(v[lo], v[hi], h - lo as real)
  }

  /** The point a fraction w of the way from a to b. */
  function Interpolate(a: real, b: real, w: real): (x: real)
    requires 0.0 <= w <= 1.0
    ensures a <= b ==> a <= x <= b
  {
    if a <= b then
      MulNonNegative(w, b - a);
      MulNonNegative(1.0 - w, b - a);
      a + w * (b - a)
    else
      a + w * (b - a)
  }

  lemma MulNonNegative(a: real, b: real)
    requires a >= 0.0 && b >= 0.0
    ensures a * b >= 0.0
  {
  }

  lemma ScaleMonotone(k: real, q1: real, q2: real)
    requires k >= 0.0 && q1 <= q2
    ensures k * q1 <= k * q2
  {
    MulNonNegative(k, q2 - q1);
  }

  lemma InterpolationMonotone(a: real, b: real, w1: real, w2: real)
    requires a <= b && 0.0 <= w1 <= w2 <= 1.0
    ensures Interpolate(a, b, w1) <= Interpolate(a, b, w2)
  {
    MulNonNegative(w2 - w1, b - a);
  }

  /** The integer parts of two ordered positions are ordered, and a shared one leaves the fractions ordered. */
  lemma FloorMonotone(m: nat, h1: real, h2: real)
    requires m > 0 && 0.0 <= h1 <= h2 <= (m - 1) as real
    ensures QuantileLow(m, h1) <= QuantileLow(m, h2)
  {
    var lo1, lo2 := QuantileLow(m, h1), QuantileLow(m, h2);
    assert lo1 as real < lo2 as real + 1.0;
  }

  /** The position, its integer part, the next index and the weight behind `Quantile(v, q)`. */
  lemma QuantileForm(v: seq<real>, q: real) returns (h: real, lo: nat, hi: nat, w: real)
    requires |v| > 0 && 0.0 <= q <= 1.0
    ensures h == QuantilePosition(|v|, q) && lo == QuantileLow(|v|, h)
    ensures lo <= hi < |v| && (hi == lo + 1 || hi == lo == |v| - 1)
    ensures w == h - lo as real && 0.0 <= w < 1.0
    ensures Quantile(v, q) == Interpolate(v[lo], v[hi], w)
  {
    h := QuantilePosition(|v|, q);
    lo := QuantileLow(|v|, h);
    hi := if lo + 1 < |v| then lo + 1 else |v| - 1;
    w := h - lo as real;
  }

  lemma PositionMonotone(m: nat, q1: real, q2: real)
    requires m > 0 && 0.0 <= q1 <= q2 <= 1.0
    ensures QuantilePosition(m, q1) <= QuantilePosition(m, q2)
  {
    ScaleMonotone((m - 1) as real, q1, q2);
  }

  /** A larger quantile level never gives a smaller quantile of sorted values. */
  lemma QuantileMonotone(v: seq<real>, q1: real, q2: real)
    requires |v| > 0 && 0.0 <= q1 <= q2 <= 1.0 && Sorted(v)
    ensures Quantile(v, q1) <= Quantile(v, q2)
  {
    var h1, lo1, hi1, w1 := QuantileForm(v, q1);
    var h2, lo2, hi2, w2 := QuantileForm(v, q2);
    PositionMonotone(|v|, q1, q2);
    FloorMonotone(|v|, h1, h2);
    if lo1 < lo2 {
      assert v[lo1] <= v[hi1] <= v[lo2] <= v[hi2];
    } else {
      InterpolationMonotone(v[lo1], v[hi1], w1, w2);
    }
  }

  /** `index[:n] + index[-n:]`: the first and the last min(n, |order|) entries of `order`. */
  function CountSelect(order: seq<nat>, n: nat): (sel: seq<nat>)
    requires n >= 1
    ensures |sel| == 2 * Min(n, |order|)
    ensures forall i :: 0 <= i < Min(n, |order|) ==> sel[i] == order[i]
    ensures forall i :: Min(n, |order|) <= i < |sel| ==> sel[i] == order[|order| - 2 * Min(n, |order|) + i]
  {
    var k := Min(n, |order|);
    order[..k] + order[|order| - k..]
  }

  ghost predicate InTails(scores: seq<real>, r: nat, upper: real, lower: real)
    requires r < |scores|
  {
    scores[r] >= upper || scores[r] <= lower
  }

  /** Keeps, in order, the entries of `order` whose score reaches one of the two cut-offs. */
  function KeepTails(order: seq<nat>, scores: seq<real>, upper: real, lower: real): (sel: seq<nat>)
    requires InBounds(order, |scores|)
    ensures InBounds(sel, |scores|)
    ensures multiset(sel) <= multiset(order)
    ensures forall i :: 0 <= i < |sel| ==> InTails(scores, sel[i], upper, lower)
  {
    if order == [] then []
    else
      var rest := KeepTails(order[1..], scores, upper, lower);
      assert order == [order[0]] + order[1..];
      if scores[order[0]] >= upper || scores[order[0]] <= lower then
        var sel := [order[0]] + rest;
        assert forall i :: 1 <= i < |sel| ==> sel[i] == rest[i - 1];
        sel
      else rest
  }

  lemma {:induction false} KeepTailsKeeps(order: seq<nat>, scores: seq<real>, upper: real, lower: real, i: nat)
    requires InBounds(order, |scores|) && i < |order| && InTails(scores, order[i], upper, lower)
    ensures order[i] in KeepTails(order, scores, upper, lower)
  {
    if i > 0 {
      assert order[1..][i - 1] == order[i];
      KeepTailsKeeps(order[1..], scores, upper, lower, i - 1);
    }
  }

  lemma {:induction false} KeepTailsAll(order: seq<nat>, scores: seq<real>, upper: real, lower: real)
    requires InBounds(order, |scores|)
    requires forall i :: 0 <= i < |order| ==> InTails(scores, order[i], upper, lower)
    ensures KeepTails(order, scores, upper, lower) == order
  {
    if order != [] {
      assert forall i :: 1 <= i < |order| ==> order[1..][i - 1] == order[i];
      KeepTailsAll(order[1..], scores, upper, lower);
      assert InTails(scores, order[0], upper, lower);
    }
  }

  /**
   * The features of `order` whose score is at least the q-quantile or at most the
   * (1-q)-quantile of all scores, kept in the order of `order`.
   */
  function QuantileSelect(order: seq<nat>, scores: seq<real>, q: real): (sel: seq<nat>)
    requires InBounds(order, |scores|) && 0.0 <= q <= 1.0
    ensures InBounds(sel, |scores|) && multiset(sel) <= multiset(order)
  {
    if |scores| == 0 then []
    else
      var v := SortedValues(scores);
      KeepTails(order, scores, Quantile(v, q), Quantile(v, 1.0 - q))
  }

  /** The threshold as a number, whichever Python type it was passed as. */
  function Level(t: NFeatures): real {
    match t
    case AsInt(n) => n as real
    case AsFloat(x) => x
  }

  /**
   * The shared selection rule. A level below 1 is a quantile (pandas refuses one below
   * 0); a level of 1 or more is a count used as a slice bound, which Python refuses for
   * a float.
   */
  function Select(order: seq<nat>, scores: seq<real>, t: NFeatures): (r: Result<seq<nat>>)
    requires InBounds(order, |scores|)
    ensures r.Err? <==> Level(t) < 0.0 || (t.AsFloat? && t.fraction >= 1.0)
    ensures r.Err? ==> r.error == (if Level(t) < 1.0 then QuantileOutOfRange else NonIntegerCount)
    ensures r.Ok? ==> InBounds(r.value, |scores|)
  {
    if Level(t) < 1.0 then
      if Level(t) < 0.0 then Err(QuantileOutOfRange) else Ok(QuantileSelect(order, scores, Level(t)))
    else
      match t
      case AsInt(n) => Ok(CountSelect(order, n))
      case AsFloat(_) => Err(NonIntegerCount)
  }

  /** A feature with the highest score (or the lowest) is always in a quantile selection. */
  lemma QuantileSelectKeepsExtremes(order: seq<nat>, scores: seq<real>, q: real, r: nat)
    requires InBounds(order, |scores|) && 0.0 <= q <= 1.0 && r in order
    requires (forall s :: 0 <= s < |scores| ==> scores[s] <= scores[r])
          || (forall s :: 0 <= s < |scores| ==> scores[s] >= scores[r])
    ensures r in QuantileSelect(order, scores, q)
  {
    var i :| 0 <= i < |order| && order[i] == r;
    var v := SortedValues(scores);
    var top :| 0 <= top < |scores| && v[|v| - 1] == scores[top];
    var bottom :| 0 <= bottom < |scores| && v[0] == scores[bottom];
    assert InTails(scores, order[i], Quantile(v, q), Quantile(v, 1.0 - q));
    KeepTailsKeeps(order, scores, Quantile(v, q), Quantile(v, 1.0 - q), i);
  }

  /** With q at most 1/2 (and so at q = 1/2) the two tails cover every feature. */
  lemma QuantileSelectAll(order: seq<nat>, scores: seq<real>, q: real)
    requires InBounds(order, |scores|) && 0.0 <= q <= 0.5
    ensures QuantileSelect(order, scores, q) == order
  {
    if |scores| > 0 {
      var v := SortedValues(scores);
      QuantileMonotone(v, q, 1.0 - q);
      KeepTailsAll(order, scores, Quantile(v, q), Quantile(v, 1.0 - q));
    }
  }

  /**
   * When `order` repeats nothing, a count selection repeats nothing exactly when the
   * order holds at least 2n features; with fewer, the two slices overlap and some
   * feature is listed twice.
   */
  lemma CountSelectDistinct(order: seq<nat>, n: nat)
    requires n >= 1 && |order| >= 1
    requires forall v :: multiset(order)[v] <= 1
    ensures (forall v :: multiset(CountSelect(order, n))[v] <= 1) <==> |order| >= 2 * n
    ensures |order| >= 2 * n ==> |CountSelect(order, n)| == 2 * n
  {
    var sel := CountSelect(order, n);
    var len := |order|;
    if len >= 2 * n {
      assert sel == order[..n] + order[len - n..];
      assert order == order[..n] + order[n..len - n] + order[len - n..];
      assert multiset(sel) <= multiset(order);
    } else {
      var k := Min(n, len);
      assert sel[len - k] == order[len - k] == sel[k];
      TwoOccurrences(sel, len - k, k);
    }
  }

  /**
   * How many entries of `s` occur again further on: the rows an outer merge on these
   * labels adds to a table that holds each label once.
   */
  function Repeats(s: seq<nat>): (k: nat)
    ensures k <= |s|
  {
    if s == [] then 0 else (if s[0] in s[1..] then 1 else 0) + Repeats(s[1..])
  }

  /** A sequence has no repeat exactly when it lists every value at most once. */
  lemma {:induction false} RepeatsNone(s: seq<nat>)
    ensures Repeats(s) == 0 <==> forall v :: multiset(s)[v] <= 1
  {
    if s != [] {
      var t := s[1..];
      assert s == [s[0]] + t;
      assert multiset(s) == multiset{s[0]} + multiset(t);
      RepeatsNone(t);
      if s[0] in t {
        assert multiset(s)[s[0]] >= 2;
      } else {
        assert multiset(t)[s[0]] == 0;
        assert (forall v :: multiset(s)[v] <= 1) <==> (forall v :: multiset(t)[v] <= 1) by {
          forall v ensures multiset(s)[v] == multiset(t)[v] + (if v == s[0] then 1 else 0) {}
        }
      }
    }
  }

  /**
   * Over an order that lists every feature once, a selection repeats some feature exactly
   * when it is a count n over fewer than 2n features.
   */
  lemma SelectRepeats(order: seq<nat>, scores: seq<real>, t: NFeatures)
    requires InBounds(order, |scores|) && |order| >= 1
    requires forall v :: multiset(order)[v] <= 1
    requires Select(order, scores, t).Ok?
    ensures Repeats(Select(order, scores, t).value) > 0 <==> t.AsInt? && |order| < 2 * t.count
  {
    var sel := Select(order, scores, t).value;
    RepeatsNone(sel);
    if Level(t) < 1.0 {
      assert multiset(sel) <= multiset(order);
      forall v ensures multiset(sel)[v] <= 1 {
        assert multiset(sel)[v] <= multiset(order)[v];
      }
    } else {
      CountSelectDistinct(order, t.count);
    }
  }
}
