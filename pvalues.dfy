/**
 * Permutation p-values: the share of null scores strictly above a feature's score,
 * floored at one over the number of null scores so that no p-value is zero.
 */
module PValues {

  /** How many entries of `xs` are strictly greater than `x`. */
  function CountGreater(xs: seq<real>, x: real): (c: nat)
    ensures c <= |xs|
    ensures c == 0 <==> forall i :: 0 <= i < |xs| ==> xs[i] <= x
  {
    if xs == [] then 0
    else
      assert forall i :: 1 <= i < |xs| ==> xs[1..][i - 1] == xs[i];
      (if xs[0] > x then 1 else 0) + CountGreater(xs[1..], x)
  }

  lemma {:induction false} CountGreaterAppend(a: seq<real>, b: seq<real>, x: real)
    ensures CountGreater(a + b, x) == CountGreater(a, x) + CountGreater(b, x)
  {
    if a == [] {
      assert a + b == b;
    } else {
      assert (a + b)[1..] == a[1..] + b;
      assert (a + b)[0] == a[0];
      CountGreaterAppend(a[1..], b, x);
    }
  }

  /** A higher score never has more null scores above it. */
  lemma {:induction false} CountGreaterAntitone(xs: seq<real>, x: real, y: real)
    requires x <= y
    ensures CountGreater(xs, y) <= CountGreater(xs, x)
  {
    if xs != [] {
      CountGreaterAntitone(xs[1..], x, y);
    }
  }

  /**
   * `count / total`, replaced by `1 / total` when the count is zero
   * (ccal/analyze.py:354-356 and 359-361).
   */
  function PValue(count: nat, total: nat): (p: real)
    requires 0 < total && count <= total
    ensures 1.0 / total as real <= p <= 1.0
    ensures count > 0 ==> p * total as real == count as real
  {
    if count == 0 then 1.0 / total as real else count as real / total as real
  }

  /** A p-value is a whole multiple of 1/total between 1/total and 1. */
  lemma PValueOnGrid(count: nat, total: nat)
    requires 0 < total && count <= total
    ensures var k := (PValue(count, total) * total as real).Floor;
      1 <= k <= total && k as real == PValue(count, total) * total as real
  {
    var t := total as real;
    if count == 0 {
      assert PValue(count, total) * t == 1.0;
    } else {
      assert PValue(count, total) * t == count as real;
    }
  }

  /** More exceedances never give a smaller p-value. */
  lemma PValueMonotone(c1: nat, c2: nat, total: nat)
    requires 0 < total && c1 <= c2 <= total
    ensures PValue(c1, total) <= PValue(c2, total)
  {
    var t := total as real;
    if c1 > 0 {
      assert c1 as real / t <= c2 as real / t by {
        assert (c2 - c1) as real / t >= 0.0;
      }
    } else if c2 > 0 {
      assert 1.0 / t <= c2 as real / t by {
        assert (c2 - 1) as real / t >= 0.0;
      }
    }
  }

  /** Row-major concatenation of a matrix (numpy `flatten`). */
  function Flatten(m: seq<seq<real>>): seq<real> {
    if m == [] then [] else m[0] + Flatten(m[1..])
  }

  ghost predicate Rectangular(m: seq<seq<real>>, width: nat) {
    forall j :: 0 <= j < |m| ==> |m[j]| == width
  }

  lemma {:induction false} FlattenLength(m: seq<seq<real>>, width: nat)
    requires Rectangular(m, width)
    ensures |Flatten(m)| == |m| * width
  {
    if m != [] {
      FlattenLength(m[1..], width);
    }
  }

  /** The pooled exceedance count is the sum of the per-row counts. */
  function RowCounts(m: seq<seq<real>>, x: real): nat {
    if m == [] then 0 else CountGreater(m[0], x) + RowCounts(m[1..], x)
  }

  lemma {:induction false} PooledCount(m: seq<seq<real>>, x: real)
    ensures CountGreater(Flatten(m), x) == RowCounts(m, x)
  {
    if m != [] {
      CountGreaterAppend(m[0], Flatten(m[1..]), x);
      PooledCount(m[1..], x);
    }
  }

  /** The local p-value of a score against one row of `nperm` null scores. */
  function LocalPValue(nullRow: seq<real>, score: real, nperm: nat): (p: real)
    requires nperm > 0 && |nullRow| == nperm
    ensures 1.0 / nperm as real <= p <= 1.0
  {
    PValue(CountGreater(nullRow, score), nperm)
  }

  /** The global p-value of a score against all `nperm * |nulls|` null scores. */
  function GlobalPValue(nulls: seq<seq<real>>, score: real, nperm: nat): (p: real)
    requires nperm > 0 && |nulls| > 0 && Rectangular(nulls, nperm)
    ensures 1.0 / (nperm * |nulls|) as real <= p <= 1.0
  {
    FlattenLength(nulls, nperm);
    assert nperm * |nulls| > 0 by {
      assert nperm * |nulls| >= nperm * 1;
    }
    PValue(CountGreater(Flatten(nulls), score), nperm * |nulls|)
  }

  /** A global p-value is never zero. */
  lemma GlobalPValuePositive(nulls: seq<seq<real>>, score: real, nperm: nat)
    requires nperm > 0 && |nulls| > 0 && Rectangular(nulls, nperm)
    ensures 0.0 < GlobalPValue(nulls, score, nperm)
  {
    var total := nperm * |nulls|;
    assert total > 0 by {
      assert nperm * |nulls| >= nperm * 1;
    }
    assert 1.0 / total as real > 0.0;
  }

  /** A higher score never has a larger global p-value. */
  lemma GlobalPValueAntitone(nulls: seq<seq<real>>, x: real, y: real, nperm: nat)
    requires nperm > 0 && |nulls| > 0 && Rectangular(nulls, nperm) && x <= y
    ensures GlobalPValue(nulls, y, nperm) <= GlobalPValue(nulls, x, nperm)
  {
    FlattenLength(nulls, nperm);
    CountGreaterAntitone(Flatten(nulls), x, y);
    PValueMonotone(CountGreater(Flatten(nulls), y), CountGreater(Flatten(nulls), x), nperm * |nulls|);
  }
}
