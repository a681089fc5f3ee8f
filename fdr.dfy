/**
 * Benjamini-Hochberg step-up false-discovery-rate adjustment (Benjamini and Hochberg,
 * 1995), computed the way statsmodels' `multipletests(..., method='fdr_bh')` does:
 * sort the p-values ascending, divide the one at rank i (1-based) by i/n, take the
 * running minimum from the largest rank down, clip at 1 and put each value back at
 * its feature's position.
 */
module Fdr {
  import opened Sorting

  /** m[i] is the minimum of raw[i..] (numpy `minimum.accumulate` over the reversed sequence). */
  function SuffixMin(raw: seq<real>): (m: seq<real>)
    ensures |m| == |raw|
    ensures forall i, k :: 0 <= i <= k < |raw| ==> m[i] <= raw[k]
    ensures forall i :: 0 <= i < |raw| ==> exists k :: i <= k < |raw| && m[i] == raw[k]
  {
    if raw == [] then []
    else
      var rest := SuffixMin(raw[1..]);
      var head := if rest == [] || raw[0] < rest[0] then raw[0] else rest[0];
      var m := [head] + rest;
      assert forall i :: 1 <= i < |m| ==> m[i] == rest[i - 1];
      assert forall k :: 1 <= k < |raw| ==> raw[k] == raw[1..][k - 1];
      m
  }

  lemma SuffixMinMonotone(raw: seq<real>, i: nat, j: nat)
    requires i <= j < |raw|
    ensures SuffixMin(raw)[i] <= SuffixMin(raw)[j]
  {
    var m := SuffixMin(raw);
    var k :| j <= k < |raw| && m[j] == raw[k];
  }

  /** p[o[i]] / ((i + 1) / n): the unadjusted step-up value at rank i + 1. */
  function RawAdjusted(p: seq<real>, o: seq<nat>): (raw: seq<real>)
    requires InBounds(o, |p|)
    ensures |raw| == |o|
  {
    seq(|o|, i requires 0 <= i < |o| => p[o[i]] / ((i + 1) as real / |o| as real))
  }

  /** The adjusted values in ascending-p order, before they are put back. */
  function SortedAdjusted(p: seq<real>): (a: seq<real>)
    ensures |a| == |p|
  {
    var o := SortOrder(p);
    var m := SuffixMin(RawAdjusted(p, o));
    seq(|m|, i requires 0 <= i < |m| => if m[i] > 1.0 then 1.0 else m[i])
  }

  /** The BH q-value of every feature, in the features' own order. */
  function BenjaminiHochberg(p: seq<real>): (q: seq<real>)
    ensures |q| == |p|
  {
    var o := SortOrder(p);
    var a := SortedAdjusted(p);
    SortOrderSorts(p);
    PermutationFacts(o, |p|);
    seq(|p|, r requires 0 <= r < |p| => a[IndexOf(o, r)])
  }

  /** The value adjusted at rank i + 1 goes back to the feature that holds that rank. */
  lemma BenjaminiHochbergAligned(p: seq<real>)
    ensures forall i :: 0 <= i < |p| ==> BenjaminiHochberg(p)[SortOrder(p)[i]] == SortedAdjusted(p)[i]
  {
    var o := SortOrder(p);
    assert forall i, j :: 0 <= i < j < |o| ==> o[i] != o[j] by {
      SortOrderSorts(p);
      PermutationFacts(o, |p|);
    }
    forall i | 0 <= i < |p| ensures BenjaminiHochberg(p)[o[i]] == SortedAdjusted(p)[i] {
      var k := IndexOf(o, o[i]);
      assert k == i;
    }
  }

  /** Every q-value is at most 1. */
  lemma QValuesAtMostOne(p: seq<real>)
    ensures forall r :: 0 <= r < |p| ==> BenjaminiHochberg(p)[r] <= 1.0
  {
    var o := SortOrder(p);
    assert forall r :: 0 <= r < |p| ==> r in o by {
      SortOrderSorts(p);
      PermutationFacts(o, |p|);
    }
    forall r | 0 <= r < |p| ensures BenjaminiHochberg(p)[r] <= 1.0 {
      var i := IndexOf(o, r);
      assert BenjaminiHochberg(p)[r] == SortedAdjusted(p)[i] by {
        BenjaminiHochbergAligned(p);
      }
    }
  }

  /** Along the ascending order of the p-values the q-values never decrease. */
  lemma QValuesMonotone(p: seq<real>, i: nat, j: nat)
    requires i <= j < |p|
    ensures BenjaminiHochberg(p)[SortOrder(p)[i]] <= BenjaminiHochberg(p)[SortOrder(p)[j]]
  {
    var o := SortOrder(p);
    BenjaminiHochbergAligned(p);
    SuffixMinMonotone(RawAdjusted(p, o), i, j);
  }

  /** A strictly smaller p-value never gets a larger q-value. */
  lemma QValuesFollowPValues(p: seq<real>, r: nat, s: nat)
    requires r < |p| && s < |p| && p[r] < p[s]
    ensures BenjaminiHochberg(p)[r] <= BenjaminiHochberg(p)[s]
  {
    var o := SortOrder(p);
    assert r in o && s in o by {
      SortOrderSorts(p);
      PermutationFacts(o, |p|);
    }
    var i, j := IndexOf(o, r), IndexOf(o, s);
    assert i < j by {
      SortOrderSorts(p);
    }
    QValuesMonotone(p, i, j);
  }

  /** For p-values in [0, 1], no q-value is below its own p-value. */
  lemma QValuesAtLeastPValues(p: seq<real>, r: nat)
    requires forall k :: 0 <= k < |p| ==> 0.0 <= p[k] <= 1.0
    requires r < |p|
    ensures BenjaminiHochberg(p)[r] >= p[r]
  {
    var o := SortOrder(p);
    assert r in o by {
      SortOrderSorts(p);
      PermutationFacts(o, |p|);
    }
    var i := IndexOf(o, r);
    assert BenjaminiHochberg(p)[r] == SortedAdjusted(p)[i] by {
      BenjaminiHochbergAligned(p);
    }
    SortedAdjustedAtLeast(p, i);
  }

  lemma SortedAdjustedAtLeast(p: seq<real>, i: nat)
    requires forall k :: 0 <= k < |p| ==> 0.0 <= p[k] <= 1.0
    requires i < |p|
    ensures SortedAdjusted(p)[i] >= p[SortOrder(p)[i]]
  {
    var o := SortOrder(p);
    var raw := RawAdjusted(p, o);
    var m := SuffixMin(raw);
    var k :| i <= k < |raw| && m[i] == raw[k];
    assert p[o[i]] <= p[o[k]] by {
      SortOrderSorts(p);
    }
    RankScaleAtLeast(p[o[k]], k + 1, |p|);
  }

  lemma RankScaleAtLeast(x: real, rank: nat, n: nat)
    requires 0.0 <= x && 0 < rank <= n
    ensures x / (rank as real / n as real) >= x
  {
    var f := rank as real / n as real;
    assert 0.0 < f <= 1.0;
    var y := x / f;
    assert y * f == x;
    assert y >= 0.0;
    assert y - y * f == y * (1.0 - f);
    assert y * (1.0 - f) >= 0.0;
  }
}
