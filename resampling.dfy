/**
 * The random parts of the engine with their randomness made explicit: the 0.632
 * bootstrap (sample size, when it is skipped, which columns a replicate uses) and the
 * in-place shuffle of the reference (numpy's Fisher-Yates `shuffle`).
 */
module Resampling {

  /** ceil(0.632 * n), computed exactly on integers. */
  function SampleSize(n: nat): (s: nat)
    ensures 632 * n <= 1000 * s < 632 * n + 1000
  {
    (632 * n + 999) / 1000
  }

  /** Whether the bootstrap runs, and if not, which of the two guards stopped it. */
  datatype BootstrapDecision = Run(sampleSize: nat) | TooFewSamplings | TooFewSamples

  /** The two guards of ccal/analyze.py:304-307, tried in that order. */
  function Decide(nsampling: int, ncols: nat): (d: BootstrapDecision)
    ensures d.Run? <==> nsampling >= 2 && ncols >= 4
    ensures d.Run? ==> d.sampleSize == SampleSize(ncols) && d.sampleSize >= 3
    ensures d == TooFewSamplings <==> nsampling < 2
  {
    if nsampling < 2 then TooFewSamplings
    else if SampleSize(ncols) < 3 then TooFewSamples
    else Run(SampleSize(ncols))
  }

  /** The entries of `v` at the positions `idx`, repeats included (`ref.ix[sample_indices]`). */
  function Subset(v: seq<real>, idx: seq<nat>): (r: seq<real>)
    requires forall k :: 0 <= k < |idx| ==> idx[k] < |v|
    ensures |r| == |idx|
    ensures forall k :: 0 <= k < |idx| ==> r[k] == v[idx[k]]
  {
    if idx == [] then [] else [v[idx[0]]] + Subset(v, idx[1..])
  }

  /** One column draw per replicate: `nsampling` draws of `size` column positions each. */
  ghost predicate ValidSamples(samples: seq<seq<nat>>, nsampling: nat, size: nat, ncols: nat) {
    |samples| == nsampling &&
    forall c :: 0 <= c < |samples| ==>
      |samples[c]| == size && forall k :: 0 <= k < size ==> samples[c][k] < ncols
  }

  /**
   * The draws of one Fisher-Yates shuffle of n values: position i is swapped with
   * d[i], where 0 <= d[i] <= i (d[0] is never used).
   */
  ghost predicate ValidDraws(d: seq<nat>, n: nat) {
    |d| == n && forall i :: 0 <= i < n ==> d[i] <= i
  }

  ghost predicate ValidShuffles(shuffles: seq<seq<nat>>, nperm: nat, n: nat) {
    |shuffles| == nperm && forall k :: 0 <= k < nperm ==> ValidDraws(shuffles[k], n)
  }

  function Swap(s: seq<real>, i: nat, j: nat): (r: seq<real>)
    requires i < |s| && j < |s|
    ensures |r| == |s|
  {
    s[i := s[j]][j := s[i]]
  }

  lemma SwapPermutes(s: seq<real>, i: nat, j: nat)
    requires i < |s| && j < |s|
    ensures multiset(Swap(s, i, j)) == multiset(s)
  {
  }

  /** The swaps for positions i, i-1, ..., 1 applied to `s`. */
  function ShuffleDown(s: seq<real>, d: seq<nat>, i: nat): (r: seq<real>)
    requires ValidDraws(d, |s|) && i < |s|
    ensures |r| == |s|
    decreases i
  {
    if i == 0 then s else ShuffleDown(Swap(s, i, d[i]), d, i - 1)
  }

  /** The result of numpy's `shuffle` on `s` with draws `d`. */
  function FisherYates(s: seq<real>, d: seq<nat>): (r: seq<real>)
    requires ValidDraws(d, |s|)
    ensures |r| == |s|
  {
    if |s| == 0 then s else ShuffleDown(s, d, |s| - 1)
  }

  lemma {:induction false} ShuffleDownPermutes(s: seq<real>, d: seq<nat>, i: nat)
    requires ValidDraws(d, |s|) && i < |s|
    ensures multiset(ShuffleDown(s, d, i)) == multiset(s)
    decreases i
  {
    if i > 0 {
      SwapPermutes(s, i, d[i]);
      ShuffleDownPermutes(Swap(s, i, d[i]), d, i - 1);
    }
  }

  /** A shuffle only rearranges the reference values. */
  lemma FisherYatesPermutes(s: seq<real>, d: seq<nat>)
    requires ValidDraws(d, |s|)
    ensures multiset(FisherYates(s, d)) == multiset(s)
  {
    if |s| > 0 {
      ShuffleDownPermutes(s, d, |s| - 1);
    }
  }

  /** Shuffles `a` in place, exactly as `np.random.shuffle` does with the draws `d`. */
  method Shuffle(a: array<real>, d: seq<nat>)
    requires ValidDraws(d, a.Length)
    modifies a
    ensures a[..] == FisherYates(old(a[..]), d)
  {
    if a.Length == 0 {
      return;
    }
    var i := a.Length - 1;
    while i > 0
      invariant 0 <= i < a.Length
      invariant ShuffleDown(a[..], d, i) == FisherYates(old(a[..]), d)
    {
      var j := d[i];
      ghost var before := a[..];
      ghost var after := Swap(before, i, j);
      assert ShuffleDown(before, d, i) == ShuffleDown(after, d, i - 1);
      a[i], a[j] := a[j], a[i];
      assert a[..] == after;
      i := i - 1;
    }
  }

  /** The reference after the first k of the successive shuffles (each one reshuffles the last). */
  function ShuffledRef(ref: seq<real>, shuffles: seq<seq<nat>>, k: nat): (r: seq<real>)
    requires k <= |shuffles| && forall i :: 0 <= i < |shuffles| ==> ValidDraws(shuffles[i], |ref|)
    ensures |r| == |ref|
  {
    if k == 0 then ref else FisherYates(ShuffledRef(ref, shuffles, k - 1), shuffles[k - 1])
  }

  /** Every shuffled reference holds exactly the reference's values. */
  lemma {:induction false} ShuffledRefPermutes(ref: seq<real>, shuffles: seq<seq<nat>>, k: nat)
    requires k <= |shuffles| && forall i :: 0 <= i < |shuffles| ==> ValidDraws(shuffles[i], |ref|)
    ensures multiset(ShuffledRef(ref, shuffles, k)) == multiset(ref)
  {
    if k > 0 {
      ShuffledRefPermutes(ref, shuffles, k - 1);
      FisherYatesPermutes(ShuffledRef(ref, shuffles, k - 1), shuffles[k - 1]);
    }
  }
}
