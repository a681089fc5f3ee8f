/**
 * The label-counting loops of the consensus-clustering helpers: `nmf_and_score`
 * (ccal/analyze.py:35-77) turns each NMF run's H matrix into one cluster label per
 * column and counts, for every pair of columns, how many runs agree on them;
 * `get_states_from_h` (ccal/analyze.py:114-175) counts, for every pair of samples, how
 * many clusterings put them together, and marks each sample's membership of the state
 * it was finally assigned to. The factorizations and clusterings themselves are inputs.
 */
module Consensus {
  import opened Outcomes
  import opened Matrices

  /** The only clustering score `nmf_and_score` knows. */
  const CopheneticCorrelation: string := "cophenetic_correlation"

  /** Every row of `m` has `n` entries. */
  ghost predicate HasWidth<T>(m: seq<seq<T>>, n: nat) {
    forall a :: 0 <= a < |m| ==> |m[a]| == n
  }

  // ---------------------------------------------------------------- NMF assignments

  /**
   * `np.argmax` of column c over the first `rows` rows of h: the first row holding the
   * column's largest value.
   */
  function ArgMax(h: seq<seq<real>>, c: nat, rows: nat): (a: nat)
    requires 0 < rows <= |h| && forall r :: 0 <= r < |h| ==> c < |h[r]|
    ensures a < rows
    ensures forall r :: 0 <= r < rows ==> h[r][c] <= h[a][c]
    ensures forall r :: 0 <= r < a ==> h[r][c] < h[a][c]
  {
    if rows == 1 then 0
    else
      var best := ArgMax(h, c, rows - 1);
      if h[rows - 1][c] > h[best][c] then rows - 1 else best
  }

  /** `np.argmax(H, axis=0)`: each column's label is the component with the largest coefficient. */
  function Assign(h: seq<seq<real>>, ncols: nat): (labels: seq<int>)
    requires |h| > 0 && HasWidth(h, ncols)
    ensures |labels| == ncols
    ensures forall c :: 0 <= c < ncols ==> 0 <= labels[c] < |h| && labels[c] == ArgMax(h, c, |h|)
  {
    seq(ncols, c requires 0 <= c < ncols => ArgMax(h, c, |h|) as int)
  }

  /** H matrices of one shape: `k` components over `ncols` columns, with k at least 1. */
  ghost predicate Factorizations(hs: seq<seq<seq<real>>>, ncols: nat) {
    forall i :: 0 <= i < |hs| ==> |hs[i]| > 0 && HasWidth(hs[i], ncols)
  }

  /** One row of column labels per NMF run. */
  function Assignments(hs: seq<seq<seq<real>>>, ncols: nat): (m: seq<seq<int>>)
    requires Factorizations(hs, ncols)
    ensures |m| == |hs| && HasWidth(m, ncols)
    ensures forall i, c :: 0 <= i < |hs| && 0 <= c < ncols ==> 0 <= m[i][c] < |hs[i]|
  {
    seq(|hs|, i requires 0 <= i < |hs| => Assign(hs[i], ncols))
  }

  /** The assignment matrix of ccal/analyze.py:51-59, filled one run at a time. */
  method AssignmentMatrix(hs: seq<seq<seq<real>>>, ncols: nat) returns (m: seq<seq<int>>)
    requires Factorizations(hs, ncols)
    ensures m == Assignments(hs, ncols)
  {
    m := seq(|hs|, _ => []);
    for i := 0 to |hs|
      invariant |m| == |hs|
      invariant forall i' :: 0 <= i' < i ==> m[i'] == Assign(hs[i'], ncols)
    {
      m := m[i := Assign(hs[i], ncols)];
    }
  }

  // ---------------------------------------------------------------- agreement counts

  /** How many of the first k runs give entries i and j the same label. */
  function Agreements(runs: seq<seq<int>>, i: nat, j: nat, k: nat): nat
    requires k <= |runs| && forall a :: 0 <= a < |runs| ==> i < |runs[a]| && j < |runs[a]|
  {
    if k == 0 then 0
    else Agreements(runs, i, j, k - 1) + (if runs[k - 1][i] == runs[k - 1][j] then 1 else 0)
  }

  lemma {:induction false} AgreementsBound(runs: seq<seq<int>>, i: nat, j: nat, k: nat)
    requires k <= |runs| && forall a :: 0 <= a < |runs| ==> i < |runs[a]| && j < |runs[a]|
    ensures Agreements(runs, i, j, k) <= k
  {
    if k > 0 {
      AgreementsBound(runs, i, j, k - 1);
    }
  }

  /** An entry always agrees with itself. */
  lemma {:induction false} AgreementsSelf(runs: seq<seq<int>>, i: nat, k: nat)
    requires k <= |runs| && forall a :: 0 <= a < |runs| ==> i < |runs[a]|
    ensures Agreements(runs, i, i, k) == k
  {
    if k > 0 {
      AgreementsSelf(runs, i, k - 1);
    }
  }

  lemma {:induction false} AgreementsSymmetric(runs: seq<seq<int>>, i: nat, j: nat, k: nat)
    requires k <= |runs| && forall a :: 0 <= a < |runs| ==> i < |runs[a]| && j < |runs[a]|
    ensures Agreements(runs, i, j, k) == Agreements(runs, j, i, k)
  {
    if k > 0 {
      AgreementsSymmetric(runs, i, j, k - 1);
    }
  }

  // ---------------------------------------------------------------- co-assignment (nmf_and_score)

  /** The co-assignment matrix: agreements on and above the diagonal, zeros below. */
  function CoAssignment(runs: seq<seq<int>>, n: nat): (m: seq<seq<int>>)
    requires HasWidth(runs, n)
    ensures |m| == n && HasWidth(m, n)
  {
    seq(n, i requires 0 <= i < n =>
      seq(n, j requires 0 <= j < n => if i <= j then Agreements(runs, i, j, |runs|) else 0))
  }

  /** The cells of the upper triangle before (i, j) in row-major order hold their counts; all others are 0. */
  ghost predicate FilledBefore(m: array2<int>, runs: seq<seq<int>>, i: nat, j: nat)
    requires HasWidth(runs, m.Length0) && m.Length0 == m.Length1
    reads m
  {
    forall p, q :: 0 <= p < m.Length0 && 0 <= q < m.Length1 ==>
      m[p, q] == if p <= q && (p < i || (p == i && q < j)) then Agreements(runs, p, q, |runs|) else 0
  }

  /** The innermost loop of ccal/analyze.py:65-67: adds one for every run that agrees on columns i and j. */
  method CountPair(m: array2<int>, runs: seq<seq<int>>, i: nat, j: nat)
    requires m.Length0 == m.Length1 && i < m.Length0 && j < m.Length1 && HasWidth(runs, m.Length0)
    modifies m
    ensures m[i, j] == old(m[i, j]) + Agreements(runs, i, j, |runs|)
    ensures forall p, q :: 0 <= p < m.Length0 && 0 <= q < m.Length1 && (p != i || q != j) ==> m[p, q] == old(m[p, q])
  {
    for a := 0 to |runs|
      invariant m[i, j] == old(m[i, j]) + Agreements(runs, i, j, a)
      invariant forall p, q :: 0 <= p < m.Length0 && 0 <= q < m.Length1 && (p != i || q != j) ==> m[p, q] == old(m[p, q])
    {
      if runs[a][i] == runs[a][j] {
        m[i, j] := m[i, j] + 1;
      }
    }
  }

  /** The co-assignment loops of ccal/analyze.py:62-67 over a zero matrix, j running from i. */
  method CoAssignmentCounts(runs: seq<seq<int>>, n: nat) returns (counts: seq<seq<int>>)
    requires HasWidth(runs, n)
    ensures counts == CoAssignment(runs, n)
  {
    var m := new int[n, n]((_, _) => 0);
    for i := 0 to n
      invariant FilledBefore(m, runs, i, i)
    {
      for j := i to n
        invariant FilledBefore(m, runs, i, j)
      {
        CountPair(m, runs, i, j);
      }
    }
    counts := MatrixRows(m);
    MatrixEquality(counts, CoAssignment(runs, n));
  }

  /**
   * Every count on or above the diagonal lies in [0, runs], the diagonal counts every
   * run, the counts below it stay 0, and the upper triangle would read the same with
   * the two columns swapped.
   */
  lemma CoAssignmentFacts(runs: seq<seq<int>>, n: nat)
    requires HasWidth(runs, n)
    ensures var m := CoAssignment(runs, n);
      && (forall i, j :: 0 <= i < n && 0 <= j < n ==> 0 <= m[i][j] <= |runs|)
      && (forall i :: 0 <= i < n ==> m[i][i] == |runs|)
      && (forall i, j :: 0 <= j < i < n ==> m[i][j] == 0)
      && (forall i, j :: 0 <= i <= j < n ==> m[i][j] == Agreements(runs, j, i, |runs|))
  {
    var m := CoAssignment(runs, n);
    forall i, j | 0 <= i <= j < n ensures m[i][j] <= |runs| && m[i][j] == Agreements(runs, j, i, |runs|) {
      AgreementsBound(runs, i, j, |runs|);
      AgreementsSymmetric(runs, i, j, |runs|);
    }
    forall i | 0 <= i < n ensures m[i][i] == |runs| {
      AgreementsSelf(runs, i, |runs|);
    }
  }

  /** The H matrices of one call: `nassignments` runs per k when that count is not negative. */
  ghost predicate RunsFit(nassignments: int, perK: seq<seq<seq<seq<real>>>>, ncols: nat) {
    forall k :: 0 <= k < |perK| ==>
      Factorizations(perK[k], ncols) && (nassignments >= 0 ==> |perK[k]| == nassignments)
  }

  /**
   * What `nmf_and_score`'s counting computes for each k: an error for an unknown method,
   * an error for a negative number of assignments as soon as there is a k to allocate
   * an assignment matrix for, else one co-assignment matrix per k.
   */
  function NmfCountsSpec(scoreMethod: string, nassignments: int, perK: seq<seq<seq<seq<real>>>>, ncols: nat): (r: Result<seq<seq<seq<int>>>>)
    requires RunsFit(nassignments, perK, ncols)
  {
    if scoreMethod != CopheneticCorrelation then Err(UnknownMethod)
    else if nassignments < 0 && |perK| > 0 then Err(NegativeDimension)
    else Ok(seq(|perK|, k requires 0 <= k < |perK| => CoAssignment(Assignments(perK[k], ncols), ncols)))
  }

  /**
   * `nmf_and_score` without the factorizations and the cophenetic score: for every k, the
   * H matrices of its runs (`perK[k]`) become an assignment matrix and then co-assignment counts.
   */
  method NmfAndScoreCounts(scoreMethod: string, nassignments: int, perK: seq<seq<seq<seq<real>>>>, ncols: nat)
    returns (r: Result<seq<seq<seq<int>>>>)
    requires RunsFit(nassignments, perK, ncols)
    ensures r == NmfCountsSpec(scoreMethod, nassignments, perK, ncols)
    ensures r.Err? <==> scoreMethod != CopheneticCorrelation || (nassignments < 0 && |perK| > 0)
    ensures r.Err? ==> r.error == if scoreMethod != CopheneticCorrelation then UnknownMethod else NegativeDimension
    ensures r.Ok? ==> |r.value| == |perK| && forall k :: 0 <= k < |perK| ==> |r.value[k]| == ncols
  {
    if scoreMethod != CopheneticCorrelation {
      return Err(UnknownMethod);
    }
    var all: seq<seq<seq<int>>> := [];
    for k := 0 to |perK|
      invariant |all| == k
      invariant forall k' :: 0 <= k' < k ==> all[k'] == CoAssignment(Assignments(perK[k'], ncols), ncols)
      invariant k > 0 ==> nassignments >= 0
    {
      if nassignments < 0 {
        return Err(NegativeDimension);
      }
      var assignments := AssignmentMatrix(perK[k], ncols);
      var counts := CoAssignmentCounts(assignments, ncols);
      all := all + [counts];
    }
    assert all == seq(|perK|, k requires 0 <= k < |perK| => CoAssignment(Assignments(perK[k], ncols), ncols));
    return Ok(all);
  }

  // ---------------------------------------------------------------- co-clustering (get_states_from_h)

  /** The co-clustering matrix: for every pair of samples, the clusterings that put them together. */
  function CoClustering(labels: seq<seq<int>>, n: nat): (m: seq<seq<int>>)
    requires HasWidth(labels, n)
    ensures |m| == n && HasWidth(m, n)
  {
    seq(n, i requires 0 <= i < n => seq(n, j requires 0 <= j < n => Agreements(labels, i, j, |labels|)))
  }

  /** One clustering of ccal/analyze.py:152-154: every pair of samples it puts together gains one. */
  method AddClustering(m: array2<int>, s: seq<int>)
    requires m.Length0 == |s| && m.Length1 == |s|
    modifies m
    ensures forall p, q :: 0 <= p < |s| && 0 <= q < |s| ==>
      m[p, q] == old(m[p, q]) + if p == q || s[p] == s[q] then 1 else 0
  {
    for i := 0 to |s|
      invariant forall p, q :: 0 <= p < |s| && 0 <= q < |s| ==>
        m[p, q] == old(m[p, q]) + if p < i && (p == q || s[p] == s[q]) then 1 else 0
    {
      for j := 0 to |s|
        invariant forall p, q :: 0 <= p < |s| && 0 <= q < |s| ==>
          m[p, q] == old(m[p, q]) + if (p < i || (p == i && q < j)) && (p == q || s[p] == s[q]) then 1 else 0
      {
        if i == j || s[i] == s[j] {
          m[i, j] := m[i, j] + 1;
        }
      }
    }
  }

  /** The co-clustering count of ccal/analyze.py:146-154, starting from a zero matrix. */
  method CoClusteringCounts(labels: seq<seq<int>>, n: nat) returns (counts: seq<seq<int>>)
    requires HasWidth(labels, n)
    ensures counts == CoClustering(labels, n)
  {
    var m := new int[n, n]((_, _) => 0);
    for r := 0 to |labels|
      invariant forall p, q :: 0 <= p < n && 0 <= q < n ==> m[p, q] == Agreements(labels, p, q, r)
    {
      AddClustering(m, labels[r]);
    }
    counts := MatrixRows(m);
    MatrixEquality(counts, CoClustering(labels, n));
  }

  /** The co-clustering counts are symmetric, lie in [0, clusterings], and count every clustering on the diagonal. */
  lemma CoClusteringFacts(labels: seq<seq<int>>, n: nat)
    requires HasWidth(labels, n)
    ensures var m := CoClustering(labels, n);
      && (forall i, j :: 0 <= i < n && 0 <= j < n ==> m[i][j] == m[j][i] && 0 <= m[i][j] <= |labels|)
      && (forall i :: 0 <= i < n ==> m[i][i] == |labels|)
  {
    var m := CoClustering(labels, n);
    forall i, j | 0 <= i < n && 0 <= j < n ensures m[i][j] == m[j][i] && m[i][j] <= |labels| {
      AgreementsSymmetric(labels, i, j, |labels|);
      AgreementsBound(labels, i, j, |labels|);
    }
    forall i | 0 <= i < n ensures m[i][i] == |labels| {
      AgreementsSelf(labels, i, |labels|);
    }
  }

  // ---------------------------------------------------------------- states and memberships

  /** Python `any(xs)`: some entry is non-zero. */
  function AnyNonzero(xs: seq<int>): (b: bool)
    ensures b <==> exists i :: 0 <= i < |xs| && xs[i] != 0
  {
    if xs == [] then false
    else if xs[0] != 0 then true
    else
      assert forall i :: 1 <= i < |xs| ==> xs[i] == xs[1..][i - 1];
      AnyNonzero(xs[1..])
  }

  /**
   * The membership matrix of ccal/analyze.py:167: row k marks with 1 the samples whose
   * final label is the state number `states[k]` itself, and with 0 the others.
   */
  function Memberships(states: seq<int>, finals: seq<seq<int>>): (m: seq<seq<int>>)
    requires |finals| == |states|
    ensures |m| == |states|
    ensures forall k :: 0 <= k < |m| ==> |m[k]| == |finals[k]|
    ensures forall k, c :: 0 <= k < |m| && 0 <= c < |m[k]| ==> m[k][c] in {0, 1}
  {
    seq(|states|, k requires 0 <= k < |states| =>
      seq(|finals[k]|, c requires 0 <= c < |finals[k]| => if finals[k][c] == states[k] then 1 else 0))
  }

  /** A row of the membership matrix adds up to the number of samples finally labelled with that state's number. */
  lemma MembershipRowSum(states: seq<int>, finals: seq<seq<int>>, k: nat)
    requires |finals| == |states| && k < |states|
    ensures Sum(Memberships(states, finals)[k]) == Count(finals[k], states[k])
  {
    SumMarks(finals[k], states[k]);
  }

  function Sum(xs: seq<int>): int {
    if xs == [] then 0 else xs[0] + Sum(xs[1..])
  }

  /** How many entries of xs equal x. */
  function Count(xs: seq<int>, x: int): nat {
    if xs == [] then 0 else (if xs[0] == x then 1 else 0) + Count(xs[1..], x)
  }

  lemma {:induction false} SumMarks(xs: seq<int>, x: int)
    ensures Sum(seq(|xs|, c requires 0 <= c < |xs| => if xs[c] == x then 1 else 0)) == Count(xs, x)
  {
    var marks := seq(|xs|, c requires 0 <= c < |xs| => if xs[c] == x then 1 else 0);
    if xs != [] {
      SumMarks(xs[1..], x);
      assert marks[1..] == seq(|xs[1..]|, c requires 0 <= c < |xs[1..]| => if xs[1..][c] == x then 1 else 0);
    }
  }

  /** The counting part of `get_states_from_h`'s result: co-clustering counts per state and the membership matrix. */
  datatype States = States(coclusterings: seq<seq<seq<int>>>, memberships: seq<seq<int>>)

  /** The clusterings of one call: per state, its runs' labels and its final labels, all over n samples. */
  ghost predicate ClusteringsFit(states: seq<int>, runs: seq<seq<seq<int>>>, finals: seq<seq<int>>, n: nat) {
    && |runs| == |states| && |finals| == |states|
    && (forall k :: 0 <= k < |states| ==> HasWidth(runs[k], n) && |finals[k]| == n)
  }

  function StatesSpec(states: seq<int>, runs: seq<seq<seq<int>>>, finals: seq<seq<int>>, n: nat): (r: Result<States>)
    requires ClusteringsFit(states, runs, finals, n)
  {
    if !AnyNonzero(states) then Err(InvalidStates)
    else Ok(States(seq(|states|, k requires 0 <= k < |states| => CoClustering(runs[k], n)), Memberships(states, finals)))
  }

  /**
   * `get_states_from_h` without the standardization, the association matrix and the
   * clustering calls: `runs[k]` are the `n_clusterings` label vectors of state
   * `states[k]` and `finals[k]` its final `fcluster` labels.
   */
  method GetStatesCounts(states: seq<int>, runs: seq<seq<seq<int>>>, finals: seq<seq<int>>, n: nat) returns (r: Result<States>)
    requires ClusteringsFit(states, runs, finals, n)
    ensures r == StatesSpec(states, runs, finals, n)
  {
    if !AnyNonzero(states) {
      return Err(InvalidStates);
    }
    var all: seq<seq<seq<int>>> := [];
    for k := 0 to |states|
      invariant |all| == k
      invariant forall k' :: 0 <= k' < k ==> all[k'] == CoClustering(runs[k'], n)
    {
      var counts := CoClusteringCounts(runs[k], n);
      all := all + [counts];
    }
    assert all == seq(|states|, k requires 0 <= k < |states| => CoClustering(runs[k], n));
    return Ok(States(all, Memberships(states, finals)));
  }

  /**
   * The `any(n_states)` check fails exactly when every requested number of states is 0
   * (or none is requested); it is the only failure of the counting itself.
   */
  lemma StatesErrors(states: seq<int>, runs: seq<seq<seq<int>>>, finals: seq<seq<int>>, n: nat)
    requires ClusteringsFit(states, runs, finals, n)
    ensures var r := StatesSpec(states, runs, finals, n);
      && (r.Err? <==> forall k :: 0 <= k < |states| ==> states[k] == 0)
      && (r.Err? ==> r.error == InvalidStates)
      && (r.Ok? ==> |r.value.coclusterings| == |states| && |r.value.memberships| == |states|)
  {
  }
}
