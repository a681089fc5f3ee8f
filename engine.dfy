/**
 * `compute_against_reference` (ccal/analyze.py:273-368): score every feature row
 * against the reference with the injected metric, sort by score, bootstrap a selection
 * of features over resampled columns, build a permutation null over shuffled references,
 * derive local and global p-values, and adjust the global ones with Benjamini-Hochberg.
 */
module Engine {
  import opened Outcomes
  import opened Sorting
  import opened Selection
  import opened Resampling
  import opened PValues
  import opened Fdr
  import opened Matrices

  /** The injected association metric: (feature values, reference values) to a score. */
  type Metric = (seq<real>, seq<real>) -> real

  /** The only metric name the engine accepts. */
  const InformationCoef: string := "information_coef"

  /** The bootstrap part of the result: why it was skipped, or what it used and computed. */
  datatype Bootstrap =
    | Skipped(reason: BootstrapDecision)
    | Bootstrapped(features: seq<nat>, samples: seq<seq<nat>>, replicates: seq<seq<real>>)

  /** One row of the score table; `feature` is the feature's row position in the input. */
  datatype ScoreRow = ScoreRow(feature: nat, score: real, localP: real, globalP: real, fdr: real)

  datatype ScoreTable = ScoreTable(rows: seq<ScoreRow>, bootstrap: Bootstrap)

  /** Every feature row has one value per reference column. */
  ghost predicate WellShaped(rows: seq<seq<real>>, ref: seq<real>) {
    forall r :: 0 <= r < |rows| ==> |rows[r]| == |ref|
  }

  /** The random inputs fit the call: one shuffle per permutation and, when the bootstrap runs, one column draw per replicate. */
  ghost predicate DrawsFit(ncols: nat, nsampling: int, nperm: int, samples: seq<seq<nat>>, shuffles: seq<seq<nat>>) {
    && (nperm >= 0 ==> ValidShuffles(shuffles, nperm as nat, ncols))
    && (Decide(nsampling, ncols).Run? ==> ValidSamples(samples, nsampling as nat, SampleSize(ncols), ncols))
  }

  // ---------------------------------------------------------------- specification

  function Scores(rows: seq<seq<real>>, ref: seq<real>, f: Metric): (s: seq<real>)
    ensures |s| == |rows|
  {
    seq(|rows|, r requires 0 <= r < |rows| => f(rows[r], ref))
  }

  function Replicates(rows: seq<seq<real>>, ref: seq<real>, f: Metric, features: seq<nat>, samples: seq<seq<nat>>): (m: seq<seq<real>>)
    requires InBounds(features, |rows|) && WellShaped(rows, ref)
    requires forall c, k :: 0 <= c < |samples| && 0 <= k < |samples[c]| ==> samples[c][k] < |ref|
  {
    seq(|features|, k requires 0 <= k < |features| =>
      seq(|samples|, c requires 0 <= c < |samples| =>
        f(Subset(rows[features[k]], samples[c]), Subset(ref, samples[c]))))
  }

  function Nulls(rows: seq<seq<real>>, ref: seq<real>, f: Metric, shuffles: seq<seq<nat>>): (m: seq<seq<real>>)
    requires forall i :: 0 <= i < |shuffles| ==> ValidDraws(shuffles[i], |ref|)
    ensures |m| == |rows| && Rectangular(m, |shuffles|)
  {
    seq(|rows|, j requires 0 <= j < |rows| =>
      seq(|shuffles|, i requires 0 <= i < |shuffles| => f(rows[j], ShuffledRef(ref, shuffles, i + 1))))
  }

  function GlobalPValues(scores: seq<real>, nulls: seq<seq<real>>, nperm: nat): (g: seq<real>)
    requires nperm > 0 && |nulls| > 0 && Rectangular(nulls, nperm)
    ensures |g| == |scores|
  {
    seq(|scores|, r requires 0 <= r < |scores| => GlobalPValue(nulls, scores[r], nperm))
  }

  /**
   * The score table in ascending score order. Position i of the sorted order takes its
   * local p-value from null row i, the null row of the feature at input position i
   * (ccal/analyze.py:348-349 fill the null rows in input order, 353-354 read them in
   * sorted order).
   */
  function RankedRows(scores: seq<real>, nulls: seq<seq<real>>, nperm: nat): (t: seq<ScoreRow>)
    requires nperm > 0 && |scores| > 0 && |nulls| == |scores| && Rectangular(nulls, nperm)
    ensures |t| == |scores|
  {
    var ord := SortOrder(scores);
    var g := GlobalPValues(scores, nulls, nperm);
    var q := BenjaminiHochberg(g);
    seq(|scores|, i requires 0 <= i < |scores| =>
      ScoreRow(ord[i], scores[ord[i]], LocalPValue(nulls[i], scores[ord[i]], nperm), g[ord[i]], q[ord[i]]))
  }

  function BootstrapOf(rows: seq<seq<real>>, ref: seq<real>, f: Metric, nfeatures: NFeatures, nsampling: int, samples: seq<seq<nat>>): (r: Result<Bootstrap>)
    requires WellShaped(rows, ref)
    requires Decide(nsampling, |ref|).Run? ==> ValidSamples(samples, nsampling as nat, SampleSize(|ref|), |ref|)
  {
    var scores := Scores(rows, ref, f);
    match Decide(nsampling, |ref|)
    case Run(_) =>
      var features :- Select(SortOrder(scores), scores, nfeatures);
      Ok(Bootstrapped(features, samples, Replicates(rows, ref, f, features, samples)))
    case other => Ok(Skipped(other))
  }

  /**
   * The rows of the outer merge of the scores with the bootstrap's table
   * (ccal/analyze.py:338): one per feature, and one more for each repeat in the selection.
   */
  function MergedRows(n: nat, boot: Bootstrap): (m: nat)
    ensures m >= n
    ensures m == n <==> boot.Skipped? || forall v :: multiset(boot.features)[v] <= 1
  {
    if boot.Bootstrapped? then
      RepeatsNone(boot.features);
      n + Repeats(boot.features)
    else n
  }

  /** The rows of a successful call, in the requested direction. */
  function Table(rows: seq<seq<real>>, ref: seq<real>, f: Metric, ascending: bool, nperm: nat, shuffles: seq<seq<nat>>): (t: seq<ScoreRow>)
    requires WellShaped(rows, ref) && ValidShuffles(shuffles, nperm, |ref|) && |rows| > 0 && nperm > 0
    ensures |t| == |rows|
  {
    var ranked := RankedRows(Scores(rows, ref, f), Nulls(rows, ref, f, shuffles), nperm);
    if ascending then ranked else Reverse(ranked)
  }

  /** What `compute_against_reference` returns or raises, as a function of its inputs and draws. */
  function ComputeSpec(rows: seq<seq<real>>, ref: seq<real>, f: Metric, metric: string, nfeatures: NFeatures,
                       ascending: bool, nsampling: int, nperm: int,
                       samples: seq<seq<nat>>, shuffles: seq<seq<nat>>): (r: Result<ScoreTable>)
    requires WellShaped(rows, ref) && DrawsFit(|ref|, nsampling, nperm, samples, shuffles)
  {
    if metric != InformationCoef then Err(UnknownMetric)
    else
      var boot :- BootstrapOf(rows, ref, f, nfeatures, nsampling, samples);
      if nperm < 0 then Err(NegativeDimension)
      else if |rows| == 0 || nperm == 0 then Err(ZeroDivision)
      else if MergedRows(|rows|, boot) > |rows| then Err(IndexOutOfBounds)
      else Ok(ScoreTable(Table(rows, ref, f, ascending, nperm, shuffles), boot))
  }

  // ---------------------------------------------------------------- implementation

  /** The scoring loop (ccal/analyze.py:295-299). */
  method ScoreRows(rows: seq<seq<real>>, ref: seq<real>, f: Metric) returns (scores: seq<real>)
    ensures |scores| == |rows|
    ensures forall r :: 0 <= r < |rows| ==> scores[r] == f(rows[r], ref)
  {
    var a := new real[|rows|];
    for i := 0 to |rows|
      invariant forall r :: 0 <= r < i ==> a[r] == f(rows[r], ref)
    {
      a[i] := f(rows[i], ref);
    }
    scores := a[..];
  }

  /** One replicate of the bootstrap loop (ccal/analyze.py:325-329): every selected feature on one column draw. */
  method FillReplicate(m: array2<real>, c: nat, rows: seq<seq<real>>, ref: seq<real>, f: Metric, features: seq<nat>, sample: seq<nat>)
    requires m.Length0 == |features| && c < m.Length1
    requires InBounds(features, |rows|) && WellShaped(rows, ref)
    requires forall k :: 0 <= k < |sample| ==> sample[k] < |ref|
    modifies m
    ensures forall k :: 0 <= k < |features| ==> m[k, c] == f(Subset(rows[features[k]], sample), Subset(ref, sample))
    ensures forall k, c' :: 0 <= k < |features| && 0 <= c' < m.Length1 && c' != c ==> m[k, c'] == old(m[k, c'])
  {
    var sampledRef := Subset(ref, sample);
    for k := 0 to |features|
      invariant forall k' :: 0 <= k' < k ==> m[k', c] == f(Subset(rows[features[k']], sample), sampledRef)
      invariant forall k', c' :: 0 <= k' < |features| && 0 <= c' < m.Length1 && c' != c ==> m[k', c'] == old(m[k', c'])
    {
      m[k, c] := f(Subset(rows[features[k]], sample), sampledRef);
    }
  }

  /** The bootstrap loop (ccal/analyze.py:323-329): one column per replicate, one row per selected feature. */
  method ReplicateScores(rows: seq<seq<real>>, ref: seq<real>, f: Metric, features: seq<nat>, samples: seq<seq<nat>>)
    returns (reps: seq<seq<real>>)
    requires InBounds(features, |rows|) && WellShaped(rows, ref)
    requires forall c, k :: 0 <= c < |samples| && 0 <= k < |samples[c]| ==> samples[c][k] < |ref|
    ensures |reps| == |features|
    ensures forall k :: 0 <= k < |features| ==>
      (|reps[k]| == |samples| &&
       forall c :: 0 <= c < |samples| ==> reps[k][c] == f(Subset(rows[features[k]], samples[c]), Subset(ref, samples[c])))
  {
    var m := new real[|features|, |samples|];
    for c := 0 to |samples|
      invariant forall k, c' :: 0 <= k < |features| && 0 <= c' < c ==>
        m[k, c'] == f(Subset(rows[features[k]], samples[c']), Subset(ref, samples[c']))
    {
      FillReplicate(m, c, rows, ref, f, features, samples[c]);
    }
    reps := MatrixRows(m);
  }

  /** One permutation of the null loop (ccal/analyze.py:348-349): every row against one shuffled reference. */
  method FillNull(m: array2<real>, i: nat, rows: seq<seq<real>>, shuffled: seq<real>, f: Metric)
    requires m.Length0 == |rows| && i < m.Length1
    modifies m
    ensures forall j :: 0 <= j < |rows| ==> m[j, i] == f(rows[j], shuffled)
    ensures forall j, i' :: 0 <= j < |rows| && 0 <= i' < m.Length1 && i' != i ==> m[j, i'] == old(m[j, i'])
  {
    for j := 0 to |rows|
      invariant forall j' :: 0 <= j' < j ==> m[j', i] == f(rows[j'], shuffled)
      invariant forall j', i' :: 0 <= j' < |rows| && 0 <= i' < m.Length1 && i' != i ==> m[j', i'] == old(m[j', i'])
    {
      m[j, i] := f(rows[j], shuffled);
    }
  }

  /** The permutation loop (ccal/analyze.py:344-349): shuffle the copy in place, then score every row. */
  method NullScores(rows: seq<seq<real>>, ref: seq<real>, f: Metric, shuffles: seq<seq<nat>>) returns (nulls: seq<seq<real>>)
    requires forall i :: 0 <= i < |shuffles| ==> ValidDraws(shuffles[i], |ref|)
    ensures |nulls| == |rows|
    ensures forall j :: 0 <= j < |rows| ==>
      (|nulls[j]| == |shuffles| &&
       forall i :: 0 <= i < |shuffles| ==> nulls[j][i] == f(rows[j], ShuffledRef(ref, shuffles, i + 1)))
  {
    var m := new real[|rows|, |shuffles|];
    var shuffled := new real[|ref|](k requires 0 <= k < |ref| => ref[k]);
    assert shuffled[..] == ShuffledRef(ref, shuffles, 0);
    for i := 0 to |shuffles|
      invariant shuffled[..] == ShuffledRef(ref, shuffles, i)
      invariant forall j, i' :: 0 <= j < |rows| && 0 <= i' < i ==> m[j, i'] == f(rows[j], ShuffledRef(ref, shuffles, i' + 1))
    {
      Shuffle(shuffled, shuffles[i]);
      FillNull(m, i, rows, shuffled[..], f);
    }
    nulls := MatrixRows(m);
  }

  /**
   * The p-value loop (ccal/analyze.py:353-362): walks the sorted order, reads null row
   * i for the feature at sorted position i, and stores both p-values under that feature.
   */
  method PermutationPValues(scores: seq<real>, ord: seq<nat>, nulls: seq<seq<real>>, nperm: nat)
    returns (local: seq<real>, global: seq<real>)
    requires nperm > 0 && |scores| > 0 && |nulls| == |scores| && Rectangular(nulls, nperm)
    requires |ord| == |scores| && InBounds(ord, |scores|) && IsPermutation(ord, |scores|)
    ensures |local| == |scores| && |global| == |scores|
    ensures forall i :: 0 <= i < |ord| ==> local[ord[i]] == LocalPValue(nulls[i], scores[ord[i]], nperm)
    ensures global == GlobalPValues(scores, nulls, nperm)
  {
    var n := |scores|;
    assert (forall i, j :: 0 <= i < j < |ord| ==> ord[i] != ord[j]) && (forall r :: 0 <= r < n ==> r in ord) by {
      PermutationFacts(ord, n);
    }
    local, global := seq(n, _ => 0.0), seq(n, _ => 0.0);
    for i := 0 to n
      invariant |local| == n && |global| == n
      invariant forall i' :: 0 <= i' < i ==> local[ord[i']] == LocalPValue(nulls[i'], scores[ord[i']], nperm)
      invariant forall i' :: 0 <= i' < i ==> global[ord[i']] == GlobalPValue(nulls, scores[ord[i']], nperm)
    {
      var idx := ord[i];
      assert forall i' :: 0 <= i' < i ==> ord[i'] != idx;
      local := local[idx := LocalPValue(nulls[i], scores[idx], nperm)];
      global := global[idx := GlobalPValue(nulls, scores[idx], nperm)];
    }
    AgreeThroughPermutation(ord, global, GlobalPValues(scores, nulls, nperm));
  }

  /** The bootstrap stage (ccal/analyze.py:302-338): decide, select, and score the replicates. */
  method BootstrapStage(rows: seq<seq<real>>, ref: seq<real>, f: Metric, scores: seq<real>, ord: seq<nat>,
                        nfeatures: NFeatures, nsampling: int, samples: seq<seq<nat>>) returns (r: Result<Bootstrap>)
    requires WellShaped(rows, ref) && scores == Scores(rows, ref, f) && ord == SortOrder(scores)
    requires Decide(nsampling, |ref|).Run? ==> ValidSamples(samples, nsampling as nat, SampleSize(|ref|), |ref|)
    ensures r == BootstrapOf(rows, ref, f, nfeatures, nsampling, samples)
  {
    var decision := Decide(nsampling, |ref|);
    if decision.Run? {
      var selected := Select(ord, scores, nfeatures);
      if selected.Err? {
        return Err(selected.error);
      }
      var reps := ReplicateScores(rows, ref, f, selected.value, samples);
      MatrixEquality(reps, Replicates(rows, ref, f, selected.value, samples));
      r := Ok(Bootstrapped(selected.value, samples, reps));
    } else {
      r := Ok(Skipped(decision));
    }
  }

  /** The p-value and FDR stage (ccal/analyze.py:352-366), giving the rows in ascending score order. */
  method RankStage(scores: seq<real>, nulls: seq<seq<real>>, nperm: nat) returns (ranked: seq<ScoreRow>)
    requires nperm > 0 && |scores| > 0 && |nulls| == |scores| && Rectangular(nulls, nperm)
    ensures ranked == RankedRows(scores, nulls, nperm)
  {
    var ord := SortOrder(scores);
    SortOrderSorts(scores);
    var local, global := PermutationPValues(scores, ord, nulls, nperm);
    var q := BenjaminiHochberg(global);
    ranked := seq(|scores|, i requires 0 <= i < |scores| =>
      ScoreRow(ord[i], scores[ord[i]], local[ord[i]], global[ord[i]], q[ord[i]]));
  }

  /** `compute_against_reference` on rows already restricted to the reference's columns. */
  method ComputeAgainstReference(rows: seq<seq<real>>, ref: seq<real>, f: Metric, metric: string, nfeatures: NFeatures,
                                 ascending: bool, nsampling: int, nperm: int,
                                 samples: seq<seq<nat>>, shuffles: seq<seq<nat>>) returns (r: Result<ScoreTable>)
    requires WellShaped(rows, ref) && DrawsFit(|ref|, nsampling, nperm, samples, shuffles)
    ensures r == ComputeSpec(rows, ref, f, metric, nfeatures, ascending, nsampling, nperm, samples, shuffles)
  {
    if metric != InformationCoef {
      return Err(UnknownMetric);
    }
    var scores := ScoreRows(rows, ref, f);
    assert scores == Scores(rows, ref, f);
    var ord := SortOrder(scores);
    var boot := BootstrapStage(rows, ref, f, scores, ord, nfeatures, nsampling, samples);
    if boot.Err? {
      return Err(boot.error);
    }
    if nperm < 0 {
      return Err(NegativeDimension);
    }
    var nulls := NullScores(rows, ref, f, shuffles);
    MatrixEquality(nulls, Nulls(rows, ref, f, shuffles));
    if |rows| == 0 || nperm == 0 {
      return Err(ZeroDivision);
    }
    if MergedRows(|rows|, boot.value) > |rows| {
      return Err(IndexOutOfBounds);
    }
    var ranked := RankStage(scores, nulls, nperm);
    r := Ok(ScoreTable(if ascending then ranked else Reverse(ranked), boot.value));
    assert r.value.rows == Table(rows, ref, f, ascending, nperm, shuffles);
  }

  // ---------------------------------------------------------------- properties

  /** The features of a table, top to bottom. */
  function FeatureOrder(t: seq<ScoreRow>): (o: seq<nat>)
    ensures |o| == |t|
  {
    seq(|t|, i requires 0 <= i < |t| => t[i].feature)
  }

  /**
   * The ranked rows list every feature exactly once, each with its own metric score,
   * in ascending score order.
   */
  lemma RankedRowsOrder(scores: seq<real>, nulls: seq<seq<real>>, nperm: nat)
    requires nperm > 0 && |scores| > 0 && |nulls| == |scores| && Rectangular(nulls, nperm)
    ensures var t := RankedRows(scores, nulls, nperm);
      && IsPermutation(FeatureOrder(t), |scores|)
      && (forall i :: 0 <= i < |t| ==> t[i].feature < |scores| && t[i].score == scores[t[i].feature])
      && (forall i, j :: 0 <= i < j < |t| ==> t[i].score <= t[j].score)
  {
    var t := RankedRows(scores, nulls, nperm);
    var ord := SortOrder(scores);
    SortOrderSorts(scores);
    RankedRowsFollowOrder(scores, nulls, nperm);
    assert FeatureOrder(t) == ord;
  }

  /** Row i of the ranked rows is the i-th feature of the sort order, with its score. */
  lemma RankedRowsFollowOrder(scores: seq<real>, nulls: seq<seq<real>>, nperm: nat)
    requires nperm > 0 && |scores| > 0 && |nulls| == |scores| && Rectangular(nulls, nperm)
    ensures var t := RankedRows(scores, nulls, nperm);
      forall i :: 0 <= i < |t| ==> t[i].feature == SortOrder(scores)[i] && t[i].score == scores[SortOrder(scores)[i]]
  {
  }

  /**
   * The p-value bounds of a row of a table over n features and nperm permutations: the
   * local p-value lies in [1/nperm, 1] and the global one in [1/(nperm * n), 1].
   */
  ghost predicate PValueBounds(row: ScoreRow, nperm: nat, n: nat) {
    var total := nperm * n;
    && nperm > 0 && total > 0
    && 1.0 / nperm as real <= row.localP <= 1.0
    && 1.0 / total as real <= row.globalP <= 1.0
  }

  /** The q-value bounds of a row: at least the global p-value and at most 1. */
  ghost predicate FdrBounds(row: ScoreRow) {
    row.globalP <= row.fdr <= 1.0
  }

  /** Every ranked row keeps the p-value bounds. */
  lemma RankedRowsPValueBounds(scores: seq<real>, nulls: seq<seq<real>>, nperm: nat)
    requires nperm > 0 && |scores| > 0 && |nulls| == |scores| && Rectangular(nulls, nperm)
    ensures var t := RankedRows(scores, nulls, nperm);
      forall i :: 0 <= i < |t| ==> PValueBounds(t[i], nperm, |scores|)
  {
    var t := RankedRows(scores, nulls, nperm);
    var ord := SortOrder(scores);
    forall i | 0 <= i < |t| ensures PValueBounds(t[i], nperm, |scores|) {
      RowPValueBounds(t[i], nulls, scores[ord[i]], i, nperm);
    }
  }

  /** A row whose p-values are those of one score against a null matrix keeps the bounds. */
  lemma RowPValueBounds(row: ScoreRow, nulls: seq<seq<real>>, score: real, k: nat, nperm: nat)
    requires nperm > 0 && k < |nulls| && Rectangular(nulls, nperm)
    requires row.localP == LocalPValue(nulls[k], score, nperm) && row.globalP == GlobalPValue(nulls, score, nperm)
    ensures PValueBounds(row, nperm, |nulls|)
  {
    assert nperm * |nulls| >= nperm * 1;
  }

  /** A higher score never has a larger global p-value, so the top scorer has the smallest. */
  lemma RankedRowsGlobalPValueOrder(scores: seq<real>, nulls: seq<seq<real>>, nperm: nat)
    requires nperm > 0 && |scores| > 0 && |nulls| == |scores| && Rectangular(nulls, nperm)
    ensures var t := RankedRows(scores, nulls, nperm);
      forall i, j :: 0 <= i < |t| && 0 <= j < |t| && t[i].score <= t[j].score ==> t[j].globalP <= t[i].globalP
  {
    var t := RankedRows(scores, nulls, nperm);
    forall i, j | 0 <= i < |t| && 0 <= j < |t| && t[i].score <= t[j].score
      ensures t[j].globalP <= t[i].globalP
    {
      GlobalPValueAntitone(nulls, t[i].score, t[j].score, nperm);
    }
  }

  /**
   * Every q-value is at least its feature's global p-value and at most 1, and a
   * strictly smaller global p-value never gets a larger q-value.
   */
  lemma RankedRowsFdr(scores: seq<real>, nulls: seq<seq<real>>, nperm: nat)
    requires nperm > 0 && |scores| > 0 && |nulls| == |scores| && Rectangular(nulls, nperm)
    ensures var t := RankedRows(scores, nulls, nperm);
      && (forall i :: 0 <= i < |t| ==> FdrBounds(t[i]))
      && (forall i, j :: 0 <= i < |t| && 0 <= j < |t| && t[i].globalP < t[j].globalP ==> t[i].fdr <= t[j].fdr)
  {
    var t := RankedRows(scores, nulls, nperm);
    var ord := SortOrder(scores);
    var g := GlobalPValues(scores, nulls, nperm);
    var q := BenjaminiHochberg(g);
    assert forall i :: 0 <= i < |t| ==> t[i].globalP == g[ord[i]] && t[i].fdr == q[ord[i]];
    forall k | 0 <= k < |g| ensures 0.0 <= g[k] <= 1.0 {
      GlobalPValuePositive(nulls, scores[k], nperm);
    }
    QValuesAtMostOne(g);
    forall i | 0 <= i < |t| ensures t[i].globalP <= t[i].fdr {
      QValuesAtLeastPValues(g, ord[i]);
    }
    forall i, j | 0 <= i < |t| && 0 <= j < |t| && t[i].globalP < t[j].globalP ensures t[i].fdr <= t[j].fdr {
      QValuesFollowPValues(g, ord[i], ord[j]);
    }
  }

  /**
   * When the input rows already come in ascending score order the sort moves nothing,
   * so every local p-value is taken from the feature's own null row.
   */
  lemma RankedRowsOwnNullWhenPresorted(scores: seq<real>, nulls: seq<seq<real>>, nperm: nat)
    requires nperm > 0 && |scores| > 0 && |nulls| == |scores| && Rectangular(nulls, nperm)
    requires Sorted(scores)
    ensures var t := RankedRows(scores, nulls, nperm);
      forall i :: 0 <= i < |t| ==> t[i].feature == i && t[i].localP == LocalPValue(nulls[t[i].feature], t[i].score, nperm)
  {
    SortPrefixOfSorted(scores, |scores|);
  }

  /**
   * The mismatch spelled out: feature 1 scores lowest and is listed first, so it is
   * judged against the null row of feature 0; against its own row its local p-value
   * would be 1/2.
   */
  lemma RankedRowsBorrowedNullExample()
    ensures var t := RankedRows([1.0, 0.0], [[5.0, 5.0], [-5.0, -5.0]], 2);
      && t[0].feature == 1 && t[0].localP == 1.0
      && LocalPValue([-5.0, -5.0], 0.0, 2) == 0.5
  {
    var scores := [1.0, 0.0];
    assert SortPrefix(scores, 1) == [0];
    assert Insert(scores, 1, [0]) == [1, 0];
    assert SortOrder(scores) == [1, 0];
    assert CountGreater([5.0, 5.0], 0.0) == 2 by {
      assert [5.0, 5.0][1..] == [5.0];
      assert [5.0][1..] == [];
    }
    assert CountGreater([-5.0, -5.0], 0.0) == 0;
  }

  /** The successful result, spelled out in terms of the specification pieces. */
  lemma ComputeUnfold(rows: seq<seq<real>>, ref: seq<real>, f: Metric, metric: string, nfeatures: NFeatures,
                      ascending: bool, nsampling: int, nperm: int, samples: seq<seq<nat>>, shuffles: seq<seq<nat>>)
    requires WellShaped(rows, ref) && DrawsFit(|ref|, nsampling, nperm, samples, shuffles)
    requires ComputeSpec(rows, ref, f, metric, nfeatures, ascending, nsampling, nperm, samples, shuffles).Ok?
    ensures |rows| > 0 && nperm > 0 && BootstrapOf(rows, ref, f, nfeatures, nsampling, samples).Ok?
    ensures MergedRows(|rows|, BootstrapOf(rows, ref, f, nfeatures, nsampling, samples).value) == |rows|
    ensures var t := ComputeSpec(rows, ref, f, metric, nfeatures, ascending, nsampling, nperm, samples, shuffles).value;
      && t.bootstrap == BootstrapOf(rows, ref, f, nfeatures, nsampling, samples).value
      && t.rows == Table(rows, ref, f, ascending, nperm, shuffles)
  {
  }

  /** Reversing the rows reverses the feature list, so it stays a permutation. */
  lemma ReversedFeatures(ranked: seq<ScoreRow>, n: nat)
    requires IsPermutation(FeatureOrder(ranked), n)
    ensures IsPermutation(FeatureOrder(Reverse(ranked)), n)
  {
    assert FeatureOrder(Reverse(ranked)) == Reverse(FeatureOrder(ranked));
    ReverseMultiset(FeatureOrder(ranked));
  }

  /** Rows that list every feature once in ascending score order do so in descending order once reversed. */
  lemma DescendingRows(ranked: seq<ScoreRow>, key: seq<real>)
    requires IsPermutation(FeatureOrder(ranked), |key|)
    requires forall i :: 0 <= i < |ranked| ==> ranked[i].feature < |key| && ranked[i].score == key[ranked[i].feature]
    requires forall i, j :: 0 <= i < j < |ranked| ==> ranked[i].score <= ranked[j].score
    ensures var t := Reverse(ranked);
      && IsPermutation(FeatureOrder(t), |key|)
      && (forall i :: 0 <= i < |t| ==> t[i].feature < |key| && t[i].score == key[t[i].feature])
      && (forall i, j :: 0 <= i < j < |t| ==> t[i].score >= t[j].score)
  {
    ReversedFeatures(ranked, |key|);
    ReversedScores(ranked, key);
    ReversedDescending(ranked);
  }

  /** Reversing the rows keeps every row's score the feature's own. */
  lemma ReversedScores(ranked: seq<ScoreRow>, key: seq<real>)
    requires forall i :: 0 <= i < |ranked| ==> ranked[i].feature < |key| && ranked[i].score == key[ranked[i].feature]
    ensures var t := Reverse(ranked);
      forall i :: 0 <= i < |t| ==> t[i].feature < |key| && t[i].score == key[t[i].feature]
  {
    var t := Reverse(ranked);
    forall i | 0 <= i < |t| ensures t[i].feature < |key| && t[i].score == key[t[i].feature] {
      assert t[i] == ranked[|t| - 1 - i];
    }
  }

  /** Reversing rows in ascending score order puts them in descending order. */
  lemma ReversedDescending(ranked: seq<ScoreRow>)
    requires forall i, j :: 0 <= i < j < |ranked| ==> ranked[i].score <= ranked[j].score
    ensures var t := Reverse(ranked);
      forall i, j :: 0 <= i < j < |t| ==> t[i].score >= t[j].score
  {
    var t := Reverse(ranked);
    forall i, j | 0 <= i < j < |t| ensures t[i].score >= t[j].score {
      assert t[i] == ranked[|t| - 1 - i] && t[j] == ranked[|t| - 1 - j];
    }
  }

  /** The table is in the requested direction and still lists every feature once, with its own score. */
  lemma TableOrder(rows: seq<seq<real>>, ref: seq<real>, f: Metric, ascending: bool, nperm: nat, shuffles: seq<seq<nat>>)
    requires WellShaped(rows, ref) && ValidShuffles(shuffles, nperm, |ref|) && |rows| > 0 && nperm > 0
    ensures var t := Table(rows, ref, f, ascending, nperm, shuffles);
      && IsPermutation(FeatureOrder(t), |rows|)
      && (forall i :: 0 <= i < |t| ==> t[i].feature < |rows| && t[i].score == f(rows[t[i].feature], ref))
      && (forall i, j :: 0 <= i < j < |t| ==> if ascending then t[i].score <= t[j].score else t[i].score >= t[j].score)
  {
    var scores := Scores(rows, ref, f);
    var nulls := Nulls(rows, ref, f, shuffles);
    var ranked := RankedRows(scores, nulls, nperm);
    RankedRowsOrder(scores, nulls, nperm);
    if !ascending {
      DescendingRows(ranked, scores);
    }
  }

  /** The p-value bounds hold for every row of the table, in either direction. */
  lemma TablePValueBounds(rows: seq<seq<real>>, ref: seq<real>, f: Metric, ascending: bool, nperm: nat, shuffles: seq<seq<nat>>)
    requires WellShaped(rows, ref) && ValidShuffles(shuffles, nperm, |ref|) && |rows| > 0 && nperm > 0
    ensures var t := Table(rows, ref, f, ascending, nperm, shuffles);
      forall i :: 0 <= i < |t| ==> PValueBounds(t[i], nperm, |rows|)
  {
    var ranked := RankedRows(Scores(rows, ref, f), Nulls(rows, ref, f, shuffles), nperm);
    RankedRowsPValueBounds(Scores(rows, ref, f), Nulls(rows, ref, f, shuffles), nperm);
    if !ascending {
      forall i | 0 <= i < |ranked| ensures PValueBounds(Reverse(ranked)[i], nperm, |rows|) {
        assert Reverse(ranked)[i] == ranked[|ranked| - 1 - i];
      }
    }
  }

  /** The q-value bounds hold for every row of the table, in either direction. */
  lemma TableFdrBounds(rows: seq<seq<real>>, ref: seq<real>, f: Metric, ascending: bool, nperm: nat, shuffles: seq<seq<nat>>)
    requires WellShaped(rows, ref) && ValidShuffles(shuffles, nperm, |ref|) && |rows| > 0 && nperm > 0
    ensures var t := Table(rows, ref, f, ascending, nperm, shuffles);
      forall i :: 0 <= i < |t| ==> FdrBounds(t[i])
  {
    var ranked := RankedRows(Scores(rows, ref, f), Nulls(rows, ref, f, shuffles), nperm);
    assert forall i :: 0 <= i < |ranked| ==> FdrBounds(ranked[i]) by {
      RankedRowsFdr(Scores(rows, ref, f), Nulls(rows, ref, f, shuffles), nperm);
    }
    if !ascending {
      forall i | 0 <= i < |ranked| ensures FdrBounds(Reverse(ranked)[i]) {
        assert Reverse(ranked)[i] == ranked[|ranked| - 1 - i];
      }
    }
  }

  /**
   * Which call fails, and with what: an unknown metric first, then a selection the
   * bootstrap cannot make, then a negative number of permutations, then a division by
   * zero when there is no feature or no permutation, then a selection of the top and
   * bottom n out of fewer than 2n features, whose repeats make the merged table longer
   * than the null matrix.
   */
  lemma ComputeErrors(rows: seq<seq<real>>, ref: seq<real>, f: Metric, metric: string, nfeatures: NFeatures,
                      ascending: bool, nsampling: int, nperm: int, samples: seq<seq<nat>>, shuffles: seq<seq<nat>>)
    requires WellShaped(rows, ref) && DrawsFit(|ref|, nsampling, nperm, samples, shuffles)
    ensures var r := ComputeSpec(rows, ref, f, metric, nfeatures, ascending, nsampling, nperm, samples, shuffles);
      var selectionFails := Decide(nsampling, |ref|).Run? && (Level(nfeatures) < 0.0 || (nfeatures.AsFloat? && nfeatures.fraction >= 1.0));
      var repeats := Decide(nsampling, |ref|).Run? && nfeatures.AsInt? && |rows| < 2 * nfeatures.count;
      && (metric != InformationCoef ==> r == Err(UnknownMetric))
      && (metric == InformationCoef && selectionFails ==>
            r == Err(if Level(nfeatures) < 1.0 then QuantileOutOfRange else NonIntegerCount))
      && (metric == InformationCoef && !selectionFails && nperm < 0 ==> r == Err(NegativeDimension))
      && (metric == InformationCoef && !selectionFails && nperm >= 0 && (|rows| == 0 || nperm == 0) ==> r == Err(ZeroDivision))
      && (metric == InformationCoef && !selectionFails && |rows| > 0 && nperm > 0 && repeats ==> r == Err(IndexOutOfBounds))
      && (r.Ok? <==> metric == InformationCoef && !selectionFails && |rows| > 0 && nperm > 0 && !repeats)
  {
    if metric == InformationCoef && |rows| > 0 && BootstrapOf(rows, ref, f, nfeatures, nsampling, samples).Ok? {
      BootstrapRepeats(rows, ref, f, nfeatures, nsampling, samples);
    }
  }

  /**
   * The merged table outgrows the null matrix exactly when the bootstrap runs with a
   * count n over fewer than 2n features.
   */
  lemma BootstrapRepeats(rows: seq<seq<real>>, ref: seq<real>, f: Metric, nfeatures: NFeatures, nsampling: int, samples: seq<seq<nat>>)
    requires WellShaped(rows, ref) && |rows| > 0
    requires Decide(nsampling, |ref|).Run? ==> ValidSamples(samples, nsampling as nat, SampleSize(|ref|), |ref|)
    requires BootstrapOf(rows, ref, f, nfeatures, nsampling, samples).Ok?
    ensures MergedRows(|rows|, BootstrapOf(rows, ref, f, nfeatures, nsampling, samples).value) > |rows|
        <==> Decide(nsampling, |ref|).Run? && nfeatures.AsInt? && |rows| < 2 * nfeatures.count
  {
    var b := BootstrapOf(rows, ref, f, nfeatures, nsampling, samples).value;
    if b.Bootstrapped? {
      var scores := Scores(rows, ref, f);
      assert Select(SortOrder(scores), scores, nfeatures) == Ok(b.features);
      SortOrderSorts(scores);
      PermutationFacts(SortOrder(scores), |scores|);
      SelectRepeats(SortOrder(scores), scores, nfeatures);
    }
  }

  /**
   * The bootstrap runs exactly when there are at least 2 samplings and 4 columns, and
   * then fails only on a selection it cannot make; when it succeeds it covers the
   * selected features with `nsampling` draws of ceil(0.632 * ncols) columns each,
   * scoring the feature and the reference on the same drawn columns.
   */
  lemma BootstrapOfFacts(rows: seq<seq<real>>, ref: seq<real>, f: Metric, nfeatures: NFeatures, nsampling: int, samples: seq<seq<nat>>)
    requires WellShaped(rows, ref)
    requires Decide(nsampling, |ref|).Run? ==> ValidSamples(samples, nsampling as nat, SampleSize(|ref|), |ref|)
    ensures var r := BootstrapOf(rows, ref, f, nfeatures, nsampling, samples);
      && (r.Err? <==> nsampling >= 2 && |ref| >= 4 && (Level(nfeatures) < 0.0 || (nfeatures.AsFloat? && nfeatures.fraction >= 1.0)))
      && (r.Ok? ==> (r.value.Bootstrapped? <==> nsampling >= 2 && |ref| >= 4))
      && (r.Ok? && r.value.Skipped? ==> r.value.reason == if nsampling < 2 then TooFewSamplings else TooFewSamples)
    ensures var r := BootstrapOf(rows, ref, f, nfeatures, nsampling, samples);
      var scores := Scores(rows, ref, f);
      r.Ok? && r.value.Bootstrapped? ==>
        var b := r.value;
        && Select(SortOrder(scores), scores, nfeatures) == Ok(b.features)
        && |b.samples| == nsampling
        && (forall c :: 0 <= c < |b.samples| ==> |b.samples[c]| == SampleSize(|ref|))
        && |b.replicates| == |b.features|
        && forall k, c :: 0 <= k < |b.features| && 0 <= c < |b.samples| ==>
             b.features[k] < |rows| && |b.replicates[k]| == |b.samples| &&
             b.replicates[k][c] == f(Subset(rows[b.features[k]], b.samples[c]), Subset(ref, b.samples[c]))
  {
  }
}
