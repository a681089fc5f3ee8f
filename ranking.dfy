// The data handling of `rank_features_against_reference`: bring the feature table and the
// reference onto their common columns, drop features that are zero everywhere, optionally
// sort the reference, score, and pick the features to plot.

module Ranking {
  import opened Outcomes
  import opened Sorting
  import opened Selection
  import opened Engine
  import opened Resampling

  type Label = string

  /** A labelled table: one row of cells per row label, one cell per column label. */
  datatype Frame = Frame(rowLabels: seq<Label>, colLabels: seq<Label>, cells: seq<seq<real>>)

  /** A labelled vector. */
  datatype Series = Series(labels: seq<Label>, values: seq<real>)

  ghost predicate Distinct<T>(s: seq<T>) {
    forall i, j :: 0 <= i < j < |s| ==> s[i] != s[j]
  }

  ghost predicate FrameShaped(fr: Frame) {
    && |fr.cells| == |fr.rowLabels|
    && forall r :: 0 <= r < |fr.cells| ==> |fr.cells[r]| == |fr.colLabels|
  }

  ghost predicate SeriesShaped(s: Series) {
    |s.labels| == |s.values|
  }

  /** A reference with the same columns, in the same order, as the table. */
  ghost predicate Aligned(fr: Frame, ref: Series) {
    FrameShaped(fr) && SeriesShaped(ref) && fr.colLabels == ref.labels
  }

  /** A single Series passed as the features becomes a table with one row. */
  function SeriesAsFrame(name: Label, s: Series): (fr: Frame)
    requires SeriesShaped(s)
    ensures FrameShaped(fr) && |fr.rowLabels| == 1 && fr.colLabels == s.labels
  {
    Frame([name], s.labels, [s.values])
  }

  /** The features argument: a table, or a single Series (lines 210-211 make it a one-row table). */
  datatype FeatureInput = TableInput(frame: Frame) | SeriesInput(name: Label, series: Series)

  ghost predicate InputShaped(x: FeatureInput) {
    match x
    case TableInput(fr) => FrameShaped(fr)
    case SeriesInput(_, s) => SeriesShaped(s)
  }

  /** The table the wrapper works on, whichever form the features were passed in. */
  function AsFrame(x: FeatureInput): (fr: Frame)
    requires InputShaped(x)
    ensures FrameShaped(fr)
    ensures x.TableInput? ==> fr == x.frame
    ensures x.SeriesInput? ==> |fr.rowLabels| == 1 && fr.colLabels == x.series.labels
  {
    match x
    case TableInput(fr) => fr
    case SeriesInput(name, s) => SeriesAsFrame(name, s)
  }

  // ---------------------------------------------------------------- common columns

  /** The table's columns that the reference also has, in the table's column order. */
  function CommonColumns(cols: seq<Label>, refLabels: seq<Label>): (c: seq<Label>)
    ensures forall x :: x in c <==> x in cols && x in refLabels
    ensures Distinct(cols) ==> Distinct(c)
  {
    if cols == [] then []
    else
      var rest := CommonColumns(cols[1..], refLabels);
      assert forall x :: x in cols[1..] ==> x in cols;
      if cols[0] in refLabels then
        assert Distinct(cols) ==> cols[0] !in cols[1..];
        [cols[0]] + rest
      else rest
  }

  /** Columns picked (and ordered) by label, as `.ix[:, labels]` and `.reindex_axis` do. */
  function PickColumns(fr: Frame, keep: seq<Label>): (out: Frame)
    requires FrameShaped(fr) && forall x :: x in keep ==> x in fr.colLabels
    ensures FrameShaped(out) && out.rowLabels == fr.rowLabels && out.colLabels == keep
    ensures Distinct(fr.colLabels) ==>
      forall r, k, c :: 0 <= r < |out.cells| && 0 <= k < |keep| && 0 <= c < |fr.colLabels| && fr.colLabels[c] == keep[k] ==>
        out.cells[r][k] == fr.cells[r][c]
  {
    var cols := seq(|keep|, k requires 0 <= k < |keep| => IndexOf(fr.colLabels, keep[k]));
    Frame(fr.rowLabels, keep,
      seq(|fr.cells|, r requires 0 <= r < |fr.cells| =>
        seq(|keep|, k requires 0 <= k < |keep| => fr.cells[r][cols[k]])))
  }

  /** Entries picked (and ordered) by label, as `.ix[labels]` does on a Series. */
  function PickEntries(s: Series, keep: seq<Label>): (out: Series)
    requires SeriesShaped(s) && forall x :: x in keep ==> x in s.labels
    ensures SeriesShaped(out) && out.labels == keep
    ensures Distinct(s.labels) ==>
      forall k, c :: 0 <= k < |keep| && 0 <= c < |s.labels| && s.labels[c] == keep[k] ==> out.values[k] == s.values[c]
  {
    Series(keep, seq(|keep|, k requires 0 <= k < |keep| => s.values[IndexOf(s.labels, keep[k])]))
  }

  // ---------------------------------------------------------------- all-zero rows

  predicate HasNonzero(row: seq<real>) {
    exists c :: 0 <= c < |row| && row[c] != 0.0
  }

  /** The positions among the first n rows that hold a nonzero value, in increasing order. */
  function NonzeroRows(cells: seq<seq<real>>, n: nat): (kept: seq<nat>)
    requires n <= |cells|
    ensures forall i :: 0 <= i < |kept| ==> kept[i] < n
    ensures forall i, j :: 0 <= i < j < |kept| ==> kept[i] < kept[j]
    ensures forall r: nat :: r in kept <==> r < n && HasNonzero(cells[r])
  {
    if n == 0 then []
    else
      var rest := NonzeroRows(cells, n - 1);
      if HasNonzero(cells[n - 1]) then
        var kept := rest + [n - 1];
        assert forall i :: 0 <= i < |rest| ==> kept[i] == rest[i];
        kept
      else rest
  }

  /** The rows at the given positions, in that order. */
  function PickRows(fr: Frame, rows: seq<nat>): (out: Frame)
    requires FrameShaped(fr) && forall i :: 0 <= i < |rows| ==> rows[i] < |fr.cells|
    ensures FrameShaped(out) && out.colLabels == fr.colLabels && |out.cells| == |rows|
    ensures forall i :: 0 <= i < |rows| ==> out.rowLabels[i] == fr.rowLabels[rows[i]] && out.cells[i] == fr.cells[rows[i]]
  {
    Frame(RowLabels(fr, rows), fr.colLabels, seq(|rows|, i requires 0 <= i < |rows| => fr.cells[rows[i]]))
  }

  /** The labels of the given row positions, in the given order. */
  function RowLabels(fr: Frame, rows: seq<nat>): (names: seq<Label>)
    requires FrameShaped(fr) && forall i :: 0 <= i < |rows| ==> rows[i] < |fr.cells|
    ensures |names| == |rows| && forall i :: 0 <= i < |rows| ==> names[i] == fr.rowLabels[rows[i]]
  {
    seq(|rows|, i requires 0 <= i < |rows| => fr.rowLabels[rows[i]])
  }

  /** Labelling the first and last k positions of an order labels the first and last k of its labels. */
  lemma RowLabelsOfTails(fr: Frame, rows: seq<nat>, k: nat)
    requires FrameShaped(fr) && (forall i :: 0 <= i < |rows| ==> rows[i] < |fr.cells|) && k <= |rows|
    ensures var names := RowLabels(fr, rows);
      RowLabels(fr, rows[..k] + rows[|rows| - k..]) == names[..k] + names[|names| - k..]
  {
    var names := RowLabels(fr, rows);
    var tails := rows[..k] + rows[|rows| - k..];
    var lhs, rhs := RowLabels(fr, tails), names[..k] + names[|names| - k..];
    forall i | 0 <= i < 2 * k ensures lhs[i] == rhs[i] {
      if i < k {
        assert tails[i] == rows[i];
      } else {
        assert tails[i] == rows[|rows| - 2 * k + i];
      }
    }
  }

  /** `features.ix[(features != 0).any(axis=1)]`. */
  function DropZeroRows(fr: Frame): (out: Frame)
    requires FrameShaped(fr)
    ensures FrameShaped(out) && out.colLabels == fr.colLabels
  {
    PickRows(fr, NonzeroRows(fr.cells, |fr.cells|))
  }

  // ---------------------------------------------------------------- sorting the reference

  /** The positions of the reference in `sort_values` order. */
  function ValueOrder(values: seq<real>, ascending: bool): (o: seq<nat>)
    ensures IsPermutation(o, |values|) && InBounds(o, |values|)
    ensures forall i, j :: 0 <= i < j < |o| ==> if ascending then values[o[i]] <= values[o[j]] else values[o[i]] >= values[o[j]]
  {
    var o := SortOrder(values);
    SortOrderSorts(values);
    if ascending then o
    else
      ReverseMultiset(o);
      ReverseSortedIsDescending(values, o);
      Reverse(o)
  }

  /** `ref.sort_values(ascending=...)`: labels travel with their values. */
  function SortSeries(s: Series, ascending: bool): (out: Series)
    requires SeriesShaped(s)
    ensures SeriesShaped(out) && |out.labels| == |s.labels|
    ensures forall x :: x in out.labels <==> x in s.labels
  {
    var o := ValueOrder(s.values, ascending);
    GatherPermutation(s.labels, o);
    Series(Gather(s.labels, o), Gather(s.values, o))
  }

  // ---------------------------------------------------------------- the wrapper

  /** The inputs to scoring: the table and the reference after lines 213-230. */
  datatype Prepared = Prepared(features: Frame, ref: Series)

  function Prepare(features: Frame, ref: Series, refAscending: bool, refSort: bool): (r: Result<Prepared>)
    requires FrameShaped(features) && SeriesShaped(ref)
    ensures r.Err? <==> CommonColumns(features.colLabels, ref.labels) == []
    ensures r.Err? ==> r.error == EmptyIntersection
    ensures r.Ok? ==> Aligned(r.value.features, r.value.ref)
  {
    var common := CommonColumns(features.colLabels, ref.labels);
    if common == [] then Err(EmptyIntersection)
    else
      var fr := DropZeroRows(PickColumns(features, common));
      var rf := PickEntries(ref, common);
      if refSort then
        var sorted := SortSeries(rf, refAscending);
        Ok(Prepared(PickColumns(fr, sorted.labels), sorted))
      else Ok(Prepared(fr, rf))
  }

  /** What the wrapper hands to the plot: the rows in score-table order, the reference, the scores, and which rows to plot. */
  datatype Ranked = Ranked(features: Frame, ref: Series, scores: ScoreTable, plotted: seq<Label>)

  /** Lines 231-262 after scoring: rows in table order and the rows picked for the plot. */
  function Finish(p: Prepared, table: ScoreTable, f: Metric, nfeatures: NFeatures): (r: Result<Ranked>)
    requires Aligned(p.features, p.ref)
    requires InBounds(FeatureOrder(table.rows), |p.features.cells|)
  {
    var scores := Scores(p.features.cells, p.ref.values, f);
    var picked :- Select(FeatureOrder(table.rows), scores, nfeatures);
    Ok(Ranked(PickRows(p.features, FeatureOrder(table.rows)), p.ref, table, RowLabels(p.features, picked)))
  }

  /** `rank_features_against_reference` up to the plot, as a function of its inputs and draws. */
  function RankSpec(features: Frame, ref: Series, f: Metric, metric: string, nfeatures: NFeatures,
                    featuresAscending: bool, refAscending: bool, refSort: bool, nsampling: int, nperm: int,
                    samples: seq<seq<nat>>, shuffles: seq<seq<nat>>): (r: Result<Ranked>)
    requires FrameShaped(features) && SeriesShaped(ref)
    requires DrawsFit(|CommonColumns(features.colLabels, ref.labels)|, nsampling, nperm, samples, shuffles)
  {
    var p :- Prepare(features, ref, refAscending, refSort);
    PrepareShape(features, ref, refAscending, refSort);
    var table :- ComputeSpec(p.features.cells, p.ref.values, f, metric, nfeatures, featuresAscending, nsampling, nperm, samples, shuffles);
    TableOrderOf(p.features.cells, p.ref.values, f, metric, nfeatures, featuresAscending, nsampling, nperm, samples, shuffles);
    Finish(p, table, f, nfeatures)
  }

  method RankFeaturesAgainstReference(input: FeatureInput, ref: Series, f: Metric, metric: string, nfeatures: NFeatures,
                                      featuresAscending: bool, refAscending: bool, refSort: bool, nsampling: int, nperm: int,
                                      samples: seq<seq<nat>>, shuffles: seq<seq<nat>>) returns (r: Result<Ranked>)
    requires InputShaped(input) && SeriesShaped(ref)
    requires DrawsFit(|CommonColumns(AsFrame(input).colLabels, ref.labels)|, nsampling, nperm, samples, shuffles)
    ensures r == RankSpec(AsFrame(input), ref, f, metric, nfeatures, featuresAscending, refAscending, refSort, nsampling, nperm, samples, shuffles)
  {
    var features: Frame;
    if input.SeriesInput? {
      features := SeriesAsFrame(input.name, input.series);
    } else {
      features := input.frame;
    }
    var prepared := Prepare(features, ref, refAscending, refSort);
    if prepared.Err? {
      return Err(prepared.error);
    }
    var p := prepared.value;
    PrepareShape(features, ref, refAscending, refSort);
    var computed := ComputeAgainstReference(p.features.cells, p.ref.values, f, metric, nfeatures, featuresAscending,
                                            nsampling, nperm, samples, shuffles);
    if computed.Err? {
      return Err(computed.error);
    }
    TableOrderOf(p.features.cells, p.ref.values, f, metric, nfeatures, featuresAscending, nsampling, nperm, samples, shuffles);
    r := Finish(p, computed.value, f, nfeatures);
  }

  // ---------------------------------------------------------------- properties

  /** After preparation the table and the reference are as wide as the columns the two inputs share. */
  lemma PrepareShape(features: Frame, ref: Series, refAscending: bool, refSort: bool)
    requires FrameShaped(features) && SeriesShaped(ref)
    requires Prepare(features, ref, refAscending, refSort).Ok?
    ensures var p := Prepare(features, ref, refAscending, refSort).value;
      && WellShaped(p.features.cells, p.ref.values)
      && |p.ref.values| == |CommonColumns(features.colLabels, ref.labels)|
  {
  }

  lemma TableOrderOf(rows: seq<seq<real>>, ref: seq<real>, f: Metric, metric: string, nfeatures: NFeatures,
                     ascending: bool, nsampling: int, nperm: int, samples: seq<seq<nat>>, shuffles: seq<seq<nat>>)
    requires WellShaped(rows, ref) && DrawsFit(|ref|, nsampling, nperm, samples, shuffles)
    ensures var r := ComputeSpec(rows, ref, f, metric, nfeatures, ascending, nsampling, nperm, samples, shuffles);
      r.Ok? ==> InBounds(FeatureOrder(r.value.rows), |rows|) && |FeatureOrder(r.value.rows)| == |rows|
  {
    var r := ComputeSpec(rows, ref, f, metric, nfeatures, ascending, nsampling, nperm, samples, shuffles);
    if r.Ok? {
      ComputeUnfold(rows, ref, f, metric, nfeatures, ascending, nsampling, nperm, samples, shuffles);
      TableOrder(rows, ref, f, ascending, nperm, shuffles);
    }
  }

  /** The input positions of the rows that survive, in input order. */
  function KeptRows(features: Frame, ref: Series): (kept: seq<nat>)
    requires FrameShaped(features)
    ensures forall i :: 0 <= i < |kept| ==> kept[i] < |features.cells|
  {
    NonzeroRows(PickColumns(features, CommonColumns(features.colLabels, ref.labels)).cells, |features.cells|)
  }

  /**
   * Both inputs end up on exactly the columns they share, the reference labelled as the
   * table's columns, and the table keeps the surviving rows in input order, each with a
   * nonzero value.
   */
  lemma PrepareColumns(features: Frame, ref: Series, refAscending: bool, refSort: bool)
    requires FrameShaped(features) && SeriesShaped(ref) && Distinct(features.colLabels)
    requires Prepare(features, ref, refAscending, refSort).Ok?
    ensures var p := Prepare(features, ref, refAscending, refSort).value;
      var kept := KeptRows(features, ref);
      && (forall x :: x in p.features.colLabels <==> x in features.colLabels && x in ref.labels)
      && p.ref.labels == p.features.colLabels
      && |p.features.cells| == |kept|
      && (forall i, j :: 0 <= i < j < |kept| ==> kept[i] < kept[j])
      && (forall r :: 0 <= r < |kept| ==> p.features.rowLabels[r] == features.rowLabels[kept[r]] && HasNonzero(p.features.cells[r]))
  {
    var common := CommonColumns(features.colLabels, ref.labels);
    var picked := PickColumns(features, common);
    var fr := DropZeroRows(picked);
    var rf := PickEntries(ref, common);
    var kept := KeptRows(features, ref);
    var p := Prepare(features, ref, refAscending, refSort).value;
    assert fr == PickRows(picked, kept);
    assert forall r :: 0 <= r < |kept| ==> HasNonzero(fr.cells[r]) by {
      forall r | 0 <= r < |kept| ensures HasNonzero(fr.cells[r]) {
        assert kept[r] in kept;
      }
    }
    if refSort {
      var sorted := SortSeries(rf, refAscending);
      assert p.features == PickColumns(fr, sorted.labels);
      forall r | 0 <= r < |kept| ensures HasNonzero(p.features.cells[r]) {
        var c :| 0 <= c < |fr.cells[r]| && fr.cells[r][c] != 0.0;
        assert fr.colLabels[c] in sorted.labels;
        var k := IndexOf(sorted.labels, fr.colLabels[c]);
        assert p.features.cells[r][k] == fr.cells[r][c];
      }
    }
  }

  /**
   * A row is dropped exactly when it is zero in every shared column; the columns the
   * reference lacks play no part.
   */
  lemma DroppedRowsAreZero(features: Frame, ref: Series, i: nat)
    requires FrameShaped(features) && Distinct(features.colLabels) && i < |features.cells|
    ensures i !in KeptRows(features, ref) <==>
      forall c :: 0 <= c < |features.colLabels| && features.colLabels[c] in ref.labels ==> features.cells[i][c] == 0.0
  {
    var common := CommonColumns(features.colLabels, ref.labels);
    var picked := PickColumns(features, common);
    if i !in KeptRows(features, ref) {
      forall c | 0 <= c < |features.colLabels| && features.colLabels[c] in ref.labels ensures features.cells[i][c] == 0.0 {
        var k := IndexOf(common, features.colLabels[c]);
        assert picked.cells[i][k] == features.cells[i][c];
      }
    } else {
      var k :| 0 <= k < |picked.cells[i]| && picked.cells[i][k] != 0.0;
      var c := IndexOf(features.colLabels, common[k]);
      assert picked.cells[i][k] == features.cells[i][c];
    }
  }

  /**
   * Every cell and every reference value is carried over under its own label: the cell of
   * surviving row r in column k is the input cell of the same row under the same column
   * label, and the reference value in column k is the input reference value under that label.
   */
  lemma PrepareCells(features: Frame, ref: Series, refAscending: bool, refSort: bool, r: nat, k: nat, c: nat, c': nat)
    requires FrameShaped(features) && SeriesShaped(ref) && Distinct(features.colLabels) && Distinct(ref.labels)
    requires Prepare(features, ref, refAscending, refSort).Ok?
    requires var p := Prepare(features, ref, refAscending, refSort).value;
      && r < |p.features.cells| && k < |p.features.colLabels| && c < |features.colLabels| && c' < |ref.labels|
      && features.colLabels[c] == p.features.colLabels[k] && ref.labels[c'] == p.features.colLabels[k]
    ensures r < |KeptRows(features, ref)|
    ensures var p := Prepare(features, ref, refAscending, refSort).value;
      && p.features.cells[r][k] == features.cells[KeptRows(features, ref)[r]][c]
      && p.ref.values[k] == ref.values[c']
  {
    var common := CommonColumns(features.colLabels, ref.labels);
    var picked := PickColumns(features, common);
    var fr := DropZeroRows(picked);
    var rf := PickEntries(ref, common);
    var kept := KeptRows(features, ref);
    var p := Prepare(features, ref, refAscending, refSort).value;
    assert fr == PickRows(picked, kept);
    var name := features.colLabels[c];
    if refSort {
      var sorted := SortSeries(rf, refAscending);
      var o := ValueOrder(rf.values, refAscending);
      assert p.features == PickColumns(fr, sorted.labels) && p.ref == sorted;
      var c0 := IndexOf(common, name);
      assert p.features.cells[r][k] == fr.cells[r][c0];
      assert fr.cells[r][c0] == picked.cells[kept[r]][c0];
      assert p.ref.values[k] == rf.values[o[k]] && rf.labels[o[k]] == name;
    } else {
      assert p.features == fr && p.ref == rf;
      assert fr.cells[r][k] == picked.cells[kept[r]][k];
    }
  }

  /** With sorting on, the reference comes out in the requested order. */
  lemma PrepareSortsReference(features: Frame, ref: Series, refAscending: bool, refSort: bool)
    requires FrameShaped(features) && SeriesShaped(ref)
    requires Prepare(features, ref, refAscending, refSort).Ok? && refSort
    ensures var v := Prepare(features, ref, refAscending, refSort).value.ref.values;
      forall i, j :: 0 <= i < j < |v| ==> if refAscending then v[i] <= v[j] else v[i] >= v[j]
  {
    var common := CommonColumns(features.colLabels, ref.labels);
    var rf := PickEntries(ref, common);
    var o := ValueOrder(rf.values, refAscending);
    assert Prepare(features, ref, refAscending, refSort).value.ref.values == Gather(rf.values, o);
  }

  /**
   * The wrapper fails first on an empty column intersection, then on anything the
   * scoring refuses, and last on a plot selection it cannot make.
   */
  lemma RankErrors(features: Frame, ref: Series, f: Metric, metric: string, nfeatures: NFeatures,
                   featuresAscending: bool, refAscending: bool, refSort: bool, nsampling: int, nperm: int,
                   samples: seq<seq<nat>>, shuffles: seq<seq<nat>>)
    requires FrameShaped(features) && SeriesShaped(ref)
    requires DrawsFit(|CommonColumns(features.colLabels, ref.labels)|, nsampling, nperm, samples, shuffles)
    ensures var r := RankSpec(features, ref, f, metric, nfeatures, featuresAscending, refAscending, refSort, nsampling, nperm, samples, shuffles);
      && (CommonColumns(features.colLabels, ref.labels) == [] ==> r == Err(EmptyIntersection))
      && (CommonColumns(features.colLabels, ref.labels) != [] && metric != InformationCoef ==> r == Err(UnknownMetric))
      && (CommonColumns(features.colLabels, ref.labels) != [] && metric == InformationCoef && Level(nfeatures) < 0.0 ==>
            r.Err? && r.error in {QuantileOutOfRange, ZeroDivision, NegativeDimension})
      && (CommonColumns(features.colLabels, ref.labels) != [] && metric == InformationCoef && nperm < 0 ==>
            r.Err? && r.error in {QuantileOutOfRange, NonIntegerCount, NegativeDimension})
      && (CommonColumns(features.colLabels, ref.labels) != [] && metric == InformationCoef && nperm > 0
          && Decide(nsampling, |CommonColumns(features.colLabels, ref.labels)|).Run? && nfeatures.AsInt?
          && 1 <= |Prepare(features, ref, refAscending, refSort).value.features.cells| < 2 * nfeatures.count ==>
            r == Err(IndexOutOfBounds))
  {
    var common := CommonColumns(features.colLabels, ref.labels);
    if common != [] {
      var p := Prepare(features, ref, refAscending, refSort).value;
      PrepareShape(features, ref, refAscending, refSort);
      var c := ComputeSpec(p.features.cells, p.ref.values, f, metric, nfeatures, featuresAscending, nsampling, nperm, samples, shuffles);
      ComputeErrors(p.features.cells, p.ref.values, f, metric, nfeatures, featuresAscending, nsampling, nperm, samples, shuffles);
      if c.Ok? {
        TableOrderOf(p.features.cells, p.ref.values, f, metric, nfeatures, featuresAscending, nsampling, nperm, samples, shuffles);
      }
    }
  }

  /** A fractional threshold of 1 or more never lets the wrapper succeed: the plot slice refuses it. */
  lemma RankRefusesLargeFraction(features: Frame, ref: Series, f: Metric, metric: string, nfeatures: NFeatures,
                                 featuresAscending: bool, refAscending: bool, refSort: bool, nsampling: int, nperm: int,
                                 samples: seq<seq<nat>>, shuffles: seq<seq<nat>>)
    requires FrameShaped(features) && SeriesShaped(ref)
    requires DrawsFit(|CommonColumns(features.colLabels, ref.labels)|, nsampling, nperm, samples, shuffles)
    requires nfeatures.AsFloat? && nfeatures.fraction >= 1.0
    ensures RankSpec(features, ref, f, metric, nfeatures, featuresAscending, refAscending, refSort, nsampling, nperm, samples, shuffles).Err?
  {
    var common := CommonColumns(features.colLabels, ref.labels);
    if common != [] {
      var p := Prepare(features, ref, refAscending, refSort).value;
      PrepareShape(features, ref, refAscending, refSort);
      var c := ComputeSpec(p.features.cells, p.ref.values, f, metric, nfeatures, featuresAscending, nsampling, nperm, samples, shuffles);
      if c.Ok? {
        TableOrderOf(p.features.cells, p.ref.values, f, metric, nfeatures, featuresAscending, nsampling, nperm, samples, shuffles);
      }
    }
  }

  /** A successful call is `Finish` applied to the prepared inputs and their score table. */
  lemma RankUnfold(features: Frame, ref: Series, f: Metric, metric: string, nfeatures: NFeatures,
                   featuresAscending: bool, refAscending: bool, refSort: bool, nsampling: int, nperm: int,
                   samples: seq<seq<nat>>, shuffles: seq<seq<nat>>)
    requires FrameShaped(features) && SeriesShaped(ref)
    requires DrawsFit(|CommonColumns(features.colLabels, ref.labels)|, nsampling, nperm, samples, shuffles)
    requires RankSpec(features, ref, f, metric, nfeatures, featuresAscending, refAscending, refSort, nsampling, nperm, samples, shuffles).Ok?
    ensures Prepare(features, ref, refAscending, refSort).Ok?
    ensures var p := Prepare(features, ref, refAscending, refSort).value;
      && WellShaped(p.features.cells, p.ref.values)
      && DrawsFit(|p.ref.values|, nsampling, nperm, samples, shuffles)
      && ComputeSpec(p.features.cells, p.ref.values, f, metric, nfeatures, featuresAscending, nsampling, nperm, samples, shuffles).Ok?
    ensures var p := Prepare(features, ref, refAscending, refSort).value;
      var table := ComputeSpec(p.features.cells, p.ref.values, f, metric, nfeatures, featuresAscending, nsampling, nperm, samples, shuffles).value;
      && InBounds(FeatureOrder(table.rows), |p.features.cells|)
      && |table.rows| == |p.features.cells|
      && RankSpec(features, ref, f, metric, nfeatures, featuresAscending, refAscending, refSort, nsampling, nperm, samples, shuffles)
         == Finish(p, table, f, nfeatures)
  {
    PrepareShape(features, ref, refAscending, refSort);
    var p := Prepare(features, ref, refAscending, refSort).value;
    TableOrderOf(p.features.cells, p.ref.values, f, metric, nfeatures, featuresAscending, nsampling, nperm, samples, shuffles);
  }

  /**
   * The plot rows for a count n: the labels of the first and last min(n, rows) rows of the
   * score table's order; the returned table lists its rows in that order under their labels.
   */
  lemma FinishPlotsTopAndBottom(p: Prepared, table: ScoreTable, f: Metric, n: int)
    requires Aligned(p.features, p.ref) && InBounds(FeatureOrder(table.rows), |p.features.cells|) && n >= 1
    ensures Finish(p, table, f, AsInt(n)).Ok?
    ensures var out := Finish(p, table, f, AsInt(n)).value;
      var names := out.features.rowLabels;
      var k := Min(n, |names|);
      && |names| == |table.rows|
      && (forall i :: 0 <= i < |names| ==> names[i] == p.features.rowLabels[FeatureOrder(table.rows)[i]])
      && out.plotted == names[..k] + names[|names| - k..]
  {
    var order := FeatureOrder(table.rows);
    assert CountSelect(order, n) == order[..Min(n, |order|)] + order[|order| - Min(n, |order|)..];
    RowLabelsOfTails(p.features, order, Min(n, |order|));
  }

  /** With a quantile of at most 1/2 every row of the table is plotted, in the table's order. */
  lemma FinishPlotsAllAtHalf(p: Prepared, table: ScoreTable, f: Metric, q: real)
    requires Aligned(p.features, p.ref) && InBounds(FeatureOrder(table.rows), |p.features.cells|) && 0.0 <= q <= 0.5
    ensures Finish(p, table, f, AsFloat(q)).Ok?
    ensures var out := Finish(p, table, f, AsFloat(q)).value;
      out.plotted == out.features.rowLabels
  {
    var order := FeatureOrder(table.rows);
    QuantileSelectAll(order, Scores(p.features.cells, p.ref.values, f), q);
  }
}
