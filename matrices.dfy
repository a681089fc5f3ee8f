/** Two-dimensional numpy arrays (`np.empty`, `np.zeros`) read back as sequences of rows. */
module Matrices {

  /** The rows of a matrix, as sequences. */
  function MatrixRows<T>(m: array2<T>): (r: seq<seq<T>>)
    reads m
    ensures |r| == m.Length0
    ensures forall j :: 0 <= j < m.Length0 ==> |r[j]| == m.Length1 && forall i :: 0 <= i < m.Length1 ==> r[j][i] == m[j, i]
  {
    seq(m.Length0, j requires 0 <= j < m.Length0 reads m =>
      seq(m.Length1, i requires 0 <= i < m.Length1 reads m => m[j, i]))
  }

  /** Two matrices of the same shape with the same entries are equal. */
  lemma MatrixEquality<T>(a: seq<seq<T>>, b: seq<seq<T>>)
    requires |a| == |b| && forall k :: 0 <= k < |a| ==> |a[k]| == |b[k]|
    requires forall k, c :: 0 <= k < |a| && 0 <= c < |a[k]| ==> a[k][c] == b[k][c]
    ensures a == b
  {
    forall k | 0 <= k < |a| ensures a[k] == b[k] {
    }
  }
}
