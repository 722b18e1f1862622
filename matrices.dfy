/** The matrix half of the calculator's numerical engine: minors, the
    determinant by cofactor expansion along the first row, transpose,
    cofactors, the adjoint and the inverse with its singular outcome.
    JavaScript numbers are modelled as exact reals. */
module Matrices {

  datatype Option<T> = None | Some(value: T)

  /** Row-major matrix: a sequence of rows. */
  type Matrix = seq<seq<real>>

  /** Threshold below which a determinant counts as zero for inversion. */
  const Epsilon: real := 0.0000000001

  predicate IsRect(m: Matrix, rows: nat, cols: nat)
  {
    |m| == rows && forall i :: 0 <= i < rows ==> |m[i]| == cols
  }

  predicate IsSquare(m: Matrix, n: nat)
  {
    IsRect(m, n, n)
  }

  function Abs(x: real): real
  {
    if x < 0.0 then -x else x
  }

  /** The cofactor sign: +1 for an even index sum, -1 for an odd one. */
  function Sign(k: nat): real
  {
    if k % 2 == 0 then 1.0 else -1.0
  }

  /** Index of the i-th surviving position once position k is deleted. */
  function Skip(i: nat, k: nat): nat
  {
    if i < k then i else i + 1
  }

  /** The matrix left after deleting one row and one column: entry (i, j)
      is the input's entry at the i-th row other than `row` and the j-th
      column other than `col`. */
  function Minor(m: Matrix, row: nat, col: nat): (r: Matrix)
    requires IsSquare(m, |m|) && row < |m| && col < |m|
    ensures IsSquare(r, |m| - 1)
    ensures forall i, j :: 0 <= i < |m| - 1 && 0 <= j < |m| - 1 ==>
              r[i][j] == m[Skip(i, row)][Skip(j, col)]
  {
    seq(|m| - 1, i requires 0 <= i < |m| - 1 =>
      seq(|m| - 1, j requires 0 <= j < |m| - 1 => m[Skip(i, row)][Skip(j, col)]))
  }

  /** The determinant as the engine computes it: the sole entry for size 1,
      ad - bc for size 2, and otherwise the cofactor expansion along row 0.
      A 0x0 matrix falls through both base cases to an empty sum, 0. */
  function Det(m: Matrix): real
    requires IsSquare(m, |m|)
    decreases |m|, 1
  {
    if |m| == 1 then m[0][0]
    else if |m| == 2 then Det2x2(m)
    else ExpansionSum(m, |m|)
  }

  function Det2x2(m: Matrix): real
    requires IsSquare(m, 2)
  {
    m[0][0] * m[1][1] - m[0][1] * m[1][0]
  }

  /** The accumulated value after the expansion loop has handled columns 0..k-1. */
  function ExpansionSum(m: Matrix, k: nat): real
    requires IsSquare(m, |m|) && k <= |m|
    decreases |m|, 0, k
  {
    if k == 0 then 0.0
    else ExpansionSum(m, k - 1) + ExpansionTerm(m, k - 1)
  }

  /** Column j's contribution: the entry times its minor's determinant times
      the alternating sign. */
  function ExpansionTerm(m: Matrix, j: nat): real
    requires IsSquare(m, |m|) && j < |m|
    decreases |m|, 0, j
  {
    m[0][j] * Det(Minor(m, 0, j)) * Sign(j)
  }

  /** The engine's recursive determinant: base cases, then a loop over the
      columns of row 0 that accumulates signed products with the minors'
      determinants. */
  method CalculateDeterminant(mat: Matrix) returns (det: real)
    requires IsSquare(mat, |mat|)
    ensures det == Det(mat)
    decreases |mat|
  {
    var n := |mat|;
    if n == 1 {
      return mat[0][0];
    }
    if n == 2 {
      return mat[0][0] * mat[1][1] - mat[0][1] * mat[1][0];
    }
    det := 0.0;
    for j := 0 to n
      invariant det == ExpansionSum(mat, j)
    {
      var minor := Minor(mat, 0, j);
      var minorDet := CalculateDeterminant(minor);
      ExpansionSumStep(mat, j, minorDet);
      det := det + mat[0][j] * minorDet * Sign(j);
    }
  }

  /** One more column of the expansion, with the minor's determinant known. */
  lemma ExpansionSumStep(m: Matrix, j: nat, minorDet: real)
    requires IsSquare(m, |m|) && j < |m| && minorDet == Det(Minor(m, 0, j))
    ensures ExpansionSum(m, j + 1) == ExpansionSum(m, j) + m[0][j] * minorDet * Sign(j)
  {
  }

  /** Swaps rows and columns; the first row fixes the number of columns. */
  function Transpose(m: Matrix): (t: Matrix)
    requires |m| > 0 && IsRect(m, |m|, |m[0]|)
    ensures IsRect(t, |m[0]|, |m|)
    ensures forall i, j :: 0 <= i < |m[0]| && 0 <= j < |m| ==> t[i][j] == m[j][i]
  {
    seq(|m[0]|, i requires 0 <= i < |m[0]| => seq(|m|, j requires 0 <= j < |m| => m[j][i]))
  }

  /** The signed determinant of the minor at (row, col). */
  function Cofactor(m: Matrix, row: nat, col: nat): (r: real)
    requires IsSquare(m, |m|) && row < |m| && col < |m|
    ensures (row + col) % 2 == 0 ==> r == Det(Minor(m, row, col))
    ensures (row + col) % 2 == 1 ==> r == -Det(Minor(m, row, col))
  {
    Det(Minor(m, row, col)) * Sign(row + col)
  }

  /** The matrix of all cofactors. */
  function CofactorMatrix(m: Matrix): (c: Matrix)
    requires IsSquare(m, |m|)
    ensures IsSquare(c, |m|)
    ensures forall i, j :: 0 <= i < |m| && 0 <= j < |m| ==> c[i][j] == Cofactor(m, i, j)
  {
    seq(|m|, i requires 0 <= i < |m| => seq(|m|, j requires 0 <= j < |m| => Cofactor(m, i, j)))
  }

  /** The adjoint (adjugate): [[1]] for a 1x1 matrix, otherwise the
      transposed cofactor matrix. */
  function Adjoint(m: Matrix): (a: Matrix)
    requires IsSquare(m, |m|) && |m| >= 1
    ensures IsSquare(a, |m|)
    ensures |m| == 1 ==> a == [[1.0]]
    ensures |m| >= 2 ==>
              forall i, j :: 0 <= i < |m| && 0 <= j < |m| ==> a[i][j] == Cofactor(m, j, i)
  {
    if |m| == 1 then [[1.0]] else Transpose(CofactorMatrix(m))
  }

  /** The rows of a two-dimensional array, as a matrix value. */
  function Rows(a: array2<real>): (m: Matrix)
    reads a
    ensures IsRect(m, a.Length0, a.Length1)
    ensures forall i, j :: 0 <= i < a.Length0 && 0 <= j < a.Length1 ==> m[i][j] == a[i, j]
  {
    seq(a.Length0, i requires 0 <= i < a.Length0 reads a =>
      seq(a.Length1, j requires 0 <= j < a.Length1 reads a => a[i, j]))
  }

  /** The engine's adjoint: a zero-filled n x n buffer receives every
      cofactor in two nested loops and is then transposed. */
  method CalculateAdjoint(mat: Matrix) returns (adj: Matrix)
    requires IsSquare(mat, |mat|) && |mat| >= 1
    ensures adj == Adjoint(mat)
  {
    var n := |mat|;
    if n == 1 {
      return [[1.0]];
    }
    ghost var expected := CofactorMatrix(mat);
    var cofactors := new real[n, n]((_, _) => 0.0);
    for i := 0 to n
      invariant forall r, c :: 0 <= r < i && 0 <= c < n ==> cofactors[r, c] == expected[r][c]
    {
      for j := 0 to n
        invariant forall r, c :: 0 <= r < i && 0 <= c < n ==> cofactors[r, c] == expected[r][c]
        invariant forall c :: 0 <= c < j ==> cofactors[i, c] == expected[i][c]
      {
        cofactors[i, j] := Cofactor(mat, i, j);
      }
    }
    FilledCofactors(mat, cofactors);
    adj := Transpose(Rows(cofactors));
  }

  /** A buffer holding every cofactor reads back as the cofactor matrix. */
  lemma FilledCofactors(m: Matrix, a: array2<real>)
    requires IsSquare(m, |m|) && a.Length0 == |m| && a.Length1 == |m|
    requires forall r, c :: 0 <= r < |m| && 0 <= c < |m| ==> a[r, c] == CofactorMatrix(m)[r][c]
    ensures Rows(a) == CofactorMatrix(m)
  {
    var filled := Rows(a);
    forall i | 0 <= i < |m|
      ensures filled[i] == CofactorMatrix(m)[i]
    {
    }
  }

  /** Every entry divided by d. */
  function DivideEntries(a: Matrix, d: real): (r: Matrix)
    requires IsSquare(a, |a|) && d != 0.0
    ensures IsSquare(r, |a|)
    ensures forall i, j :: 0 <= i < |a| && 0 <= j < |a| ==> r[i][j] * d == a[i][j]
  {
    seq(|a|, i requires 0 <= i < |a| => seq(|a|, j requires 0 <= j < |a| => a[i][j] / d))
  }

  /** The inverse: None when the determinant's magnitude is below Epsilon,
      otherwise the adjoint divided entry by entry by the determinant. */
  function CalculateInverse(m: Matrix): (r: Option<Matrix>)
    requires IsSquare(m, |m|)
    ensures r.None? <==> Abs(Det(m)) < Epsilon
    ensures r.Some? ==> |m| >= 1 && r.value == DivideEntries(Adjoint(m), Det(m))
  {
    var det := Det(m);
    assert |m| == 0 ==> det == ExpansionSum(m, 0) == 0.0;
    if Abs(det) < Epsilon then None
    else
      Some(DivideEntries(Adjoint(m), det))
  }

  /** The n x n identity matrix. */
  function Identity(n: nat): (id: Matrix)
    ensures IsSquare(id, n)
    ensures forall i, j :: 0 <= i < n && 0 <= j < n ==> id[i][j] == if i == j then 1.0 else 0.0
  {
    seq(n, i requires 0 <= i < n => seq(n, j requires 0 <= j < n => if i == j then 1.0 else 0.0))
  }

  /** Sum over t < k of a[i][t] * b[t][j]. */
  function RowColumnSum(a: Matrix, b: Matrix, i: nat, j: nat, k: nat): real
    requires IsSquare(a, |a|) && IsSquare(b, |a|) && i < |a| && j < |a| && k <= |a|
  {
    if k == 0 then 0.0 else RowColumnSum(a, b, i, j, k - 1) + a[i][k - 1] * b[k - 1][j]
  }

  /** The matrix product, as a reference for stating what the inverse means. */
  function Multiply(a: Matrix, b: Matrix): (c: Matrix)
    requires IsSquare(a, |a|) && IsSquare(b, |a|)
    ensures IsSquare(c, |a|)
    ensures forall i, j :: 0 <= i < |a| && 0 <= j < |a| ==> c[i][j] == RowColumnSum(a, b, i, j, |a|)
  {
    seq(|a|, i requires 0 <= i < |a| => seq(|a|, j requires 0 <= j < |a| => RowColumnSum(a, b, i, j, |a|)))
  }
}
