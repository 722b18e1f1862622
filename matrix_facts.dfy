/** Properties of the matrix engine: the determinant's base cases and its
    agreement with the textbook Laplace expansion, zero rows and columns,
    the identity, transpose as an involution, the adjoint and the inverse. */
module MatrixFacts {
  import opened Matrices

  /** (-1)^k by repeated negation: an independent statement of the cofactor sign. */
  function NegOnePow(k: nat): real
  {
    if k == 0 then 1.0 else -NegOnePow(k - 1)
  }

  lemma {:induction false} SignIsNegOnePow(k: nat)
    ensures Sign(k) == NegOnePow(k)
  {
    if k > 0 {
      SignIsNegOnePow(k - 1);
    }
  }

  /** The textbook Laplace expansion along the first row, down to 1x1 only. */
  ghost function LaplaceDet(m: Matrix): real
    requires IsSquare(m, |m|) && |m| >= 1
    decreases |m|, 1
  {
    if |m| == 1 then m[0][0] else LaplaceSum(m, |m|)
  }

  ghost function LaplaceSum(m: Matrix, k: nat): real
    requires IsSquare(m, |m|) && |m| >= 2 && k <= |m|
    decreases |m|, 0, k
  {
    if k == 0 then 0.0
    else LaplaceSum(m, k - 1) + LaplaceTerm(m, k - 1)
  }

  ghost function LaplaceTerm(m: Matrix, j: nat): real
    requires IsSquare(m, |m|) && |m| >= 2 && j < |m|
    decreases |m|, 0, j
  {
    m[0][j] * LaplaceDet(Minor(m, 0, j)) * NegOnePow(j)
  }

  /** The 1x1 and 2x2 shortcuts. */
  lemma DetBaseCases(m: Matrix)
    requires IsSquare(m, |m|) && 1 <= |m| <= 2
    ensures |m| == 1 ==> Det(m) == m[0][0]
    ensures |m| == 2 ==> Det(m) == m[0][0] * m[1][1] - m[0][1] * m[1][0]
  {
  }

  lemma DetIsExpansion(m: Matrix)
    requires IsSquare(m, |m|) && |m| > 2
    ensures Det(m) == ExpansionSum(m, |m|)
  {
  }

  lemma DetExample()
    ensures Det([[1.0, 2.0], [3.0, 4.0]]) == -2.0
    ensures Det([[1.0, 2.0, 3.0], [0.0, 1.0, 4.0], [5.0, 6.0, 0.0]]) == 1.0
  {
    var m := [[1.0, 2.0, 3.0], [0.0, 1.0, 4.0], [5.0, 6.0, 0.0]];
    assert Det(Minor(m, 0, 0)) == -24.0;
    assert Det(Minor(m, 0, 1)) == -20.0;
    assert Det(Minor(m, 0, 2)) == -5.0;
  }

  /** The engine's determinant, with its 2x2 shortcut, is the textbook one. */
  lemma {:induction false} DetMatchesLaplace(m: Matrix)
    requires IsSquare(m, |m|) && |m| >= 1
    ensures Det(m) == LaplaceDet(m)
    decreases |m|, 1
  {
    if |m| == 2 {
      var m0, m1 := Minor(m, 0, 0), Minor(m, 0, 1);
      assert LaplaceDet(m0) == m[1][1] && LaplaceDet(m1) == m[1][0];
      assert LaplaceSum(m, 1) == m[0][0] * m[1][1];
      assert LaplaceTerm(m, 1) == -(m[0][1] * m[1][0]);
    } else if |m| > 2 {
      SumsMatchLaplace(m, |m|);
    }
  }

  lemma {:induction false} SumsMatchLaplace(m: Matrix, k: nat)
    requires IsSquare(m, |m|) && |m| >= 2 && k <= |m|
    ensures ExpansionSum(m, k) == LaplaceSum(m, k)
    decreases |m|, 0, k
  {
    if k > 0 {
      SumsMatchLaplace(m, k - 1);
      DetMatchesLaplace(Minor(m, 0, k - 1));
      SignIsNegOnePow(k - 1);
    }
  }

  /** A row of zeros makes the determinant zero. */
  lemma {:induction false} DetZeroRow(m: Matrix, r: nat)
    requires IsSquare(m, |m|) && r < |m|
    requires forall j :: 0 <= j < |m| ==> m[r][j] == 0.0
    ensures Det(m) == 0.0
    decreases |m|, 1
  {
    if |m| > 2 {
      ZeroRowSum(m, r, |m|);
    }
  }

  lemma {:induction false} ZeroRowSum(m: Matrix, r: nat, k: nat)
    requires IsSquare(m, |m|) && |m| > 2 && r < |m| && k <= |m|
    requires forall j :: 0 <= j < |m| ==> m[r][j] == 0.0
    ensures ExpansionSum(m, k) == 0.0
    decreases |m|, 0, k
  {
    if k > 0 {
      ZeroRowSum(m, r, k - 1);
      if r > 0 {
        var minor := Minor(m, 0, k - 1);
        DetZeroRow(minor, r - 1);
      }
    }
  }

  /** A column of zeros makes the determinant zero. */
  lemma {:induction false} DetZeroColumn(m: Matrix, c: nat)
    requires IsSquare(m, |m|) && c < |m|
    requires forall i :: 0 <= i < |m| ==> m[i][c] == 0.0
    ensures Det(m) == 0.0
    decreases |m|, 1
  {
    if |m| > 2 {
      ZeroColumnSum(m, c, |m|);
    }
  }

  lemma {:induction false} ZeroColumnSum(m: Matrix, c: nat, k: nat)
    requires IsSquare(m, |m|) && |m| > 2 && c < |m| && k <= |m|
    requires forall i :: 0 <= i < |m| ==> m[i][c] == 0.0
    ensures ExpansionSum(m, k) == 0.0
    decreases |m|, 0, k
  {
    if k > 0 {
      ZeroColumnSum(m, c, k - 1);
      if c != k - 1 {
        var minor := Minor(m, 0, k - 1);
        var c' := if c < k - 1 then c else c - 1;
        assert forall i :: 0 <= i < |minor| ==> minor[i][c'] == m[i + 1][c];
        DetZeroColumn(minor, c');
      }
    }
  }

  /** The identity matrix has determinant 1. */
  lemma {:induction false} DetIdentity(n: nat)
    requires n >= 1
    ensures Det(Identity(n)) == 1.0
  {
    if n > 2 {
      var id := Identity(n);
      assert Minor(id, 0, 0) == Identity(n - 1) by {
        var minor := Minor(id, 0, 0);
        forall i | 0 <= i < n - 1
          ensures minor[i] == Identity(n - 1)[i]
        {
        }
      }
      IdentitySum(n, n);
      DetIdentity(n - 1);
    }
  }

  lemma {:induction false} IdentitySum(n: nat, k: nat)
    requires n > 2 && 1 <= k <= n
    requires Minor(Identity(n), 0, 0) == Identity(n - 1)
    ensures ExpansionSum(Identity(n), k) == Det(Identity(n - 1))
  {
    if k > 1 {
      IdentitySum(n, k - 1);
    }
  }

  /** Transposing twice gives back the matrix. */
  lemma TransposeInvolution(m: Matrix)
    requires |m| > 0 && |m[0]| > 0 && IsRect(m, |m|, |m[0]|)
    ensures Transpose(Transpose(m)) == m
  {
    var t := Transpose(Transpose(m));
    forall i | 0 <= i < |m|
      ensures t[i] == m[i]
    {
    }
  }


  /** The 2x2 adjoint swaps the diagonal and negates the off-diagonal. */
  lemma Adjoint2x2(m: Matrix)
    requires IsSquare(m, 2)
    ensures Adjoint(m) == [[m[1][1], -m[0][1]], [-m[1][0], m[0][0]]]
  {
    var a := Adjoint(m);
    assert Minor(m, 0, 0)[0][0] == m[1][1];
    assert Minor(m, 0, 1)[0][0] == m[1][0];
    assert Minor(m, 1, 0)[0][0] == m[0][1];
    assert Minor(m, 1, 1)[0][0] == m[0][0];
    assert a[0] == [m[1][1], -m[0][1]];
    assert a[1] == [-m[1][0], m[0][0]];
  }

  lemma AdjointExample()
    ensures Adjoint([[1.0, 2.0], [3.0, 4.0]]) == [[4.0, -2.0], [-3.0, 1.0]]
  {
    Adjoint2x2([[1.0, 2.0], [3.0, 4.0]]);
  }

  /** The first diagonal entry of M times adj(M) is det(M): the expansion of
      the determinant along row 0 by the cofactors the adjoint holds. */
  lemma AdjointCorner(m: Matrix)
    requires IsSquare(m, |m|) && |m| >= 1
    ensures Multiply(m, Adjoint(m))[0][0] == Det(m)
  {
    var n := |m|;
    if n == 1 {
      DetBaseCases(m);
      assert RowColumnSum(m, Adjoint(m), 0, 0, 1) == m[0][0] * 1.0;
    } else if n == 2 {
      AdjointProduct2x2(m);
      assert Multiply(m, Adjoint(m))[0] == [Det(m), 0.0];
    } else {
      CornerSum(m, n);
      DetIsExpansion(m);
    }
  }

  lemma {:induction false} CornerSum(m: Matrix, k: nat)
    requires IsSquare(m, |m|) && |m| > 2 && k <= |m|
    ensures RowColumnSum(m, Adjoint(m), 0, 0, k) == ExpansionSum(m, k)
  {
    if k > 0 {
      CornerSum(m, k - 1);
      var d := Det(Minor(m, 0, k - 1));
      calc {
        m[0][k - 1] * Adjoint(m)[k - 1][0];
        m[0][k - 1] * Cofactor(m, 0, k - 1);
        m[0][k - 1] * (d * Sign(k - 1));
        m[0][k - 1] * d * Sign(k - 1);
      }
    }
  }

  /** A 2x2 product entry is the two-term sum. */
  lemma Multiply2x2(a: Matrix, b: Matrix, i: nat, j: nat)
    requires IsSquare(a, 2) && IsSquare(b, 2) && i < 2 && j < 2
    ensures Multiply(a, b)[i][j] == a[i][0] * b[0][j] + a[i][1] * b[1][j]
  {
    assert RowColumnSum(a, b, i, j, 1) == a[i][0] * b[0][j];
  }

  /** The four products of [[a, b], [c, d]] with [[d, -b], [-c, a]]. */
  lemma AdjugateProducts(a: real, b: real, c: real, d: real, p: real, q: real, r: real, s: real)
    requires p == d && q == -b && r == -c && s == a
    ensures a * p + b * r == a * d - b * c && a * q + b * s == 0.0
    ensures c * p + d * r == 0.0 && c * q + d * s == a * d - b * c
  {
  }

  /** A 2x2 matrix times its swapped-and-negated companion is a multiple
      of the identity. */
  lemma ProductWithAdjugate2x2(m: Matrix, b: Matrix)
    requires IsSquare(m, 2) && b == [[m[1][1], -m[0][1]], [-m[1][0], m[0][0]]]
    ensures Multiply(m, b) == [[Det2x2(m), 0.0], [0.0, Det2x2(m)]]
  {
    var p := Multiply(m, b);
    Multiply2x2(m, b, 0, 0);
    Multiply2x2(m, b, 0, 1);
    Multiply2x2(m, b, 1, 0);
    Multiply2x2(m, b, 1, 1);
    AdjugateProducts(m[0][0], m[0][1], m[1][0], m[1][1], b[0][0], b[0][1], b[1][0], b[1][1]);
    assert p[0][0] == Det2x2(m) && p[0][1] == 0.0;
    assert p[1][0] == 0.0 && p[1][1] == Det2x2(m);
    assert p[0] == [Det2x2(m), 0.0];
    assert p[1] == [0.0, Det2x2(m)];
  }

  /** For 2x2 matrices, M times adj(M) is det(M) times the identity. */
  lemma AdjointProduct2x2(m: Matrix)
    requires IsSquare(m, 2)
    ensures Multiply(m, Adjoint(m)) == [[Det(m), 0.0], [0.0, Det(m)]]
  {
    Adjoint2x2(m);
    ProductWithAdjugate2x2(m, Adjoint(m));
  }

  /** A 2x2 matrix times its adjugate divided by a nonzero determinant is
      the identity. */
  lemma ProductWithScaledAdjugate2x2(m: Matrix, b: Matrix, inv: Matrix)
    requires IsSquare(m, 2) && b == [[m[1][1], -m[0][1]], [-m[1][0], m[0][0]]]
    requires IsSquare(inv, 2) && Det2x2(m) != 0.0
    requires forall i, j :: 0 <= i < 2 && 0 <= j < 2 ==> inv[i][j] * Det2x2(m) == b[i][j]
    ensures Multiply(m, inv) == Identity(2)
  {
    var d := Det2x2(m);
    var p := Multiply(m, inv);
    var q := Multiply(m, b);
    ProductWithAdjugate2x2(m, b);
    forall i, j | 0 <= i < 2 && 0 <= j < 2
      ensures p[i][j] == Identity(2)[i][j]
    {
      Multiply2x2(m, inv, i, j);
      Multiply2x2(m, b, i, j);
      ScaledSum(m[i][0], m[i][1], inv[0][j], inv[1][j], b[0][j], b[1][j], d, q[i][j]);
    }
    assert p[0] == Identity(2)[0];
    assert p[1] == Identity(2)[1];
  }

  /** For 2x2 matrices, a returned inverse really is the inverse. */
  lemma Inverse2x2(m: Matrix)
    requires IsSquare(m, 2) && CalculateInverse(m).Some?
    ensures Multiply(m, CalculateInverse(m).value) == Identity(2)
  {
    Adjoint2x2(m);
    DetBaseCases(m);
    ProductWithScaledAdjugate2x2(m, Adjoint(m), CalculateInverse(m).value);
  }

  /** If u * d == u' and v * d == v', then x u + y v is (x u' + y v') / d;
      in particular 1 when x u' + y v' is d and 0 when it is 0. */
  lemma ScaledSum(x: real, y: real, u: real, v: real, u': real, v': real, d: real, t: real)
    requires d != 0.0 && u * d == u' && v * d == v' && t == x * u' + y * v'
    ensures t == d ==> x * u + y * v == 1.0
    ensures t == 0.0 ==> x * u + y * v == 0.0
  {
    var w := x * u + y * v;
    assert w * d == t;
    if t == d {
      assert (w - 1.0) * d == 0.0;
    }
    if t == 0.0 {
      assert w * d == 0.0;
    }
  }

  lemma InverseExample()
    ensures CalculateInverse([[1.0, 2.0], [3.0, 4.0]]) == Some([[-2.0, 1.0], [1.5, -0.5]])
  {
    var m := [[1.0, 2.0], [3.0, 4.0]];
    AdjointExample();
    DetExample();
    assert CalculateInverse(m).Some?;
    var inv := CalculateInverse(m).value;
    assert inv == DivideEntries(Adjoint(m), -2.0);
    assert inv[0] == [-2.0, 1.0];
    assert inv[1] == [1.5, -0.5];
    assert inv == [[-2.0, 1.0], [1.5, -0.5]];
  }

  /** A zero row or a zero column makes the matrix singular. */
  lemma ZeroRowIsSingular(m: Matrix, r: nat)
    requires IsSquare(m, |m|) && r < |m|
    requires forall j :: 0 <= j < |m| ==> m[r][j] == 0.0
    ensures CalculateInverse(m) == None
  {
    DetZeroRow(m, r);
  }

  lemma ZeroColumnIsSingular(m: Matrix, c: nat)
    requires IsSquare(m, |m|) && c < |m|
    requires forall i :: 0 <= i < |m| ==> m[i][c] == 0.0
    ensures CalculateInverse(m) == None
  {
    DetZeroColumn(m, c);
  }

  /** The 3x3 determinant written out: the engine's expansion along row 0
      with each 2x2 minor taken by its shortcut. */
  lemma Det3x3(m: Matrix)
    requires IsSquare(m, 3)
    ensures Det(m) == m[0][0] * (m[1][1] * m[2][2] - m[1][2] * m[2][1])
                    - m[0][1] * (m[1][0] * m[2][2] - m[1][2] * m[2][0])
                    + m[0][2] * (m[1][0] * m[2][1] - m[1][1] * m[2][0])
  {
    assert ExpansionSum(m, 1) == ExpansionTerm(m, 0);
    assert ExpansionSum(m, 2) == ExpansionSum(m, 1) + ExpansionTerm(m, 1);
    assert Det(m) == ExpansionSum(m, 2) + ExpansionTerm(m, 2);
    assert ExpansionTerm(m, 0) == m[0][0] * Det(Minor(m, 0, 0));
    assert ExpansionTerm(m, 1) == -(m[0][1] * Det(Minor(m, 0, 1)));
    assert ExpansionTerm(m, 2) == m[0][2] * Det(Minor(m, 0, 2));
    assert Det(Minor(m, 0, 0)) == m[1][1] * m[2][2] - m[1][2] * m[2][1];
    assert Det(Minor(m, 0, 1)) == m[1][0] * m[2][2] - m[1][2] * m[2][0];
    assert Det(Minor(m, 0, 2)) == m[1][0] * m[2][1] - m[1][1] * m[2][0];
  }

  /** A 2x2 matrix whose two rows are equal has determinant 0 and no inverse. */
  lemma EqualRowsAreSingular2x2(m: Matrix)
    requires IsSquare(m, 2) && m[0] == m[1]
    ensures Det(m) == 0.0
    ensures CalculateInverse(m) == None
  {
    assert Det(m) == m[0][0] * m[0][1] - m[0][1] * m[0][0];
  }

  /** A 3x3 matrix with two equal rows has determinant 0 and no inverse. */
  lemma EqualRowsAreSingular3x3(m: Matrix, r: nat, s: nat)
    requires IsSquare(m, 3) && r < s < 3 && m[r] == m[s]
    ensures Det(m) == 0.0
    ensures CalculateInverse(m) == None
  {
    Det3x3(m);
  }

  /** The sequence without its element at position k, as a filter on the
      index keeps it. */
  function RemoveAt<T>(s: seq<T>, k: nat): (r: seq<T>)
    requires k < |s|
    ensures |r| == |s| - 1
    ensures forall i :: 0 <= i < |r| ==> r[i] == s[Skip(i, k)]
  {
    s[..k] + s[k + 1..]
  }

  /** The minor built the way the engine builds it: drop one row, then drop
      one column from every remaining row. */
  function FilteredMinor(m: Matrix, row: nat, col: nat): Matrix
    requires IsSquare(m, |m|) && row < |m| && col < |m|
  {
    var rest := RemoveAt(m, row);
    seq(|rest|, i requires 0 <= i < |rest| => RemoveAt(rest[i], col))
  }

  /** The entrywise minor is the filtered one. */
  lemma MinorIsFiltered(m: Matrix, row: nat, col: nat)
    requires IsSquare(m, |m|) && row < |m| && col < |m|
    ensures Minor(m, row, col) == FilteredMinor(m, row, col)
  {
    var a := Minor(m, row, col);
    var b := FilteredMinor(m, row, col);
    forall i | 0 <= i < |m| - 1
      ensures a[i] == b[i]
    {
    }
  }

  /** In the determinant's loop the minor for column j is the rows after the
      first with column j filtered out. */
  lemma ExpansionMinorIsTail(m: Matrix, j: nat)
    requires IsSquare(m, |m|) && j < |m|
    ensures Minor(m, 0, j) == seq(|m| - 1, i requires 0 <= i < |m| - 1 => RemoveAt(m[1..][i], j))
  {
    MinorIsFiltered(m, 0, j);
    assert RemoveAt(m, 0) == m[1..];
  }

  /** A cofactor is (-1)^(row + col) times the determinant of the minor the
      engine filters out of the matrix. */
  lemma CofactorIsSignedMinor(m: Matrix, row: nat, col: nat)
    requires IsSquare(m, |m|) && row < |m| && col < |m|
    ensures IsSquare(FilteredMinor(m, row, col), |m| - 1)
    ensures Cofactor(m, row, col) == NegOnePow(row + col) * Det(FilteredMinor(m, row, col))
  {
    MinorIsFiltered(m, row, col);
    SignIsNegOnePow(row + col);
  }
}
