/** The vector half of the calculator's numerical engine: dot and cross
    products of 3-vectors and the cosine and sine of the angle between two
    vectors, with the convention that both are 0 when either vector is zero.
    JavaScript numbers are modelled as exact reals; Math.sqrt is a parameter
    that is assumed to be a true square root. */
module Vectors {

  type Vector = seq<real>

  predicate Is3(v: Vector)
  {
    |v| == 3
  }

  predicate IsZero(v: Vector)
  {
    forall i :: 0 <= i < |v| ==> v[i] == 0.0
  }

  /** The value of the reduce over v1 after its first k elements:
      ((0 + v1[0] v2[0]) + v1[1] v2[1]) + ... */
  function SumOfProducts(v1: Vector, v2: Vector, k: nat): real
    requires k <= |v1| && k <= |v2|
  {
    if k == 0 then 0.0 else SumOfProducts(v1, v2, k - 1) + v1[k - 1] * v2[k - 1]
  }

  /** The reduce over v1 that adds v1[i] * v2[i] to a running sum from 0. */
  function DotProduct(v1: Vector, v2: Vector): (r: real)
    requires |v1| <= |v2|
    ensures Is3(v1) ==> r == v1[0] * v2[0] + v1[1] * v2[1] + v1[2] * v2[2]
  {
    assert Is3(v1) ==> SumOfProducts(v1, v2, 2) == v1[0] * v2[0] + v1[1] * v2[1] by {
      if Is3(v1) {
        assert SumOfProducts(v1, v2, 1) == v1[0] * v2[0];
      }
    }
    SumOfProducts(v1, v2, |v1|)
  }

  /** The standard 3-D cross product. */
  function CrossProduct(v1: Vector, v2: Vector): (r: Vector)
    requires Is3(v1) && Is3(v2)
    ensures Is3(r)
  {
    [v1[1] * v2[2] - v1[2] * v2[1],
     v1[2] * v2[0] - v1[0] * v2[2],
     v1[0] * v2[1] - v1[1] * v2[0]]
  }

  /** The cross product is orthogonal to both of its operands. */
  lemma Orthogonal(v1: Vector, v2: Vector)
    requires Is3(v1) && Is3(v2)
    ensures DotProduct(v1, CrossProduct(v1, v2)) == 0.0
    ensures DotProduct(v2, CrossProduct(v1, v2)) == 0.0
  {
    var r := CrossProduct(v1, v2);
    TripleProductZero(v1[0], v1[1], v1[2], v2[0], v2[1], v2[2], r[0], r[1], r[2]);
  }

  lemma TripleProductZero(x: real, y: real, z: real, x': real, y': real, z': real,
                          p: real, q: real, s: real)
    requires p == y * z' - z * y' && q == z * x' - x * z' && s == x * y' - y * x'
    ensures x * p + y * q + z * s == 0.0
    ensures x' * p + y' * q + z' * s == 0.0
  {
  }

  /** The sum of the squared components, the argument of Math.sqrt. */
  function SquaredLength(v: Vector): (r: real)
    requires Is3(v)
    ensures r >= 0.0
    ensures r == 0.0 <==> IsZero(v)
  {
    SquaresZero(v[0], v[1], v[2]);
    assert IsZero(v) <==> v[0] == 0.0 && v[1] == 0.0 && v[2] == 0.0;
    v[0] * v[0] + v[1] * v[1] + v[2] * v[2]
  }

  lemma SquaresZero(x: real, y: real, z: real)
    ensures x * x + y * y + z * z >= 0.0
    ensures x * x + y * y + z * z == 0.0 <==> x == 0.0 && y == 0.0 && z == 0.0
  {
    ZeroSquare(x);
    ZeroSquare(y);
    ZeroSquare(z);
  }

  /** A true square root on the non-negative reals. */
  ghost predicate IsSqrt(sqrt: real -> real)
  {
    forall x :: 0.0 <= x ==> 0.0 <= sqrt(x) && sqrt(x) * sqrt(x) == x
  }

  /** The Euclidean length of a 3-vector. */
  function Magnitude(v: Vector, sqrt: real -> real): (r: real)
    requires Is3(v) && IsSqrt(sqrt)
    ensures r >= 0.0 && r * r == SquaredLength(v)
    ensures r == 0.0 <==> IsZero(v)
  {
    var r := sqrt(SquaredLength(v));
    assert r * r == SquaredLength(v);
    ZeroSquare(r);
    r
  }

  lemma ZeroSquare(r: real)
    ensures r * r >= 0.0
    ensures r * r == 0.0 <==> r == 0.0
  {
    ZeroFactor(r, r);
  }

  lemma ZeroFactor(e: real, f: real)
    ensures e * f == 0.0 && e != 0.0 ==> f == 0.0
  {
  }

  lemma PositiveProduct(e: real, f: real)
    requires e > 0.0 && f > 0.0
    ensures e * f > 0.0
  {
  }

  /** The cosine of the angle between the vectors: 0 when either magnitude
      is 0, otherwise the dot product over the product of the magnitudes.
      It lies in [-1, 1]. */
  function CosCalculate(v1: Vector, v2: Vector, sqrt: real -> real): (r: real)
    requires Is3(v1) && Is3(v2) && IsSqrt(sqrt)
    ensures IsZero(v1) || IsZero(v2) ==> r == 0.0
    ensures !IsZero(v1) && !IsZero(v2) ==>
              r * (Magnitude(v1, sqrt) * Magnitude(v2, sqrt)) == DotProduct(v1, v2)
    ensures -1.0 <= r <= 1.0
  {
    var dot := DotProduct(v1, v2);
    var mag1 := Magnitude(v1, sqrt);
    var mag2 := Magnitude(v2, sqrt);
    if mag1 == 0.0 || mag2 == 0.0 then 0.0
    else
      PositiveProduct(mag1, mag2);
      CosBound(v1, v2, sqrt);
      Quotient(dot, mag1 * mag2);
      dot / (mag1 * mag2)
  }

  /** The dot product is bounded by the product of the magnitudes. */
  lemma CosBound(v1: Vector, v2: Vector, sqrt: real -> real)
    requires Is3(v1) && Is3(v2) && IsSqrt(sqrt)
    ensures -(Magnitude(v1, sqrt) * Magnitude(v2, sqrt)) <= DotProduct(v1, v2)
            <= Magnitude(v1, sqrt) * Magnitude(v2, sqrt)
  {
    CauchySchwarz(v1, v2);
    RootBound(DotProduct(v1, v2), Magnitude(v1, sqrt), Magnitude(v2, sqrt),
              SquaredLength(v1), SquaredLength(v2));
  }

  /** The sine of the angle between the vectors: 0 when either magnitude is
      0, otherwise the cross product's magnitude over the product of the
      magnitudes. It lies in [0, 1]. */
  function SinCalculate(v1: Vector, v2: Vector, sqrt: real -> real): (r: real)
    requires Is3(v1) && Is3(v2) && IsSqrt(sqrt)
    ensures IsZero(v1) || IsZero(v2) ==> r == 0.0
    ensures !IsZero(v1) && !IsZero(v2) ==>
              r * (Magnitude(v1, sqrt) * Magnitude(v2, sqrt)) == Magnitude(CrossProduct(v1, v2), sqrt)
    ensures 0.0 <= r <= 1.0
  {
    var cross := CrossProduct(v1, v2);
    var crossMag := Magnitude(cross, sqrt);
    var mag1 := Magnitude(v1, sqrt);
    var mag2 := Magnitude(v2, sqrt);
    if mag1 == 0.0 || mag2 == 0.0 then 0.0
    else
      PositiveProduct(mag1, mag2);
      SinBound(v1, v2, sqrt);
      Quotient(crossMag, mag1 * mag2);
      crossMag / (mag1 * mag2)
  }

  /** The cross product's magnitude is bounded by the product of the
      magnitudes. */
  lemma SinBound(v1: Vector, v2: Vector, sqrt: real -> real)
    requires Is3(v1) && Is3(v2) && IsSqrt(sqrt)
    ensures Magnitude(CrossProduct(v1, v2), sqrt) <= Magnitude(v1, sqrt) * Magnitude(v2, sqrt)
  {
    CrossBound(v1, v2);
    RootBound(Magnitude(CrossProduct(v1, v2), sqrt), Magnitude(v1, sqrt), Magnitude(v2, sqrt),
              SquaredLength(v1), SquaredLength(v2));
  }

  /** What the source relies on when it divides by a positive product. */
  lemma Quotient(t: real, p: real)
    requires p > 0.0
    ensures (t / p) * p == t
    ensures -p <= t ==> -1.0 <= t / p
    ensures t <= p ==> t / p <= 1.0
    ensures 0.0 <= t ==> 0.0 <= t / p
  {
  }

  /** |v1 x v2|^2 + (v1 . v2)^2 == |v1|^2 |v2|^2. */
  lemma Lagrange(v1: Vector, v2: Vector)
    requires Is3(v1) && Is3(v2)
    ensures SquaredLength(CrossProduct(v1, v2)) + DotProduct(v1, v2) * DotProduct(v1, v2)
            == SquaredLength(v1) * SquaredLength(v2)
  {
    CrossLengthExpanded(v1, v2);
    DotSquareExpanded(v1, v2);
    LengthProductExpanded(v1, v2);
  }

  /** The three ingredients of Lagrange's identity, each expanded into
      monomials v1[i] v1[j] v2[k] v2[l]. */
  lemma CrossLengthExpanded(v1: Vector, v2: Vector)
    requires Is3(v1) && Is3(v2)
    ensures SquaredLength(CrossProduct(v1, v2))
         == v1[1] * v1[1] * v2[2] * v2[2] + v1[2] * v1[2] * v2[1] * v2[1] - 2.0 * v1[1] * v1[2] * v2[1] * v2[2]
            + v1[2] * v1[2] * v2[0] * v2[0] + v1[0] * v1[0] * v2[2] * v2[2] - 2.0 * v1[0] * v1[2] * v2[0] * v2[2]
            + v1[0] * v1[0] * v2[1] * v2[1] + v1[1] * v1[1] * v2[0] * v2[0] - 2.0 * v1[0] * v1[1] * v2[0] * v2[1]
  {
  }

  lemma DotSquareExpanded(v1: Vector, v2: Vector)
    requires Is3(v1) && Is3(v2)
    ensures DotProduct(v1, v2) * DotProduct(v1, v2)
         == v1[0] * v1[0] * v2[0] * v2[0] + v1[1] * v1[1] * v2[1] * v2[1] + v1[2] * v1[2] * v2[2] * v2[2]
            + 2.0 * v1[0] * v1[1] * v2[0] * v2[1] + 2.0 * v1[0] * v1[2] * v2[0] * v2[2] + 2.0 * v1[1] * v1[2] * v2[1] * v2[2]
  {
  }

  lemma LengthProductExpanded(v1: Vector, v2: Vector)
    requires Is3(v1) && Is3(v2)
    ensures SquaredLength(v1) * SquaredLength(v2)
         == v1[0] * v1[0] * v2[0] * v2[0] + v1[0] * v1[0] * v2[1] * v2[1] + v1[0] * v1[0] * v2[2] * v2[2]
            + v1[1] * v1[1] * v2[0] * v2[0] + v1[1] * v1[1] * v2[1] * v2[1] + v1[1] * v1[1] * v2[2] * v2[2]
            + v1[2] * v1[2] * v2[0] * v2[0] + v1[2] * v1[2] * v2[1] * v2[1] + v1[2] * v1[2] * v2[2] * v2[2]
  {
  }

  /** |v1 x v2|^2 <= |v1|^2 |v2|^2. */
  lemma CrossBound(v1: Vector, v2: Vector)
    requires Is3(v1) && Is3(v2)
    ensures SquaredLength(CrossProduct(v1, v2)) <= SquaredLength(v1) * SquaredLength(v2)
  {
    Lagrange(v1, v2);
    ZeroSquare(DotProduct(v1, v2));
  }

  /** (v1 . v2)^2 <= |v1|^2 |v2|^2. */
  lemma CauchySchwarz(v1: Vector, v2: Vector)
    requires Is3(v1) && Is3(v2)
    ensures DotProduct(v1, v2) * DotProduct(v1, v2) <= SquaredLength(v1) * SquaredLength(v2)
  {
    Lagrange(v1, v2);
  }

  /** If t^2 <= s1 s2 with a, b the non-negative roots of s1, s2, then
      -(a b) <= t <= a b. */
  lemma RootBound(t: real, a: real, b: real, s1: real, s2: real)
    requires a >= 0.0 && b >= 0.0 && a * a == s1 && b * b == s2 && t * t <= s1 * s2
    ensures -(a * b) <= t <= a * b
  {
    var ab := a * b;
    assert ab >= 0.0;
    assert ab * ab == s1 * s2;
    SquareMonotone(t, ab);
    SquareMonotone(-t, ab);
    assert (-t) * (-t) == t * t;
  }

  lemma SquareMonotone(p: real, q: real)
    ensures p > q >= 0.0 ==> p * p > q * q
  {
    if p > q >= 0.0 {
      PositiveProduct(p - q, p + q);
    }
  }
}
