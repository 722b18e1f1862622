/** Properties of the vector operations: commutativity of the dot product,
    anti-commutativity of the cross product, the parallel and orthogonal
    cases of the angle functions, and sin^2 + cos^2 == 1. */
module VectorFacts {
  import opened Vectors

  /** Swapping the operands of every product leaves each partial sum unchanged. */
  lemma {:induction false} SumOfProductsSymmetric(v1: Vector, v2: Vector, k: nat)
    requires k <= |v1| && k <= |v2|
    ensures SumOfProducts(v1, v2, k) == SumOfProducts(v2, v1, k)
  {
    if k > 0 {
      SumOfProductsSymmetric(v1, v2, k - 1);
    }
  }

  lemma DotCommutative(v1: Vector, v2: Vector)
    requires |v1| == |v2|
    ensures DotProduct(v1, v2) == DotProduct(v2, v1)
  {
    SumOfProductsSymmetric(v1, v2, |v1|);
  }

  /** The dot product of a vector with itself is its squared length, so it
      is never negative and is 0 only for the zero vector. */
  lemma DotSelf(v: Vector)
    requires Is3(v)
    ensures DotProduct(v, v) == SquaredLength(v)
    ensures DotProduct(v, v) >= 0.0
    ensures DotProduct(v, v) == 0.0 <==> IsZero(v)
  {
    var _ := SquaredLength(v);
  }

  lemma DotExample()
    ensures DotProduct([1.0, 2.0, 3.0], [4.0, 5.0, 6.0]) == 32.0
  {
  }

  /** v1 x v2 == -(v2 x v1), component by component. */
  lemma CrossAntiCommutative(v1: Vector, v2: Vector)
    requires Is3(v1) && Is3(v2)
    ensures forall i :: 0 <= i < 3 ==> CrossProduct(v1, v2)[i] == -CrossProduct(v2, v1)[i]
  {
  }

  lemma CrossSelfZero(v: Vector)
    requires Is3(v)
    ensures CrossProduct(v, v) == [0.0, 0.0, 0.0]
  {
  }

  lemma CrossExample()
    ensures CrossProduct([1.0, 2.0, 3.0], [4.0, 5.0, 6.0]) == [-3.0, 6.0, -3.0]
  {
  }

  /** The cosine and the sine do not depend on the order of the vectors. */
  lemma AnglesSymmetric(v1: Vector, v2: Vector, sqrt: real -> real)
    requires Is3(v1) && Is3(v2) && IsSqrt(sqrt)
    ensures CosCalculate(v1, v2, sqrt) == CosCalculate(v2, v1, sqrt)
    ensures SinCalculate(v1, v2, sqrt) == SinCalculate(v2, v1, sqrt)
  {
    DotCommutative(v1, v2);
    var c1 := CrossProduct(v1, v2);
    var c2 := CrossProduct(v2, v1);
    assert SquaredLength(c1) == SquaredLength(c2);
  }

  /** A nonzero vector makes an angle of 0 with itself: cosine 1, sine 0. */
  lemma ParallelSelf(v: Vector, sqrt: real -> real)
    requires Is3(v) && IsSqrt(sqrt) && !IsZero(v)
    ensures CosCalculate(v, v, sqrt) == 1.0
    ensures SinCalculate(v, v, sqrt) == 0.0
  {
    var m := Magnitude(v, sqrt);
    var c := CosCalculate(v, v, sqrt);
    var s := SinCalculate(v, v, sqrt);
    CrossSelfZero(v);
    assert IsZero(CrossProduct(v, v));
    ZeroSquare(m);
    UnitQuotient(c, m * m);
    ZeroFactor(m * m, s);
  }

  /** If r p == p with p positive, then r is 1. */
  lemma UnitQuotient(r: real, p: real)
    requires p > 0.0 && r * p == p
    ensures r == 1.0
  {
    ZeroFactor(p, r - 1.0);
  }

  /** For nonzero vectors the engine's sine and cosine satisfy
      sin^2 + cos^2 == 1. */
  lemma Pythagorean(v1: Vector, v2: Vector, sqrt: real -> real)
    requires Is3(v1) && Is3(v2) && IsSqrt(sqrt) && !IsZero(v1) && !IsZero(v2)
    ensures SinCalculate(v1, v2, sqrt) * SinCalculate(v1, v2, sqrt)
          + CosCalculate(v1, v2, sqrt) * CosCalculate(v1, v2, sqrt) == 1.0
  {
    var m1 := Magnitude(v1, sqrt);
    var m2 := Magnitude(v2, sqrt);
    var cm := Magnitude(CrossProduct(v1, v2), sqrt);
    Lagrange(v1, v2);
    PositiveProduct(m1, m2);
    SquareOfProduct(m1, m2);
    PythagoreanArith(SinCalculate(v1, v2, sqrt), CosCalculate(v1, v2, sqrt), m1 * m2,
                     cm, DotProduct(v1, v2));
  }

  lemma SquareOfProduct(a: real, b: real)
    ensures (a * b) * (a * b) == (a * a) * (b * b)
  {
  }

  /** If s p and c p are the legs of a right triangle with hypotenuse p > 0,
      then s^2 + c^2 == 1. */
  lemma PythagoreanArith(s: real, c: real, p: real, cm: real, dot: real)
    requires p > 0.0
    requires s * p == cm && c * p == dot
    requires cm * cm + dot * dot == p * p
    ensures s * s + c * c == 1.0
  {
    calc {
      (s * s + c * c) * (p * p);
      (s * p) * (s * p) + (c * p) * (c * p);
      cm * cm + dot * dot;
      p * p;
    }
    assert p * p > 0.0;
  }

  /** The two unit vectors along the first two axes are perpendicular. */
  lemma PerpendicularExample(sqrt: real -> real)
    requires IsSqrt(sqrt)
    ensures CosCalculate([1.0, 0.0, 0.0], [0.0, 1.0, 0.0], sqrt) == 0.0
    ensures SinCalculate([1.0, 0.0, 0.0], [0.0, 1.0, 0.0], sqrt) == 1.0
  {
    var e1, e2 := [1.0, 0.0, 0.0], [0.0, 1.0, 0.0];
    assert CrossProduct(e1, e2) == [0.0, 0.0, 1.0];
    UnitRoot(sqrt);
    assert Magnitude(e1, sqrt) == 1.0 && Magnitude(e2, sqrt) == 1.0;
    assert Magnitude([0.0, 0.0, 1.0], sqrt) == 1.0;
    assert !IsZero(e1) by {
      assert e1[0] != 0.0;
    }
    assert !IsZero(e2) by {
      assert e2[1] != 0.0;
    }
  }

  /** A true square root of 1 is 1. */
  lemma UnitRoot(sqrt: real -> real)
    requires IsSqrt(sqrt)
    ensures sqrt(1.0) == 1.0
  {
    var r := sqrt(1.0);
    assert r >= 0.0 && r * r == 1.0;
    ZeroFactor(r + 1.0, r - 1.0);
  }

  /** Either zero vector yields 0 for both angle functions. */
  lemma ZeroVectorAngles(v1: Vector, v2: Vector, sqrt: real -> real)
    requires Is3(v1) && Is3(v2) && IsSqrt(sqrt)
    requires v1 == [0.0, 0.0, 0.0] || v2 == [0.0, 0.0, 0.0]
    ensures CosCalculate(v1, v2, sqrt) == 0.0 && SinCalculate(v1, v2, sqrt) == 0.0
  {
    assert IsZero(v1) || IsZero(v2);
  }
}
