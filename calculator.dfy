/** The component's calculation state and its two dispatchers: the matrix
    operations (with the inverse's null result reported as "singular") and
    the vector operations. Each dispatcher records the chosen operation and
    replaces the displayed result; the inputs are left unchanged. */
module Calculator {
  import opened Matrices
  import opened Vectors

  datatype MatrixOperation = DeterminantOp | TransposeOp | AdjointOp | InverseOp

  datatype VectorOperation = DotOp | CrossOp | CosOp | SinOp

  /** What the matrix panel shows: a number, a matrix, or the singular tag. */
  datatype MatrixResult = Number(value: real) | MatrixValue(matrix: Matrix) | Singular

  /** What the vector panel shows: a number or a vector. */
  datatype VectorResult = Scalar(value: real) | VectorValue(vector: Vector)

  /** The result the matrix dispatcher stores for an operation. */
  function MatrixOutcome(op: MatrixOperation, m: Matrix): (r: MatrixResult)
    requires IsSquare(m, |m|) && |m| >= 1
    ensures r == Singular <==> op == InverseOp && Abs(Det(m)) < Epsilon
    ensures r.Number? <==> op == DeterminantOp
    ensures r.MatrixValue? ==> IsSquare(r.matrix, |m|)
    ensures op == DeterminantOp ==> r == Number(Det(m))
    ensures op == TransposeOp ==> r == MatrixValue(Transpose(m))
    ensures op == AdjointOp ==> r == MatrixValue(Adjoint(m))
    ensures op == InverseOp && Abs(Det(m)) >= Epsilon ==>
              r == MatrixValue(DivideEntries(Adjoint(m), Det(m)))
  {
    match op
    case DeterminantOp => Number(Det(m))
    case TransposeOp => MatrixValue(Transpose(m))
    case AdjointOp => MatrixValue(Adjoint(m))
    case InverseOp =>
      var inv := CalculateInverse(m);
      if inv.None? then Singular else MatrixValue(inv.value)
  }

  /** The result the vector dispatcher stores for an operation. */
  function VectorOutcome(op: VectorOperation, v1: Vector, v2: Vector, sqrt: real -> real): (r: VectorResult)
    requires Is3(v1) && Is3(v2) && IsSqrt(sqrt)
    ensures r.VectorValue? <==> op == CrossOp
    ensures r.VectorValue? ==> Is3(r.vector)
    ensures op != DotOp && op != CrossOp && (IsZero(v1) || IsZero(v2)) ==> r == Scalar(0.0)
    ensures op == DotOp ==> r == Scalar(DotProduct(v1, v2))
    ensures op == CrossOp ==> r == VectorValue(CrossProduct(v1, v2))
    ensures op == CosOp ==> r == Scalar(CosCalculate(v1, v2, sqrt))
    ensures op == SinOp ==> r == Scalar(SinCalculate(v1, v2, sqrt))
  {
    match op
    case DotOp => Scalar(DotProduct(v1, v2))
    case CrossOp => VectorValue(CrossProduct(v1, v2))
    case CosOp => Scalar(CosCalculate(v1, v2, sqrt))
    case SinOp => Scalar(SinCalculate(v1, v2, sqrt))
  }

  class CalculatorState {
    var matrix: Matrix
    var operation: Option<MatrixOperation>
    var result: Option<MatrixResult>
    var vector1: Vector
    var vector2: Vector
    var vectorOperation: Option<VectorOperation>
    var vectorResult: Option<VectorResult>

    /** The inputs always have the shapes the engine expects. */
    predicate Valid()
      reads this
    {
      IsSquare(matrix, |matrix|) && |matrix| >= 1 && Is3(vector1) && Is3(vector2)
    }

    /** The initial state: a 3x3 zero matrix, two zero vectors, no results. */
    constructor ()
      ensures Valid()
      ensures matrix == [[0.0, 0.0, 0.0], [0.0, 0.0, 0.0], [0.0, 0.0, 0.0]]
      ensures vector1 == [0.0, 0.0, 0.0] && vector2 == [0.0, 0.0, 0.0]
      ensures operation == None && result == None
      ensures vectorOperation == None && vectorResult == None
    {
      matrix := [[0.0, 0.0, 0.0], [0.0, 0.0, 0.0], [0.0, 0.0, 0.0]];
      operation := None;
      result := None;
      vector1 := [0.0, 0.0, 0.0];
      vector2 := [0.0, 0.0, 0.0];
      vectorOperation := None;
      vectorResult := None;
    }

    /** Runs a matrix operation on the current matrix and stores its result;
        a null inverse is stored as the singular tag. */
    method HandleCalculate(op: MatrixOperation)
      requires Valid()
      modifies this
      ensures Valid()
      ensures operation == Some(op) && result == Some(MatrixOutcome(op, matrix))
      ensures matrix == old(matrix) && vector1 == old(vector1) && vector2 == old(vector2)
      ensures vectorOperation == old(vectorOperation) && vectorResult == old(vectorResult)
    {
      operation := Some(op);
      match op {
        case DeterminantOp =>
          var det := CalculateDeterminant(matrix);
          result := Some(Number(det));
        case TransposeOp =>
          result := Some(MatrixValue(Transpose(matrix)));
        case AdjointOp =>
          var adj := CalculateAdjoint(matrix);
          result := Some(MatrixValue(adj));
        case InverseOp =>
          var det := CalculateDeterminant(matrix);
          if Abs(det) < Epsilon {
            result := Some(Singular);
          } else {
            var adj := CalculateAdjoint(matrix);
            result := Some(MatrixValue(DivideEntries(adj, det)));
          }
      }
    }

    /** Runs a vector operation on the current vectors and stores its result. */
    method HandleVectorCalculate(op: VectorOperation, sqrt: real -> real)
      requires Valid() && IsSqrt(sqrt)
      modifies this
      ensures Valid()
      ensures vectorOperation == Some(op) && vectorResult == Some(VectorOutcome(op, vector1, vector2, sqrt))
      ensures matrix == old(matrix) && vector1 == old(vector1) && vector2 == old(vector2)
      ensures operation == old(operation) && result == old(result)
    {
      vectorOperation := Some(op);
      match op {
        case DotOp =>
          vectorResult := Some(Scalar(DotProduct(vector1, vector2)));
        case CrossOp =>
          vectorResult := Some(VectorValue(CrossProduct(vector1, vector2)));
        case CosOp =>
          vectorResult := Some(Scalar(CosCalculate(vector1, vector2, sqrt)));
        case SinOp =>
          vectorResult := Some(Scalar(SinCalculate(vector1, vector2, sqrt)));
      }
    }
  }
}
