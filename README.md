# Linear-algebra calculator engine in Dafny

This project models the numerical engine of a React linear-algebra calculator
(`src/App.tsx`). For square matrices the engine computes the determinant by
cofactor expansion along the first row, the transpose, cofactors, the
adjoint (adjugate) and the inverse. An inverse whose determinant has
magnitude below `1e-10` is reported as "singular". For 3-vectors it computes
the dot and cross products and the cosine and sine of the angle between two
vectors. Both of those are 0 when either vector is zero. The model also
covers the component state the two dispatchers write: the operation chosen
and the result shown.

JavaScript numbers are modelled as exact `real`s. The determinant's loop and
the adjoint's nested loops, which update variables and fill a buffer in
place, are methods with loop invariants. The determinant method is proved
equal to the recursive function `Det`, and the adjoint method to the
function `Adjoint`, which is built from the cofactor matrix. The
component's state is a class, `CalculatorState`, with a method for each
dispatcher. The rest is pure functions and lemmas about them.

Files:

- `matrices.dfy` (module `Matrices`): matrices, minors, `Det`, `CalculateDeterminant`, transpose, cofactors, the adjoint, the inverse, and the product used to state what the inverse means.
- `matrix_facts.dfy` (module `MatrixFacts`): lemmas about the matrix engine.
  - The determinant agrees with a textbook Laplace expansion. It has zero rows and columns, the identity, and worked examples. Matrices with two equal rows are singular for sizes 2 and 3.
  - The filter-based minor agrees with the entrywise one.
  - M·adj(M) and M·M⁻¹ for 2x2 matrices, and the corner entry of M·adj(M) for every size.
- `vectors.dfy` (module `Vectors`): dot and cross products, squared length, magnitude, cosine and sine. It also proves orthogonality of the cross product, Lagrange's identity and Cauchy–Schwarz.
- `vector_facts.dfy` (module `VectorFacts`): commutativity and anti-commutativity, angles of parallel and perpendicular vectors, and sin² + cos² = 1.
- `calculator.dfy` (module `Calculator`): the component's state as a class. It has the matrix and vector dispatchers.

## Model

| member | source | states |
|---|---|---|
| `Matrices.Minor` | src/App.tsx:90-91 | deleting a row and a column of an n x n matrix leaves an (n-1) x (n-1) matrix whose entry (i, j) is the input's entry at the i-th surviving row and j-th surviving column |
| `MatrixFacts.MinorIsFiltered` | src/App.tsx:91 | the entrywise minor equals the minor built by filtering out row `row`, then column `col` of every remaining row |
| `MatrixFacts.ExpansionMinorIsTail` | src/App.tsx:80 | the minor for column j in the determinant loop (rows after the first, column j filtered out) is the minor at (0, j) |
| `MatrixFacts.RemoveAt` | src/App.tsx:80 | filtering out index k leaves one element fewer, with the later elements shifted down by one |
| `Matrices.CalculateDeterminant` | src/App.tsx:73-84 | the recursive method with its accumulating loop returns `Det(mat)`: the single entry for 1x1, ad - bc for 2x2, the signed row-0 cofactor sum otherwise |
| `Matrices.ExpansionSumStep` | src/App.tsx:81 | definitional: one step of `ExpansionSum`'s definition, with the recursive call's result `minorDet` in place of `Det` of the minor. It states that each loop iteration adds `mat[0][j] * det(minor) * (j even ? 1 : -1)` to the running sum, and it is the bridge between the method's loop and `Det` |
| `MatrixFacts.DetBaseCases` | src/App.tsx:75-76 | size 1 gives `m[0][0]`, size 2 gives `m[0][0]*m[1][1] - m[0][1]*m[1][0]` |
| `MatrixFacts.DetIsExpansion` | src/App.tsx:78-83 | definitional: one unfolding of `Det`. For size 3 and up the determinant is the full row-0 expansion sum. The independent check of the expansion is `DetMatchesLaplace` |
| `MatrixFacts.DetMatchesLaplace` | src/App.tsx:73-84 | the engine's determinant, including its 2x2 shortcut, equals the textbook Laplace expansion that recurses down to 1x1 with sign (-1)^j |
| `MatrixFacts.SumsMatchLaplace` | src/App.tsx:78-83 | every partial sum of the engine's loop equals the textbook partial sum |
| `MatrixFacts.SignIsNegOnePow` | src/App.tsx:81 | the sign `k % 2 == 0 ? 1 : -1` is (-1)^k |
| `MatrixFacts.DetExample` | src/App.tsx:73-84 | det [[1,2],[3,4]] = -2 and det [[1,2,3],[0,1,4],[5,6,0]] = 1 |
| `MatrixFacts.DetZeroRow` | src/App.tsx:78-83 | a matrix with an all-zero row has determinant 0 |
| `MatrixFacts.DetZeroColumn` | src/App.tsx:78-83 | a matrix with an all-zero column has determinant 0 |
| `MatrixFacts.DetIdentity` | src/App.tsx:73-84 | the identity matrix of every size n >= 1 has determinant 1 |
| `Matrices.Transpose` | src/App.tsx:86-88 | the result has as many rows as the input has columns and the reverse, and `t[i][j] == m[j][i]` |
| `MatrixFacts.TransposeInvolution` | src/App.tsx:86-88 | transposing twice gives back the matrix |
| `Matrices.Cofactor` | src/App.tsx:90-94 | the cofactor at (row, col) is the determinant of the minor with that row and column deleted, negated exactly when row + col is odd. `CofactorIsSignedMinor` ties it to the filtered minor and to (-1)^(row+col) |
| `MatrixFacts.CofactorIsSignedMinor` | src/App.tsx:90-94 | the cofactor at (row, col) is (-1)^(row+col) times the determinant of the filtered minor, and that minor is (n-1) x (n-1) |
| `Matrices.CofactorMatrix` | src/App.tsx:100-105 | the n x n matrix whose entry (i, j) is the cofactor at (i, j) |
| `Matrices.Adjoint` | src/App.tsx:96-107 | `[[1]]` for a 1x1 matrix, otherwise n x n with entry (i, j) the cofactor at (j, i) |
| `Matrices.CalculateAdjoint` | src/App.tsx:96-107 | the method that fills a zeroed n x n buffer with every cofactor in two nested loops and transposes it returns `Adjoint(mat)` |
| `Matrices.FilledCofactors` | src/App.tsx:100-106 | a buffer holding every cofactor reads back as the cofactor matrix |
| `MatrixFacts.Adjoint2x2` | src/App.tsx:96-107 | the adjoint of [[a,b],[c,d]] is [[d,-b],[-c,a]] |
| `MatrixFacts.AdjointExample` | src/App.tsx:96-107 | the adjoint of [[1,2],[3,4]] is [[4,-2],[-3,1]] |
| `MatrixFacts.AdjointCorner` | src/App.tsx:96-107 | for every size, entry (0, 0) of M·adj(M) is det(M) |
| `MatrixFacts.CornerSum` | src/App.tsx:96-107 | each partial row-by-column sum for entry (0, 0) of M·adj(M) equals the same partial sum of the determinant's expansion |
| `MatrixFacts.AdjointProduct2x2` | src/App.tsx:96-107 | for 2x2 matrices M·adj(M) is det(M) times the identity |
| `MatrixFacts.ProductWithAdjugate2x2` | src/App.tsx:96-107 | [[a,b],[c,d]] times [[d,-b],[-c,a]] is (ad - bc) times the identity |
| `Matrices.DivideEntries` | src/App.tsx:116 | every entry of the result times the divisor is the input's entry |
| `Matrices.CalculateInverse` | src/App.tsx:109-117 | no result exactly when `Abs(det) < 1e-10`; otherwise, for n >= 1, the adjoint divided entry by entry by the determinant |
| `MatrixFacts.Inverse2x2` | src/App.tsx:109-117 | for 2x2 matrices a returned inverse M⁻¹ satisfies M·M⁻¹ = I |
| `MatrixFacts.ProductWithScaledAdjugate2x2` | src/App.tsx:115-116 | a 2x2 matrix times its adjugate divided by its nonzero determinant is the identity |
| `MatrixFacts.InverseExample` | src/App.tsx:109-117 | the inverse of [[1,2],[3,4]] is [[-2,1],[1.5,-0.5]] |
| `MatrixFacts.ZeroRowIsSingular` | src/App.tsx:109-113 | a matrix with a zero row has no inverse |
| `MatrixFacts.ZeroColumnIsSingular` | src/App.tsx:109-113 | a matrix with a zero column has no inverse |
| `MatrixFacts.Det3x3` | src/App.tsx:73-84 | the engine's determinant of a 3x3 matrix is the written-out sum of the three signed products of row 0 with its 2x2 minors |
| `MatrixFacts.EqualRowsAreSingular2x2` | src/App.tsx:109-113 | a 2x2 matrix with two equal rows has determinant 0, so no inverse is returned and the calculator shows singular |
| `MatrixFacts.EqualRowsAreSingular3x3` | src/App.tsx:109-113 | a 3x3 matrix with any two equal rows has determinant 0, so it has no inverse |
| `Calculator.MatrixOutcome` | src/App.tsx:119-147 | the stored result is `singular` exactly for an inverse with `Abs(det) < 1e-10`. It is `Det(m)` for the determinant, `Transpose(m)` for the transpose, `Adjoint(m)` for the adjoint, and the adjoint divided by the determinant for an invertible inverse; every matrix result is n x n |
| `Calculator.CalculatorState.HandleCalculate` | src/App.tsx:119-147 | records the operation and stores `MatrixOutcome(op, matrix)`; nothing else changes. The determinant, adjoint and inverse branches call the determinant and adjoint methods, as `calculateInverse` does. A determinant below `1e-10` in magnitude is stored as `Singular`, and otherwise the adjoint divided by the determinant |
| `Calculator.CalculatorState.constructor` | src/App.tsx:8-22 | a 3x3 zero matrix, two zero vectors, no operations and no results |
| `Vectors.DotProduct` | src/App.tsx:149-152 | the reduce with running sum from 0, which for 3-vectors is `v1[0]*v2[0] + v1[1]*v2[1] + v1[2]*v2[2]` |
| `VectorFacts.SumOfProductsSymmetric` | src/App.tsx:150 | every partial sum of the reduce is unchanged when the vectors are swapped |
| `VectorFacts.DotCommutative` | src/App.tsx:149-152 | `dot(v1, v2) == dot(v2, v1)` |
| `VectorFacts.DotSelf` | src/App.tsx:149-152 | `dot(v, v)` is the squared length of `v`, is non-negative, and is 0 exactly for the zero vector |
| `VectorFacts.DotExample` | src/App.tsx:149-152 | `[1,2,3]·[4,5,6] == 32` |
| `Vectors.CrossProduct` | src/App.tsx:154-161 | always a 3-vector; its orthogonality to both inputs is the next row |
| `Vectors.Orthogonal` | src/App.tsx:154-161 | the cross product's dot product with either input is 0 |
| `VectorFacts.CrossAntiCommutative` | src/App.tsx:154-161 | `cross(v1, v2) == -cross(v2, v1)` component by component |
| `VectorFacts.CrossSelfZero` | src/App.tsx:154-161 | `cross(v, v) == [0, 0, 0]` |
| `VectorFacts.CrossExample` | src/App.tsx:154-161 | `[1,2,3] x [4,5,6] == [-3,6,-3]` |
| `Vectors.SquaredLength` | src/App.tsx:165-166 | the sum of squared components is non-negative and is 0 exactly for the zero vector |
| `Vectors.Magnitude` | src/App.tsx:165-166 | the square root of the sum of squares is non-negative, squares to it, and is 0 exactly for the zero vector |
| `Vectors.Lagrange` | src/App.tsx:171-178 | the squared length of v1 x v2 plus (v1·v2)^2 is the product of the squared lengths of v1 and v2 |
| `Vectors.CauchySchwarz` | src/App.tsx:163-169 | (v1·v2)^2 is at most the product of the squared lengths of v1 and v2 |
| `Vectors.CrossBound` | src/App.tsx:171-178 | the squared length of v1 x v2 is at most the product of the squared lengths of v1 and v2 |
| `Vectors.CosBound` | src/App.tsx:163-169 | the dot product lies between minus and plus the product of the magnitudes, so the cosine's quotient stays within [-1, 1] |
| `Vectors.SinBound` | src/App.tsx:171-178 | the cross product's magnitude is at most the product of the magnitudes, so the sine's quotient is at most 1 |
| `Vectors.CosCalculate` | src/App.tsx:163-169 | 0 when either vector is zero; otherwise the result times the product of the magnitudes is the dot product; always within [-1, 1] |
| `Vectors.SinCalculate` | src/App.tsx:171-178 | 0 when either vector is zero; otherwise the result times the product of the magnitudes is the cross product's magnitude; always within [0, 1] |
| `VectorFacts.AnglesSymmetric` | src/App.tsx:163-178 | cosine and sine do not depend on the order of the vectors |
| `VectorFacts.ParallelSelf` | src/App.tsx:163-178 | for a nonzero vector, cos(v, v) is 1 and sin(v, v) is 0 |
| `VectorFacts.Pythagorean` | src/App.tsx:163-178 | for nonzero vectors, sin^2 + cos^2 == 1 |
| `VectorFacts.PerpendicularExample` | src/App.tsx:163-178 | for the unit vectors along x and y, the cosine is 0 and the sine is 1 |
| `VectorFacts.ZeroVectorAngles` | src/App.tsx:167 | when either vector is [0,0,0], both the cosine and the sine are 0 |
| `Calculator.VectorOutcome` | src/App.tsx:180-199 | the stored result is the dot product, the cross product, the cosine or the sine of the two vectors as the operation says. It is a vector exactly for the cross product, and a zero input gives 0 for the cosine and the sine |
| `Calculator.CalculatorState.HandleVectorCalculate` | src/App.tsx:180-199 | records the operation and stores `VectorOutcome(op, vector1, vector2, sqrt)`; nothing else changes |

## Left out

- React state setters for the inputs, the other event handlers and all rendering are left out. This covers size change, cell edits, vector edits, clearing, tab switching, `toFixed` formatting and the operation names. The matrix and vectors in `Calculator.CalculatorState` are therefore never changed by the model.
- The `dotResult` and `crossResult` state and the random matrix and vector generators are left out. The generators depend on `Math.random`.
- The `parseFloat(value) || 0` input coercion is left out. Inputs are real numbers.
- IEEE-754 rounding and `NaN` are not modelled. Numbers are exact reals, and only the `1e-10` threshold is kept, as the constant `Epsilon`.
- `Math.sqrt` is a function parameter `sqrt` assumed to be a true square root (`IsSqrt`). The cosine and sine results hold for any such function.
- Two equal rows are proved to make the matrix singular only for 2x2 and 3x3 matrices (`EqualRowsAreSingular2x2`, `EqualRowsAreSingular3x3`). For larger sizes it needs the expansion along arbitrary rows, as in the next line.
- A general M·M⁻¹ = I is proved only for 2x2 matrices. For every size, the corner entry (0, 0) of M·adj(M) is proved to be det(M). The other entries need expansion along arbitrary rows.
- Vectors.DotProduct: requires `v2` to be at least as long as `v1`. With a shorter `v2` the source reads `undefined` and yields `NaN`, which reals cannot express.
- The empty matrix never reaches the engine, because the size is at least 1. `Det` of a 0x0 matrix is the empty loop's 0, which is what the source's code path would return. `Transpose` requires at least one row, because the source reads `mat[0]`.
- The engine never modifies its input matrix. In the model matrices are immutable sequence values, so this holds by construction rather than by a stated contract.
