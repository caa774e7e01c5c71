# s21_matrix in Dafny

A verified model of the dense-matrix library in `src/s21_matrix.c`. The
library works on `matrix_t` values, each a row count, a column count and a
row-pointer grid of `double`s. It covers these operations:

- creation and release;
- equality within `1e-6`;
- sum, difference, scalar product, matrix product and transpose;
- `Minor`, the recursive determinant, the cofactor matrix and the inverse.

Every operation except release, the recursive determinant and the equality
test returns an integer status code. Release returns nothing, the recursive
determinant returns the determinant itself, and the equality test answers
`SUCCESS` or `FAILURE`.

The project has three modules.

- `S21Matrix` (`matrix.dfy`) is the imperative model.
  - `class Matrix` holds `rows`, `columns` and `cells: array2?<real>`. A
    null `cells` is the library's `matrix == NULL`.
  - A ghost field `grid` holds the elements as a sequence of rows.
    `Valid()` ties it to `cells`.
  - `Create` and `Remove` assign the fields, as the C functions do through
    their pointer argument.
  - Each other C function is a method with the same arguments and the same
    checks in the same order. It fills its freshly created output with the
    same nested loops.
  - Four loop bodies or loop nests are separate methods:
    - `FillProduct` (the loops of `s21_mult_matrix`);
    - `CopyMinor` (the loops of `Minor`);
    - `ExpansionTerm` (one pass of the loop in `s21_determinant_recursive`);
    - `CofactorStep` (one pass of the inner loop of `calc_helper`).

    Each is proved once and used by its operation. The statements, their
    order and the temporary minors are as in the C code.
- `Grids` (`grids.dfy`) is the exact reference the methods are proved
  against. It defines the tolerance predicates `Near` and `Close`. It
  defines the grid functions `SumOf`, `DiffOf`, `ScaleOf`, `MulOf`,
  `TransposeOf`, `MinorOf`, `Det` (with the library's 1x1 and 2x2 base
  cases and expansion along row 0), `Cof` (with the library's `[[1]]` for a
  1x1 input) and `InverseOf`.
- `GridLaws` (`laws.dfy`) proves what those definitions promise:
  - subtraction undoes addition;
  - transposing twice is the identity;
  - the identity matrix is a unit of the product;
  - the determinant of the identity is 1;
  - a matrix with a zero row is singular;
  - the identity is its own cofactor matrix and its own inverse;
  - the inverse of a 2x2 matrix is a right inverse;
  - the worked examples.

Status codes are `OK` 0, `INCORRECT` 1 and `CALC_ERROR` 2, as the code
returns them. The code uses one integer code, 2, for a shape mismatch, a
non-square input and a singular matrix, so the model does the same rather
than give each failure its own kind. The equality test answers `SUCCESS` 1
or `FAILURE` 0. The header that defines those two is not part of this
model. `FAILURE` is 0 because `s21_eq_matrix` starts from `status = 0` for
"not equal".

Elements are exact `real`s. `fabs` becomes `Abs`, `pow(-1, k)` becomes
`Sign(k)`, and `1e-6` becomes `EPS = 0.000001`.

## Model

| member | source | states |
|---|---|---|
| S21Matrix.Matrix.Empty | src/s21_matrix.c:173 | a declared temporary `matrix_t` (the library leaves it uninitialised) starts in the model with no storage and size 0 x 0; at lines 173 and 230 this cannot be seen, since `Minor`'s create overwrites every field before use |
| S21Matrix.Matrix.Create | src/s21_matrix.c:3-20 | status 1 exactly when rows < 1 or columns < 1, leaving the matrix untouched; otherwise status 0, the requested size, fresh storage, every element 0 |
| S21Matrix.Matrix.Remove | src/s21_matrix.c:22-36 | size becomes 0 x 0; allocated storage is dropped (`matrix = NULL`), leaving a valid empty matrix; on an already-empty matrix nothing changes, so a second release is a no-op |
| S21Matrix.Equal | src/s21_matrix.c:38-52 | returns only SUCCESS or FAILURE; SUCCESS exactly when both are allocated, the shapes agree and every pair of elements is within EPS; a shape mismatch is FAILURE, not an error |
| S21Matrix.Sum | src/s21_matrix.c:54-73 | 1 if an input is unallocated, 2 if the shapes differ (result untouched); otherwise 0 and the result has A's shape with A[i][j] + B[i][j]; only `result` is written |
| S21Matrix.Sub | src/s21_matrix.c:75-94 | as Sum, with A[i][j] - B[i][j] |
| S21Matrix.MultNumber | src/s21_matrix.c:96-109 | 1 if unallocated (result untouched); otherwise 0 and A's shape with A[i][j] * number |
| S21Matrix.MultMatrix | src/s21_matrix.c:111-130 | 1 if unallocated, 2 when A.columns != B.rows (result untouched); otherwise 0 and an A.rows x B.columns result equal to the product |
| S21Matrix.FillProduct | src/s21_matrix.c:116-122 | starting from the zero fill of create, the `+=` loops leave every element equal to the full row-by-column sum |
| S21Matrix.Transpose | src/s21_matrix.c:132-149 | 1 if unallocated (result untouched); otherwise 0 and a columns x rows result with result[j][i] = A[i][j] |
| S21Matrix.Minor | src/s21_matrix.c:183-207 | 1 for an unallocated input or one with a single row or column; otherwise 0 and a (rows-1) x (columns-1) result equal to A without 1-based row `row` and column `column` |
| S21Matrix.CopyMinor | src/s21_matrix.c:189-203 | the shifted-index writes fill every element of the minor with the element of A at the index skipped past the deleted row and column |
| S21Matrix.Determinant | src/s21_matrix.c:151-164 | 1 for unallocated, 2 for non-square, both leaving the caller's value as it was; otherwise 0 and the determinant (the element itself for 1x1) |
| S21Matrix.DeterminantRecursive | src/s21_matrix.c:166-181 | the result is the determinant: the a*d - b*c formula for 2x2, the sum of signed expansion terms along row 0 above that |
| S21Matrix.ExpansionTerm | src/s21_matrix.c:172-178 | one loop pass yields (-1)^i * A[0][i] * det(minor at (0, i)) |
| S21Matrix.CalcComplements | src/s21_matrix.c:209-221 | 1 for unallocated, 2 for non-square (result untouched); otherwise 0 and the cofactor matrix |
| S21Matrix.CalcHelper | src/s21_matrix.c:223-243 | always returns 0 and leaves the cofactor matrix: [[1]] for 1x1, otherwise (-1)^(i+j) * det(minor at (i, j)) in every cell |
| S21Matrix.CofactorStep | src/s21_matrix.c:228-239 | one inner-loop pass writes the cofactor at (i, j) and no other element |
| S21Matrix.Inverse | src/s21_matrix.c:245-266 | 1 for unallocated; 2 for non-square whatever the uninitialised det holds; for square input 0 exactly when abs(det) > EPS, and then the result is the transposed cofactor matrix scaled by 1/det; result untouched on failure |
| Grids.Sign | src/s21_matrix.c:176 | `pow(-1, k)`: 1 for even k, -1 for odd k (also the sign at line 235) |
| Grids.Near | src/s21_matrix.c:45 | two elements differ by at most EPS |
| Grids.Close | src/s21_matrix.c:43-49 | every pair of elements at one position differs by at most EPS |
| Grids.Dot | src/s21_matrix.c:118-119 | the first k terms of row i of A times column j of B, the running `+=` sum |
| Grids.Shift | src/s21_matrix.c:190-198 | the `m--` / `n--` index: one less past the deleted row or column, unchanged before it |
| Grids.Det | src/s21_matrix.c:151-181 | the element itself for 1x1, a*d - b*c for 2x2, expansion along row 0 for larger sizes |
| Grids.Laplace | src/s21_matrix.c:172-178 | the running `result +=` sum of the first k expansion terms |
| Grids.Term | src/s21_matrix.c:174-176 | expansion term k: (-1)^k * A[0][k] * det(minor at (0, k)) |
| Grids.CofEntry | src/s21_matrix.c:231-235 | the signed determinant of the minor at (i, j) |
| Grids.Abs | src/s21_matrix.c:45 | `fabs`: non-negative, and equal to x or -x |
| Grids.Zeros | src/s21_matrix.c:9-12 | the `calloc` fill: the requested shape, every element 0 |
| Grids.SumOf | src/s21_matrix.c:59-63 | same shape, each element the sum |
| Grids.DiffOf | src/s21_matrix.c:80-84 | same shape, each element the difference |
| Grids.ScaleOf | src/s21_matrix.c:100-104 | same shape, each element times k |
| Grids.MulOf | src/s21_matrix.c:116-122 | A.rows x B.columns, each element the dot product of a row of A and a column of B |
| Grids.TransposeOf | src/s21_matrix.c:137-141 | columns x rows, result[j][i] = A[i][j] |
| Grids.MinorOf | src/s21_matrix.c:189-203 | one row and one column fewer, element (i, j) taken from (i, j) skipped past the deleted row and column |
| Grids.Cof | src/s21_matrix.c:223-243 | a square matrix of the input's size |
| Grids.CofAt | src/s21_matrix.c:235 | for size 2 or more, cell (i, j) is the sign (-1)^(i+j) times the determinant of the minor at (i, j) |
| Grids.InverseOf | src/s21_matrix.c:256-258 | a square matrix of the input's size |
| GridLaws.CloseReflexive | src/s21_matrix.c:38-52 | every allocated matrix is equal to itself |
| GridLaws.CloseSymmetric | src/s21_matrix.c:38-52 | the equality test does not depend on the order of its arguments |
| GridLaws.SumCommutes | src/s21_matrix.c:61 | A + B = B + A |
| GridLaws.SubAddCancel | src/s21_matrix.c:54-94 | (A + B) - B = A exactly |
| GridLaws.SubSelf | src/s21_matrix.c:75-94 | A - A is the zero matrix of A's shape |
| GridLaws.ScaleOne | src/s21_matrix.c:96-109 | scaling by 1 changes nothing |
| GridLaws.ScaleInverse | src/s21_matrix.c:96-109 | scaling by k != 0 and then by 1/k gives back A |
| GridLaws.TransposeTwice | src/s21_matrix.c:132-149 | transposing twice gives back A |
| GridLaws.TransposeIdentity | src/s21_matrix.c:132-149 | the identity is its own transpose |
| GridLaws.DotIdentityRight | src/s21_matrix.c:118-120 | a partial sum against an identity column picks out one element of A |
| GridLaws.DotIdentityLeft | src/s21_matrix.c:118-120 | a partial sum against an identity row picks out one element of B |
| GridLaws.MulIdentityRight | src/s21_matrix.c:111-130 | A * I = A |
| GridLaws.MulIdentityLeft | src/s21_matrix.c:111-130 | I * B = B |
| GridLaws.Mul2 | src/s21_matrix.c:116-122 | the product of two 2x2 matrices, entry by entry |
| GridLaws.MinorOfShifted | src/s21_matrix.c:189-203 | every element off the deleted row and column lands in the minor at (i - [i > r], j - [j > c]) |
| GridLaws.MinorOfTranspose | src/s21_matrix.c:183-207 | deleting row r and column c commutes with transposition |
| GridLaws.MinorIdentity | src/s21_matrix.c:183-207 | deleting row 0 and column 0 of I(n) gives I(n-1) |
| GridLaws.Det2IsExpansion | src/s21_matrix.c:168-178 | the 2x2 shortcut a*d - b*c agrees with expansion along row 0 |
| GridLaws.LaplaceIdentity | src/s21_matrix.c:172-178 | expanding I(n) along row 0, only the first term is nonzero |
| GridLaws.DetIdentity | src/s21_matrix.c:151-181 | the determinant of every n x n identity is 1 |
| GridLaws.DetZeroRow | src/s21_matrix.c:151-181 | a square matrix with a row of zeros, any row, has determinant 0 |
| GridLaws.LaplaceZeroRow | src/s21_matrix.c:172-178 | every partial expansion of such a matrix is 0 |
| GridLaws.Minor3 | src/s21_matrix.c:183-207 | the minors along row 0 of a 3x3 matrix, written out |
| GridLaws.Det3 | src/s21_matrix.c:166-181 | the determinant of a 3x3 matrix is the expansion along its first row |
| GridLaws.Cof2 | src/s21_matrix.c:223-243 | the cofactor matrix of [[a, b], [c, d]] is [[d, -c], [-b, a]] |
| GridLaws.DetMinorIdentity | src/s21_matrix.c:183-207 | the minor of I(n) at (i, j) has determinant 1 on the diagonal and 0 off it |
| GridLaws.CofIdentity | src/s21_matrix.c:223-243 | the identity is its own cofactor matrix |
| GridLaws.InverseIdentity | src/s21_matrix.c:245-266 | the identity has determinant 1 and is its own inverse |
| GridLaws.Inverse1 | src/s21_matrix.c:245-266 | with the [[1]] convention the inverse of [[x]] is [[1/x]] |
| GridLaws.Inverse2Arith | src/s21_matrix.c:258 | the four entries of A times its scaled adjugate, for 2x2 |
| GridLaws.InverseOf2 | src/s21_matrix.c:245-266 | the inverse of a 2x2 matrix written out: its adjugate times 1/(a*d - b*c) |
| GridLaws.Inverse2 | src/s21_matrix.c:245-266 | A * inverse(A) = I for every invertible 2x2 A |
| GridLaws.ExampleDet2 | src/s21_matrix.c:166-170 | det([[1, 2], [3, 4]]) = -2 |
| GridLaws.ExampleProduct | src/s21_matrix.c:111-130 | [[1, 2], [3, 4]] * [[5, 6], [7, 8]] = [[19, 22], [43, 50]] |
| GridLaws.ExampleSingular | src/s21_matrix.c:166-181 | det([[1, 2, 3], [2, 4, 6], [0, 1, 1]]) = 0: a matrix with proportional rows is singular |

## Left out

- Elements are exact reals. IEEE-754 rounding, and `fabs` and `pow` as library calls, are not modelled, so "within 1e-6 of" results hold exactly.
- Allocation failure is not modelled: `calloc` returning NULL (src/s21_matrix.c:9-17), the unchecked per-row `calloc` (line 12), and the operations that write into `result` without checking create's status (e.g. lines 58-61). In the model, creation with a size of at least 1 x 1 always succeeds. An allocated input always has such a size, so the unchecked status is always 0.
- Memory ownership is abstract: row pointers, `free`, and storage leaked when an operation overwrites an already-allocated `result` are not modelled. Create simply installs new storage. The temporaries `minor`, `minored`, `tmp_calc` and `tmp_trans` (lines 173, 230, 252, 255) are uninitialised in the library and start empty in the model. For a non-square input whose uninitialised `det` passes the test at line 251, `s21_calc_complements` returns 2 at line 212 without touching `tmp_calc`. The library then releases the uninitialised `tmp_calc` at line 262, which is undefined behaviour. In the model that release is a no-op and status 2 comes back cleanly.
- The `A->columns != NAN` guard of `s21_transpose` (line 135) always holds, so its status-2 branch is not modelled.
- `s21_inverse_matrix` reads `det` uninitialised for a non-square input (lines 249-251). The model lets `det` start as an arbitrary value and proves the status is 2 whatever it holds.
- The header `s21_matrix.h` is not part of this model. `SUCCESS` and `FAILURE` are constants of the model.
- Aliasing is excluded. The operations require `result` to be a different matrix from their inputs. The callers in the file never pass the same matrix twice.
- S21Matrix.Minor: requires 1 <= row <= rows and 1 <= column <= columns for an allocated input of at least 2 x 2. Outside that range the C loops write outside the result, which is undefined behaviour. A 1 x n or n x 1 input is allowed any indices and answers 1, as the failed create at line 186 does.
- GridLaws.Inverse2: A * inverse(A) = I is proved for 2x2 matrices only, and for 1x1 and for the identity of every size through Inverse1 and InverseIdentity. The general adjugate theorem is not proved.
- GridLaws.ExampleSingular: "proportional rows give determinant 0" is proved for this example only. For any size, only a zero row is covered, by DetZeroRow.
