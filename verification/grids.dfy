/**
 * Exact specification of the dense-matrix library's arithmetic.
 *
 * A matrix value is a grid: a sequence of rows, each a sequence of `real`
 * elements. Elements are exact reals, so the library's `double` rounding is
 * not modelled; its two `1e-6` comparisons become comparisons against EPS.
 * The functions here are the reference definitions the imperative methods of
 * module S21Matrix are proved against; the lemmas state what those
 * definitions promise.
 */
module Grids {

  type Grid = seq<seq<real>>

  /** The tolerance of equality and of the singularity test (`1e-6`). */
  const EPS: real := 0.000001

  /** `fabs` on exact reals. */
  function Abs(x: real): (r: real)
    ensures r >= 0.0
    ensures r == x || r == -x
  {
    if x < 0.0 then -x else x
  }

  /** `pow(-1, k)`: the sign of the cofactor in position k. */
  function Sign(k: nat): real
  {
    if k % 2 == 0 then 1.0 else -1.0
  }

  /** `g` has exactly `r` rows of `c` elements each. */
  predicate IsShape(g: Grid, r: nat, c: nat)
  {
    |g| == r && forall i :: 0 <= i < r ==> |g[i]| == c
  }

  function Cols(g: Grid): nat
  {
    if |g| == 0 then 0 else |g[0]|
  }

  /** What an allocated matrix holds: at least one row and one column, rectangular. */
  predicate IsMatrix(g: Grid)
  {
    |g| >= 1 && Cols(g) >= 1 && IsShape(g, |g|, Cols(g))
  }

  predicate IsSquare(g: Grid)
  {
    IsMatrix(g) && Cols(g) == |g|
  }

  /** Two grids of one shape are equal when they agree at every position. */
  lemma Ext(g: Grid, h: Grid, r: nat, c: nat)
    requires IsShape(g, r, c) && IsShape(h, r, c)
    requires forall i, j :: 0 <= i < r && 0 <= j < c ==> g[i][j] == h[i][j]
    ensures g == h
  {
    forall i | 0 <= i < r
      ensures g[i] == h[i]
    {
      assert |g[i]| == |h[i]| == c;
      forall j | 0 <= j < c ensures g[i][j] == h[i][j] { }
    }
  }

  /** Two elements within the tolerance of each other. */
  predicate Near(x: real, y: real)
  {
    Abs(x - y) <= EPS
  }

  /** Equality within the tolerance, position by position. */
  predicate Close(g: Grid, h: Grid)
    requires IsMatrix(g) && IsShape(h, |g|, Cols(g))
  {
    forall i, j :: 0 <= i < |g| && 0 <= j < Cols(g) ==> Near(g[i][j], h[i][j])
  }

  /** The contents of a freshly created matrix (`calloc`). */
  function Zeros(r: nat, c: nat): (z: Grid)
    ensures IsShape(z, r, c)
    ensures forall i, j :: 0 <= i < r && 0 <= j < c ==> z[i][j] == 0.0
  {
    seq(r, i requires 0 <= i < r => seq(c, j requires 0 <= j < c => 0.0))
  }

  // ---------------------------------------------------------------------
  // Elementwise and linear operations
  // ---------------------------------------------------------------------

  function SumOf(g: Grid, h: Grid): (s: Grid)
    requires IsMatrix(g) && IsShape(h, |g|, Cols(g))
    ensures IsShape(s, |g|, Cols(g)) && IsMatrix(s)
    ensures forall i, j :: 0 <= i < |g| && 0 <= j < Cols(g) ==> s[i][j] == g[i][j] + h[i][j]
  {
    seq(|g|, i requires 0 <= i < |g| =>
      seq(Cols(g), j requires 0 <= j < Cols(g) => g[i][j] + h[i][j]))
  }

  function DiffOf(g: Grid, h: Grid): (d: Grid)
    requires IsMatrix(g) && IsShape(h, |g|, Cols(g))
    ensures IsShape(d, |g|, Cols(g)) && IsMatrix(d)
    ensures forall i, j :: 0 <= i < |g| && 0 <= j < Cols(g) ==> d[i][j] == g[i][j] - h[i][j]
  {
    seq(|g|, i requires 0 <= i < |g| =>
      seq(Cols(g), j requires 0 <= j < Cols(g) => g[i][j] - h[i][j]))
  }

  function ScaleOf(g: Grid, k: real): (s: Grid)
    requires IsMatrix(g)
    ensures IsShape(s, |g|, Cols(g)) && IsMatrix(s)
    ensures forall i, j :: 0 <= i < |g| && 0 <= j < Cols(g) ==> s[i][j] == g[i][j] * k
  {
    seq(|g|, i requires 0 <= i < |g| =>
      seq(Cols(g), j requires 0 <= j < Cols(g) => g[i][j] * k))
  }

  /** Row `i` of g times column `j` of h, over the first `k` terms. */
  function Dot(g: Grid, h: Grid, i: nat, j: nat, k: nat): real
    requires IsMatrix(g) && IsMatrix(h) && Cols(g) == |h|
    requires i < |g| && j < Cols(h) && k <= |h|
  {
    if k == 0 then 0.0 else Dot(g, h, i, j, k - 1) + g[i][k - 1] * h[k - 1][j]
  }

  function MulOf(g: Grid, h: Grid): (p: Grid)
    requires IsMatrix(g) && IsMatrix(h) && Cols(g) == |h|
    ensures IsShape(p, |g|, Cols(h)) && IsMatrix(p)
    ensures forall i, j :: 0 <= i < |g| && 0 <= j < Cols(h) ==> p[i][j] == Dot(g, h, i, j, |h|)
  {
    seq(|g|, i requires 0 <= i < |g| =>
      seq(Cols(h), j requires 0 <= j < Cols(h) => Dot(g, h, i, j, |h|)))
  }

  function TransposeOf(g: Grid): (t: Grid)
    requires IsMatrix(g)
    ensures IsShape(t, Cols(g), |g|) && IsMatrix(t)
    ensures forall i, j :: 0 <= i < |g| && 0 <= j < Cols(g) ==> t[j][i] == g[i][j]
  {
    seq(Cols(g), j requires 0 <= j < Cols(g) =>
      seq(|g|, i requires 0 <= i < |g| => g[i][j]))
  }

  function Identity(n: nat): (e: Grid)
    requires n >= 1
    ensures IsShape(e, n, n) && IsSquare(e)
    ensures forall i, j :: 0 <= i < n && 0 <= j < n ==> e[i][j] == if i == j then 1.0 else 0.0
  {
    seq(n, i requires 0 <= i < n => seq(n, j requires 0 <= j < n => if i == j then 1.0 else 0.0))
  }

  // ---------------------------------------------------------------------
  // Minor, determinant, cofactor matrix, inverse
  // ---------------------------------------------------------------------

  /** Index in the full matrix of index `i` of a minor that dropped index `r`. */
  function Skip(i: nat, r: nat): nat
  {
    if i < r then i else i + 1
  }

  /** Index in the minor of index `i` of the full matrix (the library's `m--`). */
  function Shift(i: nat, r: nat): int
  {
    if i > r then i - 1 else i
  }

  /** The matrix `g` without row `r` and column `c` (0-based). */
  function MinorOf(g: Grid, r: nat, c: nat): (m: Grid)
    requires IsMatrix(g) && |g| >= 2 && Cols(g) >= 2
    requires r < |g| && c < Cols(g)
    ensures IsShape(m, |g| - 1, Cols(g) - 1) && IsMatrix(m)
    ensures forall i, j :: 0 <= i < |g| - 1 && 0 <= j < Cols(g) - 1 ==> m[i][j] == g[Skip(i, r)][Skip(j, c)]
  {
    seq(|g| - 1, i requires 0 <= i < |g| - 1 =>
      seq(Cols(g) - 1, j requires 0 <= j < Cols(g) - 1 => g[Skip(i, r)][Skip(j, c)]))
  }

  /**
   * The determinant, with the library's two base cases: the single element of
   * a 1x1 matrix, `a*d - b*c` for a 2x2 matrix, and cofactor expansion along
   * row 0 above that.
   */
  function Det(g: Grid): real
    requires IsSquare(g)
    decreases |g|, 2
  {
    if |g| == 1 then g[0][0]
    else if |g| == 2 then g[0][0] * g[1][1] - g[0][1] * g[1][0]
    else Laplace(g, |g|)
  }

  /** The first `k` terms of the cofactor expansion of `g` along row 0. */
  function Laplace(g: Grid, k: nat): real
    requires IsSquare(g) && |g| >= 2 && k <= |g|
    decreases |g|, 1, k
  {
    if k == 0 then 0.0
    else Laplace(g, k - 1) + Term(g, k - 1)
  }

  /** Term k of the cofactor expansion of `g` along row 0. */
  function Term(g: Grid, k: nat): real
    requires IsSquare(g) && |g| >= 2 && k < |g|
    decreases |g|, 0, 0
  {
    Sign(k) * g[0][k] * Det(MinorOf(g, 0, k))
  }

  /**
   * The cofactor matrix. A 1x1 matrix has the cofactor matrix [[1]] by the
   * library's convention (which makes the inverse of [[x]] come out as [[1/x]]).
   */
  function Cof(g: Grid): (m: Grid)
    requires IsSquare(g)
    ensures IsShape(m, |g|, |g|) && IsSquare(m)
  {
    if |g| == 1 then [[1.0]]
    else
      seq(|g|, i requires 0 <= i < |g| =>
        seq(|g|, j requires 0 <= j < |g| => CofEntry(g, i, j)))
  }

  /** The signed determinant of the minor at (i, j). */
  function CofEntry(g: Grid, i: nat, j: nat): real
    requires IsSquare(g) && |g| >= 2 && i < |g| && j < |g|
  {
    Sign(i + j) * Det(MinorOf(g, i, j))
  }

  /** Entry (i, j) of the cofactor matrix of a matrix of size 2 or more. */
  lemma CofAt(g: Grid, i: nat, j: nat)
    requires IsSquare(g) && |g| >= 2 && i < |g| && j < |g|
    ensures Cof(g)[i][j] == CofEntry(g, i, j)
  {
  }

  /** The adjugate scaled by the reciprocal of the determinant. */
  function InverseOf(g: Grid): (v: Grid)
    requires IsSquare(g) && Det(g) != 0.0
    ensures IsShape(v, |g|, |g|) && IsSquare(v)
  {
    ScaleOf(TransposeOf(Cof(g)), 1.0 / Det(g))
  }
}
