/**
 * Laws of the reference definitions in module Grids: each operation of the
 * library is paired here with an inverse, an identity or an invariant that
 * its exact definition satisfies.
 */
module GridLaws {
  import opened Grids

  // ---------------------------------------------------------------------
  // Equality within the tolerance
  // ---------------------------------------------------------------------

  /** Every matrix is equal to itself. */
  lemma CloseReflexive(g: Grid)
    requires IsMatrix(g)
    ensures Close(g, g)
  {
    forall i, j | 0 <= i < |g| && 0 <= j < Cols(g)
      ensures Near(g[i][j], g[i][j])
    {
    }
  }

  /** The tolerance test does not depend on the order of its arguments. */
  lemma CloseSymmetric(g: Grid, h: Grid)
    requires IsMatrix(g) && IsShape(h, |g|, Cols(g))
    ensures IsMatrix(h) && Cols(h) == Cols(g)
    ensures Close(g, h) <==> Close(h, g)
  {
    assert Cols(h) == |h[0]| == Cols(g);
  }

  // ---------------------------------------------------------------------
  // Sum, difference, scaling, transpose
  // ---------------------------------------------------------------------

  lemma {:induction false} SumCommutes(g: Grid, h: Grid)
    requires IsMatrix(g) && IsShape(h, |g|, Cols(g))
    ensures IsMatrix(h) && Cols(h) == Cols(g)
    ensures SumOf(g, h) == SumOf(h, g)
  {
    assert Cols(h) == |h[0]| == Cols(g);
    Ext(SumOf(g, h), SumOf(h, g), |g|, Cols(g));
  }

  /** Subtracting what was added gives back the original matrix. */
  lemma {:induction false} SubAddCancel(g: Grid, h: Grid)
    requires IsMatrix(g) && IsShape(h, |g|, Cols(g))
    ensures DiffOf(SumOf(g, h), h) == g
  {
    var s := SumOf(g, h);
    assert Cols(s) == |s[0]| == Cols(g);
    Ext(DiffOf(s, h), g, |g|, Cols(g));
  }

  /** A matrix minus itself is the zero matrix. */
  lemma {:induction false} SubSelf(g: Grid)
    requires IsMatrix(g)
    ensures DiffOf(g, g) == Zeros(|g|, Cols(g))
  {
    Ext(DiffOf(g, g), Zeros(|g|, Cols(g)), |g|, Cols(g));
  }

  lemma {:induction false} ScaleOne(g: Grid)
    requires IsMatrix(g)
    ensures ScaleOf(g, 1.0) == g
  {
    Ext(ScaleOf(g, 1.0), g, |g|, Cols(g));
  }

  /** Scaling by a nonzero number is undone by scaling by its reciprocal. */
  lemma {:induction false} ScaleInverse(g: Grid, k: real)
    requires IsMatrix(g) && k != 0.0
    ensures ScaleOf(ScaleOf(g, k), 1.0 / k) == g
  {
    var s := ScaleOf(g, k);
    assert Cols(s) == |s[0]| == Cols(g);
    forall i, j | 0 <= i < |g| && 0 <= j < Cols(g)
      ensures ScaleOf(s, 1.0 / k)[i][j] == g[i][j]
    {
      assert s[i][j] * (1.0 / k) == g[i][j] * (k * (1.0 / k));
    }
    Ext(ScaleOf(s, 1.0 / k), g, |g|, Cols(g));
  }

  /** Transposing twice gives back the original matrix. */
  lemma {:induction false} TransposeTwice(g: Grid)
    requires IsMatrix(g)
    ensures TransposeOf(TransposeOf(g)) == g
  {
    var t := TransposeOf(g);
    assert Cols(t) == |t[0]| == |g|;
    Ext(TransposeOf(t), g, |g|, Cols(g));
  }

  /** The identity matrix is its own transpose. */
  lemma {:induction false} TransposeIdentity(n: nat)
    requires n >= 1
    ensures TransposeOf(Identity(n)) == Identity(n)
  {
    Ext(TransposeOf(Identity(n)), Identity(n), n, n);
  }

  // ---------------------------------------------------------------------
  // Matrix product
  // ---------------------------------------------------------------------

  lemma {:induction false} DotIdentityRight(g: Grid, i: nat, j: nat, k: nat)
    requires IsMatrix(g) && i < |g| && j < Cols(g) && k <= Cols(g)
    ensures Dot(g, Identity(Cols(g)), i, j, k) == if j < k then g[i][j] else 0.0
  {
    if k > 0 {
      DotIdentityRight(g, i, j, k - 1);
    }
  }

  lemma {:induction false} DotIdentityLeft(h: Grid, i: nat, j: nat, k: nat)
    requires IsMatrix(h) && i < |h| && j < Cols(h) && k <= |h|
    ensures Dot(Identity(|h|), h, i, j, k) == if i < k then h[i][j] else 0.0
  {
    if k > 0 {
      DotIdentityLeft(h, i, j, k - 1);
    }
  }

  /** The identity matrix is a right unit of the product. */
  lemma {:induction false} MulIdentityRight(g: Grid)
    requires IsMatrix(g)
    ensures MulOf(g, Identity(Cols(g))) == g
  {
    var p := MulOf(g, Identity(Cols(g)));
    forall i, j | 0 <= i < |g| && 0 <= j < Cols(g)
      ensures p[i][j] == g[i][j]
    {
      DotIdentityRight(g, i, j, Cols(g));
    }
    Ext(p, g, |g|, Cols(g));
  }

  /** The identity matrix is a left unit of the product. */
  lemma {:induction false} MulIdentityLeft(h: Grid)
    requires IsMatrix(h)
    ensures MulOf(Identity(|h|), h) == h
  {
    var p := MulOf(Identity(|h|), h);
    forall i, j | 0 <= i < |h| && 0 <= j < Cols(h)
      ensures p[i][j] == h[i][j]
    {
      DotIdentityLeft(h, i, j, |h|);
    }
    Ext(p, h, |h|, Cols(h));
  }

  // ---------------------------------------------------------------------
  // Minor and determinant
  // ---------------------------------------------------------------------

  /** Deleting row r and column c commutes with transposition. */
  lemma {:induction false} MinorOfTranspose(g: Grid, r: nat, c: nat)
    requires IsMatrix(g) && |g| >= 2 && Cols(g) >= 2 && r < |g| && c < Cols(g)
    ensures MinorOf(TransposeOf(g), c, r) == TransposeOf(MinorOf(g, r, c))
  {
    var t := TransposeOf(g);
    assert Cols(t) == |t[0]| == |g|;
    var m := MinorOf(g, r, c);
    assert Cols(m) == |m[0]| == Cols(g) - 1;
    Ext(MinorOf(t, c, r), TransposeOf(m), Cols(g) - 1, |g| - 1);
  }

  /**
   * Every element off the deleted row and column reappears in the minor at
   * its index shifted down past the deleted one.
   */
  lemma MinorOfShifted(g: Grid, r: nat, c: nat, i: nat, j: nat)
    requires IsMatrix(g) && |g| >= 2 && Cols(g) >= 2 && r < |g| && c < Cols(g)
    requires i < |g| && j < Cols(g) && i != r && j != c
    ensures 0 <= Shift(i, r) < |g| - 1 && 0 <= Shift(j, c) < Cols(g) - 1
    ensures MinorOf(g, r, c)[Shift(i, r)][Shift(j, c)] == g[i][j]
  {
    assert Skip(Shift(i, r), r) == i && Skip(Shift(j, c), c) == j;
  }

  /** The library's 2x2 formula agrees with cofactor expansion along row 0. */
  lemma Det2IsExpansion(g: Grid)
    requires IsSquare(g) && |g| == 2
    ensures Det(g) == Laplace(g, 2)
  {
    var m0, m1 := MinorOf(g, 0, 0), MinorOf(g, 0, 1);
    assert Det(m0) == m0[0][0] == g[1][1];
    assert Det(m1) == m1[0][0] == g[1][0];
    assert Laplace(g, 1) == Term(g, 0);
  }

  lemma {:induction false} MinorIdentity(n: nat)
    requires n >= 2
    ensures MinorOf(Identity(n), 0, 0) == Identity(n - 1)
  {
    Ext(MinorOf(Identity(n), 0, 0), Identity(n - 1), n - 1, n - 1);
  }

  /** Only the first term of the expansion of the identity is nonzero. */
  lemma {:induction false} LaplaceIdentity(n: nat, k: nat)
    requires n >= 2 && 1 <= k <= n
    ensures Laplace(Identity(n), k) == Det(Identity(n - 1))
  {
    var e := Identity(n);
    if k == 1 {
      MinorIdentity(n);
      assert e[0][0] == 1.0;
    } else {
      LaplaceIdentity(n, k - 1);
      assert e[0][k - 1] == 0.0;
    }
  }

  /** The determinant of the identity matrix is 1. */
  lemma {:induction false} DetIdentity(n: nat)
    requires n >= 1
    ensures Det(Identity(n)) == 1.0
  {
    var e := Identity(n);
    if n == 1 {
      assert e[0][0] == 1.0;
    } else if n == 2 {
      assert e[0][0] == 1.0 && e[1][1] == 1.0 && e[0][1] == 0.0;
    } else {
      LaplaceIdentity(n, n);
      DetIdentity(n - 1);
    }
  }

  /** Row r of g holds only zeros. */
  predicate ZeroRow(g: Grid, r: nat)
    requires IsMatrix(g) && r < |g|
  {
    forall j :: 0 <= j < Cols(g) ==> g[r][j] == 0.0
  }

  /** A matrix with a row of zeros has determinant 0. */
  lemma {:induction false} DetZeroRow(g: Grid, r: nat)
    requires IsSquare(g) && r < |g| && ZeroRow(g, r)
    ensures Det(g) == 0.0
    decreases |g|, 1
  {
    if |g| == 1 {
      assert g[0][0] == 0.0;
    } else if |g| == 2 {
      if r == 0 {
        assert g[0][0] == 0.0 && g[0][1] == 0.0;
      } else {
        assert g[1][0] == 0.0 && g[1][1] == 0.0;
      }
    } else {
      LaplaceZeroRow(g, r, |g|);
    }
  }

  lemma {:induction false} LaplaceZeroRow(g: Grid, r: nat, k: nat)
    requires IsSquare(g) && |g| >= 2 && r < |g| && ZeroRow(g, r) && k <= |g|
    ensures Laplace(g, k) == 0.0
    decreases |g|, 0, k
  {
    if k > 0 {
      LaplaceZeroRow(g, r, k - 1);
      if r == 0 {
        assert g[0][k - 1] == 0.0;
      } else {
        var m, s := MinorOf(g, 0, k - 1), r - 1;
        assert ZeroRow(m, s) by {
          forall j | 0 <= j < Cols(m)
            ensures m[s][j] == 0.0
          {
            assert m[s][j] == g[r][Skip(j, k - 1)];
          }
        }
        DetZeroRow(m, s);
      }
    }
  }

  // ---------------------------------------------------------------------
  // Cofactor matrix and inverse
  // ---------------------------------------------------------------------

  /** The cofactor matrix of a 2x2 matrix, written out. */
  lemma Cof2(g: Grid)
    requires IsSquare(g) && |g| == 2
    ensures Cof(g) == [[g[1][1], -g[1][0]], [-g[0][1], g[0][0]]]
  {
    var c := Cof(g);
    forall i, j | 0 <= i < 2 && 0 <= j < 2
      ensures c[i][j] == [[g[1][1], -g[1][0]], [-g[0][1], g[0][0]]][i][j]
    {
      CofAt(g, i, j);
      var m := MinorOf(g, i, j);
      assert Det(m) == m[0][0] == g[1 - i][1 - j];
    }
    Ext(c, [[g[1][1], -g[1][0]], [-g[0][1], g[0][0]]], 2, 2);
  }

  /** A minor of the identity matrix off the diagonal has a row of zeros. */
  lemma {:induction false} DetMinorIdentity(n: nat, i: nat, j: nat)
    requires n >= 2 && i < n && j < n
    ensures Det(MinorOf(Identity(n), i, j)) == if i == j then 1.0 else 0.0
  {
    var e := Identity(n);
    var m := MinorOf(e, i, j);
    if i == j {
      Ext(m, Identity(n - 1), n - 1, n - 1);
      DetIdentity(n - 1);
    } else {
      // Row j of the identity has its one in column j, which the minor drops.
      var r := if j < i then j else j - 1;
      assert Skip(r, i) == j;
      forall q | 0 <= q < n - 1
        ensures m[r][q] == 0.0
      {
        assert m[r][q] == e[j][Skip(q, j)];
      }
      assert ZeroRow(m, r);
      DetZeroRow(m, r);
    }
  }

  /** The identity matrix is its own cofactor matrix. */
  lemma {:induction false} CofIdentity(n: nat)
    requires n >= 1
    ensures Cof(Identity(n)) == Identity(n)
  {
    var e := Identity(n);
    if n >= 2 {
      forall i, j | 0 <= i < n && 0 <= j < n
        ensures Cof(e)[i][j] == e[i][j]
      {
        CofAt(e, i, j);
        DetMinorIdentity(n, i, j);
      }
    }
    Ext(Cof(e), e, n, n);
  }

  /** The identity matrix is its own inverse. */
  lemma {:induction false} InverseIdentity(n: nat)
    requires n >= 1
    ensures Det(Identity(n)) == 1.0
    ensures InverseOf(Identity(n)) == Identity(n)
  {
    DetIdentity(n);
    CofIdentity(n);
    TransposeIdentity(n);
    ScaleOne(Identity(n));
  }

  /** The inverse of a 1x1 matrix is the reciprocal of its element. */
  lemma Inverse1(x: real)
    requires x != 0.0
    ensures Det([[x]]) == x
    ensures InverseOf([[x]]) == [[1.0 / x]]
  {
    var v := InverseOf([[x]]);
    assert v[0][0] == 1.0 * (1.0 / x);
    Ext(v, [[1.0 / x]], 1, 1);
  }

  /** The four entries of the product of a 2x2 matrix and its adjugate over `1/d`. */
  lemma Inverse2Arith(a: real, b: real, c: real, e: real, w: real)
    requires (a * e - b * c) * w == 1.0
    ensures a * (e * w) + b * (-c * w) == 1.0
    ensures a * (-b * w) + b * (a * w) == 0.0
    ensures c * (e * w) + e * (-c * w) == 0.0
    ensures c * (-b * w) + e * (a * w) == 1.0
  {
    assert a * (e * w) + b * (-c * w) == (a * e - b * c) * w;
    assert c * (-b * w) + e * (a * w) == (a * e - b * c) * w;
  }

  /** The inverse of a 2x2 matrix, written out. */
  lemma {:induction false} InverseOf2(g: Grid, w: real)
    requires IsSquare(g) && |g| == 2 && Det(g) != 0.0 && w == 1.0 / Det(g)
    ensures Det(g) == g[0][0] * g[1][1] - g[0][1] * g[1][0]
    ensures InverseOf(g) == [[g[1][1] * w, -g[0][1] * w], [-g[1][0] * w, g[0][0] * w]]
  {
    Cof2(g);
    var t := TransposeOf(Cof(g));
    assert t == [[g[1][1], -g[0][1]], [-g[1][0], g[0][0]]] by {
      Ext(t, [[g[1][1], -g[0][1]], [-g[1][0], g[0][0]]], 2, 2);
    }
    var v := ScaleOf(t, w);
    assert Cols(t) == 2;
    assert InverseOf(g) == v;
    Ext(v, [[g[1][1] * w, -g[0][1] * w], [-g[1][0] * w, g[0][0] * w]], 2, 2);
  }

  /** The product of two 2x2 matrices, written out. */
  lemma {:induction false} Mul2(g: Grid, h: Grid)
    requires IsSquare(g) && |g| == 2 && IsSquare(h) && |h| == 2
    ensures MulOf(g, h) == [[g[0][0] * h[0][0] + g[0][1] * h[1][0], g[0][0] * h[0][1] + g[0][1] * h[1][1]],
                            [g[1][0] * h[0][0] + g[1][1] * h[1][0], g[1][0] * h[0][1] + g[1][1] * h[1][1]]]
  {
    var p := MulOf(g, h);
    var q := [[g[0][0] * h[0][0] + g[0][1] * h[1][0], g[0][0] * h[0][1] + g[0][1] * h[1][1]],
              [g[1][0] * h[0][0] + g[1][1] * h[1][0], g[1][0] * h[0][1] + g[1][1] * h[1][1]]];
    forall i, j | 0 <= i < 2 && 0 <= j < 2
      ensures p[i][j] == q[i][j]
    {
      assert Dot(g, h, i, j, 1) == g[i][0] * h[0][j];
      assert p[i][j] == Dot(g, h, i, j, 2) == g[i][0] * h[0][j] + g[i][1] * h[1][j];
      assert q[i][j] == g[i][0] * h[0][j] + g[i][1] * h[1][j];
    }
    Ext(p, q, 2, 2);
  }

  /** For 2x2 matrices the library's inverse is a right inverse. */
  lemma {:induction false} Inverse2(g: Grid)
    requires IsSquare(g) && |g| == 2 && Det(g) != 0.0
    ensures MulOf(g, InverseOf(g)) == Identity(2)
  {
    var a, b, c, e := g[0][0], g[0][1], g[1][0], g[1][1];
    var w := 1.0 / Det(g);
    InverseOf2(g, w);
    var v := InverseOf(g);
    Mul2(g, v);
    Inverse2Arith(a, b, c, e, w);
    Ext(MulOf(g, v), Identity(2), 2, 2);
  }

  // ---------------------------------------------------------------------
  // The 3x3 expansion
  // ---------------------------------------------------------------------

  /** The minor of a 3x3 matrix at (0, k), written out. */
  lemma {:induction false} Minor3(g: Grid, k: nat)
    requires IsSquare(g) && |g| == 3 && k < 3
    ensures MinorOf(g, 0, k) ==
      [[g[1][Skip(0, k)], g[1][Skip(1, k)]], [g[2][Skip(0, k)], g[2][Skip(1, k)]]]
  {
    Ext(MinorOf(g, 0, k), [[g[1][Skip(0, k)], g[1][Skip(1, k)]], [g[2][Skip(0, k)], g[2][Skip(1, k)]]], 2, 2);
  }

  /** The determinant of a 3x3 matrix, expanded along its first row. */
  lemma {:induction false} Det3(g: Grid)
    requires IsSquare(g) && |g| == 3
    ensures Det(g) == g[0][0] * (g[1][1] * g[2][2] - g[1][2] * g[2][1])
                    - g[0][1] * (g[1][0] * g[2][2] - g[1][2] * g[2][0])
                    + g[0][2] * (g[1][0] * g[2][1] - g[1][1] * g[2][0])
  {
    Minor3(g, 0);
    Minor3(g, 1);
    Minor3(g, 2);
    assert Term(g, 0) == g[0][0] * (g[1][1] * g[2][2] - g[1][2] * g[2][1]);
    assert Term(g, 1) == -g[0][1] * (g[1][0] * g[2][2] - g[1][2] * g[2][0]);
    assert Term(g, 2) == g[0][2] * (g[1][0] * g[2][1] - g[1][1] * g[2][0]);
    assert Laplace(g, 1) == Term(g, 0);
    assert Laplace(g, 2) == Term(g, 0) + Term(g, 1);
    assert Det(g) == Laplace(g, 3) == Term(g, 0) + Term(g, 1) + Term(g, 2);
  }

  // ---------------------------------------------------------------------
  // Worked examples
  // ---------------------------------------------------------------------

  lemma ExampleDet2()
    ensures Det([[1.0, 2.0], [3.0, 4.0]]) == -2.0
  {
  }

  lemma ExampleProduct()
    ensures MulOf([[1.0, 2.0], [3.0, 4.0]], [[5.0, 6.0], [7.0, 8.0]]) == [[19.0, 22.0], [43.0, 50.0]]
  {
    var p := MulOf([[1.0, 2.0], [3.0, 4.0]], [[5.0, 6.0], [7.0, 8.0]]);
    Ext(p, [[19.0, 22.0], [43.0, 50.0]], 2, 2);
  }

  /** This matrix, whose second row is twice its first, is singular. */
  lemma ExampleSingular()
    ensures Det([[1.0, 2.0, 3.0], [2.0, 4.0, 6.0], [0.0, 1.0, 1.0]]) == 0.0
  {
    Det3([[1.0, 2.0, 3.0], [2.0, 4.0, 6.0], [0.0, 1.0, 1.0]]);
  }
}
