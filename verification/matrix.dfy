/**
 * The library's `matrix_t` and its operations, step by step as the library
 * performs them: every operation that produces a matrix checks its inputs,
 * creates a zero-filled output, and fills it with nested index loops. Each
 * method is proved against the exact specification in module Grids.
 */
module S21Matrix {
  import opened Grids

  /** Status codes returned by the operations. */
  const OK: int := 0
  /** An input matrix is unallocated, or a requested size is below 1. */
  const INCORRECT: int := 1
  /** Shapes do not fit, the matrix is not square, or it is singular. */
  const CALC_ERROR: int := 2

  /** The two answers of the equality test. */
  const SUCCESS: int := 1
  const FAILURE: int := 0

  /**
   * `matrix_t`: a row count, a column count and the element storage;
   * `cells == null` is the library's `matrix == NULL`.
   */
  class Matrix {
    var rows: int
    var columns: int
    var cells: array2?<real>
    /** The elements as a grid, while storage is allocated. */
    ghost var grid: Grids.Grid

    /** A declared `matrix_t` in the empty state. */
    constructor Empty()
      ensures rows == 0 && columns == 0 && cells == null
    {
      rows, columns, cells := 0, 0, null;
      grid := [];
    }

    /**
     * Allocated storage matches the recorded size, which is at least 1 x 1,
     * and `grid` holds exactly the stored elements.
     */
    ghost predicate Valid()
      reads this, cells
    {
      cells != null ==>
        rows >= 1 && columns >= 1 && cells.Length0 == rows && cells.Length1 == columns &&
        IsShape(grid, rows, columns) &&
        forall i, j :: 0 <= i < rows && 0 <= j < columns ==> grid[i][j] == cells[i, j]
    }

    /**
     * `s21_create_matrix`: rejects a size below 1 x 1 and leaves the matrix
     * alone; otherwise records the size and allocates zero-filled storage.
     */
    method Create(r: int, c: int) returns (err: int)
      modifies this
      ensures err == (if r < 1 || c < 1 then INCORRECT else OK)
      ensures err == OK ==> Valid() && cells != null && fresh(cells) && rows == r && columns == c
      ensures err == OK ==> grid == Zeros(r, c)
      ensures err != OK ==> unchanged(this)
    {
      err := OK;
      if r < 1 || c < 1 {
        err := INCORRECT;
      }
      if err == OK {
        rows := r;
        columns := c;
        cells := new real[r, c]((i, j) => 0.0);
        grid := Zeros(r, c);
      }
    }

    /**
     * `s21_remove_matrix`: drops the storage of an allocated matrix and zeroes
     * the size. On an already-empty matrix it changes nothing.
     */
    method Remove()
      modifies this
      ensures rows == 0 && columns == 0
      ensures cells == if old(cells) != null && old(rows) > 0 && old(columns) > 0 then null else old(cells)
      ensures old(Valid()) ==> cells == null && Valid()
      ensures old(rows) == 0 && old(columns) == 0 && old(cells) == null ==> unchanged(this)
    {
      if cells != null && rows > 0 && columns > 0 {
        cells := null;
        grid := [];
      }
      if rows != 0 {
        rows := 0;
      }
      if columns != 0 {
        columns := 0;
      }
    }
  }

  /**
   * `s21_eq_matrix`: SUCCESS exactly when both matrices are allocated, have
   * one shape, and agree within EPS everywhere; a shape mismatch is FAILURE.
   */
  method Equal(a: Matrix, b: Matrix) returns (status: int)
    requires a.Valid() && b.Valid()
    ensures status == SUCCESS || status == FAILURE
    ensures status == SUCCESS <==>
      a.cells != null && b.cells != null && a.rows == b.rows && a.columns == b.columns &&
      Close(a.grid, b.grid)
  {
    status := FAILURE;
    if a.cells != null && b.cells != null && a.rows == b.rows && a.columns == b.columns {
      status := SUCCESS;
      for i := 0 to a.rows
        invariant status == SUCCESS || status == FAILURE
        invariant status == SUCCESS <==>
          forall p, q :: 0 <= p < i && 0 <= q < a.columns ==> Abs(a.cells[p, q] - b.cells[p, q]) <= EPS
      {
        for j := 0 to a.columns
          invariant status == SUCCESS || status == FAILURE
          invariant status == SUCCESS <==>
            (forall p, q :: 0 <= p < i && 0 <= q < a.columns ==> Abs(a.cells[p, q] - b.cells[p, q]) <= EPS) &&
            (forall q :: 0 <= q < j ==> Abs(a.cells[i, q] - b.cells[i, q]) <= EPS)
        {
          if Abs(a.cells[i, j] - b.cells[i, j]) > EPS {
            status := FAILURE;
          }
        }
      }
    }
  }

  /**
   * `s21_sum_matrix`: INCORRECT for an unallocated input, CALC_ERROR for
   * different shapes, otherwise `result` becomes the elementwise sum.
   */
  method Sum(a: Matrix, b: Matrix, result: Matrix) returns (status: int)
    requires a.Valid() && b.Valid()
    requires result != a && result != b
    modifies result
    ensures status == (if a.cells == null || b.cells == null then INCORRECT
                       else if a.rows != b.rows || a.columns != b.columns then CALC_ERROR
                       else OK)
    ensures status == OK ==>
      result.Valid() && result.cells != null && fresh(result.cells) &&
      result.rows == a.rows && result.columns == a.columns &&
      result.grid == SumOf(a.grid, b.grid)
    ensures status != OK ==> unchanged(result)
  {
    status := OK;
    if a.cells != null && b.cells != null {
      if a.rows == b.rows && a.columns == b.columns {
        status := result.Create(a.rows, a.columns);
        var out := result.cells;
        for i := 0 to a.rows
          modifies out
          invariant forall p, q :: 0 <= p < i && 0 <= q < a.columns ==> out[p, q] == a.cells[p, q] + b.cells[p, q]
        {
          for j := 0 to a.columns
            modifies out
            invariant forall p, q :: 0 <= p < i && 0 <= q < a.columns ==> out[p, q] == a.cells[p, q] + b.cells[p, q]
            invariant forall q :: 0 <= q < j ==> out[i, q] == a.cells[i, q] + b.cells[i, q]
          {
            out[i, j] := a.cells[i, j] + b.cells[i, j];
          }
        }
        result.grid := SumOf(a.grid, b.grid);
      } else {
        status := CALC_ERROR;
      }
    } else {
      status := INCORRECT;
    }
  }

  /**
   * `s21_sub_matrix`: INCORRECT for an unallocated input, CALC_ERROR for
   * different shapes, otherwise `result` becomes the elementwise difference.
   */
  method Sub(a: Matrix, b: Matrix, result: Matrix) returns (status: int)
    requires a.Valid() && b.Valid()
    requires result != a && result != b
    modifies result
    ensures status == (if a.cells == null || b.cells == null then INCORRECT
                       else if a.rows != b.rows || a.columns != b.columns then CALC_ERROR
                       else OK)
    ensures status == OK ==>
      result.Valid() && result.cells != null && fresh(result.cells) &&
      result.rows == a.rows && result.columns == a.columns &&
      result.grid == DiffOf(a.grid, b.grid)
    ensures status != OK ==> unchanged(result)
  {
    status := OK;
    if a.cells != null && b.cells != null {
      if a.rows == b.rows && a.columns == b.columns {
        status := result.Create(a.rows, a.columns);
        var out := result.cells;
        for i := 0 to a.rows
          modifies out
          invariant forall p, q :: 0 <= p < i && 0 <= q < a.columns ==> out[p, q] == a.cells[p, q] - b.cells[p, q]
        {
          for j := 0 to a.columns
            modifies out
            invariant forall p, q :: 0 <= p < i && 0 <= q < a.columns ==> out[p, q] == a.cells[p, q] - b.cells[p, q]
            invariant forall q :: 0 <= q < j ==> out[i, q] == a.cells[i, q] - b.cells[i, q]
          {
            out[i, j] := a.cells[i, j] - b.cells[i, j];
          }
        }
        result.grid := DiffOf(a.grid, b.grid);
      } else {
        status := CALC_ERROR;
      }
    } else {
      status := INCORRECT;
    }
  }

  /**
   * `s21_mult_number`: INCORRECT for an unallocated input, otherwise
   * `result` becomes every element times `number`.
   */
  method MultNumber(a: Matrix, number: real, result: Matrix) returns (status: int)
    requires a.Valid() && result != a
    modifies result
    ensures status == (if a.cells == null then INCORRECT else OK)
    ensures status == OK ==>
      result.Valid() && result.cells != null && fresh(result.cells) &&
      result.rows == a.rows && result.columns == a.columns &&
      result.grid == ScaleOf(a.grid, number)
    ensures status != OK ==> unchanged(result)
  {
    status := OK;
    if a.cells != null {
      status := result.Create(a.rows, a.columns);
      var out := result.cells;
      for i := 0 to a.rows
        modifies out
        invariant forall p, q :: 0 <= p < i && 0 <= q < a.columns ==> out[p, q] == a.cells[p, q] * number
      {
        for j := 0 to a.columns
          modifies out
          invariant forall p, q :: 0 <= p < i && 0 <= q < a.columns ==> out[p, q] == a.cells[p, q] * number
          invariant forall q :: 0 <= q < j ==> out[i, q] == a.cells[i, q] * number
        {
          out[i, j] := a.cells[i, j] * number;
        }
      }
      result.grid := ScaleOf(a.grid, number);
    } else {
      status := INCORRECT;
    }
  }

  /**
   * `s21_mult_matrix`: INCORRECT for an unallocated input, CALC_ERROR when
   * `a.columns != b.rows`, otherwise `result` becomes the product, each entry
   * accumulated with `+=` onto the zero that creation put there.
   */
  method MultMatrix(a: Matrix, b: Matrix, result: Matrix) returns (status: int)
    requires a.Valid() && b.Valid()
    requires result != a && result != b
    modifies result
    ensures status == (if a.cells == null || b.cells == null then INCORRECT
                       else if a.columns != b.rows then CALC_ERROR
                       else OK)
    ensures status == OK ==>
      result.Valid() && result.cells != null && fresh(result.cells) &&
      result.rows == a.rows && result.columns == b.columns &&
      result.grid == MulOf(a.grid, b.grid)
    ensures status != OK ==> unchanged(result)
  {
    status := OK;
    if a.cells != null && b.cells != null {
      if a.columns == b.rows {
        status := result.Create(a.rows, b.columns);
        FillProduct(a, b, result.cells);
        result.grid := MulOf(a.grid, b.grid);
      } else {
        status := CALC_ERROR;
      }
    } else {
      status := INCORRECT;
    }
  }

  /**
   * The three loops of `s21_mult_matrix`: each element of the zero-filled
   * `out` accumulates its row-by-column products with `+=`.
   */
  method FillProduct(a: Matrix, b: Matrix, out: array2<real>)
    requires a.Valid() && b.Valid() && a.cells != null && b.cells != null && a.columns == b.rows
    requires out != a.cells && out != b.cells && out.Length0 == a.rows && out.Length1 == b.columns
    requires forall p, q :: 0 <= p < a.rows && 0 <= q < b.columns ==> out[p, q] == 0.0
    modifies out
    ensures forall p, q :: 0 <= p < a.rows && 0 <= q < b.columns ==>
      out[p, q] == Dot(a.grid, b.grid, p, q, b.rows)
  {
    ghost var ga, gb := a.grid, b.grid;
    for i := 0 to a.rows
      invariant forall p, q :: 0 <= p < a.rows && 0 <= q < b.columns ==>
        out[p, q] == if p < i then Dot(ga, gb, p, q, b.rows) else 0.0
    {
      for j := 0 to b.columns
        invariant forall p, q :: 0 <= p < a.rows && 0 <= q < b.columns ==>
          out[p, q] == if p < i || (p == i && q < j) then Dot(ga, gb, p, q, b.rows) else 0.0
      {
        for k := 0 to b.rows
          invariant out[i, j] == Dot(ga, gb, i, j, k)
          invariant forall p, q :: 0 <= p < a.rows && 0 <= q < b.columns && (p != i || q != j) ==>
            out[p, q] == if p < i || (p == i && q < j) then Dot(ga, gb, p, q, b.rows) else 0.0
        {
          out[i, j] := out[i, j] + a.cells[i, k] * b.cells[k, j];
        }
      }
    }
  }

  /**
   * `s21_transpose`: INCORRECT for an unallocated input, otherwise `result`
   * becomes the `columns x rows` transpose. The library's second guard
   * compares the column count with NaN, which always holds, so its
   * CALC_ERROR branch cannot be taken and is not modelled.
   */
  method Transpose(a: Matrix, result: Matrix) returns (status: int)
    requires a.Valid() && result != a
    modifies result
    ensures status == (if a.cells == null then INCORRECT else OK)
    ensures status == OK ==>
      result.Valid() && result.cells != null && fresh(result.cells) &&
      result.rows == a.columns && result.columns == a.rows &&
      result.grid == TransposeOf(a.grid)
    ensures status != OK ==> unchanged(result)
  {
    status := OK;
    if a.cells != null {
      status := result.Create(a.columns, a.rows);
      var out := result.cells;
      for i := 0 to a.rows
        modifies out
        invariant forall p, q :: 0 <= p < i && 0 <= q < a.columns ==> out[q, p] == a.cells[p, q]
      {
        for j := 0 to a.columns
          modifies out
          invariant forall p, q :: 0 <= p < i && 0 <= q < a.columns ==> out[q, p] == a.cells[p, q]
          invariant forall q :: 0 <= q < j ==> out[q, i] == a.cells[i, q]
        {
          out[j, i] := a.cells[i, j];
        }
      }
      result.grid := TransposeOf(a.grid);
    } else {
      status := INCORRECT;
    }
  }

  /**
   * `Minor`: with 1-based `row` and `column`, INCORRECT for an unallocated
   * input or one with a single row or column (the minor would be empty);
   * otherwise `result` becomes `a` without that row and column, each kept
   * element moved to the index shifted down past the deleted one.
   */
  method Minor(row: int, column: int, a: Matrix, result: Matrix) returns (err: int)
    requires a.Valid() && result != a
    requires a.cells != null && a.rows >= 2 && a.columns >= 2 ==> 1 <= row <= a.rows && 1 <= column <= a.columns
    modifies result
    ensures err == (if a.cells == null || a.rows < 2 || a.columns < 2 then INCORRECT else OK)
    ensures err == OK ==>
      result.Valid() && result.cells != null && fresh(result.cells) &&
      result.rows == a.rows - 1 && result.columns == a.columns - 1 &&
      result.grid == MinorOf(a.grid, row - 1, column - 1)
    ensures err != OK ==> unchanged(result)
  {
    err := INCORRECT;
    if a.cells != null {
      err := result.Create(a.rows - 1, a.columns - 1);
      if err == OK {
        CopyMinor(row - 1, column - 1, a, result.cells);
        result.grid := MinorOf(a.grid, row - 1, column - 1);
      }
    }
  }

  /**
   * The two loops of `Minor`: every element of `a` off row `r` and column `c`
   * (0-based) is stored at its index shifted down past the deleted one.
   */
  method CopyMinor(r: nat, c: nat, a: Matrix, out: array2<real>)
    requires a.Valid() && a.cells != null && r < a.rows && c < a.columns
    requires out != a.cells && out.Length0 == a.rows - 1 && out.Length1 == a.columns - 1
    modifies out
    ensures forall p, q :: 0 <= p < out.Length0 && 0 <= q < out.Length1 ==>
      out[p, q] == a.cells[Skip(p, r), Skip(q, c)]
  {
    for i := 0 to a.rows
      invariant forall p, q :: 0 <= p < i && p != r && 0 <= q < a.columns && q != c ==>
        out[Shift(p, r), Shift(q, c)] == a.cells[p, q]
    {
      var m := i;
      if i > r {
        m := m - 1;
      }
      for j := 0 to a.columns
        invariant forall p, q ::
          0 <= p < a.rows && p != r && 0 <= q < a.columns && q != c && (p < i || (p == i && q < j)) ==>
          out[Shift(p, r), Shift(q, c)] == a.cells[p, q]
      {
        var n := j;
        if j > c {
          n := n - 1;
        }
        if i != r && j != c {
          out[m, n] := a.cells[i, j];
        }
      }
    }
    forall p, q | 0 <= p < out.Length0 && 0 <= q < out.Length1
      ensures out[p, q] == a.cells[Skip(p, r), Skip(q, c)]
    {
      assert Shift(Skip(p, r), r) == p && Shift(Skip(q, c), c) == q;
    }
  }

  /**
   * `s21_determinant`: INCORRECT for an unallocated input, CALC_ERROR for a
   * non-square one, both leaving the caller's value `current` as it was;
   * otherwise OK with the determinant.
   */
  method Determinant(a: Matrix, current: real) returns (err: int, det: real)
    requires a.Valid()
    ensures err == (if a.cells == null then INCORRECT else if a.rows != a.columns then CALC_ERROR else OK)
    ensures err == OK ==> det == Det(a.grid)
    ensures err != OK ==> det == current
  {
    err := INCORRECT;
    det := current;
    if a.cells != null {
      err := CALC_ERROR;
      if a.rows == a.columns {
        err := OK;
        det := a.cells[0, 0];
        if a.rows != 1 {
          det := DeterminantRecursive(a);
        }
      }
    }
  }

  /**
   * `s21_determinant_recursive`: the 2x2 formula, or the running sum over
   * row 0 of sign times element times the determinant of a temporary minor,
   * which is released after use.
   */
  method DeterminantRecursive(a: Matrix) returns (result: real)
    requires a.Valid() && a.cells != null && a.rows == a.columns && a.rows >= 2
    ensures result == Det(a.grid)
    decreases a.rows, 1
  {
    result := 0.0;
    if a.rows == 2 {
      result := a.cells[0, 0] * a.cells[1, 1] - a.cells[0, 1] * a.cells[1, 0];
    } else {
      for i := 0 to a.rows
        invariant result == Laplace(a.grid, i)
      {
        var t := ExpansionTerm(a, i);
        result := result + t;
      }
    }
  }

  /**
   * One pass of the loop of `s21_determinant_recursive`: the minor at (0, i),
   * its determinant, the signed product with `a[0][i]`, and the release of
   * the minor.
   */
  method ExpansionTerm(a: Matrix, i: nat) returns (t: real)
    requires a.Valid() && a.cells != null && a.rows == a.columns && a.rows >= 3 && i < a.rows
    ensures t == Term(a.grid, i)
    decreases a.rows, 0
  {
    var minor := new Matrix.Empty();
    var _ := Minor(1, i + 1, a, minor);
    var d := DeterminantRecursive(minor);
    t := Sign(i) * a.cells[0, i] * d;
    minor.Remove();
  }

  /**
   * `s21_calc_complements`: INCORRECT for an unallocated input, CALC_ERROR
   * for a non-square one, otherwise `result` becomes the cofactor matrix.
   */
  method CalcComplements(a: Matrix, result: Matrix) returns (err: int)
    requires a.Valid() && result != a
    modifies result
    ensures err == (if a.cells == null then INCORRECT else if a.rows != a.columns then CALC_ERROR else OK)
    ensures err == OK ==>
      result.Valid() && result.cells != null && fresh(result.cells) &&
      result.rows == a.rows && result.columns == a.rows &&
      result.grid == Cof(a.grid)
    ensures err != OK ==> unchanged(result)
  {
    err := INCORRECT;
    if a.cells != null {
      err := CALC_ERROR;
      if a.rows == a.columns {
        err := result.Create(a.rows, a.columns);
        if err == OK {
          err := CalcHelper(a, result);
        }
      }
    }
  }

  /**
   * `calc_helper`: writes 1 into the corner (the whole cofactor matrix of a
   * 1x1 input), then for larger inputs overwrites every entry with the signed
   * determinant of the corresponding minor.
   */
  method CalcHelper(a: Matrix, result: Matrix) returns (err: int)
    requires a.Valid() && a.cells != null && a.rows == a.columns
    requires result.Valid() && result.cells != null && result.rows == a.rows && result.columns == a.rows
    requires result != a && result.cells != a.cells
    modifies result, result.cells
    ensures err == OK
    ensures result.Valid() && result.cells == old(result.cells)
    ensures result.rows == old(result.rows) && result.columns == old(result.columns)
    ensures result.grid == Cof(a.grid)
  {
    err := OK;
    var out := result.cells;
    ghost var g := a.grid;
    ghost var n := a.rows;
    ghost var cof := Cof(g);
    out[0, 0] := 1.0;
    if a.rows != 1 {
      for i := 0 to a.rows
        modifies out
        invariant err == OK
        invariant forall p, q :: 0 <= p < i && 0 <= q < n ==> out[p, q] == cof[p][q]
      {
        for j := 0 to a.columns
          modifies out
          invariant err == OK
          invariant forall p, q :: 0 <= p < n && 0 <= q < n && (p < i || (p == i && q < j)) ==>
            out[p, q] == cof[p][q]
        {
          err := CofactorStep(a, i, j, out);
        }
      }
    }
    result.grid := Cof(g);
  }

  /**
   * One pass of the inner loop of `calc_helper`: the minor at (i, j), its
   * determinant, the signed entry written to `out[i, j]`, and the release of
   * the minor.
   */
  method CofactorStep(a: Matrix, i: nat, j: nat, out: array2<real>) returns (err: int)
    requires a.Valid() && a.cells != null && a.rows == a.columns && a.rows >= 2
    requires i < a.rows && j < a.rows
    requires out != a.cells && i < out.Length0 && j < out.Length1
    modifies out
    ensures err == OK
    ensures out[i, j] == Cof(a.grid)[i][j]
    ensures forall p, q :: 0 <= p < out.Length0 && 0 <= q < out.Length1 && (p != i || q != j) ==>
      out[p, q] == old(out[p, q])
  {
    var deted: real := *;
    var minored := new Matrix.Empty();
    err := Minor(i + 1, j + 1, a, minored);
    if err == OK {
      err, deted := Determinant(minored, deted);
      if err == OK {
        CofAt(a.grid, i, j);
        out[i, j] := Sign(i + j) * deted;
      }
    }
    minored.Remove();
  }

  /**
   * `s21_inverse_matrix`: INCORRECT for an unallocated input; CALC_ERROR
   * when the matrix is not square or its determinant is within EPS of zero;
   * otherwise `result` becomes the transposed cofactor matrix scaled by
   * `1/det`. The temporary matrices are released before returning.
   */
  method Inverse(a: Matrix, result: Matrix) returns (err: int)
    requires a.Valid() && result != a
    modifies result
    ensures a.cells == null ==> err == INCORRECT
    ensures a.cells != null && a.rows != a.columns ==> err == CALC_ERROR
    ensures a.cells != null && a.rows == a.columns ==>
      err == (if Abs(Det(a.grid)) > EPS then OK else CALC_ERROR)
    ensures err == OK ==>
      a.cells != null && a.rows == a.columns && Det(a.grid) != 0.0 &&
      result.Valid() && result.cells != null && fresh(result.cells) &&
      result.rows == a.rows && result.columns == a.rows &&
      result.grid == InverseOf(a.grid)
    ensures err != OK ==> unchanged(result)
  {
    err := INCORRECT;
    if a.cells != null {
      err := CALC_ERROR;
      // The library reads `det` uninitialised when `a` is not square.
      var det: real := *;
      var detErr;
      detErr, det := Determinant(a, det);
      if Abs(det - 0.0) > EPS {
        // The library's `tmp_calc` is uninitialised here; the model starts it empty.
        var tmpCalc := new Matrix.Empty();
        err := CalcComplements(a, tmpCalc);
        if err == OK {
          var tmpTrans := new Matrix.Empty();
          err := Transpose(tmpCalc, tmpTrans);
          if err == OK {
            var _ := MultNumber(tmpTrans, 1.0 / det, result);
          }
          tmpTrans.Remove();
        }
        tmpCalc.Remove();
      }
    }
  }
}
