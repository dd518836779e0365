/**
 * What the operations of Matrix.h compute, stated cell by cell over the
 * values of MatrixSpec, and the relations between them.
 */
module MatrixLaws {
  import opened Arith
  import opened MatrixSpec

  // ---------------------------------------------------------------------
  // Checked access (`at` / `cat`)
  // ---------------------------------------------------------------------

  /** Inside the shape the checked accessor succeeds and addresses the cell itself. */
  lemma CheckedGetInside(g: Grid, x: nat, y: nat)
    requires Wf(g) && x < g.rows && y < g.cols
    ensures CheckedGet(g, x, y) == Ok(Cell(g, x, y))
  {
    OffsetInLogical(x, y, g.rows, g.cols);
  }

  /**
   * The check is against the doubled buffer, not the shape: the row just past
   * the last one is accepted and lands in the second half.
   */
  lemma CheckedGetRowPastEnd(g: Grid)
    requires Wf(g) && 0 < g.rows && 0 < g.cols
    ensures CheckedGet(g, g.rows, 0) == Ok(g.cells[Mul(g.rows, g.cols)])
  {
    MulMono(1, g.rows, g.cols);
  }

  /** A column index one past the last one is accepted too and aliases the next row's first cell. */
  lemma CheckedGetColumnPastEnd(g: Grid)
    requires Wf(g) && 2 <= g.rows && 0 < g.cols
    ensures CheckedGet(g, 0, g.cols) == Ok(Cell(g, 1, 0))
  {
    CheckedGetInside(g, 1, 0);
  }

  /** From row `2 * rows` on, every coordinate is past the buffer and throws `out_of_range`. */
  lemma CheckedGetFarOutside(g: Grid, x: nat, y: nat)
    requires Wf(g) && 2 * g.rows <= x
    ensures CheckedGet(g, x, y) == Err(OutOfRange(OUT_OF_RANGE))
  {
    MulMono(2 * g.rows, x, g.cols);
    MulAdd(g.rows, g.rows, g.cols);
  }

  /**
   * Writing through `at` fails exactly when reading there fails; a successful
   * write keeps the shape, is read back, and leaves every other slot alone.
   */
  lemma CheckedSetThenGet(g: Grid, x: nat, y: nat, v: int, p: nat, q: nat)
    ensures CheckedSet(g, x, y, v).Err? <==> CheckedGet(g, x, y).Err?
    ensures CheckedSet(g, x, y, v).Ok? ==>
              var h := CheckedSet(g, x, y, v).value;
              h.rows == g.rows && h.cols == g.cols && |h.cells| == |g.cells| &&
              CheckedGet(h, x, y) == Ok(v) &&
              (Offset(p, q, g.cols) != Offset(x, y, g.cols) ==> CheckedGet(h, p, q) == CheckedGet(g, p, q))
  {
  }

  // ---------------------------------------------------------------------
  // Element-wise operators
  // ---------------------------------------------------------------------

  lemma PointwiseAt(a: Grid, b: Grid, op: (int, int) -> int, i: nat, j: nat)
    requires Wf(a) && Wf(b) && a.rows == b.rows && a.cols == b.cols
    requires i < a.rows && j < a.cols
    ensures Cell(Pointwise(a, b, op), i, j) == op(Cell(a, i, j), Cell(b, i, j))
  {
    OffsetInLogical(i, j, a.rows, a.cols);
  }

  lemma ElementwiseAt(a: Grid, f: int -> int, i: nat, j: nat)
    requires Wf(a) && i < a.rows && j < a.cols
    ensures Cell(Elementwise(a, f), i, j) == f(Cell(a, i, j))
  {
    OffsetInLogical(i, j, a.rows, a.cols);
  }

  /** Binary `+`: cell `(i, j)` of the result is `a(i, j) + b(i, j)`. */
  lemma SumAt(a: Grid, b: Grid)
    requires Wf(a) && Wf(b) && a.rows == b.rows && a.cols == b.cols
    ensures Sum(a, b).Ok?
    ensures forall i: nat, j: nat :: i < a.rows && j < a.cols ==>
              Cell(Sum(a, b).value, i, j) == Cell(a, i, j) + Cell(b, i, j)
  {
    forall i: nat, j: nat | i < a.rows && j < a.cols
      ensures Cell(Sum(a, b).value, i, j) == Cell(a, i, j) + Cell(b, i, j)
    {
      PointwiseAt(a, b, (x, y) => x + y, i, j);
    }
  }

  /** Binary `-`: cell `(i, j)` of the result is `a(i, j) - b(i, j)`. */
  lemma DifferenceAt(a: Grid, b: Grid)
    requires Wf(a) && Wf(b) && a.rows == b.rows && a.cols == b.cols
    ensures Difference(a, b).Ok?
    ensures forall i: nat, j: nat :: i < a.rows && j < a.cols ==>
              Cell(Difference(a, b).value, i, j) == Cell(a, i, j) - Cell(b, i, j)
  {
    forall i: nat, j: nat | i < a.rows && j < a.cols
      ensures Cell(Difference(a, b).value, i, j) == Cell(a, i, j) - Cell(b, i, j)
    {
      PointwiseAt(a, b, (x, y) => x - y, i, j);
    }
  }

  /** Subtraction is addition of the operand scaled by -1, including on a shape mismatch. */
  lemma DifferenceIsSumOfNegated(a: Grid, b: Grid)
    requires Wf(a) && Wf(b)
    ensures Difference(a, b).Ok? == Sum(a, Scale(b, -1)).Ok?
    ensures Difference(a, b).Ok? ==> Difference(a, b) == Sum(a, Scale(b, -1))
  {
    if a.rows == b.rows && a.cols == b.cols {
      var d, s := Difference(a, b).value, Sum(a, Scale(b, -1)).value;
      assert forall k :: 0 <= k < |d.cells| ==> d.cells[k] == s.cells[k];
      assert d.cells == s.cells;
    }
  }

  /** Scalar `*`: cell `(i, j)` of the result is `a(i, j) * c`. */
  lemma ScaleAt(a: Grid, c: int)
    requires Wf(a)
    ensures forall i: nat, j: nat :: i < a.rows && j < a.cols ==> Cell(Scale(a, c), i, j) == Cell(a, i, j) * c
  {
    forall i: nat, j: nat | i < a.rows && j < a.cols
      ensures Cell(Scale(a, c), i, j) == Cell(a, i, j) * c
    {
      ElementwiseAt(a, x => x * c, i, j);
    }
  }

  /** Scaling by zero gives exactly a freshly constructed matrix of the same shape. */
  lemma ScaleByZero(a: Grid)
    requires Wf(a)
    ensures Scale(a, 0) == Zero(a.rows, a.cols)
  {
    assert Scale(a, 0).cells == Zero(a.rows, a.cols).cells;
  }

  /** `pow(e)`: cell `(i, j)` of the result is `a(i, j)` to the power `e`. */
  lemma PowerAt(a: Grid, e: nat)
    requires Wf(a)
    ensures forall i: nat, j: nat :: i < a.rows && j < a.cols ==> Cell(Power(a, e), i, j) == IntPow(Cell(a, i, j), e)
  {
    forall i: nat, j: nat | i < a.rows && j < a.cols
      ensures Cell(Power(a, e), i, j) == IntPow(Cell(a, i, j), e)
    {
      ElementwiseAt(a, x => IntPow(x, e), i, j);
    }
  }

  /** `pow(1)` reproduces every cell; only the second half of the buffer is cleared. */
  lemma PowerOne(a: Grid)
    requires Wf(a)
    ensures forall i: nat, j: nat :: i < a.rows && j < a.cols ==> Cell(Power(a, 1), i, j) == Cell(a, i, j)
  {
    forall i: nat, j: nat | i < a.rows && j < a.cols
      ensures Cell(Power(a, 1), i, j) == Cell(a, i, j)
    {
      ElementwiseAt(a, x => IntPow(x, 1), i, j);
      assert IntPow(Cell(a, i, j), 1) == Cell(a, i, j) * IntPow(Cell(a, i, j), 0);
    }
  }

  // ---------------------------------------------------------------------
  // Matrix multiplication
  // ---------------------------------------------------------------------

  /** Matrix `*`: cell `(i, j)` of the result is the sum over `k < a.cols` of `a(i, k) * b(k, j)`. */
  lemma ProductAt(a: Grid, b: Grid)
    requires Wf(a) && Wf(b) && a.cols == b.rows
    ensures Product(a, b).Ok?
    ensures forall i: nat, j: nat :: i < a.rows && j < b.cols ==>
              Cell(Product(a, b).value, i, j) == Dot(a, b, i, j, a.cols)
  {
    forall i: nat, j: nat | i < a.rows && j < b.cols
      ensures Cell(Product(a, b).value, i, j) == Dot(a, b, i, j, a.cols)
    {
      LayoutAt(ProductRows(a, b), b.cols, i, j);
    }
  }

  /** Both ways of bracketing a chain of three products succeed together and give the same shape. */
  lemma ProductShapeAssociative(a: Grid, b: Grid, c: Grid)
    requires Wf(a) && Wf(b) && Wf(c)
    ensures Product(a, b).Ok? && Product(b, c).Ok? <==> a.cols == b.rows && b.cols == c.rows
    ensures a.cols == b.rows && b.cols == c.rows ==>
              var ab, bc := Product(a, b).value, Product(b, c).value;
              Product(ab, c).Ok? && Product(a, bc).Ok? &&
              Product(ab, c).value.rows == Product(a, bc).value.rows == a.rows &&
              Product(ab, c).value.cols == Product(a, bc).value.cols == c.cols
  {
  }

  // ---------------------------------------------------------------------
  // Transpose
  // ---------------------------------------------------------------------

  /** The true transpose swaps the coordinates of every cell. */
  lemma TransposedAt(a: Grid, i: nat, j: nat)
    requires Wf(a) && i < a.cols && j < a.rows
    ensures Cell(Transposed(a), i, j) == Cell(a, j, i)
  {
    LayoutAt(TransposedRows(a), a.rows, i, j);
  }

  /** Transposing twice (the true transpose) gives back the shape and every cell. */
  lemma TransposedTwice(a: Grid)
    requires Wf(a)
    ensures Transposed(Transposed(a)).rows == a.rows && Transposed(Transposed(a)).cols == a.cols
    ensures forall i: nat, j: nat :: i < a.rows && j < a.cols ==> Cell(Transposed(Transposed(a)), i, j) == Cell(a, i, j)
  {
    var t := Transposed(a);
    forall i: nat, j: nat | i < a.rows && j < a.cols
      ensures Cell(Transposed(t), i, j) == Cell(a, i, j)
    {
      TransposedAt(t, i, j);
      TransposedAt(a, j, i);
    }
  }

  /** Square matrices always keep `operator~` inside the buffer. */
  lemma SquareInBounds(n: nat)
    ensures TransposeInBounds(n, n)
  {
  }

  /**
   * On a square matrix the write of `operator~` for `(i, j)` goes to the slot
   * of `(i, j)` itself, so at every point of its loops the slots written so far
   * hold the true transpose and the rest are still zero.
   */
  lemma {:induction false} TransposeStepsSquare(a: Grid, i: nat, j: nat)
    requires Wf(a) && a.rows == a.cols
    requires i <= a.rows && j <= a.cols && (i == a.rows ==> j == 0)
    ensures TransposeInBounds(a.rows, a.cols)
    ensures forall s :: 0 <= s < Capacity(a.rows, a.cols) ==>
              TransposeSteps(a, i, j)[s] == if s < Offset(i, j, a.rows) then Transposed(a).cells[s] else 0
    decreases i, j
  {
    SquareInBounds(a.rows);
    if j == 0 {
      if i > 0 {
        TransposeStepsSquare(a, i - 1, a.cols);
        assert TransposeSteps(a, i, 0) == TransposeSteps(a, i - 1, a.cols);
        assert Offset(i, 0, a.rows) == Offset(i - 1, a.cols, a.rows);
      }
    } else {
      TransposeStepsSquare(a, i, j - 1);
      TransposeStepSquare(a, i, j - 1);
    }
  }

  /** One write of the inner loop of `operator~` extends the filled prefix by one slot. */
  lemma TransposeStepSquare(a: Grid, i: nat, j: nat)
    requires Wf(a) && a.rows == a.cols && i < a.rows && j < a.cols
    requires forall s :: 0 <= s < Capacity(a.rows, a.cols) ==>
               TransposeSteps(a, i, j)[s] == if s < Offset(i, j, a.rows) then Transposed(a).cells[s] else 0
    ensures forall s :: 0 <= s < Capacity(a.rows, a.cols) ==>
              TransposeSteps(a, i, j + 1)[s] == if s < Offset(i, j + 1, a.rows) then Transposed(a).cells[s] else 0
  {
    SquareInBounds(a.rows);
    LayoutAt(TransposedRows(a), a.rows, i, j);
    TransposeOffsets(i, j, a.rows, a.cols);
    ghost var t := Offset(i, j, a.rows);
    ghost var before := TransposeSteps(a, i, j);
    assert TransposeSteps(a, i, j + 1) == before[t := a.cells[Offset(j, i, a.cols)]];
    assert Transposed(a).cells[t] == a.cells[Offset(j, i, a.cols)];
  }

  /** On a square matrix `operator~` as written is the true transpose. */
  lemma TransposeAsWrittenSquare(a: Grid)
    requires Wf(a) && a.rows == a.cols
    ensures TransposeInBounds(a.rows, a.cols)
    ensures TransposeAsWritten(a) == Transposed(a)
  {
    TransposeStepsSquare(a, a.rows, 0);
    LayoutTail(TransposedRows(a), a.rows);
    assert TransposeAsWritten(a).cells == Transposed(a).cells;
  }

  /** On a square matrix `operator~` swaps the coordinates of every cell, and applying it twice restores every cell. */
  lemma TransposeSquareTwice(a: Grid)
    requires Wf(a) && a.rows == a.cols
    ensures TransposeInBounds(a.rows, a.cols)
    ensures forall i: nat, j: nat :: i < a.rows && j < a.cols ==> Cell(TransposeAsWritten(a), i, j) == Cell(a, j, i)
    ensures TransposeAsWritten(TransposeAsWritten(a)) == Transposed(Transposed(a))
    ensures forall i: nat, j: nat :: i < a.rows && j < a.cols ==>
              Cell(TransposeAsWritten(TransposeAsWritten(a)), i, j) == Cell(a, i, j)
  {
    TransposeAsWrittenSquare(a);
    forall i: nat, j: nat | i < a.rows && j < a.cols
      ensures Cell(TransposeAsWritten(a), i, j) == Cell(a, j, i)
    {
      TransposedAt(a, i, j);
    }
    TransposeAsWrittenSquare(Transposed(a));
    TransposedTwice(a);
  }
}
