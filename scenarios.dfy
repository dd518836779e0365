/**
 * Concrete matrices worked through in lemmas: the ordinary 2 x 2 results of the
 * operators, and the 2 x 3 matrix on which `operator~` as written goes wrong.
 */
module MatrixScenarios {
  import opened Arith
  import opened MatrixSpec
  import opened MatrixLaws

  /** `[[1, 2], [3, 4]]` with the second half of its buffer. */
  function M1(): (g: Grid)
    ensures Wf(g)
  {
    Grid(2, 2, [1, 2, 3, 4, 0, 0, 0, 0])
  }

  /** `[[5, 6], [7, 8]]`. */
  function M2(): (g: Grid)
    ensures Wf(g)
  {
    Grid(2, 2, [5, 6, 7, 8, 0, 0, 0, 0])
  }

  /** `[[0, 1, 2], [3, 4, 5]]`. */
  function Wide(): (g: Grid)
    ensures Wf(g)
  {
    Grid(2, 3, [0, 1, 2, 3, 4, 5, 0, 0, 0, 0, 0, 0])
  }

  lemma SumExample()
    ensures Sum(M1(), M2()) == Ok(Grid(2, 2, [6, 8, 10, 12, 0, 0, 0, 0]))
  {
    assert Sum(M1(), M2()).value.cells == [6, 8, 10, 12, 0, 0, 0, 0];
  }

  lemma DifferenceExample()
    ensures Difference(M2(), M1()) == Ok(Grid(2, 2, [4, 4, 4, 4, 0, 0, 0, 0]))
  {
    assert Difference(M2(), M1()).value.cells == [4, 4, 4, 4, 0, 0, 0, 0];
  }

  lemma MismatchExample()
    ensures Sum(M1(), Wide()) == Err(LogicError(ADD_MISMATCH))
    ensures Product(Wide(), M1()) == Err(LogicError(MUL_MISMATCH))
  {
  }

  /** Each entry of `M1() * M2()` as the sum of its two products. */
  lemma DotExample(i: nat, j: nat)
    requires i < 2 && j < 2
    ensures Dot(M1(), M2(), i, j, 2) == Cell(M1(), i, 0) * Cell(M2(), 0, j) + Cell(M1(), i, 1) * Cell(M2(), 1, j)
  {
    assert Dot(M1(), M2(), i, j, 1) == Cell(M1(), i, 0) * Cell(M2(), 0, j);
  }

  lemma ProductExample()
    ensures Product(M1(), M2()) == Ok(Grid(2, 2, [19, 22, 43, 50, 0, 0, 0, 0]))
  {
    var a, b := M1(), M2();
    assert Mul(1, 2) == 2 && Mul(2, 2) == 4;
    DotExample(0, 0);
    DotExample(0, 1);
    DotExample(1, 0);
    DotExample(1, 1);
    var rows := ProductRows(a, b);
    assert rows[0] == [19, 22];
    assert rows[1] == [43, 50];
    assert rows == [[19, 22], [43, 50]];
    assert Flatten(rows) == [19, 22] + Flatten([[43, 50]]);
    assert Flatten([[43, 50]]) == [43, 50] + Flatten([]);
    assert Layout(rows, 2) == [19, 22, 43, 50] + seq(4, _ => 0);
    assert seq(4, _ => 0) == [0, 0, 0, 0];
    assert Product(a, b).value.cells == [19, 22, 43, 50, 0, 0, 0, 0];
  }

  lemma PowerExample()
    ensures Power(M1(), 2) == Grid(2, 2, [1, 4, 9, 16, 0, 0, 0, 0])
  {
    assert IntPow(3, 2) == 9 && IntPow(4, 2) == 16;
    assert Power(M1(), 2).cells == [1, 4, 9, 16, 0, 0, 0, 0];
  }

  /** The checked accessor reads past the last row without throwing. */
  lemma CheckedGetExample()
    ensures CheckedGet(M1(), 2, 0) == Ok(0)
    ensures CheckedGet(M1(), 0, 5) == Ok(0)
    ensures CheckedGet(M1(), 4, 0) == Err(OutOfRange(OUT_OF_RANGE))
  {
  }

  lemma WideInBounds()
    ensures TransposeInBounds(2, 3)
  {
    assert Mul(1, 2) == 2 && Mul(2, 3) == 6;
  }

  /** The buffer `operator~` as written leaves for `Wide()`: the writes `(1, 2) <- this(2, 1)` and `(0, 2) <- this(2, 0)` land on zeros. */
  lemma WideTransposeAsWritten()
    ensures TransposeInBounds(2, 3)
    ensures TransposeAsWritten(Wide()).cells == [0, 3, 1, 4, 0, 0, 0, 0, 0, 0, 0, 0]
  {
    WideInBounds();
    var a := Wide();
    assert Mul(1, 2) == 2 && Mul(1, 3) == 3 && Mul(2, 3) == 6;
    var z := [0, 0, 0, 0, 0, 0, 0, 0, 0, 0, 0, 0];
    assert TransposeSteps(a, 0, 0) == z;
    assert TransposeSteps(a, 0, 1) == z;
    assert TransposeSteps(a, 0, 2) == z[1 := 3];
    assert TransposeSteps(a, 0, 3) == z[1 := 3];
    assert TransposeSteps(a, 1, 0) == z[1 := 3];
    assert TransposeSteps(a, 1, 1) == z[1 := 3][2 := 1];
    assert TransposeSteps(a, 1, 2) == z[1 := 3][2 := 1][3 := 4];
    assert TransposeSteps(a, 1, 3) == z[1 := 3][2 := 1][3 := 4];
    assert TransposeSteps(a, 2, 0) == z[1 := 3][2 := 1][3 := 4];
  }

  /**
   * On the 2 x 3 matrix `[[0, 1, 2], [3, 4, 5]]` the loops of `operator~` read
   * `this(j, i)` at offsets 6 and 7, in the zero half of the buffer, so cells
   * `(2, 0)` and `(2, 1)` of the 3 x 2 result are 0 where the transpose holds 2 and 5.
   */
  lemma TransposeAsWrittenLosesCells(a: Grid)
    requires a == Wide()
    ensures TransposeInBounds(a.rows, a.cols)
    ensures Cell(TransposeAsWritten(a), 2, 0) == 0 && Cell(Transposed(a), 2, 0) == 2
    ensures Cell(TransposeAsWritten(a), 2, 1) == 0 && Cell(Transposed(a), 2, 1) == 5
    ensures TransposeAsWritten(a) != Transposed(a)
  {
    WideTransposeAsWritten();
    assert Mul(2, 2) == 4;
    TransposedAt(a, 2, 0);
    TransposedAt(a, 2, 1);
  }
}
