/**
 * The value of a `Matrix<T>` with unbounded integer elements and the value each operation of
 * Matrix.h computes from the values of its operands.
 *
 * A matrix value is its shape and its WHOLE buffer. The constructor allocates
 * `rows * cols * 2` slots although only the first `rows * cols` are the
 * row-major cells; the other half is kept because the checked accessor and
 * the transpose can reach it.
 */
module MatrixSpec {
  import opened Arith

  // The messages of the exceptions thrown by Matrix.h.
  const OUT_OF_RANGE: string := "matrix out of range"
  const ADD_MISMATCH: string := "the matrix's size doesn't match in matrix addition!"
  const SUB_MISMATCH: string := "the matrix's size doesn't match in matrix subtraction!"
  const MUL_MISMATCH: string :=
    "first matrix's columns doesn't equal to second matrix's rows in matrix multiplication!"

  /** `std::out_of_range` and `std::logic_error`, with their messages. */
  datatype MatrixError = OutOfRange(what: string) | LogicError(what: string)

  /** Either the value an operation returns or the exception it throws. */
  datatype Result<+T> = Ok(value: T) | Err(error: MatrixError)

  /** A matrix value: `dimX` rows, `dimY` columns and the buffer's contents. */
  datatype Grid = Grid(rows: nat, cols: nat, cells: seq<int>)

  /** Length of the buffer the constructor allocates. */
  function Capacity(rows: nat, cols: nat): nat
  {
    2 * Mul(rows, cols)
  }

  /** The buffer has the length the constructor gave it. */
  predicate Wf(g: Grid)
  {
    |g.cells| == Capacity(g.rows, g.cols)
  }

  /** Row-major slot of element `(x, y)` in a matrix with `cols` columns. */
  function Offset(x: nat, y: nat, cols: nat): nat
  {
    Mul(x, cols) + y
  }

  /** A freshly constructed `rows x cols` matrix: every slot value-initialised. */
  function Zero(rows: nat, cols: nat): (g: Grid)
    ensures Wf(g) && g.rows == rows && g.cols == cols
    ensures forall k :: 0 <= k < |g.cells| ==> g.cells[k] == 0
  {
    Grid(rows, cols, seq(Capacity(rows, cols), _ => 0))
  }

  /** Element `(x, y)` of a matrix, for a coordinate inside its shape. */
  function Cell(g: Grid, x: nat, y: nat): int
    requires Wf(g) && x < g.rows && y < g.cols
  {
    OffsetInLogical(x, y, g.rows, g.cols);
    g.cells[Offset(x, y, g.cols)]
  }

  /** `cat(x, y)`: the slot at offset `x * cols + y`, or `out_of_range` past the buffer. */
  function CheckedGet(g: Grid, x: nat, y: nat): Result<int>
  {
    var k := Offset(x, y, g.cols);
    if k < |g.cells| then Ok(g.cells[k]) else Err(OutOfRange(OUT_OF_RANGE))
  }

  /** `at(x, y) = v`: the matrix after the write, or `out_of_range` past the buffer. */
  function CheckedSet(g: Grid, x: nat, y: nat, v: int): Result<Grid>
  {
    var k := Offset(x, y, g.cols);
    if k < |g.cells| then Ok(g.(cells := g.cells[k := v])) else Err(OutOfRange(OUT_OF_RANGE))
  }

  /**
   * A fresh matrix of `a`'s shape whose cell `(i, j)` is `op(a(i, j), b(i, j))`;
   * the second half of its buffer stays zero.
   */
  function Pointwise(a: Grid, b: Grid, op: (int, int) -> int): (r: Grid)
    requires Wf(a) && Wf(b) && a.rows == b.rows && a.cols == b.cols
    ensures Wf(r) && r.rows == a.rows && r.cols == a.cols
  {
    var n := Capacity(a.rows, a.cols);
    Grid(a.rows, a.cols, seq(n, k requires 0 <= k < n => if k < Mul(a.rows, a.cols) then op(a.cells[k], b.cells[k]) else 0))
  }

  /** A fresh matrix of `a`'s shape whose cell `(i, j)` is `f(a(i, j))`. */
  function Elementwise(a: Grid, f: int -> int): (r: Grid)
    requires Wf(a)
    ensures Wf(r) && r.rows == a.rows && r.cols == a.cols
  {
    var n := Capacity(a.rows, a.cols);
    Grid(a.rows, a.cols, seq(n, k requires 0 <= k < n => if k < Mul(a.rows, a.cols) then f(a.cells[k]) else 0))
  }

  /** Binary `operator+`: `logic_error` unless the shapes agree. */
  function Sum(a: Grid, b: Grid): (r: Result<Grid>)
    requires Wf(a) && Wf(b)
    ensures r.Ok? <==> a.rows == b.rows && a.cols == b.cols
    ensures r.Ok? ==> Wf(r.value) && r.value.rows == a.rows && r.value.cols == a.cols
    ensures r.Err? ==> r.error == LogicError(ADD_MISMATCH)
  {
    if a.rows != b.rows || a.cols != b.cols then Err(LogicError(ADD_MISMATCH))
    else Ok(Pointwise(a, b, (x, y) => x + y))
  }

  /** Binary `operator-`: `logic_error` unless the shapes agree. */
  function Difference(a: Grid, b: Grid): (r: Result<Grid>)
    requires Wf(a) && Wf(b)
    ensures r.Ok? <==> a.rows == b.rows && a.cols == b.cols
    ensures r.Ok? ==> Wf(r.value) && r.value.rows == a.rows && r.value.cols == a.cols
    ensures r.Err? ==> r.error == LogicError(SUB_MISMATCH)
  {
    if a.rows != b.rows || a.cols != b.cols then Err(LogicError(SUB_MISMATCH))
    else Ok(Pointwise(a, b, (x, y) => x - y))
  }

  /** `a * c` and `c * a` for a scalar `c`. */
  function Scale(a: Grid, c: int): (r: Grid)
    requires Wf(a)
    ensures Wf(r) && r.rows == a.rows && r.cols == a.cols
  {
    Elementwise(a, x => x * c)
  }

  /** `std::pow` on integers with a non-negative exponent. */
  function IntPow(x: int, e: nat): int
  {
    if e == 0 then 1 else x * IntPow(x, e - 1)
  }

  /** Member `pow(e)`: every cell raised to the power `e`. */
  function Power(a: Grid, e: nat): (r: Grid)
    requires Wf(a)
    ensures Wf(r) && r.rows == a.rows && r.cols == a.cols
  {
    Elementwise(a, x => IntPow(x, e))
  }

  // ---------------------------------------------------------------------
  // Row-major layout of a result given row by row
  // ---------------------------------------------------------------------

  /** The rows laid out one after another. */
  function Flatten(rows: seq<seq<int>>): seq<int>
  {
    if rows == [] then [] else rows[0] + Flatten(rows[1..])
  }

  /** Every row has `cols` entries. */
  ghost predicate Rectangular(rows: seq<seq<int>>, cols: nat)
  {
    forall k :: 0 <= k < |rows| ==> |rows[k]| == cols
  }

  lemma {:induction false} FlattenLength(rows: seq<seq<int>>, cols: nat)
    requires Rectangular(rows, cols)
    ensures |Flatten(rows)| == Mul(|rows|, cols)
  {
    if rows != [] {
      FlattenLength(rows[1..], cols);
    }
  }

  /** Entry `j` of row `i` sits at the row-major offset of `(i, j)`. */
  lemma {:induction false} FlattenAt(rows: seq<seq<int>>, cols: nat, i: nat, j: nat)
    requires Rectangular(rows, cols) && i < |rows| && j < cols
    ensures |Flatten(rows)| == Mul(|rows|, cols)
    ensures Offset(i, j, cols) < |Flatten(rows)| && Flatten(rows)[Offset(i, j, cols)] == rows[i][j]
  {
    FlattenLength(rows, cols);
    OffsetInLogical(i, j, |rows|, cols);
    if i > 0 {
      FlattenAt(rows[1..], cols, i - 1, j);
      FlattenLength(rows[1..], cols);
    }
  }

  /**
   * The buffer of a fresh matrix with `|rows|` rows and `cols` columns after its
   * cell `(i, j)` has been set to `rows[i][j]`: the rows in order, then the
   * untouched half of the buffer.
   */
  function Layout(rows: seq<seq<int>>, cols: nat): (s: seq<int>)
    requires Rectangular(rows, cols)
    ensures |s| == Capacity(|rows|, cols)
  {
    FlattenLength(rows, cols);
    Flatten(rows) + seq(Mul(|rows|, cols), _ => 0)
  }

  lemma LayoutAt(rows: seq<seq<int>>, cols: nat, i: nat, j: nat)
    requires Rectangular(rows, cols) && i < |rows| && j < cols
    ensures Offset(i, j, cols) < Mul(|rows|, cols)
    ensures Layout(rows, cols)[Offset(i, j, cols)] == rows[i][j]
  {
    FlattenAt(rows, cols, i, j);
  }

  /** Past the logical part a layout is zero. */
  lemma LayoutTail(rows: seq<seq<int>>, cols: nat)
    requires Rectangular(rows, cols)
    ensures forall k :: Mul(|rows|, cols) <= k < |Layout(rows, cols)| ==> Layout(rows, cols)[k] == 0
  {
    FlattenLength(rows, cols);
  }

  // ---------------------------------------------------------------------
  // Matrix product
  // ---------------------------------------------------------------------

  /** The first `k` terms of row `i` of `a` times column `j` of `b`, summed in loop order. */
  function Dot(a: Grid, b: Grid, i: nat, j: nat, k: nat): int
    requires Wf(a) && Wf(b) && a.cols == b.rows
    requires i < a.rows && j < b.cols && k <= a.cols
  {
    if k == 0 then 0 else Dot(a, b, i, j, k - 1) + Cell(a, i, k - 1) * Cell(b, k - 1, j)
  }

  /** One more term of the dot product, read straight from the two buffers. */
  lemma DotStep(a: Grid, b: Grid, i: nat, j: nat, k: nat)
    requires Wf(a) && Wf(b) && a.cols == b.rows
    requires i < a.rows && j < b.cols && k < a.cols
    ensures Offset(i, k, a.cols) < |a.cells| && Offset(k, j, b.cols) < |b.cells|
    ensures Dot(a, b, i, j, k + 1) == Dot(a, b, i, j, k) + a.cells[Offset(i, k, a.cols)] * b.cells[Offset(k, j, b.cols)]
  {
    OffsetInLogical(i, k, a.rows, a.cols);
    OffsetInLogical(k, j, b.rows, b.cols);
  }

  /** The cells of `a * b`, row by row. */
  function ProductRows(a: Grid, b: Grid): (rows: seq<seq<int>>)
    requires Wf(a) && Wf(b) && a.cols == b.rows
    ensures |rows| == a.rows && Rectangular(rows, b.cols)
  {
    seq(a.rows, i requires 0 <= i < a.rows =>
      seq(b.cols, j requires 0 <= j < b.cols => Dot(a, b, i, j, a.cols)))
  }

  /** Matrix `operator*`: `logic_error` unless `a`'s columns equal `b`'s rows. */
  function Product(a: Grid, b: Grid): (r: Result<Grid>)
    requires Wf(a) && Wf(b)
    ensures r.Ok? <==> a.cols == b.rows
    ensures r.Ok? ==> Wf(r.value) && r.value.rows == a.rows && r.value.cols == b.cols
    ensures r.Err? ==> r.error == LogicError(MUL_MISMATCH)
  {
    if a.cols != b.rows then Err(LogicError(MUL_MISMATCH))
    else Ok(Grid(a.rows, b.cols, Layout(ProductRows(a, b), b.cols)))
  }

  // ---------------------------------------------------------------------
  // Transpose
  // ---------------------------------------------------------------------

  /**
   * `operator~` writes `ret(i, j) = this(j, i)` for `i < rows`, `j < cols` into a
   * `cols x rows` result. It stays inside both buffers exactly when the largest
   * offset it writes, that of `(rows - 1, cols - 1)` with `rows` columns, and the
   * largest it reads, that of `(cols - 1, rows - 1)` with `cols` columns, are
   * below the capacity.
   */
  predicate TransposeInBounds(rows: nat, cols: nat)
  {
    rows == 0 || cols == 0 ||
    (Offset(rows - 1, cols - 1, rows) < Capacity(rows, cols) &&
     Offset(cols - 1, rows - 1, cols) < Capacity(rows, cols))
  }

  lemma TransposeOffsets(i: nat, j: nat, rows: nat, cols: nat)
    requires TransposeInBounds(rows, cols) && i < rows && j < cols
    ensures Offset(i, j, rows) < Capacity(rows, cols)
    ensures Offset(j, i, cols) < Capacity(rows, cols)
  {
    MulMono(i, rows - 1, rows);
    MulMono(j, cols - 1, cols);
  }

  /**
   * The result buffer of `operator~` once its loops have done every write of
   * rows `0 .. i - 1` and the first `j` writes of row `i`.
   */
  function TransposeSteps(a: Grid, i: nat, j: nat): (s: seq<int>)
    requires Wf(a) && TransposeInBounds(a.rows, a.cols)
    requires i <= a.rows && j <= a.cols && (i == a.rows ==> j == 0)
    ensures |s| == Capacity(a.rows, a.cols)
    decreases i, j
  {
    if j == 0 then
      if i == 0 then seq(Capacity(a.rows, a.cols), _ => 0) else TransposeSteps(a, i - 1, a.cols)
    else
      TransposeOffsets(i, j - 1, a.rows, a.cols);
      TransposeSteps(a, i, j - 1)[Offset(i, j - 1, a.rows) := a.cells[Offset(j - 1, i, a.cols)]]
  }

  /** `operator~` as written: a `cols x rows` matrix holding all the writes of its loops. */
  function TransposeAsWritten(a: Grid): (r: Grid)
    requires Wf(a) && TransposeInBounds(a.rows, a.cols)
    ensures Wf(r) && r.rows == a.cols && r.cols == a.rows
  {
    MulCommutes(a.rows, a.cols);
    Grid(a.cols, a.rows, TransposeSteps(a, a.rows, 0))
  }

  /** The cells of the true transpose of `a`, row by row. */
  function TransposedRows(a: Grid): (rows: seq<seq<int>>)
    requires Wf(a)
    ensures |rows| == a.cols && Rectangular(rows, a.rows)
  {
    seq(a.cols, i requires 0 <= i < a.cols => seq(a.rows, j requires 0 <= j < a.rows => Cell(a, j, i)))
  }

  /** The true transpose: a `cols x rows` matrix whose `(i, j)` is `a(j, i)`. */
  function Transposed(a: Grid): (r: Grid)
    requires Wf(a)
    ensures Wf(r) && r.rows == a.cols && r.cols == a.rows
  {
    Grid(a.cols, a.rows, Layout(TransposedRows(a), a.rows))
  }
}
