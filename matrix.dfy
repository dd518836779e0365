/**
 * The `Matrix<T>` class of Matrix.h with unbounded integer elements, and its
 * free operators.
 *
 * Every method is proved against MatrixSpec: an operator that returns a new
 * matrix promises that the value of what it returns is the spec function of
 * the values of its operands, and a method that changes `this` promises what
 * `this` is afterwards in terms of what it was before. A C++ exception is an
 * `Err` result; a throwing method leaves everything as it was.
 */
module MatrixClass {
  import opened Arith
  import opened MatrixSpec

  class Matrix {
    var dimX: nat
    var dimY: nat
    var buffer: array<int>

    /** The buffer has the length the constructor gives it. */
    ghost predicate Valid()
      reads this
    {
      buffer.Length == Capacity(dimX, dimY)
    }

    /** The value of this matrix: its shape and the whole buffer. */
    ghost function Value(): (g: Grid)
      reads this, buffer
      ensures Valid() ==> Wf(g)
      ensures g.rows == dimX && g.cols == dimY && |g.cells| == buffer.Length
    {
      Grid(dimX, dimY, buffer[..])
    }

    /** `Matrix(_dimx, _dimy)`: a zero-filled buffer of twice the element count. */
    constructor (x: nat, y: nat)
      ensures Valid() && fresh(buffer)
      ensures Value() == Zero(x, y)
    {
      MulIsProduct(x, y);
      dimX, dimY := x, y;
      buffer := new int[x * y * 2](_ => 0);
    }

    /** The copy constructor: same shape, a buffer of its own with the same contents. */
    constructor Copy(mat: Matrix)
      requires mat.Valid()
      ensures Valid() && fresh(buffer)
      ensures Value() == mat.Value()
    {
      var copy := CopyBuffer(mat.buffer);
      dimX, dimY, buffer := mat.dimX, mat.dimY, copy;
    }

    /** `cat(x, y)` (and `at(x, y)` read): the slot at `x * dimY + y`, or `out_of_range`. */
    method Cat(x: nat, y: nat) returns (r: Result<int>)
      ensures r == CheckedGet(Value(), x, y)
      ensures r.Ok? <==> Offset(x, y, dimY) < buffer.Length
    {
      MulIsProduct(x, dimY);
      var k := x * dimY + y;
      if k < buffer.Length {
        r := Ok(buffer[k]);
      } else {
        r := Err(OutOfRange(OUT_OF_RANGE));
      }
    }

    /** `at(x, y) = v`: writes one slot, or throws `out_of_range` and writes nothing. */
    method SetAt(x: nat, y: nat, v: int) returns (r: Result<()>)
      modifies buffer
      ensures dimX == old(dimX) && dimY == old(dimY) && buffer == old(buffer)
      ensures r.Ok? <==> Offset(x, y, dimY) < buffer.Length
      ensures r.Ok? ==> CheckedSet(old(Value()), x, y, v) == Ok(Value())
      ensures r.Err? ==> r.error == OutOfRange(OUT_OF_RANGE) && Value() == old(Value())
    {
      MulIsProduct(x, dimY);
      var k := x * dimY + y;
      if k < buffer.Length {
        buffer[k] := v;
        r := Ok(());
      } else {
        r := Err(OutOfRange(OUT_OF_RANGE));
      }
    }

    /** `fastCat(x, y)`: the slot at `x * dimY + y`; the caller keeps it inside the buffer. */
    method FastCat(x: nat, y: nat) returns (v: int)
      requires Offset(x, y, dimY) < buffer.Length
      ensures v == buffer[Offset(x, y, dimY)]
    {
      MulIsProduct(x, dimY);
      v := buffer[x * dimY + y];
    }

    /** `fastAt(x, y) = v`: writes the slot at `x * dimY + y` and nothing else. */
    method SetFast(x: nat, y: nat, v: int)
      requires Offset(x, y, dimY) < buffer.Length
      modifies buffer
      ensures buffer[..] == old(buffer[..])[Offset(x, y, dimY) := v]
    {
      MulIsProduct(x, dimY);
      buffer[x * dimY + y] := v;
    }

    /** `operator=`: takes over the source's shape and a copy of its buffer; the source is untouched. */
    method Assign(src: Matrix)
      requires src.Valid()
      modifies this
      ensures Valid() && fresh(buffer)
      ensures Value() == old(src.Value())
      ensures src != this ==> src.Value() == old(src.Value())
    {
      var copy := CopyBuffer(src.buffer);
      dimX, dimY, buffer := src.dimX, src.dimY, copy;
    }

    /** Unary `operator+`: an equal copy. */
    method Plus() returns (r: Matrix)
      requires Valid()
      ensures fresh(r) && fresh(r.buffer) && r.Valid()
      ensures r.Value() == Value()
    {
      r := new Matrix.Copy(this);
    }

    /**
     * `operator~` as written: `ret(i, j) = this(j, i)` for `i < dimX`, `j < dimY`
     * into a `dimY x dimX` matrix. The caller keeps every offset inside the buffers.
     */
    method Transpose() returns (ret: Matrix)
      requires Valid() && TransposeInBounds(dimX, dimY)
      ensures fresh(ret) && fresh(ret.buffer) && ret.Valid()
      ensures ret.Value() == TransposeAsWritten(Value())
    {
      ghost var a := Value();
      ret := new Matrix(dimY, dimX);
      MulCommutes(dimX, dimY);
      for i := 0 to dimX
        modifies ret.buffer
        invariant ret.buffer[..] == TransposeSteps(a, i, 0)
      {
        TransposeRow(ret, i);
      }
    }

    /**
     * The inner loop of `operator~` for row `i` of `ret`: writes `ret(i, j) = this(j, i)`
     * for `j = 0 .. dimY - 1`, taking the writes so far from those of rows `0 .. i - 1`
     * to those of rows `0 .. i`.
     */
    method TransposeRow(ret: Matrix, i: nat)
      requires Valid() && TransposeInBounds(dimX, dimY) && i < dimX
      requires ret.Valid() && ret.dimX == dimY && ret.dimY == dimX && ret.buffer != buffer
      requires ret.buffer[..] == TransposeSteps(Value(), i, 0)
      modifies ret.buffer
      ensures ret.buffer[..] == TransposeSteps(Value(), i + 1, 0)
    {
      ghost var a := Value();
      MulCommutes(dimX, dimY);
      for j := 0 to dimY
        invariant ret.buffer[..] == TransposeSteps(a, i, j)
      {
        TransposeOffsets(i, j, dimX, dimY);
        var v := FastCat(j, i);
        ret.SetFast(i, j, v);
      }
    }

    /**
     * `operator~` as evidently intended: `ret(j, i) = this(i, j)`, visiting `ret`
     * row by row. Unlike `Transpose` it needs no bound on the offsets and yields
     * the true transpose of every shape.
     */
    method TransposeCorrected() returns (ret: Matrix)
      requires Valid()
      ensures fresh(ret) && fresh(ret.buffer) && ret.Valid()
      ensures ret.Value() == Transposed(Value())
    {
      ghost var target := Transposed(Value()).cells;
      ret := new Matrix(dimY, dimX);
      for j := 0 to dimY
        modifies ret.buffer
        invariant FilledUpTo(ret.buffer[..], Offset(j, 0, dimX), target)
      {
        TransposeCorrectedRow(ret, j);
      }
      LayoutTail(TransposedRows(Value()), dimX);
      FilledAll(ret.buffer[..], Mul(dimY, dimX), target);
    }

    /** Row `j` of the corrected transpose: `ret(j, i) = this(i, j)` for `i = 0 .. dimX - 1`. */
    method TransposeCorrectedRow(ret: Matrix, j: nat)
      requires Valid() && ret.Valid() && ret.dimX == dimY && ret.dimY == dimX && ret.buffer != buffer && j < dimY
      requires FilledUpTo(ret.buffer[..], Offset(j, 0, dimX), Transposed(Value()).cells)
      modifies ret.buffer
      ensures FilledUpTo(ret.buffer[..], Offset(j + 1, 0, dimX), Transposed(Value()).cells)
    {
      ghost var a := Value();
      ghost var target := Transposed(a).cells;
      for i := 0 to dimX
        invariant FilledUpTo(ret.buffer[..], Offset(j, i, dimX), target)
      {
        OffsetInLogical(i, j, dimX, dimY);
        LayoutAt(TransposedRows(a), dimX, j, i);
        var v := FastCat(i, j);
        ghost var before := ret.buffer[..];
        ret.SetFast(j, i, v);
        FillStep(before, Offset(j, i, dimX), target);
      }
    }

    /** `operator+=`: `*this = *this + src`; on a shape mismatch it throws and `*this` is unchanged. */
    method AddAssign(src: Matrix) returns (r: Result<()>)
      requires Valid() && src.Valid()
      modifies this
      ensures Valid()
      ensures r.Err? ==> Sum(old(Value()), old(src.Value())) == Err(r.error) && Value() == old(Value())
      ensures r.Ok? ==> Sum(old(Value()), old(src.Value())) == Ok(Value())
      ensures r.Ok? ==> fresh(buffer)
      ensures r.Err? ==> unchanged(this)
    {
      var t := Add(this, src);
      if t.Err? {
        return Err(t.error);
      }
      Assign(t.value);
      r := Ok(());
    }

    /** `operator-=`: `*this = *this - src`; on a shape mismatch it throws and `*this` is unchanged. */
    method SubtractAssign(src: Matrix) returns (r: Result<()>)
      requires Valid() && src.Valid()
      modifies this
      ensures Valid()
      ensures r.Err? ==> Difference(old(Value()), old(src.Value())) == Err(r.error) && Value() == old(Value())
      ensures r.Ok? ==> Difference(old(Value()), old(src.Value())) == Ok(Value())
      ensures r.Ok? ==> fresh(buffer)
      ensures r.Err? ==> unchanged(this)
    {
      var t := Subtract(this, src);
      if t.Err? {
        return Err(t.error);
      }
      Assign(t.value);
      r := Ok(());
    }

    /** `operator*=(c)`: `*this = *this * c`. */
    method ScaleAssign(c: int)
      requires Valid()
      modifies this
      ensures Valid()
      ensures Value() == Scale(old(Value()), c)
      ensures fresh(buffer)
    {
      var t := ScaleRight(this, c);
      Assign(t);
    }

    /** `operator*=(src)`: `*this = *this * src`; on a shape mismatch it throws and `*this` is unchanged. */
    method MultiplyAssign(src: Matrix) returns (r: Result<()>)
      requires Valid() && src.Valid()
      modifies this
      ensures Valid()
      ensures r.Err? ==> Product(old(Value()), old(src.Value())) == Err(r.error) && Value() == old(Value())
      ensures r.Ok? ==> Product(old(Value()), old(src.Value())) == Ok(Value())
      ensures r.Ok? ==> fresh(buffer)
      ensures r.Err? ==> unchanged(this)
    {
      var t := Multiply(this, src);
      if t.Err? {
        return Err(t.error);
      }
      Assign(t.value);
      r := Ok(());
    }

    /** Member `pow(e)`: a new matrix of the same shape with every cell raised to `e`. */
    method Pow(e: nat) returns (ret: Matrix)
      requires Valid()
      ensures fresh(ret) && fresh(ret.buffer) && ret.Valid()
      ensures ret.Value() == Power(Value(), e)
    {
      ghost var target := Power(Value(), e).cells;
      ret := new Matrix(dimX, dimY);
      for i := 0 to dimX
        modifies ret.buffer
        invariant FilledUpTo(ret.buffer[..], Offset(i, 0, dimY), target)
      {
        PowRow(ret, e, i);
      }
      FilledAll(ret.buffer[..], Mul(dimX, dimY), target);
    }

    /** The inner loop of `pow` for row `i`: `ret(i, j) = this(i, j)` raised to `e`. */
    method PowRow(ret: Matrix, e: nat, i: nat)
      requires Valid() && ret.Valid() && ret.dimX == dimX && ret.dimY == dimY && ret.buffer != buffer && i < dimX
      requires FilledUpTo(ret.buffer[..], Offset(i, 0, dimY), Power(Value(), e).cells)
      modifies ret.buffer
      ensures FilledUpTo(ret.buffer[..], Offset(i + 1, 0, dimY), Power(Value(), e).cells)
    {
      ghost var target := Power(Value(), e).cells;
      for j := 0 to dimY
        invariant FilledUpTo(ret.buffer[..], Offset(i, j, dimY), target)
      {
        OffsetInLogical(i, j, dimX, dimY);
        var x := FastCat(i, j);
        ghost var before := ret.buffer[..];
        ret.SetFast(i, j, IntPow(x, e));
        FillStep(before, Offset(i, j, dimY), target);
      }
    }
  }

  /** `buf` holds `target` in its first `t` slots and zero after them. */
  ghost predicate FilledUpTo(buf: seq<int>, t: nat, target: seq<int>)
  {
    |buf| == |target| && forall k :: 0 <= k < |buf| ==> buf[k] == if k < t then target[k] else 0
  }

  /** Writing the target's value into the next slot extends the filled prefix by one. */
  lemma FillStep(buf: seq<int>, t: nat, target: seq<int>)
    requires FilledUpTo(buf, t, target) && t < |buf|
    ensures FilledUpTo(buf[t := target[t]], t + 1, target)
  {
  }

  /** Once the whole logical part is filled, the buffer is the target, whose second half is zero. */
  lemma FilledAll(buf: seq<int>, t: nat, target: seq<int>)
    requires FilledUpTo(buf, t, target)
    requires forall k :: t <= k < |target| ==> target[k] == 0
    ensures buf == target
  {
  }

  /** `vector::assign` from another buffer: a fresh array with the same contents. */
  method CopyBuffer(src: array<int>) returns (dst: array<int>)
    ensures fresh(dst) && dst[..] == src[..]
  {
    dst := new int[src.Length];
    for k := 0 to src.Length
      invariant forall m :: 0 <= m < k ==> dst[m] == src[m]
    {
      dst[k] := src[k];
    }
  }

  /** Binary `operator+`. */
  method Add(a: Matrix, b: Matrix) returns (r: Result<Matrix>)
    requires a.Valid() && b.Valid()
    ensures r.Err? ==> Sum(a.Value(), b.Value()) == Err(r.error)
    ensures r.Ok? ==> fresh(r.value) && fresh(r.value.buffer) && r.value.Valid()
    ensures r.Ok? ==> Sum(a.Value(), b.Value()) == Ok(r.value.Value())
  {
    if a.dimX != b.dimX || a.dimY != b.dimY {
      return Err(LogicError(ADD_MISMATCH));
    }
    ghost var target := Sum(a.Value(), b.Value()).value.cells;
    var res := new Matrix(a.dimX, a.dimY);
    for i := 0 to res.dimX
      modifies res.buffer
      invariant FilledUpTo(res.buffer[..], Offset(i, 0, res.dimY), target)
    {
      AddRow(res, a, b, i);
    }
    FilledAll(res.buffer[..], Mul(res.dimX, res.dimY), target);
    return Ok(res);
  }

  /** The inner loop of binary `operator+` for row `i`: `res(i, j) = a(i, j) + b(i, j)`. */
  method AddRow(res: Matrix, a: Matrix, b: Matrix, i: nat)
    requires a.Valid() && b.Valid() && res.Valid() && a.dimX == b.dimX && a.dimY == b.dimY
    requires res.dimX == a.dimX && res.dimY == a.dimY && res.buffer != a.buffer && res.buffer != b.buffer && i < a.dimX
    requires FilledUpTo(res.buffer[..], Offset(i, 0, a.dimY), Sum(a.Value(), b.Value()).value.cells)
    modifies res.buffer
    ensures FilledUpTo(res.buffer[..], Offset(i + 1, 0, a.dimY), Sum(a.Value(), b.Value()).value.cells)
  {
    ghost var target := Sum(a.Value(), b.Value()).value.cells;
    for j := 0 to a.dimY
      invariant FilledUpTo(res.buffer[..], Offset(i, j, a.dimY), target)
    {
      OffsetInLogical(i, j, a.dimX, a.dimY);
      var x := a.FastCat(i, j);
      var y := b.FastCat(i, j);
      ghost var before := res.buffer[..];
      res.SetFast(i, j, x + y);
      FillStep(before, Offset(i, j, a.dimY), target);
    }
  }

  /** Binary `operator-`. */
  method Subtract(a: Matrix, b: Matrix) returns (r: Result<Matrix>)
    requires a.Valid() && b.Valid()
    ensures r.Err? ==> Difference(a.Value(), b.Value()) == Err(r.error)
    ensures r.Ok? ==> fresh(r.value) && fresh(r.value.buffer) && r.value.Valid()
    ensures r.Ok? ==> Difference(a.Value(), b.Value()) == Ok(r.value.Value())
  {
    if a.dimX != b.dimX || a.dimY != b.dimY {
      return Err(LogicError(SUB_MISMATCH));
    }
    ghost var target := Difference(a.Value(), b.Value()).value.cells;
    var res := new Matrix(a.dimX, a.dimY);
    for i := 0 to res.dimX
      modifies res.buffer
      invariant FilledUpTo(res.buffer[..], Offset(i, 0, res.dimY), target)
    {
      SubtractRow(res, a, b, i);
    }
    FilledAll(res.buffer[..], Mul(res.dimX, res.dimY), target);
    return Ok(res);
  }

  /** The inner loop of binary `operator-` for row `i`: `res(i, j) = a(i, j) - b(i, j)`. */
  method SubtractRow(res: Matrix, a: Matrix, b: Matrix, i: nat)
    requires a.Valid() && b.Valid() && res.Valid() && a.dimX == b.dimX && a.dimY == b.dimY
    requires res.dimX == a.dimX && res.dimY == a.dimY && res.buffer != a.buffer && res.buffer != b.buffer && i < a.dimX
    requires FilledUpTo(res.buffer[..], Offset(i, 0, a.dimY), Difference(a.Value(), b.Value()).value.cells)
    modifies res.buffer
    ensures FilledUpTo(res.buffer[..], Offset(i + 1, 0, a.dimY), Difference(a.Value(), b.Value()).value.cells)
  {
    ghost var target := Difference(a.Value(), b.Value()).value.cells;
    for j := 0 to a.dimY
      invariant FilledUpTo(res.buffer[..], Offset(i, j, a.dimY), target)
    {
      OffsetInLogical(i, j, a.dimX, a.dimY);
      var x := a.FastCat(i, j);
      var y := b.FastCat(i, j);
      ghost var before := res.buffer[..];
      res.SetFast(i, j, x - y);
      FillStep(before, Offset(i, j, a.dimY), target);
    }
  }

  /** Scalar `operator*(a, c)`. */
  method ScaleRight(a: Matrix, c: int) returns (res: Matrix)
    requires a.Valid()
    ensures fresh(res) && fresh(res.buffer) && res.Valid()
    ensures res.Value() == Scale(a.Value(), c)
  {
    ghost var target := Scale(a.Value(), c).cells;
    res := new Matrix(a.dimX, a.dimY);
    for i := 0 to a.dimX
      modifies res.buffer
      invariant FilledUpTo(res.buffer[..], Offset(i, 0, a.dimY), target)
    {
      ScaleRow(res, a, c, i);
    }
    FilledAll(res.buffer[..], Mul(a.dimX, a.dimY), target);
  }

  /** The inner loop of scalar `operator*` for row `i`: `res(i, j) = a(i, j) * c`. */
  method ScaleRow(res: Matrix, a: Matrix, c: int, i: nat)
    requires a.Valid() && res.Valid() && res.dimX == a.dimX && res.dimY == a.dimY && res.buffer != a.buffer && i < a.dimX
    requires FilledUpTo(res.buffer[..], Offset(i, 0, a.dimY), Scale(a.Value(), c).cells)
    modifies res.buffer
    ensures FilledUpTo(res.buffer[..], Offset(i + 1, 0, a.dimY), Scale(a.Value(), c).cells)
  {
    ghost var target := Scale(a.Value(), c).cells;
    for j := 0 to a.dimY
      invariant FilledUpTo(res.buffer[..], Offset(i, j, a.dimY), target)
    {
      OffsetInLogical(i, j, a.dimX, a.dimY);
      var x := a.FastCat(i, j);
      ghost var before := res.buffer[..];
      res.SetFast(i, j, x * c);
      FillStep(before, Offset(i, j, a.dimY), target);
    }
  }

  /** Scalar `operator*(c, a)`: delegates to `a * c`. */
  method ScaleLeft(c: int, a: Matrix) returns (res: Matrix)
    requires a.Valid()
    ensures fresh(res) && fresh(res.buffer) && res.Valid()
    ensures res.Value() == Scale(a.Value(), c)
  {
    res := ScaleRight(a, c);
  }

  /** Matrix `operator*`: each result cell is zeroed, then accumulates its dot product. */
  method Multiply(a: Matrix, b: Matrix) returns (r: Result<Matrix>)
    requires a.Valid() && b.Valid()
    ensures r.Err? ==> Product(a.Value(), b.Value()) == Err(r.error)
    ensures r.Ok? ==> fresh(r.value) && fresh(r.value.buffer) && r.value.Valid()
    ensures r.Ok? ==> Product(a.Value(), b.Value()) == Ok(r.value.Value())
  {
    if a.dimY != b.dimX {
      return Err(LogicError(MUL_MISMATCH));
    }
    ghost var A, B := a.Value(), b.Value();
    ghost var target := Product(A, B).value.cells;
    var res := new Matrix(a.dimX, b.dimY);
    for i := 0 to a.dimX
      modifies res.buffer
      invariant FilledUpTo(res.buffer[..], Offset(i, 0, b.dimY), target)
    {
      for j := 0 to b.dimY
        modifies res.buffer
        invariant FilledUpTo(res.buffer[..], Offset(i, j, b.dimY), target)
      {
        LayoutAt(ProductRows(A, B), b.dimY, i, j);
        ghost var before := res.buffer[..];
        AccumulateCell(res, a, b, i, j);
        FillStep(before, Offset(i, j, b.dimY), target);
      }
    }
    LayoutTail(ProductRows(A, B), b.dimY);
    FilledAll(res.buffer[..], Mul(a.dimX, b.dimY), target);
    return Ok(res);
  }

  /**
   * The body of the middle loop of matrix `operator*`: `res(i, j)` is zeroed and
   * then accumulates `a(i, k) * b(k, j)` for `k = 0 .. a.dimY - 1`; no other slot
   * of `res` changes.
   */
  method AccumulateCell(res: Matrix, a: Matrix, b: Matrix, i: nat, j: nat)
    requires a.Valid() && b.Valid() && res.Valid() && a.dimY == b.dimX
    requires res.dimX == a.dimX && res.dimY == b.dimY && i < a.dimX && j < b.dimY
    requires res.buffer != a.buffer && res.buffer != b.buffer
    modifies res.buffer
    ensures Offset(i, j, b.dimY) < Mul(a.dimX, b.dimY)
    ensures res.buffer[..] == old(res.buffer[..])[Offset(i, j, b.dimY) := Dot(a.Value(), b.Value(), i, j, a.dimY)]
  {
    ghost var A, B := a.Value(), b.Value();
    ghost var t := Offset(i, j, b.dimY);
    OffsetInLogical(i, j, a.dimX, b.dimY);
    res.SetFast(i, j, 0);
    for k := 0 to a.dimY
      invariant res.buffer[..] == old(res.buffer[..])[t := Dot(A, B, i, j, k)]
    {
      DotStep(A, B, i, j, k);
      var acc := res.FastCat(i, j);
      var x := a.FastCat(i, k);
      var y := b.FastCat(k, j);
      res.SetFast(i, j, acc + x * y);
    }
  }

  /** Free `transposition(x)`: `~x`. */
  method Transposition(x: Matrix) returns (r: Matrix)
    requires x.Valid() && TransposeInBounds(x.dimX, x.dimY)
    ensures fresh(r) && fresh(r.buffer) && r.Valid()
    ensures r.Value() == TransposeAsWritten(x.Value())
  {
    r := x.Transpose();
  }
}
