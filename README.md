# Matrix.h in Dafny

A model of the `Matrix<T>` class template of Matrix.h, with elements that are unbounded mathematical integers (Dafny `int`), together with its free operators. The model covers:

- the constructor, the copy constructor and `operator=`;
- the checked accessors `at`/`cat` and the unchecked ones `fastAt`/`fastCat`;
- unary `operator+`, `operator~` and member `pow`;
- the compound operators `+=`, `-=`, `*=` (by a scalar and by a matrix);
- the free `transposition`, binary `operator+`/`operator-`, scalar `operator*` in both orders, and matrix `operator*`.

A matrix has `dimX` rows and `dimY` columns. They are stored row-major in a flat buffer: element `(x, y)` sits at slot `x * dimY + y`.

The project has five modules, one per file:

- `Arith` (arith.dfy): `Mul`, multiplication of naturals written as repeated addition. Every offset and buffer length in the model is stated with it, so no proof depends on nonlinear arithmetic.
- `MatrixSpec` (spec.dfy): the value of a matrix is a `Grid` holding its shape and its whole buffer. This module gives the error values (`Result`, with the messages of the C++ exceptions) and the value each operation computes: `Sum`, `Difference`, `Scale`, `Power`, `Product`, `TransposeAsWritten` and `Transposed`.
- `MatrixLaws` (laws.dfy): what those values are, cell by cell, and the relations between them.
- `MatrixClass` (matrix.dfy): `class Matrix` with the fields `dimX`, `dimY` and `buffer: array<int>`, plus the free operators as module-level methods. Every operator fills a fresh result with the same loops and the same `fastAt`/`fastCat` calls as the C++. Each method is proved to return, or to leave in `this`, the `MatrixSpec` value of its operands.
- `MatrixScenarios` (scenarios.dfy): concrete 2 x 2 and 2 x 3 matrices, worked through in lemmas about the specification.

Throughout:

- A C++ exception is modelled as an `Err` result carrying `OutOfRange` or `LogicError` and the message string of the source.
- A method that throws leaves every matrix unchanged.
- The inner loops of the operators are separate methods, one per row or per cell: `AddRow`, `SubtractRow`, `ScaleRow`, `PowRow`, `TransposeRow`, `AccumulateCell`. This keeps each proof small. The order of reads and writes is the source's.

Three behaviours of the code go beyond what the class otherwise shows it is meant to do. The model follows the code in each case.

- **The buffer is twice as large as the matrix.** The constructor allocates `dimX * dimY * 2` slots (Matrix.h:23). The loops of `pow`, binary `+`, binary `-`, scalar `*` and matrix `*` address only the first `dimX * dimY` slots of each buffer (Matrix.h:112-114, 139-141, 153-155, 164-166, 184-188); the second half is never part of the matrix's shape. Two operations can still reach it: the checked accessor `at`/`cat`, and `operator~` on a non-square shape, whose read `this(j, i)` can land past slot `dimX * dimY` (see Findings). The model keeps the doubled buffer because both behaviours below depend on it.
- **The checked accessor accepts some coordinates outside the shape.** `at`/`cat` reject an offset only when it is past the real buffer (Matrix.h:36, Matrix.h:50). They do not compare `x` with `dimX` or `y` with `dimY`. So for the accessor's evident purpose, guarding a `dimX x dimY` matrix, the check is too loose:
  - When `dimX > 0` and `dimY > 0`, `at(dimX, 0)` reads the first slot of the second half (`CheckedGetRowPastEnd`). When `dimX == 0` the buffer is empty and the call throws.
  - When `dimX >= 2` and `dimY > 0`, `at(0, dimY)` reads cell `(1, 0)` (`CheckedGetColumnPastEnd`). With a single row, the same offset lands in the second half.
  - From row `2 * dimX` on, every coordinate throws (`CheckedGetFarOutside`). When `dimY == 0` the buffer is empty and every coordinate throws.
- **Transpose.** `operator~` builds a `Matrix(dimY, dimX)` result (Matrix.h:81). The free function that wraps it is called `transposition` (Matrix.h:128-131). So a true transpose is meant for every shape. But the loop body writes `ret(i, j) = this(j, i)` for `i < dimX` and `j < dimY` (Matrix.h:82-84), which is correct only for square matrices (see Findings).
  - `Transpose` and `Transposition` model the loops as written. They require that every offset the loops touch lies inside the buffers (`TransposeInBounds`); outside those bounds the C++ behaviour is undefined.
  - `TransposeInBounds` always holds for square matrices (`SquareInBounds`).

## Model

| member | source | states |
|---|---|---|
| MatrixSpec.Zero | Matrix.h:20-24 | a freshly constructed `rows x cols` matrix has that shape, a buffer of `2 * rows * cols` slots, and every slot zero |
| MatrixClass.Matrix.constructor | Matrix.h:20-24 | the new object has `dimX`, `dimY` equal to the arguments and a fresh buffer whose value is `Zero(x, y)` |
| MatrixClass.Matrix.Copy | Matrix.h:26-30 | the copy has the source's shape and a fresh buffer with the same contents |
| MatrixClass.CopyBuffer | Matrix.h:29 | `vector::assign`: a fresh array equal slot for slot to the source |
| MatrixClass.Matrix.Cat | Matrix.h:48-55 | `cat(x, y)` (and a read through `at`) is `Ok` exactly when `x * dimY + y` is below the buffer length, and then holds that slot; otherwise it is `out_of_range` with the source's message |
| MatrixClass.Matrix.SetAt | Matrix.h:34-41 | a write through `at` succeeds exactly when the offset is inside the buffer; the new value is `CheckedSet` of the old one, and the shape and the buffer object are unchanged; on failure it is `out_of_range` and nothing changes |
| MatrixClass.Matrix.FastCat | Matrix.h:57-60 | `fastCat(x, y)` returns slot `x * dimY + y` |
| MatrixClass.Matrix.SetFast | Matrix.h:43-46 | a write through `fastAt(x, y)` changes slot `x * dimY + y` and no other slot |
| MatrixLaws.CheckedGetInside | Matrix.h:48-55 | inside the shape, the checked read succeeds and returns cell `(x, y)` |
| MatrixLaws.CheckedGetRowPastEnd | Matrix.h:34-41 | with at least one row and one column, row `dimX`, one past the last row, is accepted and reads the first slot of the second half |
| MatrixLaws.CheckedGetColumnPastEnd | Matrix.h:48-55 | with at least two rows and one column, column `dimY`, one past the last column, is accepted and reads cell `(1, 0)` |
| MatrixLaws.CheckedGetFarOutside | Matrix.h:48-55 | from row `2 * dimX` on, every coordinate throws `out_of_range` |
| MatrixLaws.CheckedSetThenGet | Matrix.h:34-41 | a checked write fails exactly when the checked read there fails; after a successful write the shape and length are kept, the written value is read back, and every slot at another offset reads as before |
| MatrixClass.Matrix.Assign | Matrix.h:62-66 | after `operator=`, `this` has the source's value in a fresh buffer, and a distinct source is unchanged |
| MatrixClass.Matrix.Plus | Matrix.h:68-70 | unary `+` returns a fresh matrix equal to `this` |
| MatrixSpec.Sum | Matrix.h:133-145 | binary `+` is `Ok` exactly when the shapes agree; the result has `a`'s shape; otherwise it is `logic_error` with the addition message |
| MatrixLaws.SumAt | Matrix.h:138-143 | cell `(i, j)` of `a + b` is `a(i, j) + b(i, j)` |
| MatrixClass.Add | Matrix.h:133-145 | the method throws exactly when `Sum` does, with the same error, and otherwise returns a fresh matrix whose value is `Sum(a, b)` |
| MatrixClass.AddRow | Matrix.h:140-142 | one pass of the inner loop of `+` extends the filled prefix of the result by one row of `Sum(a, b)` |
| MatrixSpec.Difference | Matrix.h:147-159 | binary `-` is `Ok` exactly when the shapes agree; the result has `a`'s shape; otherwise it is `logic_error` with the subtraction message |
| MatrixLaws.DifferenceAt | Matrix.h:152-157 | cell `(i, j)` of `a - b` is `a(i, j) - b(i, j)` |
| MatrixLaws.DifferenceIsSumOfNegated | Matrix.h:133-170 | `a - b` succeeds exactly when `a + b * (-1)` does, and then equals it |
| MatrixClass.Subtract | Matrix.h:147-159 | the method throws exactly when `Difference` does, with the same error, and otherwise returns a fresh matrix whose value is `Difference(a, b)` |
| MatrixClass.SubtractRow | Matrix.h:154-156 | one pass of the inner loop of `-` extends the filled prefix by one row of `Difference(a, b)` |
| MatrixSpec.Scale | Matrix.h:161-170 | scalar `*` keeps the shape |
| MatrixLaws.ScaleAt | Matrix.h:163-168 | cell `(i, j)` of `a * c` is `a(i, j) * c` |
| MatrixLaws.ScaleByZero | Matrix.h:161-170 | `a * 0` is exactly a freshly constructed matrix of `a`'s shape |
| MatrixClass.ScaleRight | Matrix.h:161-170 | `a * c` returns a fresh matrix whose value is `Scale(a, c)` |
| MatrixClass.ScaleRow | Matrix.h:165-167 | one pass of the inner loop of scalar `*` extends the filled prefix by one row of `Scale(a, c)` |
| MatrixClass.ScaleLeft | Matrix.h:172-175 | `c * a` has the same value as `a * c` |
| MatrixSpec.Power | Matrix.h:110-118 | `pow(e)` keeps the shape |
| MatrixLaws.PowerAt | Matrix.h:112-116 | cell `(i, j)` of `pow(e)` is `a(i, j)` to the power `e` |
| MatrixLaws.PowerOne | Matrix.h:110-118 | `pow(1)` reproduces every cell |
| MatrixClass.Matrix.Pow | Matrix.h:110-118 | `pow(e)` returns a fresh matrix whose value is `Power(this, e)` |
| MatrixClass.Matrix.PowRow | Matrix.h:113-115 | one pass of the inner loop of `pow` extends the filled prefix by one row of `Power(this, e)` |
| MatrixSpec.DotStep | Matrix.h:187-189 | one more turn of the `k` loop adds `a(i, k) * b(k, j)`, read from the two buffers, to the running sum |
| MatrixSpec.Product | Matrix.h:177-193 | matrix `*` is `Ok` exactly when `a.dimY == b.dimX`; the result is `a.dimX x b.dimY`; otherwise it is `logic_error` with the multiplication message |
| MatrixLaws.ProductAt | Matrix.h:183-191 | cell `(i, j)` of `a * b` is the sum over `k < a.dimY` of `a(i, k) * b(k, j)`, accumulated in loop order |
| MatrixLaws.ProductShapeAssociative | Matrix.h:177-183 | `(a * b) * c` and `a * (b * c)` succeed under the same condition and have the same shape |
| MatrixClass.Multiply | Matrix.h:177-193 | the method throws exactly when `Product` does, with the same error, and otherwise returns a fresh matrix whose value is `Product(a, b)` |
| MatrixClass.AccumulateCell | Matrix.h:186-189 | zeroing `res(i, j)` and running the `k` loop leaves the dot product in slot `(i, j)` and changes no other slot |
| MatrixSpec.TransposeOffsets | Matrix.h:82-84 | under `TransposeInBounds`, every slot the loops of `operator~` write or read is inside the buffer |
| MatrixSpec.TransposeSteps | Matrix.h:82-86 | the result buffer of `operator~` after a prefix of its writes has the length of the buffer |
| MatrixSpec.TransposeAsWritten | Matrix.h:80-88 | `operator~` as written yields a well-formed `dimY x dimX` matrix |
| MatrixClass.Matrix.Transpose | Matrix.h:80-88 | `~this` returns a fresh matrix whose value is `TransposeAsWritten(this)` |
| MatrixClass.Matrix.TransposeRow | Matrix.h:83-85 | one pass of the inner loop of `operator~` takes the buffer from the writes of rows `0 .. i - 1` to those of rows `0 .. i` |
| MatrixClass.Transposition | Matrix.h:128-131 | `transposition(x)` has the value of `~x` |
| MatrixLaws.SquareInBounds | Matrix.h:80-88 | on a square matrix, `operator~` stays inside both buffers |
| MatrixLaws.TransposeStepsSquare | Matrix.h:82-86 | on a square matrix, at every point of the loops the slots written so far hold the true transpose and the rest are zero |
| MatrixLaws.TransposeStepSquare | Matrix.h:84 | on a square matrix, one write of `operator~` extends that prefix by one slot |
| MatrixLaws.TransposeAsWrittenSquare | Matrix.h:80-88 | on a square matrix, `operator~` as written is the true transpose |
| MatrixLaws.TransposeSquareTwice | Matrix.h:80-88 | on a square matrix, `~a` has `(~a)(i, j) == a(j, i)`, and `~~a` gives back every cell |
| MatrixSpec.Transposed | Matrix.h:80-88 | the intended transpose is a well-formed `dimY x dimX` matrix |
| MatrixLaws.TransposedAt | Matrix.h:84 | the intended transpose swaps the coordinates of every cell, for every shape |
| MatrixLaws.TransposedTwice | Matrix.h:80-88 | transposing twice with the intended transpose gives back the shape and every cell |
| MatrixClass.Matrix.TransposeCorrected | Matrix.h:80-88 | the corrected loops (`ret(j, i) = this(i, j)`) return a fresh matrix whose value is `Transposed(this)`, for every shape |
| MatrixClass.Matrix.TransposeCorrectedRow | Matrix.h:83-85 | one pass of the corrected inner loop extends the filled prefix by one row of `Transposed(this)` |
| MatrixClass.Matrix.AddAssign | Matrix.h:90-92 | `+=` leaves `this` equal to `Sum(old this, src)` in a fresh buffer of its own; on a shape mismatch it throws the same error and `this` (fields and buffer object) is unchanged |
| MatrixClass.Matrix.SubtractAssign | Matrix.h:94-96 | `-=` leaves `this` equal to `Difference(old this, src)` in a fresh buffer of its own; on a mismatch it throws the same error and `this` (fields and buffer object) is unchanged |
| MatrixClass.Matrix.ScaleAssign | Matrix.h:98-100 | `*= c` leaves `this` equal to `Scale(old this, c)` in a fresh buffer of its own |
| MatrixClass.Matrix.MultiplyAssign | Matrix.h:102-104 | `*= src` leaves `this` equal to `Product(old this, src)` in a fresh buffer of its own; on a mismatch it throws the same error and `this` (fields and buffer object) is unchanged |
| MatrixScenarios.SumExample | Matrix.h:133-145 | `[[1,2],[3,4]] + [[5,6],[7,8]] == [[6,8],[10,12]]` |
| MatrixScenarios.DifferenceExample | Matrix.h:147-159 | `[[5,6],[7,8]] - [[1,2],[3,4]] == [[4,4],[4,4]]` |
| MatrixScenarios.MismatchExample | Matrix.h:135-136 | a 2 x 2 plus a 2 x 3 throws the addition `logic_error`, and a 2 x 3 times a 2 x 2 throws the multiplication `logic_error` |
| MatrixScenarios.ProductExample | Matrix.h:177-193 | `[[1,2],[3,4]] * [[5,6],[7,8]] == [[19,22],[43,50]]` |
| MatrixScenarios.PowerExample | Matrix.h:110-118 | `[[1,2],[3,4]].pow(2) == [[1,4],[9,16]]` |
| MatrixScenarios.CheckedGetExample | Matrix.h:48-55 | on a 2 x 2 matrix, `cat(2, 0)` and `cat(0, 5)` succeed and `cat(4, 0)` throws |
| MatrixScenarios.WideTransposeAsWritten | Matrix.h:80-88 | for `[[0,1,2],[3,4,5]]`, `operator~` as written leaves the buffer `[0,3,1,4,0,0, 0,0,0,0,0,0]` |
| MatrixScenarios.TransposeAsWrittenLosesCells | Matrix.h:84 | for `[[0,1,2],[3,4,5]]`, cells `(2, 0)` and `(2, 1)` of `~a` are 0 where the transpose holds 2 and 5 |

## Left out

- Unary `operator-` (Matrix.h:72-78): it range-iterates a `Matrix`, which has no `begin()`/`end()`, so it does not compile when instantiated. Even if it did, it would negate only a loop-local copy.
- `operator[]` (Matrix.h:106-108): an empty stub with no return.
- `print` and `operator<<` (Matrix.h:195 onwards): stream output whose text depends on the element type's formatting.
- demo.cpp is not part of this model. It is a console driver with no logic of its own.
- Floating point: elements are unbounded integers, so `+`, `-`, `*` and the dot product are exact. The rounding and NaN behaviour of `T = double` is not modelled.
- Fixed-width element overflow: the model does not capture the wrap-around or undefined behaviour of a C++ `Matrix<int>` (or any other fixed-width `T`) on `+`, `-`, `*` or in the dot-product sum. It also does not capture the conversion through `double` of the result of `std::pow`.
- MatrixSpec.IntPow, MatrixSpec.Power, MatrixClass.Matrix.Pow: the source's `const int y` becomes `e: nat`, and `pow` is exact integer power. `std::pow` with a negative exponent gives fractions, and it computes in floating point; neither is modelled.
- `size_t` overflow: dimensions and offsets are unbounded naturals. A `dimX * dimY * 2` or `x * dimY + y` that wraps around in C++ is not modelled.
- `at` with an offset below the buffer start cannot happen with unsigned indices, so only the upper bound is checked.
- MatrixClass.Matrix.Transpose: requires `TransposeInBounds`. For non-square shapes where the loops would write or read past a buffer, the C++ behaviour is undefined and is not modelled.
- MatrixClass.Matrix.Assign: returns nothing. `operator=` in the source falls off its end without `return *this`, which is undefined behaviour. The compound operators are modelled by their effect on `this`, not by the reference they return.
- MatrixClass.ScaleRight: reads `a(i, j)` as a value. The source calls the non-const `fastAt` on a const reference, which does not compile when instantiated.
- The deleted default constructor and the defaulted destructor: nothing to specify.
- Direct writes to `dimX`/`dimY`: they are public in the source (Matrix.h:120-121) and could be changed without resizing the buffer. The model assumes clients never do this, so `Valid()` (a buffer of `2 * dimX * dimY` slots) holds for every matrix the operations receive; `Copy`, `Assign` and `Plus` require it.
- Aliasing of the C++ references that `at`/`fastAt` return: a write through the reference is modelled as the write itself (`SetAt`, `SetFast`).

## Findings

| source | as written | input that shows it | evidently intended | confidence | as-written member | corrected member |
|---|---|---|---|---|---|---|
| Matrix.h:82-84 | `ret.fastAt(i, j) = this->fastCat(j, i)` for `i < dimX`, `j < dimY`, into a `dimY x dimX` result: the write uses `ret`'s coordinates with `this`'s loop bounds | `[[0,1,2],[3,4,5]]` (2 x 3): the loops read offsets 6 and 7 in the zero half of the buffer, so `~a` has 0 at `(2, 0)` and `(2, 1)` where the transpose has 2 and 5 | `ret(j, i) = this(i, j)`, giving `result(i, j) = source(j, i)` for every shape | not executed | MatrixScenarios.TransposeAsWrittenLosesCells | MatrixClass.Matrix.TransposeCorrected |
