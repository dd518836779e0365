/**
 * Row-major offsets `x * cols + y` without nonlinear arithmetic.
 *
 * `Mul` is multiplication of naturals written as repeated addition. The model
 * states every offset and buffer length with it, so the solver reasons about
 * them by unfolding one step at a time and by the induction lemmas below;
 * `MulIsProduct` says it is the ordinary product.
 */
module Arith {

  /** `a * b`, computed as `a` additions of `b`. */
  function Mul(a: nat, b: nat): nat
  {
    if a == 0 then 0 else Mul(a - 1, b) + b
  }

  lemma {:induction false} MulIsProduct(a: nat, b: nat)
    ensures Mul(a, b) == a * b
  {
    if a > 0 {
      MulIsProduct(a - 1, b);
    }
  }

  lemma MulCommutes(a: nat, b: nat)
    ensures Mul(a, b) == Mul(b, a)
  {
    MulIsProduct(a, b);
    MulIsProduct(b, a);
  }

  lemma {:induction false} MulMono(a: nat, b: nat, c: nat)
    requires a <= b
    ensures Mul(a, c) <= Mul(b, c)
    decreases b
  {
    if a < b {
      MulMono(a, b - 1, c);
    }
  }

  lemma {:induction false} MulAdd(a: nat, c: nat, b: nat)
    ensures Mul(a + c, b) == Mul(a, b) + Mul(c, b)
    decreases c
  {
    if c > 0 {
      MulAdd(a, c - 1, b);
    }
  }

  /** A cell inside the `rows x cols` shape has an offset inside the first `rows * cols` slots. */
  lemma OffsetInLogical(i: nat, j: nat, rows: nat, cols: nat)
    requires i < rows && j < cols
    ensures Mul(i, cols) + j < Mul(rows, cols)
  {
    MulMono(i + 1, rows, cols);
  }
}
