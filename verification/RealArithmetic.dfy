/** Products and quotients of reals. */
module RealArithmetic {

  /** Division, with 0 for a zero divisor. */
  function Div(x: real, y: real): real {
    if y == 0.0 then 0.0 else x / y
  }

  lemma MulNonneg(x: real, y: real)
    requires x >= 0.0 && y >= 0.0
    ensures x * y >= 0.0
  {
  }

  lemma MulPositive(x: real, y: real)
    requires x > 0.0 && y > 0.0
    ensures x * y > 0.0
  {
  }

  lemma DivMul(x: real, y: real)
    requires y != 0.0
    ensures Div(x, y) * y == x
  {
  }

  lemma Cancel(x: real, y: real, p: real)
    requires p != 0.0 && x * p == y * p
    ensures x == y
  {
  }

  function Times(x: real, y: real): real {
    x * y
  }

  lemma SameSign(x: real, y: real)
    requires (x > 0.0 && y > 0.0) || (x < 0.0 && y < 0.0)
    ensures Times(x, y) > 0.0
  {
    if x < 0.0 {
      MulPositive(-x, -y);
    }
  }

  /** std::pow(h, 2). */
  function Pow2(h: real): real {
    Times(h, h)
  }

  lemma Pow2Positive(h: real)
    requires h != 0.0
    ensures Pow2(h) > 0.0
  {
    SameSign(h, h);
  }
}
