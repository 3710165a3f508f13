/**
 Multiplication and division of reals by name, with the laws the proofs use one at a time. Proofs hide the two
 definitions and stay linear.
 */
module Algebra {

  function Mul(a: real, b: real): real {
    a * b
  }

  function Div(a: real, b: real): real
    requires b != 0.0
  {
    a / b
  }

  lemma MulCommutes(a: real, b: real)
    ensures Mul(a, b) == Mul(b, a)
  {
  }

  lemma MulAssociates(a: real, b: real, c: real)
    ensures Mul(Mul(a, b), c) == Mul(a, Mul(b, c))
  {
  }

  lemma MulDistributes(a: real, b: real, c: real)
    ensures Mul(a + b, c) == Mul(a, c) + Mul(b, c)
    ensures Mul(a - b, c) == Mul(a, c) - Mul(b, c)
    ensures Mul(-a, c) == -Mul(a, c)
  {
  }

  lemma MulSigns(a: real, b: real)
    ensures a >= 0.0 && b >= 0.0 ==> Mul(a, b) >= 0.0
    ensures a > 0.0 && b > 0.0 ==> Mul(a, b) > 0.0
    ensures Mul(0.0, b) == 0.0 && Mul(a, 0.0) == 0.0 && Mul(1.0, b) == b && Mul(a, 1.0) == a
  {
  }

  lemma MulOrder(a: real, b: real, k: real)
    requires a <= b && 0.0 <= k
    ensures Mul(a, k) <= Mul(b, k) && Mul(k, a) <= Mul(k, b)
  {
  }

  lemma DivMul(a: real, b: real)
    requires b != 0.0
    ensures Mul(Div(a, b), b) == a
  {
  }

  lemma DivUnique(a: real, b: real, q: real)
    requires b != 0.0 && Mul(q, b) == a
    ensures Div(a, b) == q
  {
  }

  lemma DivSigns(a: real, b: real)
    requires b > 0.0
    ensures a >= 0.0 ==> Div(a, b) >= 0.0
    ensures a > 0.0 ==> Div(a, b) > 0.0
  {
  }

  lemma DivOrder(a: real, b: real, k: real)
    requires a <= b && 0.0 < k
    ensures Div(a, k) <= Div(b, k)
  {
  }

  lemma QuotientAtMostIff(a: real, b: real, q: real)
    requires b > 0.0
    ensures Div(a, b) <= q <==> a <= Mul(q, b)
  {
    hide Mul, Div;
    DivMul(a, b);
    if Div(a, b) <= q {
      MulOrder(Div(a, b), q, b);
    } else {
      MulDistributes(Div(a, b), q, b);
      MulSigns(Div(a, b) - q, b);
    }
  }

  /** (a + b) squared, expanded. */
  lemma SquareOfSum(a: real, b: real)
    ensures Mul(a + b, a + b) == Mul(a, a) + 2.0 * Mul(a, b) + Mul(b, b)
    ensures Mul(a - b, a - b) == Mul(a, a) - 2.0 * Mul(a, b) + Mul(b, b)
  {
  }

  lemma Square(x: real)
    ensures Mul(x, x) >= 0.0
    ensures Mul(x, x) == 0.0 ==> x == 0.0
  {
    hide Mul;
    MulSigns(x, x);
    MulSigns(-x, -x);
    MulDistributes(x, 0.0, -x);
    MulCommutes(x, -x);
    MulDistributes(x, 0.0, x);
  }

  lemma StrictSquare(a: real, b: real)
    requires 0.0 <= b < a
    ensures Mul(b, b) < Mul(a, a)
  {
    hide Mul;
    MulDistributes(a, b, a);
    MulDistributes(a, b, b);
    MulSigns(a - b, a);
    MulSigns(a - b, b);
    MulCommutes(a, b);
  }

  lemma SquareRootOrder(a: real, b: real)
    requires b >= 0.0 && Mul(a, a) <= Mul(b, b)
    ensures -b <= a <= b
  {
    hide Mul;
    if a > b {
      StrictSquare(a, b);
    }
    if -a > b {
      MulDistributes(a, 0.0, -a);
      MulDistributes(a, 0.0, a);
      MulCommutes(a, -a);
      StrictSquare(-a, b);
    }
  }
}
