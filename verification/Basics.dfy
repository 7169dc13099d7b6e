/** Vocabulary shared by the modules: optional values and products of reals. */
module Basics {

  datatype Option<T> = None | Some(value: T)

  function Mul(x: real, y: real): real { x * y }

  lemma MulPositive(x: real, y: real)
    requires x > 0.0 && y > 0.0
    ensures Mul(x, y) > 0.0
  {
  }

  lemma MulNegatives(x: real, y: real)
    requires x < 0.0 && y < 0.0
    ensures Mul(x, y) > 0.0
  {
  }

  lemma MulOrder(x: real, y: real, d: real)
    requires x <= y && d > 0.0
    ensures Mul(x, d) <= Mul(y, d)
  {
  }

  lemma MulStrict(x: real, y: real, d: real)
    requires x < y && d > 0.0
    ensures Mul(x, d) < Mul(y, d)
  {
  }

  lemma Quotient(p: real, q: real) returns (r: real)
    requires q > 0.0
    ensures r == p / q && r * q == p
  {
    r := p / q;
  }
}
