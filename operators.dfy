// The scalar operator library of minitorch: forward operators and the
// backward (chain-rule) forms of inv, log and relu. Python floats are
// modelled as ideal reals; division by zero, which raises in Python, is
// excluded by preconditions.
module Operators {

  /** mul: product of two numbers. It is zero exactly when a factor is, and dividing
      it by a non-zero y gives x back. */
  function Mul(x: real, y: real): (r: real)
    ensures r == 0.0 <==> x == 0.0 || y == 0.0
    ensures y != 0.0 ==> r / y == x
  {
    x * y
  }

  /** id: the identity, which hands back its argument unchanged. */
  function Id(x: real): (r: real)
    ensures r == x
  {
    x
  }

  /** add: sum of two numbers; subtracting either summand gives the other back. */
  function Add(x: real, y: real): (r: real)
    ensures r - y == x && r - x == y
  {
    x + y
  }

  /** neg: negation, the additive inverse. */
  function Neg(x: real): (r: real)
    ensures r + x == 0.0
  {
    -x
  }

  /** lt: strict less-than. x is below y exactly when the two differ and max picks y. */
  predicate Lt(x: real, y: real)
    ensures Lt(x, y) <==> x != y && Max(x, y) == y
  {
    x < y
  }

  /** eq: exact equality, no tolerance. Two numbers are equal exactly when lt holds
      in neither direction. */
  predicate Eq(x: real, y: real)
    ensures Eq(x, y) <==> !Lt(x, y) && !Lt(y, x)
  {
    x == y
  }

  /** max: the larger argument; when neither is larger, the second one. */
  function Max(x: real, y: real): (r: real)
    ensures r == x || r == y
    ensures r >= x && r >= y
    ensures x == y ==> r == y
  {
    if x > y then x else y
  }

  function Abs(x: real): real
  {
    if x < 0.0 then -x else x
  }

  /** The fixed absolute tolerance of IsClose. */
  const Tolerance: real := 0.01

  /** is_close: the two numbers lie strictly within 0.01 of each other. */
  predicate IsClose(x: real, y: real)
    ensures IsClose(x, y) <==> y - Tolerance < x < y + Tolerance
  {
    Abs(x - y) < Tolerance
  }

  /** relu: max(0, x). */
  function Relu(x: real): (r: real)
    ensures r >= 0.0 && r >= x
    ensures x >= 0.0 ==> r == x
    ensures x <= 0.0 ==> r == 0.0
  {
    Max(0.0, x)
  }

  /** log_back: the derivative of log at x times the upstream gradient d. */
  function LogBack(x: real, d: real): (r: real)
    requires x != 0.0
    ensures r * x == d
  {
    d / x
  }

  /** inv: the reciprocal 1/x. */
  function Inv(x: real): (r: real)
    requires x != 0.0
    ensures r * x == 1.0
  {
    1.0 / x
  }

  /** inv_back: the derivative of inv at x, -1/x^2, times the upstream gradient d. */
  function InvBack(x: real, d: real): (r: real)
    requires x != 0.0
    ensures r * (x * x) == -d
  {
    -d / (x * x)
  }

  /** relu_back: d where relu has slope 1 (x > 0), 0 elsewhere, including at x == 0. */
  function ReluBack(x: real, d: real): (r: real)
    ensures x > 0.0 ==> r == d
    ensures x <= 0.0 ==> r == 0.0
  {
    if x > 0.0 then d else 0.0
  }

  // ---------------------------------------------------------------------
  // Properties relating the operators to each other
  // ---------------------------------------------------------------------

  /** neg is an involution. */
  lemma NegInvolutive(x: real)
    ensures Neg(Neg(x)) == x && Add(x, Neg(x)) == 0.0
  {
  }

  /** max agrees with lt: max(x, y) is x exactly when x is not below y. */
  lemma MaxAgreesWithLt(x: real, y: real)
    ensures Max(x, y) == x <==> !Lt(x, y)
  {
  }

  /** is_close is symmetric and reflexive, and exact equality implies closeness. */
  lemma IsCloseSymmetric(x: real, y: real)
    ensures IsClose(x, y) <==> IsClose(y, x)
    ensures Eq(x, y) ==> IsClose(x, y)
  {
  }

  /** The boundary examples of is_close: 1.0 and 1.0099 are close, 1.0 and 1.02 are not. */
  lemma IsCloseExamples()
    ensures IsClose(1.0, 1.0099)
    ensures !IsClose(1.0, 1.02)
  {
  }

  /** inv is an involution on the non-zero reals. */
  lemma InvInvolutive(x: real)
    requires x != 0.0
    ensures Inv(x) != 0.0 && Inv(Inv(x)) == x
  {
  }

  /** inv_back(x, d) is d times the derivative -inv(x)^2 of inv. */
  lemma InvBackIsDerivative(x: real, d: real)
    requires x != 0.0
    ensures InvBack(x, d) == -d * (Inv(x) * Inv(x))
  {
  }

  /** log_back(x, d) is d times inv(x), the derivative of log at x. */
  lemma LogBackIsDerivative(x: real, d: real)
    requires x != 0.0
    ensures LogBack(x, d) == d * Inv(x)
  {
  }

  /** relu_back(x, d) is d times the slope of relu at x: relu(x) * d == relu_back(x, d) * x. */
  lemma ReluBackIsSlope(x: real, d: real)
    ensures Relu(x) * d == ReluBack(x, d) * x
  {
  }
}
