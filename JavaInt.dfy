/**
 * Java's integer `/` and `%`. Both truncate toward zero, unlike Dafny's
 * Euclidean operators, and both throw `ArithmeticException` on a zero divisor
 * (callers check the divisor and model the exception themselves).
 */
module JavaInt {

  function Abs(x: int): (r: nat)
    ensures r == x || r == -x
  {
    if x < 0 then -x else x
  }

  /** `a / b` in Java: the quotient of the magnitudes, negative when the signs differ. */
  function Div(a: int, b: int): (q: int)
    requires b != 0
    ensures q == Abs(a) / Abs(b) || q == -(Abs(a) / Abs(b))
    ensures (a < 0) == (b < 0) ==> q >= 0
    ensures (a < 0) != (b < 0) ==> q <= 0
  {
    var m := Abs(a) / Abs(b);
    assert m >= 0 by { NonNegativeQuotient(Abs(a), Abs(b)); }
    if (a < 0) == (b < 0) then m else -m
  }

  lemma NonNegativeQuotient(x: nat, y: nat)
    requires y > 0
    ensures x / y >= 0 && x == (x / y) * y + x % y && 0 <= x % y < y
  {
  }

  /** `a % b` in Java: what truncating division leaves over; it takes the sign of `a`. */
  function Rem(a: int, b: int): (r: int)
    requires b != 0
    ensures a == Div(a, b) * b + r
    ensures Abs(r) < Abs(b)
    ensures r == 0 || (r > 0 <==> a > 0)
  {
    a - Div(a, b) * b
  }

  /** On a non-negative dividend and a positive divisor Java and Dafny agree. */
  lemma NonNegativeAgrees(a: int, b: int)
    requires a >= 0 && b > 0
    ensures Div(a, b) == a / b && Rem(a, b) == a % b
    ensures 0 <= Rem(a, b) < b
  {
    NonNegativeQuotient(a, b);
  }
}
