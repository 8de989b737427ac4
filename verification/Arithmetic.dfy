/** The few facts about products and quotients that the solver needs stated. */
module Arithmetic {

  lemma DivMod(a: nat, b: nat)
    requires b > 0
    ensures a == a / b * b + a % b && 0 <= a % b < b
  {
  }

  lemma Distribute(a: nat, b: nat, n: nat)
    ensures (a + b) * n == a * n + b * n
  {
  }

  lemma StrictlyMore(a: int, b: int, n: nat)
    requires a > b
    ensures a * n >= b * n + n
  {
    assert a * n == (a - b - 1) * n + b * n + n;
  }
}
