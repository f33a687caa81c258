/** The few facts about products and remainders that the solver does not find alone. */
module Arithmetic {

  lemma MulLe(a: nat, b: nat, k: nat)
    requires a <= b
    ensures a * k <= b * k
  {
  }

  lemma DivMod(a: nat, m: nat)
    requires m > 0
    ensures a / m * m + a % m == a && a % m < m
  {
  }

  lemma DivModUnique(a: nat, m: nat, q: nat, rem: nat)
    requires rem < m && a == q * m + rem
    ensures a / m == q && a % m == rem
  {
    var q', rem' := a / m, a % m;
    assert a == q' * m + rem';
    if q < q' {
      MulLe(q + 1, q', m);
    } else if q' < q {
      MulLe(q' + 1, q, m);
    }
  }

  lemma AddMultiple(a: nat, k: nat, m: nat)
    requires m > 0
    ensures (a + k * m) % m == a % m
  {
    assert a + k * m == (a / m + k) * m + a % m;
    DivModUnique(a + k * m, m, a / m + k, a % m);
  }

  lemma AddAfterMod(a: nat, b: nat, m: nat)
    requires m > 0
    ensures (a % m + b) % m == (a + b) % m
  {
    assert a + b == (a % m + b) + a / m * m;
    AddMultiple(a % m + b, a / m, m);
  }

  /** Two multiples are at least one step apart. */
  lemma NextMultiple(a: nat, b: nat, m: nat)
    requires m > 0 && a % m == 0 && b % m == 0 && a < b
    ensures a + m <= b
  {
    DivMod(a, m);
    DivMod(b, m);
    if b / m <= a / m {
      MulLe(b / m, a / m, m);
    } else {
      MulLe(a / m + 1, b / m, m);
    }
  }
}
