/** Facts about products, quotients and sums that several parts use. */
module Arithmetic {
  function Min(a: nat, b: nat): nat {
    if a < b then a else b
  }

  lemma Successor(k: int, step: int)
    ensures (k + 1) * step == k * step + step
  {
  }

  lemma TimesMonotone(x: int, y: int, c: nat)
    ensures x <= y ==> x * c <= y * c
  {
  }

  /** `a % m`, by repeated subtraction. */
  function Remainder(a: nat, m: nat): (r: nat)
    requires m > 0
    ensures r < m
  {
    if a < m then a else Remainder(a - m, m)
  }

  lemma {:induction false} RemainderIsModulo(a: nat, m: nat)
    requires m > 0
    ensures Remainder(a, m) == a % m
    decreases a
  {
    if a >= m {
      RemainderIsModulo(a - m, m);
      var q, r := (a - m) / m, (a - m) % m;
      assert a - m == q * m + r;
      Successor(q, m);
      ModuloIs(a, q + 1, m, r);
    } else {
      ModuloIs(a, 0, m, a);
    }
  }

  lemma ModuloIs(a: nat, q: nat, m: nat, r: nat)
    requires m > 0 && r < m && a == q * m + r
    ensures a % m == r
  {
    var d := a / m;
    assert a == d * m + a % m;
    TimesMonotone(d + 1, q, m);
    TimesMonotone(q + 1, d, m);
    Successor(d, m);
    Successor(q, m);
  }

  /** Counting up, the remainder goes round. */
  lemma {:induction false} RemainderStep(a: nat, m: nat)
    requires m > 0
    ensures Remainder(a + 1, m) == if Remainder(a, m) + 1 == m then 0 else Remainder(a, m) + 1
    decreases a
  {
    if a >= m {
      RemainderStep(a - m, m);
    }
  }

  lemma AddQuotients(a: real, b: real, c: real)
    requires c > 0.0
    ensures a / c + b / c == (a + b) / c
  {
  }

  lemma AddFractions(a: nat, b: nat, c: nat)
    requires c > 0
    ensures a as real / c as real + b as real / c as real == (a + b) as real / c as real
  {
  }

  lemma SelfQuotient(c: real)
    requires c > 0.0
    ensures c / c == 1.0
  {
  }

  function Sum(xs: seq<real>): real {
    if xs == [] then 0.0 else Sum(xs[..|xs| - 1]) + xs[|xs| - 1]
  }
}
