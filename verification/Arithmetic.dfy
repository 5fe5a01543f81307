/** Facts about quotients and remainders. */
module Arithmetic {

  lemma AtLeast(m: nat, d: int)
    requires d > 0
    ensures m * d >= m
  {
  }

  lemma OnlyZero(m: nat, d: int, e: int)
    requires m * d == e && e < m && -e < m
    ensures d == 0 && e == 0
  {
    if d > 0 {
      AtLeast(m, d);
    } else if d < 0 {
      AtLeast(m, -d);
    }
  }

  lemma Distribute(m: nat, q: int, q': int)
    ensures m * (q - q') == m * q - m * q' && m * (q + q') == m * q + m * q'
  {
  }

  /** Quotient and remainder are determined by what they are for. */
  lemma DivModUnique(a: nat, m: nat, q: nat, r: nat)
    requires r < m && a == m * q + r
    ensures a / m == q && a % m == r
  {
    var d: int, e: int := q - a / m, a % m - r;
    assert m * d == e by {
      Distribute(m, q, a / m);
    }
    OnlyZero(m, d, e);
  }

  lemma Associate(a: nat, b: nat, c: nat)
    ensures a * (b * c) == (a * b) * c
  {
  }

  lemma Below(a: nat, b: nat, r: nat, s: nat)
    requires r < b && s < a
    ensures a * r + s < a * b
  {
    Distribute(a, b, r);
    AtLeast(a, b - r);
  }

  lemma Nested(v: nat, a: nat, b: nat, q: nat, r: nat, q': nat, r': nat)
    requires v == a * q + r && q == b * q' + r' && r < a && r' < b
    ensures v == (a * b) * q' + (a * r' + r) && a * r' + r < a * b
  {
    Below(a, b, r', r);
    Distribute(a, b * q', r');
    Associate(a, b, q');
  }

  lemma Quotient(v: nat, a: nat) returns (q: nat, r: nat)
    requires a > 0
    ensures q == v / a && v == a * q + r && r < a
  {
    q, r := v / a, v % a;
  }

  lemma NestedQuotient(v: nat, a: nat, b: nat, m: nat, q: nat, r: nat, q': nat, r': nat)
    requires m == a * b && v == a * q + r && q == b * q' + r' && r < a && r' < b
    ensures m > 0 && v / m == q'
  {
    Nested(v, a, b, q, r, q', r');
    DivModUnique(v, m, q', a * r' + r);
  }

  lemma DivideTwice(v: nat, a: nat, b: nat)
    requires a > 0 && b > 0
    ensures a * b > 0 && v / a / b == v / (a * b)
  {
    var q, r := Quotient(v, a);
    var q', r' := Quotient(q, b);
    NestedQuotient(v, a, b, a * b, q, r, q', r');
  }
}
