/** The bit operations of the C++ code on unsigned words of any width, and what arithmetic they are. */
module Bits {
  import opened Arithmetic

  function Pow2(n: nat): (p: nat)
    ensures p >= 1
  {
    if n == 0 then 1 else 2 * Pow2(n - 1)
  }

  lemma {:induction false} Pow2Sum(m: nat, n: nat)
    ensures Pow2(m + n) == Pow2(m) * Pow2(n)
    decreases n
  {
    if n > 0 {
      Pow2Sum(m, n - 1);
      assert Pow2(m) * (2 * Pow2(n - 1)) == 2 * (Pow2(m) * Pow2(n - 1));
    }
  }

  lemma Pow2Values()
    ensures Pow2(1) == 2 && Pow2(7) == 128 && Pow2(8) == 0x100
    ensures Pow2(31) == 0x8000_0000 && Pow2(32) == 0x1_0000_0000
    ensures Pow2(63) == 0x8000_0000_0000_0000 && Pow2(64) == 0x1_0000_0000_0000_0000
  {
    hide Pow2;
    Pow2Small();
    Pow2Sum(4, 4);
    Pow2Sum(8, 8);
    Pow2Sum(16, 16);
    Pow2Sum(32, 32);
    Pow2Sum(31, 1);
    Pow2Sum(63, 1);
    Pow2Sum(7, 1);
  }

  lemma Pow2Small()
    ensures Pow2(1) == 2 && Pow2(4) == 16
  {
    assert Pow2(2) == 2 * Pow2(1);
  }

  function And(a: nat, b: nat): nat
    decreases a
  {
    if a == 0 then 0 else (if a % 2 == 1 && b % 2 == 1 then 1 else 0) + 2 * And(a / 2, b / 2)
  }

  function Or(a: nat, b: nat): nat
    decreases a
  {
    if a == 0 then b else (if a % 2 == 1 || b % 2 == 1 then 1 else 0) + 2 * Or(a / 2, b / 2)
  }

  function Xor(a: nat, b: nat): nat
    decreases a
  {
    if a == 0 then b else (if a % 2 == b % 2 then 0 else 1) + 2 * Xor(a / 2, b / 2)
  }

  lemma Halve(p: nat, x: nat)
    requires x < 2 * p
    ensures x / 2 < p
    ensures (2 * p - 1) / 2 == p - 1 && (p > 0 ==> (2 * p - 1) % 2 == 1)
  {
  }

  /** Masking with n ones is the remainder by 2^n. */
  lemma {:induction false} AndOnes(a: nat, n: nat)
    ensures And(a, Pow2(n) - 1) == a % Pow2(n)
    decreases n
  {
    if n == 0 {
      AndZero(a);
    } else {
      AndOnes(a / 2, n - 1);
      AndStep(a, Pow2(n - 1));
    }
  }

  lemma AndUnfold(a: nat, b: nat)
    ensures And(a, b) == (if a % 2 == 1 && b % 2 == 1 then 1 else 0) + 2 * And(a / 2, b / 2)
  {
  }

  lemma AndStep(a: nat, p: nat)
    requires p >= 1 && And(a / 2, p - 1) == a / 2 % p
    ensures And(a, 2 * p - 1) == a % (2 * p)
  {
    hide And;
    Halve(p, 0);
    AndUnfold(a, 2 * p - 1);
    ModTwice(a, p);
  }

  lemma {:induction false} AndZero(a: nat)
    ensures And(a, 0) == 0
  {
    if a > 0 { AndZero(a / 2); }
  }

  lemma ModTwice(a: nat, p: nat)
    requires p >= 1
    ensures a % (2 * p) == a % 2 + 2 * (a / 2 % p)
  {
    var h := a / 2;
    var q, r := h / p, h % p;
    assert h == p * q + r;
    var low := a % 2 + 2 * r;
    assert a == 2 * h + a % 2;
    assert a == 2 * p * q + low;
    DivModUnique(a, 2 * p, q, low);
  }

  /** Or-ing bits on top of a value below them is adding. */
  lemma {:induction false} OrDisjoint(a: nat, x: nat, n: nat)
    requires a < Pow2(n)
    ensures Or(a, Pow2(n) * x) == a + Pow2(n) * x
    decreases n
  {
    if a > 0 {
      var p := Pow2(n - 1);
      Halve(p, a);
      OrDisjoint(a / 2, x, n - 1);
      Double(p, x);
    }
  }

  lemma Double(p: nat, x: nat)
    ensures 2 * p * x == 2 * (p * x) && 2 * p * x % 2 == 0 && 2 * p * x / 2 == p * x
  {
    assert 2 * p * x == 2 * (p * x);
  }

  /** Flipping every bit of a word. */
  lemma {:induction false} XorOnes(a: nat, n: nat)
    requires a < Pow2(n)
    ensures Xor(a, Pow2(n) - 1) == Pow2(n) - 1 - a
    decreases n
  {
    if a > 0 {
      var p := Pow2(n - 1);
      XorOnes(a / 2, n - 1);
      XorStep(a, p);
    }
  }

  lemma XorUnfold(a: nat, b: nat)
    requires a > 0
    ensures Xor(a, b) == (if a % 2 == b % 2 then 0 else 1) + 2 * Xor(a / 2, b / 2)
  {
  }

  lemma XorStep(a: nat, p: nat)
    requires 0 < a < 2 * p && Xor(a / 2, p - 1) == p - 1 - a / 2
    ensures Xor(a, 2 * p - 1) == 2 * p - 1 - a
  {
    hide Xor;
    var b := 2 * p - 1;
    Halve(p, a);
    XorUnfold(a, b);
    assert a == 2 * (a / 2) + a % 2;
  }

  lemma {:induction false} XorZero(a: nat)
    ensures Xor(a, 0) == a
  {
    if a > 0 { XorZero(a / 2); }
  }
}
