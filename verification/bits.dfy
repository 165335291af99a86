/**
 Bitwise operators on non-negative integers, defined bit by bit, and their
 agreement with Euclidean division and remainder by powers of two.

 The tile-layout formula of the EDRAM store is written with `&` and `>>`;
 this module lets the rest of the model reason about it with `%` and `/`.
 */
module Bits {

  /** 2 to the power n. */
  function Pow2(n: nat): (r: nat)
    ensures r >= 1
  {
    if n == 0 then 1 else 2 * Pow2(n - 1)
  }

  /** Bitwise AND of two non-negative integers (C++ `a & b` on unsigned values). */
  function And(a: nat, b: nat): (r: nat)
    ensures r <= a && r <= b
    decreases a
  {
    if a == 0 || b == 0 then 0
    else 2 * And(a / 2, b / 2) + (if a % 2 == 1 && b % 2 == 1 then 1 else 0)
  }

  /** Logical right shift (C++ `a >> n` on unsigned values). */
  function ShiftRight(a: nat, n: nat): (r: nat)
    ensures r <= a
  {
    if n == 0 then a else ShiftRight(a / 2, n - 1)
  }

  /** Division and remainder are unique: any decomposition a == d * q + r with
      0 <= r < d is the Euclidean one. */
  lemma DivModUnique(a: int, d: int, q: int, r: int)
    requires d > 0 && 0 <= r < d && a == d * q + r
    ensures a / d == q && a % d == r
  {
    var q', r' := a / d, a % d;
    assert d * (q' - q) == r - r' by {
      assert d * q' + r' == d * q + r;
    }
    if q' - q >= 1 {
      MulAtLeast(d, q' - q);
    } else if q - q' >= 1 {
      MulAtLeast(d, q - q');
    }
  }

  /** A positive multiple of d is at least d. */
  lemma MulAtLeast(d: int, k: int)
    requires d > 0 && k >= 1
    ensures d * k >= d
  {
  }

  /** Halving first, then dividing by p, is dividing by 2 * p; the remainder
      modulo 2 * p is rebuilt from the remainder of the halved value. */
  lemma HalveThenDivide(a: nat, p: nat)
    requires p >= 1
    ensures (a / 2) / p == a / (2 * p)
    ensures a % (2 * p) == 2 * ((a / 2) % p) + a % 2
  {
    var h, b := a / 2, a % 2;
    var q, r := h / p, h % p;
    assert a == 2 * h + b;
    assert h == p * q + r;
    assert a == (2 * p) * q + (2 * r + b) by {
      calc {
        a;
        2 * (p * q + r) + b;
        (2 * p) * q + (2 * r + b);
      }
    }
    DivModUnique(a, 2 * p, q, 2 * r + b);
  }

  /** Masking with 2^k - 1 keeps the k low bits: `a & (2^k - 1) == a % 2^k`. */
  lemma {:induction false} AndLowMask(a: nat, k: nat)
    ensures And(a, Pow2(k) - 1) == a % Pow2(k)
  {
    if k == 0 {
      assert Pow2(0) - 1 == 0;
    } else {
      var m := Pow2(k) - 1;
      var p := Pow2(k - 1);
      assert m == 2 * p - 1;
      assert m / 2 == p - 1 && m % 2 == 1;
      if a == 0 {
      } else {
        calc {
          And(a, m);
          2 * And(a / 2, m / 2) + (if a % 2 == 1 then 1 else 0);
          2 * And(a / 2, p - 1) + a % 2;
          { AndLowMask(a / 2, k - 1); }
          2 * ((a / 2) % p) + a % 2;
          { HalveThenDivide(a, p); }
          a % (2 * p);
        }
      }
    }
  }

  /** Shifting right by n bits is dividing by 2^n: `a >> n == a / 2^n`. */
  lemma {:induction false} ShiftRightIsDiv(a: nat, n: nat)
    ensures ShiftRight(a, n) == a / Pow2(n)
  {
    if n > 0 {
      var p := Pow2(n - 1);
      calc {
        ShiftRight(a, n);
        ShiftRight(a / 2, n - 1);
        { ShiftRightIsDiv(a / 2, n - 1); }
        (a / 2) / p;
        { HalveThenDivide(a, p); }
        a / (2 * p);
      }
    }
  }

  /** The two masks of the tile-layout formula: `& 15` and `>> 4`. */
  lemma LowNibble(a: nat)
    ensures And(a, 15) == a % 16
    ensures ShiftRight(a, 4) == a / 16
  {
    assert Pow2(4) == 16 by {
      assert Pow2(1) == 2;
      assert Pow2(2) == 4;
      assert Pow2(3) == 8;
    }
    AndLowMask(a, 4);
    ShiftRightIsDiv(a, 4);
  }
}
