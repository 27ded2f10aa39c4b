/** Bitwise operators on non-negative integers, as Ruby's `&` and `|` compute
    them, with the facts that let masks, shifts and disjoint ORs be read as
    ordinary arithmetic. */
module Bits {

  /** 2 to the power k. */
  function Pow2(k: nat): (r: nat)
    ensures r >= 1
  {
    if k == 0 then 1 else 2 * Pow2(k - 1)
  }

  /** Bitwise AND, bit by bit from the least significant end. */
  function And(a: nat, b: nat): nat
    decreases a
  {
    if a == 0 || b == 0 then 0
    else 2 * And(a / 2, b / 2) + (if a % 2 == 1 && b % 2 == 1 then 1 else 0)
  }

  /** Bitwise OR, bit by bit from the least significant end. */
  function Or(a: nat, b: nat): nat
    decreases a + b
  {
    if a == 0 then b
    else if b == 0 then a
    else 2 * Or(a / 2, b / 2) + (if a % 2 == 1 || b % 2 == 1 then 1 else 0)
  }

  /** A positive multiple of d is at least d; a negative one at most -d. */
  lemma {:induction false} MulAwayFromZero(d: int, t: int)
    requires d > 0
    ensures t >= 1 ==> d * t >= d
    ensures t <= -1 ==> d * t <= -d
  {
    assert d * t == d * (t - 1) + d;
    assert d * t == d * (t + 1) - d;
  }

  /** Euclidean division is unique: the quotient and remainder are fixed by
      a == d * q + r with 0 <= r < d. */
  lemma {:induction false} DivModUnique(a: int, d: int, q: int, r: int)
    requires d > 0 && a == d * q + r && 0 <= r < d
    ensures a / d == q && a % d == r
  {
    var t := a / d - q;
    assert d * t == r - a % d;
    MulAwayFromZero(d, t);
  }

  /** Dividing by 2 and then by p is dividing by 2 * p; the remainder of a
      modulo 2 * p is built from the remainder of a / 2 modulo p. */
  lemma {:induction false} HalveDivMod(a: nat, p: nat)
    requires p > 0
    ensures (a / 2) / p == a / (2 * p)
    ensures a % (2 * p) == 2 * ((a / 2) % p) + a % 2
  {
    var q, s := (a / 2) / p, (a / 2) % p;
    assert a / 2 == p * q + s;
    assert a == (2 * p) * q + (2 * s + a % 2);
    DivModUnique(a, 2 * p, q, 2 * s + a % 2);
  }

  /** ANDing with 2^k - 1 keeps the k low bits: a % 2^k. */
  lemma {:induction false} AndLowMask(a: nat, k: nat)
    ensures And(a, Pow2(k) - 1) == a % Pow2(k)
  {
    if k == 0 {
    } else if a == 0 {
    } else {
      var p := Pow2(k - 1);
      assert (Pow2(k) - 1) / 2 == p - 1 && (Pow2(k) - 1) % 2 == 1;
      AndLowMask(a / 2, k - 1);
      HalveDivMod(a, p);
    }
  }

  /** ANDing with an even number: (a & 2m) == 2 * ((a >> 1) & m). */
  lemma {:induction false} AndEven(a: nat, m: nat)
    ensures And(a, 2 * m) == 2 * And(a / 2, m)
  {
    if a != 0 && m != 0 {
      assert (2 * m) / 2 == m && (2 * m) % 2 == 0;
    }
  }

  /** Doubling one factor doubles the product. */
  lemma {:induction false} Double(x: int, p: int)
    ensures x * (2 * p) == 2 * (x * p)
  {
  }

  /** ANDing with j one-bits shifted left by k keeps bits k .. k+j-1 of a, in place. */
  lemma {:induction false} AndShiftedMask(a: nat, j: nat, k: nat)
    ensures (Pow2(j) - 1) * Pow2(k) >= 0
    ensures And(a, (Pow2(j) - 1) * Pow2(k)) == (a / Pow2(k)) % Pow2(j) * Pow2(k)
  {
    if k == 0 {
      AndLowMask(a, j);
    } else {
      var p := Pow2(k - 1);
      var m := (Pow2(j) - 1) * p;
      assert Pow2(k) == 2 * p;
      calc {
        And(a, (Pow2(j) - 1) * Pow2(k));
        == { Double(Pow2(j) - 1, p); }
        And(a, 2 * m);
        == { AndEven(a, m); }
        2 * And(a / 2, m);
        == { AndShiftedMask(a / 2, j, k - 1); }
        2 * ((a / 2 / p) % Pow2(j) * p);
        == { HalveDivMod(a, p); }
        2 * ((a / Pow2(k)) % Pow2(j) * p);
        == { Double((a / Pow2(k)) % Pow2(j), p); }
        (a / Pow2(k)) % Pow2(j) * Pow2(k);
      }
    }
  }

  /** ORing two doubled numbers doubles their OR. */
  lemma {:induction false} OrDouble(a: nat, b: nat)
    ensures Or(2 * a, 2 * b) == 2 * Or(a, b)
  {
  }

  /** OR of a value shifted left by k with a value below 2^k is their sum:
      the bits do not overlap. */
  lemma {:induction false} OrDisjoint(a: nat, b: nat, k: nat)
    requires b < Pow2(k)
    ensures Or(a * Pow2(k), b) == a * Pow2(k) + b
  {
    if k == 0 {
    } else if a == 0 || b == 0 {
    } else {
      var p := Pow2(k - 1);
      assert a * Pow2(k) == 2 * (a * p);
      OrDisjoint(a, b / 2, k - 1);
      assert Or(a * Pow2(k), b) == 2 * Or(a * p, b / 2) + b % 2;
    }
  }

  /** OR commutes with a left shift by k: (a << k) | (b << k) == (a | b) << k. */
  lemma {:induction false} OrShift(a: nat, b: nat, k: nat)
    ensures Or(a * Pow2(k), b * Pow2(k)) == Or(a, b) * Pow2(k)
  {
    if k > 0 {
      var p := Pow2(k - 1);
      assert Pow2(k) == 2 * p;
      calc {
        Or(a * Pow2(k), b * Pow2(k));
        == { Double(a, p); Double(b, p); }
        Or(2 * (a * p), 2 * (b * p));
        == { OrDouble(a * p, b * p); }
        2 * Or(a * p, b * p);
        == { OrShift(a, b, k - 1); }
        2 * (Or(a, b) * p);
        == { Double(Or(a, b), p); }
        Or(a, b) * Pow2(k);
      }
    }
  }

  /** The OR of two k-bit numbers is a k-bit number. */
  lemma {:induction false} OrBound(a: nat, b: nat, k: nat)
    requires a < Pow2(k) && b < Pow2(k)
    ensures Or(a, b) < Pow2(k)
  {
    if k > 0 && a != 0 && b != 0 {
      OrBound(a / 2, b / 2, k - 1);
    }
  }

  /** The product a * b, as repeated addition. The instruction semantics use
      this form so that the solver meets no nonlinear terms when it unfolds
      them; TimesIsProduct ties it to `*`. */
  function Times(a: nat, b: nat): nat
    decreases b
  {
    if b == 0 then 0 else Times(a, b - 1) + a
  }

  lemma {:induction false} TimesIsProduct(a: nat, b: nat)
    ensures Times(a, b) == a * b
    decreases b
  {
    if b > 0 {
      TimesIsProduct(a, b - 1);
      assert a * b == a * (b - 1) + a;
    }
  }

  /** The truncated quotient a / b, as repeated subtraction; QuotientIsDiv
      ties it to `/`. */
  function Quotient(a: nat, b: nat): nat
    requires b > 0
    decreases a
  {
    if a < b then 0 else Quotient(a - b, b) + 1
  }

  /** What is left after taking Quotient(a, b) copies of b from a. */
  lemma {:induction false} QuotientRemainder(a: nat, b: nat)
    requires b > 0
    ensures 0 <= a - b * Quotient(a, b) < b
    decreases a
  {
    if a >= b {
      QuotientRemainder(a - b, b);
      assert b * Quotient(a, b) == b * Quotient(a - b, b) + b;
    }
  }

  lemma {:induction false} QuotientIsDiv(a: nat, b: nat)
    requires b > 0
    ensures Quotient(a, b) == a / b
  {
    QuotientRemainder(a, b);
    DivModUnique(a, b, Quotient(a, b), a - b * Quotient(a, b));
  }

  /** A quotient by a positive divisor is at most the dividend. */
  lemma {:induction false} QuotientAtMost(a: nat, b: nat)
    requires b > 0
    ensures Quotient(a, b) <= a
    decreases a
  {
    if a >= b {
      QuotientAtMost(a - b, b);
    }
  }

  lemma {:induction false} Pow2Values()
    ensures Pow2(2) == 4 && Pow2(4) == 16 && Pow2(8) == 256 && Pow2(16) == 0x1_0000
    ensures Pow2(24) == 0x100_0000
  {
    assert Pow2(4) == 16;
    assert Pow2(8) == 256 by { assert Pow2(8) == Pow2(4) * 16; }
    assert Pow2(16) == 0x1_0000 by { assert Pow2(16) == Pow2(8) * 256; }
    assert Pow2(24) == 0x100_0000 by { assert Pow2(24) == Pow2(16) * 256; }
  }
}
