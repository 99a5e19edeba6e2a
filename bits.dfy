/** Swift's bitwise operators on unsigned integers, over non-negative integers.

    `And` and `Or` work one bit at a time from the lowest. `ShiftLeft` and `ShiftRight` move the
    bits one place per step; `Truncate` drops the bits above a type's width, as Swift's `<<` on
    `UInt8` and `UInt16` does. The lemmas give the arithmetic meaning of these operators and of
    the masks and the disjoint "or" that the register code uses. */
module Bits {

  function Pow2(n: nat): (p: nat)
    ensures p >= 1
  {
    if n == 0 then 1 else 2 * Pow2(n - 1)
  }

  /** `x & y`. */
  function And(x: nat, y: nat): nat
  {
    if x == 0 || y == 0 then 0
    else 2 * And(x / 2, y / 2) + (if x % 2 == 1 && y % 2 == 1 then 1 else 0)
  }

  /** `x | y`. */
  function Or(x: nat, y: nat): nat
  {
    if x == 0 then y
    else if y == 0 then x
    else 2 * Or(x / 2, y / 2) + (if x % 2 == 1 || y % 2 == 1 then 1 else 0)
  }

  /** `x << n`, before the result is cut to the width of its type. */
  function ShiftLeft(x: nat, n: nat): nat
  {
    if n == 0 then x else 2 * ShiftLeft(x, n - 1)
  }

  /** `x >> n` on an unsigned integer. */
  function ShiftRight(x: nat, n: nat): nat
  {
    if n == 0 then x else ShiftRight(x / 2, n - 1)
  }

  /** The `width` lowest bits of `x`: the value an unsigned integer of that width keeps. */
  function Truncate(x: nat, width: nat): nat
  {
    x % Pow2(width)
  }

  /** Shifting right by `n` divides by 2^n. */
  lemma {:induction false} ShiftRightValue(x: nat, n: nat)
    ensures ShiftRight(x, n) == x / Pow2(n)
  {
    if n > 0 {
      ShiftRightValue(x / 2, n - 1);
      HalfQuotient(x, Pow2(n - 1));
    }
  }

  /** Shifting left by `n` multiplies by 2^n. */
  lemma {:induction false} ShiftLeftValue(x: nat, n: nat)
    ensures ShiftLeft(x, n) == x * Pow2(n)
  {
    if n > 0 {
      ShiftLeftValue(x, n - 1);
      Twice(x, Pow2(n - 1));
    }
  }

  /** Masking with the `k` lowest bits keeps the remainder by 2^k. */
  lemma {:induction false} AndLowBits(x: nat, k: nat)
    ensures And(x, Pow2(k) - 1) == x % Pow2(k)
  {
    if k == 0 {
      assert Pow2(k) == 1;
    } else if x == 0 {
      DivModUnique(0, Pow2(k), 0, 0);
    } else {
      var p := Pow2(k - 1);
      var m := Pow2(k) - 1;
      assert Pow2(k) == 2 * p && m == 2 * (p - 1) + 1;
      assert And(x, m) == 2 * And(x / 2, p - 1) + x % 2;
      AndLowBits(x / 2, k - 1);
      HalfRemainder(x, p);
    }
  }

  /** `AndLowBits` with the mask and 2^k given as the numbers `m` and `p`. */
  lemma AndMask(x: nat, k: nat, m: nat, p: nat)
    requires p == Pow2(k) && m == p - 1
    ensures And(x, m) == x % p
  {
    AndLowBits(x, k);
  }

  /** `x & (m << k) == ((x >> k) & m) << k`. */
  lemma {:induction false} AndShifted(x: nat, m: nat, k: nat)
    ensures And(x, ShiftLeft(m, k)) == ShiftLeft(And(ShiftRight(x, k), m), k)
  {
    if k > 0 {
      AndShifted(x / 2, m, k - 1);
      AndEvenMask(x, ShiftLeft(m, k - 1));
      ShiftRightHalf(x, k);
    }
  }

  /** `x | y == x + y` when `x` is shifted left by `k` and `y` is below 2^k. */
  lemma {:induction false} OrShifted(x: nat, y: nat, k: nat)
    requires y < Pow2(k)
    ensures Or(ShiftLeft(x, k), y) == ShiftLeft(x, k) + y
  {
    if k > 0 && y > 0 && ShiftLeft(x, k) > 0 {
      OrShifted(x, y / 2, k - 1);
      OrEvenStep(ShiftLeft(x, k - 1), y);
    }
  }

  /** One step of `And` against an even mask. */
  lemma AndEvenMask(x: nat, half: nat)
    ensures And(x, 2 * half) == 2 * And(x / 2, half)
  {
    if x != 0 && half != 0 {
      var m := 2 * half;
      assert m / 2 == half && m % 2 == 0;
      assert And(x, m) == 2 * And(x / 2, m / 2);
    }
  }

  /** One step of `Or` of an even value with a positive one. */
  lemma OrEvenStep(half: nat, y: nat)
    requires half > 0 && y > 0
    ensures Or(2 * half, y) == 2 * Or(half, y / 2) + y % 2
  {
  }

  /** Shifting right by `k` is halving, then shifting right by `k - 1`. */
  lemma ShiftRightHalf(x: nat, k: nat)
    requires k > 0
    ensures ShiftRight(x, k) == ShiftRight(x / 2, k - 1)
  {
  }

  lemma DivModUnique(n: int, d: int, q: int, r: int)
    requires d > 0 && n == q * d + r && 0 <= r < d
    ensures n / d == q && n % d == r
  {
    var q', r' := n / d, n % d;
    if q' > q {
      MulLower(q' - q, d);
    } else if q' < q {
      MulLower(q - q', d);
    }
    assert (q' - q) * d == r - r';
  }

  lemma MulLower(k: int, d: int)
    requires k >= 1 && d >= 0
    ensures k * d >= d
  {
  }

  lemma Twice(a: int, p: int)
    ensures 2 * (a * p) == a * (2 * p)
  {
  }

  lemma HalfRemainder(x: nat, p: nat)
    requires p >= 1
    ensures x % (2 * p) == 2 * ((x / 2) % p) + x % 2
  {
    var q, r := (x / 2) / p, (x / 2) % p;
    assert x == q * (2 * p) + (2 * r + x % 2);
    DivModUnique(x, 2 * p, q, 2 * r + x % 2);
  }

  lemma HalfQuotient(x: nat, p: nat)
    requires p >= 1
    ensures (x / 2) / p == x / (2 * p)
  {
    var q, r := (x / 2) / p, (x / 2) % p;
    assert x == q * (2 * p) + (2 * r + x % 2);
    DivModUnique(x, 2 * p, q, 2 * r + x % 2);
  }
}
