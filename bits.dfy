/**
 * The C bit operators that the drivers apply to bytes promoted to `int`:
 * `|`, `&`, `<<` and `>>` on non-negative operands, defined bit by bit on
 * naturals, with the facts the conversions rely on.
 */
module Bits {

  function Pow2(k: nat): (p: nat)
    ensures p >= 1
  {
    if k == 0 then 1 else 2 * Pow2(k - 1)
  }

  /** The powers the drivers' shifts and masks use. */
  lemma Pow2Values()
    ensures Pow2(0) == 1 && Pow2(3) == 8 && Pow2(4) == 16 && Pow2(5) == 32
    ensures Pow2(6) == 64 && Pow2(7) == 128 && Pow2(8) == 256
    ensures Pow2(11) == 2048 && Pow2(12) == 4096 && Pow2(13) == 8192 && Pow2(16) == 65536
  {
    assert Pow2(8) == 256;
    assert Pow2(13) == 8192;
  }

  /** C's `a << k` for a non-negative `a` that does not overflow. */
  function ShiftLeft(a: nat, k: nat): nat
  {
    a * Pow2(k)
  }

  /** C's `a >> k` for a non-negative `a`: k halvings. */
  function ShiftRight(a: nat, k: nat): nat
  {
    if k == 0 then a else ShiftRight(a / 2, k - 1)
  }

  /** C's `a | b`, least significant bit first. */
  function BitOr(a: nat, b: nat): nat
    decreases a + b
  {
    if a == 0 && b == 0 then 0
    else 2 * BitOr(a / 2, b / 2) + (if a % 2 == 1 || b % 2 == 1 then 1 else 0)
  }

  /** C's `a & b`, least significant bit first. */
  function BitAnd(a: nat, b: nat): nat
    decreases a + b
  {
    if a == 0 || b == 0 then 0
    else 2 * BitAnd(a / 2, b / 2) + (if a % 2 == 1 && b % 2 == 1 then 1 else 0)
  }

  /** Bit `k` of `a`. */
  predicate TestBit(a: nat, k: nat)
  {
    (a / Pow2(k)) % 2 == 1
  }

  lemma {:induction false} OrZero(a: nat)
    ensures BitOr(a, 0) == a
    decreases a
  {
    if a != 0 {
      OrZero(a / 2);
    }
  }

  lemma {:induction false} HalfOfShift(x: nat, k: nat)
    requires k > 0
    ensures x * Pow2(k) / 2 == x * Pow2(k - 1) && (x * Pow2(k)) % 2 == 0
  {
    assert x * Pow2(k) == 2 * (x * Pow2(k - 1));
  }

  /**
   * Or-ing a value shifted left by `k` with a value narrower than `k` bits
   * is addition: the two never share a set bit.
   */
  lemma {:induction false} OrOfDisjoint(x: nat, k: nat, y: nat)
    requires y < Pow2(k)
    ensures BitOr(ShiftLeft(x, k), y) == ShiftLeft(x, k) + y
    decreases k
  {
    if k == 0 {
      OrZero(x);
    } else if x * Pow2(k) == 0 && y == 0 {
    } else {
      HalfOfShift(x, k);
      OrOfDisjoint(x, k - 1, y / 2);
    }
  }

  lemma MulAtLeast(k: int, d: int)
    requires k >= 1 && d > 0
    ensures k * d >= d
  {
  }

  lemma DivUnique(x: int, d: int, q: int, r: int)
    requires d > 0 && 0 <= r < d && x == q * d + r
    ensures x / d == q
  {
    var k := x / d - q;
    assert k * d == r - x % d;
    assert k == 0 by {
      if k > 0 {
        MulAtLeast(k, d);
      } else if k < 0 {
        MulAtLeast(-k, d);
      }
    }
  }

  lemma {:induction false} DivOfHalf(x: nat, p: nat)
    requires p > 0
    ensures x / (2 * p) == (x / 2) / p
  {
    var q, r := (x / 2) / p, (x / 2) % p;
    assert x / 2 == q * p + r;
    assert x == q * (2 * p) + (2 * r + x % 2);
    DivUnique(x, 2 * p, q, 2 * r + x % 2);
  }

  /** Shifting right by k divides by 2^k. */
  lemma {:induction false} ShiftRightIsDivision(a: nat, k: nat)
    ensures ShiftRight(a, k) == a / Pow2(k)
    decreases k
  {
    if k > 0 {
      ShiftRightIsDivision(a / 2, k - 1);
      DivOfHalf(a, Pow2(k - 1));
    }
  }

  /** Masking with a single bit keeps exactly that bit of `a`. */
  lemma {:induction false} AndSingleBit(a: nat, k: nat)
    ensures BitAnd(a, Pow2(k)) == if TestBit(a, k) then Pow2(k) else 0
    decreases k
  {
    if k == 0 {
      if a != 0 {
        assert BitAnd(a / 2, 0) == 0;
      }
    } else if a != 0 {
      AndSingleBit(a / 2, k - 1);
      DivOfHalf(a, Pow2(k - 1));
    }
  }
}
