/** Machine words as natural numbers: bitwise operators and shifts by their binary digits,
    and the laws that relate them. */
module Words {
  const WORD: nat := 0x1_0000_0000_0000_0000

  function Pow2(n: nat): (r: nat)
    ensures r > 0
  {
    if n == 0 then 1 else 2 * Pow2(n - 1)
  }

  /** a ^ b, digit by digit. */
  function Xor(a: nat, b: nat): nat {
    if a == 0 then b
    else 2 * Xor(a / 2, b / 2) + (if a % 2 == b % 2 then 0 else 1)
  }

  /** a | b, digit by digit. */
  function Or(a: nat, b: nat): nat {
    if a == 0 then b
    else 2 * Or(a / 2, b / 2) + (if a % 2 == 0 && b % 2 == 0 then 0 else 1)
  }

  /** x >> n */
  function Shr(x: nat, n: nat): nat {
    if n == 0 then x else Shr(x / 2, n - 1)
  }

  /** x << n in unbounded arithmetic; Low then cuts it to the word. */
  function Shl(x: nat, n: nat): nat {
    if n == 0 then x else 2 * Shl(x, n - 1)
  }

  /** The n low digits of x, that is x modulo 2^n. */
  function Low(x: nat, n: nat): nat {
    if n == 0 then 0 else 2 * Low(x / 2, n - 1) + x % 2
  }

  // ---------------------------------------------------------------- shifts

  lemma {:induction false} ShrSum(x: nat, m: nat, n: nat)
    ensures Shr(Shr(x, m), n) == Shr(x, m + n)
  {
    if m > 0 {
      ShrSum(x / 2, m - 1, n);
    }
  }

  lemma {:induction false} ShrBound(x: nat, m: nat, n: nat)
    requires x < Pow2(m + n)
    ensures Shr(x, n) < Pow2(m)
  {
    if n > 0 {
      ShrBound(x / 2, m, n - 1);
    }
  }

  lemma {:induction false} ShrSmaller(x: nat, n: nat)
    ensures Shr(x, n) <= x
    ensures n > 0 && x > 0 ==> Shr(x, n) < x
  {
    if n > 0 {
      ShrSmaller(x / 2, n - 1);
    }
  }

  lemma {:induction false} LowBound(x: nat, n: nat)
    ensures Low(x, n) < Pow2(n)
    ensures x < Pow2(n) ==> Low(x, n) == x
  {
    if n > 0 {
      LowBound(x / 2, n - 1);
    }
  }

  /** A number is its high part shifted back plus its low part. */
  lemma {:induction false} SplitDigits(x: nat, n: nat)
    ensures x == Shl(Shr(x, n), n) + Low(x, n)
  {
    if n > 0 {
      SplitDigits(x / 2, n - 1);
    }
  }

  lemma {:induction false} ShlIsProduct(x: nat, n: nat)
    ensures Shl(x, n) == x * Pow2(n)
  {
    if n > 0 {
      ShlIsProduct(x, n - 1);
    }
  }

  // ---------------------------------------------------------------- laws of exclusive or

  lemma XorDigits(a: nat, b: nat)
    ensures Xor(a, b) / 2 == Xor(a / 2, b / 2)
    ensures Xor(a, b) % 2 == if a % 2 == b % 2 then 0 else 1
  {
  }

  lemma {:induction false} XorZero(a: nat)
    ensures Xor(a, 0) == a && Xor(0, a) == a
  {
    if a > 0 {
      XorZero(a / 2);
    }
  }

  lemma {:induction false} XorCommutes(a: nat, b: nat)
    ensures Xor(a, b) == Xor(b, a)
  {
    XorZero(a);
    XorZero(b);
    if a > 0 && b > 0 {
      XorCommutes(a / 2, b / 2);
    }
  }

  lemma SameDigits(x: nat, y: nat)
    requires x / 2 == y / 2 && x % 2 == y % 2
    ensures x == y
  {
  }

  lemma {:induction false} XorAssociates(a: nat, b: nat, c: nat)
    ensures Xor(Xor(a, b), c) == Xor(a, Xor(b, c))
  {
    if a > 0 {
      hide Xor;
      XorAssociates(a / 2, b / 2, c / 2);
      XorDigits(a, b);
      XorDigits(b, c);
      XorDigits(Xor(a, b), c);
      XorDigits(a, Xor(b, c));
      SameDigits(Xor(Xor(a, b), c), Xor(a, Xor(b, c)));
    }
  }

  lemma {:induction false} XorSelf(a: nat)
    ensures Xor(a, a) == 0
  {
    if a > 0 {
      XorSelf(a / 2);
    }
  }

  /** Exclusive or with the same word twice is no change. */
  lemma {:induction false} XorTwice(a: nat, b: nat)
    ensures Xor(Xor(a, b), b) == a
    ensures Xor(b, Xor(b, a)) == a
    ensures Xor(b, Xor(a, b)) == a
  {
    XorAssociates(a, b, b);
    XorAssociates(b, b, a);
    XorSelf(b);
    XorZero(a);
    XorCommutes(a, b);
  }

  lemma {:induction false} XorBound(a: nat, b: nat, n: nat)
    requires a < Pow2(n) && b < Pow2(n)
    ensures Xor(a, b) < Pow2(n)
  {
    if n > 0 && a > 0 {
      XorBound(a / 2, b / 2, n - 1);
    }
  }

  lemma {:induction false} XorShr(a: nat, b: nat, n: nat)
    ensures Shr(Xor(a, b), n) == Xor(Shr(a, n), Shr(b, n))
  {
    if n > 0 {
      hide Xor;
      XorDigits(a, b);
      XorShr(a / 2, b / 2, n - 1);
    }
  }

  lemma LowDigits(x: nat, n: nat)
    requires n > 0
    ensures Low(x, n) / 2 == Low(x / 2, n - 1) && Low(x, n) % 2 == x % 2
  {
  }

  lemma {:induction false} XorLow(a: nat, b: nat, n: nat)
    ensures Low(Xor(a, b), n) == Xor(Low(a, n), Low(b, n))
  {
    if n == 0 {
      XorZero(0);
    } else {
      hide Xor;
      XorLow(a / 2, b / 2, n - 1);
      XorDigits(a, b);
      XorDigits(Low(a, n), Low(b, n));
      LowDigits(a, n);
      LowDigits(b, n);
      LowDigits(Xor(a, b), n);
      SameDigits(Low(Xor(a, b), n), Xor(Low(a, n), Low(b, n)));
    }
  }

  // ---------------------------------------------------------------- laws of inclusive or

  lemma OrDigits(a: nat, b: nat)
    ensures Or(a, b) / 2 == Or(a / 2, b / 2)
    ensures Or(a, b) % 2 == if a % 2 == 0 && b % 2 == 0 then 0 else 1
  {
  }

  lemma {:induction false} OrShr(a: nat, b: nat, n: nat)
    ensures Shr(Or(a, b), n) == Or(Shr(a, n), Shr(b, n))
  {
    if n > 0 {
      hide Or;
      OrDigits(a, b);
      OrShr(a / 2, b / 2, n - 1);
    }
  }

  lemma {:induction false} OrBound(a: nat, b: nat, n: nat)
    requires a < Pow2(n) && b < Pow2(n)
    ensures a <= Or(a, b) < Pow2(n)
  {
    if n > 0 && a > 0 {
      OrBound(a / 2, b / 2, n - 1);
    }
  }

  /** Or-ing in n ones overwrites the low n digits. */
  lemma {:induction false} OrOnes(a: nat, n: nat)
    ensures Or(a, Pow2(n) - 1) == Shl(Shr(a, n), n) + Pow2(n) - 1
  {
    if n == 0 {
      OrZero(a);
    } else {
      hide Or;
      OrOnes(a / 2, n - 1);
      OrDigits(a, Pow2(n) - 1);
    }
  }

  lemma {:induction false} OrZero(a: nat)
    ensures Or(a, 0) == a
  {
    if a > 0 {
      OrZero(a / 2);
    }
  }

  lemma {:induction false} LowShl(x: nat, s: nat, n: nat)
    ensures Low(Shl(x, s), n) == if n <= s then 0 else Shl(Low(x, n - s), s)
  {
    if n > 0 && s > 0 {
      LowShl(x, s - 1, n - 1);
    }
  }

  lemma {:induction false} LowLow(x: nat, m: nat, n: nat)
    requires m <= n
    ensures Low(Low(x, n), m) == Low(x, m)
  {
    if m > 0 {
      LowDigits(x, n);
      LowLow(x / 2, m - 1, n - 1);
    }
  }

  // ---------------------------------------------------------------- lengths and powers

  /** The number of binary digits of v. */
  function BitLen(v: nat): nat {
    if v == 0 then 0 else 1 + BitLen(v / 2)
  }

  lemma {:induction false} BitLenBounds(v: nat)
    ensures v < Pow2(BitLen(v))
    ensures v > 0 ==> BitLen(v) > 0 && Pow2(BitLen(v) - 1) <= v
  {
    if v > 0 {
      BitLenBounds(v / 2);
    }
  }

  lemma {:induction false} BitLenAtMost(v: nat, n: nat)
    requires v < Pow2(n)
    ensures BitLen(v) <= n
  {
    if v > 0 {
      BitLenAtMost(v / 2, n - 1);
    }
  }

  lemma {:induction false} Pow2Sum(m: nat, n: nat)
    ensures Pow2(m + n) == Pow2(m) * Pow2(n)
  {
    if m > 0 {
      Pow2Sum(m - 1, n);
    }
  }

  lemma {:induction false} Pow2Monotone(m: nat, n: nat)
    requires m <= n
    ensures Pow2(m) <= Pow2(n)
  {
    if m < n {
      Pow2Monotone(m, n - 1);
    }
  }

  lemma Pow2Values()
    ensures Pow2(15) == 0x8000 && Pow2(16) == 0x1_0000
    ensures Pow2(32) == 0x1_0000_0000 && Pow2(64) == WORD
  {
    assert Pow2(8) == 256 by {
      assert Pow2(4) == 16;
      Pow2Sum(4, 4);
    }
    assert Pow2(7) == 128 by {
      assert Pow2(8) == 2 * Pow2(7);
    }
    hide Pow2;
    Pow2Sum(7, 8);
    Pow2Sum(8, 8);
    Pow2Sum(16, 16);
    Pow2Sum(32, 32);
  }

  /** Pow2(n) is the least power of two above v, where n is the length of v. */
  lemma LeastPow2Above(v: nat, e: nat)
    ensures v < Pow2(e) <==> Pow2(BitLen(v)) <= Pow2(e)
  {
    BitLenBounds(v);
    if v < Pow2(e) {
      BitLenAtMost(v, e);
      Pow2Monotone(BitLen(v), e);
    }
  }

  lemma {:induction false} OnesShr(a: nat, b: nat)
    ensures Shr(Pow2(a) - 1, b) == if b <= a then Pow2(a - b) - 1 else 0
  {
    if b > 0 {
      if a > 0 {
        OnesShr(a - 1, b - 1);
      } else {
        OnesShr(0, b - 1);
      }
    }
  }

  lemma {:induction false} OnesShl(a: nat, b: nat)
    ensures Shl(Pow2(a) - 1, b) + Pow2(b) - 1 == Pow2(a + b) - 1
  {
    if b > 0 {
      OnesShl(a, b - 1);
    }
  }

  // ---------------------------------------------------------------- remainders and masks

  lemma {:induction false} LowIsRemainder(x: nat, n: nat)
    ensures Low(x, n) == x % Pow2(n)
  {
    SplitDigits(x, n);
    ShlIsProduct(Shr(x, n), n);
    LowBound(x, n);
    RemainderOf(x, Shr(x, n), Pow2(n), Low(x, n));
  }

  lemma {:induction false} ShrIsQuotient(x: nat, n: nat)
    ensures Shr(x, n) == x / Pow2(n)
  {
    LowIsRemainder(x, n);
    SplitDigits(x, n);
    ShlIsProduct(Shr(x, n), n);
    assert x == x / Pow2(n) * Pow2(n) + x % Pow2(n);
    SameQuotient(Shr(x, n), x / Pow2(n), Pow2(n));
  }

  lemma SameQuotient(p: nat, q: nat, d: nat)
    requires d > 0 && p * d == q * d
    ensures p == q
  {
    assert (p - q) * d == 0 && (q - p) * d == 0;
    AtLeastOnce(p - q, d);
    AtLeastOnce(q - p, d);
  }

  lemma RemainderOf(x: nat, q: nat, d: nat, r: nat)
    requires r < d && x == q * d + r
    ensures x % d == r
  {
    var q', r' := x / d, x % d;
    assert (q - q') * d == r' - r by {
      assert x == q' * d + r';
    }
    AtLeastOnce(q - q', d);
    AtLeastOnce(q' - q, d);
    assert (q' - q) * d == -((q - q') * d);
  }

  lemma AtLeastOnce(k: int, d: nat)
    ensures k >= 1 ==> k * d >= d
  {
  }

  /** a & b, digit by digit. */
  function And(a: nat, b: nat): nat {
    if a == 0 then 0
    else 2 * And(a / 2, b / 2) + (if a % 2 == 1 && b % 2 == 1 then 1 else 0)
  }

  /** Masking with n ones is the remainder modulo 2^n. */
  lemma {:induction false} AndOnes(a: nat, n: nat)
    ensures And(a, Pow2(n) - 1) == Low(a, n)
  {
    if a == 0 {
      LowBound(0, n);
    } else if n > 0 {
      AndOnes(a / 2, n - 1);
    } else {
      AndZero(a);
    }
  }

  lemma {:induction false} AndZero(a: nat)
    ensures And(a, 0) == 0
  {
    if a > 0 {
      AndZero(a / 2);
    }
  }

  /** Or-ing a number into n free low digits adds it. */
  lemma {:induction false} OrDisjoint(h: nat, b: nat, n: nat)
    requires b < Pow2(n)
    ensures Or(Shl(h, n), b) == Shl(h, n) + b
  {
    if n > 0 {
      OrDigits(Shl(h, n), b);
      OrDisjoint(h, b / 2, n - 1);
      SameDigits(Or(Shl(h, n), b), Shl(h, n) + b);
    } else {
      OrZero(h);
    }
  }
}
