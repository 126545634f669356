/** Word arithmetic behind the compile-time hash map: the seeded integer mixer, the xorshift
    generator that supplies the seeds, and the rounding of a table size to a power of two. */
module HashBits {
  import opened Words

  // ---------------------------------------------------------------- integer mixer

  /** key ^ (key >> s) */
  function Fold(x: nat, s: nat): nat {
    Xor(x, Shr(x, s))
  }

  /** Repeats the shift of Fold until nothing is left of the word. */
  function Unfold(y: nat, s: nat): nat
    requires s > 0
  {
    ShrSmaller(y, s);
    if y == 0 then 0 else Xor(y, Unfold(Shr(y, s), s))
  }

  lemma {:induction false} UnfoldFold(x: nat, s: nat)
    requires s > 0
    ensures Unfold(Fold(x, s), s) == x
    decreases x
  {
    ShrSmaller(x, s);
    if x > 0 {
      XorShr(x, Shr(x, s), s);
      UnfoldFold(Shr(x, s), s);
      XorTwice(x, Shr(x, s));
      if Fold(x, s) == 0 {
        XorTwice(Shr(x, s), x);
        XorZero(x);
      }
    }
  }

  lemma {:induction false} FoldUnfold(y: nat, s: nat)
    requires s > 0
    ensures Fold(Unfold(y, s), s) == y
    decreases y
  {
    ShrSmaller(y, s);
    if y == 0 {
      ShrSmaller(0, s);
    } else {
      var z := Unfold(Shr(y, s), s);
      FoldUnfold(Shr(y, s), s);
      XorShr(y, z, s);
      // Fold(y ^ z) == (y ^ z) ^ ((y >> s) ^ (z >> s)) and (y >> s) == z ^ (z >> s)
      XorTwice(z, Shr(z, s));
      XorTwice(y, z);
    }
  }

  lemma FoldBound(x: nat, s: nat, n: nat)
    requires x < Pow2(n)
    ensures Fold(x, s) < Pow2(n)
  {
    ShrSmaller(x, s);
    XorBound(x, Shr(x, s), n);
  }

  lemma {:induction false} UnfoldBound(y: nat, s: nat, n: nat)
    requires s > 0 && y < Pow2(n)
    ensures Unfold(y, s) < Pow2(n)
    decreases y
  {
    ShrSmaller(y, s);
    if y > 0 {
      UnfoldBound(Shr(y, s), s, n);
      XorBound(y, Unfold(Shr(y, s), s), n);
    }
  }

  // The multiplying lines of the mixer. A left shift inside the word is a product modulo 2^64,
  // ~x is WORD - 1 - x.
  function Line1(x: nat): nat { (WORD - 1 - x % WORD + 0x20_0000 * x) % WORD }

  function Line3(x: nat): nat { ((x + 8 * x) % WORD + 256 * x) % WORD }

  function Line5(x: nat): nat { ((x + 4 * x) % WORD + 16 * x) % WORD }

  function Line7(x: nat): nat { (x + 0x8000_0000 * x) % WORD }

  // Products with the inverses modulo 2^64 of 2^21 - 1, 265, 21 and 2^31 + 1.
  function Undo1(y: nat): nat { (0x7FFF_FBFF_FFDF_FFFF * (y + 1)) % WORD }

  function Undo3(y: nat): nat { (0xD38F_F08B_1C03_DD39 * y) % WORD }

  function Undo5(y: nat): nat { (0xCF3C_F3CF_3CF3_CF3D * y) % WORD }

  function Undo7(y: nat): nat { (0x3FFF_FFFF_8000_0001 * y) % WORD }

  lemma WrapIsUnique(v: int, k: int, x: nat)
    requires x < WORD && v == x + WORD * k
    ensures v % WORD == x
  {
  }

  lemma WrapInside(u: nat, v: nat)
    ensures (u % WORD + v) % WORD == (u + v) % WORD
  {
    var q, r := u / WORD, (u % WORD + v) / WORD;
    WrapIsUnique(u + v, q + r, (u % WORD + v) % WORD);
  }

  lemma Inverse3(x: nat)
    requires x < WORD
    ensures Undo3(Line3(x)) == x && Line3(Undo3(x)) == x
  {
    Product3(x);
    var y := (265 * x) % WORD;
    WrapIsUnique(0xD38F_F08B_1C03_DD39 * y, 0xDB * x - 0xD38F_F08B_1C03_DD39 * ((265 * x) / WORD), x);
    var z := Undo3(x);
    Product3(z);
    WrapIsUnique(265 * z, 0xDB * x - 265 * ((0xD38F_F08B_1C03_DD39 * x) / WORD), x);
  }

  lemma Inverse5(x: nat)
    requires x < WORD
    ensures Undo5(Line5(x)) == x && Line5(Undo5(x)) == x
  {
    Product5(x);
    var y := (21 * x) % WORD;
    WrapIsUnique(0xCF3C_F3CF_3CF3_CF3D * y, 0x11 * x - 0xCF3C_F3CF_3CF3_CF3D * ((21 * x) / WORD), x);
    var z := Undo5(x);
    Product5(z);
    WrapIsUnique(21 * z, 0x11 * x - 21 * ((0xCF3C_F3CF_3CF3_CF3D * x) / WORD), x);
  }

  lemma Inverse7(x: nat)
    requires x < WORD
    ensures Undo7(Line7(x)) == x && Line7(Undo7(x)) == x
  {
    Product7(x);
    var y := (2147483649 * x) % WORD;
    WrapIsUnique(0x3FFF_FFFF_8000_0001 * y, 0x2000_0000 * x - 0x3FFF_FFFF_8000_0001 * ((2147483649 * x) / WORD), x);
    var z := Undo7(x);
    Product7(z);
    WrapIsUnique(2147483649 * z, 0x2000_0000 * x - 2147483649 * ((0x3FFF_FFFF_8000_0001 * x) / WORD), x);
  }

  lemma Product3(x: nat)
    ensures Line3(x) == (265 * x) % WORD
  {
    WrapInside(9 * x, 256 * x);
  }

  lemma Product5(x: nat)
    ensures Line5(x) == (21 * x) % WORD
  {
    WrapInside(5 * x, 16 * x);
  }

  lemma Product7(x: nat)
    ensures Line7(x) == (2147483649 * x) % WORD
  {
  }

  lemma Inverse1(x: nat)
    requires x < WORD
    ensures Undo1(Line1(x)) == x && Line1(Undo1(x)) == x
  {
    // Line1(x) is (2^21 - 1) * x - 1 modulo 2^64
    var y := Line1(x);
    var q := (WORD - 1 - x + 0x20_0000 * x) / WORD;
    assert 2097151 * x + WORD - 1 == WORD * q + y;
    WrapIsUnique(0x7FFF_FBFF_FFDF_FFFF * (y + 1), 0xF_FFFF * x - 0x7FFF_FBFF_FFDF_FFFF * (q - 1), x);
    var z := Undo1(x);
    var p := (0x7FFF_FBFF_FFDF_FFFF * (x + 1)) / WORD;
    WrapIsUnique(WORD - 1 - z + 0x20_0000 * z, 0xF_FFFF * (x + 1) - 2097151 * p + 1, x);
  }

  /** The seeded mixer of Hash<T> for integral T, on 64-bit words. */
  function Mix(val: nat, seed: nat): nat {
    Line7(Fold(Line5(Fold(Line3(Fold(Line1(Xor(seed, val)), 24)), 14)), 28))
  }

  function Unmix(h: nat, seed: nat): nat {
    Xor(Undo1(Unfold(Undo3(Unfold(Undo5(Unfold(Undo7(h), 28)), 14)), 24)), seed)
  }

  /** Mixing with a fixed seed loses nothing: Unmix recovers the value from its hash. */
  lemma UnmixMix(val: nat, seed: nat)
    requires val < WORD && seed < WORD
    ensures Mix(val, seed) < WORD && Unmix(Mix(val, seed), seed) == val
  {
    Pow2Values();
    hide Line1, Line3, Line5, Fold, Unfold, Undo1, Undo3, Undo5, Undo7, Xor;
    var k0 := Xor(seed, val);
    XorBound(seed, val, 64);
    var k1 := Line1(k0);
    LinesBounded(k0);
    var k2 := Fold(k1, 24);
    FoldBound(k1, 24, 64);
    var k3 := Line3(k2);
    LinesBounded(k2);
    var k4 := Fold(k3, 14);
    FoldBound(k3, 14, 64);
    var k5 := Line5(k4);
    LinesBounded(k4);
    var k6 := Fold(k5, 28);
    FoldBound(k5, 28, 64);
    LinesBounded(k6);
    Inverse7(k6);
    UnfoldFold(k5, 28);
    Inverse5(k4);
    UnfoldFold(k3, 14);
    Inverse3(k2);
    UnfoldFold(k1, 24);
    Inverse1(k0);
    XorCommutes(seed, val);
    XorTwice(val, seed);
  }

  /** ... and every 64-bit word is the hash of some value, so each seed gives a bijection. */
  lemma MixUnmix(h: nat, seed: nat)
    requires h < WORD && seed < WORD
    ensures Unmix(h, seed) < WORD && Mix(Unmix(h, seed), seed) == h
  {
    Pow2Values();
    hide Line1, Line3, Line5, Line7, Fold, Unfold, Undo1, Undo3, Undo5, Undo7, Xor;
    var k6 := Undo7(h);
    LinesBounded(h);
    var k5 := Unfold(k6, 28);
    UnfoldBound(k6, 28, 64);
    var k4 := Undo5(k5);
    LinesBounded(k5);
    var k3 := Unfold(k4, 14);
    UnfoldBound(k4, 14, 64);
    var k2 := Undo3(k3);
    LinesBounded(k3);
    var k1 := Unfold(k2, 24);
    UnfoldBound(k2, 24, 64);
    LinesBounded(k1);
    var k0 := Undo1(k1);
    XorBound(k0, seed, 64);
    XorCommutes(seed, Xor(k0, seed));
    XorTwice(k0, seed);
    Inverse1(k1);
    FoldUnfold(k2, 24);
    Inverse3(k3);
    FoldUnfold(k4, 14);
    Inverse5(k5);
    FoldUnfold(k6, 28);
    Inverse7(h);
  }

  lemma LinesBounded(x: nat)
    ensures Line1(x) < WORD && Line3(x) < WORD && Line5(x) < WORD && Line7(x) < WORD
    ensures Undo1(x) < WORD && Undo3(x) < WORD && Undo5(x) < WORD && Undo7(x) < WORD
  {
  }

  // ---------------------------------------------------------------- xorshift generator

  const BITS := 32
  const WORD32: nat := 0x1_0000_0000

  /** x ^= x << s on 32-bit words. */
  function FoldLeft(x: nat, s: nat): nat {
    Xor(x, Low(Shl(x, s), BITS))
  }

  /** The n low digits of the word that FoldLeft turns into y. */
  function UnfoldLeft(y: nat, s: nat, n: nat): nat
    requires s > 0
  {
    if n <= s then Low(y, n) else Xor(Low(y, n), Shl(UnfoldLeft(y, s, n - s), s))
  }

  lemma {:induction false} UnfoldFoldLeft(x: nat, s: nat, n: nat)
    requires s > 0 && n <= BITS
    ensures UnfoldLeft(FoldLeft(x, s), s, n) == Low(x, n)
    decreases n
  {
    hide Xor, Low, Shl;
    XorLow(x, Low(Shl(x, s), BITS), n);
    LowLow(Shl(x, s), n, BITS);
    LowShl(x, s, n);
    XorZero(Low(x, n));
    if n > s {
      UnfoldFoldLeft(x, s, n - s);
      XorTwice(Low(x, n), Shl(Low(x, n - s), s));
    }
  }

  /** One call of XorShift32::operator(). */
  function XorStep(val: nat): nat {
    FoldLeft(Fold(FoldLeft(val, 13), 17), 5)
  }

  function XorUnstep(y: nat): nat {
    UnfoldLeft(Unfold(UnfoldLeft(y, 5, BITS), 17), 13, BITS)
  }

  lemma FoldLeftBound(x: nat, s: nat)
    requires x < WORD32
    ensures FoldLeft(x, s) < WORD32
  {
    Pow2Values();
    hide Pow2;
    LowBound(Shl(x, s), BITS);
    XorBound(x, Low(Shl(x, s), BITS), BITS);
  }

  /** The step stays within 32 bits and can be undone, so it is a bijection of the words. */
  lemma XorStepInvertible(x: nat)
    requires x < WORD32
    ensures XorStep(x) < WORD32 && XorUnstep(XorStep(x)) == x
  {
    Pow2Values();
    hide Pow2, FoldLeft, UnfoldLeft, Fold, Unfold;
    var a := FoldLeft(x, 13);
    var b := Fold(a, 17);
    FoldLeftBound(x, 13);
    FoldBound(a, 17, BITS);
    FoldLeftBound(b, 5);
    UnfoldFoldLeft(b, 5, BITS);
    LowBound(b, BITS);
    UnfoldFold(a, 17);
    UnfoldFoldLeft(x, 13, BITS);
    LowBound(x, BITS);
  }

  /** The n-th state of the generator after val. */
  function XorAfter(val: nat, n: nat): nat {
    if n == 0 then val else XorStep(XorAfter(val, n - 1))
  }

  lemma XorStepZero()
    ensures XorStep(0) == 0
  {
    Pow2Values();
    LowBound(0, BITS);
    ShlIsProduct(0, 13);
    ShlIsProduct(0, 5);
    ShrSmaller(0, 17);
  }

  lemma XorAfterDef(val: nat, n: nat)
    ensures XorAfter(val, 0) == val
    ensures XorAfter(val, n + 1) == XorStep(XorAfter(val, n))
  {
  }

  /** 0 is a fixed point and nothing else leads to it, however many numbers are drawn. */
  lemma {:induction false} NeverZero(val: nat, n: nat)
    requires val < WORD32
    ensures XorAfter(val, n) < WORD32
    ensures XorAfter(val, n) == 0 <==> val == 0
  {
    hide XorAfter, XorStep, XorUnstep;
    if n == 0 {
      XorAfterDef(val, 0);
    } else {
      XorAfterDef(val, n - 1);
      NeverZero(val, n - 1);
      XorStepZero();
      XorStepInvertible(XorAfter(val, n - 1));
      XorStepInvertible(0);
    }
  }

  lemma {:induction false} SameStateLater(val: nat, i: nat, d: nat)
    requires val < WORD32 && XorAfter(val, i + d) == XorAfter(val, i)
    ensures XorAfter(val, d) == val
    decreases i
  {
    hide XorAfter, XorStep, XorUnstep;
    XorAfterDef(val, 0);
    if i > 0 {
      var a, b := XorAfter(val, i + d - 1), XorAfter(val, i - 1);
      XorAfterDef(val, i + d - 1);
      XorAfterDef(val, i - 1);
      NeverZero(val, i + d - 1);
      NeverZero(val, i - 1);
      XorStepInvertible(a);
      XorStepInvertible(b);
      assert i + d - 1 == (i - 1) + d;
      SameStateLater(val, i - 1, d);
    }
  }

  ghost function States(val: nat, n: nat): set<nat> {
    set i: nat | i < n :: XorAfter(val, i)
  }

  /** While no state repeats, n draws visit n different states. */
  lemma {:induction false} StatesDistinct(val: nat, n: nat)
    requires forall i: nat, j: nat :: i < j < n ==> XorAfter(val, i) != XorAfter(val, j)
    ensures |States(val, n)| == n
  {
    hide XorAfter;
    if n > 0 {
      StatesDistinct(val, n - 1);
      assert States(val, n) == States(val, n - 1) + {XorAfter(val, n - 1)};
      assert XorAfter(val, n - 1) !in States(val, n - 1);
    }
  }

  lemma {:induction false} BelowCount(s: set<nat>, n: nat)
    requires forall x :: x in s ==> x < n
    ensures |s| <= n
  {
    if n > 0 {
      BelowCount(s - {n - 1}, n - 1);
      assert s <= (s - {n - 1}) + {n - 1};
      assert |s| <= |s - {n - 1}| + 1;
    } else {
      assert s == {};
    }
  }

  /** The generator is periodic: within 2^32 draws it is back at the state it started from. */
  lemma Periodic(val: nat)
    requires val < WORD32
    ensures exists n: nat :: 0 < n <= WORD32 && XorAfter(val, n) == val
  {
    hide XorAfter;
    var m := WORD32 + 1;
    if forall i: nat, j: nat :: i < j < m ==> XorAfter(val, i) != XorAfter(val, j) {
      StatesDistinct(val, m);
      forall x | x in States(val, m) ensures x < WORD32 {
        var i: nat :| i < m && x == XorAfter(val, i);
        NeverZero(val, i);
      }
      BelowCount(States(val, m), WORD32);
      assert false;
    }
    var i: nat, j: nat :| i < j < m && XorAfter(val, i) == XorAfter(val, j);
    SameStateLater(val, i, j - i);
  }

  /** Hence every word is the step of some word: the step is onto as well. */
  lemma XorStepOnto(y: nat) returns (x: nat)
    requires y < WORD32
    ensures x < WORD32 && XorStep(x) == y
  {
    hide XorAfter, XorStep;
    Periodic(y);
    var n: nat :| 0 < n <= WORD32 && XorAfter(y, n) == y;
    x := XorAfter(y, n - 1);
    XorAfterDef(y, n - 1);
    NeverZero(y, n - 1);
  }

  /** XorShift32{seed}: the start value is seed + 1 cut to 32 bits. */
  function XorStart(seed: nat): nat {
    Low(seed + 1, BITS)
  }

  /** A generator never yields 0 exactly when seed + 1 is no multiple of 2^32. */
  lemma SeedYieldsZero(seed: nat, n: nat)
    ensures XorAfter(XorStart(seed), n) == 0 <==> (seed + 1) % WORD32 == 0
  {
    Pow2Values();
    hide Pow2, XorAfter;
    LowBound(seed + 1, BITS);
    NeverZero(XorStart(seed), n);
    LowIsRemainder(seed + 1, BITS);
  }

  /** The first draw of a generator with seed 0, and one to which all three shifts contribute. */
  lemma KnownDraws()
    ensures XorStart(0) == 1 && XorStep(1) == 0x4_2021 && XorStep(0x2_0000) == 0x4046_2021
  {
    hide Pow2, Low, Shl, Shr, Xor, XorStep, XorStart;
    StartOfZero();
    Powers();
    // 1, 1 + 2^13, and the latter with itself shifted by 5
    Flip(1, 13);
    XorZero(0x2001);
    FlipTwo(0x2001, 18, 5);
    DrawBy(1, 0x2000, 0x2001, 0, 0x2001, 0x4_0020, 0x4_2021);
    // 2^17, 2^30 comes in, then 2^13 + 1, then all of these shifted by 5 with 2^35 cut off
    Flip(0x2_0000, 30);
    FlipTwo(0x4002_0000, 13, 0);
    FlipTwo(0x4002_2001, 22, 18);
    Flip(0x4046_2001, 5);
    Flip(0x44_0000, 5);
    XorAssociates(0x4002_2001, 0x44_0000, 0x20);
    DrawBy(0x2_0000, 0x4000_0000, 0x4002_0000, 0x2001, 0x4002_2001, 0x44_0020, 0x4046_2021);
  }

  lemma StartOfZero()
    ensures XorStart(0) == 1
  {
    hide Pow2, Low;
    Powers();
    LowIsRemainder(1, 32);
  }

  /** Exclusive or with a digit that is not set adds it. */
  lemma {:induction false} FlipDigit(b: nat, n: nat)
    requires Shr(b, n) % 2 == 0
    ensures Xor(b, Pow2(n)) == b + Pow2(n)
  {
    XorDigits(b, Pow2(n));
    if n > 0 {
      FlipDigit(b / 2, n - 1);
      hide Xor;
      SameDigits(Xor(b, Pow2(n)), b + Pow2(n));
    } else {
      XorZero(b / 2);
    }
  }

  lemma Flip(b: nat, n: nat)
    requires b / Pow2(n) % 2 == 0
    ensures Xor(b, Pow2(n)) == b + Pow2(n)
  {
    ShrIsQuotient(b, n);
    FlipDigit(b, n);
  }

  lemma FlipTwo(b: nat, m: nat, n: nat)
    requires b / Pow2(m) % 2 == 0 && (b + Pow2(m)) / Pow2(n) % 2 == 0 && Pow2(m) / Pow2(n) % 2 == 0
    ensures Xor(b, Pow2(m) + Pow2(n)) == b + Pow2(m) + Pow2(n)
  {
    hide Xor, Pow2;
    Flip(b, m);
    Flip(b + Pow2(m), n);
    Flip(Pow2(m), n);
    XorAssociates(b, Pow2(m), Pow2(n));
  }

  lemma DrawBy(x: nat, l: nat, a: nat, r: nat, b: nat, m: nat, y: nat)
    requires l == x * 8192 % WORD32 && a == Xor(x, l) && r == a / 131072 && b == Xor(a, r)
    requires m == b * 32 % WORD32 && y == Xor(b, m)
    ensures XorStep(x) == y
  {
    hide Xor, Low, Shl, Shr, Pow2;
    Powers();
    ShlIsProduct(x, 13);
    LowIsRemainder(Shl(x, 13), 32);
    ShrIsQuotient(a, 17);
    ShlIsProduct(b, 5);
    LowIsRemainder(Shl(b, 5), 32);
  }

  lemma Powers()
    ensures Pow2(0) == 1 && Pow2(5) == 32 && Pow2(13) == 0x2000 && Pow2(17) == 0x2_0000
    ensures Pow2(18) == 0x4_0000 && Pow2(22) == 0x40_0000 && Pow2(30) == 0x4000_0000 && Pow2(32) == WORD32
  {
    assert Pow2(5) == 32;
    Pow2Values();
    assert Pow2(15) == 2 * Pow2(14) == 4 * Pow2(13);
    assert Pow2(18) == 2 * Pow2(17) == 4 * Pow2(16);
    assert Pow2(32) == 2 * Pow2(31) == 4 * Pow2(30);
    hide Pow2;
    Pow2Sum(17, 5);
  }

  class XorShift32 {
    var val: nat

    constructor (seed: nat)
      ensures val == XorStart(seed)
    {
      val := XorStart(seed);
    }

    method Next() returns (x: nat)
      modifies this
      ensures x == val == XorStep(old(val))
    {
      x := val;
      x := Xor(x, Low(Shl(x, 13), 32));
      x := Xor(x, Shr(x, 17));
      x := Xor(x, Low(Shl(x, 5), 32));
      val := x;
    }
  }

  // ---------------------------------------------------------------- table size

  /** The top min(i, len) digits of v are ones; v has at most len digits. */
  ghost predicate TopOnes(v: nat, i: nat, len: nat) {
    v < Pow2(len) && if i < len then Shr(v, len - i) == Pow2(i) - 1 else v == Pow2(len) - 1
  }

  lemma PassFillsSome(v: nat, i: nat, t: nat)
    requires Shr(v, t + i) == Pow2(i) - 1
    ensures Shr(Or(v, Shr(v, i)), t) == Pow2(2 * i) - 1
  {
    OnesShl(i, i);
    hide Or, Shr, Shl, Pow2;
    OrShr(v, Shr(v, i), t);
    ShrSum(v, i, t);
    ShrSum(v, t, i);
    OrOnes(Shr(v, t), i);
  }

  lemma PassFillsAll(v: nat, i: nat, k: nat)
    requires k <= i && Shr(v, k) == Pow2(i) - 1
    ensures Or(v, Shr(v, i)) == Pow2(i + k) - 1
  {
    OnesShl(i, k);
    OnesShr(i, i - k);
    hide Or, Shr, Shl, Pow2;
    ShrSum(v, k, i - k);
    OrOnes(v, k);
  }

  lemma {:induction false} PassDoublesOnes(v: nat, i: nat, len: nat)
    requires TopOnes(v, i, len)
    ensures TopOnes(Or(v, Shr(v, i)), 2 * i, len)
  {
    hide Or, Shr, Pow2;
    ShrSmaller(v, i);
    OrBound(v, Shr(v, i), len);
    if i >= len {
      OnesShr(len, i);
      OrZero(v);
    } else if 2 * i < len {
      PassFillsSome(v, i, len - 2 * i);
    } else {
      PassFillsAll(v, i, len - i);
    }
  }

  lemma TopDigitIsOne(v: nat)
    ensures TopOnes(v, 1, BitLen(v))
  {
    var len := BitLen(v);
    BitLenBounds(v);
    if len > 1 {
      SplitDigits(v, len - 1);
      ShlIsProduct(Shr(v, len - 1), len - 1);
      LowBound(v, len - 1);
      ShrBound(v, 1, len - 1);
      assert Pow2(1) == 2;
    } else {
      assert Pow2(1) == 2 && Pow2(0) == 1;
    }
  }

  /** nextHighestPowOfTow<N>: the least power of two not below n; n == 0 wraps around to 0. */
  method NextHighestPowOfTow(n: nat) returns (r: nat)
    requires n <= 0x7FFF_FFFF_FFFF_FFFF
    ensures n == 0 ==> r == 0
    ensures n > 0 ==> r == Pow2(BitLen(n - 1)) && n <= r < WORD
    ensures n > 0 ==> forall e: nat :: n <= Pow2(e) ==> r <= Pow2(e)
  {
    hide Or, Shr, Pow2, BitLen;
    var v: nat := (n + WORD - 1) % WORD;
    ghost var len := BitLen(v);
    LengthOfPredecessor(n);
    TopDigitIsOne(v);
    var i: nat := 1;
    while i < 64
      invariant i in {1, 2, 4, 8, 16, 32, 64}
      invariant TopOnes(v, i, len)
      decreases 64 - i
    {
      PassDoublesOnes(v, i, len);
      v := Or(v, Shr(v, i));
      i := 2 * i;
    }
    r := (v + 1) % WORD;
    if n > 0 {
      forall e: nat | n <= Pow2(e) ensures Pow2(len) <= Pow2(e) {
        LeastPow2Above(n - 1, e);
      }
    }
  }

  lemma LengthOfPredecessor(n: nat)
    requires n <= 0x7FFF_FFFF_FFFF_FFFF
    ensures BitLen((n + WORD - 1) % WORD) <= 64
    ensures n == 0 ==> Pow2(BitLen((n + WORD - 1) % WORD)) == WORD
    ensures n > 0 ==> n <= Pow2(BitLen(n - 1)) < WORD && (n + WORD - 1) % WORD == n - 1
  {
    Pow2Values();
    hide Pow2, BitLen;
    assert Pow2(64) == 2 * Pow2(63) by {
      Pow2Doubles(63);
    }
    if n > 0 {
      LeastPow2Above(n - 1, 63);
      BitLenAtMost(n - 1, 63);
      BitLenBounds(n - 1);
    } else {
      BitLenBounds(WORD - 1);
      BitLenAtMost(WORD - 1, 64);
      LeastPow2Above(WORD - 1, 64);
      if BitLen(WORD - 1) < 64 {
        Pow2Monotone(BitLen(WORD - 1), 63);
      }
    }
  }

  lemma Pow2Doubles(n: nat)
    ensures Pow2(n + 1) == 2 * Pow2(n)
  {
  }
}
