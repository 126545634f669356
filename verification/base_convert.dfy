/** Number to hexadecimal text and text to number in bases 2 to 36, in words of any width. */
module BaseConverter {
  import opened Options
  import opened Words

  // ---------------------------------------------------------------- remainders

  lemma SameRemainder(x: int, k: int, m: nat)
    requires m > 0
    ensures (x + k * m) % m == x % m
  {
    var q, r := x / m, x % m;
    var q', r' := (x + k * m) / m, (x + k * m) % m;
    assert (q' - q - k) * m == r - r' by {
      assert x == q * m + r && x + k * m == q' * m + r';
    }
    Between(q' - q - k, m);
    Between(q + k - q', m);
    assert (q + k - q') * m == r' - r by {
      assert (q + k - q') * m == -((q' - q - k) * m);
    }
  }

  lemma Between(k: int, m: nat)
    ensures k >= 1 ==> k * m >= m
  {
  }

  /** Sums and products of remainders have the remainders of the sums and products. */
  lemma AddRemainders(x: int, y: int, m: nat)
    requires m > 0
    ensures (x % m + y % m) % m == (x + y) % m
  {
    assert x % m + y % m == x + y + (-(x / m) - y / m) * m by {
      assert x == x / m * m + x % m && y == y / m * m + y % m;
    }
    SameRemainder(x + y, -(x / m) - y / m, m);
  }

  lemma MultiplyRemainders(x: int, y: int, m: nat)
    requires m > 0
    ensures (x % m) * (y % m) % m == x * y % m
  {
    var k := Carry(x / m, y / m, x % m, y % m, m);
    QuotientAndRest(x, m);
    QuotientAndRest(y, m);
    SameRemainder((x % m) * (y % m), k, m);
  }

  lemma QuotientAndRest(x: int, m: nat)
    requires m > 0
    ensures x == x / m * m + x % m
  {
  }

  lemma Carry(p: int, q: int, r: int, s: int, m: int) returns (k: int)
    ensures (p * m + r) * (q * m + s) == r * s + k * m
  {
    k := p * (q * m + s) + q * r;
    PullOut(p, m, q * m + s);
    PullOut(q, m, r);
    Distribute(p * (q * m + s), q * r, m);
    SplitProduct(p * m, r, q * m, s);
  }

  lemma SplitProduct(a: int, r: int, b: int, s: int)
    ensures (a + r) * (b + s) == a * (b + s) + b * r + r * s
  {
  }

  lemma PullOut(p: int, m: int, y: int)
    ensures p * m * y == p * y * m
  {
  }

  lemma Distribute(a: int, b: int, m: int)
    ensures (a + b) * m == a * m + b * m
  {
  }

  // ---------------------------------------------------------------- to hexadecimal

  function HexDigit(d: nat): char
    requires d < 16
  {
    if d < 10 then '0' + d as char else 'A' + (d - 10) as char
  }

  /** The usual numeral, the highest digit first. */
  function Hex(num: nat): string {
    if num < 16 then [HexDigit(num)] else Hex(num / 16) + [HexDigit(num % 16)]
  }

  function Reversed(s: string): (r: string)
    ensures |r| == |s|
  {
    if s == "" then "" else Reversed(s[1..]) + [s[0]]
  }

  lemma {:induction false} ReversedAppend(s: string, c: char)
    ensures Reversed(s + [c]) == [c] + Reversed(s)
  {
    if s == "" {
      assert s + [c] == [c];
    } else {
      ReversedAppend(s[1..], c);
      assert (s + [c])[1..] == s[1..] + [c];
    }
  }

  method HexadecimalConversion(num: nat) returns (r: string)
    requires num < WORD
    ensures r == Hex(num)
  {
    var n := num;
    var res := "";
    res := res + [HexDigit(n % 16)];
    n := n / 16;
    while n != 0
      invariant Hex(num) == (if n == 0 then "" else Hex(n)) + Reversed(res)
    {
      ReversedAppend(res, HexDigit(n % 16));
      res := res + [HexDigit(n % 16)];
      n := n / 16;
    }
    r := Reversed(res);
  }

  // ---------------------------------------------------------------- to a number

  /** What the code subtracts from a character: letters of both cases count from ten, other characters
      below 128 count for nothing. In bases up to ten every character is taken as a decimal digit. */
  function Digit(base: nat, c: char): int {
    if base <= 10 then c as int - '0' as int
    else if '0' <= c <= '9' then c as int - '0' as int
    else if 'a' <= c <= 'z' then c as int - 'a' as int + 10
    else if 'A' <= c <= 'Z' then c as int - 'A' as int + 10
    else 0
  }

  /** The positional value, read from left to right. */
  function Value(base: nat, s: string): int {
    if s == "" then 0 else Value(base, s[..|s| - 1]) * base + Digit(base, s[|s| - 1])
  }

  function Power(base: nat, n: nat): nat {
    if n == 0 then 1 else Power(base, n - 1) * base
  }

  lemma {:induction false} FirstDigit(base: nat, c: char, s: string)
    ensures Value(base, [c] + s) == Digit(base, c) * Power(base, |s|) + Value(base, s)
  {
    hide Digit;
    if s == "" {
      assert [c] + s == [c];
      assert [c][..0] == "";
    } else {
      var front := s[..|s| - 1];
      FirstDigit(base, c, front);
      assert ([c] + s)[..|s|] == [c] + front;
      Regroup(Digit(base, c), Power(base, |front|), Value(base, front), base);
    }
  }

  lemma Regroup(d: int, p: int, v: int, base: int)
    ensures (d * p + v) * base == d * (p * base) + v * base
  {
  }

  /** The table of the code: the character itself where it is no letter or digit. */
  function Benchmark(c: char): int
    requires c as int < 128
  {
    if '0' <= c <= '9' then '0' as int
    else if 'a' <= c <= 'z' then 'a' as int - 10
    else if 'A' <= c <= 'Z' then 'A' as int - 10
    else c as int
  }

  /** Whatever wraps around on the way, the result is the positional value modulo the width. */
  method StrToNum(base: nat, width: nat, sv: string) returns (res: nat)
    requires 2 <= base <= 36 && width > 0
    requires forall i :: 0 <= i < |sv| ==> sv[i] as int < 128
    ensures res == Value(base, sv) % width
  {
    res := 0;
    var pow: nat := 1 % width;
    var it := |sv|;
    assert sv[|sv|..] == "";
    while it > 0
      invariant 0 <= it <= |sv|
      invariant res == Value(base, sv[it..]) % width
      invariant pow == Power(base, |sv| - it) % width
    {
      it := it - 1;
      var c := sv[it];
      var digit := if base > 10 then c as int - Benchmark(c) else c as int - '0' as int;
      assert digit == Digit(base, c);
      ghost var rest := sv[it + 1..];
      assert sv[it..] == [c] + rest;
      FirstDigit(base, c, rest);
      AddDigit(Value(base, rest), digit, Power(base, |rest|), width);
      res := (res + digit % width * pow % width) % width;
      MultiplyRemainders(Power(base, |rest|), base, width);
      pow := pow * (base % width) % width;
    }
    assert sv[0..] == sv;
  }

  lemma AddDigit(v: int, digit: int, p: nat, width: nat)
    requires width > 0
    ensures (v % width + digit % width * (p % width) % width) % width == (digit * p + v) % width
  {
    MultiplyRemainders(digit, p, width);
    AddRemainders(v, digit * p, width);
  }

  // ---------------------------------------------------------------- to a signed number

  /** Every character is a digit of the base. */
  predicate Numeral(base: nat, s: string) {
    forall i :: 0 <= i < |s| ==> 0 <= Digit(base, s[i]) < base
  }

  lemma {:induction false} NumeralBound(base: nat, s: string)
    requires Numeral(base, s)
    ensures 0 <= Value(base, s) < Power(base, |s|) || (s == "" && Value(base, s) == 0)
  {
    hide Digit;
    if s != "" {
      NumeralBound(base, s[..|s| - 1]);
      NextDigitFits(Value(base, s[..|s| - 1]), Power(base, |s| - 1), base, Digit(base, s[|s| - 1]));
    }
  }

  lemma NextDigitFits(v: int, p: nat, base: nat, d: int)
    requires 0 <= v < p && 0 <= d < base
    ensures 0 <= v * base + d < p * base
  {
    assert (p - v) * base >= base by {
      Between(p - v, base);
    }
    Distribute(p - v, v, base);
  }

  lemma {:induction false} PowerGrows(base: nat, m: nat, n: nat)
    requires m <= n && base >= 1
    ensures 1 <= Power(base, m) <= Power(base, n)
  {
    if m < n {
      PowerGrows(base, m, n - 1);
      Between(Power(base, n - 1), base);
      AtLeastFactor(Power(base, n - 1), base);
    } else if n > 0 {
      PowerGrows(base, n - 1, n - 1);
      AtLeastFactor(Power(base, n - 1), base);
    }
  }

  lemma AtLeastFactor(p: nat, base: nat)
    requires base >= 1
    ensures p * base >= p
  {
  }

  /** The values of a signed type with the greatest value max. */
  predicate InType(max: nat, v: int) {
    -(max as int) - 1 <= v <= max
  }

  /** The summand for place k and the sum up to there fit the type. */
  predicate FitsAt(base: nat, max: nat, sv: string, k: nat)
    requires k < |sv|
  {
    InType(max, Digit(base, sv[k]) * Power(base, |sv| - 1 - k)) && InType(max, Value(base, sv[k..]))
  }

  lemma NumeralFits(base: nat, max: nat, sv: string)
    requires base >= 1 && Numeral(base, sv) && Power(base, |sv|) <= max
    ensures forall k :: 0 <= k < |sv| ==> FitsAt(base, max, sv, k)
  {
    hide Digit, Value, Power, Numeral;
    forall k | 0 <= k < |sv| ensures FitsAt(base, max, sv, k) {
      NumeralPart(base, sv, k);
      PowerNext(base, |sv| - 1 - k);
      PowerGrows(base, |sv| - k, |sv|);
      DigitFits(Digit(base, sv[k]), Power(base, |sv| - 1 - k), base, Value(base, sv[k + 1..]), max);
      assert sv[k..] == [sv[k]] + sv[k + 1..];
      FirstDigit(base, sv[k], sv[k + 1..]);
    }
  }

  /** Into a signed type with the greatest value max, where overflow is undefined: None. A result is the
      positional value; but the powers computed go one beyond those used, so a numeral is converted
      exactly if base to its length fits the type, and not already if its value does. */
  method StrToNumSigned(base: nat, max: nat, sv: string) returns (r: Option<int>)
    requires 2 <= base <= 36 && base <= max
    requires forall i :: 0 <= i < |sv| ==> sv[i] as int < 128
    ensures r.Some? <==> Power(base, |sv|) <= max && forall k :: 0 <= k < |sv| ==> FitsAt(base, max, sv, k)
    ensures r.Some? ==> r.value == Value(base, sv)
    ensures Numeral(base, sv) ==> (r.Some? <==> Power(base, |sv|) <= max)
  {
    hide Digit, Value, Power, Numeral, InType;
    if Numeral(base, sv) && Power(base, |sv|) <= max {
      NumeralFits(base, max, sv);
    }
    var res, pow := 0, 1;
    var it := |sv|;
    Nothing(base, sv);
    while it > 0
      invariant 0 <= it <= |sv| && res == Value(base, sv[it..]) && pow == Power(base, |sv| - it) <= max
      invariant forall k :: it <= k < |sv| ==> FitsAt(base, max, sv, k)
    {
      it := it - 1;
      var c := sv[it];
      DigitIs(base, c);
      var digit := if base > 10 then c as int - Benchmark(c) else c as int - '0' as int;
      assert sv[it..] == [c] + sv[it + 1..];
      FirstDigit(base, c, sv[it + 1..]);
      PowerNext(base, |sv| - it - 1);
      PowerGrows(base, |sv| - it, |sv|);
      var summand, next := digit * pow, pow * base;
      if !InType(max, summand) || !InType(max, res + summand) || next > max {
        assert FitsAt(base, max, sv, it) ==> next > max;
        return None;
      }
      res := res + summand;
      pow := next;
    }
    assert sv[0..] == sv;
    r := Some(res);
  }

  lemma Nothing(base: nat, s: string)
    ensures Value(base, s[|s|..]) == 0 && Power(base, 0) == 1
  {
  }

  lemma PowerNext(base: nat, n: nat)
    ensures Power(base, n + 1) == Power(base, n) * base
  {
  }

  lemma NumeralPart(base: nat, s: string, i: nat)
    requires Numeral(base, s) && i < |s| && base >= 1
    ensures 0 <= Digit(base, s[i]) < base && 0 <= Value(base, s[i + 1..]) < Power(base, |s| - i - 1)
  {
    hide Digit, Value, Power;
    NumeralBound(base, s[i + 1..]);
    PowerGrows(base, 0, |s| - i - 1);
    Nothing(base, s);
  }

  lemma DigitFits(d: nat, p: nat, base: nat, v: nat, max: nat)
    requires d < base && v < p && p * base <= max
    ensures 0 <= d * p <= max && v + d * p <= max
  {
    Between(base - d, p);
    Distribute(base - d, d, p);
  }

  lemma DigitIs(base: nat, c: char)
    requires c as int < 128
    ensures Digit(base, c) == if base > 10 then c as int - Benchmark(c) else c as int - '0' as int
  {
  }

  /** So no ten-digit decimal numeral is converted to a 32-bit int, though some fit. */
  lemma TenDigitsOverflow(sv: string)
    requires |sv| == 10
    ensures Power(10, |sv|) > 0x7FFF_FFFF
    ensures var fits := ['1'] + Zeros(9); |fits| == 10 && Numeral(10, fits) && Value(10, fits) <= 0x7FFF_FFFF
  {
    assert Power(10, 5) == 100000;
    assert Power(10, 10) == Power(10, 5) * 100000;
    assert Power(10, 9) == Power(10, 5) * 10000;
    FirstDigit(10, '1', Zeros(9));
    ZerosAreZero(10, 9);
  }

  function Zeros(n: nat): (r: string)
    ensures |r| == n
  {
    seq(n, _ => '0')
  }

  lemma {:induction false} ZerosAreZero(base: nat, n: nat)
    ensures Value(base, Zeros(n)) == 0
  {
    if n > 0 {
      ZerosAreZero(base, n - 1);
      assert Zeros(n)[..n - 1] == Zeros(n - 1);
    }
  }

  // ---------------------------------------------------------------- there and back

  function LowerCase(c: char): char {
    if 'A' <= c <= 'Z' then c + ' ' else c
  }

  function Lowered(s: string): (r: string)
    ensures |r| == |s|
  {
    seq(|s|, i requires 0 <= i < |s| => LowerCase(s[i]))
  }

  /** In bases above ten letter case does not matter. */
  lemma {:induction false} CaseDoesNotMatter(base: nat, s: string)
    requires base > 10
    ensures Value(base, Lowered(s)) == Value(base, s)
  {
    if s != "" {
      CaseDoesNotMatter(base, s[..|s| - 1]);
      assert Lowered(s)[..|s| - 1] == Lowered(s[..|s| - 1]);
    }
  }

  predicate HasCapital(s: string) {
    exists i :: 0 <= i < |s| && 'A' <= s[i] <= 'Z'
  }

  /** The number whose digits are 1 where s has a capital letter, else 0. */
  function Capitals(base: nat, s: string): nat {
    if s == "" then 0
    else Capitals(base, s[..|s| - 1]) * base + (if 'A' <= s[|s| - 1] <= 'Z' then 1 else 0)
  }

  /** In the others, lowering adds 32 at the place of each capital letter. */
  lemma {:induction false} LoweringAdds(base: nat, s: string)
    requires base <= 10
    ensures Value(base, Lowered(s)) == Value(base, s) + 32 * Capitals(base, s)
  {
    if s != "" {
      var front := s[..|s| - 1];
      LoweringAdds(base, front);
      assert Lowered(s)[..|s| - 1] == Lowered(front);
      TimesBase(Value(base, front), Capitals(base, front), base);
    }
  }

  lemma TimesBase(v: int, c: int, base: nat)
    ensures (v + 32 * c) * base == v * base + 32 * (c * base)
  {
  }

  lemma {:induction false} CapitalsCount(base: nat, s: string)
    requires base >= 2
    ensures Capitals(base, s) > 0 <==> HasCapital(s)
    ensures Capitals(base, s) < Power(base, |s|)
  {
    if s != "" {
      var front := s[..|s| - 1];
      CapitalsCount(base, front);
      assert HasCapital(s) <==> HasCapital(front) || 'A' <= s[|s| - 1] <= 'Z' by {
        assert forall i :: 0 <= i < |front| ==> front[i] == s[i];
      }
      NextDigitFits(Capitals(base, front), Power(base, |front|), base, 1);
      Between(Capitals(base, front), base);
    }
  }

  /** So a text means the same in lower case exactly if it has no capital letter. */
  lemma CaseMattersForCapitals(base: nat, s: string)
    requires 2 <= base <= 10
    ensures Value(base, Lowered(s)) == Value(base, s) <==> !HasCapital(s)
  {
    LoweringAdds(base, s);
    CapitalsCount(base, s);
  }

  /** Letter case can be ignored in all texts exactly in the bases above ten. */
  lemma CaseMattersBelow(base: nat)
    requires 2 <= base <= 36
    ensures (forall s :: Value(base, Lowered(s)) == Value(base, s)) <==> base > 10
  {
    if base > 10 {
      forall s ensures Value(base, Lowered(s)) == Value(base, s) {
        CaseDoesNotMatter(base, s);
      }
    } else {
      CaseMattersForCapitals(base, "A");
      assert "A"[0] == 'A';
    }
  }

  /** The same for the results, which wrap around: equal exactly if 32 at the capitals' places wraps to
      nothing; for texts so short that it cannot, exactly if there is no capital. */
  lemma CaseOfResults(base: nat, width: nat, s: string)
    requires 2 <= base <= 10 && width > 0
    ensures Value(base, Lowered(s)) % width == Value(base, s) % width <==> 32 * Capitals(base, s) % width == 0
    ensures 32 * Power(base, |s|) <= width ==>
              (Value(base, Lowered(s)) % width == Value(base, s) % width <==> !HasCapital(s))
  {
    hide Value, Capitals, Power, HasCapital;
    LoweringAdds(base, s);
    CapitalsCount(base, s);
    SameAfterAdding(Value(base, s), 32 * Capitals(base, s), width);
    if 32 * Power(base, |s|) <= width {
      SmallRemainder(32 * Capitals(base, s), width);
    }
  }

  lemma SmallRemainder(d: nat, width: nat)
    requires d < width
    ensures d % width == d
  {
  }

  lemma SameAfterAdding(v: int, d: int, width: nat)
    requires width > 0
    ensures (v + d) % width == v % width <==> d % width == 0
  {
    if d % width == 0 {
      assert d == d / width * width;
      SameRemainder(v, d / width, width);
    }
    if (v + d) % width == v % width {
      var k := (v + d) / width - v / width;
      assert d == k * width by {
        assert v + d == (v + d) / width * width + (v + d) % width && v == v / width * width + v % width;
        Distribute((v + d) / width - v / width, v / width, width);
      }
      SameRemainder(0, k, width);
    }
  }

  /** Capital letters, and no leading zero. */
  lemma {:induction false} HexLetters(num: nat)
    ensures Hex(num) != "" && (Hex(num)[0] == '0' <==> num == 0)
    ensures forall i :: 0 <= i < |Hex(num)| ==> '0' <= Hex(num)[i] <= '9' || 'A' <= Hex(num)[i] <= 'F'
  {
    if num >= 16 {
      HexLetters(num / 16);
    }
  }

  /** What a character counts for: up to base ten its distance from '0', above that digits and letters of both
      cases their usual value and other characters nothing; and a text counts as in any positional system. */
  lemma CharacterCounts(base: nat, s: string, c: char)
    ensures Value(base, s + [c]) == base * Value(base, s) +
                                    (if base <= 10 then c as int - 48
                                     else if c in "0123456789" then c as int - 48
                                     else if c in "abcdefghijklmnopqrstuvwxyz" then c as int - 87
                                     else if c in "ABCDEFGHIJKLMNOPQRSTUVWXYZ" then c as int - 55
                                     else 0)
    ensures Value(base, "") == 0
  {
    assert (s + [c])[..|s|] == s;
    InDigits(c);
    InLetters(c);
    InCapitals(c);
    Commutes(base, Value(base, s));
  }

  lemma Commutes(a: int, b: int)
    ensures a * b == b * a
  {
  }

  lemma InDigits(c: char)
    ensures c in "0123456789" <==> '0' <= c <= '9'
  {
    InRow("0123456789", c);
  }

  lemma InLetters(c: char)
    ensures c in "abcdefghijklmnopqrstuvwxyz" <==> 'a' <= c <= 'z'
  {
    InRow("abcdefghijklmnopqrstuvwxyz", c);
  }

  lemma InCapitals(c: char)
    ensures c in "ABCDEFGHIJKLMNOPQRSTUVWXYZ" <==> 'A' <= c <= 'Z'
  {
    InRow("ABCDEFGHIJKLMNOPQRSTUVWXYZ", c);
  }

  lemma InRow(row: string, c: char)
    requires row != "" && forall i :: 0 <= i < |row| ==> row[i] as int == row[0] as int + i
    ensures c in row <==> row[0] <= c <= row[|row| - 1]
  {
    if row[0] <= c <= row[|row| - 1] {
      assert row[c as int - row[0] as int] == c;
    }
  }

  lemma {:induction false} HexHasValue(num: nat)
    ensures Value(16, Hex(num)) == num
  {
    if num >= 16 {
      HexHasValue(num / 16);
      assert Hex(num)[..|Hex(num)| - 1] == Hex(num / 16);
    } else {
      assert Hex(num)[..0] == "";
    }
  }

  /** Numbers come back from their numerals, in upper case or in lower. */
  lemma RoundTrip(num: nat)
    requires num < WORD
    ensures Value(16, Hex(num)) % WORD == num
    ensures Value(16, Lowered(Hex(num))) % WORD == num
  {
    HexHasValue(num);
    CaseDoesNotMatter(16, Hex(num));
  }
}
