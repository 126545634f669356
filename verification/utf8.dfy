/** toByteString: wide strings to UTF-8, with the decoders of RFC 3629 and RFC 2781 as independent
    references. */
module Utf8Encoding {
  import opened Options
  import opened Words

  datatype Error = Truncated | Malformed | NotACodePoint

  datatype Result<+T> = Ok(value: T) | Err(error: Error)

  type Byte = b: int | 0 <= b < 0x100
  type Unit16 = u: int | 0 <= u < 0x1_0000
  type Unit32 = u: int | 0 <= u < 0x1_0000_0000

  predicate Surrogate(c: int) { 0xD800 <= c <= 0xDFFF }

  predicate Scalar(c: int) { 0 <= c <= 0x10FFFF && !Surrogate(c) }

  // ---------------------------------------------------------------- one code point

  /** The octets of one code point, by the table in section 3 of RFC 3629. */
  function Octets(c: nat): seq<Byte>
    requires c <= 0x10FFFF
  {
    if c <= 0x7F then [c]
    else if c <= 0x7FF then [0xC0 + c / 64, 0x80 + c % 64]
    else if c <= 0xFFFF then [0xE0 + c / 4096, 0x80 + c / 64 % 64, 0x80 + c % 64]
    else [0xF0 + c / 262144, 0x80 + c / 4096 % 64, 0x80 + c / 64 % 64, 0x80 + c % 64]
  }

  predicate Tail(b: Byte) { 0x80 <= b <= 0xBF }

  /** The range of the second octet after the lead octet a, from section 4 of RFC 3629. */
  predicate Second(a: Byte, b: Byte) {
    if a == 0xE0 then 0xA0 <= b <= 0xBF
    else if a == 0xED then 0x80 <= b <= 0x9F
    else if a == 0xF0 then 0x90 <= b <= 0xBF
    else if a == 0xF4 then 0x80 <= b <= 0x8F
    else Tail(b)
  }

  function Join2(a: int, b: int): int { (a - 0xC0) * 64 + (b - 0x80) }

  function Join3(a: int, b: int, c: int): int { (a - 0xE0) * 4096 + (b - 0x80) * 64 + (c - 0x80) }

  function Join4(a: int, b: int, c: int, d: int): int {
    (a - 0xF0) * 262144 + (b - 0x80) * 4096 + (c - 0x80) * 64 + (d - 0x80)
  }

  /** One code point off the front and the number of octets it takes, by the grammar of section 4 of
      RFC 3629; None if no well-formed sequence stands there. */
  function DecodeOne(s: seq<Byte>): (r: Option<(nat, nat)>)
    requires s != []
    ensures r.Some? ==> 1 <= r.value.1 <= |s|
  {
    var a := s[0];
    if a <= 0x7F then Some((a, 1))
    else if 0xC2 <= a <= 0xDF && |s| >= 2 && Tail(s[1]) then Some((Join2(a, s[1]), 2))
    else if 0xE0 <= a <= 0xEF && |s| >= 3 && Second(a, s[1]) && Tail(s[2]) then Some((Join3(a, s[1], s[2]), 3))
    else if 0xF0 <= a <= 0xF4 && |s| >= 4 && Second(a, s[1]) && Tail(s[2]) && Tail(s[3]) then
      Some((Join4(a, s[1], s[2], s[3]), 4))
    else None
  }

  function Decode(s: seq<Byte>): Option<seq<nat>> {
    if s == [] then Some([])
    else
      match DecodeOne(s)
      case None => None
      case Some((c, n)) =>
        match Decode(s[n..])
        case None => None
        case Some(cs) => Some([c] + cs)
  }

  lemma Split3(c: nat)
    ensures c == c / 4096 * 4096 + c / 64 % 64 * 64 + c % 64
    ensures c / 64 / 64 == c / 4096
  {
  }

  lemma Split4(c: nat)
    ensures c == c / 262144 * 262144 + c / 4096 % 64 * 4096 + c / 64 % 64 * 64 + c % 64
  {
    Split3(c);
    Split3(c / 64);
    assert c / 64 / 4096 == c / 262144;
  }

  lemma Digits(c: nat, high: nat, low: nat)
    requires c == high * 64 + low && low < 64
    ensures c / 64 == high && c % 64 == low
  {
  }

  lemma DecodesBack(c: nat, rest: seq<Byte>)
    requires Scalar(c)
    ensures DecodeOne(Octets(c) + rest) == Some((c, |Octets(c)|))
  {
    var s, o := Octets(c) + rest, Octets(c);
    assert s[0] == o[0] && (|o| > 1 ==> s[1] == o[1]) && (|o| > 2 ==> s[2] == o[2]) && (|o| > 3 ==> s[3] == o[3]);
    hide Surrogate;
    if c <= 0xFFFF {
      Split3(c);
    } else {
      Split4(c);
    }
    ScalarMeans(c);
  }

  lemma ScalarMeans(c: nat)
    requires Scalar(c)
    ensures c <= 0x10FFFF && !(0xD800 <= c <= 0xDFFF)
  {
  }

  lemma Only2(a: Byte, b: Byte)
    requires 0xC2 <= a <= 0xDF && Tail(b)
    ensures 0x7F < Join2(a, b) <= 0x7FF && Octets(Join2(a, b)) == [a, b]
  {
    Digits(Join2(a, b), a as int - 0xC0, b as int - 0x80);
  }

  lemma Only3(a: Byte, b: Byte, c: Byte)
    requires 0xE0 <= a <= 0xEF && Second(a, b) && Tail(c)
    ensures 0x7FF < Join3(a, b, c) <= 0xFFFF && !Surrogate(Join3(a, b, c))
    ensures Octets(Join3(a, b, c)) == [a, b, c]
  {
    var (x, y, z) := (a as int - 0xE0, b as int - 0x80, c as int - 0x80);
    var p := Join3(a, b, c);
    Digits(p, x * 64 + y, z);
    Digits(p / 64, x, y);
    Split3(p);
  }

  lemma Only4(a: Byte, b: Byte, c: Byte, d: Byte)
    requires 0xF0 <= a <= 0xF4 && Second(a, b) && Tail(c) && Tail(d)
    ensures 0xFFFF < Join4(a, b, c, d) <= 0x10FFFF && Octets(Join4(a, b, c, d)) == [a, b, c, d]
  {
    var (w, x, y, z) := (a as int - 0xF0, b as int - 0x80, c as int - 0x80, d as int - 0x80);
    var p := Join4(a, b, c, d);
    Digits(p, w * 4096 + x * 64 + y, z);
    Digits(p / 64, w * 64 + x, y);
    Digits(p / 64 / 64, w, x);
    Split3(p);
    assert p / 4096 / 64 == p / 262144;
  }

  /** Nothing else decodes: a decoded code point is a scalar value, and its octets are the ones read. */
  lemma DecodesOnly(s: seq<Byte>)
    requires s != [] && DecodeOne(s).Some?
    ensures var (c, n) := DecodeOne(s).value; Scalar(c) && Octets(c) == s[..n]
  {
    hide Octets, Join2, Join3, Join4, Second, Tail;
    var (c, n) := DecodeOne(s).value;
    if n == 1 {
      OctetsOfAscii(c);
    } else if n == 2 {
      Only2(s[0], s[1]);
    } else if n == 3 {
      Only3(s[0], s[1], s[2]);
    } else {
      Only4(s[0], s[1], s[2], s[3]);
    }
  }

  lemma OctetsOfAscii(c: nat)
    requires c <= 0x7F
    ensures Octets(c) == [c]
  {
  }

  /** The three octets that the code writes for a lone surrogate are not UTF-8. */
  lemma SurrogateIsIllFormed(c: nat, rest: seq<Byte>)
    requires Surrogate(c)
    ensures DecodeOne(Octets(c) + rest) == None
  {
    Split3(c);
    assert c / 4096 == 13 && c / 64 % 64 >= 0x20;
    assert (Octets(c) + rest)[0] == 0xED && (Octets(c) + rest)[1] == 0x80 + c / 64 % 64;
  }

  // ---------------------------------------------------------------- the octets by bit operators

  /** Tag bits above n free digits, with n digits of c shifted down: tag | ((c >> s) & ones). */
  lemma {:induction false} FieldIsSum(tag: nat, c: nat, s: nat, n: nat)
    ensures Or(Shl(tag, n), And(Shr(c, s), Pow2(n) - 1)) == Shl(tag, n) + c / Pow2(s) % Pow2(n)
  {
    AndOnes(Shr(c, s), n);
    LowIsRemainder(Shr(c, s), n);
    ShrIsQuotient(c, s);
    LowBound(Shr(c, s), n);
    OrDisjoint(tag, Low(Shr(c, s), n), n);
  }

  lemma LeadOf2(c: nat)
    requires c <= 0x7FF
    ensures Or(0xC0, And(Shr(c, 6), 0x1F)) == 0xC0 + c / 64
  {
    hide Or, And, Shr, Shl, Pow2;
    FieldIsSum(6, c, 6, 5);
    SmallPowers();
  }

  lemma LeadOf3(c: nat)
    requires c <= 0xFFFF
    ensures Or(0xE0, And(Shr(c, 12), 0x0F)) == 0xE0 + c / 4096
  {
    hide Or, And, Shr, Shl, Pow2;
    FieldIsSum(14, c, 12, 4);
    SmallPowers();
  }

  lemma LeadOf4(c: nat)
    requires c <= 0x10FFFF
    ensures Or(0xF0, And(Shr(c, 18), 0x07)) == 0xF0 + c / 262144
  {
    hide Or, And, Shr, Shl, Pow2;
    FieldIsSum(30, c, 18, 3);
    SmallPowers();
  }

  lemma Tails(c: nat)
    ensures Or(0x80, And(c, 0x3F)) == 0x80 + c % 64
    ensures Or(0x80, And(Shr(c, 6), 0x3F)) == 0x80 + c / 64 % 64
    ensures Or(0x80, And(Shr(c, 12), 0x3F)) == 0x80 + c / 4096 % 64
  {
    hide Or, And, Shr, Shl, Pow2;
    ShrNothing(c);
    FieldIsSum(2, c, 0, 6);
    FieldIsSum(2, c, 6, 6);
    FieldIsSum(2, c, 12, 6);
    SmallPowers();
  }

  lemma ShrNothing(c: nat)
    ensures Shr(c, 0) == c
  {
  }

  lemma SmallPowers()
    ensures Pow2(0) == 1 && Pow2(3) == 8 && Pow2(4) == 16 && Pow2(5) == 32 && Pow2(6) == 64
    ensures Pow2(12) == 4096 && Pow2(18) == 262144
    ensures Shl(2, 6) == 0x80 && Shl(6, 5) == 0xC0 && Shl(14, 4) == 0xE0 && Shl(30, 3) == 0xF0
  {
    Pow2Sum(6, 6);
    Pow2Sum(12, 6);
    ShlIsProduct(2, 6);
    ShlIsProduct(6, 5);
    ShlIsProduct(14, 4);
    ShlIsProduct(30, 3);
    assert Pow2(6) == 2 * Pow2(5) == 4 * Pow2(4) == 8 * Pow2(3) == 16 * Pow2(2) == 32 * Pow2(1) == 64 * Pow2(0);
  }

  /** The part of the loop body that the two branches share. */
  method AppendOctets(res: seq<Byte>, codepoint: nat) returns (r: seq<Byte>)
    requires codepoint <= 0x10FFFF
    ensures r == res + Octets(codepoint)
  {
    hide Or, And, Shr;
    r := res;
    Tails(codepoint);
    if codepoint <= 0x7F {
      r := r + [codepoint];
    } else if codepoint <= 0x7FF {
      LeadOf2(codepoint);
      r := r + [Or(0xC0, And(Shr(codepoint, 6), 0x1F))];
      r := r + [Or(0x80, And(codepoint, 0x3F))];
    } else if codepoint <= 0xFFFF {
      LeadOf3(codepoint);
      r := r + [Or(0xE0, And(Shr(codepoint, 12), 0x0F))];
      r := r + [Or(0x80, And(Shr(codepoint, 6), 0x3F))];
      r := r + [Or(0x80, And(codepoint, 0x3F))];
    } else {
      LeadOf4(codepoint);
      r := r + [Or(0xF0, And(Shr(codepoint, 18), 0x07))];
      r := r + [Or(0x80, And(Shr(codepoint, 12), 0x3F))];
      r := r + [Or(0x80, And(Shr(codepoint, 6), 0x3F))];
      r := r + [Or(0x80, And(codepoint, 0x3F))];
    }
  }

  // ---------------------------------------------------------------- texts

  predicate InRange(cs: seq<nat>) { forall i :: 0 <= i < |cs| ==> cs[i] <= 0x10FFFF }

  predicate Scalars(cs: seq<nat>) { forall i :: 0 <= i < |cs| ==> Scalar(cs[i]) }

  function Encode(cs: seq<nat>): seq<Byte>
    requires InRange(cs)
  {
    if cs == [] then [] else Octets(cs[0]) + Encode(cs[1..])
  }

  lemma {:induction false} EncodeAppend(cs: seq<nat>, c: nat)
    requires InRange(cs) && c <= 0x10FFFF
    ensures Encode(cs + [c]) == Encode(cs) + Octets(c)
  {
    if cs == [] {
      assert cs + [c] == [c];
    } else {
      EncodeAppend(cs[1..], c);
      assert (cs + [c])[1..] == cs[1..] + [c];
    }
  }

  /** The encoding of any text is well-formed exactly when it holds no surrogate, and then it decodes
      to the text. */
  lemma {:induction false} EncodeDecodes(cs: seq<nat>)
    requires InRange(cs)
    ensures Decode(Encode(cs)) == if Scalars(cs) then Some(cs) else None
  {
    if cs != [] {
      var rest := Encode(cs[1..]);
      EncodeDecodes(cs[1..]);
      assert (Octets(cs[0]) + rest)[|Octets(cs[0])|..] == rest;
      assert Scalars(cs) <==> Scalar(cs[0]) && Scalars(cs[1..]);
      if Scalar(cs[0]) {
        DecodesBack(cs[0], rest);
        assert [cs[0]] + cs[1..] == cs;
      } else {
        SurrogateIsIllFormed(cs[0], rest);
      }
    }
  }

  /** Every well-formed octet sequence is the encoding of what it decodes to. */
  lemma {:induction false} DecodeEncodes(s: seq<Byte>)
    requires Decode(s).Some?
    ensures Scalars(Decode(s).value) && Encode(Decode(s).value) == s
  {
    hide DecodeOne, Octets, Surrogate;
    if s != [] {
      var (c, n) := DecodeOne(s).value;
      DecodesOnly(s);
      DecodeEncodes(s[n..]);
      var cs := Decode(s[n..]).value;
      assert ([c] + cs)[1..] == cs;
      assert s == s[..n] + s[n..];
    }
  }

  // ---------------------------------------------------------------- the UTF-32 branch

  method FromUtf32(input: seq<Unit32>) returns (r: Result<seq<Byte>>)
    ensures Scalars(input) ==> r == Ok(Encode(input))
    ensures !Scalars(input) ==> r == Err(NotACodePoint)
  {
    hide Octets, Encode;
    var res: seq<Byte> := [];
    EncodeNothing();
    var i := 0;
    while i < |input|
      invariant 0 <= i <= |input|
      invariant Scalars(input[..i]) && res == Encode(input[..i])
    {
      var codepoint: int := input[i];
      if codepoint > 0x10FFFF || (codepoint >= 0xD800 && codepoint <= 0xDFFF) {
        return Err(NotACodePoint);
      }
      EncodeAppend(input[..i], codepoint);
      assert input[..i + 1] == input[..i] + [codepoint];
      res := AppendOctets(res, codepoint);
      i := i + 1;
    }
    assert input[..|input|] == input;
    return Ok(res);
  }

  lemma EncodeNothing()
    ensures Encode([]) == []
  {
  }

  // ---------------------------------------------------------------- the UTF-16 branch

  predicate High(u: int) { 0xD800 <= u <= 0xDBFF }

  predicate Low16(u: int) { 0xDC00 <= u <= 0xDFFF }

  /** Section 2.2 of RFC 2781; None where it is in error. */
  function Decode16(s: seq<Unit16>): Option<seq<nat>> {
    if s == [] then Some([])
    else if !Surrogate(s[0]) then Prepend(s[0], Decode16(s[1..]))
    else if High(s[0]) && |s| > 1 && Low16(s[1]) then Prepend(PairOf(s[0], s[1]), Decode16(s[2..]))
    else None
  }

  function Prepend(c: nat, cs: Option<seq<nat>>): Option<seq<nat>> {
    if cs.Some? then Some([c] + cs.value) else None
  }

  function PairOf(high: Unit16, low: Unit16): nat
    requires High(high) && Low16(low)
  {
    0x10000 + (high - 0xD800) * 0x400 + (low - 0xDC00)
  }

  /** Section 2.1 of RFC 2781: the ten high digits of c - 0x10000 go into the high surrogate. */
  function Units(c: nat): seq<Unit16>
    requires Scalar(c)
  {
    if c < 0x10000 then [c] else [0xD800 + (c - 0x10000) / 0x400, 0xDC00 + (c - 0x10000) % 0x400]
  }

  function Encode16(cs: seq<nat>): seq<Unit16>
    requires Scalars(cs)
  {
    if cs == [] then [] else Units(cs[0]) + Encode16(cs[1..])
  }

  lemma PairOfUnits(c: nat)
    requires Scalar(c) && c >= 0x10000
    ensures High(Units(c)[0]) && Low16(Units(c)[1]) && PairOf(Units(c)[0], Units(c)[1]) == c
  {
  }

  lemma UnitsOfPair(high: Unit16, low: Unit16)
    requires High(high) && Low16(low)
    ensures Scalar(PairOf(high, low)) && Units(PairOf(high, low)) == [high, low]
  {
    var d := PairOf(high, low) - 0x10000;
    assert d / 0x400 == high - 0xD800 && d % 0x400 == low - 0xDC00;
  }

  /** Every text of scalar values comes back from its encoding ... */
  lemma {:induction false} Encode16Decodes(cs: seq<nat>)
    requires Scalars(cs)
    ensures Decode16(Encode16(cs)) == Some(cs)
  {
    if cs != [] {
      Encode16Decodes(cs[1..]);
      var s, c := Encode16(cs), cs[0];
      assert s[|Units(c)|..] == Encode16(cs[1..]);
      if c >= 0x10000 {
        PairOfUnits(c);
        assert s[0] == Units(c)[0] && s[1] == Units(c)[1];
      }
      assert [c] + cs[1..] == cs;
    }
  }

  lemma UnitsOfOne(u: Unit16)
    requires !Surrogate(u)
    ensures Scalar(u) && Units(u) == [u]
  {
  }

  lemma EncodeFirst(c: nat, cs: seq<nat>)
    requires Scalar(c) && Scalars(cs)
    ensures Scalars([c] + cs) && Encode16([c] + cs) == Units(c) + Encode16(cs)
  {
    hide Units;
    assert ([c] + cs)[1..] == cs;
  }

  /** ... and every well-formed sequence of units is the encoding of what it decodes to. */
  lemma {:induction false} Decode16Encodes(s: seq<Unit16>)
    requires Decode16(s).Some?
    ensures Scalars(Decode16(s).value) && Encode16(Decode16(s).value) == s
  {
    if s != [] {
      hide Units, PairOf, Encode16;
      if High(s[0]) {
        Decode16Encodes(s[2..]);
        UnitsOfPair(s[0], s[1]);
        EncodeFirst(PairOf(s[0], s[1]), Decode16(s[2..]).value);
        assert s == [s[0], s[1]] + s[2..];
      } else {
        Decode16Encodes(s[1..]);
        UnitsOfOne(s[0]);
        EncodeFirst(s[0], Decode16(s[1..]).value);
        assert s == [s[0]] + s[1..];
      }
    } else {
      assert Encode16([]) == [];
    }
  }

  /** What the code reads: a lone low surrogate passes as a code point. */
  function Points(s: seq<Unit16>): (r: Result<seq<nat>>)
    ensures r.Ok? ==> InRange(r.value)
  {
    if s == [] then Ok([])
    else if High(s[0]) && |s| == 1 then Err(Truncated)
    else if High(s[0]) && !Low16(s[1]) then Err(Malformed)
    else
      var (c, n) := if High(s[0]) then (PairOf(s[0], s[1]), 2) else (s[0], 1);
      var rest := Points(s[n..]);
      if rest.Ok? then Ok([c] + rest.value) else rest
  }

  /** A high surrogate without a low one behind it. */
  predicate Broken(s: seq<Unit16>, i: nat) {
    i < |s| && High(s[i]) && (i + 1 < |s| ==> !Low16(s[i + 1]))
  }

  /** A low surrogate without a high one before it. */
  predicate LoneLow(s: seq<Unit16>, i: nat) {
    i < |s| && Low16(s[i]) && (i > 0 ==> !High(s[i - 1]))
  }

  /** The code reports an error exactly when some high surrogate has no low one behind it; it is
      Truncated exactly when the only such one ends the input. */
  lemma {:induction false} ErrorsAreBrokenPairs(s: seq<Unit16>)
    ensures Points(s).Err? <==> exists i: nat :: Broken(s, i)
    ensures Points(s) == Err(Truncated)
            <==> |s| > 0 && Broken(s, |s| - 1) && forall i: nat :: Broken(s, i) ==> i == |s| - 1
    ensures Points(s) != Err(NotACodePoint)
  {
    if s != [] {
      if Broken(s, 0) {
      } else {
        var n := if High(s[0]) then 2 else 1;
        ErrorsAreBrokenPairs(s[n..]);
        assert forall i: nat :: Broken(s, i) ==> i >= n && Broken(s[n..], i - n);
        assert forall i: nat :: Broken(s[n..], i) ==> Broken(s, i + n);
      }
    }
  }

  /** Well-formed input is read as RFC 2781 says; other input that is accepted holds a lone low
      surrogate and yields a text with a surrogate in it. */
  lemma {:induction false} PointsAreDecode16(s: seq<Unit16>)
    ensures Decode16(s).Some? ==> Points(s) == Ok(Decode16(s).value) && Scalars(Decode16(s).value)
    ensures Decode16(s).None? && Points(s).Ok? ==> !Scalars(Points(s).value)
  {
    if s != [] && !Broken(s, 0) {
      var n := if High(s[0]) then 2 else 1;
      PointsAreDecode16(s[n..]);
      if Points(s).Ok? {
        var rest := Points(s[n..]).value;
        assert Points(s).value[1..] == rest;
        assert Scalars(Points(s).value) <==> Scalar(Points(s).value[0]) && Scalars(rest);
      }
    }
  }

  lemma {:induction false} WellFormedHasNoLoneLow(s: seq<Unit16>)
    requires Points(s).Ok?
    ensures Decode16(s).None? <==> exists i: nat :: LoneLow(s, i)
  {
    if s != [] {
      if LoneLow(s, 0) {
      } else {
        var n := if High(s[0]) then 2 else 1;
        WellFormedHasNoLoneLow(s[n..]);
        assert forall i: nat :: LoneLow(s, i) ==> i >= n && LoneLow(s[n..], i - n);
        assert forall i: nat :: LoneLow(s[n..], i) ==> LoneLow(s, i + n);
      }
    }
  }

  /** What is read in all, after the code points read so far. */
  function After(read: seq<nat>, r: Result<seq<nat>>): Result<seq<nat>> {
    if r.Ok? then Ok(read + r.value) else r
  }

  lemma AfterNothing(r: Result<seq<nat>>)
    ensures After([], r) == r
  {
    assert r.Ok? ==> [] + r.value == r.value;
  }

  /** Reading goes on by one code point, of n units. */
  lemma {:induction false} PointsGoOn(read: seq<nat>, s: seq<Unit16>, n: nat)
    requires 0 < n <= |s| && !Broken(s, 0) && n == if High(s[0]) then 2 else 1
    ensures var c := if n == 2 then PairOf(s[0], s[1]) else s[0];
            c <= 0x10FFFF && After(read, Points(s)) == After(read + [c], Points(s[n..]))
  {
    var c := if n == 2 then PairOf(s[0], s[1]) else s[0];
    var rest := Points(s[n..]);
    assert rest.Ok? ==> read + ([c] + rest.value) == read + [c] + rest.value;
  }

  lemma PointsStop(read: seq<nat>, s: seq<Unit16>)
    requires s != [] && Broken(s, 0)
    ensures After(read, Points(s)) == Err(if |s| == 1 then Truncated else Malformed)
  {
  }

  lemma PointsEnd(read: seq<nat>)
    ensures After(read, Points([])) == Ok(read)
  {
    assert read + [] == read;
  }

  lemma ReadsEncoded(input: seq<Unit16>)
    ensures forall cs :: Scalars(cs) && Encode16(cs) == input ==> Points(input) == Ok(cs)
  {
    forall cs | Scalars(cs) && Encode16(cs) == input ensures Points(input) == Ok(cs) {
      Encode16Decodes(cs);
      PointsAreDecode16(input);
    }
  }

  method FromUtf16(input: seq<Unit16>) returns (r: Result<seq<Byte>>)
    ensures match Points(input)
            case Ok(cs) => r == Ok(Encode(cs))
            case Err(e) => r == Err(e)
    ensures forall cs :: Scalars(cs) && Encode16(cs) == input ==> r == Ok(Encode(cs))
  {
    hide Octets, Encode, Points, After, Encode16, Scalar;
    ReadsEncoded(input);
    var res: seq<Byte> := [];
    ghost var read: seq<nat> := [];
    EncodeNothing();
    AfterNothing(Points(input));
    assert input[0..] == input;
    var i := 0;
    while i < |input|
      invariant 0 <= i <= |input|
      invariant InRange(read) && res == Encode(read)
      invariant Points(input) == After(read, Points(input[i..]))
    {
      var codepoint: int;
      ghost var s := input[i..];
      var highSurrogate: int := input[i];
      if highSurrogate >= 0xD800 && highSurrogate <= 0xDBFF {
        i := i + 1;
        if i >= |input| {
          PointsStop(read, s);
          return Err(Truncated);
        }
        var lowSurrogate: int := input[i];
        if lowSurrogate < 0xDC00 || lowSurrogate > 0xDFFF {
          PointsStop(read, s);
          return Err(Malformed);
        }
        codepoint := 0x10000 + ((highSurrogate - 0xD800) * 0x400 + (lowSurrogate - 0xDC00));
        PointsGoOn(read, s, 2);
        assert s[2..] == input[i + 1..];
      } else {
        codepoint := highSurrogate;
        PointsGoOn(read, s, 1);
        assert s[1..] == input[i + 1..];
      }
      EncodeAppend(read, codepoint);
      read := read + [codepoint];
      res := AppendOctets(res, codepoint);
      i := i + 1;
    }
    assert input[i..] == [];
    PointsEnd(read);
    return Ok(res);
  }

  /** The branches agree: well-formed UTF-16 gives the octets that the UTF-32 branch gives for the
      code points it stands for, and they decode to those code points. Input outside UTF-16 is either
      refused, or holds a lone low surrogate and gives octets that are not UTF-8. */
  lemma {:induction false} BranchesAgree(s: seq<Unit16>)
    ensures match Decode16(s)
            case Some(cs) =>
              Points(s) == Ok(cs) && Scalars(cs) && Encode16(cs) == s && Decode(Encode(cs)) == Some(cs)
            case None => Points(s).Ok? ==> Decode(Encode(Points(s).value)) == None && exists i: nat :: LoneLow(s, i)
  {
    PointsAreDecode16(s);
    if Decode16(s).Some? {
      Decode16Encodes(s);
    }
    if Points(s).Ok? {
      EncodeDecodes(Points(s).value);
      WellFormedHasNoLoneLow(s);
    }
  }

  /** The face U+1F600, in both encodings. */
  lemma GrinningFace()
    ensures Decode16([0xD83D, 0xDE00]) == Some([0x1F600]) && Encode([0x1F600]) == [0xF0, 0x9F, 0x98, 0x80]
  {
    var units: seq<Unit16> := [0xD83D, 0xDE00];
    assert units[2..] == [] && PairOf(0xD83D, 0xDE00) == 0x1F600;
    assert Decode16(units[2..]) == Some([]);
    var points: seq<nat> := [0x1F600];
    assert points[1..] == [] && Octets(0x1F600) == [0xF0, 0x9F, 0x98, 0x80];
    EncodeNothing();
    assert points + [] == points && Octets(0x1F600) + [] == Octets(0x1F600);
    assert Decode16(units) == Prepend(0x1F600, Some([])) == Some(points);
    assert Encode(points) == Octets(0x1F600) + [];
  }

  lemma LoneLowIsEncoded()
    ensures Points([0xDC00]) == Ok([0xDC00]) && Encode([0xDC00]) == [0xED, 0xB0, 0x80]
    ensures Decode([0xED, 0xB0, 0x80]) == None
  {
    var units: seq<Unit16> := [0xDC00];
    assert units[1..] == [];
    PointsGoOn([], units, 1);
    PointsEnd([0xDC00]);
    AfterNothing(Points(units));
    var points: seq<nat> := [0xDC00];
    assert points[1..] == [];
  }
}
