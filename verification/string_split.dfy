/** Splitting a string at a delimiter, with and without positions, and the case functions. */
module StringUtils {
  import opened Options
  import opened Words

  predicate OccursAt(str: string, delim: string, i: int) {
    0 <= i <= |str| - |delim| && str[i..i + |delim|] == delim
  }

  /** std::string_view::find, None for npos. */
  method Find(str: string, delim: string, start: nat) returns (r: Option<nat>)
    requires start <= |str|
    ensures r == First(str, delim, start)
  {
    var i := start;
    while i + |delim| <= |str|
      invariant start <= i && First(str, delim, start) == First(str, delim, i)
      decreases |str| - i
    {
      if str[i..i + |delim|] == delim {
        return Some(i);
      }
      i := i + 1;
    }
    return None;
  }

  function First(str: string, delim: string, start: nat): (r: Option<nat>)
    ensures r.Some? ==> start <= r.value && OccursAt(str, delim, r.value)
    ensures forall i: nat :: start <= i < (if r.Some? then r.value else |str| + 1) ==> !OccursAt(str, delim, i)
    decreases |str| - start
  {
    if start + |delim| > |str| then None
    else if OccursAt(str, delim, start) then Some(start)
    else First(str, delim, start + 1)
  }

  // ---------------------------------------------------------------- what splitting means

  datatype Part = Part(pos: nat, text: string)

  /** The parts from `start` on, each with its place in the string. */
  function Parts(str: string, delim: string, start: nat): (r: seq<Part>)
    requires start <= |str| && |delim| > 0
    ensures r != [] && r[0].pos == start
    decreases |str| - start
  {
    match First(str, delim, start)
    case None => [Part(start, str[start..])]
    case Some(end) => [Part(start, str[start..end])] + Parts(str, delim, end + |delim|)
  }

  function Texts(parts: seq<Part>): (r: seq<string>)
    ensures |r| == |parts| && forall i :: 0 <= i < |r| ==> r[i] == parts[i].text
  {
    if parts == [] then [] else Texts(parts[..|parts| - 1]) + [parts[|parts| - 1].text]
  }

  function NonEmpty(parts: seq<Part>): seq<Part> {
    if parts == [] then []
    else NonEmpty(parts[..|parts| - 1]) + (if parts[|parts| - 1].text != "" then [parts[|parts| - 1]] else [])
  }

  function Kept(parts: seq<Part>, skipEmpty: bool): seq<Part> {
    if skipEmpty then NonEmpty(parts) else parts
  }

  function Join(texts: seq<string>, delim: string): string {
    if texts == [] then ""
    else if |texts| == 1 then texts[0]
    else texts[0] + delim + Join(texts[1..], delim)
  }

  function EndOf(p: Part): nat { p.pos + |p.text| }

  predicate Located(str: string, p: Part) {
    EndOf(p) <= |str| && str[p.pos..EndOf(p)] == p.text
  }

  /** Each part stands where it says and ends at the next delimiter, and the next one starts behind
      that; the last one ends the string. */
  ghost predicate Tiles(str: string, delim: string, parts: seq<Part>, start: nat) {
    && parts != [] && parts[0].pos == start && Located(str, parts[0])
    && if |parts| == 1 then EndOf(parts[0]) == |str|
       else OccursAt(str, delim, EndOf(parts[0])) && Tiles(str, delim, parts[1..], EndOf(parts[0]) + |delim|)
  }

  lemma {:induction false} PartsTile(str: string, delim: string, start: nat)
    requires start <= |str| && |delim| > 0
    ensures Tiles(str, delim, Parts(str, delim, start), start)
    decreases |str| - start
  {
    hide First;
    var first := First(str, delim, start);
    if first.Some? {
      PartsTile(str, delim, first.value + |delim|);
      assert Parts(str, delim, start)[1..] == Parts(str, delim, first.value + |delim|);
    }
  }

  /** Nothing is split too late: the delimiter does not start anywhere in a part, also not so as to
      reach beyond it; in particular no part contains it. */
  lemma {:induction false} PartsAreClean(str: string, delim: string, start: nat, i: nat)
    requires start <= |str| && |delim| > 0 && i < |Parts(str, delim, start)|
    ensures forall k :: Parts(str, delim, start)[i].pos <= k < EndOf(Parts(str, delim, start)[i])
                        ==> !OccursAt(str, delim, k)
    ensures forall k :: !OccursAt(Parts(str, delim, start)[i].text, delim, k)
    decreases |str| - start
  {
    hide First;
    var first := First(str, delim, start);
    if i > 0 {
      PartsAreClean(str, delim, first.value + |delim|, i - 1);
    } else {
      var end := if first.Some? then first.value else |str|;
      assert str[start..] == str[start..|str|];
      assert Parts(str, delim, start)[0] == Part(start, str[start..end]);
      forall k | OccursAt(str[start..end], delim, k) ensures false {
        OccursInside(str, delim, start, end, k);
      }
    }
  }

  lemma OccursInside(str: string, delim: string, start: nat, end: nat, k: int)
    requires start <= end <= |str| && OccursAt(str[start..end], delim, k)
    ensures OccursAt(str, delim, start + k) && start + k + |delim| <= end
  {
    var part := str[start..end];
    assert part[k..k + |delim|] == delim;
    assert forall j :: 0 <= j < |delim| ==> delim[j] == str[start + k + j];
  }

  /** Joining the parts restores the string. */
  lemma {:induction false} JoinRestores(str: string, delim: string, start: nat)
    requires start <= |str| && |delim| > 0
    ensures Join(Texts(Parts(str, delim, start)), delim) == str[start..]
    decreases |str| - start
  {
    hide First, Texts, Parts, Join;
    PartsFrom(str, delim, start);
    var first := First(str, delim, start);
    if first.Some? {
      var end := first.value;
      var rest := Parts(str, delim, end + |delim|);
      JoinRestores(str, delim, end + |delim|);
      TextsCons(Part(start, str[start..end]), rest);
      JoinCons(str[start..end], Texts(rest), delim);
      CutAtDelim(str, start, end, |delim|);
    } else {
      TextsSingle(Part(start, str[start..]));
      JoinOne(str[start..], delim);
    }
  }

  lemma JoinOne(text: string, delim: string)
    ensures Join([text], delim) == text
  {
  }

  lemma TextsCons(p: Part, rest: seq<Part>)
    ensures Texts([p] + rest) == [p.text] + Texts(rest)
  {
    hide Texts;
  }

  lemma TextsSingle(p: Part)
    ensures Texts([p]) == [p.text]
  {
    hide Texts;
  }

  lemma JoinCons(text: string, rest: seq<string>, delim: string)
    requires rest != []
    ensures Join([text] + rest, delim) == text + delim + Join(rest, delim)
  {
    assert ([text] + rest)[1..] == rest;
  }

  lemma CutAtDelim(str: string, start: nat, end: nat, n: nat)
    requires start <= end && end + n <= |str|
    ensures str[start..] == str[start..end] + str[end..end + n] + str[end + n..]
  {
  }

  /** Positions strictly increase and locate each part, also when empty parts are left out. */
  lemma {:induction false} PositionsIncrease(str: string, delim: string, skipEmpty: bool)
    requires |delim| > 0
    ensures var r := Kept(Parts(str, delim, 0), skipEmpty);
            && (forall i :: 0 <= i < |r| ==> Located(str, r[i]))
            && (forall i, j :: 0 <= i < j < |r| ==> r[i].pos < r[j].pos)
            && (skipEmpty ==> forall i :: 0 <= i < |r| ==> r[i].text != "")
  {
    var parts := Parts(str, delim, 0);
    PartsTile(str, delim, 0);
    TilesIncrease(str, delim, parts, 0);
    if skipEmpty {
      NonEmptyKeepsOrder(str, parts);
    }
  }

  lemma {:induction false} TilesIncrease(str: string, delim: string, parts: seq<Part>, start: nat)
    requires |delim| > 0 && Tiles(str, delim, parts, start)
    ensures forall i :: 0 <= i < |parts| ==> Located(str, parts[i]) && start <= parts[i].pos
    ensures forall i, j :: 0 <= i < j < |parts| ==> parts[i].pos < parts[j].pos
  {
    if |parts| > 1 {
      TilesIncrease(str, delim, parts[1..], EndOf(parts[0]) + |delim|);
      assert forall i :: 1 <= i < |parts| ==> parts[i] == parts[1..][i - 1];
    }
  }

  lemma {:induction false} NonEmptyKeepsOrder(str: string, parts: seq<Part>)
    requires forall i :: 0 <= i < |parts| ==> Located(str, parts[i])
    requires forall i, j :: 0 <= i < j < |parts| ==> parts[i].pos < parts[j].pos
    ensures var r := NonEmpty(parts);
            && (forall i :: 0 <= i < |r| ==> r[i] in parts && r[i].text != "")
            && (forall i, j :: 0 <= i < j < |r| ==> r[i].pos < r[j].pos)
            && forall p :: p in parts && p.text != "" ==> p in r
  {
    if parts != [] {
      NonEmptyKeepsOrder(str, parts[..|parts| - 1]);
    }
  }

  // ---------------------------------------------------------------- the loops

  lemma {:induction false} NonEmptySplits(parts: seq<Part>, more: seq<Part>)
    ensures NonEmpty(parts + more) == NonEmpty(parts) + NonEmpty(more)
  {
    if more == [] {
      assert parts + more == parts;
    } else {
      assert (parts + more)[..|parts + more| - 1] == parts + more[..|more| - 1];
      NonEmptySplits(parts, more[..|more| - 1]);
    }
  }

  lemma KeptSplits(parts: seq<Part>, more: seq<Part>, skipEmpty: bool)
    ensures Kept(parts + more, skipEmpty) == Kept(parts, skipEmpty) + Kept(more, skipEmpty)
  {
    NonEmptySplits(parts, more);
  }

  lemma KeptOne(part: Part, skipEmpty: bool)
    ensures Kept([part], skipEmpty) == if skipEmpty && part.text == "" then [] else [part]
  {
    assert NonEmpty([part][..0]) == [];
  }

  lemma TextsOne(parts: seq<Part>, part: Part)
    ensures Texts(parts + [part]) == Texts(parts) + [part.text] && parts + [] == parts
  {
    assert (parts + [part])[..|parts|] == parts;
  }

  /** What has been added for the parts met, and what the rest of the string still gives. */
  ghost predicate Progress(str: string, delim: string, skipEmpty: bool, added: seq<Part>, start: nat)
    requires start <= |str| && |delim| > 0
  {
    added + Kept(Parts(str, delim, start), skipEmpty) == Kept(Parts(str, delim, 0), skipEmpty)
  }

  lemma PartsFrom(str: string, delim: string, start: nat)
    requires start <= |str| && |delim| > 0
    ensures Parts(str, delim, start) ==
            match First(str, delim, start)
            case None => [Part(start, str[start..])]
            case Some(end) => [Part(start, str[start..end])] + Parts(str, delim, end + |delim|)
  {
  }

  lemma GoOn(str: string, delim: string, skipEmpty: bool, added: seq<Part>, start: nat)
    requires start <= |str| && |delim| > 0 && Progress(str, delim, skipEmpty, added, start)
    ensures First(str, delim, start).Some? ==>
              var end := First(str, delim, start).value;
              Progress(str, delim, skipEmpty, added + Kept([Part(start, str[start..end])], skipEmpty), end + |delim|)
    ensures First(str, delim, start).None? ==>
              added + Kept([Part(start, str[start..])], skipEmpty) == Kept(Parts(str, delim, 0), skipEmpty)
  {
    hide First, Kept, Parts;
    PartsFrom(str, delim, start);
    if First(str, delim, start).Some? {
      var end := First(str, delim, start).value;
      OnePartOn(added, Part(start, str[start..end]), Parts(str, delim, end + |delim|), skipEmpty);
    }
  }

  lemma OnePartOn(added: seq<Part>, part: Part, rest: seq<Part>, skipEmpty: bool)
    ensures added + Kept([part] + rest, skipEmpty) == added + Kept([part], skipEmpty) + Kept(rest, skipEmpty)
  {
    hide Kept;
    KeptSplits([part], rest, skipEmpty);
    Associates(added, Kept([part], skipEmpty), Kept(rest, skipEmpty));
  }

  lemma Associates<T>(a: seq<T>, b: seq<T>, c: seq<T>)
    ensures a + (b + c) == a + b + c
  {
  }

  /** What was in the result before stays in front; the empty string adds nothing. */
  method SplitWithPos(str: string, delim: string, skipEmpty: bool, res: seq<Part>) returns (r: seq<Part>)
    requires |delim| > 0
    ensures r == res + if str == "" then [] else Kept(Parts(str, delim, 0), skipEmpty)
  {
    hide First, Kept, Parts, Progress;
    r := res;
    if str == "" {
      return;
    }
    ghost var added: seq<Part> := [];
    var start := 0;
    var end := Find(str, delim, start);
    Begin(str, delim, skipEmpty);
    while end.Some?
      invariant start <= |str| && end == First(str, delim, start)
      invariant r == res + added && Progress(str, delim, skipEmpty, added, start)
      decreases |str| - start
    {
      GoOn(str, delim, skipEmpty, added, start);
      ghost var part := Part(start, str[start..end.value]);
      KeptOne(part, skipEmpty);
      added := added + Kept([part], skipEmpty);
      if skipEmpty {
        var tk := str[start..end.value];
        if tk != "" {
          r := r + [Part(start, tk)];
        }
      } else {
        r := r + [Part(start, str[start..end.value])];
      }
      start := end.value + |delim|;
      end := Find(str, delim, start);
    }
    GoOn(str, delim, skipEmpty, added, start);
    KeptOne(Part(start, str[start..]), skipEmpty);
    if skipEmpty {
      var tk := str[start..];
      if tk != "" {
        r := r + [Part(start, tk)];
      }
    } else {
      r := r + [Part(start, str[start..])];
    }
  }

  method Split(str: string, delim: string, skipEmpty: bool, res: seq<string>) returns (r: seq<string>)
    requires |delim| > 0
    ensures r == res + if str == "" then [] else Texts(Kept(Parts(str, delim, 0), skipEmpty))
  {
    hide First, Kept, Parts, Progress, Texts;
    r := res;
    if str == "" {
      return;
    }
    ghost var added: seq<Part> := [];
    var start := 0;
    var end := Find(str, delim, start);
    Begin(str, delim, skipEmpty);
    while end.Some?
      invariant start <= |str| && end == First(str, delim, start)
      invariant r == res + Texts(added) && Progress(str, delim, skipEmpty, added, start)
      decreases |str| - start
    {
      GoOn(str, delim, skipEmpty, added, start);
      ghost var part := Part(start, str[start..end.value]);
      KeptOne(part, skipEmpty);
      TextsOne(added, part);
      added := added + Kept([part], skipEmpty);
      if skipEmpty {
        var tk := str[start..end.value];
        if tk != "" {
          r := r + [tk];
        }
      } else {
        r := r + [str[start..end.value]];
      }
      start := end.value + |delim|;
      end := Find(str, delim, start);
    }
    GoOn(str, delim, skipEmpty, added, start);
    KeptOne(Part(start, str[start..]), skipEmpty);
    TextsOne(added, Part(start, str[start..]));
    if skipEmpty {
      var tk := str[start..];
      if tk != "" {
        r := r + [tk];
      }
    } else {
      r := r + [str[start..]];
    }
  }

  lemma Begin(str: string, delim: string, skipEmpty: bool)
    requires |delim| > 0
    ensures Progress(str, delim, skipEmpty, [], 0)
  {
  }

  // ---------------------------------------------------------------- letter case

  type Byte = b: int | 0 <= b < 0x100

  predicate Bit(b: nat, n: nat) {
    if n == 0 then b % 2 == 1 else Bit(b / 2, n - 1)
  }

  lemma {:induction false} OrBit(b: nat, n: nat)
    ensures Or(b, Pow2(n)) == if Bit(b, n) then b else b + Pow2(n)
  {
    OrDigits(b, Pow2(n));
    if n > 0 {
      OrBit(b / 2, n - 1);
    } else {
      OrZero(b / 2);
    }
  }

  lemma {:induction false} AndBit(b: nat, m: nat, n: nat)
    requires n < m && Pow2(n) < Pow2(m) && b < Pow2(m)
    ensures And(b, Pow2(m) - 1 - Pow2(n)) == if Bit(b, n) then b - Pow2(n) else b
    ensures Bit(b, n) ==> b >= Pow2(n)
  {
    hide And, Low;
    AndDigits(b, Pow2(m) - 1 - Pow2(n));
    if n == 0 {
      AndOnes(b / 2, m - 1);
      LowBound(b / 2, m - 1);
      assert (Pow2(m) - 2) / 2 == Pow2(m - 1) - 1;
    } else {
      AndBit(b / 2, m - 1, n - 1);
      assert (Pow2(m) - 1 - Pow2(n)) / 2 == Pow2(m - 1) - 1 - Pow2(n - 1);
    }
  }

  lemma AndDigits(a: nat, b: nat)
    ensures And(a, b) == 2 * And(a / 2, b / 2) + (if a % 2 == 1 && b % 2 == 1 then 1 else 0)
  {
  }

  lemma Bit5(b: Byte)
    ensures Bit(b, 5) <==> b / 32 % 2 == 1
    ensures Or(b, 0x20) == if Bit(b, 5) then b else b + 0x20
    ensures And(b, 0xDF) == if Bit(b, 5) then b - 0x20 else b
  {
    hide Or, And, Pow2, Bit;
    BytePowers();
    OrBit(b, 5);
    AndBit(b, 8, 5);
    BitIsOdd(b);
  }

  lemma BytePowers()
    ensures Pow2(5) == 32 && Pow2(8) == 256
  {
  }

  lemma BitIsOdd(b: nat)
    ensures Bit(b, 5) <==> b / 32 % 2 == 1
  {
    BitDown(b, 5);
    BitDown(b / 2, 4);
    BitDown(b / 4, 3);
    BitDown(b / 8, 2);
    BitDown(b / 16, 1);
    assert b / 2 / 2 == b / 4 && b / 4 / 2 == b / 8 && b / 8 / 2 == b / 16 && b / 16 / 2 == b / 32;
  }

  lemma BitDown(b: nat, n: nat)
    requires 1 <= n <= 5
    ensures Bit(b, n) <==> Bit(b / 2, n - 1)
  {
  }

  function LowerLetter(b: Byte): Byte {
    if 0x41 <= b <= 0x5A then b + 0x20 else b
  }

  function UpperLetter(b: Byte): Byte {
    if 0x61 <= b <= 0x7A then b - 0x20 else b
  }

  /** Setting bit 5 lowers a capital letter, and is no change exactly where the bit is set already. */
  lemma LowersLetters(b: Byte)
    ensures Or(b, 0x20) == LowerLetter(b) <==> 0x41 <= b <= 0x5A || b / 32 % 2 == 1
  {
    Bit5(b);
  }

  lemma RaisesLetters(b: Byte)
    ensures And(b, 0xDF) == UpperLetter(b) <==> 0x61 <= b <= 0x7A || b / 32 % 2 == 0
  {
    Bit5(b);
  }

  /** toLower: eight bytes at a time, then the rest. Capital letters are lowered, and so is every byte
      with bit 5 clear. */
  method ToLower(str: array<Byte>)
    modifies str
    ensures forall i :: 0 <= i < str.Length ==> str[i] == Or(old(str[i]), 0x20)
    ensures (forall i :: 0 <= i < str.Length ==> str[i] == LowerLetter(old(str[i])))
            <==> forall i :: 0 <= i < str.Length ==> 0x41 <= old(str[i]) <= 0x5A || old(str[i]) / 32 % 2 == 1
  {
    hide Or, And, LowerLetter;
    var ec := str.Length / 8;
    for i := 0 to ec
      invariant forall k :: 0 <= k < 8 * i ==> str[k] == Or(old(str[k]), 0x20)
      invariant forall k :: 8 * i <= k < str.Length ==> str[k] == old(str[k])
    {
      for j := 0 to 8
        invariant forall k :: 0 <= k < 8 * i + j ==> str[k] == Or(old(str[k]), 0x20)
        invariant forall k :: 8 * i + j <= k < str.Length ==> str[k] == old(str[k])
      {
        Bit5(str[8 * i + j]);
        str[8 * i + j] := Or(str[8 * i + j], 0x20);
      }
    }
    for i := 0 to str.Length % 8
      invariant forall k :: 0 <= k < 8 * ec + i ==> str[k] == Or(old(str[k]), 0x20)
      invariant forall k :: 8 * ec + i <= k < str.Length ==> str[k] == old(str[k])
    {
      Bit5(str[8 * ec + i]);
      str[8 * ec + i] := Or(str[8 * ec + i], 0x20);
    }
    forall i | 0 <= i < str.Length
      ensures str[i] == LowerLetter(old(str[i])) <==> 0x41 <= old(str[i]) <= 0x5A || old(str[i]) / 32 % 2 == 1
    {
      LowersLetters(old(str[i]));
    }
  }

  /** toUpper: on a copy padded with zeros to a multiple of eight, then cut back to its length. Small
      letters are raised, and so is every byte with bit 5 set. */
  method ToUpper(str: seq<Byte>) returns (r: seq<Byte>)
    ensures |r| == |str| && forall i :: 0 <= i < |str| ==> r[i] == And(str[i], 0xDF)
    ensures (forall i :: 0 <= i < |str| ==> r[i] == UpperLetter(str[i]))
            <==> forall i :: 0 <= i < |str| ==> 0x61 <= str[i] <= 0x7A || str[i] / 32 % 2 == 0
  {
    hide Or, And, UpperLetter;
    if |str| == 0 {
      return str;
    }
    var len := |str| + 1;
    var alignlen := len + 8 - len % 8;
    ghost var padded := str + seq(alignlen - |str|, _ => 0);
    var buf := new Byte[alignlen](i requires 0 <= i => if i < |str| then str[i] else 0);
    for i := 0 to alignlen / 8
      invariant forall k :: 0 <= k < 8 * i ==> buf[k] == And(padded[k], 0xDF)
      invariant forall k :: 8 * i <= k < alignlen ==> buf[k] == padded[k]
    {
      for j := 0 to 8
        invariant forall k :: 0 <= k < 8 * i + j ==> buf[k] == And(padded[k], 0xDF)
        invariant forall k :: 8 * i + j <= k < alignlen ==> buf[k] == padded[k]
      {
        Bit5(buf[8 * i + j]);
        Bit5IsByte(buf[8 * i + j]);
        buf[8 * i + j] := And(buf[8 * i + j], 0xDF);
      }
    }
    r := buf[..len - 1];
    forall i | 0 <= i < |str|
      ensures r[i] == UpperLetter(str[i]) <==> 0x61 <= str[i] <= 0x7A || str[i] / 32 % 2 == 0
    {
      RaisesLetters(str[i]);
    }
  }

  lemma Bit5IsByte(b: Byte)
    ensures And(b, 0xDF) < 0x100
  {
    hide And, Bit;
    Bit5(b);
  }
}
