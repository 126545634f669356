/** The compile-time hash map: bucket partition under a random seed, the two-level table with
    its tagged words, and the lookup that CHashMap::find makes through it. */
module PerfectHash {
  import opened Options
  import opened Words
  import HashBits

  const HIGH_MASK: nat := 0x8000_0000_0000_0000
  // static_cast<std::size_t>(-1), the mark of an empty slot of H
  const ILLEGAL: nat := 0xFFFF_FFFF_FFFF_FFFF

  // ---------------------------------------------------------------- tagged words

  /** A 64-bit word whose top digit says whether the rest is a seed or an index. */
  datatype SeedOrIndex = SeedOrIndex(val: nat) {
    static function Make(isSeed: bool, seedOrIndex: nat): SeedOrIndex {
      SeedOrIndex(Or(seedOrIndex, if isSeed then HIGH_MASK else 0))
    }

    predicate IsSeed() {
      val / HIGH_MASK % 2 == 1
    }

    function GetSeed(): nat {
      Xor(val, HIGH_MASK)
    }

    function GetIndex(): nat {
      val
    }

    function Payload(): nat {
      if IsSeed() then GetSeed() else GetIndex()
    }
  }

  lemma OrWithOne()
    ensures Or(0, 1) == Or(1, 1) == Xor(0, 1) == 1
  {
    assert Or(0, 0) == 0;
  }

  lemma {:induction false} OrTopDigit(x: nat, n: nat)
    requires x < Pow2(n)
    ensures Or(x, Pow2(n)) == x + Pow2(n) == Or(x + Pow2(n), Pow2(n))
    ensures Xor(x, Pow2(n)) == x + Pow2(n)
  {
    hide Or, Xor;
    if n == 0 {
      OrWithOne();
    } else {
      OrTopDigit(x / 2, n - 1);
      OrDigits(x, Pow2(n));
      OrDigits(x + Pow2(n), Pow2(n));
      XorDigits(x, Pow2(n));
    }
  }

  lemma TopDigitOf(v: nat)
    requires v < WORD
    ensures v / HIGH_MASK % 2 == 1 <==> v >= HIGH_MASK
  {
  }

  lemma TopDigitArithmetic(x: nat)
    requires x < HIGH_MASK
    ensures Or(x, HIGH_MASK) == x + HIGH_MASK == Or(x + HIGH_MASK, HIGH_MASK)
    ensures Xor(x, HIGH_MASK) == x + HIGH_MASK && Xor(x + HIGH_MASK, HIGH_MASK) == x
  {
    assert Pow2(63) == HIGH_MASK by {
      Pow2Values();
      assert Pow2(64) == 2 * Pow2(63);
    }
    hide Or, Xor, Pow2;
    OrTopDigit(x, 63);
    XorTwice(x, HIGH_MASK);
  }

  /** The tag and the payload survive exactly when the payload leaves the top digit free;
      32-bit seeds and item indices always do. */
  lemma TagRoundTrip(isSeed: bool, x: nat)
    requires x < WORD
    ensures x < HIGH_MASK <==>
              SeedOrIndex.Make(isSeed, x).IsSeed() == isSeed && SeedOrIndex.Make(isSeed, x).Payload() == x
  {
    hide Or, Xor;
    var made := SeedOrIndex.Make(isSeed, x);
    OrZero(x);
    if x < HIGH_MASK {
      TopDigitArithmetic(x);
      assert made.val == if isSeed then x + HIGH_MASK else x;
    } else {
      TopDigitArithmetic(x - HIGH_MASK);
      assert made.val == x;
    }
    TopDigitOf(made.val);
  }

  // ---------------------------------------------------------------- CVector

  /** The fixed-capacity vector that holds the slots of the seed under trial. */
  class CVector {
    const data: array<nat>
    var dIdx: nat

    ghost predicate Valid()
      reads this
    {
      dIdx <= data.Length
    }

    ghost function Contents(): seq<nat>
      reads this, data
      requires Valid()
    {
      data[..dIdx]
    }

    constructor (capacity: nat)
      ensures Valid() && fresh(data) && data.Length == capacity && Contents() == []
    {
      data := new nat[capacity];
      dIdx := 0;
    }

    /** end() lies one past the past-the-end position. */
    function End(): nat
      reads this
    {
      dIdx + 1
    }

    /** The first position of v, or end(). */
    method Find(v: nat) returns (it: nat)
      requires Valid()
      ensures it == End() <==> v !in Contents()
      ensures it != End() ==> it < |Contents()| && Contents()[it] == v && v !in Contents()[..it]
      ensures End() == |Contents()| + 1
    {
      it := 0;
      while it < dIdx
        invariant it <= dIdx && v !in data[..it]
      {
        if data[it] == v {
          assert Contents()[it] == v;
          return;
        }
        it := it + 1;
      }
      it := End();
    }

    method PushBack(v: nat)
      requires Valid() && dIdx < data.Length
      modifies this`dIdx, data
      ensures Valid() && Contents() == old(Contents()) + [v]
    {
      data[dIdx] := v;
      dIdx := dIdx + 1;
    }

    method Clear()
      modifies this`dIdx
      ensures Valid() && Contents() == []
    {
      dIdx := 0;
    }
  }

  // ---------------------------------------------------------------- buckets

  /** The pseudo-random generator handed to the build: any stream of 32-bit words. */
  class Prg {
    const stream: nat -> nat
    var pos: nat

    constructor (stream: nat -> nat)
      ensures this.stream == stream && pos == 0
    {
      this.stream := stream;
      pos := 0;
    }

    method Next() returns (seed: nat)
      modifies this`pos
      ensures seed == stream(old(pos)) && pos == old(pos) + 1
    {
      seed := stream(pos);
      pos := pos + 1;
    }
  }

  ghost predicate Seeds32(prg: Prg) {
    forall k :: prg.stream(k) < 0x1_0000_0000
  }

  function Slot<K>(hash: (K, nat) -> nat, key: K, seed: nat, m: nat): (s: nat)
    requires m > 0
    ensures s < m
  {
    hash(key, seed) % m
  }

  /** internal::log, the number of binary digits. */
  method Log(v: nat) returns (res: nat)
    ensures res == BitLen(v)
  {
    res := 0;
    var rest := v;
    while rest > 0
      invariant res + BitLen(rest) == BitLen(v)
    {
      res := res + 1;
      rest := rest / 2;
    }
  }

  function BucketMax(m: nat): nat {
    2 * Pow2(BitLen(m) / 2)
  }

  /** The capacity of a bucket, by the loop of internal::log. */
  method BucketCapacity(m: nat) returns (c: nat)
    ensures c == BucketMax(m)
  {
    var digits := Log(m);
    c := 2 * Pow2(digits / 2);
  }

  /** The capacity is within a constant of the square root of the table size. */
  lemma BucketMaxIsRootSized(m: nat)
    requires m > 0
    ensures 2 * m < BucketMax(m) * BucketMax(m) <= 8 * m
  {
    hide Pow2, BitLen;
    var len := BitLen(m);
    var half := len / 2;
    BitLenBounds(m);
    Pow2Sum(half, half);
    TwiceSquared(Pow2(half), Pow2(half + half));
    HashBits.Pow2Doubles(len - 1);
    assert half + half == len || half + half == len - 1;
  }

  lemma TwiceSquared(p: nat, square: nat)
    requires square == p * p
    ensures (2 * p) * (2 * p) == 4 * square
  {
  }

  /** The indices below n that the seed sends to bucket b, in increasing order. */
  ghost function Members<K>(items: seq<K>, hash: (K, nat) -> nat, seed: nat, m: nat, n: nat, b: nat): seq<nat>
    requires m > 0 && n <= |items|
  {
    if n == 0 then []
    else
      Members(items, hash, seed, m, n - 1, b) + (if Slot(hash, items[n - 1], seed, m) == b then [n - 1] else [])
  }

  lemma {:induction false} MembersExact<K>(items: seq<K>, hash: (K, nat) -> nat, seed: nat, m: nat, n: nat, b: nat)
    requires m > 0 && n <= |items|
    ensures forall i: nat :: i in Members(items, hash, seed, m, n, b)
                        <==> i < n && Slot(hash, items[i], seed, m) == b
    ensures forall j, k :: 0 <= j < k < |Members(items, hash, seed, m, n, b)| ==>
                             Members(items, hash, seed, m, n, b)[j] < Members(items, hash, seed, m, n, b)[k]
  {
    if n > 0 {
      MembersExact(items, hash, seed, m, n - 1, b);
      var p := Members(items, hash, seed, m, n - 1, b);
      forall j | 0 <= j < |p| ensures p[j] < n - 1 {
        assert p[j] in p;
      }
    }
  }

  lemma {:induction false} MembersGrow<K>(items: seq<K>, hash: (K, nat) -> nat, seed: nat, m: nat,
                                          n: nat, n': nat, b: nat)
    requires m > 0 && n <= n' <= |items|
    ensures |Members(items, hash, seed, m, n, b)| <= |Members(items, hash, seed, m, n', b)|
  {
    if n < n' {
      MembersGrow(items, hash, seed, m, n, n' - 1, b);
    }
  }

  ghost predicate Overflows<K>(items: seq<K>, hash: (K, nat) -> nat, seed: nat, m: nat)
    requires m > 0
  {
    exists b: nat :: b < m && |Members(items, hash, seed, m, |items|, b)| > BucketMax(m)
  }

  ghost predicate Partition<K>(buckets: seq<seq<nat>>, items: seq<K>, hash: (K, nat) -> nat, seed: nat, m: nat)
    requires m > 0
  {
    && |buckets| == m
    && forall b: nat :: b < m ==>
         && buckets[b] == Members(items, hash, seed, m, |items|, b)
         && |buckets[b]| <= BucketMax(m)
  }

  /** The distributing loop of makeCPmhBucket: stops at the first bucket that is full. */
  method Distribute<K>(items: seq<K>, hash: (K, nat) -> nat, m: nat, seed: nat, buckets: array<seq<nat>>)
    returns (isNext: bool)
    requires 0 < m == buckets.Length && forall b :: 0 <= b < m ==> buckets[b] == []
    modifies buckets
    ensures isNext == Overflows(items, hash, seed, m)
    ensures !isNext <==> forall b: nat :: b < m ==> |Members(items, hash, seed, m, |items|, b)| <= BucketMax(m)
    ensures !isNext ==> Partition(buckets[..], items, hash, seed, m)
  {
    isNext := false;
    var capacity := BucketCapacity(m);
    var i := 0;
    while i < |items|
      invariant i <= |items|
      invariant forall b: nat :: b < m ==>
                  buckets[b] == Members(items, hash, seed, m, i, b) && |buckets[b]| <= BucketMax(m)
    {
      var b := Slot(hash, items[i], seed, m);
      if |buckets[b]| >= capacity {
        MembersGrow(items, hash, seed, m, i + 1, |items|, b);
        isNext := true;
        return;
      }
      buckets[b] := buckets[b] + [i];
      i := i + 1;
    }
  }

  /** makeCPmhBucket with at most fuel seeds drawn: the first seed under which no bucket
      overflows, and the partition it makes; none when every seed drawn overflows. */
  method MakeBuckets<K>(items: seq<K>, hash: (K, nat) -> nat, m: nat, prg: Prg, fuel: nat)
    returns (ok: bool, buckets: array<seq<nat>>, seed: nat)
    requires m > 0
    modifies prg`pos
    ensures fresh(buckets)
    ensures ok ==> Partition(buckets[..], items, hash, seed, m)
    ensures ok ==> old(prg.pos) < prg.pos <= old(prg.pos) + fuel && seed == prg.stream(prg.pos - 1)
    ensures !ok ==> prg.pos == old(prg.pos) + fuel
    ensures forall k :: old(prg.pos) <= k < (if ok then prg.pos - 1 else prg.pos) ==>
                          Overflows(items, hash, prg.stream(k), m)
  {
    buckets := new seq<nat>[m];
    seed := 0;
    ok := false;
    var tries := 0;
    while tries < fuel
      invariant tries <= fuel && prg.pos == old(prg.pos) + tries
      invariant forall k :: old(prg.pos) <= k < prg.pos ==> Overflows(items, hash, prg.stream(k), m)
      modifies prg`pos, buckets
    {
      forall b | 0 <= b < m {
        buckets[b] := [];
      }
      seed := prg.Next();
      tries := tries + 1;
      var isNext := Distribute(items, hash, m, seed, buckets);
      if !isNext {
        ok := true;
        return;
      }
    }
  }

  ghost predicate Distinct(s: seq<nat>) {
    forall j, k :: 0 <= j < k < |s| ==> s[j] != s[k]
  }

  ghost predicate Covers(order: seq<nat>, n: nat) {
    && (forall j :: 0 <= j < |order| ==> order[j] < n)
    && (forall b: nat :: b < n ==> b in order)
  }

  ghost predicate Descending(order: seq<nat>, sizes: seq<nat>)
    requires forall j :: 0 <= j < |order| ==> order[j] < |sizes|
  {
    forall j, k :: 0 <= j < k < |order| ==> sizes[order[j]] >= sizes[order[k]]
  }

  function Insert(order: seq<nat>, p: nat, x: nat): seq<nat>
    requires p <= |order|
  {
    order[..p] + [x] + order[p..]
  }

  lemma InsertCovers(order: seq<nat>, p: nat)
    requires p <= |order| && Covers(order, |order|) && Distinct(order)
    ensures Covers(Insert(order, p, |order|), |order| + 1) && Distinct(Insert(order, p, |order|))
  {
    var res := Insert(order, p, |order|);
    forall b: nat | b <= |order| ensures b in res {
      if b == |order| {
        assert res[p] == b;
      } else {
        assert b in order;
        assert order == order[..p] + order[p..];
      }
    }
  }

  lemma InsertDescends(order: seq<nat>, p: nat, x: nat, sizes: seq<nat>)
    requires p <= |order| && x < |sizes| && forall j :: 0 <= j < |order| ==> order[j] < |sizes|
    requires Descending(order, sizes)
    requires forall j :: 0 <= j < p ==> sizes[order[j]] >= sizes[x]
    requires p < |order| ==> sizes[order[p]] < sizes[x]
    ensures Descending(Insert(order, p, x), sizes)
  {
  }

  /** sortBucketRefArr: the buckets' indices, each once, with their sizes descending. The library
      sort is written out as an insertion sort. */
  method SortBucketRefArr(sizes: seq<nat>) returns (order: seq<nat>)
    ensures |order| == |sizes| && Covers(order, |sizes|) && Distinct(order) && Descending(order, sizes)
  {
    order := [];
    for i := 0 to |sizes|
      invariant |order| == i && Covers(order, i) && Distinct(order) && Descending(order, sizes)
    {
      var p := 0;
      while p < i && sizes[order[p]] >= sizes[i]
        invariant p <= i
        invariant forall j :: 0 <= j < p ==> sizes[order[j]] >= sizes[i]
      {
        p := p + 1;
      }
      InsertCovers(order, p);
      InsertDescends(order, p, i, sizes);
      order := Insert(order, p, i);
    }
  }

  // ---------------------------------------------------------------- the two-level table

  datatype CPmhTable = CPmhTable(rootSeed: nat, g: seq<SeedOrIndex>, h: seq<nat>) {
    ghost predicate Valid() {
      |g| == |h| && |g| > 0
    }

    function Lookup<K>(key: K, hash: (K, nat) -> nat): nat
      requires |g| == |h| && |g| > 0
    {
      var seedOrIdx := g[Slot(hash, key, rootSeed, |g|)];
      if seedOrIdx.IsSeed() then h[Slot(hash, key, seedOrIdx.GetSeed(), |g|)] else seedOrIdx.GetIndex()
    }
  }

  /** What a lookup reads, in plain numbers: the word at the key's place under the root seed; if its top digit is
      set, the rest of it is the seed of the key's place in the other table, else it is the index. */
  lemma LookupMeans<K>(t: CPmhTable, key: K, hash: (K, nat) -> nat)
    requires t.Valid()
    ensures var word := t.g[hash(key, t.rootSeed) % |t.g|].val;
            word < 0x1_0000_0000_0000_0000 ==>
              t.Lookup(key, hash) == if word < 0x8000_0000_0000_0000 then word
                                     else t.h[hash(key, word - 0x8000_0000_0000_0000) % |t.h|]
  {
    hide Or, Xor;
    var word := t.g[hash(key, t.rootSeed) % |t.g|].val;
    if word < WORD {
      TopDigitOf(word);
      if word >= HIGH_MASK {
        TopDigitArithmetic(word - HIGH_MASK);
      }
    }
  }

  ghost function Slots<K>(items: seq<K>, hash: (K, nat) -> nat, bucket: seq<nat>, seed: nat, m: nat): (s: seq<nat>)
    requires m > 0 && forall j :: 0 <= j < |bucket| ==> bucket[j] < |items|
    ensures |s| == |bucket| && forall j :: 0 <= j < |s| ==> s[j] < m
  {
    seq(|bucket|, j requires 0 <= j < |bucket| => Slot(hash, items[bucket[j]], seed, m))
  }

  ghost predicate Fits(slots: seq<nat>, h: seq<nat>)
    requires forall j :: 0 <= j < |slots| ==> slots[j] < |h|
  {
    && (forall j :: 0 <= j < |slots| ==> h[slots[j]] == ILLEGAL)
    && (forall j, k :: 0 <= j < k < |slots| ==> slots[j] != slots[k])
  }

  lemma FitsMeans<K>(items: seq<K>, hash: (K, nat) -> nat, bucket: seq<nat>, seed: nat, h: seq<nat>)
    requires |h| > 0 && forall j :: 0 <= j < |bucket| ==> bucket[j] < |items|
    ensures Fits(Slots(items, hash, bucket, seed, |h|), h) <==>
            && (forall j :: 0 <= j < |bucket| ==> h[hash(items[bucket[j]], seed) % |h|] == ILLEGAL)
            && forall j, k :: 0 <= j < k < |bucket| ==>
                 hash(items[bucket[j]], seed) % |h| != hash(items[bucket[k]], seed) % |h|
  {
    var slots := Slots(items, hash, bucket, seed, |h|);
    assert forall j :: 0 <= j < |bucket| ==> slots[j] == hash(items[bucket[j]], seed) % |h|;
  }

  /** One round of the seed search: a seed is taken exactly when it sends the bucket to free,
      pairwise different slots; tmp then holds them, and is empty otherwise. */
  method TrySeed<K>(items: seq<K>, hash: (K, nat) -> nat, bucket: seq<nat>, seed: nat, H: array<nat>, tmp: CVector)
    returns (taken: bool)
    requires H.Length > 0 && forall j :: 0 <= j < |bucket| ==> bucket[j] < |items|
    requires tmp.Valid() && tmp.Contents() == [] && |bucket| <= tmp.data.Length && tmp.data != H
    modifies tmp`dIdx, tmp.data
    ensures tmp.Valid()
    ensures taken <==> Fits(Slots(items, hash, bucket, seed, H.Length), H[..])
    ensures taken <==>
            && (forall j :: 0 <= j < |bucket| ==> H[hash(items[bucket[j]], seed) % H.Length] == ILLEGAL)
            && forall j, k :: 0 <= j < k < |bucket| ==>
                 hash(items[bucket[j]], seed) % H.Length != hash(items[bucket[k]], seed) % H.Length
    ensures tmp.Contents() == if taken then Slots(items, hash, bucket, seed, H.Length) else []
  {
    ghost var slots := Slots(items, hash, bucket, seed, H.Length);
    FitsMeans(items, hash, bucket, seed, H[..]);
    var i := 0;
    while i < |bucket|
      invariant i <= |bucket| && tmp.Valid() && tmp.Contents() == slots[..i]
      invariant Fits(slots[..i], H[..])
    {
      var idx := Slot(hash, items[bucket[i]], seed, H.Length);
      assert idx == slots[i];
      var it := tmp.Find(idx);
      if H[idx] != ILLEGAL || it != tmp.End() {
        assert !Fits(slots, H[..]) by {
          if H[idx] == ILLEGAL {
            assert slots[it] == slots[i] && it < i;
          } else {
            assert H[..][slots[i]] != ILLEGAL;
          }
        }
        tmp.Clear();
        taken := false;
        return;
      }
      forall j | 0 <= j < i ensures slots[j] != slots[i] {
        assert slots[j] in tmp.Contents();
      }
      tmp.PushBack(idx);
      i := i + 1;
    }
    assert slots[..i] == slots;
    taken := true;
  }

  /** What a finished bucket owes its members. */
  ghost predicate Served<K>(items: seq<K>, hash: (K, nat) -> nat, bucket: seq<nat>, g: SeedOrIndex, h: seq<nat>)
    requires |h| > 0 && forall j :: 0 <= j < |bucket| ==> bucket[j] < |items|
  {
    && (|bucket| == 1 ==> !g.IsSeed() && g.GetIndex() == bucket[0])
    && (|bucket| > 1 ==>
          && g.IsSeed()
          && forall j :: 0 <= j < |bucket| ==>
               h[Slots(items, hash, bucket, g.GetSeed(), |h|)[j]] == bucket[j])
  }

  /** Filling empty slots disturbs no finished bucket. */
  lemma ServedStays<K>(items: seq<K>, hash: (K, nat) -> nat, bucket: seq<nat>, g: SeedOrIndex,
                       h: seq<nat>, h': seq<nat>)
    requires |items| <= ILLEGAL && |h| == |h'| > 0
    requires forall j :: 0 <= j < |bucket| ==> bucket[j] < |items|
    requires Served(items, hash, bucket, g, h)
    requires forall x :: 0 <= x < |h| && h[x] != ILLEGAL ==> h'[x] == h[x]
    ensures Served(items, hash, bucket, g, h')
  {
  }

  /** H[tmp[i]] = bucket[i] for every i. */
  method Place(H: array<nat>, slots: array<nat>, bucket: seq<nat>)
    requires |bucket| <= slots.Length && H != slots
    requires forall j :: 0 <= j < |bucket| ==> slots[j] < H.Length
    requires Fits(slots[..|bucket|], H[..])
    modifies H
    ensures forall j :: 0 <= j < |bucket| ==> H[slots[j]] == bucket[j]
    ensures forall x :: 0 <= x < H.Length && x !in slots[..|bucket|] ==> H[x] == old(H[x])
  {
    ghost var s := slots[..|bucket|];
    for i := 0 to |bucket|
      invariant s == slots[..|bucket|]
      invariant forall j :: 0 <= j < i ==> H[s[j]] == bucket[j]
      invariant forall x :: 0 <= x < H.Length && x !in s[..i] ==> H[x] == old(H[x])
    {
      assert s[i] == slots[i];
      H[slots[i]] := bucket[i];
      assert s[..i + 1] == s[..i] + [s[i]];
    }
    assert s[..|bucket|] == s;
  }

  /** The seed search for one bucket: the first seed drawn that fits; tmp holds its slots. */
  method SearchSeed<K>(items: seq<K>, hash: (K, nat) -> nat, bucket: seq<nat>, H: array<nat>,
                       tmp: CVector, prg: Prg, fuel: nat)
    returns (ok: bool, seed: nat)
    requires H.Length > 0 && forall j :: 0 <= j < |bucket| ==> bucket[j] < |items|
    requires tmp.Valid() && tmp.Contents() == [] && |bucket| <= tmp.data.Length && tmp.data != H
    modifies tmp`dIdx, tmp.data, prg`pos
    ensures tmp.Valid()
    ensures ok ==> old(prg.pos) < prg.pos <= old(prg.pos) + fuel && seed == prg.stream(prg.pos - 1)
    ensures ok ==> tmp.Contents() == Slots(items, hash, bucket, seed, H.Length) && Fits(tmp.Contents(), H[..])
    ensures !ok ==> prg.pos == old(prg.pos) + fuel
    ensures forall k :: old(prg.pos) <= k < (if ok then prg.pos - 1 else prg.pos) ==>
                          !Fits(Slots(items, hash, bucket, prg.stream(k), H.Length), H[..])
  {
    hide Fits, Slots;
    ok := false;
    seed := 0;
    var tries := 0;
    while tries < fuel
      invariant tries <= fuel && prg.pos == old(prg.pos) + tries
      invariant tmp.Valid() && tmp.Contents() == []
      invariant forall k :: old(prg.pos) <= k < prg.pos ==>
                              !Fits(Slots(items, hash, bucket, prg.stream(k), H.Length), H[..])
    {
      seed := prg.Next();
      tries := tries + 1;
      ok := TrySeed(items, hash, bucket, seed, H, tmp);
      if ok {
        return;
      }
    }
  }

  /** The seed search and the placement of one bucket of several members. */
  method PlaceBucket<K>(items: seq<K>, hash: (K, nat) -> nat, bucket: seq<nat>, H: array<nat>,
                        capacity: nat, prg: Prg, fuel: nat)
    returns (ok: bool, g: SeedOrIndex)
    requires 1 < |bucket| <= capacity && H.Length > 0 && |items| <= ILLEGAL
    requires forall j :: 0 <= j < |bucket| ==> bucket[j] < |items|
    requires Seeds32(prg)
    modifies H, prg`pos
    ensures ok ==> Served(items, hash, bucket, g, H[..])
    ensures ok ==> forall x :: 0 <= x < H.Length ==> H[x] == old(H[x]) || (old(H[x]) == ILLEGAL && H[x] in bucket)
    ensures prg.pos >= old(prg.pos) + if ok then 1 else fuel
    ensures !ok ==> forall k :: old(prg.pos) <= k < old(prg.pos) + fuel ==>
                                  !Fits(Slots(items, hash, bucket, prg.stream(k), H.Length), old(H[..]))
  {
    var tmp := new CVector(capacity);
    var seed;
    g := SeedOrIndex(0);
    ok, seed := SearchSeed(items, hash, bucket, H, tmp, prg, fuel);
    if ok {
      g := SeedOrIndex.Make(true, seed);
      TagRoundTrip(true, seed);
      ghost var slots := tmp.Contents();
      assert |slots| == |bucket|;
      forall j | 0 <= j < |bucket| ensures tmp.data[j] == slots[j] {
      }
      Place(H, tmp.data, bucket);
      forall x | 0 <= x < H.Length ensures H[x] == old(H[x]) || (old(H[x]) == ILLEGAL && H[x] in bucket) {
        if x in slots {
          var j :| 0 <= j < |bucket| && slots[j] == x;
        }
      }
    }
  }

  ghost predicate Perfect<K>(table: CPmhTable, items: seq<K>, hash: (K, nat) -> nat) {
    && table.Valid()
    && forall i: nat :: i < |items| ==> table.Lookup(items[i], hash) == i
  }

  /** A table whose buckets are all served answers every item with its own index. */
  lemma AllServedIsPerfect<K>(items: seq<K>, hash: (K, nat) -> nat, buckets: seq<seq<nat>>, seed: nat,
                              g: seq<SeedOrIndex>, h: seq<nat>)
    requires |g| == |h| == |buckets| > 0 && Partition(buckets, items, hash, seed, |buckets|)
    requires forall b :: 0 <= b < |buckets| ==> forall j :: 0 <= j < |buckets[b]| ==> buckets[b][j] < |items|
    requires forall b :: 0 <= b < |buckets| ==> Served(items, hash, buckets[b], g[b], h)
    ensures Perfect(CPmhTable(seed, g, h), items, hash)
  {
    forall i: nat | i < |items| ensures CPmhTable(seed, g, h).Lookup(items[i], hash) == i {
      var b := Slot(hash, items[i], seed, |g|);
      MembersExact(items, hash, seed, |g|, |items|, b);
      var j :| 0 <= j < |buckets[b]| && buckets[b][j] == i;
      assert Served(items, hash, buckets[b], g[b], h);
      if |buckets[b]| > 1 {
        assert Slots(items, hash, buckets[b], g[b].GetSeed(), |h|)[j] == Slot(hash, items[i], g[b].GetSeed(), |h|);
      }
    }
  }

  /** Why a build can fail: one search drew fuel seeds in a row of which none would do, be it that each
      overflows some bucket, or that each sends the members of some bucket to slots that collide or are
      taken, in a table that holds other members only. */
  ghost predicate Exhausted<K>(items: seq<K>, hash: (K, nat) -> nat, m: nat, stream: nat -> nat,
                               lo: nat, hi: nat, fuel: nat)
    requires m > 0
  {
    || (lo + fuel <= hi && forall k :: lo <= k < lo + fuel ==> Overflows(items, hash, stream(k), m))
    || SomeBucketFails(items, hash, m, stream, lo, hi, fuel)
  }

  ghost predicate SomeBucketFails<K>(items: seq<K>, hash: (K, nat) -> nat, m: nat, stream: nat -> nat,
                                     lo: nat, hi: nat, fuel: nat)
    requires m > 0
  {
    exists from: nat, bucket, h :: lo <= from && from + fuel <= hi
                                   && NoneFits(items, hash, m, stream, from, fuel, bucket, h)
  }

  ghost predicate NoneFits<K>(items: seq<K>, hash: (K, nat) -> nat, m: nat, stream: nat -> nat,
                              from: nat, fuel: nat, bucket: seq<nat>, h: seq<nat>)
    requires m > 0
  {
    && |h| == m && |bucket| > 1 && Distinct(bucket) && (forall j :: 0 <= j < |bucket| ==> bucket[j] < |items|)
    && (forall x :: 0 <= x < m ==> h[x] == ILLEGAL || (h[x] < |items| && h[x] !in bucket))
    && forall k :: from <= k < from + fuel ==> !Fits(Slots(items, hash, bucket, stream(k), m), h)
  }

  lemma BucketFails<K>(items: seq<K>, hash: (K, nat) -> nat, m: nat, stream: nat -> nat,
                       lo: nat, from: nat, hi: nat, fuel: nat, bucket: seq<nat>, h: seq<nat>)
    requires m > 0 && lo <= from && from + fuel <= hi
    requires |h| == m && |bucket| > 1 && Distinct(bucket) && forall j :: 0 <= j < |bucket| ==> bucket[j] < |items|
    requires forall x :: 0 <= x < m ==> h[x] == ILLEGAL || (h[x] < |items| && h[x] !in bucket)
    requires forall k :: from <= k < from + fuel ==> !Fits(Slots(items, hash, bucket, stream(k), m), h)
    ensures SomeBucketFails(items, hash, m, stream, lo, hi, fuel)
  {
    hide Fits, Slots;
    assert NoneFits(items, hash, m, stream, from, fuel, bucket, h);
  }

  lemma ServedAlone<K>(items: seq<K>, hash: (K, nat) -> nat, bucket: seq<nat>, g: SeedOrIndex, h: seq<nat>)
    requires |h| > 0 && |bucket| <= 1 && forall j :: 0 <= j < |bucket| ==> bucket[j] < |items|
    requires |bucket| == 1 ==> !g.IsSeed() && g.GetIndex() == bucket[0]
    ensures Served(items, hash, bucket, g, h)
  {
  }

  ghost predicate Apart(buckets: seq<seq<nat>>) {
    forall a, b :: 0 <= a < b < |buckets| ==> forall i :: i in buckets[a] ==> i !in buckets[b]
  }

  lemma PartitionIsApart<K>(buckets: seq<seq<nat>>, items: seq<K>, hash: (K, nat) -> nat, seed: nat)
    requires |buckets| > 0 && Partition(buckets, items, hash, seed, |buckets|)
    ensures Apart(buckets) && forall b :: 0 <= b < |buckets| ==> Distinct(buckets[b])
  {
    var m := |buckets|;
    forall b | 0 <= b < m ensures Distinct(buckets[b]) {
      MembersExact(items, hash, seed, m, |items|, b);
    }
    forall a, b | 0 <= a < b < m ensures forall i :: i in buckets[a] ==> i !in buckets[b] {
      MembersExact(items, hash, seed, m, |items|, a);
      MembersExact(items, hash, seed, m, |items|, b);
    }
  }

  /** The placing loop of makeCPmhTable over the sorted buckets. */
  method PlaceAll<K>(items: seq<K>, hash: (K, nat) -> nat, buckets: seq<seq<nat>>, order: seq<nat>,
                     prg: Prg, fuel: nat)
    returns (ok: bool, G: array<SeedOrIndex>, H: array<nat>)
    requires |buckets| > 0 && |items| < HIGH_MASK && Seeds32(prg)
    requires forall b :: 0 <= b < |buckets| ==> |buckets[b]| <= BucketMax(|buckets|)
    requires forall b, j :: 0 <= b < |buckets| && 0 <= j < |buckets[b]| ==> buckets[b][j] < |items|
    requires |order| == |buckets| && Covers(order, |buckets|) && Distinct(order)
    requires Apart(buckets) && forall b :: 0 <= b < |buckets| ==> Distinct(buckets[b])
    modifies prg`pos
    ensures G.Length == H.Length == |buckets|
    ensures ok ==> forall b :: 0 <= b < |buckets| ==> Served(items, hash, buckets[b], G[b], H[..])
    ensures ok ==> forall x :: 0 <= x < H.Length ==> H[x] == ILLEGAL || H[x] < |items|
    ensures prg.pos >= old(prg.pos)
    ensures !ok ==> SomeBucketFails(items, hash, |buckets|, prg.stream, old(prg.pos), prg.pos, fuel)
  {
    var m := |buckets|;
    hide Fits, Slots, Served, SomeBucketFails, Overflows;
    var capacity := BucketCapacity(m);
    G := new SeedOrIndex[m](_ => SeedOrIndex(0));
    H := new nat[m](_ => ILLEGAL);
    ok := true;
    for k := 0 to m
      invariant forall t :: 0 <= t < k ==> Served(items, hash, buckets[order[t]], G[order[t]], H[..])
      invariant forall x :: 0 <= x < m ==> H[x] == ILLEGAL || H[x] < |items|
      invariant forall x :: 0 <= x < m && H[x] != ILLEGAL ==> exists t :: 0 <= t < k && H[x] in buckets[order[t]]
      invariant prg.pos >= old(prg.pos)
    {
      var bucket := buckets[order[k]];
      ghost var before := H[..];
      if |bucket| == 1 {
        G[order[k]] := SeedOrIndex.Make(false, bucket[0]);
        TagRoundTrip(false, bucket[0]);
        ServedAlone(items, hash, bucket, G[order[k]], H[..]);
      } else if |bucket| > 1 {
        var g;
        ghost var from := prg.pos;
        ok, g := PlaceBucket(items, hash, bucket, H, capacity, prg, fuel);
        if !ok {
          HoldsOthersOnly(buckets, order, k, before);
          BucketFails(items, hash, m, prg.stream, old(prg.pos), from, prg.pos, fuel, bucket, before);
          return;
        }
        assert forall x :: 0 <= x < m && H[x] != ILLEGAL ==> before[x] == H[x] || H[x] in buckets[order[k]];
        G[order[k]] := g;
        forall t | 0 <= t < k ensures Served(items, hash, buckets[order[t]], G[order[t]], H[..]) {
          ServedStays(items, hash, buckets[order[t]], G[order[t]], before, H[..]);
        }
      } else {
        ServedAlone(items, hash, bucket, G[order[k]], H[..]);
      }
    }
    forall b | 0 <= b < m ensures Served(items, hash, buckets[b], G[b], H[..]) {
      assert b in order;
      var t :| 0 <= t < m && order[t] == b;
    }
  }

  lemma HoldsOthersOnly(buckets: seq<seq<nat>>, order: seq<nat>, k: nat, h: seq<nat>)
    requires |order| == |buckets| && Covers(order, |buckets|) && Distinct(order) && k < |order| && Apart(buckets)
    requires forall x :: 0 <= x < |h| && h[x] != ILLEGAL ==> exists t :: 0 <= t < k && h[x] in buckets[order[t]]
    ensures forall x :: 0 <= x < |h| ==> h[x] == ILLEGAL || h[x] !in buckets[order[k]]
  {
  }

  /** makeCPmhTable with at most fuel seeds for each search. Whatever the stream of seeds, a
      table that is returned is perfect, and its H holds item indices and empty marks only; none is
      returned only where one search found none of its seeds to do, and always where a key occurs twice. */
  method MakeTable<K>(items: seq<K>, hash: (K, nat) -> nat, m: nat, prg: Prg, fuel: nat)
    returns (res: Option<CPmhTable>)
    requires m > 0 && |items| < HIGH_MASK && Seeds32(prg)
    modifies prg`pos
    ensures res.Some? ==> |res.value.g| == m && Perfect(res.value, items, hash)
    ensures res.Some? ==> forall x :: 0 <= x < |res.value.h| ==> res.value.h[x] == ILLEGAL || res.value.h[x] < |items|
    ensures res.None? ==> Exhausted(items, hash, m, prg.stream, old(prg.pos), prg.pos, fuel)
    ensures (exists i, j :: 0 <= i < j < |items| && items[i] == items[j]) ==> res.None?
  {
    var ok, bucketArr, seed := MakeBuckets(items, hash, m, prg, fuel);
    if !ok {
      return None;
    }
    var buckets := bucketArr[..];
    forall b, j | 0 <= b < m && 0 <= j < |buckets[b]| ensures buckets[b][j] < |items| {
      MembersExact(items, hash, seed, m, |items|, b);
      assert buckets[b][j] in Members(items, hash, seed, m, |items|, b);
    }
    PartitionIsApart(buckets, items, hash, seed);
    var order := SortBucketRefArr(seq(m, b requires 0 <= b < m => |buckets[b]|));
    var G, H;
    ok, G, H := PlaceAll(items, hash, buckets, order, prg, fuel);
    if !ok {
      return None;
    }
    AllServedIsPerfect(items, hash, buckets, seed, G[..], H[..]);
    res := Some(CPmhTable(seed, G[..], H[..]));
    forall i: nat, j: nat | i < j < |items| ensures items[i] != items[j] {
      PerfectNeedsDistinctKeys(res.value, items, hash, i, j);
    }
  }

  /** Hence a build over a key that occurs twice never returns. */
  lemma PerfectNeedsDistinctKeys<K>(table: CPmhTable, items: seq<K>, hash: (K, nat) -> nat, i: nat, j: nat)
    requires Perfect(table, items, hash) && i < j < |items|
    ensures items[i] != items[j]
  {
    assert table.Lookup(items[i], hash) == i;
  }

  // ---------------------------------------------------------------- the map

  datatype CHashMap<!K(==), V> = CHashMap(data: seq<(K, V)>, pmhTable: CPmhTable) {
    ghost function Keys(): (keys: seq<K>)
      ensures |keys| == |data|
    {
      seq(|data|, i requires 0 <= i < |data| => data[i].0)
    }

    /** find: the position of the key, or nothing for end(). */
    function Find(key: K, hash: (K, nat) -> nat): Option<nat>
      requires |pmhTable.g| == |pmhTable.h| && |pmhTable.g| > 0
    {
      var index := pmhTable.Lookup(key, hash);
      if index < |data| && data[index].0 == key then Some(index) else None
    }
  }

  /** What find is a fast form of: the first position that holds the key. */
  function Scan<K(==), V>(data: seq<(K, V)>, key: K): Option<nat> {
    if data == [] then None
    else if data[0].0 == key then Some(0)
    else
      match Scan(data[1..], key)
      case None => None
      case Some(i) => Some(i + 1)
  }

  lemma {:induction false} ScanMeaning<K, V>(data: seq<(K, V)>, key: K)
    ensures Scan(data, key).Some? ==> Scan(data, key).value < |data| && data[Scan(data, key).value].0 == key
    ensures Scan(data, key).None? ==> forall i :: 0 <= i < |data| ==> data[i].0 != key
  {
    if data != [] {
      ScanMeaning(data[1..], key);
      forall i | 0 < i < |data| ensures data[i] == data[1..][i - 1] {
      }
    }
  }

  /** On every key, stored or not, the hashed lookup agrees with the scan. */
  lemma FindIsScan<K, V>(m: CHashMap<K, V>, hash: (K, nat) -> nat, key: K)
    requires Perfect(m.pmhTable, m.Keys(), hash)
    ensures m.Find(key, hash) == Scan(m.data, key)
  {
    ScanMeaning(m.data, key);
    if Scan(m.data, key).Some? {
      var i := Scan(m.data, key).value;
      assert m.Keys()[i] == key;
      assert m.pmhTable.Lookup(m.Keys()[i], hash) == i;
    }
  }

  /** The CHashMap constructor: table size, build, map. */
  method MakeCHashMap<K(==), V>(data: seq<(K, V)>, hash: (K, nat) -> nat, prg: Prg, fuel: nat)
    returns (res: Option<CHashMap<K, V>>)
    requires 0 < |data| < HIGH_MASK && Seeds32(prg)
    modifies prg`pos
    ensures res.Some? ==> res.value.data == data && Perfect(res.value.pmhTable, res.value.Keys(), hash)
    ensures res.Some? ==> |res.value.pmhTable.g| == Pow2(BitLen(|data| - 1))
    ensures res.None? ==> Exhausted(seq(|data|, i requires 0 <= i < |data| => data[i].0), hash,
                                    Pow2(BitLen(|data| - 1)), prg.stream, old(prg.pos), prg.pos, fuel)
  {
    var m := HashBits.NextHighestPowOfTow(|data|);
    var keys := seq(|data|, i requires 0 <= i < |data| => data[i].0);
    var table := MakeTable(keys, hash, m, prg, fuel);
    if table.None? {
      return None;
    }
    res := Some(CHashMap(data, table.value));
    assert res.value.Keys() == keys;
  }
}
