/** The two shared rings of io_uring. Their indices are free-running unsigned 32-bit counters; the
    absolute positions behind them are kept as ghost numbers that never wrap. */
module Rings {
  import opened Words

  const U32: nat := 0x1_0000_0000

  /** a - b on unsigned 32-bit words. */
  function Sub32(a: nat, b: nat): nat {
    (a - b) % U32
  }

  // The sizes that get_sq_cq_entries can produce: powers of two up to 2^17.
  ghost predicate RingSize(n: nat) {
    exists e: nat :: e <= 17 && n == Pow2(e)
  }

  lemma RingSizeBound(n: nat)
    requires RingSize(n)
    ensures 0 < n <= 0x2_0000
  {
    var e: nat :| e <= 17 && n == Pow2(e);
    Pow2Values();
    Pow2Sum(1, 16);
    Pow2Monotone(e, 17);
    assert Pow2(1) == 2;
  }

  /** counter & mask, where the mask is the ring size less one. */
  function Masked(counter: nat, entries: nat): nat
    requires entries > 0
  {
    And(counter, entries - 1)
  }

  lemma MaskedIsRemainder(p: nat, n: nat)
    requires RingSize(n)
    ensures n > 0 && Masked(p, n) == p % n < n
  {
    var e: nat :| e <= 17 && n == Pow2(e);
    AndOnes(p, e);
    LowIsRemainder(p, e);
  }

  /** Masking is blind to the wraparound of the counter, because the size divides 2^32. */
  lemma MaskedWraps(p: nat, n: nat)
    requires RingSize(n)
    ensures n > 0 && Masked(p % U32, n) == Masked(p, n) < n
  {
    var e: nat :| e <= 17 && n == Pow2(e);
    Pow2Values();
    Pow2Sum(e, 32 - e);
    RemainderTwice(p, n, Pow2(32 - e));
    MaskedIsRemainder(p % U32, n);
    MaskedIsRemainder(p, n);
  }

  lemma RemainderTwice(p: nat, n: nat, k: nat)
    requires n > 0 && k > 0 && n * k == U32
    ensures p % U32 % n == p % n
  {
    var q, r := p / U32, p % U32;
    var q', r' := r / n, r % n;
    assert p == (q * k + q') * n + r' by {
      assert p == q * U32 + r;
      assert q * U32 == q * k * n;
      assert r == q' * n + r';
    }
    RemainderOf(p, q * k + q', n, r');
  }

  /** The difference of two counters is the distance of their positions. */
  lemma CounterDistance(a: nat, b: nat)
    requires a <= b < a + U32
    ensures Sub32(b % U32, a % U32) == b - a
    ensures a % U32 == b % U32 <==> a == b
  {
  }

  lemma CounterNext(a: nat, d: nat)
    ensures (a % U32 + d) % U32 == (a + d) % U32
  {
  }

  lemma RemaindersDiffer(p: nat, q: nat, n: nat)
    requires n > 0 && p < q < p + n
    ensures p % n != q % n
  {
    var k := q / n - p / n;
    assert q - p == k * n + (q % n - p % n) by {
      assert q == n * (q / n) + q % n;
      assert p == n * (p / n) + p % n;
    }
    AtLeastOnce(k, n);
    AtLeastOnce(1 - k, n);
    assert (1 - k) * n == n - k * n;
  }

  /** Two positions of one window of the ring's size fall into different slots. */
  lemma SlotsDiffer(p: nat, q: nat, n: nat)
    requires RingSize(n) && p < q < p + n
    ensures n > 0 && Masked(p, n) != Masked(q, n)
  {
    hide RingSize, Masked;
    MaskedIsRemainder(p, n);
    MaskedIsRemainder(q, n);
    RemaindersDiffer(p, q, n);
  }

  lemma NoOtherSlot(lo: nat, p: nat, hi: nat, n: nat)
    requires RingSize(n) && lo <= p < hi <= lo + n
    ensures n > 0 && Masked(p, n) < n
    ensures forall q :: lo <= q < hi && q != p ==> Masked(q, n) != Masked(p, n)
  {
    MaskedIsRemainder(p, n);
    forall q | lo <= q < hi && q != p ensures Masked(q, n) != Masked(p, n) {
      if q < p {
        SlotsDiffer(q, p, n);
      } else {
        SlotsDiffer(p, q, n);
      }
    }
  }

  // ---------------------------------------------------------------- sizes

  datatype Setup = Setup(clamp: bool, cqSize: bool, cqEntries: nat)

  datatype Sizes = Invalid | Sizes(sq: nat, cq: nat)

  const KERN_MAX_ENTRIES: nat := 32768
  const KERN_MAX_CQ_ENTRIES: nat := 2 * KERN_MAX_ENTRIES

  /** roundup_pow2: 1 << fls(depth - 1). */
  function RoundupPow2(depth: nat): nat
    requires depth > 0
  {
    Pow2(BitLen(depth - 1))
  }

  lemma RoundupIsLeast(depth: nat, e: nat)
    requires depth > 0
    ensures depth <= RoundupPow2(depth)
    ensures depth <= Pow2(e) ==> RoundupPow2(depth) <= Pow2(e)
  {
    BitLenBounds(depth - 1);
    LeastPow2Above(depth - 1, e);
  }

  /** get_sq_cq_entries, branch by branch. */
  method GetSqCqEntries(entries: nat, p: Setup) returns (res: Sizes)
    // the error cases: an empty or oversized request, or a completion ring that even after
    // rounding is smaller than the submission ring
    ensures res.Invalid? <==>
            || entries == 0
            || (entries > 32768 && !p.clamp)
            || (p.cqSize && p.cqEntries == 0)
            || (p.cqSize && p.cqEntries > 65536 && !p.clamp)
            || (p.cqSize && 2 * p.cqEntries <= RoundupPow2(MinNat(entries, 32768)))
    ensures res.Sizes? ==> RingSize(res.sq) && RingSize(res.cq) && res.sq <= res.cq
    ensures res.Sizes? && !p.clamp ==> entries <= res.sq && (p.cqSize ==> p.cqEntries <= res.cq)
    // each the least power of two for the request, as far as it is granted
    ensures res.Sizes? ==> res.sq == RoundupPow2(MinNat(entries, 32768))
    ensures res.Sizes? ==> res.cq == if !p.cqSize then 2 * res.sq else RoundupPow2(MinNat(p.cqEntries, 65536))
  {
    if entries == 0 {
      return Invalid;
    }
    var n := entries;
    if n > KERN_MAX_ENTRIES {
      if !p.clamp {
        return Invalid;
      }
      n := KERN_MAX_ENTRIES;
    }
    var sq := RoundupPow2(n);
    RoundedSize(n);
    var cq;
    if p.cqSize {
      if p.cqEntries == 0 {
        return Invalid;
      }
      var c := p.cqEntries;
      if c > KERN_MAX_CQ_ENTRIES {
        if !p.clamp {
          return Invalid;
        }
        c := KERN_MAX_CQ_ENTRIES;
      }
      cq := RoundupPow2(c);
      RoundedSize(c);
      RoundedBelow(c, n);
      if cq < sq {
        return Invalid;
      }
    } else {
      cq := 2 * sq;
      assert cq == Pow2(BitLen(n - 1) + 1);
    }
    res := Sizes(sq, cq);
  }

  lemma RoundedSize(n: nat)
    requires 0 < n <= KERN_MAX_CQ_ENTRIES
    ensures RingSize(RoundupPow2(n)) && n <= RoundupPow2(n)
    ensures BitLen(n - 1) <= 16 && (n <= KERN_MAX_ENTRIES ==> RoundupPow2(n) <= KERN_MAX_ENTRIES)
  {
    Pow2Values();
    hide Pow2, BitLen;
    RoundupIsLeast(n, 15);
    RoundupIsLeast(n, 16);
    BitLenAtMost(n - 1, 16);
  }

  /** The rounded completion size is too small exactly when twice the request does not exceed
      the rounded submission size. */
  lemma RoundedBelow(c: nat, n: nat)
    requires c > 0 && n > 0
    ensures RoundupPow2(c) < RoundupPow2(n) <==> 2 * c <= RoundupPow2(n)
  {
    var e := BitLen(n - 1);
    if e > 0 {
      RoundupIsLeast(c, e - 1);
      assert Pow2(e) == 2 * Pow2(e - 1);
      if RoundupPow2(c) < Pow2(e) {
        if BitLen(c - 1) > e - 1 {
          Pow2Monotone(e, BitLen(c - 1));
        }
        Pow2Monotone(BitLen(c - 1), e - 1);
      }
    } else {
      RoundupIsLeast(c, 0);
    }
  }

  // ---------------------------------------------------------------- submission ring

  /** The submission side without SQPOLL. Entries in positions [hd, tl) are in use: [hd, fl) have
      been made visible to the kernel, [fl, tl) are handed out and not yet flushed. */
  class SubmissionRing<T(0)> {
    const ringEntries: nat
    const sqes: array<T>
    const sqArray: array<nat>
    var khead: nat
    var ktail: nat
    var sqeHead: nat
    var sqeTail: nat
    ghost var hd: nat
    ghost var fl: nat
    ghost var tl: nat

    ghost predicate Valid()
      reads this, sqArray
    {
      && RingSize(ringEntries) && sqes.Length == sqArray.Length == ringEntries
      && sqes as object != sqArray as object
      && hd <= fl <= tl <= hd + ringEntries
      && khead == hd % U32 && ktail == sqeHead == fl % U32 && sqeTail == tl % U32
      && forall k :: 0 <= k < ringEntries ==> sqArray[k] == k
    }

    /** The slot of an absolute position. */
    ghost function SlotOf(p: nat): nat
      requires ringEntries > 0
    {
      Masked(p, ringEntries)
    }

    ghost function Entry(p: nat): T
      reads sqes
      requires RingSize(ringEntries) && ringEntries == sqes.Length
    {
      MaskedIsRemainder(p, ringEntries);
      sqes[Masked(p, ringEntries)]
    }

    /** Everything handed out and not yet consumed, oldest first. */
    ghost function Pending(): (q: seq<T>)
      reads this, sqes, sqArray
      requires Valid()
      ensures |q| == tl - hd
    {
      seq(tl - hd, k requires 0 <= k < tl - hd && Valid() reads this, sqes, sqArray => Entry(hd + k))
    }

    /** Ring setup: all counters zero, the index array filled with the identity. */
    constructor (entries: nat)
      requires RingSize(entries)
      ensures Valid() && fresh(sqes) && fresh(sqArray) && ringEntries == entries && hd == fl == tl == 0
    {
      ringEntries := entries;
      RingSizeBound(entries);
      sqes := new T[entries];
      var arr := new nat[entries];
      sqArray := arr;
      khead, ktail, sqeHead, sqeTail := 0, 0, 0, 0;
      hd, fl, tl := 0, 0, 0;
      new;
      for index := 0 to entries
        invariant forall k :: 0 <= k < index ==> sqArray[k] == k
        invariant hd == fl == tl == 0 && khead == ktail == sqeHead == sqeTail == 0
        modifies sqArray
      {
        sqArray[index] := index;
      }
    }

    /** io_uring_get_sqe: a slot that no unconsumed entry uses, or none when the ring is full. */
    method GetSqe() returns (ok: bool, slot: nat)
      requires Valid()
      modifies this`sqeTail, this`tl
      ensures Valid() && ok == (|old(Pending())| < ringEntries)
      ensures !ok ==> tl == old(tl) && Pending() == old(Pending())
      ensures ok ==> slot < ringEntries && slot == SlotOf(old(tl)) && fl < tl == old(tl) + 1
      ensures ok ==> forall p :: hd <= p < old(tl) ==> SlotOf(p) != slot
      ensures ok ==> Pending() == old(Pending()) + [sqes[slot]]
    {
      hide Masked;
      RingSizeBound(ringEntries);
      MaskedWraps(tl, ringEntries);
      var next := (sqeTail + 1) % U32;
      CounterNext(tl, 1);
      CounterDistance(hd, tl + 1);
      slot := 0;
      if Sub32(next, khead) <= ringEntries {
        slot := Masked(sqeTail, ringEntries);
        NoOtherSlot(hd, tl, tl + 1, ringEntries);
        sqeTail := next;
        tl := tl + 1;
        assert Pending()[tl - 1 - hd] == Entry(tl - 1) == sqes[slot];
        ok := true;
      } else {
        ok := false;
      }
    }

    /** The caller writes the entry it was handed; only that element of the queue changes. */
    method Fill(slot: nat, v: T, ghost p: nat)
      requires Valid() && fl <= p < tl && slot == SlotOf(p)
      modifies sqes
      ensures Valid() && Pending() == old(Pending())[p - hd := v]
    {
      hide Masked;
      RingSizeBound(ringEntries);
      NoOtherSlot(hd, p, tl, ringEntries);
      sqes[slot] := v;
      forall k: nat | k < tl - hd && hd + k != p ensures Pending()[k] == old(Pending()[k]) {
        assert Masked(hd + k, ringEntries) != Masked(p, ringEntries);
        assert Pending()[k] == Entry(hd + k);
        assert old(Pending()[k]) == old(Entry(hd + k));
      }
      assert Pending()[p - hd] == Entry(hd + (p - hd)) == v;
    }

    /** __io_uring_flush_sq: all handed-out entries become visible; the number not yet consumed. */
    method FlushSq() returns (count: nat)
      requires Valid()
      modifies this`ktail, this`sqeHead, this`fl
      ensures Valid() && fl == tl && Pending() == old(Pending()) && count == |Pending()|
    {
      hide Masked;
      RingSizeBound(ringEntries);
      CounterDistance(fl, tl);
      CounterDistance(hd, tl);
      var tail := sqeTail;
      if sqeHead != tail {
        sqeHead := tail;
        ktail := tail;
      }
      fl := tl;
      count := Sub32(tail, khead);
    }

    /** io_uring_sq_ready and io_uring_sq_space_left. */
    method SqReady() returns (ready: nat, space: nat)
      requires Valid()
      ensures ready == |Pending()| && space == ringEntries - |Pending()|
    {
      hide Masked;
      RingSizeBound(ringEntries);
      CounterDistance(hd, tl);
      ready := Sub32(sqeTail, khead);
      space := Sub32(ringEntries, ready);
    }

    lemma VisibleIsPending()
      requires Valid()
      ensures hd <= fl <= tl && tl - hd == |Pending()| <= ringEntries && (khead != ktail <==> hd < fl)
    {
      RingSizeBound(ringEntries);
      CounterDistance(hd, fl);
    }

    /** The kernel's side: it takes the oldest flushed entry through the index array. */
    method KernelTake() returns (v: T)
      requires Valid() && khead != ktail
      modifies this`khead, this`hd
      ensures Valid() && v == old(Pending())[0] && Pending() == old(Pending())[1..]
      ensures hd == old(hd) + 1 && old(hd) < fl
    {
      hide Masked;
      RingSizeBound(ringEntries);
      MaskedWraps(hd, ringEntries);
      CounterDistance(hd, fl);
      CounterNext(hd, 1);
      v := sqes[sqArray[Masked(khead, ringEntries)]];
      assert Pending()[0] == Entry(hd + 0);
      khead := (khead + 1) % U32;
      hd := hd + 1;
      assert forall k :: 0 <= k < tl - hd ==> Pending()[k] == Entry(hd + k) == old(Pending())[k + 1];
    }
  }

  // ---------------------------------------------------------------- completion ring

  datatype Cqe = Cqe(userData: nat, res: int)

  // (__u64) -1
  const LIBURING_UDATA_TIMEOUT: nat := 0xFFFF_FFFF_FFFF_FFFF

  datatype Peeked = Peeked(err: int, cqe: Found, available: nat, rest: seq<Cqe>)

  datatype Found = Nothing | Found(cqe: Cqe)

  predicate InternalTimeout(c: Cqe, extArg: bool) {
    !extArg && c.userData == LIBURING_UDATA_TIMEOUT
  }

  /** What a peek reports for a ring holding q, and what it leaves there. */
  function PeekSpec(q: seq<Cqe>, extArg: bool): Peeked {
    if q == [] then Peeked(0, Nothing, 0, q)
    else if !InternalTimeout(q[0], extArg) then Peeked(0, Found(q[0]), |q|, q)
    else if q[0].res < 0 then Peeked(q[0].res, Nothing, |q|, q[1..])
    else PeekSpec(q[1..], extArg)
  }

  /** A peek drops a run of internal timeouts from the front and nothing else: up to the first other
      completion, which it reports, or up to the first one with an error, which it reports, or all. The number
      reported is the one left, with the one that is in error counted in. */
  lemma {:induction false} PeekDropsOnlyTimeouts(q: seq<Cqe>, extArg: bool) returns (n: nat)
    ensures n <= |q| && PeekSpec(q, extArg).rest == q[n..] && (extArg ==> n == 0)
    ensures forall k :: 0 <= k < n ==> q[k].userData == 0xFFFF_FFFF_FFFF_FFFF && (k < n - 1 ==> q[k].res >= 0)
    ensures match PeekSpec(q, extArg)
            case Peeked(err, Found(c), available, _) =>
              && err == 0 && n < |q| && c == q[n] && available == |q| - n && (n > 0 ==> q[n - 1].res >= 0)
              && (extArg || c.userData != 0xFFFF_FFFF_FFFF_FFFF)
            case Peeked(err, Nothing, available, _) =>
              if n > 0 && q[n - 1].res < 0 then err == q[n - 1].res && available == |q| - n + 1
              else err == 0 && available == 0 && n == |q|
  {
    n := 0;
    if q != [] && InternalTimeout(q[0], extArg) {
      if q[0].res < 0 {
        n := 1;
      } else {
        var k := PeekDropsOnlyTimeouts(q[1..], extArg);
        n := k + 1;
        assert q[1..][k..] == q[n..];
      }
    }
  }

  function MinNat(a: nat, b: nat): nat {
    if a < b then a else b
  }

  /** The completion side. The kernel keeps what does not fit in an overflow list. */
  class CompletionRing {
    const ringEntries: nat
    const cqes: array<Cqe>
    var khead: nat
    var ktail: nat
    var overflow: seq<Cqe>
    ghost var hd: nat
    ghost var tl: nat

    ghost predicate Valid()
      reads this
    {
      && RingSize(ringEntries) && cqes.Length == ringEntries
      && hd <= tl <= hd + ringEntries
      && khead == hd % U32 && ktail == tl % U32
    }

    ghost function Entry(p: nat): Cqe
      reads cqes
      requires RingSize(ringEntries) && ringEntries == cqes.Length
    {
      MaskedIsRemainder(p, ringEntries);
      cqes[Masked(p, ringEntries)]
    }

    /** The completions in the ring, oldest first. */
    ghost function Ready(): (q: seq<Cqe>)
      reads this, cqes
      requires Valid()
      ensures |q| == tl - hd
    {
      seq(tl - hd, k requires 0 <= k < tl - hd && Valid() reads this, cqes => Entry(hd + k))
    }

    /** The unbounded queue that ring and overflow list implement together. */
    ghost function Queue(): seq<Cqe>
      reads this, cqes
      requires Valid()
    {
      Ready() + overflow
    }

    constructor (entries: nat)
      requires RingSize(entries)
      ensures Valid() && fresh(cqes) && ringEntries == entries && hd == tl == 0 && overflow == []
    {
      ringEntries := entries;
      RingSizeBound(entries);
      cqes := new Cqe[entries](_ => Cqe(0, 0));
      khead, ktail := 0, 0;
      overflow := [];
      hd, tl := 0, 0;
    }

    method Store(c: Cqe)
      requires Valid() && tl < hd + ringEntries
      modifies this`ktail, this`tl, cqes
      ensures Valid() && Ready() == old(Ready()) + [c] && tl == old(tl) + 1
    {
      hide Masked;
      RingSizeBound(ringEntries);
      CounterNext(tl, 1);
      MaskedWraps(tl, ringEntries);
      NoOtherSlot(hd, tl, tl + 1, ringEntries);
      cqes[Masked(ktail, ringEntries)] := c;
      ktail := (ktail + 1) % U32;
      tl := tl + 1;
    }

    /** The kernel's side: a completion goes to the ring while there is room and nothing waits. */
    method KernelPost(c: Cqe)
      requires Valid()
      modifies this`ktail, this`tl, this`overflow, cqes
      ensures Valid() && Queue() == old(Queue()) + [c] && old(Ready()) <= Ready()
      ensures old(overflow) == [] && |old(Queue())| < ringEntries ==> overflow == []
    {
      hide Masked;
      RingSizeBound(ringEntries);
      CounterDistance(hd, tl);
      if overflow == [] && Sub32(ktail, khead) < ringEntries {
        Store(c);
      } else {
        overflow := overflow + [c];
      }
      assert Queue() == old(Queue()) + [c];
    }

    /** io_uring_get_events with an overflow list: the kernel moves what fits into the ring. */
    method GetEvents()
      requires Valid()
      modifies this`ktail, this`tl, this`overflow, cqes
      ensures Valid() && Queue() == old(Queue())
      ensures |Ready()| == ringEntries || overflow == []
    {
      hide Masked;
      RingSizeBound(ringEntries);
      CounterDistance(hd, tl);
      while overflow != [] && Sub32(ktail, khead) < ringEntries
        invariant Valid() && Queue() == old(Queue()) && Sub32(ktail, khead) == tl - hd
        decreases |overflow|
      {
        assert Ready() + overflow == (Ready() + [overflow[0]]) + overflow[1..];
        Store(overflow[0]);
        overflow := overflow[1..];
        CounterDistance(hd, tl);
      }
    }

    lemma Counters()
      requires Valid()
      ensures khead == hd % U32 && ktail == tl % U32 && |Ready()| == tl - hd
      ensures RingSize(ringEntries) && hd <= tl <= hd + ringEntries == hd + cqes.Length
      ensures khead == ktail <==> |Ready()| == 0
    {
      RingSizeBound(ringEntries);
      CounterDistance(hd, tl);
    }

    /** io_uring_cq_ready */
    method CqReady() returns (n: nat)
      requires Valid()
      ensures n == |Ready()|
    {
      hide Masked;
      RingSizeBound(ringEntries);
      CounterDistance(hd, tl);
      n := Sub32(ktail, khead);
    }

    /** io_uring_cq_advance */
    method CqAdvance(nr: nat)
      requires Valid() && nr <= |Ready()|
      modifies this`khead, this`hd
      ensures Valid() && hd == old(hd) + nr && Ready() == old(Ready())[nr..]
    {
      if nr != 0 {
        CounterNext(hd, nr);
        khead := (khead + nr) % U32;
      }
      hd := hd + nr;
      assert forall k :: 0 <= k < tl - hd ==> Ready()[k] == Entry(hd + k) == old(Ready())[nr + k];
    }

    /** __io_uring_peek_cqe */
    method PeekCqe(extArg: bool) returns (err: int, cqe: Found, available: nat)
      requires Valid()
      modifies this`khead, this`hd
      ensures Valid()
      ensures PeekSpec(old(Ready()), extArg) == Peeked(err, cqe, available, Ready())
    {
      hide Masked;
      RingSizeBound(ringEntries);
      err := 0;
      while true
        invariant Valid() && err == 0
        invariant PeekSpec(old(Ready()), extArg) == PeekSpec(Ready(), extArg)
        decreases |Ready()|
      {
        cqe := Nothing;
        CounterDistance(hd, tl);
        available := Sub32(ktail, khead);
        if available == 0 {
          break;
        }
        MaskedWraps(hd, ringEntries);
        var c := cqes[Masked(khead, ringEntries)];
        assert Ready()[0] == Entry(hd + 0);
        cqe := Found(c);
        if InternalTimeout(c, extArg) {
          if c.res < 0 {
            err := c.res;
          }
          CqAdvance(1);
          if err == 0 {
            continue;
          }
          cqe := Nothing;
        }
        break;
      }
    }

    /** io_uring_peek_batch_cqe: the oldest min(count, ready) completions, in order. When the ring
        is empty but completions overflowed, the kernel is asked once to move them in. */
    method PeekBatchCqe(count: nat) returns (batch: seq<Cqe>)
      requires Valid() && count < U32
      modifies this`ktail, this`tl, this`overflow, cqes
      ensures Valid() && hd == old(hd) && Queue() == old(Queue())
      ensures batch == Ready()[..MinNat(count, |Ready()|)]
      ensures |old(Ready())| > 0 ==> Ready() == old(Ready())
      ensures |Ready()| == 0 ==> Queue() == []
    {
      hide Masked;
      RingSizeBound(ringEntries);
      batch := [];
      var ready := CqReady();
      if ready == 0 {
        if overflow == [] {
          return;
        }
        GetEvents();
        ready := CqReady();
      }
      var n := if count > ready then ready else count;
      batch := CopyOldest(n);
    }

    /** The copying loop of the batch peek. */
    method CopyOldest(n: nat) returns (batch: seq<Cqe>)
      requires Valid() && n <= |Ready()|
      ensures batch == Ready()[..n]
    {
      hide Masked;
      RingSizeBound(ringEntries);
      batch := [];
      var head := khead;
      var last := (head + n) % U32;
      CounterNext(hd, n);
      var i: nat := 0;
      CounterDistance(hd, hd + n);
      while head != last
        invariant i <= n && head == (hd + i) % U32 && last == (hd + n) % U32
        invariant batch == Ready()[..i]
        decreases n - i
      {
        CounterDistance(hd + i, hd + n);
        CounterNext(hd + i, 1);
        MaskedWraps(hd + i, ringEntries);
        assert Ready()[i] == Entry(hd + i);
        batch := batch + [cqes[Masked(head, ringEntries)]];
        head := (head + 1) % U32;
        i := i + 1;
      }
      CounterDistance(hd + i, hd + n);
    }
  }
}
