/** Shared ownership with a plain counter: blocks, and the pointers that hold them. */
module CoSharedPtrs {
  import opened Options

  class RefCntBlock<T> {
    var data: T
    var cnt: nat
    /** How often the block has been deleted. Its memory is kept here so that this can be asked. */
    var deleted: nat

    constructor (data: T)
      ensures this.data == data && cnt == 1 && deleted == 0
    {
      this.data, cnt, deleted := data, 1, 0;
    }

    method Add()
      requires deleted == 0
      modifies `cnt
      ensures cnt == old(cnt) + 1
    {
      cnt := cnt + 1;
    }

    /** The counter is unsigned, so it must not be zero before. */
    method Reduce()
      requires deleted == 0 && cnt > 0
      modifies `cnt, `deleted
      ensures cnt == old(cnt) - 1 && deleted == if cnt == 0 then 1 else 0
    {
      cnt := cnt - 1;
      if cnt == 0 {
        deleted := deleted + 1;
      }
    }
  }

  class CoSharedPtr<T> {
    var ptr: RefCntBlock?<T>

    constructor ()
      ensures ptr == null
    {
      ptr := null;
    }

    constructor FromBlock(block: RefCntBlock<T>)
      ensures ptr == block
    {
      ptr := block;
    }
  }

  /** All pointers that exist, and all blocks that ever did. */
  class Memory<T> {
    ghost var pointers: set<CoSharedPtr<T>>
    ghost var blocks: set<RefCntBlock<T>>

    ghost function Holders(b: RefCntBlock<T>): set<CoSharedPtr<T>>
      reads this, pointers
    {
      set p | p in pointers && p.ptr == b
    }

    /** A block's counter is the number of pointers that hold it; it has been deleted once if there is
        none, and never if there is one. */
    ghost predicate Counted(b: RefCntBlock<T>)
      reads this, pointers, b
    {
      b.cnt == |Holders(b)| && b.deleted == if Holders(b) == {} then 1 else 0
    }

    ghost predicate Valid()
      reads this, pointers, blocks
    {
      && (forall p :: p in pointers && p.ptr != null ==> p.ptr in blocks)
      && forall b :: b in blocks ==> Counted(b)
    }

    constructor ()
      ensures Valid() && pointers == {} && blocks == {}
    {
      pointers, blocks := {}, {};
    }

    /** Everything that could be held still is, except by the pointers in `but`. */
    twostate predicate Same(but: set<CoSharedPtr<T>>)
      reads this, pointers, blocks
    {
      && old(blocks) <= blocks && (forall b :: b in old(blocks) ==> b.data == old(b.data))
      && forall p :: p in old(pointers) && p !in but ==> p in pointers && p.ptr == old(p.ptr)
    }

    method Null() returns (p: CoSharedPtr<T>)
      requires Valid()
      modifies this
      ensures Valid() && fresh(p) && pointers == old(pointers) + {p} && p.ptr == null
      ensures blocks == old(blocks) && Same({})
    {
      p := new CoSharedPtr<T>();
      pointers := pointers + {p};
      forall b | b in blocks ensures Counted(b) {
        assert Holders(b) == old(Holders(b));
      }
    }

    method Make(data: T) returns (p: CoSharedPtr<T>)
      requires Valid()
      modifies this
      ensures Valid() && fresh(p) && pointers == old(pointers) + {p}
      ensures p.ptr != null && fresh(p.ptr) && p.ptr.data == data && blocks == old(blocks) + {p.ptr} && Same({})
    {
      var block := new RefCntBlock(data);
      p := new CoSharedPtr<T>.FromBlock(block);
      pointers, blocks := pointers + {p}, blocks + {block};
      assert Holders(block) == {p};
      forall b | b in blocks ensures Counted(b) {
        assert b != block ==> Holders(b) == old(Holders(b));
      }
    }

    method Copy(that: CoSharedPtr<T>) returns (p: CoSharedPtr<T>)
      requires Valid() && that in pointers
      modifies this, blocks
      ensures Valid() && fresh(p) && pointers == old(pointers) + {p} && p.ptr == that.ptr
      ensures blocks == old(blocks) && Same({})
    {
      p := new CoSharedPtr<T>();
      p.ptr := that.ptr;
      pointers := pointers + {p};
      if p.ptr != null {
        assert that in old(Holders(that.ptr));
        p.ptr.Add();
        assert Holders(p.ptr) == old(Holders(that.ptr)) + {p};
      }
      forall b | b in blocks ensures Counted(b) {
        assert b != p.ptr ==> Holders(b) == old(Holders(b));
      }
    }

    method Swap(p: CoSharedPtr<T>, q: CoSharedPtr<T>)
      requires Valid() && p in pointers && q in pointers
      modifies p, q
      ensures Valid() && p.ptr == old(q.ptr) && q.ptr == old(p.ptr)
      ensures Same({p, q})
    {
      p.ptr, q.ptr := q.ptr, p.ptr;
      forall b | b in blocks ensures Counted(b) {
        ghost var was, now := old(Holders(b)), Holders(b);
        assert now == {} <==> was == {} by {
          SameNumber(was, now, p, q);
        }
        SameNumber(was, now, p, q);
      }
    }

    /** A pointer swapped away is replaced by the other one among the holders. */
    static lemma SameNumber(was: set<CoSharedPtr<T>>, now: set<CoSharedPtr<T>>, p: CoSharedPtr<T>, q: CoSharedPtr<T>)
      requires (p in now <==> q in was) && (q in now <==> p in was)
      requires forall r :: r != p && r != q ==> (r in now <==> r in was)
      ensures |now| == |was|
    {
      if p in was && q !in was {
        assert now == was - {p} + {q};
      } else if q in was && p !in was {
        assert now == was - {q} + {p};
      } else {
        assert now == was;
      }
    }

    method Destroy(p: CoSharedPtr<T>)
      requires Valid() && p in pointers
      modifies this, p, blocks
      ensures Valid() && pointers == old(pointers) - {p} && blocks == old(blocks) && Same({p})
    {
      ghost var block := p.ptr;
      if p.ptr != null {
        assert p in old(Holders(block));
        p.ptr.Reduce();
        p.ptr := null;
      }
      pointers := pointers - {p};
      if block != null {
        assert Holders(block) == old(Holders(block)) - {p};
      }
      forall b | b in blocks ensures Counted(b) {
        assert b != block ==> Holders(b) == old(Holders(b));
      }
    }

    method Move(that: CoSharedPtr<T>) returns (p: CoSharedPtr<T>)
      requires Valid() && that in pointers
      modifies this, that
      ensures Valid() && fresh(p) && pointers == old(pointers) + {p}
      ensures p.ptr == old(that.ptr) && that.ptr == null
      ensures blocks == old(blocks) && Same({that})
    {
      p := Null();
      Swap(p, that);
    }

    /** dst = that, also when they are the same pointer. */
    method AssignCopy(dst: CoSharedPtr<T>, that: CoSharedPtr<T>)
      requires Valid() && dst in pointers && that in pointers
      modifies this, dst, blocks
      ensures Valid() && pointers == old(pointers) && blocks == old(blocks)
      ensures dst.ptr == old(that.ptr) && Same({dst})
    {
      var tmp := Copy(that);
      Swap(tmp, dst);
      Destroy(tmp);
    }

    /** dst = std::move(that): moving a pointer into itself keeps it. */
    method AssignMove(dst: CoSharedPtr<T>, that: CoSharedPtr<T>)
      requires Valid() && dst in pointers && that in pointers
      modifies this, dst, that, blocks
      ensures Valid() && pointers == old(pointers) && blocks == old(blocks)
      ensures dst.ptr == old(that.ptr) && (that != dst ==> that.ptr == null) && Same({dst, that})
    {
      var tmp := Move(that);
      Swap(tmp, dst);
      Destroy(tmp);
    }

    method Reset(p: CoSharedPtr<T>, data: T)
      requires Valid() && p in pointers
      modifies this, p, blocks
      ensures Valid() && pointers == old(pointers) && Same({p})
      ensures p.ptr != null && fresh(p.ptr) && p.ptr.data == data && blocks == old(blocks) + {p.ptr}
    {
      var tmp := Make(data);
      Swap(tmp, p);
      Destroy(tmp);
    }

    /** A block goes with the last pointer that lets go of it, and not before: no pointer ever holds a
        deleted block, and when no pointer is left every block has been deleted exactly once. */
    lemma NothingDanglesNothingLeaks()
      requires Valid()
      ensures forall p :: p in pointers && p.ptr != null ==> p.ptr.deleted == 0 && p.ptr.cnt > 0
      ensures forall b :: b in blocks ==> (b.deleted == 1 <==> forall p :: p in pointers ==> p.ptr != b)
      ensures pointers == {} ==> forall b :: b in blocks ==> b.deleted == 1
    {
      forall p | p in pointers && p.ptr != null ensures p.ptr.deleted == 0 && p.ptr.cnt > 0 {
        assert p in Holders(p.ptr);
      }
      forall b | b in blocks ensures b.deleted == 1 <==> forall p :: p in pointers ==> p.ptr != b {
        assert Counted(b);
        assert forall p :: p in Holders(b) <==> p in pointers && p.ptr == b;
      }
    }
  }

  /** What a program does to its pointers, named by their places in the order of construction. */
  datatype Op<T> =
    | Null
    | Make(data: T)
    | Copy(that: nat)
    | Move(that: nat)
    | AssignCopy(dst: nat, that: nat)
    | AssignMove(dst: nat, that: nat)
    | Reset(p: nat, data: T)
    | Swap(p: nat, q: nat)
    | Destroy(p: nat)

  /** The meaning of pointers without any counting: which of the blocks made so far each one holds. */
  datatype Meaning = Meaning(holds: map<nat, Option<nat>>, blocks: nat)

  /** One operation, as the n-th of a program. Naming a pointer that does not exist does nothing. */
  function Do<T>(m: Meaning, op: Op<T>, n: nat): Meaning {
    var h := m.holds;
    match op
    case Null => m.(holds := h[n := None])
    case Make(_) => Meaning(h[n := Some(m.blocks)], m.blocks + 1)
    case Copy(t) => if t in h then m.(holds := h[n := h[t]]) else m
    case Move(t) => if t in h then m.(holds := h[n := h[t]][t := None]) else m
    case AssignCopy(d, t) => if d in h && t in h then m.(holds := h[d := h[t]]) else m
    case AssignMove(d, t) => if d in h && t in h && d != t then m.(holds := h[d := h[t]][t := None]) else m
    case Reset(p, _) => if p in h then Meaning(h[p := Some(m.blocks)], m.blocks + 1) else m
    case Swap(p, q) => if p in h && q in h then m.(holds := h[p := h[q]][q := h[p]]) else m
    case Destroy(p) => m.(holds := h - {p})
  }

  function DoAll<T>(ops: seq<Op<T>>): Meaning {
    if ops == [] then Meaning(map[], 0)
    else Do(DoAll(ops[..|ops| - 1]), ops[|ops| - 1], |ops| - 1)
  }

  /** What the basic operations mean: a new pointer holds nothing, or a new block, or what another one holds;
      two pointers exchange what they hold; a pointer is gone. All others hold what they held. */
  lemma BasicOperations<T>(m: Meaning, n: nat, t: nat, p: nat, q: nat, data: T, i: nat)
    requires n !in m.holds && t in m.holds && p in m.holds && q in m.holds && i in m.holds
    ensures var a := Do(m, Op<T>.Null, n);
            n in a.holds && a.holds[n] == None && i in a.holds && a.holds[i] == m.holds[i]
    ensures var a := Do(m, Op<T>.Make(data), n);
            && n in a.holds && a.holds[n] == Some(m.blocks) && a.blocks == m.blocks + 1
            && i in a.holds && a.holds[i] == m.holds[i]
    ensures var a := Do(m, Op<T>.Copy(t), n);
            n in a.holds && a.holds[n] == m.holds[t] && a.blocks == m.blocks && i in a.holds && a.holds[i] == m.holds[i]
    ensures var a := Do(m, Op<T>.Swap(p, q), n);
            && a.holds.Keys == m.holds.Keys && a.blocks == m.blocks
            && a.holds[p] == m.holds[q] && a.holds[q] == m.holds[p] && (i != p && i != q ==> a.holds[i] == m.holds[i])
    ensures var a := Do(m, Op<T>.Destroy(p), n);
            a.holds.Keys == m.holds.Keys - {p} && a.blocks == m.blocks && (i != p ==> a.holds[i] == m.holds[i])
  {
  }

  /** The other operations mean what they mean by copy and swap: a temporary that is made, copied or moved into,
      is swapped with the pointer and destroyed; also where both are the same pointer. */
  lemma CopyAndSwap<T>(m: Meaning, n: nat, d: nat, t: nat, data: T)
    requires n !in m.holds && d in m.holds && t in m.holds
    ensures Do(Do(m, Op<T>.Null, n), Op<T>.Swap(n, t), n + 1) == Do(m, Op<T>.Move(t), n)
    ensures Do(Do(Do(m, Op<T>.Copy(t), n), Op<T>.Swap(n, d), n + 1), Op<T>.Destroy(n), n + 2)
            == Do(m, Op<T>.AssignCopy(d, t), n)
    ensures Do(Do(Do(m, Op<T>.Move(t), n), Op<T>.Swap(n, d), n + 1), Op<T>.Destroy(n), n + 2)
            == Do(m, Op<T>.AssignMove(d, t), n)
    ensures Do(Do(Do(m, Op<T>.Make(data), n), Op<T>.Swap(n, d), n + 1), Op<T>.Destroy(n), n + 2)
            == Do(m, Op<T>.Reset(d, data), n)
  {
  }

  /** The pointers named exist, each under one name. */
  ghost predicate Named<T>(pointers: set<CoSharedPtr<T>>, live: map<nat, CoSharedPtr<T>>, made: nat) {
    && (forall i :: i in live ==> i < made && live[i] in pointers)
    && (forall i, j :: i in live && j in live && i != j ==> live[i] != live[j])
  }

  /** The blocks in the order in which they were made. */
  ghost predicate Stored<T>(blocks: set<RefCntBlock<T>>, blks: seq<RefCntBlock<T>>, n: nat) {
    && |blks| == n
    && (forall k :: 0 <= k < |blks| ==> blks[k] in blocks)
    && (forall j, k :: 0 <= j < k < |blks| ==> blks[j] != blks[k])
  }

  /** Each pointer holds the block that it is meant to. */
  ghost predicate Agrees<T>(view: map<nat, RefCntBlock?<T>>, blks: seq<RefCntBlock<T>>, holds: map<nat, Option<nat>>) {
    && view.Keys == holds.Keys
    && forall i :: i in view ==>
         match holds[i]
         case None => view[i] == null
         case Some(k) => k < |blks| && view[i] == blks[k]
  }

  ghost function Held<T>(live: map<nat, CoSharedPtr<T>>): map<nat, RefCntBlock?<T>>
    reads live.Values
  {
    map i | i in live :: live[i].ptr
  }

  lemma NamedAre<T>(pointers: set<CoSharedPtr<T>>, live: map<nat, CoSharedPtr<T>>, made: nat)
    requires Named(pointers, live, made)
    ensures forall i :: i in live ==> live[i] in pointers
    ensures forall i, j :: i in live && j in live && i != j ==> live[i] != live[j]
    ensures made !in live
  {
  }

  lemma NamedMore<T>(pointers: set<CoSharedPtr<T>>, live: map<nat, CoSharedPtr<T>>, made: nat, p: CoSharedPtr<T>)
    requires Named(pointers, live, made) && p !in pointers
    ensures Named(pointers + {p}, live[made := p], made + 1)
  {
  }

  lemma NamedLess<T>(pointers: set<CoSharedPtr<T>>, live: map<nat, CoSharedPtr<T>>, made: nat, i: nat)
    requires Named(pointers, live, made) && i in live
    ensures Named(pointers - {live[i]}, live - {i}, made + 1)
  {
  }

  lemma NamedOn<T>(pointers: set<CoSharedPtr<T>>, live: map<nat, CoSharedPtr<T>>, made: nat)
    requires Named(pointers, live, made)
    ensures Named(pointers, live, made + 1)
  {
  }

  lemma StoredMore<T>(blocks: set<RefCntBlock<T>>, blks: seq<RefCntBlock<T>>, n: nat, b: RefCntBlock<T>)
    requires Stored(blocks, blks, n) && b !in blocks
    ensures Stored(blocks + {b}, blks + [b], n + 1)
  {
  }

  lemma StoredAre<T>(blocks: set<RefCntBlock<T>>, blks: seq<RefCntBlock<T>>, n: nat)
    requires Stored(blocks, blks, n)
    ensures |blks| == n
  {
  }

  lemma AgreesUpdate<T>(view: map<nat, RefCntBlock?<T>>, blks: seq<RefCntBlock<T>>, holds: map<nat, Option<nat>>,
                        i: nat, b: RefCntBlock?<T>, h: Option<nat>)
    requires Agrees(view, blks, holds)
    requires if h.None? then b == null else h.value < |blks| && b == blks[h.value]
    ensures Agrees(view[i := b], blks, holds[i := h])
  {
  }

  lemma AgreesAt<T>(view: map<nat, RefCntBlock?<T>>, blks: seq<RefCntBlock<T>>, holds: map<nat, Option<nat>>, i: nat)
    requires Agrees(view, blks, holds)
    ensures view.Keys == holds.Keys
    ensures i in holds ==> if holds[i].None? then view[i] == null
                           else holds[i].value < |blks| && view[i] == blks[holds[i].value]
  {
  }

  /** What t holds goes to i, and t holds nothing. */
  lemma AgreesMoved<T>(view: map<nat, RefCntBlock?<T>>, blks: seq<RefCntBlock<T>>, holds: map<nat, Option<nat>>,
                       i: nat, t: nat, after: map<nat, RefCntBlock?<T>>)
    requires Agrees(view, blks, holds) && t in view && i != t
    requires after.Keys == view.Keys + {i} && after[i] == view[t] && after[t] == null
    requires forall k :: k in view && k != i && k != t ==> after[k] == view[k]
    ensures t in holds && Agrees(after, blks, holds[i := holds[t]][t := None])
  {
  }

  lemma AgreesSwapped<T>(view: map<nat, RefCntBlock?<T>>, blks: seq<RefCntBlock<T>>, holds: map<nat, Option<nat>>,
                         p: nat, q: nat, after: map<nat, RefCntBlock?<T>>)
    requires Agrees(view, blks, holds) && p in view && q in view
    requires after.Keys == view.Keys && after[p] == view[q] && after[q] == view[p]
    requires forall k :: k in view && k != p && k != q ==> after[k] == view[k]
    ensures p in holds && q in holds && Agrees(after, blks, holds[p := holds[q]][q := holds[p]])
  {
  }

  lemma AgreesLess<T>(view: map<nat, RefCntBlock?<T>>, blks: seq<RefCntBlock<T>>, holds: map<nat, Option<nat>>, i: nat)
    requires Agrees(view, blks, holds)
    ensures Agrees(view - {i}, blks, holds - {i})
  {
  }

  lemma AgreesMore<T>(view: map<nat, RefCntBlock?<T>>, blks: seq<RefCntBlock<T>>, holds: map<nat, Option<nat>>,
                      b: RefCntBlock<T>)
    requires Agrees(view, blks, holds)
    ensures Agrees(view, blks + [b], holds)
  {
  }

  /** The pointers named hold what the meaning says. */
  ghost predicate Means<T>(memory: Memory<T>, live: map<nat, CoSharedPtr<T>>, n: nat,
                           blks: seq<RefCntBlock<T>>, m: Meaning)
    reads memory, memory.pointers, memory.blocks, live.Values
  {
    && memory.Valid() && Named(memory.pointers, live, n) && Stored(memory.blocks, blks, m.blocks)
    && Agrees(Held(live), blks, m.holds)
  }

  twostate predicate Framed<T>(memory: Memory<T>)
    reads memory
  {
    fresh(memory.pointers - old(memory.pointers)) && fresh(memory.blocks - old(memory.blocks))
  }

  method DoNull<T>(memory: Memory<T>, live: map<nat, CoSharedPtr<T>>, n: nat, ghost blks: seq<RefCntBlock<T>>,
                   ghost m: Meaning)
    returns (now: map<nat, CoSharedPtr<T>>)
    requires Means(memory, live, n, blks, m)
    modifies memory, memory.pointers, memory.blocks
    ensures Means(memory, now, n + 1, blks, Do<T>(m, Op.Null, n)) && Framed(memory)
  {
    hide memory.Valid, Named, Stored, Agrees;
    NamedAre(memory.pointers, live, n);
    ghost var held := Held(live);
    var p := memory.Null();
    NamedMore(old(memory.pointers), live, n, p);
    AgreesUpdate(held, blks, m.holds, n, null, None);
    now := live[n := p];
    assert Held(now) == held[n := null];
  }

  method DoMake<T>(memory: Memory<T>, live: map<nat, CoSharedPtr<T>>, n: nat, ghost blks: seq<RefCntBlock<T>>,
                   ghost m: Meaning, data: T)
    returns (now: map<nat, CoSharedPtr<T>>, ghost more: seq<RefCntBlock<T>>)
    requires Means(memory, live, n, blks, m)
    modifies memory, memory.pointers, memory.blocks
    ensures Means(memory, now, n + 1, more, Do<T>(m, Op.Make(data), n)) && Framed(memory)
  {
    hide memory.Valid, Named, Stored, Agrees;
    NamedAre(memory.pointers, live, n);
    ghost var held := Held(live);
    var p := memory.Make(data);
    NamedMore(old(memory.pointers), live, n, p);
    StoredMore(old(memory.blocks), blks, m.blocks, p.ptr);
    AgreesMore(held, blks, m.holds, p.ptr);
    now, more := live[n := p], blks + [p.ptr];
    StoredAre(memory.blocks, more, m.blocks + 1);
    AgreesUpdate(held, more, m.holds, n, p.ptr, Some(m.blocks));
    assert Held(now) == held[n := p.ptr];
  }

  method DoCopy<T>(memory: Memory<T>, live: map<nat, CoSharedPtr<T>>, n: nat, ghost blks: seq<RefCntBlock<T>>,
                   ghost m: Meaning, t: nat)
    returns (now: map<nat, CoSharedPtr<T>>)
    requires Means(memory, live, n, blks, m) && t in live
    modifies memory, memory.pointers, memory.blocks
    ensures Means(memory, now, n + 1, blks, Do<T>(m, Op.Copy(t), n)) && Framed(memory)
  {
    hide memory.Valid, Named, Stored, Agrees;
    NamedAre(memory.pointers, live, n);
    ghost var held := Held(live);
    AgreesAt(held, blks, m.holds, t);
    var p := memory.Copy(live[t]);
    NamedMore(old(memory.pointers), live, n, p);
    AgreesUpdate(held, blks, m.holds, n, p.ptr, m.holds[t]);
    now := live[n := p];
    assert Held(now) == held[n := p.ptr];
  }

  method DoMove<T>(memory: Memory<T>, live: map<nat, CoSharedPtr<T>>, n: nat, ghost blks: seq<RefCntBlock<T>>,
                   ghost m: Meaning, t: nat)
    returns (now: map<nat, CoSharedPtr<T>>)
    requires Means(memory, live, n, blks, m) && t in live
    modifies memory, memory.pointers, memory.blocks
    ensures Means(memory, now, n + 1, blks, Do<T>(m, Op.Move(t), n)) && Framed(memory)
  {
    hide memory.Valid, Named, Stored, Agrees;
    NamedAre(memory.pointers, live, n);
    ghost var held := Held(live);
    AgreesAt(held, blks, m.holds, t);
    var p := memory.Move(live[t]);
    NamedMore(old(memory.pointers), live, n, p);
    now := live[n := p];
    AgreesMoved(held, blks, m.holds, n, t, Held(now));
  }

  method DoAssignCopy<T>(memory: Memory<T>, live: map<nat, CoSharedPtr<T>>, n: nat, ghost blks: seq<RefCntBlock<T>>,
                   ghost m: Meaning, d: nat, t: nat)
    returns (now: map<nat, CoSharedPtr<T>>)
    requires Means(memory, live, n, blks, m) && d in live && t in live
    modifies memory, memory.pointers, memory.blocks
    ensures Means(memory, now, n + 1, blks, Do<T>(m, Op.AssignCopy(d, t), n)) && Framed(memory)
  {
    hide memory.Valid, Named, Stored, Agrees;
    NamedAre(memory.pointers, live, n);
    ghost var held := Held(live);
    AgreesAt(held, blks, m.holds, d);
    AgreesAt(held, blks, m.holds, t);
    memory.AssignCopy(live[d], live[t]);
    NamedOn(memory.pointers, live, n);
    AgreesUpdate(held, blks, m.holds, d, live[d].ptr, m.holds[t]);
    now := live;
    assert Held(now) == held[d := held[t]];
  }

  method DoAssignMove<T>(memory: Memory<T>, live: map<nat, CoSharedPtr<T>>, n: nat, ghost blks: seq<RefCntBlock<T>>,
                   ghost m: Meaning, d: nat, t: nat)
    returns (now: map<nat, CoSharedPtr<T>>)
    requires Means(memory, live, n, blks, m) && d in live && t in live
    modifies memory, memory.pointers, memory.blocks
    ensures Means(memory, now, n + 1, blks, Do<T>(m, Op.AssignMove(d, t), n)) && Framed(memory)
  {
    hide memory.Valid, Named, Stored, Agrees;
    NamedAre(memory.pointers, live, n);
    ghost var held := Held(live);
    AgreesAt(held, blks, m.holds, d);
    AgreesAt(held, blks, m.holds, t);
    memory.AssignMove(live[d], live[t]);
    NamedOn(memory.pointers, live, n);
    now := live;
    if d != t {
      AgreesMoved(held, blks, m.holds, d, t, Held(now));
    } else {
      assert Held(now) == held;
    }
  }

  method DoReset<T>(memory: Memory<T>, live: map<nat, CoSharedPtr<T>>, n: nat, ghost blks: seq<RefCntBlock<T>>,
                   ghost m: Meaning, p: nat, data: T)
    returns (now: map<nat, CoSharedPtr<T>>, ghost more: seq<RefCntBlock<T>>)
    requires Means(memory, live, n, blks, m) && p in live
    modifies memory, memory.pointers, memory.blocks
    ensures Means(memory, now, n + 1, more, Do<T>(m, Op.Reset(p, data), n)) && Framed(memory)
  {
    hide memory.Valid, Named, Stored, Agrees;
    NamedAre(memory.pointers, live, n);
    ghost var held := Held(live);
    AgreesAt(held, blks, m.holds, p);
    memory.Reset(live[p], data);
    NamedOn(memory.pointers, live, n);
    StoredMore(old(memory.blocks), blks, m.blocks, live[p].ptr);
    AgreesMore(held, blks, m.holds, live[p].ptr);
    now, more := live, blks + [live[p].ptr];
    StoredAre(memory.blocks, more, m.blocks + 1);
    AgreesUpdate(held, more, m.holds, p, live[p].ptr, Some(m.blocks));
    assert Held(now) == held[p := live[p].ptr];
  }

  method DoSwap<T>(memory: Memory<T>, live: map<nat, CoSharedPtr<T>>, n: nat, ghost blks: seq<RefCntBlock<T>>,
                   ghost m: Meaning, p: nat, q: nat)
    returns (now: map<nat, CoSharedPtr<T>>)
    requires Means(memory, live, n, blks, m) && p in live && q in live
    modifies memory, memory.pointers, memory.blocks
    ensures Means(memory, now, n + 1, blks, Do<T>(m, Op.Swap(p, q), n)) && Framed(memory)
  {
    hide memory.Valid, Named, Stored, Agrees;
    NamedAre(memory.pointers, live, n);
    ghost var held := Held(live);
    AgreesAt(held, blks, m.holds, p);
    AgreesAt(held, blks, m.holds, q);
    memory.Swap(live[p], live[q]);
    NamedOn(memory.pointers, live, n);
    now := live;
    AgreesSwapped(held, blks, m.holds, p, q, Held(now));
  }

  method DoDestroy<T>(memory: Memory<T>, live: map<nat, CoSharedPtr<T>>, n: nat, ghost blks: seq<RefCntBlock<T>>,
                   ghost m: Meaning, p: nat)
    returns (now: map<nat, CoSharedPtr<T>>)
    requires Means(memory, live, n, blks, m) && p in live
    modifies memory, memory.pointers, memory.blocks
    ensures Means(memory, now, n + 1, blks, Do<T>(m, Op.Destroy(p), n)) && Framed(memory)
  {
    hide memory.Valid, Named, Stored, Agrees;
    NamedAre(memory.pointers, live, n);
    ghost var held := Held(live);
    memory.Destroy(live[p]);
    NamedLess(old(memory.pointers), live, n, p);
    AgreesLess(held, blks, m.holds, p);
    now := live - {p};
    assert Held(now) == held - {p};
  }

  predicate Possible<T>(op: Op<T>, live: map<nat, CoSharedPtr<T>>) {
    match op
    case Null => true
    case Make(_) => true
    case Copy(t) => t in live
    case Move(t) => t in live
    case AssignCopy(d, t) => d in live && t in live
    case AssignMove(d, t) => d in live && t in live
    case Reset(p, _) => p in live
    case Swap(p, q) => p in live && q in live
    case Destroy(p) => p in live
  }

  lemma Impossible<T>(memory: Memory<T>, live: map<nat, CoSharedPtr<T>>, n: nat, blks: seq<RefCntBlock<T>>,
                      m: Meaning, op: Op<T>)
    requires Means(memory, live, n, blks, m) && !Possible(op, live)
    ensures Means(memory, live, n + 1, blks, Do(m, op, n))
  {
    hide memory.Valid, Named, Stored;
    NamedOn(memory.pointers, live, n);
    assert op.Destroy? ==> m.holds - {op.p} == m.holds;
  }

  method Apply<T>(memory: Memory<T>, live: map<nat, CoSharedPtr<T>>, n: nat, ghost blks: seq<RefCntBlock<T>>,
                  ghost m: Meaning, op: Op<T>)
    returns (now: map<nat, CoSharedPtr<T>>, ghost more: seq<RefCntBlock<T>>)
    requires Means(memory, live, n, blks, m)
    modifies memory, memory.pointers, memory.blocks
    ensures Means(memory, now, n + 1, more, Do(m, op, n)) && Framed(memory)
  {
    hide Means, Do;
    more := blks;
    if !Possible(op, live) {
      Impossible(memory, live, n, blks, m, op);
      return live, blks;
    }
    match op
    case Null => now := DoNull(memory, live, n, blks, m);
    case Make(data) => now, more := DoMake(memory, live, n, blks, m, data);
    case Copy(t) => now := DoCopy(memory, live, n, blks, m, t);
    case Move(t) => now := DoMove(memory, live, n, blks, m, t);
    case AssignCopy(d, t) => now := DoAssignCopy(memory, live, n, blks, m, d, t);
    case AssignMove(d, t) => now := DoAssignMove(memory, live, n, blks, m, d, t);
    case Reset(p, data) => now, more := DoReset(memory, live, n, blks, m, p, data);
    case Swap(p, q) => now := DoSwap(memory, live, n, blks, m, p, q);
    case Destroy(p) => now := DoDestroy(memory, live, n, blks, m, p);
  }

  /** A block that some pointer is meant to hold is there. */
  lemma HeldIsAlive<T>(memory: Memory<T>, live: map<nat, CoSharedPtr<T>>, n: nat, blks: seq<RefCntBlock<T>>,
                       m: Meaning, i: nat)
    requires Means(memory, live, n, blks, m) && i in m.holds && m.holds[i].Some?
    ensures m.holds[i].value < |blks| && blks[m.holds[i].value].deleted == 0 && blks[m.holds[i].value].cnt > 0
  {
    hide Agrees, Named, Stored, memory.Valid;
    NamedAre(memory.pointers, live, n);
    AgreesAt(Held(live), blks, m.holds, i);
    assert Held(live)[i] == blks[m.holds[i].value];
    memory.NothingDanglesNothingLeaks();
  }

  /** Any sequence of operations on any number of pointers: they hold what they hold without counting, the
      counters count the holders, and a block has been deleted once if it has none. */
  method Run<T>(ops: seq<Op<T>>)
    returns (memory: Memory<T>, live: map<nat, CoSharedPtr<T>>, ghost blks: seq<RefCntBlock<T>>)
    ensures Means(memory, live, |ops|, blks, DoAll(ops)) && memory.Valid()
  {
    hide Do, Named, Stored, Agrees, memory.Valid;
    memory := new Memory();
    live, blks := map[], [];
    StartsEmpty(memory);
    for i := 0 to |ops|
      invariant fresh(memory) && fresh(memory.pointers) && fresh(memory.blocks)
      invariant Means(memory, live, i, blks, DoAll(ops[..i]))
    {
      assert ops[..i + 1][..i] == ops[..i];
      live, blks := Apply(memory, live, i, blks, DoAll(ops[..i]), ops[i]);
    }
    assert ops[..|ops|] == ops;
  }

  lemma StartsEmpty<T>(memory: Memory<T>)
    requires memory.Valid() && memory.pointers == {} && memory.blocks == {}
    ensures Means(memory, map[], 0, [], DoAll<T>([]))
  {
    hide memory.Valid;
  }
}
