/** The event drive over the two rings: handing out entries, waiting, reaping completions, and the
    in-flight counter that decides whether the loop may stop. The kernel is an arbitrary sequence
    of steps that take flushed entries and complete entries taken, each once, in any order. */
module IoUrings {
  import opened Rings

  datatype Sqe = Sqe(userData: nat)

  datatype KernelStep = Take | Complete(which: nat, res: int)

  datatype Resumed = Resumed(task: nat, res: int)

  datatype RunResult = Idle | Failed | Reaped(tasks: seq<Resumed>)

  const ECANCELED := 125
  const ETIME := 62
  const EINTR := 4

  /** The coroutines a batch of completions wakes: all but cancelled entries and empty tasks. */
  function TasksOf(batch: seq<Cqe>): seq<Resumed> {
    if batch == [] then []
    else
      var last := batch[|batch| - 1];
      TasksOf(batch[..|batch| - 1]) +
      (if last.res == -ECANCELED || last.userData == 0 then [] else [Resumed(last.userData, last.res)])
  }

  lemma TasksOfNext(q: seq<Cqe>, k: nat)
    requires k < |q|
    ensures TasksOf([]) == []
    ensures TasksOf(q[..k + 1]) == TasksOf(q[..k]) +
                                   (if q[k].res == -ECANCELED || q[k].userData == 0 then []
                                    else [Resumed(q[k].userData, q[k].res)])
  {
    assert q[..k + 1][..k] == q[..k];
  }

  lemma {:induction false} TasksOfJoin(a: seq<Cqe>, b: seq<Cqe>)
    ensures TasksOf(a + b) == TasksOf(a) + TasksOf(b)
  {
    if b == [] {
      assert a + b == a;
    } else {
      TasksOfJoin(a, b[..|b| - 1]);
      assert (a + b)[..|a + b| - 1] == a + b[..|b| - 1];
    }
  }

  /** A completion wakes its coroutine, once and in its turn, with its own result, unless it says that the
      operation was cancelled (-ECANCELED) or there is no coroutine; and nothing else is woken. */
  lemma TasksOfMeans(before: seq<Cqe>, c: Cqe, after: seq<Cqe>)
    ensures TasksOf(before + [c] + after) ==
            if c.res == -125 || c.userData == 0 then TasksOf(before) + TasksOf(after)
            else TasksOf(before) + [Resumed(c.userData, c.res)] + TasksOf(after)
    ensures TasksOf([]) == []
  {
    TasksOfJoin(before + [c], after);
    assert (before + [c])[..|before|] == before;
  }

  ghost function SqeUsers(q: seq<Sqe>): seq<nat> {
    seq(|q|, i requires 0 <= i < |q| => q[i].userData)
  }

  ghost function CqeUsers(q: seq<Cqe>): seq<nat> {
    seq(|q|, i requires 0 <= i < |q| => q[i].userData)
  }

  function Without(s: seq<nat>, k: nat): seq<nat>
    requires k < |s|
  {
    s[..k] + s[k + 1..]
  }

  /** The tasks of all entries in the submission queue p, in the kernel f, or completed in c. */
  ghost function Outstanding(p: seq<Sqe>, f: seq<nat>, c: seq<Cqe>): multiset<nat> {
    multiset(SqeUsers(p) + f + CqeUsers(c))
  }

  lemma OutstandingSize(p: seq<Sqe>, f: seq<nat>, c: seq<Cqe>)
    ensures |Outstanding(p, f, c)| == |p| + |f| + |c|
  {
  }

  lemma HandingOutAdds(p: seq<Sqe>, f: seq<nat>, c: seq<Cqe>, task: nat)
    ensures Outstanding(p + [Sqe(task)], f, c) == Outstanding(p, f, c) + multiset{task}
  {
    assert SqeUsers(p + [Sqe(task)]) == SqeUsers(p) + [task];
  }

  lemma TakingMoves(p: seq<Sqe>, f: seq<nat>, c: seq<Cqe>)
    requires p != []
    ensures Outstanding(p[1..], f + [p[0].userData], c) == Outstanding(p, f, c)
  {
    assert SqeUsers(p) == [p[0].userData] + SqeUsers(p[1..]);
  }

  lemma CompletingMoves(p: seq<Sqe>, f: seq<nat>, c: seq<Cqe>, k: nat, res: int)
    requires k < |f|
    ensures Outstanding(p, Without(f, k), c + [Cqe(f[k], res)]) == Outstanding(p, f, c)
  {
    assert f == f[..k] + [f[k]] + f[k + 1..];
    assert CqeUsers(c + [Cqe(f[k], res)]) == CqeUsers(c) + [f[k]];
  }

  lemma ReapingRemoves(p: seq<Sqe>, f: seq<nat>, batch: seq<Cqe>, rest: seq<Cqe>)
    ensures Outstanding(p, f, batch + rest) == Outstanding(p, f, rest) + multiset(CqeUsers(batch))
  {
    assert CqeUsers(batch + rest) == CqeUsers(batch) + CqeUsers(rest);
  }

  // ---------------------------------------------------------------- the kernel

  /** The rings as the kernel sees them: entries made visible, entries taken, completions posted. */
  datatype World = World(visible: seq<nat>, inflight: seq<nat>, done: seq<Cqe>)

  function KernelDoes(w: World, step: KernelStep): World {
    match step
    case Take => if w.visible == [] then w else w.(visible := w.visible[1..], inflight := w.inflight + [w.visible[0]])
    case Complete(which, res) =>
      if which >= |w.inflight| then w
      else w.(inflight := Without(w.inflight, which), done := w.done + [Cqe(w.inflight[which], res)])
  }

  function KernelDoesAll(w: World, steps: seq<KernelStep>): World {
    if steps == [] then w else KernelDoes(KernelDoesAll(w, steps[..|steps| - 1]), steps[|steps| - 1])
  }

  ghost function EntriesOf(w: World): multiset<nat> {
    multiset(w.visible) + multiset(w.inflight) + multiset(CqeUsers(w.done))
  }

  lemma KernelKeepsOne(w: World, step: KernelStep)
    ensures EntriesOf(KernelDoes(w, step)) == EntriesOf(w) && w.done <= KernelDoes(w, step).done
  {
    match step
    case Take =>
      if w.visible != [] {
        assert w.visible == [w.visible[0]] + w.visible[1..];
      }
    case Complete(which, res) =>
      if which < |w.inflight| {
        assert w.inflight == w.inflight[..which] + [w.inflight[which]] + w.inflight[which + 1..];
        assert CqeUsers(w.done + [Cqe(w.inflight[which], res)]) == CqeUsers(w.done) + [w.inflight[which]];
      }
  }

  /** The kernel neither loses an entry nor makes one up. */
  lemma {:induction false} KernelKeeps(w: World, steps: seq<KernelStep>)
    ensures EntriesOf(KernelDoesAll(w, steps)) == EntriesOf(w) && w.done <= KernelDoesAll(w, steps).done
  {
    hide EntriesOf, KernelDoes;
    if steps != [] {
      KernelKeeps(w, steps[..|steps| - 1]);
      KernelKeepsOne(KernelDoesAll(w, steps[..|steps| - 1]), steps[|steps| - 1]);
    }
  }

  lemma {:induction false} KernelGoesOn(w: World, a: seq<KernelStep>, b: seq<KernelStep>)
    ensures KernelDoesAll(w, a + b) == KernelDoesAll(KernelDoesAll(w, a), b)
  {
    if b == [] {
      assert a + b == a;
    } else {
      KernelGoesOn(w, a, b[..|b| - 1]);
      assert (a + b)[..|a + b| - 1] == a + b[..|b| - 1];
    }
  }

  function Answered(all: seq<nat>, res: int): seq<Cqe> {
    seq(|all|, i requires 0 <= i < |all| => Cqe(all[i], res))
  }

  lemma TakeNext(w: World)
    requires w.inflight == [] && w.visible != []
    ensures KernelDoes(w, Take) == World(w.visible[1..], [w.visible[0]], w.done)
    ensures [w.visible[0]] + w.visible[1..] == w.inflight + w.visible
  {
  }

  lemma CompleteNext(w: World, res: int)
    requires w.inflight != []
    ensures var next := KernelDoes(w, Complete(0, res));
            && next == World(w.visible, w.inflight[1..], w.done + [Cqe(w.inflight[0], res)])
            && next.done + Answered(next.inflight + next.visible, res)
               == w.done + Answered(w.inflight + w.visible, res)
  {
    var next := World(w.visible, w.inflight[1..], w.done + [Cqe(w.inflight[0], res)]);
    assert w.inflight + w.visible == [w.inflight[0]] + (next.inflight + next.visible);
    assert Answered(w.inflight + w.visible, res)
           == [Cqe(w.inflight[0], res)] + Answered(next.inflight + next.visible, res);
  }

  /** It can always take and complete everything that it sees, in order and with any result. */
  lemma {:induction false} KernelCanServeAll(w: World, res: int) returns (steps: seq<KernelStep>)
    ensures KernelDoesAll(w, steps) == World([], [], w.done + Answered(w.inflight + w.visible, res))
    decreases 2 * |w.visible| + |w.inflight|
  {
    hide KernelDoes, Answered;
    if w.visible == [] && w.inflight == [] {
      steps := [];
      NothingAnswered(res);
      assert w.inflight + w.visible == [];
      assert w.done + [] == w.done;
    } else {
      var step := if w.inflight == [] then Take else Complete(0, res);
      if w.inflight == [] {
        TakeNext(w);
      } else {
        CompleteNext(w, res);
      }
      var next := KernelDoes(w, step);
      var more := KernelCanServeAll(next, res);
      steps := [step] + more;
      KernelGoesOn(w, [step], more);
      assert [step][..0] == [];
    }
  }

  lemma NothingAnswered(res: int)
    ensures Answered([], res) == []
  {
  }

  lemma AllDone(w: World)
    ensures w.visible == [] && w.inflight == [] ==> EntriesOf(w) == multiset(CqeUsers(w.done))
  {
  }

  lemma UsersGrow(a: seq<Cqe>, b: seq<Cqe>)
    ensures a <= b ==> multiset(CqeUsers(a)) <= multiset(CqeUsers(b))
  {
    if a <= b {
      assert b == a + b[|a|..];
      assert CqeUsers(b) == CqeUsers(a) + CqeUsers(b[|a|..]);
    }
  }

  class IoUring {
    const sq: SubmissionRing<Sqe>
    const cq: CompletionRing
    var inflight: seq<nat>
    var numSqesPending: nat
    ghost var handed: multiset<nat>
    ghost var reaped: multiset<nat>

    /** Every entry handed out is in exactly one place until its completion is reaped, and the
        counter says how many there are. */
    ghost predicate Valid()
      reads this, sq, sq.sqes, sq.sqArray, cq, cq.cqes
    {
      && sq.Valid() && cq.Valid()
      && numSqesPending == |sq.Pending()| + |inflight| + |cq.Queue()|
      && handed == reaped + Outstanding(sq.Pending(), inflight, cq.Queue())
    }

    constructor (sq: SubmissionRing<Sqe>, cq: CompletionRing)
      requires sq.Valid() && cq.Valid() && sq.Pending() == [] && cq.Queue() == []
      ensures Valid() && this.sq == sq && this.cq == cq && handed == reaped == multiset{}
    {
      this.sq, this.cq := sq, cq;
      inflight, numSqesPending := [], 0;
      handed, reaped := multiset{}, multiset{};
    }

    ghost function View(): World
      reads this, sq, sq.sqes, sq.sqArray, cq, cq.cqes
      requires Valid()
    {
      World(SqeUsers(sq.Pending()[..sq.fl - sq.hd]), inflight, cq.Queue())
    }

    /** isRun */
    predicate IsRun()
      reads this
    {
      numSqesPending != 0
    }

    method Kernel(step: KernelStep)
      requires Valid()
      modifies this`inflight, sq`khead, sq`hd, cq`ktail, cq`tl, cq`overflow, cq.cqes
      ensures Valid() && View() == KernelDoes(old(View()), step) && cq.hd == old(cq.hd)
      ensures old(cq.Ready()) <= cq.Ready()
      ensures old(cq.overflow) == [] && |cq.Queue()| <= cq.ringEntries ==> cq.overflow == []
    {
      hide SubmissionRing.Valid, SubmissionRing.Pending, SubmissionRing.Entry, SubmissionRing.SlotOf;
      hide CompletionRing.Valid, CompletionRing.Ready, CompletionRing.Entry, RingSize, Masked, Outstanding;
      sq.VisibleIsPending();
      ghost var pending := sq.Pending();
      match step
      case Take =>
        if sq.khead != sq.ktail {
          TakingMoves(sq.Pending(), inflight, cq.Queue());
          var e := sq.KernelTake();
          inflight := inflight + [e.userData];
          sq.VisibleIsPending();
          assert pending[1..][..sq.fl - sq.hd] == pending[..sq.fl - sq.hd + 1][1..];
        }
      case Complete(which, res) =>
        if which < |inflight| {
          CompletingMoves(sq.Pending(), inflight, cq.Queue(), which, res);
          cq.KernelPost(Cqe(inflight[which], res));
          inflight := Without(inflight, which);
        }
    }

    method KernelRun(steps: seq<KernelStep>)
      requires Valid()
      modifies this`inflight, sq`khead, sq`hd, cq`ktail, cq`tl, cq`overflow, cq.cqes
      ensures Valid() && View() == KernelDoesAll(old(View()), steps) && cq.hd == old(cq.hd)
      ensures old(cq.Ready()) <= cq.Ready() && (steps == [] ==> cq.Ready() == old(cq.Ready()))
      ensures old(cq.overflow) == [] && |cq.Queue()| <= cq.ringEntries ==> cq.overflow == []
    {
      hide SubmissionRing.Valid, SubmissionRing.Pending, SubmissionRing.Entry, SubmissionRing.SlotOf;
      hide CompletionRing.Valid, CompletionRing.Ready, CompletionRing.Entry, RingSize, Masked, Outstanding;
      hide View, KernelDoes;
      for i := 0 to |steps|
        invariant Valid() && View() == KernelDoesAll(old(View()), steps[..i]) && cq.hd == old(cq.hd)
        invariant old(cq.Ready()) <= cq.Ready() && (steps == [] ==> cq.Ready() == old(cq.Ready()))
        invariant old(cq.overflow) == [] && |cq.Queue()| <= cq.ringEntries ==> cq.overflow == []
      {
        assert steps[..i + 1][..i] == steps[..i];
        DoneIsQueue();
        KernelKeepsOne(View(), steps[i]);
        Kernel(steps[i]);
        DoneIsQueue();
      }
      assert steps[..|steps|] == steps;
    }

    lemma DoneIsQueue()
      requires Valid()
      ensures View().done == cq.Queue() && |View().visible| <= |sq.Pending()|
      ensures sq.fl == sq.tl ==> View() == World(SqeUsers(sq.Pending()), inflight, cq.Queue())
    {
      sq.VisibleIsPending();
      assert sq.fl == sq.tl ==> sq.Pending()[..sq.fl - sq.hd] == sq.Pending();
    }

    /** The rings as the kernel sees them once everything handed out has been made visible. */
    ghost function Submitted(): World
      reads this, sq, sq.sqes, sq.sqArray, cq, cq.cqes
      requires Valid()
    {
      World(SqeUsers(sq.Pending()), inflight, cq.Queue())
    }

    /** io_uring_submit_and_wait: whatever has been handed out is made visible, then the kernel works. */
    method SubmitAndWait(waiting: seq<KernelStep>)
      requires Valid()
      modifies this`inflight, sq`ktail, sq`sqeHead, sq`fl, sq`khead, sq`hd, cq`ktail, cq`tl, cq`overflow, cq.cqes
      ensures Valid() && sq.fl == sq.tl && cq.hd == old(cq.hd) && old(cq.Ready()) <= cq.Ready()
      ensures var w := KernelDoesAll(old(Submitted()), waiting);
              && SqeUsers(sq.Pending()) == w.visible && |sq.Pending()| == |w.visible| && cq.Queue() == w.done
              && (old(cq.overflow) == [] && |w.done| <= cq.ringEntries ==> cq.Ready() == w.done)
    {
      hide SubmissionRing.Valid, SubmissionRing.Pending, SubmissionRing.Entry, SubmissionRing.SlotOf;
      hide CompletionRing.Valid, CompletionRing.Ready, CompletionRing.Entry, RingSize, Masked, Outstanding;
      hide View, KernelDoesAll;
      var _ := sq.FlushSq();
      DoneIsQueue();
      KernelRun(waiting);
      DoneIsQueue();
      assert cq.overflow == [] ==> cq.Ready() == cq.Queue();
    }

    /** getSqe followed by the caller's user_data: counts exactly the entries it hands out; when
        the ring is still full after waiting for the kernel, it throws and counts nothing. */
    method GetSqe(task: nat, waiting: seq<KernelStep>) returns (ok: bool)
      requires Valid()
      modifies this, sq, sq.sqes, cq`ktail, cq`tl, cq`overflow, cq.cqes
      ensures Valid() && reaped == old(reaped) && cq.hd == old(cq.hd) && sq.fl <= sq.tl
      ensures |old(sq.Pending())| < sq.ringEntries ==> ok && sq.fl == old(sq.fl)
      ensures |old(sq.Pending())| == sq.ringEntries ==>
                && sq.fl == old(sq.tl)
                && (ok <==> |KernelDoesAll(old(Submitted()), waiting).visible| < sq.ringEntries)
      ensures sq.tl == old(sq.tl) + if ok then 1 else 0
      ensures ok ==> numSqesPending == old(numSqesPending) + 1 && handed == old(handed) + multiset{task}
      ensures !ok ==> numSqesPending == old(numSqesPending) && handed == old(handed)
    {
      hide SubmissionRing.Valid, SubmissionRing.Pending, SubmissionRing.Entry, SubmissionRing.SlotOf;
      hide CompletionRing.Valid, CompletionRing.Ready, CompletionRing.Entry, RingSize, Masked, Outstanding;
      var slot;
      ok, slot := sq.GetSqe();
      if !ok {
        SubmitAndWait(waiting);
        ghost var q := sq.Pending();
        ok, slot := sq.GetSqe();
        if !ok {
          return;
        }
        Handed(slot, task, q);
      } else {
        Handed(slot, task, old(sq.Pending()));
      }
    }

    /** ++_numSqesPending and the write of the task's address into the entry. */
    method Handed(slot: nat, task: nat, ghost q: seq<Sqe>)
      requires sq.Valid() && cq.Valid() && sq.fl < sq.tl && slot == sq.SlotOf(sq.tl - 1) < sq.ringEntries
      requires sq.Pending() == q + [sq.sqes[slot]]
      requires numSqesPending == |q| + |inflight| + |cq.Queue()|
      requires handed == reaped + Outstanding(q, inflight, cq.Queue())
      modifies this`numSqesPending, this`handed, sq.sqes
      ensures Valid() && sq.Pending() == q + [Sqe(task)]
      ensures numSqesPending == old(numSqesPending) + 1 && handed == old(handed) + multiset{task}
    {
      hide SubmissionRing.Valid, SubmissionRing.Pending, SubmissionRing.Entry, SubmissionRing.SlotOf;
      hide CompletionRing.Valid, CompletionRing.Ready, CompletionRing.Entry, RingSize, Masked, Outstanding;
      numSqesPending := numSqesPending + 1;
      sq.Fill(slot, Sqe(task), sq.tl - 1);
      assert sq.Pending() == q + [Sqe(task)];
      HandingOutAdds(q, inflight, cq.Queue(), task);
      handed := handed + multiset{task};
    }

    /** prepNop: an entry without a task, submitted at once. */
    method PrepNop(waiting: seq<KernelStep>, submitRes: int, after: seq<KernelStep>) returns (ok: bool)
      requires Valid()
      modifies this, sq, sq.sqes, cq`ktail, cq`tl, cq`overflow, cq.cqes
      ensures Valid() && reaped == old(reaped)
      ensures sq.tl == old(sq.tl) + 1 ==> sq.fl == sq.tl && handed == old(handed) + multiset{0}
      ensures sq.tl == old(sq.tl) || sq.tl == old(sq.tl) + 1
      ensures sq.tl == old(sq.tl) ==> |old(sq.Pending())| == sq.ringEntries && handed == old(handed)
      ensures ok <==> sq.tl == old(sq.tl) + 1 && submitRes >= 0
    {
      hide SubmissionRing.Valid, SubmissionRing.Pending, SubmissionRing.Entry, SubmissionRing.SlotOf;
      hide CompletionRing.Valid, CompletionRing.Ready, CompletionRing.Entry, RingSize, Masked, Outstanding;
      sq.VisibleIsPending();
      ok := GetSqe(0, waiting);
      if ok {
        var _ := sq.FlushSq();
        KernelRun(after);
        ok := submitRes >= 0;
      }
    }

    lemma Bounds()
      requires Valid()
      ensures sq.Valid() && cq.Valid() && |cq.Ready()| <= numSqesPending
    {
    }

    /** The reaping loop: it ends at the tail it last read, so with everything that is ready; the
        kernel may post between any two of its rounds. */
    method ReapLoop(between: nat -> seq<KernelStep>) returns (tasks: seq<Resumed>, numGot: nat)
      requires Valid()
      modifies this`inflight, sq`khead, sq`hd, cq`ktail, cq`tl, cq`overflow, cq.cqes
      ensures Valid() && old(cq.Ready()) <= cq.Ready()
      ensures numGot == |cq.Ready()| && tasks == TasksOf(cq.Ready())
      ensures (forall i :: between(i) == []) ==> cq.Ready() == old(cq.Ready())
    {
      hide SubmissionRing.Valid, SubmissionRing.Pending, SubmissionRing.Entry, SubmissionRing.SlotOf;
      hide CompletionRing.Valid, CompletionRing.Ready, CompletionRing.Entry, RingSize, Masked, Outstanding, TasksOf;
      hide Sub32, IoUring.Valid, View, KernelDoesAll;
      Bounds();
      cq.Counters();
      var head := cq.khead;
      numGot := 0;
      tasks := [];
      assert cq.Ready()[..0] == [];
      assert TasksOf([]) == [] by {
        TasksOfNext([Cqe(0, 0)], 0);
      }
      while head != cq.ktail
        invariant Valid() && cq.Valid() && |cq.Ready()| <= numSqesPending
        invariant cq.hd == old(cq.hd) && old(cq.Ready()) <= cq.Ready()
        invariant (forall i :: between(i) == []) ==> cq.Ready() == old(cq.Ready())
        invariant numGot <= |cq.Ready()| && head == (cq.hd + numGot) % U32
        invariant tasks == TasksOf(cq.Ready()[..numGot])
        decreases numSqesPending - numGot
      {
        var c := ReadCqe(head, numGot);
        ghost var seen := cq.Ready();
        TasksOfNext(seen, numGot);
        if c.res != -ECANCELED && c.userData != 0 {
          tasks := tasks + [Resumed(c.userData, c.res)];
        }
        CounterNext(cq.hd + numGot, 1);
        head := (head + 1) % U32;
        KernelRun(between(numGot));
        Bounds();
        numGot := numGot + 1;
        assert cq.Ready()[..numGot] == seen[..numGot];
      }
      cq.Counters();
      RingSizeBound(cq.ringEntries);
      CounterDistance(cq.hd + numGot, cq.tl);
      assert cq.Ready()[..numGot] == cq.Ready();
    }

    /** Advances past the batch and takes it off the counter. */
    method TakeOff(numGot: nat)
      requires Valid() && numGot == |cq.Ready()|
      modifies this`numSqesPending, this`reaped, cq`khead, cq`hd
      ensures Valid() && reaped == old(reaped) + multiset(CqeUsers(old(cq.Ready())))
      ensures numSqesPending == old(numSqesPending) - numGot
    {
      hide SubmissionRing.Valid, SubmissionRing.Pending, SubmissionRing.Entry, SubmissionRing.SlotOf;
      hide CompletionRing.Valid, CompletionRing.Ready, CompletionRing.Entry, RingSize, Masked, Outstanding;
      ghost var batch := cq.Ready();
      ReapingRemoves(sq.Pending(), inflight, batch, cq.overflow);
      cq.CqAdvance(numGot);
      assert cq.Queue() == cq.overflow;
      reaped := reaped + multiset(CqeUsers(batch));
      numSqesPending := numSqesPending - numGot;
    }

    method Reap(between: nat -> seq<KernelStep>) returns (tasks: seq<Resumed>, ghost batch: seq<Cqe>)
      requires Valid()
      modifies this`inflight, this`numSqesPending, this`reaped
      modifies sq`khead, sq`hd, cq`khead, cq`hd, cq`ktail, cq`tl, cq`overflow, cq.cqes
      ensures Valid() && tasks == TasksOf(batch) && old(cq.Ready()) <= batch
      ensures (forall i :: between(i) == []) ==> batch == old(cq.Ready())
      ensures reaped == old(reaped) + multiset(CqeUsers(batch))
      ensures numSqesPending == old(numSqesPending) - |batch|
    {
      hide SubmissionRing.Valid, SubmissionRing.Pending, CompletionRing.Valid, CompletionRing.Ready;
      hide RingSize, Outstanding, TasksOf, CqeUsers;
      var numGot;
      tasks, numGot := ReapLoop(between);
      batch := cq.Ready();
      TakeOff(numGot);
    }

    /** run: submit, wait, reap what is ready, advance once, and take the batch off the counter
        before any coroutine is resumed. */
    method Run(waitRes: int, waiting: seq<KernelStep>, between: nat -> seq<KernelStep>)
      returns (res: RunResult, ghost batch: seq<Cqe>)
      requires Valid()
      modifies this, sq, cq, cq.cqes
      ensures Valid() && handed == old(handed)
      ensures sq.fl == sq.tl == old(sq.tl)
      ensures waitRes < 0 ==> batch == [] && res == (if waitRes == -62 || waitRes == -4 then Idle else Failed)
      ensures waitRes >= 0 ==> res == Reaped(TasksOf(batch)) && old(cq.Ready()) <= batch
      ensures reaped == old(reaped) + multiset(CqeUsers(batch))
      ensures numSqesPending == old(numSqesPending) - |batch|
      // the kernel sees every entry, and as long as its completions fit into the ring, the batch is all of them
      ensures waitRes >= 0 && old(cq.overflow) == [] ==>
                var w := KernelDoesAll(old(Submitted()), waiting);
                |w.done| <= cq.ringEntries ==>
                  && w.done <= batch && ((forall i :: between(i) == []) ==> w.done == batch)
                  && (w.visible == [] && w.inflight == [] ==> old(Entries()) <= multiset(CqeUsers(batch)))
    {
      hide SubmissionRing.Valid, SubmissionRing.Pending, SubmissionRing.Entry, SubmissionRing.SlotOf;
      hide CompletionRing.Valid, CompletionRing.Ready, CompletionRing.Entry, RingSize, Masked, Outstanding, TasksOf;
      hide Submitted, KernelDoesAll, EntriesOf, SqeUsers;
      EntriesSeen();
      ghost var w := KernelDoesAll(Submitted(), waiting);
      KernelKeeps(Submitted(), waiting);
      AllDone(w);
      SubmitAndWait(waiting);
      batch := [];
      if waitRes < 0 {
        res := if waitRes == -ETIME || waitRes == -EINTR then Idle else Failed;
        return;
      }
      var tasks;
      tasks, batch := Reap(between);
      UsersGrow(w.done, batch);
      res := Reaped(tasks);
    }

    /** The tasks of all entries handed out and not yet reaped. */
    ghost function Entries(): multiset<nat>
      reads this, sq, sq.sqes, sq.sqArray, cq, cq.cqes
      requires Valid()
    {
      Outstanding(sq.Pending(), inflight, cq.Queue())
    }

    lemma EntriesSeen()
      requires Valid()
      ensures Entries() == EntriesOf(Submitted())
    {
    }

    method ReadCqe(head: nat, k: nat) returns (c: Cqe)
      requires cq.Valid() && k <= |cq.Ready()| && head == (cq.hd + k) % U32 && head != cq.ktail
      ensures k < |cq.Ready()| && c == cq.Ready()[k]
    {
      hide Masked;
      RingSizeBound(cq.ringEntries);
      CounterDistance(cq.hd + k, cq.tl);
      MaskedWraps(cq.hd + k, cq.ringEntries);
      c := cq.cqes[Masked(head, cq.ringEntries)];
      assert cq.Ready()[k] == cq.Entry(cq.hd + k);
    }

    /** The counter is the number of submissions not yet reaped; when it is zero, every entry ever
        handed out has been reaped exactly as often as it was handed out. */
    lemma CounterIsExact()
      requires Valid()
      ensures numSqesPending == |handed| - |reaped| && reaped <= handed
      ensures IsRun() <==> handed != reaped
    {
      OutstandingSize(sq.Pending(), inflight, cq.Queue());
    }
  }
}
