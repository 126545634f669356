/** The thread pool as a machine of atomic steps: any number of workers, the manager thread and
    clients, interleaved arbitrarily. A step is one access to shared state; a wait on the condition
    variable may wake at any time. */
module ThreadPools {
  import opened Options

  /** Why a worker's wait predicate came out true. */
  datatype Why = SawTask | SawDel | SawStop

  /** Where a worker stands in the loop of makeWorker. */
  datatype Pc =
    | Top                     // while (_isRun)
    | WantLock                // before _mtx, or waiting on _cv
    | EvalQueue               // predicate: !_taskQueue.empty()
    | EvalDel                 // predicate: _delCnt > 0
    | EvalStop                // predicate: !_isRun
    | Woken(why: Why)         // if (!_isRun)
    | Load(why: Why)          // tryDecrementIfPositive: val.load
    | Cas(why: Why, now: nat) // while (now > 0), compare_exchange_weak
    | Leave                   // _delIdQueue.emplace
    | Pop(why: Why)           // _taskQueue.frontAndPop
    | Call(job: nat)          // task->call(), for the job at this place of the log
    | Gone(left: bool)        // thread function returned; left: through _delCnt

  /** A task, and for a thenTry continuation the job that produces the result it waits for. stores tells
      whether its call leaves a result behind: a continuation that answers a good result with an error
      Try returns without one. */
  datatype Job = Job(dep: Option<nat>, stores: bool)

  datatype Manager =
    | Idle
    | Spawned(w: nat)  // thread constructed, not yet in _workers
    | Joining(w: nat)  // id taken off _delIdQueue and found in _workers

  /** What workers, manager and clients share, with its history. */
  datatype Shared = Shared(
    queue: seq<nat>,        // _taskQueue, as places in the log
    delCnt: nat,
    isRun: bool,
    lock: Option<nat>,      // the holder of _mtx
    delIds: seq<nat>,       // _delIdQueue
    poppedEmpty: bool,      // frontAndPop has met an empty task queue
    log: seq<Job>,          // every job in the order of its enqueueing
    dequeued: nat,          // how many pops have happened
    called: multiset<nat>,  // jobs whose call has returned
    stored: set<nat>,       // jobs whose result is ready
    leavers: set<nat>,      // workers that took a unit of _delCnt
    granted: nat)           // units written to _delCnt, less those overwritten unused

  datatype State = State(
    pcs: map<nat, Pc>,      // every thread ever made
    sh: Shared,
    registered: set<nat>,   // the keys of _workers
    manager: Manager,
    thrown: bool)           // "iterator failure"

  datatype Event =
    | Worker(w: nat, spurious: bool)
    | Enqueue(dep: Option<nat>, stores: bool)
    | Stop
    | WriteDel(add: nat)
    | Spawn(w: nat)
    | Register
    | ClearPop
    | Join

  predicate Holds(pc: Pc) {
    pc.EvalQueue? || pc.EvalDel? || pc.EvalStop? || pc.Woken? || pc.Load? || pc.Cas? || pc.Leave? || pc.Pop?
  }

  /** A continuation cannot return before the result it waits for is ready. */
  predicate Ready(sh: Shared, job: nat) {
    job < |sh.log| && (sh.log[job].dep.Some? ==> sh.log[job].dep.value in sh.stored)
  }

  /** One step of worker w. */
  function Local(w: nat, pc: Pc, sh: Shared, spurious: bool): (Pc, Shared) {
    match pc
    case Top => (if sh.isRun then WantLock else Gone(false), sh)
    case WantLock => if sh.lock.None? then (EvalQueue, sh.(lock := Some(w))) else (pc, sh)
    case EvalQueue => (if sh.queue != [] then Woken(SawTask) else EvalDel, sh)
    case EvalDel => (if sh.delCnt > 0 then Woken(SawDel) else EvalStop, sh)
    case EvalStop => if sh.isRun then (WantLock, sh.(lock := None)) else (Woken(SawStop), sh)
    case Woken(why) => if sh.isRun then (Load(why), sh) else (Gone(false), sh.(lock := None))
    case Load(why) => (Cas(why, sh.delCnt), sh)
    case Cas(why, now) =>
      if now == 0 then (Pop(why), sh)
      else if sh.delCnt == now && !spurious then (Leave, sh.(delCnt := now - 1, leavers := sh.leavers + {w}))
      else (Cas(why, sh.delCnt), sh)
    case Leave => (Gone(true), sh.(lock := None, delIds := sh.delIds + [w]))
    case Pop(why) =>
      if sh.queue == [] then (pc, sh.(poppedEmpty := true))
      else (Call(sh.queue[0]), sh.(lock := None, queue := sh.queue[1..], dequeued := sh.dequeued + 1))
    case Call(job) =>
      if !Ready(sh, job) then (pc, sh)
      else (Top, sh.(called := sh.called + multiset{job},
                     stored := if sh.log[job].stores then sh.stored + {job} else sh.stored))
    case Gone(_) => (pc, sh)
  }

  function WorkerStep(s: State, w: nat, spurious: bool): State
    requires w in s.pcs
  {
    var (pc, sh) := Local(w, s.pcs[w], s.sh, spurious);
    s.(pcs := s.pcs[w := pc], sh := sh)
  }

  /** The steps of clients and the stores of the manager. */
  function Outside(sh: Shared, e: Event): Shared {
    match e
    case Enqueue(dep, stores) =>
      // a continuation is attached to a result that already exists
      if dep.Some? && dep.value >= |sh.log| then sh
      else sh.(log := sh.log + [Job(dep, stores)], queue := sh.queue + [|sh.log|])
    case Stop => sh.(isRun := false)
    case WriteDel(add) =>
      // check stores -add for a negative, hence nonzero, answer of the strategy
      if add == 0 || sh.granted < sh.delCnt then sh
      else sh.(delCnt := add, granted := sh.granted - sh.delCnt + add)
    case _ => sh
  }

  function ManagerStep(s: State, e: Event): State {
    match e
    case Spawn(w) =>
      if s.manager == Idle && w !in s.pcs then s.(pcs := s.pcs[w := Top], manager := Spawned(w)) else s
    case Register =>
      if s.manager.Spawned? then s.(registered := s.registered + {s.manager.w}, manager := Idle) else s
    case ClearPop =>
      if s.manager != Idle || s.sh.delIds == [] then s
      else
        var id := s.sh.delIds[0];
        var t := s.(sh := s.sh.(delIds := s.sh.delIds[1..]));
        if id !in s.registered then t.(thrown := true) else t.(manager := Joining(id))
    case Join =>
      if s.manager.Joining? && s.manager.w in s.pcs && s.pcs[s.manager.w].Gone?
      then s.(registered := s.registered - {s.manager.w}, manager := Idle)
      else s
    case _ => s
  }

  function Step(s: State, e: Event): State {
    match e
    case Worker(w, spurious) => if w in s.pcs then WorkerStep(s, w, spurious) else s
    case Enqueue(_, _) => s.(sh := Outside(s.sh, e))
    case Stop => s.(sh := Outside(s.sh, e))
    case WriteDel(_) => s.(sh := Outside(s.sh, e))
    case _ => ManagerStep(s, e)
  }

  /** The pool right after run(): no thread yet, only what clients had queued before. */
  ghost predicate Init(s: State) {
    && s.pcs == map[] && s.registered == {} && s.manager == Idle && !s.thrown
    && s.sh == Shared(seq(|s.sh.log|, i => i), 0, true, None, [], false, s.sh.log, 0, multiset{}, {}, {}, 0)
    && forall k :: 0 <= k < |s.sh.log| ==> s.sh.log[k].dep.Some? ==> s.sh.log[k].dep.value < k
  }

  function RunAll(s: State, events: seq<Event>): State {
    if events == [] then s else Step(RunAll(s, events[..|events| - 1]), events[|events| - 1])
  }

  // ---------------------------------------------------------------- the lock

  ghost predicate LockInv(pcs: map<nat, Pc>, lock: Option<nat>) {
    && (lock.Some? ==> lock.value in pcs)
    && forall w :: w in pcs ==> (Holds(pcs[w]) <==> lock == Some(w))
  }

  lemma LockLocal(w: nat, pc: Pc, sh: Shared, spurious: bool)
    requires Holds(pc) <==> sh.lock == Some(w)
    ensures var (pc', sh') := Local(w, pc, sh, spurious);
            && (Holds(pc') <==> sh'.lock == Some(w))
            && (sh'.lock == sh.lock || (sh.lock.None? && sh'.lock == Some(w)) || (sh.lock == Some(w) && sh'.lock.None?))
  {
  }

  lemma LockStep(s: State, e: Event)
    requires LockInv(s.pcs, s.sh.lock)
    ensures LockInv(Step(s, e).pcs, Step(s, e).sh.lock)
  {
    if e.Worker? && e.w in s.pcs {
      LockLocal(e.w, s.pcs[e.w], s.sh, e.spurious);
      hide Local;
    }
  }

  // ---------------------------------------------------------------- what a worker saw

  /** What a worker saw still holds: only the lock holder pops or decrements, the manager writes
      nothing but positive numbers, and _isRun is never set again. */
  predicate SeenHolds(queue: seq<nat>, delCnt: nat, isRun: bool, pc: Pc) {
    match pc
    case Woken(why) =>
      (why == SawTask ==> queue != []) && (why == SawDel ==> delCnt > 0) && (why == SawStop ==> !isRun)
    case Load(why) =>
      (why == SawTask ==> queue != []) && (why == SawDel ==> delCnt > 0) && why != SawStop
    case Cas(why, now) =>
      (why == SawTask ==> queue != []) && (why == SawDel ==> delCnt > 0 && now > 0) && why != SawStop
    case Pop(why) => queue != []
    case _ => true
  }

  ghost predicate SeenInv(pcs: map<nat, Pc>, sh: Shared) {
    forall w :: w in pcs ==> SeenHolds(sh.queue, sh.delCnt, sh.isRun, pcs[w])
  }

  lemma SeenLocal(w: nat, pc: Pc, sh: Shared, spurious: bool)
    requires SeenHolds(sh.queue, sh.delCnt, sh.isRun, pc)
    ensures var (pc', sh') := Local(w, pc, sh, spurious);
            && SeenHolds(sh'.queue, sh'.delCnt, sh'.isRun, pc')
            && sh'.poppedEmpty == sh.poppedEmpty
            && (!Holds(pc) ==> sh'.queue == sh.queue && sh'.delCnt == sh.delCnt && sh'.isRun == sh.isRun)
  {
  }

  lemma NotHoldingSeesNothing(pc: Pc, queue: seq<nat>, delCnt: nat, isRun: bool)
    requires !Holds(pc)
    ensures SeenHolds(queue, delCnt, isRun, pc)
  {
  }

  lemma SeenOutside(sh: Shared, e: Event, pc: Pc)
    requires SeenHolds(sh.queue, sh.delCnt, sh.isRun, pc)
    ensures SeenHolds(Outside(sh, e).queue, Outside(sh, e).delCnt, Outside(sh, e).isRun, pc)
    ensures Outside(sh, e).poppedEmpty == sh.poppedEmpty && Outside(sh, e).lock == sh.lock
  {
  }

  lemma SeenStep(s: State, e: Event)
    requires LockInv(s.pcs, s.sh.lock) && SeenInv(s.pcs, s.sh)
    ensures SeenInv(Step(s, e).pcs, Step(s, e).sh) && Step(s, e).sh.poppedEmpty == s.sh.poppedEmpty
  {
    var t := Step(s, e);
    hide Local, Outside, SeenHolds;
    if e.Worker? {
      if e.w in s.pcs {
        SeenLocal(e.w, s.pcs[e.w], s.sh, e.spurious);
        forall v | v in t.pcs ensures SeenHolds(t.sh.queue, t.sh.delCnt, t.sh.isRun, t.pcs[v]) {
          if v != e.w {
            if Holds(s.pcs[e.w]) {
              NotHoldingSeesNothing(s.pcs[v], t.sh.queue, t.sh.delCnt, t.sh.isRun);
            }
          }
        }
      }
    } else {
      forall v | v in t.pcs ensures SeenHolds(t.sh.queue, t.sh.delCnt, t.sh.isRun, t.pcs[v]) {
        if v in s.pcs {
          SeenOutside(s.sh, e, s.pcs[v]);
        } else {
          NotHoldingSeesNothing(Top, t.sh.queue, t.sh.delCnt, t.sh.isRun);
        }
      }
      SeenOutside(s.sh, e, Top) by {
        NotHoldingSeesNothing(Top, s.sh.queue, s.sh.delCnt, s.sh.isRun);
      }
    }
  }

  // ---------------------------------------------------------------- first in, first out

  /** The queue is the part of the log not yet dequeued; a continuation comes after its producer. */
  ghost predicate FifoInv(sh: Shared) {
    && sh.dequeued + |sh.queue| == |sh.log|
    && (forall i :: 0 <= i < |sh.queue| ==> sh.queue[i] == sh.dequeued + i)
    && forall k :: 0 <= k < |sh.log| ==> sh.log[k].dep.Some? ==> sh.log[k].dep.value < k
  }

  lemma FifoLocal(w: nat, pc: Pc, sh: Shared, spurious: bool)
    requires FifoInv(sh)
    ensures FifoInv(Local(w, pc, sh, spurious).1)
  {
  }

  lemma FifoOutside(sh: Shared, e: Event)
    requires FifoInv(sh)
    ensures FifoInv(Outside(sh, e))
  {
  }

  lemma FifoStep(s: State, e: Event)
    requires FifoInv(s.sh)
    ensures FifoInv(Step(s, e).sh)
  {
    FifoOutside(s.sh, e);
    if e.Worker? && e.w in s.pcs {
      FifoLocal(e.w, s.pcs[e.w], s.sh, e.spurious);
    }
    hide Local, Outside;
  }

  // ---------------------------------------------------------------- called at most once

  /** A dequeued job is being called by one worker or has been called once; others neither. */
  ghost predicate OnceInv(pcs: map<nat, Pc>, dequeued: nat, called: multiset<nat>) {
    && (forall k: nat :: called[k] <= 1 && (called[k] == 1 ==> k < dequeued))
    && (forall w :: w in pcs && pcs[w].Call? ==> pcs[w].job < dequeued && called[pcs[w].job] == 0)
    && (forall v, w :: v in pcs && w in pcs && v != w && pcs[v].Call? && pcs[w].Call? ==> pcs[v].job != pcs[w].job)
    && (forall k: nat :: k < dequeued && called[k] == 0 ==> BeingCalled(pcs, k))
  }

  ghost predicate BeingCalled(pcs: map<nat, Pc>, k: nat) {
    exists w :: w in pcs && pcs[w] == Call(k)
  }

  lemma CalledElsewhere(pcs: map<nat, Pc>, w: nat, pc: Pc, k: nat)
    requires BeingCalled(pcs, k) && (w in pcs ==> pcs[w] != Call(k))
    ensures BeingCalled(pcs[w := pc], k)
  {
    var v :| v in pcs && pcs[v] == Call(k);
    assert pcs[w := pc][v] == Call(k);
  }

  lemma OnceOther(pcs: map<nat, Pc>, w: nat, pc: Pc, dequeued: nat, called: multiset<nat>)
    requires OnceInv(pcs, dequeued, called) && !pc.Call? && (w in pcs ==> !pcs[w].Call?)
    ensures OnceInv(pcs[w := pc], dequeued, called)
  {
    forall k: nat | k < dequeued && called[k] == 0 ensures BeingCalled(pcs[w := pc], k) {
      CalledElsewhere(pcs, w, pc, k);
    }
  }

  lemma OnceAfterPop(pcs: map<nat, Pc>, w: nat, dequeued: nat, called: multiset<nat>)
    requires OnceInv(pcs, dequeued, called) && w in pcs && pcs[w].Pop?
    ensures OnceInv(pcs[w := Call(dequeued)], dequeued + 1, called)
  {
    assert called[dequeued] == 0;
    forall k: nat | k < dequeued + 1 && called[k] == 0 ensures BeingCalled(pcs[w := Call(dequeued)], k) {
      if k < dequeued {
        CalledElsewhere(pcs, w, Call(dequeued), k);
      } else {
        assert pcs[w := Call(dequeued)][w] == Call(k);
      }
    }
  }

  lemma OnceAfterReturn(pcs: map<nat, Pc>, w: nat, dequeued: nat, called: multiset<nat>)
    requires OnceInv(pcs, dequeued, called) && w in pcs && pcs[w].Call?
    ensures OnceInv(pcs[w := Top], dequeued, called + multiset{pcs[w].job})
  {
    forall k: nat | k < dequeued && (called + multiset{pcs[w].job})[k] == 0 ensures BeingCalled(pcs[w := Top], k) {
      CalledElsewhere(pcs, w, Top, k);
    }
  }

  lemma OnceLocal(w: nat, pc: Pc, sh: Shared, spurious: bool)
    ensures var (pc', sh') := Local(w, pc, sh, spurious);
            || (!pc.Call? && !pc'.Call? && sh'.dequeued == sh.dequeued && sh'.called == sh.called)
            || (pc.Pop? && sh.queue != [] && pc' == Call(sh.queue[0])
                && sh'.dequeued == sh.dequeued + 1 && sh'.called == sh.called)
            || (pc.Call? && pc' == Top && Ready(sh, pc.job)
                && sh'.dequeued == sh.dequeued && sh'.called == sh.called + multiset{pc.job})
            || (pc' == pc && sh' == sh)
  {
  }

  lemma OnceStep(s: State, e: Event)
    requires FifoInv(s.sh) && OnceInv(s.pcs, s.sh.dequeued, s.sh.called)
    ensures OnceInv(Step(s, e).pcs, Step(s, e).sh.dequeued, Step(s, e).sh.called)
  {
    if e.Worker? && e.w in s.pcs {
      hide OnceInv, Local;
      OnceLocal(e.w, s.pcs[e.w], s.sh, e.spurious);
      var (pc, sh) := Local(e.w, s.pcs[e.w], s.sh, e.spurious);
      if pc == s.pcs[e.w] {
        assert s.pcs[e.w := pc] == s.pcs;
      }
      if s.pcs[e.w].Pop? && pc.Call? {
        OnceAfterPop(s.pcs, e.w, s.sh.dequeued, s.sh.called);
      } else if s.pcs[e.w].Call? && pc == Top {
        OnceAfterReturn(s.pcs, e.w, s.sh.dequeued, s.sh.called);
      } else if !s.pcs[e.w].Call? {
        OnceOther(s.pcs, e.w, pc, s.sh.dequeued, s.sh.called);
      }
    } else if e.Spawn? && e.w !in s.pcs {
      OnceOther(s.pcs, e.w, Top, s.sh.dequeued, s.sh.called);
      hide OnceInv;
    } else {
      hide OnceInv;
    }
  }

  // ---------------------------------------------------------------- results

  /** The results that are ready are those of the jobs that have returned and store one; no job returns
      before the result it waits for is ready. */
  ghost predicate StoredInv(sh: Shared) {
    && (forall k: nat :: k in sh.stored <==> k < |sh.log| && sh.called[k] > 0 && sh.log[k].stores)
    && forall k: nat :: k < |sh.log| && sh.called[k] > 0 && sh.log[k].dep.Some? ==> sh.log[k].dep.value in sh.stored
  }

  lemma StoredLocal(w: nat, pc: Pc, sh: Shared, spurious: bool)
    requires StoredInv(sh)
    ensures StoredInv(Local(w, pc, sh, spurious).1)
  {
  }

  lemma StoredOutside(sh: Shared, e: Event)
    requires StoredInv(sh) && FifoInv(sh) && forall k: nat :: sh.called[k] > 0 ==> k < sh.dequeued
    ensures StoredInv(Outside(sh, e))
  {
  }

  lemma CalledAreDequeued(pcs: map<nat, Pc>, dequeued: nat, called: multiset<nat>)
    requires OnceInv(pcs, dequeued, called)
    ensures forall k: nat :: called[k] > 0 ==> k < dequeued
  {
  }

  lemma StoredStep(s: State, e: Event)
    requires StoredInv(s.sh) && FifoInv(s.sh) && OnceInv(s.pcs, s.sh.dequeued, s.sh.called)
    ensures StoredInv(Step(s, e).sh)
  {
    hide OnceInv, FifoInv, StoredInv, Local, Outside;
    CalledAreDequeued(s.pcs, s.sh.dequeued, s.sh.called);
    if e.Worker? {
      if e.w in s.pcs {
        StoredLocal(e.w, s.pcs[e.w], s.sh, e.spurious);
      }
    } else {
      StoredOutside(s.sh, e);
      StoredManager(s, e);
    }
  }

  lemma StoredManager(s: State, e: Event)
    requires StoredInv(s.sh)
    ensures StoredInv(ManagerStep(s, e).sh)
  {
  }

  // ---------------------------------------------------------------- workers that leave

  predicate Leaving(pc: Pc) {
    pc == Leave || pc == Gone(true)
  }

  ghost predicate LeaveInv(pcs: map<nat, Pc>, sh: Shared) {
    && sh.granted == |sh.leavers| + sh.delCnt
    && forall w :: w in sh.leavers <==> w in pcs && Leaving(pcs[w])
  }

  lemma LeaveLocal(w: nat, pc: Pc, sh: Shared, spurious: bool)
    ensures var (pc', sh') := Local(w, pc, sh, spurious);
            && sh'.granted == sh.granted
            && ((sh'.leavers == sh.leavers && sh'.delCnt == sh.delCnt && Leaving(pc') == Leaving(pc))
                || (sh'.leavers == sh.leavers + {w} && sh'.delCnt + 1 == sh.delCnt && Leaving(pc') && !Leaving(pc)))
  {
  }

  lemma LeaveUpdate(pcs: map<nat, Pc>, leavers: set<nat>, w: nat, pc: Pc)
    requires forall v :: v in leavers <==> v in pcs && Leaving(pcs[v])
    requires w in pcs && Leaving(pcs[w]) ==> Leaving(pc)
    ensures var after := if Leaving(pc) then leavers + {w} else leavers;
            forall v :: v in after <==> v in pcs[w := pc] && Leaving(pcs[w := pc][v])
  {
  }

  lemma LeaveWorker(s: State, w: nat, spurious: bool)
    requires LeaveInv(s.pcs, s.sh) && w in s.pcs
    ensures LeaveInv(WorkerStep(s, w, spurious).pcs, WorkerStep(s, w, spurious).sh)
  {
    hide Local;
    LeaveLocal(w, s.pcs[w], s.sh, spurious);
    var (pc, sh) := Local(w, s.pcs[w], s.sh, spurious);
    LeaveUpdated(s.pcs, s.sh, w, pc, sh);
  }

  lemma LeaveUpdated(pcs: map<nat, Pc>, sh: Shared, w: nat, pc: Pc, sh': Shared)
    requires LeaveInv(pcs, sh) && w in pcs && sh'.granted == sh.granted
    requires || (sh'.leavers == sh.leavers && sh'.delCnt == sh.delCnt && Leaving(pc) == Leaving(pcs[w]))
             || (sh'.leavers == sh.leavers + {w} && sh'.delCnt + 1 == sh.delCnt && Leaving(pc) && !Leaving(pcs[w]))
    ensures LeaveInv(pcs[w := pc], sh')
  {
    hide Leaving;
    LeaveUpdate(pcs, sh.leavers, w, pc);
    if Leaving(pcs[w]) {
      assert sh.leavers + {w} == sh.leavers;
    } else {
      assert w !in sh.leavers;
    }
  }

  lemma LeaveOutside(pcs: map<nat, Pc>, sh: Shared, e: Event)
    requires LeaveInv(pcs, sh)
    ensures LeaveInv(pcs, Outside(sh, e))
  {
  }

  lemma LeaveStep(s: State, e: Event)
    requires LeaveInv(s.pcs, s.sh)
    ensures LeaveInv(Step(s, e).pcs, Step(s, e).sh)
  {
    hide LeaveInv, WorkerStep, Outside;
    if e.Worker? {
      if e.w in s.pcs {
        LeaveWorker(s, e.w, e.spurious);
      }
    } else if e.Enqueue? || e.Stop? || e.WriteDel? {
      LeaveOutside(s.pcs, s.sh, e);
    } else {
      LeaveManager(s, e);
    }
  }

  lemma LeaveManager(s: State, e: Event)
    requires LeaveInv(s.pcs, s.sh)
    ensures LeaveInv(ManagerStep(s, e).pcs, ManagerStep(s, e).sh)
  {
    if e.Spawn? && e.w !in s.pcs {
      LeaveUpdate(s.pcs, s.sh.leavers, e.w, Top);
    }
  }

  // ---------------------------------------------------------------- the registry of threads

  ghost predicate RegisterInv(s: State) {
    && (forall w :: w in s.pcs && !s.pcs[w].Gone? ==> w in s.registered || s.manager == Spawned(w))
    && (forall id :: id in s.sh.delIds ==> Leaver(s, id))
    && Distinct(s.sh.delIds)
    && (s.manager.Spawned? ==> s.manager.w !in s.registered && s.manager.w in s.pcs)
    && forall w :: w in s.registered ==> w in s.pcs
  }

  /** A thread whose id is queued for deletion: finished, still in _workers or about to be put
      there, and not yet being joined. */
  ghost predicate Leaver(s: State, id: nat) {
    && id in s.pcs && s.pcs[id] == Gone(true)
    && (id in s.registered || s.manager == Spawned(id))
    && s.manager != Joining(id)
  }

  ghost predicate Distinct(ids: seq<nat>) {
    forall i, j :: 0 <= i < j < |ids| ==> ids[i] != ids[j]
  }

  ghost predicate JoinInv(s: State) {
    s.manager.Joining? ==> s.manager.w in s.registered && s.manager.w in s.pcs && s.pcs[s.manager.w] == Gone(true)
  }

  lemma RegisterLocal(w: nat, pc: Pc, sh: Shared, spurious: bool)
    ensures var (pc', sh') := Local(w, pc, sh, spurious);
            || (sh'.delIds == sh.delIds && (pc.Gone? ==> pc' == pc))
            || (pc == Leave && pc' == Gone(true) && sh'.delIds == sh.delIds + [w])
  {
  }

  lemma RegisterWorker(s: State, w: nat, spurious: bool)
    requires RegisterInv(s) && JoinInv(s) && w in s.pcs
    ensures RegisterInv(WorkerStep(s, w, spurious)) && JoinInv(WorkerStep(s, w, spurious))
  {
    RegisterLocal(w, s.pcs[w], s.sh, spurious);
    hide Local;
    var t := WorkerStep(s, w, spurious);
    assert w in s.sh.delIds ==> Leaver(s, w);
    forall id | id in t.sh.delIds ensures Leaver(t, id) {
      if id in s.sh.delIds {
        assert Leaver(s, id);
      }
    }
  }

  lemma RegisterClearPop(s: State)
    requires RegisterInv(s) && JoinInv(s) && s.manager == Idle && s.sh.delIds != []
    ensures var t := ManagerStep(s, ClearPop); RegisterInv(t) && JoinInv(t) && t.thrown == s.thrown
  {
    var t := ManagerStep(s, ClearPop);
    var id := s.sh.delIds[0];
    assert id in s.sh.delIds;
    assert Leaver(s, id);
    forall other | other in t.sh.delIds ensures Leaver(t, other) {
      var i :| 0 <= i < |s.sh.delIds[1..]| && s.sh.delIds[1..][i] == other;
      assert s.sh.delIds[0] != s.sh.delIds[i + 1];
      assert s.sh.delIds[i + 1] in s.sh.delIds;
      assert Leaver(s, other);
    }
  }

  lemma RegisterManager(s: State, e: Event)
    requires RegisterInv(s) && JoinInv(s)
    ensures RegisterInv(ManagerStep(s, e)) && JoinInv(ManagerStep(s, e)) && ManagerStep(s, e).thrown == s.thrown
  {
    if e.ClearPop? && s.manager == Idle && s.sh.delIds != [] {
      RegisterClearPop(s);
    } else {
      var t := ManagerStep(s, e);
      forall id | id in t.sh.delIds ensures Leaver(t, id) {
        assert Leaver(s, id);
      }
    }
  }

  lemma RegisterStep(s: State, e: Event)
    requires RegisterInv(s) && JoinInv(s)
    ensures RegisterInv(Step(s, e)) && JoinInv(Step(s, e)) && Step(s, e).thrown == s.thrown
  {
    if e.Worker? && e.w in s.pcs {
      RegisterWorker(s, e.w, e.spurious);
      hide WorkerStep;
    } else if e.Enqueue? || e.Stop? || e.WriteDel? {
      var t := Step(s, e);
      forall id | id in t.sh.delIds ensures Leaver(t, id) {
        assert Leaver(s, id);
      }
    } else {
      RegisterManager(s, e);
      hide ManagerStep;
    }
  }

  /** No thread that has left is forgotten: until it has been joined, its id is queued for deletion or is the
      one being joined. */
  ghost predicate QueuedInv(s: State) {
    forall w :: w in s.pcs && s.pcs[w] == Gone(true) && (w in s.registered || s.manager == Spawned(w)) ==>
                  w in s.sh.delIds || s.manager == Joining(w)
  }

  lemma QueuedLocal(w: nat, pc: Pc, sh: Shared, spurious: bool)
    ensures var (pc', sh') := Local(w, pc, sh, spurious);
            && (forall id :: id in sh.delIds ==> id in sh'.delIds)
            && (pc' == Gone(true) ==> pc == Gone(true) || w in sh'.delIds)
  {
  }

  lemma QueuedStep(s: State, e: Event)
    requires QueuedInv(s)
    ensures QueuedInv(Step(s, e))
  {
    if e.Worker? && e.w in s.pcs {
      QueuedLocal(e.w, s.pcs[e.w], s.sh, e.spurious);
      hide Local;
    } else if e.ClearPop? && s.manager == Idle && s.sh.delIds != [] {
      assert s.sh.delIds == [s.sh.delIds[0]] + s.sh.delIds[1..];
    }
  }

  // ---------------------------------------------------------------- every run

  ghost predicate Inv(s: State) {
    && LockInv(s.pcs, s.sh.lock) && SeenInv(s.pcs, s.sh) && FifoInv(s.sh) && StoredInv(s.sh)
    && OnceInv(s.pcs, s.sh.dequeued, s.sh.called) && LeaveInv(s.pcs, s.sh) && RegisterInv(s) && JoinInv(s)
    && QueuedInv(s) && !s.sh.poppedEmpty && !s.thrown
  }

  lemma InvStep(s: State, e: Event)
    requires Inv(s)
    ensures Inv(Step(s, e))
  {
    hide Step, LockInv, SeenInv, FifoInv, OnceInv, StoredInv, LeaveInv, RegisterInv, JoinInv, QueuedInv;
    LockStep(s, e);
    SeenStep(s, e);
    FifoStep(s, e);
    OnceStep(s, e);
    StoredStep(s, e);
    LeaveStep(s, e);
    RegisterStep(s, e);
    QueuedStep(s, e);
  }

  /** In every interleaving from the start: no pop of an empty queue and no "iterator failure";
      the jobs dequeued are the oldest ones, none is called twice; and each worker that leaves
      through _delCnt has used up exactly one unit of it. */
  lemma {:induction false} Safety(s: State, events: seq<Event>)
    requires Init(s)
    ensures Inv(RunAll(s, events))
    ensures !RunAll(s, events).sh.poppedEmpty && !RunAll(s, events).thrown
    ensures FifoInv(RunAll(s, events).sh)
    ensures forall k: nat :: RunAll(s, events).sh.called[k] <= 1
    ensures RunAll(s, events).sh.granted == |RunAll(s, events).sh.leavers| + RunAll(s, events).sh.delCnt
  {
    if events == [] {
    } else {
      hide Step, Init;
      Safety(s, events[..|events| - 1]);
      InvStep(RunAll(s, events[..|events| - 1]), events[|events| - 1]);
    }
  }

  /** What must not happen would show: a pop that meets an empty queue, and an id that is not in _workers. */
  lemma ErrorsShow(s: State, w: nat, spurious: bool)
    ensures w in s.pcs && s.pcs[w].Pop? && s.sh.queue == [] ==> Step(s, Worker(w, spurious)).sh.poppedEmpty
    ensures s.manager == Idle && s.sh.delIds != [] && s.sh.delIds[0] !in s.registered ==> Step(s, ClearPop).thrown
  {
  }

  /** Tasks leave in the order they came: in every run, a worker that pops gets the first job of the
      log that no worker had before. */
  lemma PopsInOrder(s: State, events: seq<Event>, w: nat)
    requires Init(s) && w in RunAll(s, events).pcs && RunAll(s, events).pcs[w].Pop?
    ensures var t := RunAll(s, events);
            && t.sh.dequeued < |t.sh.log|
            && Step(t, Worker(w, false)).pcs[w] == Call(t.sh.dequeued)
            && Step(t, Worker(w, false)).sh.dequeued == t.sh.dequeued + 1
            && forall v :: v in t.pcs && t.pcs[v].Call? ==> t.pcs[v].job < t.sh.dequeued
  {
    hide Init, RunAll;
    Safety(s, events);
    assert SeenHolds(RunAll(s, events).sh.queue, RunAll(s, events).sh.delCnt, RunAll(s, events).sh.isRun,
                     RunAll(s, events).pcs[w]);
  }

  // ---------------------------------------------------------------- chains do not deadlock

  /** The pool as its jobs see it: which are dequeued, which are being called, which are done. */
  datatype Chain = Chain(log: seq<Job>, dequeued: nat, calling: set<nat>, done: set<nat>)

  ghost function Calling(pcs: map<nat, Pc>): set<nat> {
    set w | w in pcs && pcs[w].Call? :: pcs[w].job
  }

  ghost function Abs(s: State): Chain {
    Chain(s.sh.log, s.sh.dequeued, Calling(s.pcs), set k | k in s.sh.called)
  }

  lemma CallingMeans(pcs: map<nat, Pc>, k: nat)
    ensures k in Calling(pcs) <==> BeingCalled(pcs, k)
  {
  }

  ghost predicate ChainStep(c: Chain, d: Chain) {
    || (|d.log| == |c.log| + 1 && d.log[..|c.log|] == c.log && d == c.(log := d.log))
    || (c.dequeued < |c.log| && d == c.(dequeued := c.dequeued + 1, calling := c.calling + {c.dequeued}))
    || exists k :: k in c.calling && CanFinish(c, k) && d == c.(calling := c.calling - {k}, done := c.done + {k})
  }

  ghost predicate CanFinish(c: Chain, k: nat) {
    k < |c.log| && (c.log[k].dep.Some? ==> var d := c.log[k].dep.value; d in c.done && d < |c.log| && c.log[d].stores)
  }

  /** No job that another job waits for returns without a result. */
  ghost predicate Sound(log: seq<Job>) {
    forall k :: 0 <= k < |log| && log[k].dep.Some? && log[k].dep.value < |log| ==> log[log[k].dep.value].stores
  }

  ghost predicate ChainInv(c: Chain) {
    && c.dequeued <= |c.log|
    && (forall k :: 0 <= k < |c.log| ==> c.log[k].dep.Some? ==> c.log[k].dep.value < k)
    && (forall k: nat :: k < c.dequeued <==> k in c.calling + c.done)
    && c.calling !! c.done
  }

  lemma AbsInv(s: State)
    requires FifoInv(s.sh) && OnceInv(s.pcs, s.sh.dequeued, s.sh.called)
    ensures ChainInv(Abs(s))
  {
    var c := Abs(s);
    forall k: nat ensures k < c.dequeued <==> k in c.calling + c.done {
      CallingMeans(s.pcs, k);
    }
  }

  lemma CallingOther(pcs: map<nat, Pc>, w: nat, pc: Pc)
    requires !pc.Call? && (w in pcs ==> !pcs[w].Call?)
    ensures Calling(pcs[w := pc]) == Calling(pcs)
  {
    forall k: nat ensures BeingCalled(pcs[w := pc], k) <==> BeingCalled(pcs, k) {
      if BeingCalled(pcs, k) {
        CalledElsewhere(pcs, w, pc, k);
      }
    }
    forall k: nat ensures k in Calling(pcs[w := pc]) <==> k in Calling(pcs) {
      CallingMeans(pcs, k);
      CallingMeans(pcs[w := pc], k);
    }
  }

  lemma CallingAfterPop(pcs: map<nat, Pc>, w: nat, job: nat)
    requires w in pcs && !pcs[w].Call?
    ensures Calling(pcs[w := Call(job)]) == Calling(pcs) + {job}
  {
    var t := pcs[w := Call(job)];
    assert t[w] == Call(job);
    forall k: nat ensures k in Calling(t) <==> k in Calling(pcs) + {job} {
      if k in Calling(pcs) {
        CallingMeans(pcs, k);
        CalledElsewhere(pcs, w, Call(job), k);
      }
    }
  }

  lemma CallingAfterReturn(pcs: map<nat, Pc>, w: nat, dequeued: nat, called: multiset<nat>)
    requires OnceInv(pcs, dequeued, called) && w in pcs && pcs[w].Call?
    ensures Calling(pcs[w := Top]) == Calling(pcs) - {pcs[w].job}
  {
    var t := pcs[w := Top];
    forall k: nat ensures k in Calling(t) <==> k in Calling(pcs) - {pcs[w].job} {
      CallingMeans(pcs, k);
      if k in Calling(pcs) && k != pcs[w].job {
        CalledElsewhere(pcs, w, Top, k);
      }
    }
  }

  lemma LogLocal(w: nat, pc: Pc, sh: Shared, spurious: bool)
    ensures Local(w, pc, sh, spurious).1.log == sh.log
  {
  }

  /** Every step of the machine is a step of the chain or invisible to it. */
  lemma Refines(s: State, e: Event)
    requires FifoInv(s.sh) && OnceInv(s.pcs, s.sh.dequeued, s.sh.called) && StoredInv(s.sh)
    ensures Abs(Step(s, e)) == Abs(s) || ChainStep(Abs(s), Abs(Step(s, e)))
  {
    if e.Worker? && e.w in s.pcs {
      RefinesWorker(s, e.w, e.spurious);
    } else if e.Spawn? && e.w !in s.pcs {
      CallingOther(s.pcs, e.w, Top);
    }
  }

  lemma RefinesWorker(s: State, w: nat, spurious: bool)
    requires FifoInv(s.sh) && OnceInv(s.pcs, s.sh.dequeued, s.sh.called) && StoredInv(s.sh) && w in s.pcs
    ensures Abs(WorkerStep(s, w, spurious)) == Abs(s) || ChainStep(Abs(s), Abs(WorkerStep(s, w, spurious)))
  {
    hide Local, OnceInv;
    OnceLocal(w, s.pcs[w], s.sh, spurious);
    LogLocal(w, s.pcs[w], s.sh, spurious);
    var (pc, sh) := Local(w, s.pcs[w], s.sh, spurious);
    var t := WorkerStep(s, w, spurious);
    if pc == s.pcs[w] {
      assert s.pcs[w := pc] == s.pcs;
    }
    if s.pcs[w].Pop? && pc.Call? {
      CallingAfterPop(s.pcs, w, s.sh.queue[0]);
      assert Abs(t) == Abs(s).(dequeued := s.sh.dequeued + 1, calling := Calling(s.pcs) + {s.sh.dequeued});
    } else if s.pcs[w].Call? && pc == Top {
      var job := s.pcs[w].job;
      CallingAfterReturn(s.pcs, w, s.sh.dequeued, s.sh.called);
      assert job in Calling(s.pcs);
      assert Abs(t) == Abs(s).(calling := Calling(s.pcs) - {job}, done := Abs(s).done + {job});
      assert CanFinish(Abs(s), job);
    } else if !s.pcs[w].Call? {
      CallingOther(s.pcs, w, pc);
    }
  }

  /** The oldest job being called is not blocked, unless on a lost result: what it waits for was enqueued,
      hence dequeued, before it, and is not being called any more. */
  lemma OldestCanFinish(c: Chain, k: nat)
    requires ChainInv(c) && Sound(c.log) && k in c.calling && forall j :: j in c.calling ==> k <= j
    ensures CanFinish(c, k)
  {
    assert k in c.calling + c.done;
    assert k < c.dequeued;
    if c.log[k].dep.Some? {
      var dep := c.log[k].dep.value;
      assert dep < k;
      assert dep in c.calling + c.done;
      assert dep !in c.calling;
    }
  }

  lemma {:induction false} LeastOf(s: set<nat>) returns (k: nat)
    requires s != {}
    ensures k in s && forall j :: j in s ==> k <= j
  {
    var any :| any in s;
    if s == {any} {
      k := any;
    } else {
      assert s - {any} != {};
      var least := LeastOf(s - {any});
      k := if least < any then least else any;
      assert forall j :: j in s ==> j == any || j in s - {any};
    }
  }

  /** Two steps for every job not yet dequeued, one for every job being called. */
  ghost function Work(c: Chain): int {
    2 * (|c.log| - c.dequeued) + |c.calling|
  }

  lemma AfterPop(c: Chain)
    requires ChainInv(c) && c.dequeued < |c.log|
    ensures var d := c.(dequeued := c.dequeued + 1, calling := c.calling + {c.dequeued});
            ChainInv(d) && Work(d) == Work(c) - 1
  {
    var d := c.(dequeued := c.dequeued + 1, calling := c.calling + {c.dequeued});
    assert c.dequeued !in c.calling + c.done;
    forall k: nat ensures k < d.dequeued <==> k in d.calling + d.done {
      assert k < c.dequeued <==> k in c.calling + c.done;
    }
  }

  lemma AfterReturn(c: Chain, k: nat)
    requires ChainInv(c) && k in c.calling
    ensures var d := c.(calling := c.calling - {k}, done := c.done + {k}); ChainInv(d) && Work(d) == Work(c) - 1
  {
    var d := c.(calling := c.calling - {k}, done := c.done + {k});
    assert d.calling + d.done == c.calling + c.done;
  }

  /** A step of the chain that adds no job does one unit of work. */
  lemma StepsDoWork(c: Chain, d: Chain)
    requires ChainInv(c) && ChainStep(c, d) && d.log == c.log
    ensures Work(d) == Work(c) - 1
  {
    hide ChainInv, Work;
    if c.dequeued < |c.log| && d == c.(dequeued := c.dequeued + 1, calling := c.calling + {c.dequeued}) {
      AfterPop(c);
    } else {
      var k :| k in c.calling && CanFinish(c, k) && d == c.(calling := c.calling - {k}, done := c.done + {k});
      AfterReturn(c, k);
    }
  }

  // ---------------------------------------------------------------- progress of the machine

  ghost function WorkOf(s: State): int {
    Work(Abs(s))
  }

  /** A step of a worker is idle, or dequeues a job, or ends one: the work left falls by one at a time. */
  lemma WorkerDoesWork(s: State, w: nat, spurious: bool)
    requires Inv(s) && w in s.pcs
    ensures var t := Step(s, Worker(w, spurious));
            t.sh.log == s.sh.log && WorkOf(t) == if Abs(t) == Abs(s) then WorkOf(s) else WorkOf(s) - 1
  {
    hide Local, ChainInv, ChainStep, Work, OnceInv, FifoInv;
    LogLocal(w, s.pcs[w], s.sh, spurious);
    Refines(s, Worker(w, spurious));
    AbsInv(s);
    if Abs(Step(s, Worker(w, spurious))) != Abs(s) {
      StepsDoWork(Abs(s), Abs(Step(s, Worker(w, spurious))));
    }
  }

  predicate OnlyWorkers(events: seq<Event>) {
    forall i :: 0 <= i < |events| ==> events[i].Worker?
  }

  /** The steps of a run that dequeue a job or end one. */
  ghost function Advances(s: State, events: seq<Event>): nat {
    if events == [] then 0
    else
      var before := events[..|events| - 1];
      Advances(s, before) + (if Abs(RunAll(s, events)) == Abs(RunAll(s, before)) then 0 else 1)
  }

  /** Without new jobs, the workers' steps that get a job on are bounded by the work there is, in whatever
      order they come: two for a job not yet dequeued, one for a job under call. */
  lemma {:induction false} WorkIsUsedUp(s: State, events: seq<Event>)
    requires Inv(s) && OnlyWorkers(events)
    ensures Inv(RunAll(s, events)) && RunAll(s, events).sh.log == s.sh.log
    ensures Advances(s, events) == WorkOf(s) - WorkOf(RunAll(s, events)) <= WorkOf(s)
  {
    hide Inv, Step, WorkOf, Abs;
    if events != [] {
      var before, last := events[..|events| - 1], events[|events| - 1];
      WorkIsUsedUp(s, before);
      InvStep(RunAll(s, before), last);
      if last.w in RunAll(s, before).pcs {
        WorkerDoesWork(RunAll(s, before), last.w, last.spurious);
      } else {
        NoSuchWorker(RunAll(s, before), last);
      }
    }
    WorkIsNatural(RunAll(s, events));
  }

  lemma NoSuchWorker(s: State, e: Event)
    requires e.Worker? && e.w !in s.pcs
    ensures Step(s, e) == s
  {
  }

  lemma WorkIsNatural(s: State)
    requires Inv(s)
    ensures WorkOf(s) >= 0
  {
  }

  lemma {:induction false} RunJoins(s: State, a: seq<Event>, b: seq<Event>)
    ensures RunAll(s, a + b) == RunAll(RunAll(s, a), b)
  {
    hide Step;
    if b == [] {
      assert a + b == a;
    } else {
      RunJoins(s, a, b[..|b| - 1]);
      assert (a + b)[..|a + b| - 1] == a + b[..|b| - 1];
    }
  }

  lemma RunOne(s: State, e: Event)
    ensures RunAll(s, [e]) == Step(s, e)
  {
    hide Step;
    assert [e][..0] == [];
    assert RunAll(s, [e][..0]) == s;
  }

  /** Whenever jobs are under call and no result that is waited for gets lost, one of these calls can
      return: calls never block each other in a circle, whatever the number of workers. */
  lemma SomeCallCanReturn(s: State) returns (w: nat, k: nat)
    requires Inv(s) && Sound(s.sh.log) && Calling(s.pcs) != {}
    ensures w in s.pcs && s.pcs[w] == Call(k) && Ready(s.sh, k)
  {
    k := LeastOf(Calling(s.pcs));
    AbsInv(s);
    OldestCanFinish(Abs(s), k);
    CallingMeans(s.pcs, k);
    w :| w in s.pcs && s.pcs[w] == Call(k);
    StoredMeans(s.sh, k);
  }

  lemma StoredMeans(sh: Shared, k: nat)
    requires StoredInv(sh) && k < |sh.log|
    requires sh.log[k].dep.Some? ==> var d := sh.log[k].dep.value; d < |sh.log| && d in sh.called && sh.log[d].stores
    ensures Ready(sh, k)
  {
  }

  lemma CallsNeverBlockEachOther(s: State, events: seq<Event>) returns (w: nat, k: nat)
    requires Init(s) && Sound(RunAll(s, events).sh.log) && Calling(RunAll(s, events).pcs) != {}
    ensures w in RunAll(s, events).pcs && RunAll(s, events).pcs[w] == Call(k) && Ready(RunAll(s, events).sh, k)
  {
    hide Init, Inv, Step;
    Safety(s, events);
    w, k := SomeCallCanReturn(RunAll(s, events));
  }

  /** A worker that is neither gone nor about to go. */
  ghost predicate Live(s: State) {
    exists w :: w in s.pcs && Stays(s.pcs[w])
  }

  predicate Stays(pc: Pc) {
    !pc.Gone? && !pc.Leave?
  }

  /** The pool runs and is not asked to shrink. */
  ghost predicate Steady(s: State) {
    Inv(s) && s.sh.isRun && s.sh.delCnt == 0 && Live(s)
  }

  lemma SteadyLocal(w: nat, pc: Pc, sh: Shared, spurious: bool)
    requires sh.isRun && sh.delCnt == 0
    ensures var (pc', sh') := Local(w, pc, sh, spurious);
            sh'.isRun && sh'.delCnt == 0 && (Stays(pc) ==> Stays(pc'))
  {
  }

  lemma SteadyStep(s: State, w: nat, spurious: bool)
    requires Steady(s)
    ensures Steady(Step(s, Worker(w, spurious)))
  {
    InvStep(s, Worker(w, spurious));
    hide Local, Inv, Stays;
    if w in s.pcs {
      SteadyLocal(w, s.pcs[w], s.sh, spurious);
      var live :| live in s.pcs && Stays(s.pcs[live]);
      assert Stays(Step(s, Worker(w, spurious)).pcs[live]);
    }
  }

  lemma {:induction false} SteadyRun(s: State, events: seq<Event>)
    requires Steady(s) && OnlyWorkers(events)
    ensures Steady(RunAll(s, events))
  {
    hide Steady, Step;
    if events != [] {
      var last := events[|events| - 1];
      SteadyRun(s, events[..|events| - 1]);
      SteadyStep(RunAll(s, events[..|events| - 1]), last.w, last.spurious);
    }
  }

  /** How far a worker is from its next pop, with a task waiting. */
  function Rank(pc: Pc): nat {
    match pc
    case EvalDel => 10
    case EvalStop => 9
    case Top => 8
    case WantLock => 7
    case EvalQueue => 6
    case Woken(_) => 5
    case Load(_) => 4
    case Cas(_, now) => if now > 0 then 3 else 2
    case Pop(_) => 1
    case _ => 0
  }

  lemma RankFalls(w: nat, pc: Pc, sh: Shared)
    requires sh.isRun && sh.delCnt == 0 && sh.queue != [] && Rank(pc) > 1
    requires sh.lock.None? || sh.lock == Some(w)
    requires pc.WantLock? ==> sh.lock.None?
    ensures var (pc', sh') := Local(w, pc, sh, false);
            0 < Rank(pc') < Rank(pc) && sh'.queue == sh.queue && (sh'.lock.None? || sh'.lock == Some(w))
  {
  }

  lemma PopAdvances(s: State, w: nat)
    requires Inv(s) && w in s.pcs && s.pcs[w].Pop? && s.sh.queue != []
    ensures Abs(Step(s, Worker(w, false))) != Abs(s)
  {
    assert Step(s, Worker(w, false)).sh.dequeued == s.sh.dequeued + 1;
  }

  lemma HoldsIffLock(s: State, w: nat)
    requires Inv(s) && w in s.pcs
    ensures Holds(s.pcs[w]) <==> s.sh.lock == Some(w)
    ensures s.sh.lock.Some? ==> s.sh.lock.value in s.pcs
  {
  }

  /** A worker that can have the lock gets to its next pop. */
  lemma {:induction false} ToPop(s: State, w: nat) returns (events: seq<Event>)
    requires Steady(s) && s.sh.queue != [] && w in s.pcs && Rank(s.pcs[w]) > 0
    requires s.sh.lock.None? || s.sh.lock == Some(w)
    ensures OnlyWorkers(events) && WorkOf(RunAll(s, events)) == WorkOf(s) - 1
    decreases Rank(s.pcs[w])
  {
    hide Inv, Local, WorkOf, Abs, Live, Stays;
    var e := Worker(w, false);
    events := [e];
    RunOne(s, e);
    WorkerDoesWork(s, w, false);
    if s.pcs[w].Pop? {
      PopAdvances(s, w);
    } else if WorkOf(Step(s, e)) == WorkOf(s) {
      assert Rank(s.pcs[w]) > 1;
      HoldsIffLock(s, w);
      RankFalls(w, s.pcs[w], s.sh);
      SteadyStep(s, w, false);
      var more := ToPop(Step(s, e), w);
      events := [e] + more;
      RunJoins(s, [e], more);
    }
  }

  /** A worker about to go that holds the lock lets go of it. */
  lemma LeaverLetsGo(s: State, w: nat)
    requires s.sh.lock == Some(w) && w in s.pcs && s.pcs[w].Leave? && Inv(s)
    ensures var t := Step(s, Worker(w, false));
            t.sh.lock.None? && t.sh.queue == s.sh.queue && WorkOf(t) == WorkOf(s) && Calling(t.pcs) == Calling(s.pcs)
  {
    CallingOther(s.pcs, w, Gone(true));
  }

  lemma NotCalling(s: State, w: nat)
    requires Calling(s.pcs) == {} && w in s.pcs && Stays(s.pcs[w])
    ensures Rank(s.pcs[w]) > 0
  {
    assert forall v :: v in s.pcs && s.pcs[v].Call? ==> s.pcs[v].job in Calling(s.pcs);
  }

  lemma TaskWaits(s: State)
    requires Inv(s) && Calling(s.pcs) == {} && WorkOf(s) > 0
    ensures s.sh.queue != []
  {
  }

  lemma ReturnAdvances(s: State, w: nat, k: nat)
    requires Inv(s) && w in s.pcs && s.pcs[w] == Call(k) && Ready(s.sh, k)
    ensures Abs(Step(s, Worker(w, false))) != Abs(s)
  {
    var t := Step(s, Worker(w, false));
    assert s.sh.called[k] == 0 && t.sh.called[k] == 1;
    assert k in Abs(t).done && k !in Abs(s).done;
  }

  /** In a pool that runs and is not asked to shrink, with one worker or more, the workers alone can always
      get a job on, as long as work is left and no result that is waited for gets lost. */
  lemma SomeStepsAdvance(s: State) returns (events: seq<Event>)
    requires Steady(s) && Sound(s.sh.log) && WorkOf(s) > 0
    ensures OnlyWorkers(events) && WorkOf(RunAll(s, events)) == WorkOf(s) - 1
  {
    hide Inv, Local, WorkOf, Abs, Live, Stays, Sound;
    if Calling(s.pcs) != {} {
      var w, k := SomeCallCanReturn(s);
      events := [Worker(w, false)];
      RunOne(s, Worker(w, false));
      ReturnAdvances(s, w, k);
      WorkerDoesWork(s, w, false);
    } else {
      TaskWaits(s);
      events := PopNext(s);
    }
  }

  lemma PopNext(s: State) returns (events: seq<Event>)
    requires Steady(s) && s.sh.queue != [] && Calling(s.pcs) == {}
    ensures OnlyWorkers(events) && WorkOf(RunAll(s, events)) == WorkOf(s) - 1
  {
    hide Inv, Local, WorkOf, Abs, Calling, Stays;
    var live :| live in s.pcs && Stays(s.pcs[live]);
    HoldsIffLock(s, live);
    if s.sh.lock.None? {
      NotCalling(s, live);
      events := ToPop(s, live);
    } else {
      var w := s.sh.lock.value;
      HoldsIffLock(s, w);
      if s.pcs[w].Leave? {
        var e := Worker(w, false);
        LeaverLetsGo(s, w);
        SteadyStep(s, w, false);
        var t := Step(s, e);
        var next :| next in t.pcs && Stays(t.pcs[next]);
        NotCalling(t, next);
        var more := ToPop(t, next);
        events := [e] + more;
        RunOne(s, e);
        RunJoins(s, [e], more);
      } else {
        HolderRanks(s.pcs[w]);
        events := ToPop(s, w);
      }
    }
  }

  lemma HolderRanks(pc: Pc)
    requires Holds(pc) && !pc.Leave?
    ensures Rank(pc) > 0
  {
  }

  ghost predicate AllCalled(s: State) {
    forall k: nat :: k < |s.sh.log| ==> s.sh.called[k] == 1
  }

  /** ... so that in the end every job has been called. */
  lemma {:induction false} AllJobsGetCalled(s: State) returns (events: seq<Event>)
    requires Steady(s) && Sound(s.sh.log)
    ensures OnlyWorkers(events) && AllCalled(RunAll(s, events))
    decreases WorkOf(s)
  {
    hide Inv, WorkOf, Sound;
    WorkIsNatural(s);
    if WorkOf(s) == 0 {
      events := [];
      NoWorkAllCalled(s);
    } else {
      var first := SomeStepsAdvance(s);
      SteadyRun(s, first);
      WorkIsUsedUp(s, first);
      var more := AllJobsGetCalled(RunAll(s, first));
      events := first + more;
      RunJoins(s, first, more);
    }
  }

  lemma NoWorkAllCalled(s: State)
    requires Inv(s) && WorkOf(s) == 0
    ensures AllCalled(s)
  {
    AbsInv(s);
    var c := Abs(s);
    assert c.calling == {} && c.dequeued == |c.log|;
    forall k: nat | k < |s.sh.log| ensures s.sh.called[k] == 1 {
      assert k in c.calling + c.done;
    }
  }

  /** A job that waits for a lost result is never called to its end, whatever happens. */
  lemma {:induction false} LostIsLost(s: State, events: seq<Event>, k: nat)
    requires Inv(s) && k < |s.sh.log| && s.sh.log[k].dep.Some?
    requires s.sh.log[k].dep.value < k && !s.sh.log[s.sh.log[k].dep.value].stores
    ensures s.sh.log <= RunAll(s, events).sh.log && Inv(RunAll(s, events))
    ensures RunAll(s, events).sh.called[k] == 0
  {
    hide Step, Inv;
    if events != [] {
      LostIsLost(s, events[..|events| - 1], k);
      InvStep(RunAll(s, events[..|events| - 1]), events[|events| - 1]);
      LogGrows(RunAll(s, events[..|events| - 1]), events[|events| - 1]);
    }
    NotReady(RunAll(s, events), k);
  }

  lemma LogGrows(s: State, e: Event)
    ensures s.sh.log <= Step(s, e).sh.log
  {
    if e.Worker? && e.w in s.pcs {
      LogLocal(e.w, s.pcs[e.w], s.sh, e.spurious);
      hide Local;
    }
  }

  lemma NotReady(s: State, k: nat)
    requires Inv(s) && k < |s.sh.log| && s.sh.log[k].dep.Some?
    requires s.sh.log[k].dep.value < k && !s.sh.log[s.sh.log[k].dep.value].stores
    ensures s.sh.called[k] == 0
  {
  }

  ghost predicate Completable(s: State) {
    exists events :: OnlyWorkers(events) && AllCalled(RunAll(s, events))
  }

  /** The workers of a pool can call every job to its end exactly when no job that another one waits for
      loses its result. */
  lemma CompletableIffSound(s: State)
    requires Steady(s)
    ensures Completable(s) <==> Sound(s.sh.log)
  {
    if Sound(s.sh.log) {
      var events := AllJobsGetCalled(s);
    } else {
      hide Step, RunAll;
      DepsAreEarlier(s);
      var k :| 0 <= k < |s.sh.log| && s.sh.log[k].dep.Some? && s.sh.log[k].dep.value < |s.sh.log|
               && !s.sh.log[s.sh.log[k].dep.value].stores;
      forall events | OnlyWorkers(events) ensures !AllCalled(RunAll(s, events)) {
        LostIsLost(s, events, k);
      }
    }
  }

  lemma DepsAreEarlier(s: State)
    requires Inv(s)
    ensures forall k :: 0 <= k < |s.sh.log| && s.sh.log[k].dep.Some? ==> s.sh.log[k].dep.value < k
  {
  }

  // ---------------------------------------------------------------- a pool that is stuck

  /** A pool of one registered worker. */
  function OneWorker(pc: Pc, sh: Shared): State {
    State(map[0 := pc], sh, {0}, Idle, false)
  }

  /** So many steps of one worker. */
  function Goes(w: nat, pc: Pc, sh: Shared, n: nat): (Pc, Shared) {
    if n == 0 then (pc, sh)
    else
      var (before, shared) := Goes(w, pc, sh, n - 1);
      Local(w, before, shared, false)
  }

  function StepsOf(w: nat, n: nat): seq<Event> {
    seq(n, _ => Worker(w, false))
  }

  lemma {:induction false} GoesIsRun(s: State, w: nat, n: nat)
    requires w in s.pcs
    ensures var (pc, sh) := Goes(w, s.pcs[w], s.sh, n);
            RunAll(s, StepsOf(w, n)) == s.(pcs := s.pcs[w := pc], sh := sh)
  {
    hide Local;
    if n == 0 {
      assert s.pcs[w := s.pcs[w]] == s.pcs;
    } else {
      GoesIsRun(s, w, n - 1);
      assert StepsOf(w, n)[..n - 1] == StepsOf(w, n - 1);
      var (before, _) := Goes(w, s.pcs[w], s.sh, n - 1);
      var (pc, _) := Goes(w, s.pcs[w], s.sh, n);
      assert s.pcs[w := before][w := pc] == s.pcs[w := pc];
    }
  }

  lemma GoesNext(w: nat, pc: Pc, sh: Shared, n: nat)
    ensures Goes(w, pc, sh, 0) == (pc, sh)
    ensures Goes(w, pc, sh, n + 1) == Local(w, Goes(w, pc, sh, n).0, Goes(w, pc, sh, n).1, false)
  {
  }

  lemma GoesFirst(w: nat, pc: Pc, sh: Shared, n: nat)
    ensures var (next, shared) := Local(w, pc, sh, false); Goes(w, pc, sh, 1 + n) == Goes(w, next, shared, n)
  {
    GoesNext(w, pc, sh, 0);
    GoesOn(w, pc, sh, 1, n);
  }

  lemma SevenSteps(sh: Shared, locked: Shared)
    requires sh.isRun && sh.delCnt == 0 && sh.lock.None? && sh.queue != [] && locked == sh.(lock := Some(0))
    ensures Local(0, Top, sh, false) == (WantLock, sh) && Local(0, WantLock, sh, false) == (EvalQueue, locked)
    ensures Local(0, EvalQueue, locked, false) == (Woken(SawTask), locked)
    ensures Local(0, Woken(SawTask), locked, false) == (Load(SawTask), locked)
    ensures Local(0, Load(SawTask), locked, false) == (Cas(SawTask, 0), locked)
    ensures Local(0, Cas(SawTask, 0), locked, false) == (Pop(SawTask), locked)
    ensures Local(0, Pop(SawTask), locked, false)
            == (Call(sh.queue[0]), sh.(queue := sh.queue[1..], dequeued := sh.dequeued + 1))
  {
  }

  /** From the top of its loop the worker takes the next task in seven steps. */
  lemma TakesTask(sh: Shared)
    requires sh.isRun && sh.delCnt == 0 && sh.lock.None? && sh.queue != []
    ensures Goes(0, Top, sh, 7) == (Call(sh.queue[0]), sh.(queue := sh.queue[1..], dequeued := sh.dequeued + 1))
  {
    hide Goes, Local;
    SevenSteps(sh, sh.(lock := Some(0)));
    GoesNext(0, Top, sh, 0);
    GoesNext(0, Top, sh, 1);
    GoesNext(0, Top, sh, 2);
    GoesNext(0, Top, sh, 3);
    GoesNext(0, Top, sh, 4);
    GoesNext(0, Top, sh, 5);
    GoesNext(0, Top, sh, 6);
  }

  lemma {:induction false} GoesOn(w: nat, pc: Pc, sh: Shared, m: nat, n: nat)
    ensures Goes(w, pc, sh, m + n) == Goes(w, Goes(w, pc, sh, m).0, Goes(w, pc, sh, m).1, n)
  {
    hide Local;
    if n > 0 {
      GoesOn(w, pc, sh, m, n - 1);
    }
  }

  /** Two jobs, of which the second waits for the first and the first returns without a result. */
  function LossyJobs(): seq<Job> {
    [Job(None, false), Job(Some(0), true)]
  }

  function LossyPool(dequeued: nat, called: multiset<nat>): Shared
    requires dequeued <= 2
  {
    Shared([0, 1][dequeued..], 0, true, None, [], false, LossyJobs(), dequeued, called, {}, {}, 0)
  }

  /** One worker calls the first, then hangs in the second for ever, with the pool running. */
  lemma StuckForEver()
    ensures var start := OneWorker(Top, LossyPool(0, multiset{}));
            var stuck := OneWorker(Call(1), LossyPool(2, multiset{0}));
            && RunAll(start, StepsOf(0, 15)) == stuck
            && forall events :: OnlyWorkers(events) ==> RunAll(stuck, events) == stuck
  {
    hide Local, RunAll;
    var (sh0, sh2) := (LossyPool(0, multiset{}), LossyPool(2, multiset{0}));
    FifteenSteps();
    GoesIsRun(OneWorker(Top, sh0), 0, 15);
    assert map[0 := Top][0 := Call(1)] == map[0 := Call(1)];
    var stuck := OneWorker(Call(1), sh2);
    forall events | OnlyWorkers(events) ensures RunAll(stuck, events) == stuck {
      StaysStuck(stuck, events);
    }
  }

  lemma FifteenSteps()
    ensures Goes(0, Top, LossyPool(0, multiset{}), 15) == (Call(1), LossyPool(2, multiset{0}))
  {
    hide Goes;
    var (sh0, sh1, sh2) := (LossyPool(0, multiset{}), LossyPool(1, multiset{0}), LossyPool(2, multiset{0}));
    assert [0, 1][0..] == [0, 1] && [0, 1][0..][1..] == [1] == [0, 1][1..] && [0, 1][1..][1..] == [] == [0, 1][2..];
    TakesTask(sh0);
    GoesNext(0, Top, sh0, 7);
    assert LossyPool(1, multiset{}) == sh0.(queue := sh0.queue[1..], dequeued := 1);
    assert multiset{} + multiset{0} == multiset{0};
    assert Local(0, Call(0), LossyPool(1, multiset{}), false) == (Top, sh1);
    assert Goes(0, Top, sh0, 8) == (Top, sh1);
    TakesTask(sh1);
    GoesOn(0, Top, sh0, 8, 7);
  }

  lemma {:induction false} StaysStuck(s: State, events: seq<Event>)
    requires forall w :: w in s.pcs ==> s.pcs[w].Call? && !Ready(s.sh, s.pcs[w].job)
    requires OnlyWorkers(events)
    ensures RunAll(s, events) == s
  {
    if events != [] {
      StaysStuck(s, events[..|events| - 1]);
      var w := events[|events| - 1].w;
      if w in s.pcs {
        assert s.pcs[w := s.pcs[w]] == s.pcs;
      }
    }
  }

  /** That pool is what two enqueueings and one new worker make of a pool that has just been started. */
  lemma StuckIsReached()
    ensures exists s, events :: Init(s) && RunAll(s, events) == OneWorker(Top, LossyPool(0, multiset{}))
  {
    var sh := Shared([], 0, true, None, [], false, [], 0, multiset{}, {}, {}, 0);
    var s := State(map[], sh, {}, Idle, false);
    assert sh.queue == seq(0, i => i);
    assert Init(s);
    var (e1, e2, e3, e4) := (Enqueue(None, false), Enqueue(Some(0), true), Spawn(0), Register);
    RunOne(s, e1);
    RunJoins(s, [e1], [e2]);
    RunOne(Step(s, e1), e2);
    RunJoins(s, [e1] + [e2], [e3]);
    RunOne(RunAll(s, [e1] + [e2]), e3);
    RunJoins(s, [e1] + [e2] + [e3], [e4]);
    RunOne(RunAll(s, [e1] + [e2] + [e3]), e4);
    assert Step(s, e1).sh.log == [Job(None, false)] && Step(s, e1).sh.queue == [0];
    var t := RunAll(s, [e1] + [e2]);
    assert t.sh.log == LossyJobs() && t.sh.queue == [0, 1] == [0, 1][0..];
    assert RunAll(s, [e1] + [e2] + [e3] + [e4]) == OneWorker(Top, LossyPool(0, multiset{}));
  }

  // ---------------------------------------------------------------- shrinking

  predicate NoGrant(events: seq<Event>) {
    forall i :: 0 <= i < |events| ==> !(events[i].WriteDel? && events[i].add > 0)
  }

  lemma LeaversStep(s: State, e: Event)
    requires LeaveInv(s.pcs, s.sh) && !(e.WriteDel? && e.add > 0)
    ensures var t := Step(s, e);
            || (t.sh.leavers == s.sh.leavers && t.sh.delCnt == s.sh.delCnt)
            || (e.Worker? && e.w !in s.sh.leavers && t.sh.leavers == s.sh.leavers + {e.w}
                && t.sh.delCnt + 1 == s.sh.delCnt)
  {
    if e.Worker? && e.w in s.pcs {
      LeaveLocal(e.w, s.pcs[e.w], s.sh, e.spurious);
    }
    hide Local;
  }

  /** A store of `add` units is what counts from then on, whatever was left before: until the next one, the
      workers that leave and the units left are `add` together, so no more than that leave. */
  lemma {:induction false} GrantIsExact(s: State, add: nat, events: seq<Event>)
    requires Inv(s) && add > 0 && NoGrant(events)
    ensures var t := RunAll(Step(s, WriteDel(add)), events);
            Inv(t) && s.sh.leavers <= t.sh.leavers && t.sh.delCnt + |t.sh.leavers - s.sh.leavers| == add
  {
    hide Inv;
    var g := Step(s, WriteDel(add));
    if events == [] {
      InvStep(s, WriteDel(add));
      GrantStores(s, add);
      assert g.sh.leavers - s.sh.leavers == {};
    } else {
      var before, e := events[..|events| - 1], events[|events| - 1];
      GrantIsExact(s, add, before);
      var u := RunAll(g, before);
      LeaversOf(u);
      LeaversStep(u, e);
      InvStep(u, e);
      hide Step;
      if e.Worker? {
        assert (u.sh.leavers + {e.w}) - s.sh.leavers == (u.sh.leavers - s.sh.leavers) + {e.w} || e.w in u.sh.leavers;
      }
    }
  }

  lemma LeaversOf(s: State)
    requires Inv(s)
    ensures LeaveInv(s.pcs, s.sh)
  {
  }

  lemma GrantStores(s: State, add: nat)
    requires Inv(s) && add > 0
    ensures Step(s, WriteDel(add)).sh.delCnt == add && Step(s, WriteDel(add)).sh.leavers == s.sh.leavers
  {
  }

  /** How far an idle worker is from taking a unit. */
  function OutRank(pc: Pc): nat {
    match pc
    case Top => 7
    case WantLock => 6
    case EvalQueue => 5
    case EvalDel => 4
    case Woken(_) => 3
    case Load(_) => 2
    case Cas(_, _) => 1
    case _ => 0
  }

  predicate Idling(pc: Pc) {
    pc.Top? || pc.WantLock?
  }

  function WithoutUnit(w: nat, sh: Shared): Shared
    requires sh.delCnt > 0
  {
    sh.(lock := None, delCnt := sh.delCnt - 1, leavers := sh.leavers + {w}, delIds := sh.delIds + [w])
  }

  lemma OutFalls(w: nat, pc: Pc, sh: Shared)
    requires sh.isRun && sh.delCnt > 0 && OutRank(pc) > 0 && sh.lock == if Idling(pc) then None else Some(w)
    requires pc.Cas? ==> pc.now == sh.delCnt
    ensures var (next, shared) := Local(w, pc, sh, false);
            if pc.Cas? then Local(w, next, shared, false) == (Gone(true), WithoutUnit(w, sh))
            else
              && 0 < OutRank(next) < OutRank(pc) && (next.Cas? ==> next.now == sh.delCnt)
              && shared.isRun && shared.delCnt == sh.delCnt && WithoutUnit(w, shared) == WithoutUnit(w, sh)
              && shared.lock == if Idling(next) then None else Some(w)
  {
  }

  lemma {:induction false} WayOut(w: nat, pc: Pc, sh: Shared) returns (n: nat)
    requires sh.isRun && sh.delCnt > 0 && OutRank(pc) > 0 && sh.lock == if Idling(pc) then None else Some(w)
    requires pc.Cas? ==> pc.now == sh.delCnt
    ensures Goes(w, pc, sh, n) == (Gone(true), WithoutUnit(w, sh))
    decreases OutRank(pc)
  {
    OutFalls(w, pc, sh);
    hide Local, WithoutUnit;
    var (next, shared) := Local(w, pc, sh, false);
    if pc.Cas? {
      n := 2;
      GoesFirst(w, pc, sh, 1);
      GoesNext(w, next, shared, 0);
    } else {
      var m := WayOut(w, next, shared);
      n := 1 + m;
      GoesFirst(w, pc, sh, m);
    }
  }

  /** An idle worker that gets the lock while there are units leaves, with or without tasks waiting: it uses
      up one unit and has itself queued for the join, and nothing else changes. */
  lemma LeavesWhenAsked(s: State, w: nat) returns (n: nat)
    requires s.sh.isRun && s.sh.delCnt > 0 && s.sh.lock.None? && w in s.pcs && Idling(s.pcs[w])
    ensures RunAll(s, StepsOf(w, n))
            == s.(pcs := s.pcs[w := Gone(true)],
                  sh := s.sh.(delCnt := s.sh.delCnt - 1, leavers := s.sh.leavers + {w}, delIds := s.sh.delIds + [w]))
  {
    n := WayOut(w, s.pcs[w], s.sh);
    GoesIsRun(s, w, n);
  }

  /** The manager then joins it and takes it off _workers ... */
  lemma QueuedIsJoined(s: State)
    requires Inv(s) && s.manager == Idle && s.sh.delIds != []
    ensures var w := s.sh.delIds[0];
            && w in s.registered
            && RunAll(s, [ClearPop, Join])
               == s.(registered := s.registered - {w}, sh := s.sh.(delIds := s.sh.delIds[1..]))
  {
    var w := s.sh.delIds[0];
    assert w in s.sh.delIds && Leaver(s, w);
    RunOne(s, ClearPop);
    RunJoins(s, [ClearPop], [Join]);
    RunOne(Step(s, ClearPop), Join);
    assert [ClearPop] + [Join] == [ClearPop, Join];
  }

  /** ... as it puts one there that it has made. */
  lemma MadeIsRegistered(s: State, w: nat)
    requires s.manager == Idle && w !in s.pcs
    ensures RunAll(s, [Spawn(w), Register]) == s.(pcs := s.pcs[w := Top], registered := s.registered + {w})
  {
    RunOne(s, Spawn(w));
    RunJoins(s, [Spawn(w)], [Register]);
    RunOne(Step(s, Spawn(w)), Register);
    assert [Spawn(w)] + [Register] == [Spawn(w), Register];
  }

  // ---------------------------------------------------------------- stopping

  lemma StaysStopped(s: State, e: Event)
    requires !s.sh.isRun
    ensures !Step(s, e).sh.isRun
  {
  }

  /** Once the destructor has stored false, it is false for good. */
  lemma {:induction false} StoppedForGood(s: State, events: seq<Event>)
    ensures Stop in events || !s.sh.isRun ==> !RunAll(s, events).sh.isRun
  {
    hide Step;
    if events != [] {
      var before, last := events[..|events| - 1], events[|events| - 1];
      StoppedForGood(s, before);
      assert events == before + [last];
      if Stop in before || !s.sh.isRun {
        StaysStopped(RunAll(s, before), last);
      } else if last == Stop {
        StopStores(RunAll(s, before));
      }
    }
  }

  lemma StopStores(s: State)
    ensures !Step(s, Stop).sh.isRun
  {
  }

  /** The worker past the check of _isRun, if there is one; only the holder of the lock can be. */
  ghost function PastCheck(s: State): nat {
    if s.sh.lock.Some? && s.sh.lock.value in s.pcs
       && var pc := s.pcs[s.sh.lock.value]; pc.Load? || pc.Cas? || pc.Pop? then 1 else 0
  }

  lemma PopsAfterStop(s: State, e: Event)
    requires Inv(s) && !s.sh.isRun
    ensures Step(s, e).sh.dequeued + PastCheck(Step(s, e)) <= s.sh.dequeued + PastCheck(s)
  {
    hide SeenInv, FifoInv, StoredInv, OnceInv, LeaveInv, RegisterInv, JoinInv, QueuedInv, Ready;
    if e.Worker? && e.w in s.pcs {
      HoldsIffLock(s, e.w);
    }
  }

  /** From then on at most one task is still taken, whatever happens. */
  lemma {:induction false} AtMostOneTaskAfterStop(s: State, events: seq<Event>)
    requires Inv(s) && !s.sh.isRun
    ensures var t := RunAll(s, events);
            Inv(t) && !t.sh.isRun && t.sh.dequeued + PastCheck(t) <= s.sh.dequeued + PastCheck(s) <= s.sh.dequeued + 1
  {
    hide Inv, Step, PastCheck;
    AtMostOne(s);
    if events != [] {
      var before, last := events[..|events| - 1], events[|events| - 1];
      AtMostOneTaskAfterStop(s, before);
      PopsAfterStop(RunAll(s, before), last);
      InvStep(RunAll(s, before), last);
      StaysStopped(RunAll(s, before), last);
    }
  }

  lemma AtMostOne(s: State)
    ensures PastCheck(s) <= 1
  {
  }

  lemma AfterTask(s: State, w: nat, e: Event)
    requires !s.sh.isRun && w in s.pcs && (s.pcs[w].Call? || s.pcs[w].Top? || s.pcs[w] == Gone(false))
    ensures var t := Step(s, e); w in t.pcs && (t.pcs[w] == s.pcs[w] || t.pcs[w].Top? || t.pcs[w] == Gone(false))
  {
    hide Ready;
    if e.Worker? && e.w in s.pcs && e.w != w {
      hide Local;
    }
  }

  /** A worker that is calling a task takes no other one: it returns, without the lock, when that ends. */
  lemma {:induction false} LastTaskOfWorker(s: State, w: nat, events: seq<Event>)
    requires !s.sh.isRun && w in s.pcs && (s.pcs[w].Call? || s.pcs[w].Top? || s.pcs[w] == Gone(false))
    ensures var t := RunAll(s, events);
            w in t.pcs && !t.sh.isRun && (t.pcs[w] == s.pcs[w] || t.pcs[w].Top? || t.pcs[w] == Gone(false))
  {
    if events != [] {
      var before, last := events[..|events| - 1], events[|events| - 1];
      LastTaskOfWorker(s, w, before);
      hide Step;
      StaysStopped(RunAll(s, before), last);
      AfterTask(RunAll(s, before), w, last);
    }
  }

  function HomeRank(pc: Pc): nat {
    match pc
    case Top => 6
    case WantLock => 5
    case EvalQueue => 4
    case EvalDel => 3
    case EvalStop => 2
    case Woken(_) => 1
    case _ => 0
  }

  lemma HomeFalls(w: nat, pc: Pc, sh: Shared)
    requires !sh.isRun && HomeRank(pc) > 0 && sh.lock == if Idling(pc) then None else Some(w)
    ensures var (next, shared) := Local(w, pc, sh, false);
            if next.Gone? then next == Gone(false) && shared == sh.(lock := None)
            else 0 < HomeRank(next) < HomeRank(pc) && shared == sh.(lock := if Idling(next) then None else Some(w))
  {
  }

  lemma {:induction false} WayHome(w: nat, pc: Pc, sh: Shared) returns (n: nat)
    requires !sh.isRun && HomeRank(pc) > 0 && sh.lock == if Idling(pc) then None else Some(w)
    ensures Goes(w, pc, sh, n) == (Gone(false), sh.(lock := None))
    decreases HomeRank(pc)
  {
    HomeFalls(w, pc, sh);
    hide Local;
    var (next, shared) := Local(w, pc, sh, false);
    if next.Gone? {
      n := 1;
      GoesNext(w, pc, sh, 0);
    } else {
      var m := WayHome(w, next, shared);
      n := 1 + m;
      GoesFirst(w, pc, sh, m);
    }
  }

  /** An idle worker that gets the lock returns, and leaves the tasks and everything else alone. */
  lemma ReturnsWhenStopped(s: State, w: nat) returns (n: nat)
    requires !s.sh.isRun && s.sh.lock.None? && w in s.pcs && Idling(s.pcs[w])
    ensures RunAll(s, StepsOf(w, n)) == s.(pcs := s.pcs[w := Gone(false)])
  {
    n := WayHome(w, s.pcs[w], s.sh);
    GoesIsRun(s, w, n);
  }

  /** What ~ThreadPool joins once the manager is gone: every thread in _workers, then, in clearDelIdQueue, those
      whose ids are still queued. Joining a thread a second time throws. */
  ghost function DestructorJoins(s: State): multiset<nat> {
    multiset(s.registered) + multiset(s.sh.delIds)
  }

  /** So it joins no thread twice exactly if the manager has cleared the queue of the ones that left. */
  lemma DestructorJoinsOnce(s: State)
    requires Inv(s) && s.manager == Idle
    ensures (forall w: nat :: DestructorJoins(s)[w] <= 1) <==> s.sh.delIds == []
  {
    if s.sh.delIds != [] {
      var w := s.sh.delIds[0];
      assert w in s.sh.delIds && Leaver(s, w);
      assert DestructorJoins(s)[w] >= 2;
    }
  }

  /** A pool of one worker, which leaves just before the pool is destroyed. */
  lemma JoinedTwice() returns (s: State, events: seq<Event>)
    ensures Init(s) && events != [] && events[|events| - 1] == Stop
    ensures var t := RunAll(s, events);
            t.pcs == map[0 := Gone(true)] && !t.sh.isRun && t.manager == Idle && DestructorJoins(t)[0] == 2
  {
    var sh := Shared([], 0, true, None, [], false, [], 0, multiset{}, {}, {}, 0);
    s := State(map[], sh, {}, Idle, false);
    assert sh.queue == seq(0, i => i);
    MadeIsRegistered(s, 0);
    var made := RunAll(s, [Spawn(0), Register]);
    var asked := Step(made, WriteDel(1));
    RunJoins(s, [Spawn(0), Register], [WriteDel(1)]);
    RunOne(made, WriteDel(1));
    var n := LeavesWhenAsked(asked, 0);
    var left := RunAll(asked, StepsOf(0, n));
    RunJoins(s, [Spawn(0), Register] + [WriteDel(1)], StepsOf(0, n));
    events := [Spawn(0), Register] + [WriteDel(1)] + StepsOf(0, n) + [Stop];
    RunJoins(s, [Spawn(0), Register] + [WriteDel(1)] + StepsOf(0, n), [Stop]);
    RunOne(left, Stop);
    assert left.registered == {0} && left.sh.delIds == [0] && left.pcs == map[0 := Gone(true)];
  }

  // ---------------------------------------------------------------- the pool object

  lemma StaysGone(w: nat, pc: Pc, sh: Shared, spurious: bool)
    requires pc.Gone?
    ensures Local(w, pc, sh, spurious) == (pc, sh)
  {
  }

  /** The members of ThreadPool, changed in place; every method is one step of the machine above. */
  class ThreadPool {
    var taskQueue: seq<nat>
    var delCnt: nat
    var isRun: bool
    var mtx: Option<nat>
    var delIdQueue: seq<nat>
    var workers: set<nat>
    // the threads, and what can be observed of them from outside
    var threads: map<nat, Pc>
    var manager: Manager
    var iteratorFailure: bool
    var poppedEmpty: bool
    var log: seq<Job>
    ghost var dequeued: nat
    ghost var called: multiset<nat>
    var stored: set<nat>
    ghost var leavers: set<nat>
    ghost var granted: nat

    ghost function View(): State
      reads this
    {
      State(threads,
            Shared(taskQueue, delCnt, isRun, mtx, delIdQueue, poppedEmpty, log, dequeued, called, stored, leavers,
                   granted),
            workers, manager, iteratorFailure)
    }

    /** The pool when run() sets _isRun, before there is a thread. */
    constructor ()
      ensures Init(View()) && log == []
    {
      taskQueue, delCnt, isRun, mtx, delIdQueue, workers := [], 0, true, None, [], {};
      threads, manager, iteratorFailure, poppedEmpty := map[], Idle, false, false;
      log, dequeued, called, stored, leavers, granted := [], 0, multiset{}, {}, {}, 0;
    }

    /** The loop condition, the lock, and the predicate of the wait. */
    method WaitForWork(w: nat, pc: Pc, ghost spurious: bool) returns (next: Pc)
      requires pc.Top? || pc.WantLock? || pc.EvalQueue? || pc.EvalDel? || pc.EvalStop? || pc.Woken?
      modifies `mtx
      ensures (next, View().sh) == Local(w, pc, old(View().sh), spurious)
    {
      next := pc;
      match pc
      case Top =>
        next := if isRun then WantLock else Gone(false);
      case WantLock =>
        if mtx.None? {
          mtx := Some(w);
          next := EvalQueue;
        }
      case EvalQueue =>
        next := if taskQueue != [] then Woken(SawTask) else EvalDel;
      case EvalDel =>
        next := if delCnt > 0 then Woken(SawDel) else EvalStop;
      case EvalStop =>
        if isRun {
          mtx := None;
          next := WantLock;
        } else {
          next := Woken(SawStop);
        }
      case Woken(why) =>
        if isRun {
          next := Load(why);
        } else {
          mtx := None;
          next := Gone(false);
        }
    }

    /** tryDecrementIfPositive, and what a worker does that succeeds. */
    method TryToLeave(w: nat, pc: Pc, spurious: bool) returns (next: Pc)
      requires pc.Load? || pc.Cas? || pc.Leave?
      modifies `mtx, `delCnt, `leavers, `delIdQueue
      ensures (next, View().sh) == Local(w, pc, old(View().sh), spurious)
    {
      match pc
      case Load(why) =>
        next := Cas(why, delCnt);
      case Cas(why, now) =>
        if now == 0 {
          next := Pop(why);
        } else if delCnt == now && !spurious {
          delCnt := now - 1;
          leavers := leavers + {w};
          next := Leave;
        } else {
          next := Cas(why, delCnt);
        }
      case Leave =>
        delIdQueue := delIdQueue + [w];
        mtx := None;
        next := Gone(true);
    }

    /** frontAndPop and the call. ready says whether the result that the job waits for, if any, is there. */
    method TakeAndCall(w: nat, pc: Pc, ready: bool, ghost spurious: bool) returns (next: Pc)
      requires pc.Pop? || (pc.Call? && ready == Ready(View().sh, pc.job))
      modifies `mtx, `taskQueue, `dequeued, `poppedEmpty, `called, `stored
      ensures (next, View().sh) == Local(w, pc, old(View().sh), spurious)
    {
      next := pc;
      match pc
      case Pop(_) =>
        if taskQueue == [] {
          poppedEmpty := true;
        } else {
          next := Call(taskQueue[0]);
          taskQueue := taskQueue[1..];
          dequeued := dequeued + 1;
          mtx := None;
        }
      case Call(job) =>
        if ready {
          called := called + multiset{job};
          if log[job].stores {
            stored := stored + {job};
          }
          next := Top;
        }
    }

    /** The loop of makeWorker from one access to shared state to the next. */
    method WorkerGoesOn(w: nat, spurious: bool)
      requires w in threads
      modifies this
      ensures View() == Step(old(View()), Worker(w, spurious))
    {
      hide Local, Ready;
      var pc := threads[w];
      if pc.Gone? {
        StaysGone(w, pc, View().sh, spurious);
      } else if pc.Load? || pc.Cas? || pc.Leave? {
        pc := TryToLeave(w, pc, spurious);
      } else if pc.Pop? || pc.Call? {
        pc := TakeAndCall(w, pc, pc.Call? && IsReady(pc.job), spurious);
      } else {
        pc := WaitForWork(w, pc, spurious);
      }
      threads := threads[w := pc];
    }

    predicate IsReady(job: nat)
      reads this
      ensures IsReady(job) == Ready(View().sh, job)
    {
      job < |log| && (log[job].dep.Some? ==> log[job].dep.value in stored)
    }

    /** addTask and thenTry: job is the number of the new task. */
    method AddTask(dep: Option<nat>, stores: bool) returns (job: nat)
      requires dep.Some? ==> dep.value < |log|
      modifies this
      ensures View() == Step(old(View()), Enqueue(dep, stores))
      ensures job == |old(log)| && log == old(log) + [Job(dep, stores)]
    {
      job := |log|;
      taskQueue := taskQueue + [|log|];
      log := log + [Job(dep, stores)];
    }

    /** The destructor's first store. */
    method Stop()
      modifies `isRun
      ensures View() == Step(old(View()), Event.Stop)
    {
      isRun := false;
    }

    /** check, when the strategy answers -add: the store overwrites what is left of the last one. */
    method StoreDelCnt(add: nat)
      requires add > 0 && LeaveInv(View().pcs, View().sh)
      modifies `delCnt, `granted
      ensures View() == Step(old(View()), WriteDel(add)) && delCnt == add
    {
      granted := granted - delCnt + add;
      delCnt := add;
    }

    /** makeWorker: the thread runs before its id is in _workers. */
    method MakeThread(w: nat)
      requires manager == Idle && w !in threads
      modifies `threads, `manager
      ensures View() == Step(old(View()), Spawn(w))
    {
      threads := threads[w := Top];
      manager := Spawned(w);
    }

    method EmplaceWorker()
      requires manager.Spawned?
      modifies `workers, `manager
      ensures View() == Step(old(View()), Register)
    {
      workers := workers + {manager.w};
      manager := Idle;
    }

    /** clearDelIdQueue up to the join: throws if the id is not in _workers. */
    method TakeDelId()
      requires manager == Idle && delIdQueue != []
      modifies `delIdQueue, `manager, `iteratorFailure
      ensures View() == Step(old(View()), ClearPop)
    {
      var id := delIdQueue[0];
      delIdQueue := delIdQueue[1..];
      if id !in workers {
        iteratorFailure := true;
      } else {
        manager := Joining(id);
      }
    }

    /** join has returned: the thread function is over. */
    method EraseWorker()
      requires manager.Joining? && manager.w in threads && threads[manager.w].Gone?
      modifies `workers, `manager
      ensures View() == Step(old(View()), Join)
    {
      workers := workers - {manager.w};
      manager := Idle;
    }

    /** Any interleaving: steps that are not possible at their turn are skipped, which is how RunAll
        takes them as well. */
    method Drive(events: seq<Event>)
      requires Init(View())
      modifies this
      ensures View() == RunAll(old(View()), events) && Inv(View())
      ensures !iteratorFailure && !poppedEmpty
    {
      hide Init, Inv, Step;
      Safety(View(), []);
      for i := 0 to |events|
        invariant View() == RunAll(old(View()), events[..i]) && Inv(View())
      {
        assert events[..i + 1][..i] == events[..i];
        InvStep(View(), events[i]);
        Dispatch(events[i]);
      }
      assert events[..|events|] == events;
      Safety(old(View()), events);
    }

    method Dispatch(e: Event)
      requires Inv(View())
      modifies this
      ensures View() == Step(old(View()), e)
    {
      hide LockInv, SeenInv, FifoInv, OnceInv, LeaveInv, RegisterInv, JoinInv, Local;
      match e
      case Worker(w, spurious) =>
        if w in threads {
          WorkerGoesOn(w, spurious);
        }
      case Enqueue(dep, stores) =>
        if dep.None? || dep.value < |log| {
          var _ := AddTask(dep, stores);
        }
      case Stop => Stop();
      case WriteDel(add) =>
        if add > 0 {
          StoreDelCnt(add);
        }
      case Spawn(w) =>
        if manager == Idle && w !in threads {
          MakeThread(w);
        }
      case Register =>
        if manager.Spawned? {
          EmplaceWorker();
        }
      case ClearPop =>
        if manager == Idle && delIdQueue != [] {
          TakeDelId();
        }
      case Join =>
        if manager.Joining? && manager.w in threads && threads[manager.w].Gone? {
          EraseWorker();
        }
    }
  }
}
