/** The timer loop, the thread loop and the event loop around them. A resumed coroutine is an arbitrary
    finite list of actions: it may add timers and yields, destroy other suspended coroutines together
    with their awaiters, start and finish work of the other two kinds. The loop's state and what each
    piece of code makes of it are values and functions; the class changes its members in place and
    computes just these functions, and what the loop promises is proved of them for every environment. */
module EventLoops {
  import opened Options

  /** A node of the timer multimap; id stands for the iterator that designates it. */
  datatype Node = Node(id: nat, due: int)

  datatype Action =
    | SleepUntil(due: int)
    | Yield
    | DestroyTimer(id: nat)  // the destructor of the awaiter that was given node id
    | DestroyYield(id: nat)
    | SubmitIo
    | StartThreadTask
    | FinishThreadTask

  type Script = seq<Action>

  /** A coroutine resumed by the loop, with what the loop saw at that moment and what it did then. */
  datatype Resumption =
    | FromTimer(id: nat, now: int, tree: seq<Node>, script: Script)
    | FromYield(id: nat, queue: seq<nat>, script: Script)
    | FromIo(script: Script)

  datatype Outcome =
    | Gap(duration: int)  // the optional returned by TimerLoop::run, present
    | Empty               // ... absent
    | Cut                 // the environment supplied no further behaviour

  datatype Loop = Loop(
    timers: seq<Node>,       // TimerLoop: the multimap in key order
    yieldQueue: seq<nat>,
    nextId: nat,
    heldTimers: set<nat>,    // the nodes that a suspended awaiter holds in its _it
    heldYields: set<nat>,
    badErase: bool,          // an erase or pop that did not designate its node has happened
    io: nat,                 // IoUring::_numSqesPending
    threads: nat,            // ThreadLoop::_threadTaskCnt
    // history
    timerIds: set<nat>,      // the nodes ever added to the tree
    destroyed: set<nat>,     // the nodes whose awaiter was destroyed while it was suspended
    taken: nat,              // completions taken off the counter
    finished: nat,           // thread tasks that have notified
    log: seq<Resumption>)

  ghost predicate Sorted(t: seq<Node>) {
    forall j, k :: 0 <= j < k < |t| ==> t[j].due <= t[k].due
  }

  ghost predicate DistinctIds(t: seq<Node>) {
    forall j, k :: 0 <= j < k < |t| ==> t[j].id != t[k].id
  }

  ghost predicate DistinctNats(t: seq<nat>) {
    forall j, k :: 0 <= j < k < |t| ==> t[j] != t[k]
  }

  ghost function Ids(t: seq<Node>): set<nat> {
    set k | 0 <= k < |t| :: t[k].id
  }

  ghost function Elems(t: seq<nat>): set<nat> {
    set k | 0 <= k < |t| :: t[k]
  }

  /** Where multimap::insert puts an equal key: behind the nodes already there. */
  function UpperBound(t: seq<Node>, due: int): (p: nat)
    ensures p <= |t| && forall k :: 0 <= k < p ==> t[k].due <= due
    ensures p < |t| ==> t[p].due > due
  {
    if t == [] || t[0].due > due then 0
    else
      var p := UpperBound(t[1..], due);
      assert forall k :: 0 < k < p + 1 ==> t[k] == t[1..][k - 1];
      p + 1
  }

  function InsertNode(t: seq<Node>, n: Node): seq<Node> {
    var p := UpperBound(t, n.due);
    t[..p] + [n] + t[p..]
  }

  function EraseNode(t: seq<Node>, id: nat): seq<Node> {
    if t == [] then []
    else if t[0].id == id then t[1..]
    else [t[0]] + EraseNode(t[1..], id)
  }

  function EraseNat(t: seq<nat>, id: nat): seq<nat> {
    if t == [] then []
    else if t[0] == id then t[1..]
    else [t[0]] + EraseNat(t[1..], id)
  }

  lemma InsertNodeKeeps(t: seq<Node>, n: Node)
    requires Sorted(t) && DistinctIds(t) && n.id !in Ids(t)
    ensures Sorted(InsertNode(t, n)) && DistinctIds(InsertNode(t, n))
    ensures Ids(InsertNode(t, n)) == Ids(t) + {n.id} && multiset(InsertNode(t, n)) == multiset(t) + multiset{n}
  {
    InsertNodeAdds(t, UpperBound(t, n.due), n);
    hide Sorted, DistinctIds, Ids;
    InsertNodeSorted(t, n);
    InsertNodeDistinct(t, UpperBound(t, n.due), n);
    InsertNodeIds(t, UpperBound(t, n.due), n);
  }

  lemma InsertNodeIds(t: seq<Node>, p: nat, n: Node)
    requires p <= |t|
    ensures Ids(t[..p] + [n] + t[p..]) == Ids(t) + {n.id}
  {
    hide Ids;
    assert t == t[..p] + t[p..];
    IdsConcat(t[..p], t[p..]);
    IdsConcat(t[..p], [n]);
    IdsConcat(t[..p] + [n], t[p..]);
    OneElement(n, 0);
  }

  lemma InsertNodeAdds(t: seq<Node>, p: nat, n: Node)
    requires p <= |t|
    ensures multiset(t[..p] + [n] + t[p..]) == multiset(t) + multiset{n}
  {
    assert t == t[..p] + t[p..];
  }

  lemma InsertNodeDistinct(t: seq<Node>, p: nat, n: Node)
    requires p <= |t| && DistinctIds(t) && n.id !in Ids(t)
    ensures DistinctIds(t[..p] + [n] + t[p..])
  {
    forall k | 0 <= k < |t| ensures t[k].id != n.id {
      assert t[k].id in Ids(t);
    }
  }

  lemma InsertNodeSorted(t: seq<Node>, n: Node)
    requires Sorted(t)
    ensures Sorted(InsertNode(t, n))
  {
    var p := UpperBound(t, n.due);
    if p < |t| {
      forall k | p <= k < |t| ensures t[k].due > n.due {
        assert t[p].due <= t[k].due;
      }
    }
  }

  lemma OneElement(n: Node, x: nat)
    ensures Ids([n]) == {n.id} && Elems([x]) == {x}
  {
    var s, t := [n], [x];
    assert s[0].id == n.id && t[0] == x;
    assert n.id in Ids(s) && x in Elems(t);
  }

  lemma IdsConcat(a: seq<Node>, b: seq<Node>)
    ensures Ids(a + b) == Ids(a) + Ids(b)
  {
    forall x ensures x in Ids(a + b) <==> x in Ids(a) + Ids(b) {
      if x in Ids(a) {
        var k :| 0 <= k < |a| && a[k].id == x;
        assert (a + b)[k].id == x;
      }
      if x in Ids(b) {
        var k :| 0 <= k < |b| && b[k].id == x;
        assert (a + b)[|a| + k].id == x;
      }
    }
  }

  lemma ElemsConcat(a: seq<nat>, b: seq<nat>)
    ensures Elems(a + b) == Elems(a) + Elems(b)
  {
    forall x ensures x in Elems(a + b) <==> x in Elems(a) + Elems(b) {
      if x in Elems(a) {
        var k :| 0 <= k < |a| && a[k] == x;
        assert (a + b)[k] == x;
      }
      if x in Elems(b) {
        var k :| 0 <= k < |b| && b[k] == x;
        assert (a + b)[|a| + k] == x;
      }
    }
  }

  lemma {:induction false} EraseNodeKeeps(t: seq<Node>, id: nat)
    requires Sorted(t) && DistinctIds(t)
    ensures Sorted(EraseNode(t, id)) && DistinctIds(EraseNode(t, id))
    ensures Ids(EraseNode(t, id)) == Ids(t) - {id}
    ensures forall n :: n in EraseNode(t, id) ==> n in t
  {
    if t != [] {
      assert Ids(t) == {t[0].id} + Ids(t[1..]);
      if t[0].id == id {
        forall k | 0 < k < |t| ensures t[k].id != id {
        }
      } else {
        EraseNodeKeeps(t[1..], id);
        var r := EraseNode(t[1..], id);
        forall k | 0 <= k < |r| ensures r[k].id != t[0].id && t[0].due <= r[k].due {
          assert r[k] in t[1..];
        }
        IdsConcat([t[0]], r);
        OneElement(t[0], 0);
      }
    }
  }

  lemma {:induction false} EraseNatKeeps(t: seq<nat>, id: nat)
    requires DistinctNats(t)
    ensures DistinctNats(EraseNat(t, id)) && Elems(EraseNat(t, id)) == Elems(t) - {id}
    ensures t != [] && t[0] != id ==> EraseNat(t, id) != [] && EraseNat(t, id)[0] == t[0]
  {
    if t != [] {
      assert Elems(t) == {t[0]} + Elems(t[1..]);
      if t[0] == id {
        forall k | 0 < k < |t| ensures t[k] != id {
        }
      } else {
        EraseNatKeeps(t[1..], id);
        var r := EraseNat(t[1..], id);
        forall k | 0 <= k < |r| ensures r[k] != t[0] {
          assert r[k] in Elems(r);
        }
        ElemsConcat([t[0]], r);
        OneElement(Node(0, 0), t[0]);
      }
    }
  }

  // ---------------------------------------------------------------- what the code does

  function EraseTimer(s: Loop, id: nat): Loop {
    s.(timers := EraseNode(s.timers, id), badErase := s.badErase || !HasNode(s.timers, id))
  }

  predicate HasNode(t: seq<Node>, id: nat) {
    exists k :: 0 <= k < |t| && t[k].id == id
  }

  function Act(s: Loop, a: Action): Loop {
    match a
    case SleepUntil(due) =>
      s.(timers := InsertNode(s.timers, Node(s.nextId, due)), heldTimers := s.heldTimers + {s.nextId},
         timerIds := s.timerIds + {s.nextId}, nextId := s.nextId + 1)
    case Yield =>
      s.(yieldQueue := s.yieldQueue + [s.nextId], heldYields := s.heldYields + {s.nextId}, nextId := s.nextId + 1)
    case DestroyTimer(id) =>
      if id !in s.heldTimers then s
      else EraseTimer(s, id).(heldTimers := s.heldTimers - {id}, destroyed := s.destroyed + {id})
    case DestroyYield(id) =>
      if id !in s.heldYields then s
      else s.(yieldQueue := EraseNat(s.yieldQueue, id), badErase := s.badErase || id !in s.yieldQueue,
              heldYields := s.heldYields - {id}, destroyed := s.destroyed + {id})
    case SubmitIo => s.(io := s.io + 1)
    case StartThreadTask => s.(threads := s.threads + 1)
    case FinishThreadTask =>
      if s.threads > 0 then s.(threads := s.threads - 1, finished := s.finished + 1) else s
  }

  function Acts(s: Loop, script: Script): Loop {
    if script == [] then s else Act(Acts(s, script[..|script| - 1]), script[|script| - 1])
  }

  /** The coroutine at the front of the tree is resumed; await_resume resets its iterator. */
  function TakeTimer(s: Loop, now: int, script: Script): Loop
    requires s.timers != []
  {
    var id := s.timers[0].id;
    s.(heldTimers := s.heldTimers - {id}, log := s.log + [FromTimer(id, now, s.timers, script)])
  }

  /** One round of the first loop of TimerLoop::run: resume, then erase. */
  function FireOne(s: Loop, now: int, script: Script): Loop
    requires s.timers != []
  {
    EraseTimer(Acts(TakeTimer(s, now, script), script), s.timers[0].id)
  }

  function TakeYield(s: Loop, script: Script): Loop
    requires s.yieldQueue != []
  {
    var id := s.yieldQueue[0];
    s.(heldYields := s.heldYields - {id}, log := s.log + [FromYield(id, s.yieldQueue, script)])
  }

  /** pop_front: right only if the front is still the node that was resumed. */
  function PopYield(s: Loop, id: nat): Loop {
    s.(yieldQueue := if s.yieldQueue == [] then [] else s.yieldQueue[1..],
       badErase := s.badErase || s.yieldQueue == [] || s.yieldQueue[0] != id)
  }

  /** One round of the second loop. */
  function YieldOne(s: Loop, script: Script): Loop
    requires s.yieldQueue != []
  {
    PopYield(Acts(TakeYield(s, script), script), s.yieldQueue[0])
  }

  /** The first loop. times is what the clock reads, scripts what the coroutines do. */
  function FireTimers(s: Loop, times: seq<int>, scripts: seq<Script>): (Outcome, Loop)
    decreases |scripts|
  {
    if s.timers == [] then (Empty, s)
    else if times == [] then (Cut, s)
    else if s.timers[0].due > times[0] then (Gap(s.timers[0].due - times[0]), s)
    else if scripts == [] then (Cut, s)
    else FireTimers(FireOne(s, times[0], scripts[0]), times[1..], scripts[1..])
  }

  function RunYields(s: Loop, scripts: seq<Script>): (Outcome, Loop)
    decreases |scripts|
  {
    if s.yieldQueue == [] then (Empty, s)
    else if scripts == [] then (Cut, s)
    else RunYields(YieldOne(s, scripts[0]), scripts[1..])
  }

  /** TimerLoop::run. */
  function RunTimers(s: Loop, p: Pass): (Outcome, Loop) {
    var (out, drained) := FireTimers(s, p.times, p.timerScripts);
    if out.Empty? then RunYields(drained, p.yieldScripts) else (out, drained)
  }

  /** IoUring::run as the loop sees it: n completions leave the counter, then the coroutines they wake
      run, at most one for each. */
  function RunIo(s: Loop, n: nat, scripts: seq<Script>): Loop {
    var m := if n <= s.io then n else s.io;
    Wake(TakeOff(s, m), if |scripts| <= m then scripts else scripts[..m])
  }

  function TakeOff(s: Loop, m: nat): Loop
    requires m <= s.io
  {
    s.(io := s.io - m, taken := s.taken + m)
  }

  function Wake(s: Loop, scripts: seq<Script>): Loop {
    if scripts == [] then s
    else
      var t := Wake(s, scripts[..|scripts| - 1]);
      var last := scripts[|scripts| - 1];
      Acts(t.(log := t.log + [FromIo(last)]), last)
  }

  /** ThreadLoop::isRun. wakes[i] is the number of notify calls since the last look at the counter, 0
      for a spurious one; None while it still waits. */
  function AwaitThreads(cnt: nat, wakes: seq<nat>): (r: (Option<bool>, nat))
    ensures r.1 <= cnt
  {
    if cnt == 0 then (Some(false), 0) else WaitBelow(cnt, cnt, wakes)
  }

  function WaitBelow(start: nat, cnt: nat, wakes: seq<nat>): (r: (Option<bool>, nat))
    ensures r.1 <= cnt
  {
    if start > cnt then (Some(true), cnt)
    else if wakes == [] then (None, cnt)
    else WaitBelow(start, if wakes[0] <= cnt then cnt - wakes[0] else 0, wakes[1..])
  }

  /** What the environment does in one pass of EventLoop::run. */
  datatype Pass = Pass(times: seq<int>, timerScripts: seq<Script>, yieldScripts: seq<Script>,
                       completions: nat, ioScripts: seq<Script>, wakes: seq<nat>)

  datatype Verdict = Again | Exit | Stuck

  /** One pass; Stuck where the environment ends first. */
  function RunPass(s: Loop, p: Pass): (Verdict, Loop) {
    var (timeout, t) := RunTimers(s, p);
    if timeout.Cut? then (Stuck, t)
    else if t.io != 0 then (Again, RunIo(t, p.completions, p.ioScripts))
    else if timeout.Gap? then (Again, t)
    else
      var (more, cnt) := AwaitThreads(t.threads, p.wakes);
      (if more.None? then Stuck else if more.value then Again else Exit,
       t.(threads := cnt, finished := t.finished + t.threads - cnt))
  }

  /** EventLoop::run over the passes that the environment supplies. */
  function RunAll(s: Loop, passes: seq<Pass>): (Verdict, Loop)
    decreases |passes|
  {
    if passes == [] then (Stuck, s)
    else
      var (v, t) := RunPass(s, passes[0]);
      if v.Again? then RunAll(t, passes[1..]) else (v, t)
  }

  // ---------------------------------------------------------------- conservation

  function Below(n: nat): (r: set<nat>)
    ensures forall k: nat :: k in r <==> k < n
  {
    if n == 0 then {} else Below(n - 1) + {n - 1}
  }

  function ResumedBy(r: Resumption): set<nat> {
    match r
    case FromTimer(id, _, _, _) => {id}
    case FromYield(id, _, _) => {id}
    case FromIo(_) => {}
  }

  function Resumed(log: seq<Resumption>): set<nat> {
    if log == [] then {} else Resumed(log[..|log| - 1]) + ResumedBy(log[|log| - 1])
  }

  /** Only a least node of the timer tree, and only a due one; only the front of the yield queue. */
  ghost predicate Proper(r: Resumption) {
    match r
    case FromTimer(id, now, tree, _) =>
      tree != [] && tree[0].id == id && tree[0].due <= now && forall n :: n in tree ==> tree[0].due <= n.due
    case FromYield(id, queue, _) => queue != [] && queue[0] == id
    case FromIo(_) => true
  }

  /** Every resumption was proper, and no node was resumed twice. */
  ghost predicate ProperLog(log: seq<Resumption>) {
    log != [] ==>
      && Proper(log[|log| - 1]) && ResumedBy(log[|log| - 1]) !! Resumed(log[..|log| - 1])
      && ProperLog(log[..|log| - 1])
  }

  /** The containers are in order, and a node of them is held by exactly one suspended awaiter, but for
      the one in hand: t from the tree, y from the queue. */
  ghost predicate Structure(s: Loop, t: set<nat>, y: set<nat>) {
    && Sorted(s.timers) && DistinctIds(s.timers) && DistinctNats(s.yieldQueue) && !s.badErase
    && s.heldTimers == Ids(s.timers) - t && t <= Ids(s.timers)
    && s.heldYields == Elems(s.yieldQueue) - y && y <= Elems(s.yieldQueue)
  }

  /** Each node ever made is in exactly one place: suspended on a timer, suspended on a yield, resumed,
      or destroyed with its awaiter. */
  ghost predicate Conserved(s: Loop) {
    && Below(s.nextId) == s.heldTimers + s.heldYields + Resumed(s.log) + s.destroyed
    && s.heldTimers !! s.heldYields !! Resumed(s.log) !! s.destroyed
    && s.heldTimers <= s.timerIds <= Below(s.nextId) && s.heldYields !! s.timerIds
    && ProperLog(s.log)
  }

  ghost predicate Good(s: Loop, t: set<nat>, y: set<nat>) {
    Structure(s, t, y) && Conserved(s) && t + y <= Resumed(s.log)
  }

  lemma BelowNext(n: nat)
    ensures Below(n + 1) == Below(n) + {n} && n !in Below(n)
  {
  }

  lemma ResumedNext(log: seq<Resumption>, r: Resumption)
    ensures Resumed(log + [r]) == Resumed(log) + ResumedBy(r)
    ensures ProperLog(log) && Proper(r) && ResumedBy(r) !! Resumed(log) ==> ProperLog(log + [r])
  {
    assert (log + [r])[..|log|] == log;
  }

  /** What one action of a running coroutine may not change: its own node stays where it is. */
  ghost predicate SameFront(s: Loop, s': Loop, y: set<nat>) {
    s.yieldQueue != [] && y == {s.yieldQueue[0]} ==> s'.yieldQueue != [] && y == {s'.yieldQueue[0]}
  }

  /** What must not happen would show: erasing a node that is not there, and popping another one than meant. */
  lemma ErrorsShow(s: Loop, id: nat)
    ensures EraseTimer(s, id).badErase <==> s.badErase || id !in Ids(s.timers)
    ensures PopYield(s, id).badErase <==> s.badErase || s.yieldQueue == [] || s.yieldQueue[0] != id
    ensures id in s.heldYields && id !in Elems(s.yieldQueue) ==> Act(s, DestroyYield(id)).badErase
  {
  }

  lemma SleepKeeps(s: Loop, due: int, t: set<nat>, y: set<nat>)
    requires Good(s, t, y)
    ensures Good(Act(s, SleepUntil(due)), t, y)
  {
    hide Sorted, DistinctIds, Ids, InsertNode, Below, ProperLog, Resumed;
    BelowNext(s.nextId);
    assert s.nextId !in Ids(s.timers);
    InsertNodeKeeps(s.timers, Node(s.nextId, due));
  }

  lemma YieldKeeps(s: Loop, t: set<nat>, y: set<nat>)
    requires Good(s, t, y)
    ensures Good(Act(s, Yield), t, y) && SameFront(s, Act(s, Yield), y)
  {
    hide Sorted, DistinctIds, Ids, Below, ProperLog, Resumed;
    BelowNext(s.nextId);
    AppendNatKeeps(s.yieldQueue, s.nextId);
  }

  lemma AppendNatKeeps(q: seq<nat>, id: nat)
    requires DistinctNats(q) && id !in Elems(q)
    ensures DistinctNats(q + [id]) && Elems(q + [id]) == Elems(q) + {id}
  {
    ElemsConcat(q, [id]);
    OneElement(Node(0, 0), id);
    forall k | 0 <= k < |q| ensures q[k] != id {
      assert q[k] in Elems(q);
    }
  }

  lemma EraseTimerKeeps(s: Loop, id: nat)
    requires Sorted(s.timers) && DistinctIds(s.timers) && !s.badErase && id in Ids(s.timers)
    ensures var e := EraseTimer(s, id);
            Sorted(e.timers) && DistinctIds(e.timers) && !e.badErase && Ids(e.timers) == Ids(s.timers) - {id}
  {
    EraseNodeKeeps(s.timers, id);
  }

  lemma DestroyTimerKeeps(s: Loop, id: nat, t: set<nat>, y: set<nat>)
    requires Good(s, t, y)
    ensures Good(Act(s, DestroyTimer(id)), t, y)
  {
    hide Sorted, DistinctIds, Ids, EraseTimer, Below, ProperLog, Resumed;
    if id in s.heldTimers {
      EraseTimerKeeps(s, id);
      EraseTimerRest(s, id);
    }
  }

  lemma EraseTimerRest(s: Loop, id: nat)
    ensures EraseTimer(s, id) == s.(timers := EraseTimer(s, id).timers, badErase := EraseTimer(s, id).badErase)
  {
  }

  lemma DestroyYieldKeeps(s: Loop, id: nat, t: set<nat>, y: set<nat>)
    requires Good(s, t, y)
    ensures Good(Act(s, DestroyYield(id)), t, y) && SameFront(s, Act(s, DestroyYield(id)), y)
  {
    hide Sorted, DistinctIds, Ids, Below, ProperLog, Resumed;
    if id in s.heldYields {
      assert id in s.yieldQueue;
      EraseNatKeeps(s.yieldQueue, id);
    }
  }

  lemma ActKeeps(s: Loop, a: Action, t: set<nat>, y: set<nat>)
    requires Good(s, t, y)
    ensures Good(Act(s, a), t, y) && SameFront(s, Act(s, a), y)
  {
    match a
    case SleepUntil(due) => SleepKeeps(s, due, t, y);
    case Yield => YieldKeeps(s, t, y);
    case DestroyTimer(id) => DestroyTimerKeeps(s, id, t, y);
    case DestroyYield(id) => DestroyYieldKeeps(s, id, t, y);
    case _ =>
  }

  lemma {:induction false} ActsKeep(s: Loop, script: Script, t: set<nat>, y: set<nat>)
    requires Good(s, t, y)
    ensures Good(Acts(s, script), t, y) && SameFront(s, Acts(s, script), y)
  {
    hide Act, Good;
    if script != [] {
      ActsKeep(s, script[..|script| - 1], t, y);
      ActKeeps(Acts(s, script[..|script| - 1]), script[|script| - 1], t, y);
    }
  }

  // ---------------------------------------------------------------- what a run leaves behind

  /** The nodes whose destruction a script asks for. */
  function Named(script: Script): set<nat> {
    if script == [] then {}
    else
      Named(script[..|script| - 1]) +
      (match script[|script| - 1]
       case DestroyTimer(id) => {id}
       case DestroyYield(id) => {id}
       case _ => {})
  }

  function NamedIn(scripts: seq<Script>): set<nat> {
    if scripts == [] then {} else Named(scripts[0]) + NamedIn(scripts[1..])
  }

  /** A later state of the same loop, in which nothing but what `named` names has been destroyed. */
  ghost predicate Later(s: Loop, s': Loop, named: set<nat>) {
    && s.log <= s'.log && s.nextId <= s'.nextId && s.timerIds <= s'.timerIds
    && s.destroyed <= s'.destroyed <= s.destroyed + named
  }

  lemma {:induction false} ActsLater(s: Loop, script: Script)
    ensures Later(s, Acts(s, script), Named(script)) && Acts(s, script).log == s.log
  {
    if script != [] {
      ActsLater(s, script[..|script| - 1]);
    }
  }

  lemma {:induction false} ResumedGrows(log: seq<Resumption>, log': seq<Resumption>)
    requires log <= log'
    ensures Resumed(log) <= Resumed(log')
  {
    if |log| < |log'| {
      ResumedGrows(log, log'[..|log'| - 1]);
    } else {
      assert log == log';
    }
  }

  /** Nothing gets lost: a node that was waiting still waits, or its coroutine has been resumed since, or
      its awaiter has been destroyed since by an action that named it; just one of these. */
  lemma NothingIsLost(s: Loop, s': Loop, named: set<nat>, id: nat)
    requires Good(s, {}, {}) && Good(s', {}, {}) && Later(s, s', named)
    requires id in Ids(s.timers) || id in Elems(s.yieldQueue)
    ensures || id in Ids(s'.timers) || id in Elems(s'.yieldQueue)
            || id in Resumed(s'.log) - Resumed(s.log) || (id in s'.destroyed - s.destroyed && id in named)
    ensures id in Ids(s'.timers) + Elems(s'.yieldQueue) ==> id !in Resumed(s'.log) + s'.destroyed
    ensures !(id in Resumed(s'.log) && id in s'.destroyed)
  {
    hide Sorted, DistinctIds, Ids, ProperLog, Resumed, Elems;
    assert id in Below(s.nextId);
    assert id in Below(s'.nextId);
  }

  lemma LaterTrans(s: Loop, m: Loop, s': Loop, a: set<nat>, b: set<nat>)
    requires Later(s, m, a) && Later(m, s', b)
    ensures Later(s, s', a + b)
  {
  }

  // ---------------------------------------------------------------- TimerLoop::run

  lemma FireOneKeeps(s: Loop, now: int, script: Script)
    requires Good(s, {}, {}) && s.timers != [] && s.timers[0].due <= now
    ensures Good(FireOne(s, now, script), {}, {}) && Later(s, FireOne(s, now, script), Named(script))
    ensures FireOne(s, now, script).log == s.log + [FromTimer(s.timers[0].id, now, s.timers, script)]
  {
    var id := s.timers[0].id;
    TakeTimerKeeps(s, now, script);
    var taken := TakeTimer(s, now, script);
    ActsKeep(taken, script, {id}, {});
    ActsLater(taken, script);
    EraseInHand(Acts(taken, script), id);
    hide Good, Acts, EraseTimer;
    EraseTimerRest(Acts(taken, script), id);
  }

  lemma TakeTimerKeeps(s: Loop, now: int, script: Script)
    requires Good(s, {}, {}) && s.timers != [] && s.timers[0].due <= now
    ensures Good(TakeTimer(s, now, script), {s.timers[0].id}, {})
  {
    hide Sorted, DistinctIds, Ids, ProperLog, Proper, Resumed, Elems, Below;
    LeastIsProper(s.timers, now, script);
    ResumedNext(s.log, FromTimer(s.timers[0].id, now, s.timers, script));
  }

  lemma LeastIsProper(tree: seq<Node>, now: int, script: Script)
    requires Sorted(tree) && tree != [] && tree[0].due <= now
    ensures tree[0].id in Ids(tree) && Proper(FromTimer(tree[0].id, now, tree, script))
  {
    forall n | n in tree ensures tree[0].due <= n.due {
    }
  }

  lemma EraseInHand(s: Loop, id: nat)
    requires Good(s, {id}, {})
    ensures Good(EraseTimer(s, id), {}, {})
  {
    hide Sorted, DistinctIds, Ids, EraseTimer, ProperLog, Resumed, Elems, Below;
    EraseTimerKeeps(s, id);
    EraseTimerRest(s, id);
  }

  lemma YieldOneKeeps(s: Loop, script: Script)
    requires Good(s, {}, {}) && s.yieldQueue != []
    ensures Good(YieldOne(s, script), {}, {}) && Later(s, YieldOne(s, script), Named(script))
    ensures YieldOne(s, script).log == s.log + [FromYield(s.yieldQueue[0], s.yieldQueue, script)]
  {
    var id := s.yieldQueue[0];
    TakeYieldKeeps(s, script);
    var taken := TakeYield(s, script);
    ActsKeep(taken, script, {}, {id});
    ActsLater(taken, script);
    PopInHand(Acts(taken, script), id);
    hide Good, Acts;
  }

  lemma TakeYieldKeeps(s: Loop, script: Script)
    requires Good(s, {}, {}) && s.yieldQueue != []
    ensures Good(TakeYield(s, script), {}, {s.yieldQueue[0]})
  {
    hide Sorted, DistinctIds, Ids, ProperLog, Proper, Resumed, Elems, Below;
    FrontIsProper(s.yieldQueue, script);
    ResumedNext(s.log, FromYield(s.yieldQueue[0], s.yieldQueue, script));
  }

  lemma FrontIsProper(queue: seq<nat>, script: Script)
    requires queue != []
    ensures queue[0] in Elems(queue) && Proper(FromYield(queue[0], queue, script))
  {
  }

  lemma PopInHand(s: Loop, id: nat)
    requires Good(s, {}, {id}) && s.yieldQueue != [] && s.yieldQueue[0] == id
    ensures Good(PopYield(s, id), {}, {})
  {
    hide Sorted, DistinctIds, Ids, ProperLog, Resumed, Elems, Below;
    EraseNatKeeps(s.yieldQueue, id);
    assert EraseNat(s.yieldQueue, id) == s.yieldQueue[1..];
  }

  /** A gap is positive, measured from the last time read to the least expiry, and nothing still pending
      was due then. */
  ghost predicate GapIsExact(s: Loop, t: Loop, times: seq<int>, gap: int) {
    var read := |t.log| - |s.log|;
    && 0 <= read < |times| && t.timers != []
    && gap == t.timers[0].due - times[read] > 0
    && forall n :: n in t.timers ==> n.due > times[read]
  }

  lemma {:induction false} FireTimersKeeps(s: Loop, times: seq<int>, scripts: seq<Script>)
    requires Good(s, {}, {})
    ensures var t := FireTimers(s, times, scripts).1; Good(t, {}, {}) && Later(s, t, NamedIn(scripts))
    decreases |scripts|
  {
    hide Good, FireOne;
    if s.timers != [] && times != [] && s.timers[0].due <= times[0] && scripts != [] {
      var next := FireOne(s, times[0], scripts[0]);
      FireOneKeeps(s, times[0], scripts[0]);
      FireTimersKeeps(next, times[1..], scripts[1..]);
      LaterTrans(s, next, FireTimers(s, times, scripts).1, Named(scripts[0]), NamedIn(scripts[1..]));
    }
  }

  lemma LeastIsLeast(s: Loop, now: int)
    requires Good(s, {}, {}) && s.timers != [] && s.timers[0].due > now
    ensures forall n :: n in s.timers ==> n.due > now
  {
    forall n | n in s.timers ensures n.due > now {
      assert s.timers[0].due <= n.due;
    }
  }

  lemma GapLater(s: Loop, next: Loop, t: Loop, times: seq<int>, gap: int)
    requires times != [] && |next.log| == |s.log| + 1 && GapIsExact(next, t, times[1..], gap)
    ensures GapIsExact(s, t, times, gap)
  {
    assert times[1..][|t.log| - |next.log|] == times[|t.log| - |s.log|];
  }

  /** The first loop fires due timers, least first, one after the other; it ends with an empty tree or at
      an exact gap. */
  lemma {:induction false} FireTimersFires(s: Loop, times: seq<int>, scripts: seq<Script>)
    requires Good(s, {}, {})
    ensures var (out, t) := FireTimers(s, times, scripts);
            (out.Empty? ==> t.timers == []) && (out.Gap? ==> GapIsExact(s, t, times, out.duration))
    decreases |scripts|
  {
    hide Good, FireOne, GapIsExact;
    if s.timers != [] && times != [] {
      if s.timers[0].due > times[0] {
        LeastIsLeast(s, times[0]);
        assert GapIsExact(s, s, times, s.timers[0].due - times[0]) by {
          GapNow(s, times);
        }
      } else if scripts != [] {
        var next := FireOne(s, times[0], scripts[0]);
        FireOneKeeps(s, times[0], scripts[0]);
        FireTimersFires(next, times[1..], scripts[1..]);
        var (out, t) := FireTimers(s, times, scripts);
        if out.Gap? {
          GapLater(s, next, t, times, out.duration);
        }
      }
    }
  }

  lemma GapNow(s: Loop, times: seq<int>)
    requires s.timers != [] && times != [] && s.timers[0].due > times[0]
    requires forall n :: n in s.timers ==> n.due > times[0]
    ensures GapIsExact(s, s, times, s.timers[0].due - times[0])
  {
  }

  /** The second loop resumes the yields from the front until none is left. */
  lemma {:induction false} RunYieldsRuns(s: Loop, scripts: seq<Script>)
    requires Good(s, {}, {})
    ensures var (out, t) := RunYields(s, scripts);
            && Good(t, {}, {}) && Later(s, t, NamedIn(scripts))
            && !out.Gap? && (out.Empty? ==> t.yieldQueue == [])
            && forall k :: |s.log| <= k < |t.log| ==> t.log[k].FromYield?
    decreases |scripts|
  {
    if s.yieldQueue != [] && scripts != [] {
      hide Good;
      var next := YieldOne(s, scripts[0]);
      YieldOneKeeps(s, scripts[0]);
      RunYieldsRuns(next, scripts[1..]);
      var (out, t) := RunYields(s, scripts);
      LaterTrans(s, next, t, Named(scripts[0]), NamedIn(scripts[1..]));
      hide YieldOne;
      assert forall k :: 0 <= k < |next.log| ==> next.log[k] == t.log[k];
    }
  }

  function NamedInPass(p: Pass): set<nat> {
    NamedIn(p.timerScripts) + NamedIn(p.yieldScripts) + NamedIn(p.ioScripts)
  }

  /** TimerLoop::run as a whole. */
  lemma RunTimersRuns(s: Loop, p: Pass)
    requires Good(s, {}, {})
    ensures var (out, t) := RunTimers(s, p);
            && Good(t, {}, {}) && Later(s, t, NamedIn(p.timerScripts) + NamedIn(p.yieldScripts))
            && (out.Empty? ==> t.yieldQueue == [])
            && (out.Gap? ==> GapIsExact(s, t, p.times, out.duration))
  {
    hide Good, GapIsExact;
    FireTimersKeeps(s, p.times, p.timerScripts);
    FireTimersFires(s, p.times, p.timerScripts);
    var (out, drained) := FireTimers(s, p.times, p.timerScripts);
    RunYieldsRuns(drained, p.yieldScripts);
    LaterTrans(s, drained, RunYields(drained, p.yieldScripts).1, NamedIn(p.timerScripts), NamedIn(p.yieldScripts));
  }

  // ---------------------------------------------------------------- ThreadLoop::isRun

  /** The first look at the counter that follows a notify; |wakes| if none does. */
  function FirstNotify(wakes: seq<nat>): (n: nat)
    ensures n <= |wakes| && (forall k :: 0 <= k < n ==> wakes[k] == 0) && (n < |wakes| ==> wakes[n] > 0)
  {
    if wakes == [] || wakes[0] > 0 then 0
    else
      var n := FirstNotify(wakes[1..]);
      assert forall k :: 0 < k < n + 1 ==> wakes[k] == wakes[1..][k - 1];
      n + 1
  }

  /** isRun answers false at once exactly when there is no task. Else it waits through all spurious wakes
      and answers true at the first look that follows a notify; the counter then lacks just the tasks that
      have notified. */
  lemma {:induction false} WaitEndsWithAFinish(cnt: nat, wakes: seq<nat>)
    ensures AwaitThreads(cnt, wakes) ==
            if cnt == 0 then (Some(false), 0)
            else if FirstNotify(wakes) == |wakes| then (None, cnt)
            else (Some(true), if wakes[FirstNotify(wakes)] <= cnt then cnt - wakes[FirstNotify(wakes)] else 0)
  {
    if cnt > 0 && wakes != [] {
      if wakes[0] == 0 {
        WaitEndsWithAFinish(cnt, wakes[1..]);
      } else {
        LowerEndsWait(cnt, if wakes[0] <= cnt then cnt - wakes[0] else 0, wakes[1..]);
      }
    }
  }

  lemma LowerEndsWait(start: nat, cnt: nat, wakes: seq<nat>)
    requires start > cnt
    ensures WaitBelow(start, cnt, wakes) == (Some(true), cnt)
  {
  }

  // ---------------------------------------------------------------- EventLoop::run

  lemma WokenIsGood(s: Loop, script: Script)
    requires Good(s, {}, {})
    ensures Good(s.(log := s.log + [FromIo(script)]), {}, {})
  {
    hide Sorted, DistinctIds, Ids, ProperLog, Resumed, Elems, Below;
    ResumedNext(s.log, FromIo(script));
  }

  lemma WakeOneKeeps(s: Loop, script: Script)
    requires Good(s, {}, {})
    ensures var t := Acts(s.(log := s.log + [FromIo(script)]), script); Good(t, {}, {}) && Later(s, t, Named(script))
  {
    hide Good, Acts, Named;
    var woken := s.(log := s.log + [FromIo(script)]);
    WokenIsGood(s, script);
    ActsKeep(woken, script, {}, {});
    ActsLater(woken, script);
  }

  lemma {:induction false} WakeKeeps(s: Loop, scripts: seq<Script>)
    requires Good(s, {}, {})
    ensures Good(Wake(s, scripts), {}, {}) && Later(s, Wake(s, scripts), NamedIn(scripts))
  {
    hide Acts, Good, Later, NamedIn;
    if scripts == [] {
      LaterSelf(s);
    } else {
      var front, last := scripts[..|scripts| - 1], scripts[|scripts| - 1];
      WakeKeeps(s, front);
      WakeOneKeeps(Wake(s, front), last);
      LaterTrans(s, Wake(s, front), Wake(s, scripts), NamedIn(front), Named(last));
      NamedInSplits(front, last);
      assert front + [last] == scripts;
    }
  }

  lemma LaterSelf(s: Loop)
    ensures Later(s, s, NamedIn([]))
  {
  }

  lemma {:induction false} NamedInSplits(scripts: seq<Script>, last: Script)
    ensures NamedIn(scripts + [last]) == NamedIn(scripts) + Named(last)
  {
    if scripts == [] {
      assert scripts + [last] == [last];
      assert NamedIn([last][1..]) == {};
    } else {
      NamedInSplits(scripts[1..], last);
      assert (scripts + [last])[1..] == scripts[1..] + [last];
    }
  }

  lemma {:induction false} NamedInPrefix(scripts: seq<Script>, n: nat)
    requires n <= |scripts|
    ensures NamedIn(scripts[..n]) <= NamedIn(scripts)
  {
    if n > 0 {
      NamedInPrefix(scripts[1..], n - 1);
      assert scripts[..n][1..] == scripts[1..][..n - 1];
    }
  }

  lemma RunIoKeeps(s: Loop, n: nat, scripts: seq<Script>)
    requires Good(s, {}, {})
    ensures Good(RunIo(s, n, scripts), {}, {}) && Later(s, RunIo(s, n, scripts), NamedIn(scripts))
  {
    hide Good, Wake, Later, NamedIn, TakeOff;
    var m := if n <= s.io then n else s.io;
    var k := if |scripts| <= m then |scripts| else m;
    NamedInPrefix(scripts, k);
    assert scripts[..|scripts|] == scripts;
    TakeOffKeeps(s, m);
    WakeKeeps(TakeOff(s, m), scripts[..k]);
    LaterTrans(s, TakeOff(s, m), RunIo(s, n, scripts), {}, NamedIn(scripts[..k]));
    LaterMore(s, RunIo(s, n, scripts), {} + NamedIn(scripts[..k]), NamedIn(scripts));
  }

  lemma TakeOffKeeps(s: Loop, m: nat)
    requires Good(s, {}, {}) && m <= s.io
    ensures Good(TakeOff(s, m), {}, {}) && Later(s, TakeOff(s, m), {})
  {
    GoodWithCounters(s, s.io - m, s.threads, s.taken + m, s.finished);
  }

  lemma LaterMore(s: Loop, s': Loop, named: set<nat>, more: set<nat>)
    requires Later(s, s', named) && named <= more
    ensures Later(s, s', more)
  {
  }

  lemma GoodWithCounters(s: Loop, io: nat, threads: nat, taken: nat, finished: nat)
    requires Good(s, {}, {})
    ensures Good(s.(io := io, threads := threads, taken := taken, finished := finished), {}, {})
  {
    hide Sorted, DistinctIds, Ids, ProperLog, Resumed, Elems, Below;
  }

  lemma RunPassKeeps(s: Loop, p: Pass)
    requires Good(s, {}, {})
    ensures var (v, t) := RunPass(s, p);
            && Good(t, {}, {}) && Later(s, t, NamedInPass(p))
            && (v.Exit? ==> t.io == 0 && t.threads == 0 && t.yieldQueue == [])
  {
    RunTimersRuns(s, p);
    var (timeout, t) := RunTimers(s, p);
    RunIoKeeps(t, p.completions, p.ioScripts);
    hide Good, RunTimers, RunIo;
    LaterTrans(s, t, RunIo(t, p.completions, p.ioScripts), NamedIn(p.timerScripts) + NamedIn(p.yieldScripts),
               NamedIn(p.ioScripts));
    var cnt := AwaitThreads(t.threads, p.wakes).1;
    GoodWithCounters(t, t.io, cnt, t.taken, t.finished + t.threads - cnt);
    WaitEndsWithAFinish(t.threads, p.wakes);
  }

  function NamedInPasses(passes: seq<Pass>): set<nat> {
    if passes == [] then {} else NamedInPass(passes[0]) + NamedInPasses(passes[1..])
  }

  /** Every run of the event loop, whatever the coroutines, the clock and the kernel do: nodes are
      conserved, resumptions are proper, nothing is erased twice; and on exit no I/O, thread task or yield
      is pending, so whatever was ever suspended has been resumed or destroyed, but for the timers left. */
  lemma {:induction false} RunKeeps(s: Loop, passes: seq<Pass>)
    requires Good(s, {}, {})
    ensures var (v, t) := RunAll(s, passes);
            && Good(t, {}, {}) && Later(s, t, NamedInPasses(passes))
            && (v.Exit? ==> t.io == 0 && t.threads == 0 && t.yieldQueue == []
                            && Below(t.nextId) == Ids(t.timers) + Resumed(t.log) + t.destroyed)
    decreases |passes|
  {
    if passes != [] {
      hide RunPass;
      var (v, t) := RunPass(s, passes[0]);
      RunPassKeeps(s, passes[0]);
      if v.Again? {
        RunKeeps(t, passes[1..]);
        hide Good, RunAll;
        LaterTrans(s, t, RunAll(t, passes[1..]).1, NamedInPass(passes[0]), NamedInPasses(passes[1..]));
      } else {
        assert v.Exit? ==> Elems(t.yieldQueue) == {};
      }
    }
  }

  /** So a run loses nothing: whatever waits at its start still waits at its end, has been resumed in it, or
      has been destroyed by an action of it that named it. */
  lemma RunLosesNothing(s: Loop, passes: seq<Pass>, id: nat)
    requires Good(s, {}, {}) && (id in Ids(s.timers) || id in Elems(s.yieldQueue))
    ensures var t := RunAll(s, passes).1;
            || id in Ids(t.timers) || id in Elems(t.yieldQueue) || id in Resumed(t.log) - Resumed(s.log)
            || (id in t.destroyed - s.destroyed && id in NamedInPasses(passes))
  {
    RunKeeps(s, passes);
    hide Good;
    NothingIsLost(s, RunAll(s, passes).1, NamedInPasses(passes), id);
  }

  /** Destroying a suspended awaiter takes effect, whatever else the coroutine does in the same stretch. */
  lemma {:induction false} DestroyedAtOnce(s: Loop, script: Script, k: nat, id: nat)
    requires k < |script|
    requires || (script[k] == DestroyTimer(id) && id in s.heldTimers)
             || (script[k] == DestroyYield(id) && id in s.heldYields)
    ensures id in Acts(s, script).destroyed
  {
    hide Act;
    var n := |script| - 1;
    StillHeld(s, script[..n], id);
    if k < n {
      DestroyedAtOnce(s, script[..n], k, id);
    }
    ActHeld(Acts(s, script[..n]), script[n], id);
  }

  lemma ActHeld(s: Loop, a: Action, id: nat)
    ensures id in s.heldTimers ==> id in Act(s, a).heldTimers + Act(s, a).destroyed
    ensures id in s.heldYields ==> id in Act(s, a).heldYields + Act(s, a).destroyed
    ensures id in s.destroyed ==> id in Act(s, a).destroyed
    ensures a == DestroyTimer(id) && id in s.heldTimers + s.destroyed ==> id in Act(s, a).destroyed
    ensures a == DestroyYield(id) && id in s.heldYields + s.destroyed ==> id in Act(s, a).destroyed
  {
    hide InsertNode, EraseNode, EraseNat, HasNode;
  }

  /** What a suspended awaiter holds it holds until it is destroyed. */
  lemma {:induction false} StillHeld(s: Loop, script: Script, id: nat)
    ensures id in s.heldTimers ==> id in Acts(s, script).heldTimers + Acts(s, script).destroyed
    ensures id in s.heldYields ==> id in Acts(s, script).heldYields + Acts(s, script).destroyed
  {
    hide Act;
    if script != [] {
      var front := script[..|script| - 1];
      StillHeld(s, front, id);
      ActHeld(Acts(s, front), script[|script| - 1], id);
    }
  }

  /** A coroutine that was destroyed while it waited is never resumed, and its node is gone. */
  lemma DestroyedForGood(s: Loop, passes: seq<Pass>, id: nat)
    requires Good(s, {}, {}) && id in s.destroyed
    ensures var t := RunAll(s, passes).1;
            id in t.destroyed && id !in Resumed(t.log) && id !in Ids(t.timers) && id !in Elems(t.yieldQueue)
  {
    RunKeeps(s, passes);
    hide RunAll, Sorted, DistinctIds, Ids, ProperLog, Resumed, Elems, Below;
  }

  // ---------------------------------------------------------------- submissions and completions

  /** How often the coroutines resumed so far have done a. */
  function Done(log: seq<Resumption>, a: Action): nat {
    if log == [] then 0 else Done(log[..|log| - 1], a) + multiset(log[|log| - 1].script)[a]
  }

  lemma DoneNext(log: seq<Resumption>, r: Resumption, a: Action)
    ensures Done(log + [r], a) == Done(log, a) + multiset(r.script)[a]
  {
    assert (log + [r])[..|log|] == log;
  }

  lemma ActCounts(s: Loop, a: Action)
    ensures var t := Act(s, a);
            && t.log == s.log && t.taken == s.taken && t.io == s.io + multiset{a}[SubmitIo]
            && t.threads + t.finished == s.threads + s.finished + multiset{a}[StartThreadTask]
            && s.finished <= t.finished <= s.finished + multiset{a}[FinishThreadTask]
            && (s.threads > 0 ==> t.finished == s.finished + multiset{a}[FinishThreadTask])
  {
    hide InsertNode, EraseNode, EraseNat, HasNode;
  }

  lemma LastCounts(script: Script, a: Action)
    requires script != []
    ensures multiset(script)[a] == multiset(script[..|script| - 1])[a] + multiset{script[|script| - 1]}[a]
  {
    assert script == script[..|script| - 1] + [script[|script| - 1]];
  }

  lemma {:induction false} ActsCount(s: Loop, script: Script)
    ensures var t := Acts(s, script);
            && t.log == s.log && t.taken == s.taken && t.io == s.io + multiset(script)[SubmitIo]
            && t.threads + t.finished == s.threads + s.finished + multiset(script)[StartThreadTask]
            && s.finished <= t.finished <= s.finished + multiset(script)[FinishThreadTask]
  {
    hide Act;
    if script != [] {
      var front, last := script[..|script| - 1], script[|script| - 1];
      ActsCount(s, front);
      ActCounts(Acts(s, front), last);
      LastCounts(script, SubmitIo);
      LastCounts(script, StartThreadTask);
      LastCounts(script, FinishThreadTask);
    }
  }

  /** Every finish counts, if at no point more tasks finish than are at work. */
  lemma {:induction false} FinishesCount(s: Loop, script: Script)
    requires forall k :: 0 <= k <= |script| ==>
               multiset(script[..k])[FinishThreadTask] <= s.threads + multiset(script[..k])[StartThreadTask]
    ensures Acts(s, script).finished == s.finished + multiset(script)[FinishThreadTask]
  {
    hide Act;
    if script != [] {
      var front, last := script[..|script| - 1], script[|script| - 1];
      assert forall k :: 0 <= k <= |front| ==> front[..k] == script[..k];
      FinishesCount(s, front);
      ActsCount(s, front);
      ActCounts(Acts(s, front), last);
      assert script[..|script|] == script;
      LastCounts(script, StartThreadTask);
      LastCounts(script, FinishThreadTask);
    }
  }

  /** Counter plus completions less submissions, and the same for thread tasks. */
  ghost predicate SameAccounts(s: Loop, t: Loop) {
    && s.io + s.taken - Done(s.log, SubmitIo) == t.io + t.taken - Done(t.log, SubmitIo)
    && s.threads + s.finished - Done(s.log, StartThreadTask)
       == t.threads + t.finished - Done(t.log, StartThreadTask)
  }

  lemma ResumingBalances(s: Loop, u: Loop, r: Resumption)
    requires u.log == s.log + [r]
    requires u.io == s.io && u.taken == s.taken && u.threads == s.threads && u.finished == s.finished
    ensures SameAccounts(s, Acts(u, r.script))
  {
    hide Acts, Done;
    ActsCount(u, r.script);
    DoneNext(s.log, r, SubmitIo);
    DoneNext(s.log, r, StartThreadTask);
  }

  lemma FireOneBalances(s: Loop, now: int, script: Script)
    requires s.timers != []
    ensures SameAccounts(s, FireOne(s, now, script))
  {
    hide Acts, EraseTimer;
    ResumingBalances(s, TakeTimer(s, now, script), FromTimer(s.timers[0].id, now, s.timers, script));
    EraseTimerRest(Acts(TakeTimer(s, now, script), script), s.timers[0].id);
  }

  lemma {:induction false} FireTimersBalances(s: Loop, times: seq<int>, scripts: seq<Script>)
    ensures SameAccounts(s, FireTimers(s, times, scripts).1)
    decreases |scripts|
  {
    hide FireOne, Done;
    if s.timers != [] && times != [] && s.timers[0].due <= times[0] && scripts != [] {
      FireOneBalances(s, times[0], scripts[0]);
      FireTimersBalances(FireOne(s, times[0], scripts[0]), times[1..], scripts[1..]);
    }
  }

  lemma YieldOneBalances(s: Loop, script: Script)
    requires s.yieldQueue != []
    ensures SameAccounts(s, YieldOne(s, script))
  {
    hide Acts;
    ResumingBalances(s, TakeYield(s, script), FromYield(s.yieldQueue[0], s.yieldQueue, script));
  }

  lemma {:induction false} RunYieldsBalances(s: Loop, scripts: seq<Script>)
    ensures SameAccounts(s, RunYields(s, scripts).1)
    decreases |scripts|
  {
    hide YieldOne, Done;
    if s.yieldQueue != [] && scripts != [] {
      YieldOneBalances(s, scripts[0]);
      RunYieldsBalances(YieldOne(s, scripts[0]), scripts[1..]);
    }
  }

  lemma {:induction false} WakeBalances(s: Loop, scripts: seq<Script>)
    ensures SameAccounts(s, Wake(s, scripts)) && Wake(s, scripts).taken == s.taken
    ensures Wake(s, scripts).log == s.log + seq(|scripts|, i requires 0 <= i < |scripts| => FromIo(scripts[i]))
  {
    hide Acts, Done;
    if scripts != [] {
      var front, last := scripts[..|scripts| - 1], scripts[|scripts| - 1];
      WakeBalances(s, front);
      var t := Wake(s, front);
      ResumingBalances(t, t.(log := t.log + [FromIo(last)]), FromIo(last));
      ActsCount(t.(log := t.log + [FromIo(last)]), last);
    }
  }

  /** A batch of n completions: so many leave the counter, as far as there are any, and the coroutines they
      wake are resumed one after another, with whatever they submit counted again. */
  lemma RunIoTakes(s: Loop, n: nat, scripts: seq<Script>)
    ensures var (t, m) := (RunIo(s, n, scripts), if n <= s.io then n else s.io);
            var k := if |scripts| <= m then |scripts| else m;
            && t.taken == s.taken + m && SameAccounts(s, t)
            && t.log == s.log + seq(k, i requires 0 <= i < k => FromIo(scripts[i]))
  {
    hide Done;
    var m := if n <= s.io then n else s.io;
    var ran := if |scripts| <= m then scripts else scripts[..m];
    WakeBalances(TakeOff(s, m), ran);
    hide Wake;
  }

  /** A pass serves I/O whenever some is pending, also while the least timer is not yet due: what the kernel has
      completed is taken off. A timer that is not due keeps the loop running; it exits exactly if there is no
      timer to wait for, no I/O and no thread task. */
  lemma PassDecides(s: Loop, p: Pass)
    requires !RunTimers(s, p).0.Cut?
    ensures var ((timeout, t), (v, u)) := (RunTimers(s, p), RunPass(s, p));
            && (t.io > 0 ==> v.Again? && u.taken == t.taken + (if p.completions < t.io then p.completions else t.io))
            && (t.io == 0 ==> u.taken == t.taken)
            && (timeout.Gap? ==> v.Again?) && (timeout.Gap? && t.io == 0 ==> u == t)
            && (v.Exit? <==> timeout.Empty? && t.io == 0 && t.threads == 0)
  {
    var t := RunTimers(s, p).1;
    RunIoTakes(t, p.completions, p.ioScripts);
    WaitEndsWithAFinish(t.threads, p.wakes);
    hide RunTimers, RunIo, AwaitThreads;
  }

  lemma RunPassBalances(s: Loop, p: Pass)
    ensures SameAccounts(s, RunPass(s, p).1)
    ensures RunPass(s, p).0.Exit? ==> RunPass(s, p).1.io == 0 && RunPass(s, p).1.threads == 0
  {
    FireTimersBalances(s, p.times, p.timerScripts);
    var drained := FireTimers(s, p.times, p.timerScripts).1;
    RunYieldsBalances(drained, p.yieldScripts);
    var t := RunTimers(s, p).1;
    RunIoTakes(t, p.completions, p.ioScripts);
    WaitEndsWithAFinish(t.threads, p.wakes);
    hide FireTimers, RunYields, RunIo, AwaitThreads, Done;
  }

  /** In every run, what is pending is what was pending, plus what the coroutines that were resumed have
      submitted or started, less what has been taken off or has finished; so on exit the two are equal. */
  lemma {:induction false} CountersBalance(s: Loop, passes: seq<Pass>)
    ensures var (v, t) := RunAll(s, passes);
            && t.io == s.io + (Done(t.log, SubmitIo) - Done(s.log, SubmitIo)) - (t.taken - s.taken)
            && t.threads == s.threads + (Done(t.log, StartThreadTask) - Done(s.log, StartThreadTask))
                            - (t.finished - s.finished)
            && (v.Exit? ==> t.io == 0 && t.threads == 0)
    decreases |passes|
  {
    hide RunPass, Done;
    if passes != [] {
      RunPassBalances(s, passes[0]);
      if RunPass(s, passes[0]).0.Again? {
        CountersBalance(RunPass(s, passes[0]).1, passes[1..]);
      }
    }
  }

  // ---------------------------------------------------------------- the loop comes to its end

  function Still(n: nat): (r: seq<Script>)
    ensures |r| == n && forall i :: 0 <= i < n ==> r[i] == []
  {
    seq(n, _ => [])
  }

  /** A pass in which coroutines ask for nothing more, the last timer is due, and everything submitted or
      started comes to its end. */
  function StillPass(s: Loop): Pass {
    var now := if s.timers == [] then 0 else s.timers[|s.timers| - 1].due;
    Pass(seq(|s.timers|, _ => now), Still(|s.timers|), Still(|s.yieldQueue|), s.io, Still(s.io), [s.threads])
  }

  /** Nothing but what waited for a timer or in the yield queue, and the log, differs. */
  ghost predicate OnlyResumed(s: Loop, t: Loop, n: nat) {
    && t.io == s.io && t.threads == s.threads && t.taken == s.taken && t.finished == s.finished
    && t.destroyed == s.destroyed && t.nextId == s.nextId && |t.log| == |s.log| + n
  }

  lemma FireStill(s: Loop, now: int)
    requires Good(s, {}, {}) && s.timers != []
    ensures var t := FireOne(s, now, []);
            t.timers == s.timers[1..] && t.yieldQueue == s.yieldQueue && OnlyResumed(s, t, 1)
  {
  }

  lemma {:induction false} FireAllStill(s: Loop, now: int, n: nat)
    requires Good(s, {}, {}) && n == |s.timers| && forall k :: 0 <= k < n ==> s.timers[k].due <= now
    ensures var (out, t) := FireTimers(s, seq(n, _ => now), Still(n));
            out.Empty? && t.timers == [] && t.yieldQueue == s.yieldQueue && OnlyResumed(s, t, n) && Good(t, {}, {})
    decreases n
  {
    hide Good, FireOne;
    if n > 0 {
      FireStill(s, now);
      FireOneKeeps(s, now, []);
      FireAllStill(FireOne(s, now, []), now, n - 1);
      assert seq(n, _ => now)[1..] == seq(n - 1, _ => now) && Still(n)[1..] == Still(n - 1);
    }
  }

  lemma {:induction false} YieldAllStill(s: Loop, n: nat)
    requires Good(s, {}, {}) && n == |s.yieldQueue|
    ensures var (out, t) := RunYields(s, Still(n));
            out.Empty? && t.timers == s.timers && t.yieldQueue == [] && OnlyResumed(s, t, n) && Good(t, {}, {})
    decreases n
  {
    hide Good;
    if n > 0 {
      YieldOneKeeps(s, []);
      YieldAllStill(YieldOne(s, []), n - 1);
      assert Still(n)[1..] == Still(n - 1);
    }
  }

  lemma {:induction false} WakeStill(s: Loop, n: nat)
    ensures var t := Wake(s, Still(n)); t.timers == s.timers && t.yieldQueue == s.yieldQueue && OnlyResumed(s, t, n)
  {
    if n > 0 {
      WakeStill(s, n - 1);
      assert Still(n)[..n - 1] == Still(n - 1);
    }
  }

  lemma StillPassEnds(s: Loop)
    requires Good(s, {}, {})
    ensures var (v, t) := RunPass(s, StillPass(s));
            && Good(t, {}, {}) && t.timers == [] && t.yieldQueue == [] && t.io == 0
            && v == (if s.io > 0 || s.threads > 0 then Again else Exit)
            && t.threads == (if s.io > 0 then s.threads else 0)
            && t.taken == s.taken + s.io && t.finished + t.threads == s.finished + s.threads
            && t.destroyed == s.destroyed && t.nextId == s.nextId
  {
    var p := StillPass(s);
    RunPassKeeps(s, p);
    StillTimersRun(s);
    var t := RunTimers(s, p).1;
    WakeStill(TakeOff(t, s.io), s.io);
    hide Good, RunTimers, Wake;
    WaitEndsWithAFinish(t.threads, p.wakes);
    assert FirstNotify([s.threads]) == if s.threads > 0 then 0 else 1;
  }

  lemma StillTimersRun(s: Loop)
    requires Good(s, {}, {})
    ensures var (out, t) := RunTimers(s, StillPass(s));
            out.Empty? && t.timers == [] && t.yieldQueue == [] && OnlyResumed(s, t, |s.timers| + |s.yieldQueue|)
  {
    var n := |s.timers|;
    LastIsLatest(s);
    FireAllStill(s, if n == 0 then 0 else s.timers[n - 1].due, n);
    hide Good, FireTimers, RunYields;
    var p := StillPass(s);
    YieldAllStill(FireTimers(s, p.times, p.timerScripts).1, |s.yieldQueue|);
  }

  lemma LastIsLatest(s: Loop)
    requires Good(s, {}, {})
    ensures forall k :: 0 <= k < |s.timers| ==> s.timers[k].due <= s.timers[|s.timers| - 1].due
  {
  }

  /** From every point of every run the loop comes to its end, once the coroutines ask for nothing more:
      every I/O is then taken, every task has finished, and whatever waited has been resumed. */
  lemma {:induction false} StillRunEnds(s: Loop) returns (passes: seq<Pass>)
    requires Good(s, {}, {})
    ensures var (v, t) := RunAll(s, passes);
            && v.Exit? && t.timers == [] && t.yieldQueue == []
            && t.taken == s.taken + s.io && t.finished == s.finished + s.threads
            && Resumed(t.log) == Resumed(s.log) + s.heldTimers + s.heldYields
    decreases s.io + s.threads
  {
    var (v, t) := RunPass(s, StillPass(s));
    StillPassEnds(s);
    AllResumed(s, t);
    hide Good, RunPass, StillPass;
    if v.Again? {
      var more := StillRunEnds(t);
      passes := [StillPass(s)] + more;
      assert passes[1..] == more;
      NothingHeld(t);
    } else {
      passes := [StillPass(s)];
    }
  }

  lemma NothingHeld(t: Loop)
    requires Good(t, {}, {}) && t.timers == [] && t.yieldQueue == []
    ensures t.heldTimers == {} && t.heldYields == {}
  {
  }

  lemma AllResumed(s: Loop, t: Loop)
    requires Good(s, {}, {}) && Good(t, {}, {}) && t.timers == [] && t.yieldQueue == []
    requires t.destroyed == s.destroyed && t.nextId == s.nextId
    ensures Resumed(t.log) == Resumed(s.log) + s.heldTimers + s.heldYields
  {
    hide Below, Resumed, ProperLog;
    NothingHeld(t);
    forall id ensures id in Resumed(t.log) <==> id in Resumed(s.log) + s.heldTimers + s.heldYields {
      assert id in Below(s.nextId) <==> id in Resumed(t.log) + t.destroyed;
      assert id in Below(s.nextId) <==> id in s.heldTimers + s.heldYields + Resumed(s.log) + s.destroyed;
    }
  }

  // ---------------------------------------------------------------- timers left behind

  /** Where the tree was last found empty before an exit. */
  function Drained(s: Loop, passes: seq<Pass>): Loop
    decreases |passes|
  {
    if passes == [] then s
    else
      var (v, t) := RunPass(s, passes[0]);
      if v.Again? then Drained(t, passes[1..]) else FireTimers(s, passes[0].times, passes[0].timerScripts).1
  }

  /** The timers held are those added since d and not destroyed. */
  ghost predicate SinceThen(d: Loop, s: Loop) {
    d.timerIds <= s.timerIds && s.heldTimers == s.timerIds - d.timerIds - s.destroyed
  }

  lemma {:induction false} ActsSince(d: Loop, s: Loop, script: Script, t: set<nat>, y: set<nat>)
    requires Good(s, t, y) && SinceThen(d, s)
    ensures SinceThen(d, Acts(s, script))
  {
    if script != [] {
      var front := script[..|script| - 1];
      ActsSince(d, s, front, t, y);
      ActsKeep(s, front, t, y);
      ActSince(d, Acts(s, front), script[|script| - 1], t, y);
    }
  }

  lemma ActSince(d: Loop, s: Loop, a: Action, t: set<nat>, y: set<nat>)
    requires Good(s, t, y) && SinceThen(d, s)
    ensures SinceThen(d, Act(s, a))
  {
    hide Sorted, DistinctIds, Ids, InsertNode, EraseNode, EraseNat, HasNode, ProperLog, Resumed, Elems, Below;
    BelowNext(s.nextId);
  }

  lemma {:induction false} YieldsSince(d: Loop, s: Loop, scripts: seq<Script>)
    requires Good(s, {}, {}) && SinceThen(d, s)
    ensures SinceThen(d, RunYields(s, scripts).1)
    decreases |scripts|
  {
    if s.yieldQueue != [] && scripts != [] {
      TakeYieldKeeps(s, scripts[0]);
      ActsSince(d, TakeYield(s, scripts[0]), scripts[0], {}, {s.yieldQueue[0]});
      YieldOneKeeps(s, scripts[0]);
      hide Good, Acts;
      YieldsSince(d, YieldOne(s, scripts[0]), scripts[1..]);
    }
  }

  lemma StartsSince(d: Loop)
    requires Good(d, {}, {}) && d.timers == []
    ensures SinceThen(d, d)
  {
  }

  lemma NoTimerNoHeld(s: Loop)
    requires Good(s, {}, {})
    ensures s.heldTimers == Ids(s.timers) && (s.timers == [] <==> s.heldTimers == {})
  {
    assert s.timers != [] ==> s.timers[0].id in Ids(s.timers);
  }

  /** The timers that an exit leaves are exactly those that were added after the tree had last been found
      empty and whose awaiters have not been destroyed; so none is left exactly when all of them have. */
  lemma {:induction false} TimersLeftAtExit(s: Loop, passes: seq<Pass>)
    requires Good(s, {}, {}) && RunAll(s, passes).0.Exit?
    ensures var (d, t) := (Drained(s, passes), RunAll(s, passes).1);
            && d.timers == [] && Ids(t.timers) == t.timerIds - d.timerIds - t.destroyed
            && (t.timers == [] <==> t.timerIds - d.timerIds <= t.destroyed)
    decreases |passes|
  {
    hide Good, RunPass;
    var (v, t) := RunPass(s, passes[0]);
    RunPassKeeps(s, passes[0]);
    if v.Again? {
      TimersLeftAtExit(t, passes[1..]);
    } else {
      ExitPass(s, passes[0]);
    }
  }

  lemma ExitPass(s: Loop, p: Pass)
    requires Good(s, {}, {}) && RunPass(s, p).0.Exit?
    ensures var (d, t) := (FireTimers(s, p.times, p.timerScripts).1, RunPass(s, p).1);
            && d.timers == [] && Ids(t.timers) == t.timerIds - d.timerIds - t.destroyed
            && (t.timers == [] <==> t.timerIds - d.timerIds <= t.destroyed)
            && t.timers == RunYields(d, p.yieldScripts).1.timers
  {
    hide Good, FireTimers, RunYields;
    FireTimersKeeps(s, p.times, p.timerScripts);
    FireTimersFires(s, p.times, p.timerScripts);
    RunTimersRuns(s, p);
    var (out, d) := FireTimers(s, p.times, p.timerScripts);
    var t := RunYields(d, p.yieldScripts).1;
    StartsSince(d);
    YieldsSince(d, d, p.yieldScripts);
    NoTimerNoHeld(t);
    NoneLeft(t.timerIds - d.timerIds, t.destroyed);
  }

  lemma NoneLeft(a: set<nat>, b: set<nat>)
    ensures a - b == {} <==> a <= b
  {
    forall x | x in a && a - b == {} ensures x in b {
      assert x !in a - b;
    }
  }

  predicate Sleeps(script: Script) {
    exists k :: 0 <= k < |script| && script[k].SleepUntil?
  }

  lemma {:induction false} QuietActs(s: Loop, script: Script)
    requires !Sleeps(script)
    ensures Acts(s, script).timerIds == s.timerIds
  {
    if script != [] {
      var front := script[..|script| - 1];
      assert !Sleeps(front) by {
        assert forall k :: 0 <= k < |front| ==> front[k] == script[k];
      }
      QuietActs(s, front);
    }
  }

  lemma {:induction false} QuietYields(s: Loop, scripts: seq<Script>)
    requires forall k :: 0 <= k < |scripts| ==> !Sleeps(scripts[k])
    ensures RunYields(s, scripts).1.timerIds == s.timerIds
    decreases |scripts|
  {
    if s.yieldQueue != [] && scripts != [] {
      QuietActs(TakeYield(s, scripts[0]), scripts[0]);
      hide Acts;
      QuietYields(YieldOne(s, scripts[0]), scripts[1..]);
    }
  }

  /** If no coroutine sleeps in the stretch in which it is resumed from the yield queue, an exit leaves no
      timer. */
  lemma {:induction false} NoSleepNoTimerLeft(s: Loop, passes: seq<Pass>)
    requires Good(s, {}, {}) && RunAll(s, passes).0.Exit?
    requires forall p :: p in passes ==> forall k :: 0 <= k < |p.yieldScripts| ==> !Sleeps(p.yieldScripts[k])
    ensures RunAll(s, passes).1.timers == []
    decreases |passes|
  {
    hide Good, RunPass;
    var (v, t) := RunPass(s, passes[0]);
    assert passes[0] in passes;
    RunPassKeeps(s, passes[0]);
    if v.Again? {
      NoSleepNoTimerLeft(t, passes[1..]);
    } else {
      QuietExit(s, passes[0]);
    }
  }

  lemma QuietExit(s: Loop, p: Pass)
    requires Good(s, {}, {}) && RunPass(s, p).0.Exit?
    requires forall k :: 0 <= k < |p.yieldScripts| ==> !Sleeps(p.yieldScripts[k])
    ensures RunPass(s, p).1.timers == []
  {
    hide Good, FireTimers, RunYields;
    ExitPass(s, p);
    QuietYields(FireTimers(s, p.times, p.timerScripts).1, p.yieldScripts);
  }

  function NewLoop(): Loop {
    Loop([], [], 0, {}, {}, false, 0, 0, {}, {}, 0, 0, [])
  }

  lemma NewLoopIsGood()
    ensures Good(NewLoop(), {}, {})
  {
    assert Ids([]) == {} && Elems([]) == {} && Below(0) == {};
  }

  /** A coroutine that yields and then sleeps: the loop exits with its timer pending. */
  lemma TimerLeftBehind(due: int)
    ensures var start := Acts(NewLoop(), [Yield]);
            var (v, t) := RunAll(start, [Pass([], [], [[SleepUntil(due)]], 0, [], [])]);
            && start.yieldQueue == [0] && v.Exit? && t.timers == [Node(1, due)]
  {
    var start := Acts(NewLoop(), [Yield]);
    assert [Yield][..0] == [];
    assert Acts(NewLoop(), [Yield][..0]) == NewLoop();
    assert start == NewLoop().(yieldQueue := [0], heldYields := {0}, nextId := 1);
    var sleep := [SleepUntil(due)];
    var taken := TakeYield(start, sleep);
    assert sleep[..0] == [];
    assert Acts(taken, sleep[..0]) == taken;
    var after := Act(taken, SleepUntil(due));
    assert Acts(taken, sleep) == after;
    assert after.timers == [Node(1, due)] && after.yieldQueue == [0];
    var popped := YieldOne(start, sleep);
    assert popped == PopYield(after, 0) && popped.yieldQueue == [];
    var p := Pass([], [], [sleep], 0, [], []);
    assert p.yieldScripts[1..] == [];
    assert RunYields(popped, p.yieldScripts[1..]) == (Empty, popped);
    assert RunYields(start, p.yieldScripts) == (Empty, popped);
    assert FireTimers(start, [], []) == (Empty, start);
    assert RunTimers(start, p) == (Empty, popped);
    assert RunPass(start, p) == (Exit, popped);
  }

  // ---------------------------------------------------------------- the loop object

  class EventLoop {
    var timers: seq<Node>
    var yieldQueue: seq<nat>
    var nextId: nat
    var heldTimers: set<nat>
    var heldYields: set<nat>
    var badErase: bool
    var io: nat
    var threads: nat
    ghost var timerIds: set<nat>
    ghost var destroyed: set<nat>
    ghost var taken: nat
    ghost var finished: nat
    ghost var log: seq<Resumption>

    ghost function View(): Loop
      reads this
    {
      Loop(timers, yieldQueue, nextId, heldTimers, heldYields, badErase, io, threads, timerIds, destroyed, taken,
           finished, log)
    }

    constructor ()
      ensures View() == NewLoop() && Good(View(), {}, {})
    {
      timers, yieldQueue, nextId := [], [], 0;
      heldTimers, heldYields, badErase := {}, {}, false;
      io, threads, timerIds, destroyed, taken, finished, log := 0, 0, {}, {}, 0, 0, [];
      new;
      NewLoopIsGood();
    }

    /** _timerTree.erase(it): undefined unless it designates a node of the tree. */
    method Erase(id: nat)
      modifies `timers, `badErase
      ensures View() == EraseTimer(old(View()), id)
    {
      badErase := badErase || !HasNode(timers, id);
      timers := EraseNode(timers, id);
    }

    /** One action of a running coroutine. */
    method Do(a: Action)
      modifies this
      ensures View() == Act(old(View()), a)
    {
      hide InsertNode, EraseNode, EraseNat, HasNode;
      match a
      case SleepUntil(due) =>
        timers := InsertNode(timers, Node(nextId, due));
        heldTimers, timerIds := heldTimers + {nextId}, timerIds + {nextId};
        nextId := nextId + 1;
      case Yield =>
        yieldQueue := yieldQueue + [nextId];
        heldYields := heldYields + {nextId};
        nextId := nextId + 1;
      case DestroyTimer(id) =>
        if id in heldTimers {
          Erase(id);
          heldTimers, destroyed := heldTimers - {id}, destroyed + {id};
        }
      case DestroyYield(id) =>
        if id in heldYields {
          badErase := badErase || id !in yieldQueue;
          yieldQueue := EraseNat(yieldQueue, id);
          heldYields, destroyed := heldYields - {id}, destroyed + {id};
        }
      case SubmitIo =>
        io := io + 1;
      case StartThreadTask =>
        threads := threads + 1;
      case FinishThreadTask =>
        if threads > 0 {
          threads := threads - 1;
          finished := finished + 1;
        }
    }

    /** A resumed coroutine acts until it suspends or ends. */
    method Resume(script: Script)
      modifies this
      ensures View() == Acts(old(View()), script)
    {
      for i := 0 to |script|
        invariant View() == Acts(old(View()), script[..i])
      {
        assert script[..i + 1][..i] == script[..i];
        Do(script[i]);
      }
      assert script[..|script|] == script;
    }

    method TimersRun(p: Pass) returns (out: Outcome)
      modifies this
      ensures (out, View()) == RunTimers(old(View()), p)
    {
      hide Act, Acts;
      var r := 0;
      while timers != []
        invariant r <= |p.times| && r <= |p.timerScripts|
        invariant FireTimers(old(View()), p.times, p.timerScripts)
                  == FireTimers(View(), p.times[r..], p.timerScripts[r..])
        decreases |p.times| - r
      {
        if r == |p.times| {
          return Cut;
        }
        var nowTime := p.times[r];
        var it := timers[0];
        if it.due > nowTime {
          return Gap(it.due - nowTime);
        }
        if r == |p.timerScripts| {
          return Cut;
        }
        ghost var before := View();
        heldTimers := heldTimers - {it.id};
        log := log + [FromTimer(it.id, nowTime, timers, p.timerScripts[r])];
        Resume(p.timerScripts[r]);
        Erase(it.id);
        assert View() == FireOne(before, nowTime, p.timerScripts[r]);
        r := r + 1;
      }
      out := YieldsRun(p.yieldScripts);
    }

    method YieldsRun(scripts: seq<Script>) returns (out: Outcome)
      modifies this
      ensures (out, View()) == RunYields(old(View()), scripts)
    {
      hide Act, Acts;
      var r := 0;
      while yieldQueue != []
        invariant r <= |scripts|
        invariant RunYields(old(View()), scripts) == RunYields(View(), scripts[r..])
        decreases |scripts| - r
      {
        if r == |scripts| {
          return Cut;
        }
        ghost var before := View();
        var it := yieldQueue[0];
        heldYields := heldYields - {it};
        log := log + [FromYield(it, yieldQueue, scripts[r])];
        Resume(scripts[r]);
        badErase := badErase || yieldQueue == [] || yieldQueue[0] != it;
        yieldQueue := if yieldQueue == [] then [] else yieldQueue[1..];
        assert View() == YieldOne(before, scripts[r]);
        r := r + 1;
      }
      out := Empty;
    }

    method IoRun(n: nat, scripts: seq<Script>)
      modifies this
      ensures View() == RunIo(old(View()), n, scripts)
    {
      hide Act, Acts;
      var m := if n <= io then n else io;
      io := io - m;
      taken := taken + m;
      ghost var s := View();
      var ran := if |scripts| <= m then scripts else scripts[..m];
      for i := 0 to |ran|
        invariant View() == Wake(s, ran[..i])
      {
        assert ran[..i + 1][..i] == ran[..i];
        log := log + [FromIo(ran[i])];
        Resume(ran[i]);
      }
      assert ran[..|ran|] == ran;
    }

    /** ThreadLoop::isRun: a wait on the condition that the counter has gone down. */
    method ThreadsRun(wakes: seq<nat>) returns (isRun: Option<bool>)
      modifies `threads, `finished
      ensures (isRun, threads) == AwaitThreads(old(threads), wakes)
      ensures finished + threads == old(finished + threads)
    {
      if threads == 0 {
        return Some(false);
      }
      var cnt := threads;
      var i := 0;
      while cnt <= threads
        invariant i <= |wakes| && cnt >= threads && finished + threads == old(finished + threads)
        invariant WaitBelow(cnt, old(threads), wakes) == WaitBelow(cnt, threads, wakes[i..])
        decreases |wakes| - i
      {
        if i == |wakes| {
          return None;
        }
        var done := if wakes[i] <= threads then wakes[i] else threads;
        threads := threads - done;
        finished := finished + done;
        i := i + 1;
      }
      isRun := Some(true);
    }

    /** EventLoop::run. */
    method Run(passes: seq<Pass>) returns (v: Verdict)
      modifies this
      ensures (v, View()) == RunAll(old(View()), passes)
      ensures old(Good(View(), {}, {})) ==> Good(View(), {}, {})
      ensures old(Good(View(), {}, {})) && v.Exit? ==> io == 0 && threads == 0 && yieldQueue == []
    {
      hide Good, RunTimers, RunIo, AwaitThreads;
      for i := 0 to |passes|
        invariant RunAll(old(View()), passes) == RunAll(View(), passes[i..])
        invariant old(Good(View(), {}, {})) ==> Good(View(), {}, {})
      {
        var p := passes[i];
        ghost var s := View();
        if old(Good(View(), {}, {})) {
          RunPassKeeps(s, p);
        }
        var timeout := TimersRun(p);
        if timeout.Cut? {
          return Stuck;
        }
        if io != 0 {
          IoRun(p.completions, p.ioScripts);
        } else if timeout.Gap? {
          // sleep_for(*timeout)
        } else {
          var more := ThreadsRun(p.wakes);
          if more.None? {
            return Stuck;
          }
          if !more.value {
            return Exit;
          }
        }
        assert RunPass(s, p) == (Again, View());
      }
      v := Stuck;
    }
  }
}
