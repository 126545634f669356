/** The serial executor: one task at a time, in the order of the calls. A step is one stretch of code
    between two points where control is with the tasks or with the callers, so a run is any sequence of
    steps. Tasks are numbered by the order in which serial was called. The class changes the executor's
    members in place; its methods compute the steps. */
module SerialExecutors {

  /** An element of the queue: the task and whether its caller is suspended on it. The first caller
      of a burst queues the no-op coroutine instead of itself. */
  datatype Entry = Entry(task: nat, waits: bool)

  /** Where the active start() frame stands. direct tells whether that frame is awaited by the
      serial() of the first caller; otherwise it is awaited by a detached SerialTask. */
  datatype Pump =
    | NoPump
    | Running(task: nat, waits: bool, direct: bool)  // at co_await task
    | Resuming(task: nat, direct: bool)              // inside co.resume()

  datatype Event = Serial | TaskEnds | CallerReturns | FirstCallerContinues(task: nat)

  datatype Exec = Exec(
    isRun: bool,
    q: seq<Entry>,
    pump: Pump,
    owed: set<nat>,           // first callers whose start() frame has not yet returned to them
    nCalls: nat,
    started: seq<nat>,        // history: tasks started, tasks ended, callers continued
    ended: seq<nat>,
    continued: multiset<nat>)

  // ---------------------------------------------------------------- the steps

  /** The head of start(): take the front of the queue and await its task. */
  function Start(s: Exec, direct: bool): Exec
    requires s.q != []
  {
    s.(q := s.q[1..], pump := Running(s.q[0].task, s.q[0].waits, direct), started := s.started + [s.q[0].task])
  }

  /** The tail of start(): stop when the queue is empty, else hand the pump to a detached task. A direct
      frame then returns to the first caller, at once or when the detached one lets go. */
  function Tail(s: Exec, task: nat, direct: bool): Exec {
    if !s.isRun || s.q == [] then
      s.(isRun := false, pump := NoPump, continued := s.continued + if direct then multiset{task} else multiset{})
    else Start(s, false).(owed := s.owed + if direct then {task} else {})
  }

  /** One step; an event that is not possible at its turn changes nothing. */
  function Step(s: Exec, e: Event): Exec {
    match e
    case Serial =>
      var queued := s.(nCalls := s.nCalls + 1, q := s.q + [Entry(s.nCalls, s.isRun)]);
      if s.isRun then queued else Start(queued.(isRun := true), true)
    case TaskEnds =>
      if !s.pump.Running? then s
      else
        var over := s.(ended := s.ended + [s.pump.task]);
        if s.pump.waits then
          over.(continued := s.continued + multiset{s.pump.task}, pump := Resuming(s.pump.task, s.pump.direct))
        else Tail(over, s.pump.task, s.pump.direct)
    case CallerReturns => if !s.pump.Resuming? then s else Tail(s, s.pump.task, s.pump.direct)
    case FirstCallerContinues(t) =>
      if t !in s.owed then s else s.(owed := s.owed - {t}, continued := s.continued + multiset{t})
  }

  function Run(s: Exec, events: seq<Event>): Exec {
    if events == [] then s else Step(Run(s, events[..|events| - 1]), events[|events| - 1])
  }

  function NewExec(): Exec {
    Exec(false, [], NoPump, {}, 0, [], [], multiset{})
  }

  // ---------------------------------------------------------------- what every run keeps

  /** The started tasks are the first ones called, in that order; the queue is the rest; all started ones
      have ended but at most the last. */
  ghost predicate InOrder(s: Exec) {
    && (s.isRun <==> s.pump != NoPump) && (!s.isRun ==> s.q == [])
    && |s.started| + |s.q| == s.nCalls
    && (forall i :: 0 <= i < |s.started| ==> s.started[i] == i)
    && (forall i :: 0 <= i < |s.q| ==> s.q[i] == Entry(|s.started| + i, true))
    && s.ended <= s.started
    && match s.pump
       case NoPump => s.ended == s.started
       case Running(task, waits, direct) => |s.started| == |s.ended| + 1 && task == |s.ended| && waits == !direct
       case Resuming(task, direct) => s.ended == s.started && task + 1 == |s.ended| && !direct
  }

  /** The caller of a task that has ended has been continued once, or is still to be; no other has. */
  ghost predicate Served(s: Exec) {
    forall t: nat :: s.continued[t] + (if t in s.owed then 1 else 0) == if t < |s.ended| then 1 else 0
  }

  ghost predicate Good(s: Exec) {
    InOrder(s) && Served(s)
  }

  lemma StepKeeps(s: Exec, e: Event)
    requires Good(s)
    ensures Good(Step(s, e))
  {
    hide Served;
    assert InOrder(Step(s, e));
    StepServes(s, e);
  }

  lemma StepServes(s: Exec, e: Event)
    requires Good(s)
    ensures Served(Step(s, e))
  {
    var s' := Step(s, e);
    forall t: nat
      ensures s'.continued[t] + (if t in s'.owed then 1 else 0) == if t < |s'.ended| then 1 else 0
    {
      assert s.continued[t] + (if t in s.owed then 1 else 0) == if t < |s.ended| then 1 else 0;
    }
  }

  lemma {:induction false} RunKeeps(s: Exec, events: seq<Event>)
    requires Good(s)
    ensures Good(Run(s, events))
  {
    hide Good, Step;
    if events != [] {
      RunKeeps(s, events[..|events| - 1]);
      StepKeeps(Run(s, events[..|events| - 1]), events[|events| - 1]);
    }
  }

  /** Mutual exclusion and order at every point of every run: tasks start in the order of the calls, and
      a task starts only when all before it have ended. */
  lemma OneAtATimeInOrder(events: seq<Event>)
    ensures var s := Run(NewExec(), events);
            && |s.started| <= |s.ended| + 1 && s.ended <= s.started
            && (forall i :: 0 <= i < |s.started| ==> s.started[i] == i < s.nCalls)
  {
    NewIsGood();
    RunKeeps(NewExec(), events);
  }

  lemma NewIsGood()
    ensures Good(NewExec())
  {
  }

  /** No caller is continued twice, or before its own task has ended. */
  lemma ContinuedOnceAfterTask(events: seq<Event>, t: nat)
    ensures var s := Run(NewExec(), events);
            s.continued[t] <= 1 && (s.continued[t] == 1 ==> t in s.ended)
  {
    NewIsGood();
    RunKeeps(NewExec(), events);
    var s := Run(NewExec(), events);
    assert t < |s.ended| ==> s.ended[t] == s.started[t] == t;
  }

  predicate No(events: seq<Event>, e: Event) {
    forall i :: 0 <= i < |events| ==> events[i] != e
  }

  /** When the task of a suspended caller ends, its caller goes on at once, and no task starts before that caller
      has given control back. */
  lemma {:induction false} CallerGoesFirst(s: Exec, events: seq<Event>)
    requires Good(s) && s.pump.Running? && s.pump.waits && No(events, CallerReturns)
    ensures var t := Run(Step(s, TaskEnds), events);
            && t.started == s.started && t.ended == s.ended + [s.pump.task] && t.pump.Resuming?
            && t.continued[s.pump.task] == s.continued[s.pump.task] + 1 == 1
  {
    if events != [] {
      CallerGoesFirst(s, events[..|events| - 1]);
      RunKeeps(Step(s, TaskEnds), events[..|events| - 1]) by {
        StepKeeps(s, TaskEnds);
      }
    }
  }

  /** When the first caller's own task ends with others waiting, the next one starts at once, and the first
      caller goes on only when the frames between them have returned. */
  lemma {:induction false} FirstCallerGoesLater(s: Exec, events: seq<Event>)
    requires Good(s) && s.pump.Running? && s.pump.direct && s.q != []
    requires No(events, FirstCallerContinues(s.pump.task))
    ensures var u := Step(s, TaskEnds);
            && u.started == s.started + [s.q[0].task] && u.pump == Running(s.q[0].task, true, false)
            && s.pump.task in Run(u, events).owed && Run(u, events).continued[s.pump.task] == 0
  {
    StepKeeps(s, TaskEnds);
    if events != [] {
      FirstCallerGoesLater(s, events[..|events| - 1]);
      RunKeeps(Step(s, TaskEnds), events[..|events| - 1]);
      StepKeeps(Run(Step(s, TaskEnds), events[..|events| - 1]), events[|events| - 1]);
    }
  }

  // ---------------------------------------------------------------- every caller is continued

  function Calls(events: seq<Event>): nat {
    if events == [] then 0
    else Calls(events[..|events| - 1]) + (if events[|events| - 1].Serial? then 1 else 0)
  }

  /** What is left to do: four steps at most for a queued task, what remains of the running one, and one
      for each first caller on its way back. */
  function Left(s: Exec): nat {
    4 * |s.q| + (match s.pump case NoPump => 0 case Running(_, _, _) => 3 case Resuming(_, _) => 2) + |s.owed|
  }

  lemma StepLowers(s: Exec, e: Event)
    requires Good(s)
    ensures if e.Serial? then Step(s, e).nCalls == s.nCalls + 1 && Left(Step(s, e)) <= Left(s) + 4
            else Step(s, e).nCalls == s.nCalls && (Step(s, e) == s || Left(Step(s, e)) < Left(s))
  {
    hide Served;
    if e.FirstCallerContinues? && e.task in s.owed {
      assert |s.owed - {e.task}| == |s.owed| - 1;
    } else if s.pump.Running? || s.pump.Resuming? {
      assert |s.owed + {s.pump.task}| <= |s.owed| + 1;
    }
  }

  /** How many events of a run had an effect. */
  function Effective(s: Exec, events: seq<Event>): nat {
    if events == [] then 0
    else
      var before := events[..|events| - 1];
      Effective(s, before) + (if Step(Run(s, before), events[|events| - 1]) == Run(s, before) then 0 else 1)
  }

  /** Every run is bounded: all its effective steps together are at most five for each call. */
  lemma {:induction false} EveryRunIsBounded(s: Exec, events: seq<Event>)
    requires Good(s)
    ensures Run(s, events).nCalls == s.nCalls + Calls(events)
    ensures Effective(s, events) + Left(Run(s, events)) <= Left(s) + 5 * Calls(events)
  {
    hide Good, Step, Left;
    if events != [] {
      var before := events[..|events| - 1];
      EveryRunIsBounded(s, before);
      RunKeeps(s, before);
      StepLowers(Run(s, before), events[|events| - 1]);
    }
  }

  /** No task ends and no caller comes back any more. */
  ghost predicate Quiet(s: Exec) {
    forall e: Event :: !e.Serial? ==> Step(s, e) == s
  }

  /** A run can stop only with every task run and every caller continued, exactly once. */
  lemma QuietMeansServed(s: Exec)
    requires Good(s)
    ensures Quiet(s) <==> s.pump == NoPump && s.owed == {}
    ensures Quiet(s) ==> !s.isRun && s.q == [] && |s.ended| == s.nCalls
    ensures Quiet(s) ==> forall t: nat :: s.continued[t] == if t < s.nCalls then 1 else 0
  {
    if Quiet(s) {
      assert Step(s, TaskEnds) == s && Step(s, CallerReturns) == s;
      if s.owed != {} {
        var t :| t in s.owed;
        assert Step(s, FirstCallerContinues(t)) == s;
        assert t !in s.owed - {t};
      }
      NotRunning(s);
    }
  }

  lemma NotRunning(s: Exec)
    requires Good(s) && Step(s, TaskEnds) == s && Step(s, CallerReturns) == s
    ensures s.pump == NoPump
  {
    StepMoves(s, TaskEnds);
    StepMoves(s, CallerReturns);
  }

  lemma StepMoves(s: Exec, e: Event)
    requires Good(s)
    ensures e.TaskEnds? && s.pump.Running? ==> Step(s, e) != s
    ensures e.CallerReturns? && s.pump.Resuming? ==> Step(s, e) != s
  {
    if e.TaskEnds? && s.pump.Running? {
      assert |Step(s, e).ended| == |s.ended| + 1;
    }
  }

  /** From every point of every run the executor gets there without another call, and every caller of the
      run has then been continued exactly once. */
  lemma {:induction false} EveryCallerIsContinued(s: Exec) returns (rest: seq<Event>)
    requires Good(s)
    ensures Calls(rest) == 0
    ensures forall t: nat :: t < s.nCalls ==> Run(s, rest).continued[t] == 1
    ensures Quiet(Run(s, rest)) && Run(s, rest).nCalls == s.nCalls
    decreases Left(s)
  {
    QuietMeansServed(s);
    if Quiet(s) {
      rest := [];
    } else {
      var e: Event :| !e.Serial? && Step(s, e) != s;
      StepLowers(s, e);
      StepKeeps(s, e);
      hide Good, Step, Quiet;
      var more := EveryCallerIsContinued(Step(s, e));
      rest := [e] + more;
      RunJoins(s, e, more);
    }
  }

  lemma {:induction false} RunJoins(s: Exec, e: Event, more: seq<Event>)
    ensures Run(s, [e] + more) == Run(Step(s, e), more)
    ensures Calls([e] + more) == Calls(more) + if e.Serial? then 1 else 0
  {
    hide Step;
    if more == [] {
      assert [e] + more == [e] && [e][..0] == [];
      assert Run(s, [e][..0]) == s && Calls([e][..0]) == 0;
    } else {
      RunJoins(s, e, more[..|more| - 1]);
      assert ([e] + more)[..|more|] == [e] + more[..|more| - 1];
    }
  }

  // ---------------------------------------------------------------- the executor object

  class SerialExecutor {
    var isRun: bool
    var q: seq<Entry>
    var pump: Pump
    var owed: set<nat>
    var nCalls: nat
    ghost var started: seq<nat>
    ghost var ended: seq<nat>
    ghost var continued: multiset<nat>

    ghost function View(): Exec
      reads this
    {
      Exec(isRun, q, pump, owed, nCalls, started, ended, continued)
    }

    constructor ()
      ensures View() == NewExec()
    {
      isRun, q, pump, owed, nCalls := false, [], NoPump, {}, 0;
      started, ended, continued := [], [], multiset{};
    }

    /** serial(t): queue the task; the first caller goes on and starts the pump. */
    method Serial()
      modifies this
      ensures View() == Step(old(View()), Event.Serial)
    {
      var t := nCalls;
      nCalls := nCalls + 1;
      if !isRun {
        q := q + [Entry(t, false)];
      } else {
        q := q + [Entry(t, true)];
        return;
      }
      isRun := true;
      BeginFront(true);
    }

    method BeginFront(direct: bool)
      requires q != []
      modifies `q, `pump, `started
      ensures View() == Start(old(View()), direct)
    {
      var e := q[0];
      q := q[1..];
      pump := Running(e.task, e.waits, direct);
      started := started + [e.task];
    }

    /** The running task completes: its caller is resumed, if it waits. */
    method TaskEnds()
      requires pump.Running?
      modifies this
      ensures View() == Step(old(View()), Event.TaskEnds)
    {
      var task, direct := pump.task, pump.direct;
      ended := ended + [task];
      if pump.waits {
        continued := continued + multiset{task};
        pump := Resuming(task, direct);
      } else {
        GoOn(task, direct);
      }
    }

    /** The resumed caller has suspended again or finished, and co.resume() returns. */
    method CallerReturns()
      requires pump.Resuming?
      modifies this
      ensures View() == Step(old(View()), Event.CallerReturns)
      ensures old(Good(View()) && q != []) ==> pump.Running? && started == old(started) + [old(q)[0].task]
      ensures old(Good(View()) && q == []) ==> !isRun && pump == NoPump
    {
      GoOn(pump.task, pump.direct);
    }

    method GoOn(task: nat, direct: bool)
      modifies this
      ensures View() == Tail(old(View()), task, direct)
    {
      if !isRun || q == [] {
        isRun := false;
        pump := NoPump;
        if direct {
          continued := continued + multiset{task};
        }
      } else {
        BeginFront(false);
        if direct {
          owed := owed + {task};
        }
      }
    }

    /** Control comes back to a first caller whose start() frame has finished. */
    method FirstCallerContinues(task: nat)
      requires task in owed
      modifies `owed, `continued
      ensures View() == Step(old(View()), Event.FirstCallerContinues(task))
    {
      owed := owed - {task};
      continued := continued + multiset{task};
    }

    /** Any run: events that are not possible at their turn are skipped. */
    method Drive(events: seq<Event>)
      requires Good(View())
      modifies this
      ensures View() == Run(old(View()), events) && Good(View())
    {
      hide Good, Step;
      for i := 0 to |events|
        invariant View() == Run(old(View()), events[..i])
      {
        assert events[..i + 1][..i] == events[..i];
        Dispatch(events[i]);
      }
      assert events[..|events|] == events;
      RunKeeps(old(View()), events);
    }

    method Dispatch(e: Event)
      modifies this
      ensures View() == Step(old(View()), e)
    {
      match e
      case Serial => Serial();
      case TaskEnds =>
        if pump.Running? {
          TaskEnds();
        }
      case CallerReturns =>
        if pump.Resuming? {
          CallerReturns();
        }
      case FirstCallerContinues(task) =>
        if task in owed {
          FirstCallerContinues(task);
        }
    }
  }
}
