/** The two joins over wrapped child coroutines. A child either completes during its first resume
    or suspends and completes at some later resume; which, in what order and with what outcome is
    arbitrary. Children do not resume one another. */
module Joins {
  import opened Options
  datatype Outcome = Value(v: int) | Exception(e: int)

  datatype Child = NotStarted | Suspended | Finished | Destroyed

  /** What the joining coroutine does once resumed. */
  datatype Answer = Returned(index: nat, v: int) | Threw(e: int)

  datatype Completion = Completion(child: nat, outcome: Outcome)

  function AnswerOf(i: nat, o: Outcome): Answer {
    match o
    case Value(v) => Returned(i, v)
    case Exception(e) => Threw(e)
  }

  /** The first child that completes during its first resume; |first| if there is none. */
  function FirstSync(first: seq<Option<Outcome>>): (k: nat)
    ensures k <= |first| && forall i :: 0 <= i < k ==> first[i].None?
    ensures k < |first| ==> first[k].Some?
  {
    if first == [] || first[0].Some? then 0
    else
      var k := FirstSync(first[1..]);
      assert forall i :: 0 < i < k + 1 ==> first[i] == first[1..][i - 1];
      k + 1
  }

  // ---------------------------------------------------------------- whenAny

  /** The answer of whenAny: that of the first child to complete at all, where completions during
      start-up come first, in the order of the children. */
  function AnySpec(first: seq<Option<Outcome>>, later: seq<Completion>): Option<Answer> {
    var k := FirstSync(first);
    if k < |first| then Some(AnswerOf(k, first[k].value)) else FirstLater(later, |first|)
  }

  function FirstLater(later: seq<Completion>, n: nat): Option<Answer> {
    if later == [] then None
    else if later[0].child < n then Some(AnswerOf(later[0].child, later[0].outcome))
    else FirstLater(later[1..], n)
  }

  /** The completions in the order of time: those of start-up, then the later ones of children there are. */
  ghost predicate CompletesFirst(first: seq<Option<Outcome>>, later: seq<Completion>, i: nat, o: Outcome) {
    if exists k :: 0 <= k < |first| && first[k].Some? then
      i < |first| && first[i] == Some(o) && forall k :: 0 <= k < i ==> first[k].None?
    else
      exists j :: 0 <= j < |later| && later[j] == Completion(i, o) && i < |first|
                  && forall k :: 0 <= k < j ==> later[k].child >= |first|
  }

  lemma {:induction false} FirstLaterMeans(later: seq<Completion>, n: nat, j: nat)
    requires j <= |later| && forall k :: 0 <= k < j ==> later[k].child >= n
    requires j < |later| ==> later[j].child < n
    ensures FirstLater(later, n) == if j == |later| then None
                                    else Some(match later[j].outcome
                                              case Value(v) => Returned(later[j].child, v)
                                              case Exception(e) => Threw(e))
  {
    if j > 0 {
      FirstLaterMeans(later[1..], n, j - 1);
    }
  }

  /** So the parent goes on with the value of the first child to complete, and its index, or it throws that
      child's exception; and it does not go on exactly if no child completes. */
  lemma AnySpecMeans(first: seq<Option<Outcome>>, later: seq<Completion>, i: nat, o: Outcome)
    ensures CompletesFirst(first, later, i, o) ==>
              AnySpec(first, later) == Some(match o case Value(v) => Returned(i, v) case Exception(e) => Threw(e))
    ensures AnySpec(first, later).None? <==>
            && (forall k :: 0 <= k < |first| ==> first[k].None?)
            && forall k :: 0 <= k < |later| ==> later[k].child >= |first|
  {
    var k := FirstSync(first);
    if k == |first| {
      var j := NextOf(later, |first|);
      FirstLaterMeans(later, |first|, j);
    }
  }

  lemma {:induction false} NextOf(later: seq<Completion>, n: nat) returns (j: nat)
    ensures j <= |later| && (forall k :: 0 <= k < j ==> later[k].child >= n)
    ensures j < |later| ==> later[j].child < n
  {
    j := 0;
    while j < |later| && later[j].child >= n
      invariant j <= |later| && forall k :: 0 <= k < j ==> later[k].child >= n
    {
      j := j + 1;
    }
  }

  class WhenAny {
    const cos: array<Child>
    // WhenAnyCtlBlock and the result variant
    var isBrack: bool
    var isInit: bool
    var exception: Option<int>
    var res: Option<Completion>
    var answer: Option<Answer>
    var resumes: nat

    /** No child has completed. */
    ghost predicate Fresh()
      reads this
    {
      !isBrack && exception.None? && res.None? && answer.None? && resumes == 0
    }

    constructor (n: nat)
      requires n > 0
      ensures fresh(cos) && cos.Length == n && Fresh() && !isInit
      ensures forall i :: 0 <= i < n ==> cos[i] == NotStarted
    {
      cos := new Child[n](_ => NotStarted);
      isBrack, isInit, exception, res, answer, resumes := false, false, None, None, None, 0;
    }

    /** The end of anyStart: record the outcome, then transfer to the parent, or during start-up to
        the no-op coroutine. */
    method Finish(i: nat, o: Outcome)
      requires Fresh() && i < cos.Length
      modifies this, cos
      ensures isInit == old(isInit)
      ensures isInit ==> resumes == 1 && answer == Some(AnswerOf(i, o)) && AllDestroyed()
      ensures !isInit ==> isBrack && resumes == 0 && answer.None? && cos[..] == old(cos[..])[i := Finished]
      ensures !isInit ==> if o.Value? then res == Some(Completion(i, o)) && exception.None?
                                      else exception == Some(o.e)
    {
      match o {
        case Value(v) => res := Some(Completion(i, o));
        case Exception(e) => exception := Some(e);
      }
      cos[i] := Finished;
      if isInit {
        ResumeParent();
      } else {
        isBrack := true;
      }
    }

    ghost predicate AllDestroyed()
      reads this, cos
    {
      forall i :: 0 <= i < cos.Length ==> cos[i] == Destroyed
    }

    /** The parent goes on after its co_await: it rethrows or returns, and its end destroys every
        child frame, suspended or not. */
    method ResumeParent()
      requires exception.Some? || (res.Some? && res.value.outcome.Value?)
      modifies this`answer, this`resumes, cos
      ensures resumes == old(resumes) + 1 && AllDestroyed()
      ensures answer == Some(if exception.Some? then Threw(exception.value)
                             else Returned(res.value.child, res.value.outcome.v))
    {
      resumes := resumes + 1;
      if exception.Some? {
        answer := Some(Threw(exception.value));
      } else {
        answer := Some(Returned(res.value.child, res.value.outcome.v));
      }
      forall i | 0 <= i < cos.Length {
        cos[i] := Destroyed;
      }
    }

    /** WhenAnyAwaiter::await_suspend. started counts the children that were resumed. */
    method AwaitSuspend(first: seq<Option<Outcome>>) returns (started: nat)
      requires |first| == cos.Length > 0 && Fresh() && !isInit
      requires forall i :: 0 <= i < cos.Length ==> cos[i] == NotStarted
      modifies this, cos
      ensures FirstSync(first) < |first| ==>
                && started == FirstSync(first) + 1
                && resumes == 1 && answer == Some(AnswerOf(FirstSync(first), first[FirstSync(first)].value))
                && AllDestroyed()
      ensures FirstSync(first) == |first| ==>
                && started == |first| && Fresh() && isInit
                && forall i :: 0 <= i < cos.Length ==> cos[i] == Suspended
    {
      var n := cos.Length;
      started := 0;
      while started < n - 1
        invariant started <= n - 1 && started <= FirstSync(first)
        invariant Fresh() && !isInit
        invariant forall i :: 0 <= i < started ==> cos[i] == Suspended
        invariant forall i :: started <= i < n ==> cos[i] == NotStarted
      {
        var i := started;
        started := started + 1;
        if first[i].Some? {
          Finish(i, first[i].value);
        } else {
          cos[i] := Suspended;
        }
        if isBrack {
          ResumeParent();
          return;
        }
      }
      isInit := true;
      started := n;
      if first[n - 1].Some? {
        Finish(n - 1, first[n - 1].value);
      } else {
        cos[n - 1] := Suspended;
      }
    }

    /** One whole run: start-up, then completions of children that are still suspended; the others
        cannot happen any more. The parent is continued exactly once, as soon as the first child
        completes, with that child's answer. */
    method Run(first: seq<Option<Outcome>>, later: seq<Completion>)
      requires |first| == cos.Length > 0 && Fresh() && !isInit
      requires forall i :: 0 <= i < cos.Length ==> cos[i] == NotStarted
      modifies this, cos
      ensures answer == AnySpec(first, later)
      ensures resumes == if AnySpec(first, later).Some? then 1 else 0
      ensures answer.Some? ==> AllDestroyed()
    {
      var started := AwaitSuspend(first);
      for j := 0 to |later|
        invariant (AnySpec(first, later).Some? && answer == AnySpec(first, later) && resumes == 1 && AllDestroyed())
                  || (Fresh() && isInit && AnySpec(first, later) == FirstLater(later[j..], cos.Length)
                      && forall i :: 0 <= i < cos.Length ==> cos[i] == Suspended)
      {
        var c := later[j];
        if c.child < cos.Length && cos[c.child] == Suspended {
          Finish(c.child, c.outcome);
        }
      }
    }
  }

  // ---------------------------------------------------------------- whenAll

  /** The outcome with which child i completes in a run, if it does. */
  function OutcomeOf(i: nat, first: seq<Option<Outcome>>, later: seq<Completion>): Option<Outcome> {
    if i < |first| && first[i].Some? then first[i]
    else if later == [] then None
    else if later[0].child == i then Some(later[0].outcome)
    else OutcomeOf(i, first, later[1..])
  }

  ghost function Unfinished(c: seq<Child>): nat {
    if c == [] then 0
    else Unfinished(c[..|c| - 1]) + (if c[|c| - 1] == Finished then 0 else 1)
  }

  lemma {:induction false} UnfinishedUpdate(c: seq<Child>, i: nat, to: Child)
    requires i < |c| && c[i] != Finished
    ensures Unfinished(c[i := to]) == if to == Finished then Unfinished(c) - 1 else Unfinished(c)
    ensures Unfinished(c) > 0
  {
    var n := |c| - 1;
    if i < n {
      UnfinishedUpdate(c[..n], i, to);
      assert c[i := to][..n] == c[..n][i := to];
    } else {
      assert c[i := to][..n] == c[..n];
    }
  }

  lemma {:induction false} UnfinishedZero(c: seq<Child>)
    ensures Unfinished(c) == 0 <==> forall i :: 0 <= i < |c| ==> c[i] == Finished
    ensures (forall i :: 0 <= i < |c| ==> c[i] != Finished) ==> Unfinished(c) == |c|
  {
    if c != [] {
      UnfinishedZero(c[..|c| - 1]);
    }
  }

  class WhenAll {
    const cos: array<Child>
    const slots: array<Option<Outcome>>
    var cnt: nat
    var resumes: nat
    var answer: seq<Option<Outcome>>

    /** cnt is the number of unfinished children, a slot is filled when its child has finished, and
        the parent has been resumed exactly if none is left. */
    ghost predicate Valid()
      reads this, cos, slots
    {
      && cos.Length == slots.Length > 0
      && cnt == Unfinished(cos[..])
      && (forall i :: 0 <= i < cos.Length ==> (slots[i].Some? <==> cos[i] == Finished))
      && resumes == (if cnt == 0 then 1 else 0)
      && (cnt == 0 ==> answer == slots[..])
    }

    constructor (n: nat)
      requires n > 0
      ensures Valid() && fresh(cos) && fresh(slots) && cos.Length == n
      ensures forall i :: 0 <= i < n ==> cos[i] == NotStarted
    {
      cos := new Child[n](_ => NotStarted);
      slots := new Option<Outcome>[n](_ => None);
      cnt, resumes, answer := n, 0, [];
      new;
      UnfinishedZero(cos[..]);
    }

    /** The end of allStrat: store the outcome, count down, transfer to the parent on the last. */
    method Finish(i: nat, o: Outcome)
      requires Valid() && i < cos.Length && cos[i] != Finished
      modifies this, cos, slots
      ensures Valid() && cnt == old(cnt) - 1
      ensures cos[..] == old(cos[..])[i := Finished] && slots[..] == old(slots[..])[i := Some(o)]
    {
      UnfinishedUpdate(cos[..], i, Finished);
      ghost var was := cos[..];
      slots[i] := Some(o);
      cos[i] := Finished;
      assert cos[..] == was[i := Finished];
      cnt := cnt - 1;
      if cnt == 0 {
        resumes := resumes + 1;
        answer := slots[..];
      }
    }

    /** WhenAllAwaiter::await_suspend: every child is started, whatever the others do. */
    method AwaitSuspend(first: seq<Option<Outcome>>)
      requires Valid() && |first| == cos.Length && forall i :: 0 <= i < cos.Length ==> cos[i] == NotStarted
      modifies this, cos, slots
      ensures Valid() && slots[..] == first
      ensures forall i :: 0 <= i < cos.Length ==> cos[i] == if first[i].Some? then Finished else Suspended
    {
      for i := 0 to cos.Length
        invariant Valid()
        invariant forall k :: i <= k < cos.Length ==> cos[k] == NotStarted
        invariant forall k :: 0 <= k < i ==> slots[k] == first[k]
        invariant forall k :: 0 <= k < i ==> cos[k] == if first[k].Some? then Finished else Suspended
      {
        if first[i].Some? {
          Finish(i, first[i].value);
        } else {
          UnfinishedUpdate(cos[..], i, Suspended);
          ghost var was := cos[..];
          cos[i] := Suspended;
          assert cos[..] == was[i := Suspended];
        }
      }
    }

    /** One whole run. Slot i ends up with the outcome of child i; the parent is continued exactly
        once if every child completes, and then finds all outcomes in place; else not at all. */
    method Run(first: seq<Option<Outcome>>, later: seq<Completion>)
      requires Valid() && |first| == cos.Length && forall i :: 0 <= i < cos.Length ==> cos[i] == NotStarted
      modifies this, cos, slots
      ensures Valid()
      ensures forall i: nat :: i < |first| ==> slots[i] == OutcomeOf(i, first, later)
      ensures resumes == if forall i: nat :: i < |first| ==> OutcomeOf(i, first, later).Some? then 1 else 0
      ensures resumes == 1 ==> |answer| == |first|
      ensures resumes == 1 ==> forall i: nat :: i < |first| ==> answer[i] == OutcomeOf(i, first, later)
    {
      AwaitSuspend(first);
      for j := 0 to |later|
        invariant Valid()
        invariant forall i: nat :: i < |first| ==> cos[i] == Suspended || cos[i] == Finished
        invariant forall i: nat :: i < |first| ==>
                    OutcomeOf(i, first, later) == if slots[i].Some? then slots[i] else OutcomeOf(i, first, later[j..])
        invariant forall i: nat :: i < |first| && first[i].Some? ==> slots[i].Some?
      {
        var c := later[j];
        if c.child < cos.Length && cos[c.child] == Suspended {
          Finish(c.child, c.outcome);
        }
      }
      UnfinishedZero(cos[..]);
    }
  }
}
