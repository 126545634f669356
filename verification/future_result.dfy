/** The result cell that pool tasks resolve, the bodies of addTask and thenTry, and what a chain of
    continuations computes. The wait for a result is a precondition here: the thread pool's module
    shows when it ends. */
module FutureResults {
  import opened Options

  /** What a Try holds. */
  datatype Outcome<+V, +E> = Val(val: V) | Exn(exn: E)

  /** How a user's function ends. ReturnsErr: it returns a Try that holds an exception. */
  datatype Answer<+V, +E> = Returns(val: V) | ReturnsErr(exn: E) | Throws(exn: E)

  class ResultCell<V, E> {
    var data: Option<V>
    var exception: Option<E>
    var resed: bool

    constructor ()
      ensures data.None? && exception.None? && !resed
    {
      data, exception, resed := None, None, false;
    }

    /** Ready, and with something to hand out. */
    ghost predicate Settled()
      reads this
    {
      resed && (exception.Some? || data.Some?)
    }

    ghost function Result(): Outcome<V, E>
      requires Settled()
      reads this
    {
      if exception.Some? then Exn(exception.value) else Val(data.value)
    }

    ghost predicate Untouched()
      reads this
    {
      !resed && data.None? && exception.None?
    }

    method SetData(value: V)
      modifies this
      ensures data == Some(value) && resed && exception == old(exception)
    {
      data := Some(value);
      resed := true;
    }

    method UnhandledException(e: E)
      modifies this
      ensures exception == Some(e) && resed && data == old(data)
    {
      exception := Some(e);
      resed := true;
    }

    /** wait() followed by data(): the value is moved out, an exception stays. */
    method Get() returns (r: Outcome<V, E>)
      requires Settled()
      modifies this
      ensures r == old(Result())
      ensures exception == old(exception) && resed
      ensures data == if r.Val? then None else old(data)
    {
      if exception.Some? {
        return Exn(exception.value);
      }
      r := Val(data.value);
      data := None;
    }

    /** The body of a task whose function returns a value: ready on every path, with what it did. */
    method RunTask(f: () -> Answer<V, E>)
      requires Untouched() && !f().ReturnsErr?
      modifies this
      ensures Settled() && Result() == Meant(f())
    {
      match f()
      case Returns(v) => SetData(v);
      case Throws(e) => UnhandledException(e);
    }

    /** The body of a task whose function returns void: it is ready before the function runs. A reader
        that comes in between finds the result good, which is right exactly if the function does not
        throw; a reader that comes later finds an exception, if there is one. */
    method RunVoidTask(f: () -> Answer<V, E>, unit: V, readerBetween: bool) returns (seen: Option<Outcome<V, E>>)
      requires Untouched() && (f() == Returns(unit) || f().Throws?)
      modifies this
      ensures resed && (seen.Some? <==> readerBetween)
      ensures readerBetween ==> (seen.value == Meant(f()) <==> !f().Throws?)
      ensures readerBetween ==> seen.value.Val? && exception == if f().Throws? then Some(f().exn) else None
      ensures !readerBetween ==> Settled() && Result() == Meant(f())
    {
      SetData(unit);
      seen := None;
      if readerBetween {
        var r := Get();
        seen := Some(r);
      }
      match f() {
        case Returns(_) =>
        case Throws(e) => UnhandledException(e);
      }
    }

    /** The body of a continuation on `pred` that resolves this cell. `defined` is false where the code
        rethrows a null exception: undefined behaviour, with the cell not ready. */
    method RunThenTry(pred: ResultCell<V, E>, f: Outcome<V, E> -> Answer<V, E>) returns (defined: bool)
      requires pred != this && pred.Settled() && Untouched()
      modifies this, pred
      ensures pred.exception == old(pred.exception) && pred.resed
      ensures pred.data == if old(pred.Result()).Val? then None else old(pred.data)
      ensures defined <==> Stage(f, old(pred.Result())).Some?
      ensures defined ==> Settled() && Result() == Stage(f, old(pred.Result())).value
      ensures !defined ==> Untouched()
    {
      var arg := pred.Get();
      match f(arg)
      case Returns(v) =>
        SetData(v);
        return true;
      case Throws(e) =>
        UnhandledException(e);
        return true;
      case ReturnsErr(_) =>
        // rethrow_exception(self._res->getException()), caught below it
        if pred.exception.None? {
          return false;
        }
        UnhandledException(pred.exception.value);
        return true;
    }
  }

  /** A result as the documentation has it: one layer of Try is taken off. */
  function Meant<V, E>(a: Answer<V, E>): Outcome<V, E> {
    match a
    case Returns(v) => Val(v)
    case ReturnsErr(e) => Exn(e)
    case Throws(e) => Exn(e)
  }

  /** What one continuation leaves in its cell; None where it leaves nothing. */
  function Stage<V, E>(f: Outcome<V, E> -> Answer<V, E>, arg: Outcome<V, E>): Option<Outcome<V, E>> {
    var answer := f(arg);
    if answer.ReturnsErr? then (if arg.Exn? then Some(arg) else None) else Some(Meant(answer))
  }

  function ChainResult<V, E>(fs: seq<Outcome<V, E> -> Answer<V, E>>, first: Outcome<V, E>): Option<Outcome<V, E>> {
    if fs == [] then Some(first)
    else
      var before := ChainResult(fs[..|fs| - 1], first);
      if before.None? then None else Stage(fs[|fs| - 1], before.value)
  }

  function MeantResult<V, E>(fs: seq<Outcome<V, E> -> Answer<V, E>>, first: Outcome<V, E>): Outcome<V, E> {
    if fs == [] then first else Meant(fs[|fs| - 1](MeantResult(fs[..|fs| - 1], first)))
  }

  /** A function whose error Try, if it returns one, is just the error it was given. */
  predicate PassesErrors<V, E(==)>(f: Outcome<V, E> -> Answer<V, E>, arg: Outcome<V, E>) {
    f(arg).ReturnsErr? ==> arg == Exn(f(arg).exn)
  }

  /** A continuation gives what is meant exactly when it does not answer with an error Try of its own;
      and it leaves its result for ever unready exactly when it does so without a failed predecessor. */
  lemma StageIsMeant<V, E>(f: Outcome<V, E> -> Answer<V, E>, arg: Outcome<V, E>)
    ensures Stage(f, arg) == Some(Meant(f(arg))) <==> PassesErrors(f, arg)
    ensures Stage(f, arg).None? <==> f(arg).ReturnsErr? && arg.Val?
  {
  }

  /** The result of the chain, and of every part of it from the start, is what is meant. */
  ghost predicate AllMeant<V, E>(fs: seq<Outcome<V, E> -> Answer<V, E>>, first: Outcome<V, E>) {
    && ChainResult(fs, first) == Some(MeantResult(fs, first))
    && (fs != [] ==> AllMeant(fs[..|fs| - 1], first))
  }

  /** Every function, on what it is meant to be given, passes errors on. */
  ghost predicate AllPassErrors<V, E>(fs: seq<Outcome<V, E> -> Answer<V, E>>, first: Outcome<V, E>) {
    fs != [] ==>
      && PassesErrors(fs[|fs| - 1], MeantResult(fs[..|fs| - 1], first))
      && AllPassErrors(fs[..|fs| - 1], first)
  }

  /** Chains of any length: everything along the chain is as meant exactly when every function passes
      errors on. */
  lemma {:induction false} ChainIsMeant<V, E>(fs: seq<Outcome<V, E> -> Answer<V, E>>, first: Outcome<V, E>)
    ensures AllMeant(fs, first) <==> AllPassErrors(fs, first)
  {
    if fs != [] {
      var before := fs[..|fs| - 1];
      ChainIsMeant(before, first);
      StageIsMeant(fs[|fs| - 1], MeantResult(before, first));
    }
  }

  /** A function that turns a good value into an error Try: the chain stops with nothing stored. */
  lemma LostError()
    ensures var f := (arg: Outcome<int, int>) => ReturnsErr(7);
            Stage(f, Val(1)) == None && Stage(f, Exn(3)) == Some(Exn(3)) != Some(Meant(f(Exn(3))))
  {
  }

  /** Where a chain comes to a halt: the first continuation, from `from` on, that leaves no result; its
      successor waits for ever. |fs| if there is none. */
  ghost predicate HaltsAt<V, E>(fs: seq<Outcome<V, E> -> Answer<V, E>>, first: Outcome<V, E>, n: nat) {
    && n <= |fs|
    && (forall k :: 0 <= k <= n ==> ChainResult(fs[..k], first).Some?)
    && (n < |fs| ==> Stage(fs[n], ChainResult(fs[..n], first).value).None?)
  }

  lemma {:induction false} HaltIsFinal<V, E>(fs: seq<Outcome<V, E> -> Answer<V, E>>, first: Outcome<V, E>,
                                               n: nat, k: nat)
    requires HaltsAt(fs, first, n) && n < k <= |fs|
    ensures ChainResult(fs[..k], first).None?
  {
    assert fs[..k][..k - 1] == fs[..k - 1];
    if k > n + 1 {
      HaltIsFinal(fs, first, n, k - 1);
    }
  }

  lemma ChainStart<V, E>(fs: seq<Outcome<V, E> -> Answer<V, E>>, first: Outcome<V, E>)
    ensures ChainResult(fs[..0], first) == Some(first)
  {
  }

  lemma ChainNext<V, E>(fs: seq<Outcome<V, E> -> Answer<V, E>>, first: Outcome<V, E>, n: nat)
    requires n < |fs| && ChainResult(fs[..n], first).Some?
    ensures ChainResult(fs[..n + 1], first) == Stage(fs[n], ChainResult(fs[..n], first).value)
  {
    assert fs[..n + 1][..n] == fs[..n];
  }

  /** A chain of thenTry calls: every cell is made when its continuation is attached, and a continuation
      runs once the cell before it is ready. Cell k gets ready exactly if the chain up to k has a result;
      the first one that does not stays untouched, and with it all behind it, however long one waits. */
  method RunChain<V, E>(first: ResultCell<V, E>, fs: seq<Outcome<V, E> -> Answer<V, E>>)
    returns (cells: seq<ResultCell<V, E>>, n: nat)
    requires first.Settled()
    modifies first
    ensures |cells| == |fs| + 1 && cells[0] == first && HaltsAt(fs, old(first.Result()), n)
    ensures forall k :: 0 <= k <= |fs| ==> (cells[k].resed <==> ChainResult(fs[..k], old(first.Result())).Some?)
    ensures n == |fs| ==> cells[n].Settled() && Some(cells[n].Result()) == ChainResult(fs, old(first.Result()))
    ensures forall k :: n < k <= |fs| ==> cells[k].Untouched()
  {
    hide ChainResult, Stage;
    ghost var start := first.Result();
    ChainStart(fs, start);
    cells := AttachAll(first, |fs|);
    n := 0;
    while n < |fs|
      invariant n <= |fs| && |cells| == |fs| + 1
      invariant cells[0] == first && forall k :: 0 < k <= |fs| ==> fresh(cells[k])
      invariant forall j, k :: 0 <= j < k <= |fs| ==> cells[j] != cells[k]
      invariant forall k :: 0 <= k <= n ==> ChainResult(fs[..k], start).Some? && cells[k].resed
      invariant cells[n].Settled() && cells[n].Result() == ChainResult(fs[..n], start).value
      invariant forall k :: n < k <= |fs| ==> cells[k].Untouched()
    {
      ChainNext(fs, start, n);
      var defined := cells[n + 1].RunThenTry(cells[n], fs[n]);
      if !defined {
        assert HaltsAt(fs, start, n);
        break;
      }
      n := n + 1;
    }
    assert fs[..|fs|] == fs;
    forall k | n < k <= |fs| ensures ChainResult(fs[..k], start).None? {
      HaltIsFinal(fs, start, n, k);
    }
  }

  method AttachAll<V, E>(first: ResultCell<V, E>, n: nat) returns (cells: seq<ResultCell<V, E>>)
    ensures |cells| == n + 1 && cells[0] == first
    ensures forall k :: 0 < k <= n ==> fresh(cells[k]) && cells[k].Untouched()
    ensures forall j, k :: 0 <= j < k <= n ==> cells[j] != cells[k]
  {
    cells := [first];
    for i := 0 to n
      invariant |cells| == i + 1 && cells[0] == first
      invariant forall k :: 0 < k <= i ==> fresh(cells[k]) && cells[k].Untouched()
      invariant forall j, k :: 0 <= j < k <= i ==> cells[j] != cells[k]
    {
      var ans := new ResultCell<V, E>();
      cells := cells + [ans];
    }
  }
}
