/**
 How a routed request is completed: by the handler itself, or by the callbacks it leaves on the
 future that an asynchronous method returns.
 */
module Completion {
  import opened Options

  /** A failed future's exception; a completion or execution exception wraps its cause, if any. */
  datatype Throwable = Wrapper(hasCause: bool) | Plain

  /** How a future resolves; `bodySet` says whether setting the response body succeeds. */
  datatype Resolution = Succeeded(bodySet: bool) | Failed(error: Throwable)

  /** Collecting the arguments: fine, a constraint violation, or another exception. */
  datatype Inputs = Collected | Violated | Broken

  class Operation {
    var completed: nat
    var failed: nat

    constructor ()
      ensures completed == 0 && failed == 0
    {
      completed, failed := 0, 0;
    }

    method Complete()
      modifies this
      ensures completed == old(completed) + 1 && failed == old(failed)
    {
      completed := completed + 1;
    }

    method Fail()
      modifies this
      ensures failed == old(failed) + 1 && completed == old(completed)
    {
      failed := failed + 1;
    }
  }

  /** How often the request has been completed and failed. */
  datatype Count = Count(completed: nat, failed: nat)

  /** What the two callbacks do to the request once their future is resolved. */
  function Settled(r: Option<Resolution>): Count {
    match r
    case None => Count(0, 0)
    case Some(Succeeded(bodySet)) => if bodySet then Count(1, 0) else Count(0, 0)
    case Some(Failed(Wrapper(false))) => Count(0, 0)
    case Some(Failed(_)) => Count(0, 1)
  }

  /** What they have done when only the failure callback has been left. */
  function SettledByFailure(r: Option<Resolution>): Count {
    if r.Some? && r.value.Failed? then Settled(r) else Count(0, 0)
  }

  class CompletableFuture {
    var resolution: Option<Resolution>
    var onFailure: Operation?
    var onSuccess: Operation?

    constructor (resolution: Option<Resolution>)
      ensures this.resolution == resolution && onFailure == null && onSuccess == null
    {
      this.resolution, onFailure, onSuccess := resolution, null, null;
    }

    /** Resolves the future unless it is resolved already, and runs the callback that applies. */
    method Resolve(r: Resolution, ghost op: Operation)
      requires onFailure == null || onFailure == op
      requires onSuccess == null || onSuccess == op
      modifies this`resolution, op
      ensures resolution == if old(resolution).Some? then old(resolution) else Some(r)
      ensures var runs := old(resolution).None? && (if r.Failed? then onFailure else onSuccess) != null;
              Count(op.completed, op.failed) ==
              if runs
              then Count(old(op.completed) + Settled(Some(r)).completed, old(op.failed) + Settled(Some(r)).failed)
              else Count(old(op.completed), old(op.failed))
    {
      if resolution.Some? {
        return;
      }
      resolution := Some(r);
      if r.Failed? && onFailure != null {
        FailureCallback(onFailure, r.error);
      } else if r.Succeeded? && onSuccess != null {
        SuccessCallback(onSuccess, r.bodySet);
      }
    }

    method Exceptionally(op: Operation)
      requires onFailure == null && onSuccess == null
      requires Count(op.completed, op.failed) == Count(0, 0)
      modifies this`onFailure, op
      ensures onFailure == op
      ensures Count(op.completed, op.failed) == SettledByFailure(resolution)
    {
      onFailure := op;
      if resolution.Some? && resolution.value.Failed? {
        FailureCallback(op, resolution.value.error);
      }
    }

    method ThenAccept(op: Operation)
      requires onFailure == op && onSuccess == null
      requires Count(op.completed, op.failed) == SettledByFailure(resolution)
      modifies this`onSuccess, op
      ensures onSuccess == op
      ensures Count(op.completed, op.failed) == Settled(resolution)
    {
      onSuccess := op;
      if resolution.Some? && resolution.value.Succeeded? {
        SuccessCallback(op, resolution.value.bodySet);
      }
    }
  }

  /** Fails the request with the error or its cause; a wrapper without a cause throws first. */
  method FailureCallback(op: Operation, error: Throwable)
    modifies op
    ensures op.completed == old(op.completed)
    ensures op.failed == old(op.failed) + Settled(Some(Failed(error))).failed
  {
    if error == Wrapper(false) {
      return;
    }
    op.Fail();
  }

  method SuccessCallback(op: Operation, bodySet: bool)
    modifies op
    ensures op.failed == old(op.failed)
    ensures op.completed == old(op.completed) + Settled(Some(Succeeded(bodySet))).completed
  {
    if !bodySet {
      return;
    }
    op.Complete();
  }

  // ---- Whole requests ----

  /** What invoking the method gives: an exception, a result, or a future (null if absent). */
  datatype Call = Throws | Returns(bodySet: bool) | ReturnsFuture(future: Option<Option<Resolution>>)

  /** The first resolution counts: the one a future comes with, or the first attempt on it. */
  function First(own: Option<Resolution>, attempts: seq<Resolution>): Option<Resolution> {
    if own.Some? then own else if attempts == [] then None else Some(attempts[0])
  }

  /** How a request ends, given every attempt ever made to resolve its future. */
  function Ending(inputs: Inputs, call: Call, attempts: seq<Resolution>): Count {
    if !inputs.Collected? then Count(0, 1)
    else
      match call
      case Throws => Count(0, 1)
      case Returns(bodySet) => if bodySet then Count(1, 0) else Count(0, 1)
      case ReturnsFuture(None) => Count(0, 1)
      case ReturnsFuture(Some(own)) => Settled(First(own, attempts))
  }

  /** The call never gets an answer: its future is never resolved, or its callback throws. */
  predicate Unanswered(call: Call, attempts: seq<Resolution>) {
    && call.ReturnsFuture? && call.future.Some?
    && match First(call.future.value, attempts)
       case None => true
       case Some(Succeeded(bodySet)) => !bodySet
       case Some(Failed(error)) => error == Wrapper(false)
  }

  /** Every attempt to resolve the future, by anyone, one after the other. */
  method ResolveAll(future: CompletableFuture, attempts: seq<Resolution>, ghost op: Operation)
    requires future.onFailure == op && (future.onSuccess == null || future.onSuccess == op)
    requires Count(op.completed, op.failed) ==
             if future.onSuccess == null then SettledByFailure(future.resolution) else Settled(future.resolution)
    modifies future`resolution, op
    ensures future.resolution == First(old(future.resolution), attempts)
    ensures Count(op.completed, op.failed) ==
            if future.onSuccess == null then SettledByFailure(future.resolution) else Settled(future.resolution)
    ensures old(future.resolution).Some? ==>
              && future.resolution == old(future.resolution)
              && op.completed == old(op.completed) && op.failed == old(op.failed)
  {
    for i := 0 to |attempts|
      invariant future.resolution == First(old(future.resolution), attempts[..i])
      invariant Count(op.completed, op.failed) ==
                if future.onSuccess == null then SettledByFailure(future.resolution) else Settled(future.resolution)
    {
      future.Resolve(attempts[i], op);
    }
    assert attempts[..|attempts|] == attempts;
  }

  /**
   Serves one request of a method without an Operation parameter. `between` are the attempts on
   its future after the first callback is left and before the second is, `after` all later ones.
   However they fall, the request ends as its first resolution says. It is never answered twice,
   and exactly once unless its future is never resolved, is resolved with a body that cannot be
   set, or fails with an empty wrapper.
   */
  method Serve(inputs: Inputs, call: Call, between: seq<Resolution>, after: seq<Resolution>)
    returns (op: Operation)
    ensures Count(op.completed, op.failed) == Ending(inputs, call, between + after)
    ensures inputs != Collected ==> op.completed == 0 && op.failed == 1
    ensures inputs == Collected && (call == Throws || call == Returns(false) || call == ReturnsFuture(None)) ==>
              op.completed == 0 && op.failed == 1
    ensures inputs == Collected && call == Returns(true) ==> op.completed == 1 && op.failed == 0
    ensures forall own: Option<Resolution> | inputs == Collected && call == ReturnsFuture(Some(own)) ::
              var all := (if own == None then [] else [own.value]) + between + after;
              && op.completed == (if all != [] && all[0] == Succeeded(true) then 1 else 0)
              && op.failed == (if all != [] && all[0].Failed? && all[0] != Failed(Wrapper(false)) then 1 else 0)
    ensures op.completed + op.failed <= 1
    ensures op.completed + op.failed == 1 <==> !inputs.Collected? || !Unanswered(call, between + after)
  {
    op := new Operation();
    if !inputs.Collected? {
      op.Fail();
      return;
    }
    match call {
      case Throws => op.Fail();
      case Returns(bodySet) =>
        if bodySet { op.Complete(); } else { op.Fail(); }
      case ReturnsFuture(None) => op.Fail();
      case ReturnsFuture(Some(own)) =>
        var future := new CompletableFuture(own);
        future.Exceptionally(op);
        ResolveAll(future, between, op);
        future.ThenAccept(op);
        ResolveAll(future, after, op);
    }
  }
}
