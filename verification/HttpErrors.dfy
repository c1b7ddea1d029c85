/** Turning an exception and its chain of causes into a response body, and back. */
module HttpErrors {
  import opened Options

  type Frame = string
  type Context = map<string, string>

  const INTERNAL_ERROR := 55055
  const HTTP_ERROR_TYPE := "com.tteky.xenonext.util.HttpError"

  /** `Http` is the library's own exception or a subclass of it, `Foreign` any other. */
  datatype Error =
    | Http(typeName: string, code: int, developerMessage: Option<string>, message: Option<string>,
           context: Option<Context>, originalType: Option<string>, stack: seq<Frame>, cause: Option<Error>)
    | Foreign(typeName: string, message: Option<string>, stack: seq<Frame>, cause: Option<Error>)

  datatype Response = Response(errorCode: int, message: Option<string>, context: Option<Context>,
                               stack: Option<seq<Frame>>, cause: Option<Response>, typeName: Option<string>)

  function From(e: Error): Response {
    var cause := if e.cause.None? then None else Some(From(e.cause.value));
    match e
    case Http(t, code, developerMessage, _, context, _, stack, _) =>
      Response(code, developerMessage, context, Some(stack), cause, Some(t))
    case Foreign(t, message, stack, _) =>
      Response(INTERNAL_ERROR, message, None, Some(stack), cause, Some(t))
  }

  /** The frames of an exception whose response carries none are those of its creation, `here`. */
  function ToError(r: Response, here: seq<Frame>): Error {
    var cause := if r.cause.None? then None else Some(ToError(r.cause.value, here));
    Http(HTTP_ERROR_TYPE, r.errorCode, r.message, r.message, Some(r.context.GetOr(map[])), r.typeName,
         r.stack.GetOr(here), cause)
  }

  /** One exception of a chain, as a client can tell it. */
  datatype Level = Level(code: int, message: Option<string>, context: Option<Context>, stack: seq<Frame>)

  function LevelOf(e: Error): Level {
    match e
    case Http(_, code, developerMessage, _, context, _, stack, _) => Level(code, developerMessage, context, stack)
    case Foreign(_, message, stack, _) => Level(INTERNAL_ERROR, message, None, stack)
  }

  /** An exception, its cause, the cause of that, and so on. */
  function Chain(e: Error): (chain: seq<Error>)
    ensures |chain| >= 1
  {
    [e] + (if e.cause.None? then [] else Chain(e.cause.value))
  }

  function Responses(r: Response): (chain: seq<Response>)
    ensures |chain| >= 1
  {
    [r] + (if r.cause.None? then [] else Responses(r.cause.value))
  }

  /** Chains start with the exception or response itself, follow the causes, and end without one. */
  lemma {:induction false} ChainFollowsCauses(e: Error)
    ensures Chain(e)[0] == e && Chain(e)[|Chain(e)| - 1].cause == None
    ensures forall k | 0 <= k < |Chain(e)| - 1 :: Chain(e)[k].cause == Some(Chain(e)[k + 1])
  {
    if e.cause.Some? {
      ChainFollowsCauses(e.cause.value);
    }
  }

  lemma {:induction false} ResponsesFollowCauses(r: Response)
    ensures Responses(r)[0] == r && Responses(r)[|Responses(r)| - 1].cause == None
    ensures forall k | 0 <= k < |Responses(r)| - 1 :: Responses(r)[k].cause == Some(Responses(r)[k + 1])
  {
    if r.cause.Some? {
      ResponsesFollowCauses(r.cause.value);
    }
  }

  /**
   The response has a level for every exception: the code, context and developer message of the
   library's own, the reserved code 55055 and the message of any other, with stack and type of both.
   */
  lemma {:induction false} FromKeepsChain(e: Error)
    ensures |Responses(From(e))| == |Chain(e)|
    ensures forall k | 0 <= k < |Chain(e)| ::
              var (r, x) := (Responses(From(e))[k], Chain(e)[k]);
              && r.stack == Some(x.stack) && r.typeName == Some(x.typeName)
              && (x.Http? ==> r.errorCode == x.code && r.message == x.developerMessage && r.context == x.context)
              && (x.Foreign? ==> r.errorCode == 55055 && r.message == x.message && r.context == None)
  {
    if e.cause.Some? {
      FromKeepsChain(e.cause.value);
    }
  }

  /** The exception rebuilt from a response has a level for every level of it. */
  lemma {:induction false} ToErrorKeepsChain(r: Response, here: seq<Frame>)
    ensures |Chain(ToError(r, here))| == |Responses(r)|
    ensures forall k | 0 <= k < |Responses(r)| ::
              var (x, q) := (Chain(ToError(r, here))[k], Responses(r)[k]);
              && x.Http? && x.code == q.errorCode && x.developerMessage == q.message && x.message == q.message
              && x.typeName == "com.tteky.xenonext.util.HttpError" && x.originalType == q.typeName
              && x.context == Some(if q.context == None then map[] else q.context.value)
              && x.stack == (if q.stack == None then here else q.stack.value)
  {
    if r.cause.Some? {
      ToErrorKeepsChain(r.cause.value, here);
    }
  }

  function RoundTripped(e: Error, here: seq<Frame>): Error {
    ToError(From(e), here)
  }

  /**
   There and back, a chain of causes keeps its length and, at every level, the code (the internal
   one for foreign exceptions), the message, the stack and the context (an empty one if there was
   none), and each level remembers the type it had.
   */
  lemma {:induction false} RoundTripKeepsChain(e: Error, here: seq<Frame>)
    ensures var (before, after) := (Chain(e), Chain(RoundTripped(e, here)));
            && |after| == |before|
            && forall k | 0 <= k < |before| ::
                 && LevelOf(after[k]) == LevelOf(before[k]).(context := Some(LevelOf(before[k]).context.GetOr(map[])))
                 && after[k].Http? && after[k].originalType == Some(before[k].typeName)
                 && after[k].message == after[k].developerMessage
  {
    if e.cause.Some? {
      RoundTripKeepsChain(e.cause.value, here);
    }
  }

  /** The same chain with every level remembered as the library's own exception. */
  function Retyped(e: Error): Error
    requires forall x | x in Chain(e) :: x.Http?
  {
    assert e in Chain(e);
    e.(originalType := Some(HTTP_ERROR_TYPE),
       cause := if e.cause.None? then None
                else
                  assert forall x | x in Chain(e.cause.value) :: x in Chain(e);
                  Some(Retyped(e.cause.value)))
  }

  lemma {:induction false} RoundTripIsHttp(e: Error, here: seq<Frame>)
    ensures forall x | x in Chain(RoundTripped(e, here)) :: x.Http?
  {
    if e.cause.Some? {
      RoundTripIsHttp(e.cause.value, here);
    }
  }

  /** A second round trip changes nothing but the remembered types. */
  lemma {:induction false} SecondRoundTrip(e: Error, here: seq<Frame>, there: seq<Frame>)
    ensures forall x | x in Chain(RoundTripped(e, here)) :: x.Http?
    ensures RoundTripped(RoundTripped(e, here), there) == Retyped(RoundTripped(e, here))
  {
    RoundTripIsHttp(e, here);
    if e.cause.Some? {
      SecondRoundTrip(e.cause.value, here, there);
    }
  }
}
