/**
 The life of a request: Build, Sign, Send and the retry loop (aws/request/request.go) with the default handlers
 that decide about retrying (aws/corehandlers/handlers.go) and the default retryer.

 The world is an `Env`: what the transport answers to each attempt, when cancellation is seen, and what every
 handler list does to the request's error, the response handlers also to the status and the Retry handlers also to
 whether the request is retryable. All of it is arbitrary. A run yields the handler lists it went through as a
 sequence of events.
 */
module Lifecycle {
  import opened Prelude
  import E = Errors

  type Error = E.Error

  /** What the engine makes of a cancellation that it sees. */
  const CANCELED_REQUEST := E.New(E.CANCELED, "request context canceled", E.Plain("context canceled"))

  datatype Transport =
    | Responded(status: int)
    | BadRedirect(status: int)
    | Failed(cause: Error, response: Option<int>)

  datatype Event =
    | Validate | Build | Sign
    | Send | Resign | CancelSeen
    | UnmarshalMeta | ValidateResponse | Unmarshal | UnmarshalError
    | CompleteAttempt
    | Retry | AfterRetry
    | Sleep(retryCount: nat, delay: int)
    | ExpireCredentials
    | Complete

  /** The mutable fields of a request, and the number of attempts made so far. */
  datatype State = State(
    err: Error,
    retryable: Option<bool>,
    retryCount: nat,
    built: bool,
    status: Option<int>,
    retryDelay: int,
    attempts: nat)

  /** The interface a request asks about retrying; the natural number is the attempt that failed. */
  datatype Retryer = Retryer(
    maxRetries: int,
    shouldRetry: (nat, State) -> bool,
    retryRules: (nat, State) -> int)

  /** Handlers of a failed attempt may also rewrite whether the request is retryable. */
  type RetryHandler = (nat, Error, Option<bool>) -> (Error, Option<bool>)

  /** Handlers of a response see the request's error and the status, and may rewrite both. */
  type ResponseHandler = (nat, Error, Option<int>) -> (Error, Option<int>)

  /**
   Everything outside the engine. The natural number is the attempt, counted from 0 within one `Send`; an error
   argument is the request's error when the handler list starts, and the result is the error it leaves. Whether the
   body can be sent again may change between attempts, as it does for a body that cannot seek once it has been read
   (`Bodies.RequestBody.CanBeResent`).
   */
  datatype Env = Env(
    retryer: Retryer,
    enforceShouldRetryCheck: bool,
    bodyCanBeResent: nat -> bool,
    validate: Error -> Error,
    build: Error -> Error,
    sign: (nat, Error) -> Error,
    resign: nat -> Option<Error>,
    transport: nat -> Transport,
    doneAtSend: nat -> bool,
    unmarshalMeta: ResponseHandler,
    validateResponse: ResponseHandler,
    unmarshal: ResponseHandler,
    unmarshalError: ResponseHandler,
    completeAttempt: (nat, Error) -> Error,
    retry: RetryHandler,
    doneAtSleep: nat -> bool,
    afterRetry: RetryHandler,
    bodySeek: nat -> Error,
    complete: Error -> Error)

  // ------------------------------------------------------------- the stages

  datatype Step = Step(s: State, events: seq<Event>)

  function BuildStep(env: Env, s: State): Step {
    if s.built then Step(s, [])
    else
      var validated := s.(err := env.validate(s.err));
      if validated.err != E.Nil then Step(validated, [Validate])
      else
        var built := validated.(err := env.build(E.Nil));
        Step(built.(built := built.err == E.Nil), [Validate, Build])
  }

  function SignStep(env: Env, s: State): Step {
    var b := BuildStep(env, s);
    if b.s.err != E.Nil then b
    else Step(b.s.(err := env.sign(s.attempts, E.Nil)), b.events + [Sign])
  }

  /** `handleSendError` for a failure that is not a redirect in disguise. */
  function SendFailure(env: Env, s: State, cause: Error, response: Option<int>): Step {
    var status := if response.Some? then response else Some(0);
    if env.doneAtSend(s.attempts) then
      Step(s.(err := CANCELED_REQUEST, retryable := Some(false), status := status), [CancelSeen])
    else
      Step(s.(err := E.New(E.REQUEST_ERROR, "send request failed", cause), status := status), [])
  }

  /** The Send handlers: an expired signature is renewed in place, then the transport is asked. */
  function TransportStep(env: Env, s: State): Step {
    var k := s.attempts;
    var resigned :=
      if env.resign(k).Some? then Step(s.(err := env.resign(k).value), [Send, Resign]) else Step(s, [Send]);
    match env.transport(k)
    case Responded(status) => resigned.(s := resigned.s.(status := Some(status)))
    case BadRedirect(status) => resigned.(s := resigned.s.(status := Some(status)))
    case Failed(cause, response) =>
      var failed := SendFailure(env, resigned.s, cause, response);
      Step(failed.s, resigned.events + failed.events)
  }

  function HandleResponse(handler: ResponseHandler, s: State): State {
    var (err, status) := handler(s.attempts, s.err, s.status);
    s.(err := err, status := status)
  }

  /** `ValidateResponseHandler`. */
  function ValidateStatus(s: State): State {
    if s.status.None? || s.status.value == 0 || s.status.value >= 300
    then s.(err := E.New("UnknownError", "unknown error", s.err)) else s
  }

  function ResponseStep(env: Env, s: State): Step {
    var meta := HandleResponse(env.unmarshalMeta, s);
    var checked := HandleResponse(env.validateResponse, ValidateStatus(meta));
    if checked.err != E.Nil then
      Step(HandleResponse(env.unmarshalError, checked), [UnmarshalMeta, ValidateResponse, UnmarshalError])
    else
      Step(HandleResponse(env.unmarshal, checked), [UnmarshalMeta, ValidateResponse, Unmarshal])
  }

  /** The Send handlers count nothing, and veto a retry only for a cancellation. */
  lemma TransportKeeps(env: Env, s: State)
    ensures var sent := TransportStep(env, s).s;
            && sent.attempts == s.attempts && sent.retryCount == s.retryCount && sent.built == s.built
            && (sent.retryable == s.retryable || (sent.retryable == Some(false) && sent.err == CANCELED_REQUEST))
  {
  }

  lemma ResponseKeeps(env: Env, s: State)
    ensures var answered := ResponseStep(env, s).s;
            && answered.attempts == s.attempts && answered.retryCount == s.retryCount
            && answered.built == s.built && answered.retryable == s.retryable
  {
  }

  /** `sendRequest`; its result is the error before the deferred CompleteAttempt handlers run. */
  function SendRequestStep(env: Env, s: State): (Step, Error) {
    var sent := TransportStep(env, s.(retryable := None));
    var answered := if sent.s.err != E.Nil then Step(sent.s, []) else ResponseStep(env, sent.s);
    var s' := answered.s.(err := env.completeAttempt(s.attempts, answered.s.err), attempts := s.attempts + 1);
    (Step(s', sent.events + answered.events + [CompleteAttempt]), answered.s.err)
  }

  /** `WillRetry`, asked after the attempt `k`. */
  predicate WillRetry(env: Env, s: State, k: nat) {
    && env.bodyCanBeResent(k)
    && s.err != E.Nil && s.retryable == Some(true) && s.retryCount < env.retryer.maxRetries
  }

  /** The request as judged after the attempt `k`: asked about unless a handler has settled it. */
  function Assessed(env: Env, s: State, k: nat): State {
    if s.retryable.None? || env.enforceShouldRetryCheck then s.(retryable := Some(env.retryer.shouldRetry(k, s))) else s
  }

  /** `AfterRetryHandler`, run for the attempt `k`. */
  function AfterRetryStep(env: Env, s: State, k: nat): Step {
    var judged := Assessed(env, s, k);
    if !WillRetry(env, judged, k) then Step(judged, [])
    else
      var delay := env.retryer.retryRules(k, judged);
      var slept := judged.(retryDelay := delay);
      var sleep := [Sleep(s.retryCount, delay)];
      if env.doneAtSleep(k) then
        Step(slept.(err := CANCELED_REQUEST, retryable := Some(false)), sleep + [CancelSeen])
      else
        Step(slept.(err := E.Nil, retryCount := s.retryCount + 1),
             sleep + if E.IsErrorExpired(s.err) then [ExpireCredentials] else [])
  }

  /** The AfterRetry list: `AfterRetryHandler`, then whatever handlers were added to it. */
  function AfterRetryList(env: Env, s: State, k: nat): Step {
    var after := AfterRetryStep(env, s, k);
    var (err, retryable) := env.afterRetry(k, after.s.err, after.s.retryable);
    after.(s := after.s.(err := err, retryable := retryable))
  }

  /** `ResetBody` as called by `prepareRetry` after the attempt `k`, and the error it returns. */
  function PrepareRetryError(env: Env, k: nat): Error {
    if env.bodySeek(k) == E.Nil then E.Nil
    else E.New(E.SERIALIZATION, "failed to prepare body for retry",
                  E.New(E.SERIALIZATION, "failed to reset request body",
                           E.New(E.SERIALIZATION, "failed to get next request body reader", env.bodySeek(k))))
  }

  datatype Outcome = Again | Return(err: Error)

  datatype Attempt = Attempt(s: State, events: seq<Event>, outcome: Outcome)

  /** The end of a failed attempt, once the AfterRetry handlers have run. */
  function Conclude(env: Env, k: nat, xs: seq<Event>, after: Step): Attempt {
    var events := xs + after.events;
    if after.s.err != E.Nil || after.s.retryable != Some(true) then Attempt(after.s, events, Return(after.s.err))
    else
      var prepareErr := PrepareRetryError(env, k);
      if prepareErr != E.Nil then Attempt(after.s.(err := prepareErr), events, Return(prepareErr))
      else Attempt(after.s, events, Again)
  }

  /** What `Send` does when `sendRequest` fails, after the events `xs`. */
  function Judge(env: Env, k: nat, xs: seq<Event>, sent: State): Attempt {
    var (err, retryable) := env.retry(k, sent.err, sent.retryable);
    Conclude(env, k, xs + [Retry, AfterRetry], AfterRetryList(env, sent.(err := err, retryable := retryable), k))
  }

  /** A turn from its `sendRequest` on, after the events `xs`. */
  function SendSigned(env: Env, xs: seq<Event>, s: State): Attempt {
    var (sent, sendErr) := SendRequestStep(env, s);
    var ys := xs + sent.events;
    if sendErr == E.Nil then Attempt(sent.s, ys, Return(E.Nil)) else Judge(env, s.attempts, ys, sent.s)
  }

  /** One turn of the loop in `Send`. */
  function AttemptStep(env: Env, s: State): Attempt {
    var signed := SignStep(env, s.(err := E.Nil));
    if signed.s.err != E.Nil then Attempt(signed.s, signed.events, Return(signed.s.err))
    else SendSigned(env, signed.events, signed.s)
  }

  function Turn(env: Env): State -> Attempt { s => AttemptStep(env, s) }

  datatype Run = Run(s: State, events: seq<Event>, ret: Error)

  /** At most `limit` turns of the loop; None means that the limit was hit. Go has none. */
  function Loop(turn: State -> Attempt, s: State, limit: nat): Option<Run>
    decreases limit
  {
    if limit == 0 then None
    else
      var a := turn(s);
      match a.outcome
      case Return(err) => Some(Run(a.s, a.events, err))
      case Again =>
        match Loop(turn, a.s, limit - 1)
        case None => None
        case Some(run) => Some(run.(events := a.events + run.events))
  }

  /** The deferred function: a response is always there, then the Complete handlers run. */
  function FinishState(env: Env, s: State): State {
    s.(status := if s.status.None? then Some(0) else s.status, err := env.complete(s.err))
  }

  function Finish(env: Env, run: Run): Run {
    Run(FinishState(env, run.s), run.events + [Complete], run.ret)
  }

  function SendVia(env: Env, turn: State -> Attempt, s: State, limit: nat): Option<Run> {
    if s.err != E.Nil then Some(Finish(env, Run(s, [], s.err)))
    else
      match Loop(turn, s.(attempts := 0), limit)
      case None => None
      case Some(run) => Some(Finish(env, run))
  }

  /** `Send` within a limit on the turns of its loop. */
  function SendWithin(env: Env, s: State, limit: nat): Option<Run> { SendVia(env, Turn(env), s, limit) }

  /** A run that has ended is the same under any larger limit. */
  lemma {:induction false} LoopStable(turn: State -> Attempt, s: State, limit: nat, more: nat)
    requires limit <= more && Loop(turn, s, limit).Some?
    ensures Loop(turn, s, more) == Loop(turn, s, limit)
    decreases limit
  {
    if turn(s).outcome == Again {
      LoopStable(turn, turn(s).s, limit - 1, more - 1);
    }
  }
}
