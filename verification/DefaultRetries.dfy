/**
 The request engine with the default retryer: its `ShouldRetry` asks the classifier of module Errors, and its
 `RetryRules` is the machine computation of module Backoff.
 */
module DefaultRetries {
  import opened Prelude
  import E = Errors
  import B = Backoff
  import opened Lifecycle
  import opened LifecycleGrammar
  import opened LifecycleTermination
  import opened LifecycleOutcomes
  import opened LifecycleCancellation
  import opened LifecycleWaits

  /** What the default retryer reads besides the request, by attempt where it varies. */
  datatype Client = Client(
    retryer: B.DefaultRetryer,
    retryErrorCodes: seq<string>,
    throttleErrorCodes: seq<string>,
    header: nat -> B.RetryAfter,
    chance: nat -> B.Chance)

  predicate Throttled(c: Client, s: State) { E.IsErrorThrottle(s.err, s.status, c.throttleErrorCodes) }

  /** `DefaultRetryer.ShouldRetry`. */
  predicate ShouldRetry(c: Client, s: State)
    requires c.retryer.numMaxRetries == 0 || s.retryable.Some? || E.Unrolls(s.err)
  {
    if c.retryer.numMaxRetries == 0 then false
    else if s.retryable.Some? then s.retryable.value
    else E.IsErrorRetryable(s.err, s.status, c.retryErrorCodes) || Throttled(c, s)
  }

  function StatusOf(s: State): int { if s.status.Some? then s.status.value else 0 }

  function RetryRules(c: Client, k: nat, s: State): int
    requires c.retryer.Valid()
  {
    B.Wrap64(B.IntendedDelay(c.retryer, Throttled(c, s), StatusOf(s), c.header(k), s.retryCount, c.chance(k)))
  }

  /** The retryer of `env` is the default one. Nothing is said of errors on which its classifier does not return. */
  ghost predicate UsesDefaultRetryer(env: Env, c: Client) {
    && c.retryer.Valid()
    && env.retryer.maxRetries == c.retryer.numMaxRetries
    && (forall k, s: State | c.retryer.numMaxRetries == 0 || s.retryable.Some? || E.Unrolls(s.err) ::
          env.retryer.shouldRetry(k, s) == ShouldRetry(c, s))
    && (forall k, s :: env.retryer.retryRules(k, s) == RetryRules(c, k, s))
  }

  // -------------------------------------------------------- default handlers

  /**
   With the default handler lists no failure is cleared or hidden, no veto lifted and no cancelled wait overruled: the
   conditions hold under which `Send` returns, tells success by nil and bounds its waits, and that under which it stops
   on cancellation, unless the retryer is asked about vetoed requests.
   */
  lemma QuietHandlersMeetTheConditions(env: Env)
    requires QuietHandlers(env)
    ensures NeverClears(env) && (forall k :: !CanClearFrom(env, k))
    ensures forall k :: !CanHideAt(env, k)
    ensures NeverOutwaits(env) && KeepsVeto(env)
    ensures !env.enforceShouldRetryCheck ==> forall k :: !CanOverruleAt(env, k)
  {
    QuietHandlersNeverClear(env);
    QuietHandlersNeverOutwait(env);
    forall k, x
      ensures !Hides(env, k, x)
    {
      QuietHandlersNeverHide(env, k, x);
    }
    forall k
      ensures !CanClearFrom(env, k)
    {
      assert !CanClear(env, k);
    }
  }

  // ------------------------------------------------------------ cancellation

  lemma DefaultRespectsVeto(env: Env, c: Client)
    requires UsesDefaultRetryer(env, c) && KeepsVeto(env)
    ensures RespectsVeto(env)
  {
    forall k, s: State | s.retryable == Some(false)
      ensures !env.retryer.shouldRetry(k, s)
    {
      assert env.retryer.shouldRetry(k, s) == ShouldRetry(c, s);
    }
  }

  /** With the default retryer, and unless a handler lifts a veto, no attempt follows an observed cancellation. */
  lemma DefaultStopsOnCancel(env: Env, c: Client, s: State, limit: nat)
    requires UsesDefaultRetryer(env, c) && KeepsVeto(env)
    requires SendWithin(env, s, limit).Some?
    ensures NoSendAfterCancel(SendWithin(env, s, limit).value.events)
  {
    DefaultRespectsVeto(env, c);
    CancellationStopsSending(env, s, limit);
  }

  /** The error `handleSendError` makes of a cancelled cause is not retryable, and no throttling either. */
  lemma CanceledSendIsFatal(c: Client, s: State, cause: E.Error)
    requires E.WrapsCanceled(cause)
    requires s.err == E.New(E.REQUEST_ERROR, "send request failed", cause)
    requires s.status == Some(0) && s.retryable == None
    requires E.REQUEST_ERROR !in c.retryErrorCodes + c.throttleErrorCodes
    ensures E.Unrolls(s.err) && !ShouldRetry(c, s)
  {
    var a := s.err.aws;
    assert E.OrigErr(a) == cause && E.Splittable(a);
    E.UnrollDropsOrRepeats(a);
    E.CanceledIsNeverRetryable(s.err);
    assert E.Code(a) == E.REQUEST_ERROR;
    assert !E.IsCodeThrottle(E.REQUEST_ERROR);
    assert s.status != Some(500);
  }

  /** With quiet handlers a failure that is not to be retried is returned. */
  lemma FatalErrorReturns(env: Env, k: nat, xs: seq<Event>, sent: State)
    requires QuietHandlers(env) && sent.err != E.Nil
    requires if sent.retryable.None? then !env.retryer.shouldRetry(k, sent)
             else sent.retryable == Some(false) && RespectsVeto(env)
    ensures Judge(env, k, xs, sent).outcome == Return(sent.err)
  {
    assert sent.(err := sent.err, retryable := sent.retryable) == sent;
    assert sent.(retryable := Some(false)).retryable == Some(false);
  }

  /** The transport fails without a response, with a cancellation under request errors and non-refused `*url.Error`s. */
  predicate CanceledCause(env: Env, k: nat) {
    env.transport(k).Failed? && env.transport(k).response.None? && E.WrapsCanceled(env.transport(k).cause)
  }

  /** The state after such a send: the cancellation is seen, with a veto, or is the cause of a request error. */
  lemma CanceledSendState(env: Env, s: State)
    requires QuietHandlers(env) && CanceledCause(env, s.attempts)
    ensures var (sent, sendErr) := SendRequestStep(env, s);
            && sent.s.err == sendErr
            && if env.doneAtSend(s.attempts) then sendErr == CANCELED_REQUEST && sent.s.retryable == Some(false)
               else
                 && sendErr == E.New(E.REQUEST_ERROR, "send request failed", env.transport(s.attempts).cause)
                 && sent.s.status == Some(0) && sent.s.retryable == None
  {
  }

  lemma CanceledCauseEnds(env: Env, c: Client, s: State)
    requires UsesDefaultRetryer(env, c) && QuietHandlers(env)
    requires E.REQUEST_ERROR !in c.retryErrorCodes + c.throttleErrorCodes
    requires CanceledCause(env, s.attempts)
    ensures AttemptStep(env, s).outcome.Return? && AttemptStep(env, s).outcome.err != E.Nil
  {
    hide SignStep, SendRequestStep, Judge, QuietHandlers, RespectsVeto, E.WrapsCanceled;
    QuietHandlersKeepVeto(env);
    DefaultRespectsVeto(env, c);
    var signed := SignStep(env, s.(err := E.Nil));
    SigningCountsNothing(env, s.(err := E.Nil));
    if signed.s.err == E.Nil {
      var (sent, sendErr) := SendRequestStep(env, signed.s);
      CanceledSendState(env, signed.s);
      if !env.doneAtSend(s.attempts) {
        CanceledSendIsFatal(c, sent.s, env.transport(s.attempts).cause);
        assert !env.retryer.shouldRetry(s.attempts, sent.s);
      }
      FatalErrorReturns(env, s.attempts, signed.events + sent.events, sent.s);
    }
  }

  lemma QuietHandlersKeepVeto(env: Env)
    requires QuietHandlers(env)
    ensures KeepsVeto(env)
  {
  }

  /** An attempt that ends in a cancelled cause is the last of its run, which returns an error. */
  predicate EndsTheRun(env: Env, first: nat, attempts: nat, ret: Error) {
    forall k | first <= k < attempts && CanceledCause(env, k) :: k == attempts - 1 && ret != E.Nil
  }

  predicate CauseShown(env: Env, s: State, a: Attempt) {
    && (CanceledCause(env, s.attempts) ==> a.outcome.Return? && a.outcome.err != E.Nil)
    && (a.outcome.Return? ==> a.s.attempts <= s.attempts + 1)
    && (a.outcome == Again ==> a.s.attempts == s.attempts + 1)
  }

  lemma {:induction false} LoopCause(env: Env, turn: State -> Attempt, s: State, limit: nat)
    requires (forall s :: CauseShown(env, s, turn(s))) && Loop(turn, s, limit).Some?
    ensures var run := Loop(turn, s, limit).value;
            EndsTheRun(env, s.attempts, run.s.attempts, run.ret)
    decreases limit
  {
    var a := turn(s);
    assert CauseShown(env, s, a);
    if a.outcome == Again {
      LoopCause(env, turn, a.s, limit - 1);
    }
  }

  lemma AttemptCountsOne(env: Env, s: State)
    ensures var a := AttemptStep(env, s);
            a.s.attempts <= s.attempts + 1 && (a.outcome == Again ==> a.s.attempts == s.attempts + 1)
  {
    hide SignStep, SendRequestStep, Judge;
    var signed := SignStep(env, s.(err := E.Nil));
    SigningCountsNothing(env, s.(err := E.Nil));
    if signed.s.err == E.Nil {
      var (sent, sendErr) := SendRequestStep(env, signed.s);
      FailedAttempt(env, signed.s);
      JudgeCountsNothing(env, s.attempts, signed.events + sent.events, sent.s);
    }
  }

  /**
   With the default retryer and handlers, an attempt that fails with a cancellation under any stack of request errors
   and non-refused `*url.Error`s is the last of its `Send`, which returns an error, even when the context check of
   `handleSendError` did not see the cancellation.
   */
  lemma CanceledCauseIsLast(env: Env, c: Client, s: State, limit: nat)
    requires UsesDefaultRetryer(env, c) && QuietHandlers(env)
    requires E.REQUEST_ERROR !in c.retryErrorCodes + c.throttleErrorCodes
    requires s.err == E.Nil && SendWithin(env, s, limit).Some?
    ensures var run := SendWithin(env, s, limit).value;
            EndsTheRun(env, 0, run.s.attempts, run.ret)
  {
    hide AttemptStep, Loop, UsesDefaultRetryer, QuietHandlers, CanceledCause;
    forall s
      ensures CauseShown(env, s, Turn(env)(s))
    {
      AttemptCountsOne(env, s);
      if CanceledCause(env, s.attempts) {
        CanceledCauseEnds(env, c, s);
      }
    }
    LoopCause(env, Turn(env), s.(attempts := 0), limit);
  }

  /** An error that says that the request was cancelled. */
  predicate IsCanceled(e: E.Error) { e.Aws? && E.Code(e.aws) == E.CANCELED }

  predicate CancelReported(events: seq<Event>, outcome: Outcome) {
    CancelSeen in events ==> outcome.Return? && IsCanceled(outcome.err)
  }

  lemma JudgedCancelShows(env: Env, k: nat, xs: seq<Event>, sent: State)
    requires RespectsVeto(env) && QuietHandlers(env)
    requires CancelSeen in xs ==> IsCanceled(sent.err) && sent.retryable == Some(false)
    ensures var a := Judge(env, k, xs, sent);
            CancelReported(a.events, a.outcome)
  {
    assert sent.(err := sent.err, retryable := sent.retryable) == sent;
    AfterRetryEvents(env, sent, k);
  }

  lemma AttemptReports(env: Env, s: State)
    requires RespectsVeto(env) && QuietHandlers(env)
    ensures CancelReported(AttemptStep(env, s).events, AttemptStep(env, s).outcome)
  {
    hide SignStep, SendRequestStep, Judge, RespectsVeto;
    var signed := SignStep(env, s.(err := E.Nil));
    SignEvents(env, s.(err := E.Nil));
    SigningCountsNothing(env, s.(err := E.Nil));
    if signed.s.err == E.Nil {
      var (sent, sendErr) := SendRequestStep(env, signed.s);
      SendRequestEvents(env, signed.s);
      FailedAttempt(env, signed.s);
      if sendErr != E.Nil {
        JudgedCancelShows(env, s.attempts, signed.events + sent.events, sent.s);
      }
    }
  }

  lemma {:induction false} LoopReports(turn: State -> Attempt, s: State, limit: nat)
    requires (forall s :: CancelReported(turn(s).events, turn(s).outcome)) && Loop(turn, s, limit).Some?
    ensures CancelReported(Loop(turn, s, limit).value.events, Return(Loop(turn, s, limit).value.ret))
    decreases limit
  {
    var a := turn(s);
    assert CancelReported(a.events, a.outcome);
    if a.outcome == Again {
      LoopReports(turn, a.s, limit - 1);
    }
  }

  /** With the default retryer and handlers, a `Send` that observes a cancellation returns an error that says so. */
  lemma CancellationIsReported(env: Env, c: Client, s: State, limit: nat)
    requires UsesDefaultRetryer(env, c) && QuietHandlers(env)
    requires SendWithin(env, s, limit).Some?
    ensures var run := SendWithin(env, s, limit).value;
            CancelSeen in run.events ==> IsCanceled(run.ret)
  {
    QuietHandlersKeepVeto(env);
    DefaultRespectsVeto(env, c);
    if s.err == E.Nil {
      forall s
        ensures CancelReported(Turn(env)(s).events, Turn(env)(s).outcome)
      {
        AttemptReports(env, s);
      }
      LoopReports(Turn(env), s.(attempts := 0), limit);
    }
  }

  // ---------------------------------------------------------------- answers

  /** Response handlers beyond the default one do nothing. */
  ghost predicate QuietResponse(env: Env) {
    && (forall k, e, status :: env.unmarshalMeta(k, e, status) == (e, status) == env.validateResponse(k, e, status))
    && (forall k, e, status :: env.unmarshal(k, e, status) == (e, status) == env.unmarshalError(k, e, status))
  }

  /** The attempt `k` is answered with a status below 300 that is not 0, and its signature is valid or was renewed. */
  predicate WellAnswered(env: Env, k: nat) {
    && (env.resign(k).None? || env.resign(k).value == E.Nil)
    && match env.transport(k)
       case Responded(status) => status != 0 && status < 300
       case BadRedirect(status) => status != 0 && status < 300
       case Failed(_, _) => false
  }

  lemma StatusDecides(env: Env, s: State)
    requires QuietResponse(env) && s.err == E.Nil
    ensures SendRequestStep(env, s).1 == E.Nil <==> WellAnswered(env, s.attempts)
  {
    var sent := TransportStep(env, s.(retryable := None)).s;
    assert sent.err == E.Nil ==> ResponseStep(env, sent).s.err == ValidateStatus(sent).err;
  }

  /** A turn that makes an attempt returns nil exactly when it is well answered; one that makes none does not. */
  predicate AnswerShown(env: Env, s: State, a: Attempt) {
    if a.s.attempts == s.attempts then a.outcome.Return? && a.outcome.err != E.Nil
    else a.s.attempts == s.attempts + 1 && (a.outcome == Return(E.Nil) <==> WellAnswered(env, s.attempts))
  }

  lemma JudgeKeepsFailure(env: Env, k: nat, xs: seq<Event>, sent: State)
    requires QuietHandlers(env) && sent.err != E.Nil
    ensures var a := Judge(env, k, xs, sent);
            a.outcome != Return(E.Nil) && a.s.attempts == sent.attempts
  {
  }

  lemma AttemptAnswer(env: Env, s: State)
    requires QuietResponse(env) && QuietHandlers(env)
    ensures AnswerShown(env, s, AttemptStep(env, s))
  {
    hide SignStep, SendRequestStep, Judge, QuietResponse;
    var signed := SignStep(env, s.(err := E.Nil));
    SigningCountsNothing(env, s.(err := E.Nil));
    if signed.s.err == E.Nil {
      var (sent, sendErr) := SendRequestStep(env, signed.s);
      FailedAttempt(env, signed.s);
      StatusDecides(env, signed.s);
      if sendErr != E.Nil {
        JudgeKeepsFailure(env, s.attempts, signed.events + sent.events, sent.s);
      }
    }
  }

  /** Of the attempts from `first` on only the last can have been well answered, and it was if nil is returned. */
  predicate OnlyLastWellAnswered(env: Env, first: nat, attempts: nat, ret: Error) {
    && first <= attempts && (ret == E.Nil ==> first < attempts)
    && forall k | first <= k < attempts :: WellAnswered(env, k) <==> k == attempts - 1 && ret == E.Nil
  }

  lemma {:induction false} LoopAnswer(env: Env, turn: State -> Attempt, s: State, limit: nat)
    requires (forall s :: AnswerShown(env, s, turn(s))) && Loop(turn, s, limit).Some?
    ensures var run := Loop(turn, s, limit).value;
            OnlyLastWellAnswered(env, s.attempts, run.s.attempts, run.ret)
    decreases limit
  {
    var a := turn(s);
    assert AnswerShown(env, s, a);
    if a.outcome == Again {
      LoopAnswer(env, turn, a.s, limit - 1);
    }
  }

  /**
   With the default handlers alone, `Send` returns nil if and only if some attempt was answered with a status below
   300 that is not 0; that attempt is the last.
   */
  lemma NilMeansWellAnswered(env: Env, s: State, limit: nat)
    requires QuietResponse(env) && QuietHandlers(env) && s.err == E.Nil && SendWithin(env, s, limit).Some?
    ensures var run := SendWithin(env, s, limit).value;
            && OnlyLastWellAnswered(env, 0, run.s.attempts, run.ret)
            && (run.ret == E.Nil <==> exists k | 0 <= k < run.s.attempts :: WellAnswered(env, k))
  {
    hide AttemptStep, Loop, QuietResponse, QuietHandlers, WellAnswered;
    forall s
      ensures AnswerShown(env, s, Turn(env)(s))
    {
      AttemptAnswer(env, s);
    }
    LoopAnswer(env, Turn(env), s.(attempts := 0), limit);
    var run := SendWithin(env, s, limit).value;
    assert run.ret == E.Nil ==> WellAnswered(env, run.s.attempts - 1);
  }

  // ---------------------------------------------------------------- retries

  /** An error code on which the default retryer retries whatever the status: request, throttling and expiry errors. */
  predicate RetriedCode(c: Client, code: string) {
    || code in {"RequestTimeout", "ResponseTimeout", "RequestTimeoutException"}
    || code in {"ExpiredToken", "ExpiredTokenException", "RequestExpired"}
    || code in {"ProvisionedThroughputExceededException", "ThrottledException", "Throttling", "ThrottlingException",
                "RequestLimitExceeded", "RequestThrottled", "RequestThrottledException", "TooManyRequestsException",
                "PriorRequestNotComplete", "TransactionInProgressException", "EC2ThrottledException"}
    || code in c.retryErrorCodes || code in c.throttleErrorCodes
  }

  /** A status on which it retries whatever the error. */
  predicate RetriedStatus(status: Option<int>) { status.Some? && status.value in {429, 500, 502, 503, 504} }

  /**
   What the default retryer answers for a service error without a cause, unless a handler has settled it: it retries
   exactly on the statuses and codes listed, and on a request error.
   */
  lemma ServiceErrorIsRetriedExactlyWhen(c: Client, s: State, code: string, message: string)
    requires c.retryer.numMaxRetries != 0 && s.retryable.None? && s.err == E.New(code, message, E.Nil)
    ensures E.Unrolls(s.err)
    ensures ShouldRetry(c, s) <==> RetriedStatus(s.status) || RetriedCode(c, code) || code == E.REQUEST_ERROR
  {
    assert E.Code(s.err.aws) == code && E.OrigErr(s.err.aws) == E.Nil;
    assert E.Splittable(s.err.aws);
  }

  /** For any error that the classifier finishes with, such a status or code is enough. */
  lemma ListedIsRetried(c: Client, s: State)
    requires c.retryer.numMaxRetries != 0 && s.retryable.None? && E.Unrolls(s.err)
    requires RetriedStatus(s.status) || (s.err.Aws? && RetriedCode(c, E.Code(s.err.aws)))
    ensures ShouldRetry(c, s)
  {
    if s.err.Aws? {
      E.UnrollDropsOrRepeats(s.err.aws);
    }
  }

  /** Nothing but the answers stands in the way of an attempt: handlers, signing, waiting, rewinding. */
  ghost predicate NothingElseFails(env: Env) {
    && QuietHandlers(env)
    && (forall k :: env.bodyCanBeResent(k) && !env.doneAtSleep(k) && env.bodySeek(k) == E.Nil)
    && env.validate(E.Nil) == E.Nil && env.build(E.Nil) == E.Nil
    && (forall k :: env.sign(k, E.Nil) == E.Nil && env.resign(k) == None)
  }

  /** An attempt that fails with an error of the service, or a status, that the default retryer retries on. */
  predicate FailsRetryably(env: Env, c: Client, s: State) {
    var (sent, sendErr) := SendRequestStep(env, SignStep(env, s.(err := E.Nil)).s);
    && sendErr != E.Nil && sent.s.retryable.None? && E.Unrolls(sendErr)
    && (RetriedStatus(sent.s.status) || (sendErr.Aws? && RetriedCode(c, E.Code(sendErr.aws))))
  }

  lemma RetryableJudgement(env: Env, c: Client, k: nat, xs: seq<Event>, sent: State)
    requires UsesDefaultRetryer(env, c) && NothingElseFails(env)
    requires sent.err != E.Nil && sent.retryable.None? && E.Unrolls(sent.err)
    requires RetriedStatus(sent.status) || (sent.err.Aws? && RetriedCode(c, E.Code(sent.err.aws)))
    requires sent.retryCount < env.retryer.maxRetries
    ensures Judge(env, k, xs, sent).outcome == Again
  {
    hide RetriedStatus, RetriedCode, E.Unrolls;
    assert sent.(err := sent.err, retryable := sent.retryable) == sent;
    if c.retryer.numMaxRetries != 0 {
      ListedIsRetried(c, sent);
      assert env.retryer.shouldRetry(k, sent);
    }
  }

  lemma NothingFailsInSigning(env: Env, s: State)
    requires NothingElseFails(env)
    ensures SignStep(env, s.(err := E.Nil)).s.err == E.Nil
  {
  }

  /**
   With the default retryer and handlers, an attempt that fails retryably while a retry is left is followed by another.
   */
  lemma RetryableFailureIsRetried(env: Env, c: Client, s: State)
    requires UsesDefaultRetryer(env, c) && NothingElseFails(env)
    requires s.retryCount < env.retryer.maxRetries && FailsRetryably(env, c, s)
    ensures AttemptStep(env, s).outcome == Again
  {
    hide SignStep, SendRequestStep, Judge, UsesDefaultRetryer, RetriedStatus, RetriedCode, E.Unrolls;
    NothingFailsInSigning(env, s);
    SigningCountsNothing(env, s.(err := E.Nil));
    var signed := SignStep(env, s.(err := E.Nil));
    var (sent, sendErr) := SendRequestStep(env, signed.s);
    FailedAttempt(env, signed.s);
    assert sent.s.err == sendErr;
    RetryableJudgement(env, c, s.attempts, signed.events + sent.events, sent.s);
  }

  /** The server answers every attempt with a status on which the default retryer retries. */
  ghost predicate AlwaysFailing(env: Env) {
    forall k :: env.transport(k).Responded? && RetriedStatus(Some(env.transport(k).status))
  }

  lemma AnsweredFailure(env: Env, s: State)
    requires QuietResponse(env) && QuietHandlers(env) && AlwaysFailing(env)
    requires s.err == E.Nil && env.resign(s.attempts) == None
    ensures var (sent, sendErr) := SendRequestStep(env, s);
            && sendErr == E.New("UnknownError", "unknown error", E.Nil) && E.Unrolls(sendErr)
            && sent.s.retryable.None? && sent.s.status == Some(env.transport(s.attempts).status)
  {
    assert env.transport(s.attempts).Responded? && RetriedStatus(Some(env.transport(s.attempts).status));
  }

  lemma FailingTurn(env: Env, c: Client, s: State)
    requires UsesDefaultRetryer(env, c) && NothingElseFails(env) && QuietResponse(env) && AlwaysFailing(env)
    ensures var a := AttemptStep(env, s);
            && a.s.attempts == s.attempts + 1
            && if s.retryCount < env.retryer.maxRetries then a.outcome == Again && a.s.retryCount == s.retryCount + 1
               else a.outcome == Return(E.New("UnknownError", "unknown error", E.Nil))
  {
    hide SignStep, SendRequestStep, Judge, UsesDefaultRetryer, QuietResponse, E.Unrolls;
    NothingFailsInSigning(env, s);
    SigningCountsNothing(env, s.(err := E.Nil));
    var signed := SignStep(env, s.(err := E.Nil));
    AnsweredFailure(env, signed.s);
    var (sent, sendErr) := SendRequestStep(env, signed.s);
    FailedAttempt(env, signed.s);
    var f := Failure(sendErr, sent.s.retryable);
    JudgeTakesCourse(env, s.attempts, signed.events + sent.events, sent.s, f);
    if s.retryCount < env.retryer.maxRetries {
      assert env.transport(s.attempts).Responded? && RetriedStatus(Some(env.transport(s.attempts).status));
      RetryableFailureIsRetried(env, c, s);
      QuietGoesOnByWaiting(env, s.attempts, Course(f, ChoiceTaken(env, s.attempts, sent.s)));
    } else {
      OutOfRetries(env, s.attempts, signed.events + sent.events, sent.s);
    }
  }

  lemma QuietGoesOnByWaiting(env: Env, k: nat, x: Course)
    requires QuietHandlers(env) && Possible(env, k, x) && EndOf(env, k, x).GoesOn()
    ensures x.choice == WaitDone
  {
  }

  lemma OutOfRetries(env: Env, k: nat, xs: seq<Event>, sent: State)
    requires QuietHandlers(env) && sent.err != E.Nil && sent.retryCount >= env.retryer.maxRetries
    ensures Judge(env, k, xs, sent).outcome == Return(sent.err)
  {
  }

  ghost predicate FailsEveryTurn(turn: State -> Attempt, maxRetries: int) {
    forall s :: var a := turn(s);
      && a.s.attempts == s.attempts + 1
      && if s.retryCount < maxRetries then a.outcome == Again && a.s.retryCount == s.retryCount + 1
         else a.outcome == Return(E.New("UnknownError", "unknown error", E.Nil))
  }

  lemma {:induction false} LoopFails(env: Env, turn: State -> Attempt, s: State, limit: nat)
    requires FailsEveryTurn(turn, env.retryer.maxRetries) && Loop(turn, s, limit).Some?
    ensures var run := Loop(turn, s, limit).value;
            && run.s.attempts == s.attempts + RetriesLeft(env, s) + 1
            && run.ret == E.New("UnknownError", "unknown error", E.Nil)
    decreases limit
  {
    if turn(s).outcome == Again {
      LoopFails(env, turn, turn(s).s, limit - 1);
    }
  }

  /**
   Against a server that answers every attempt with 429, 500, 502, 503 or 504, the default retryer uses up all retries:
   `Send` makes exactly one attempt more than there are retries left, and then returns the error of the last.
   */
  lemma FailingServerIsRetried(env: Env, c: Client, s: State, limit: nat)
    requires UsesDefaultRetryer(env, c) && NothingElseFails(env) && QuietResponse(env) && AlwaysFailing(env)
    requires s.err == E.Nil && SendWithin(env, s, limit).Some?
    ensures var run := SendWithin(env, s, limit).value;
            && run.s.attempts == RetriesLeft(env, s) + 1
            && run.ret == E.New("UnknownError", "unknown error", E.Nil)
  {
    hide AttemptStep, Loop, UsesDefaultRetryer, NothingElseFails, QuietResponse, AlwaysFailing;
    forall s
      ensures var a := Turn(env)(s);
        && a.s.attempts == s.attempts + 1
        && if s.retryCount < env.retryer.maxRetries then a.outcome == Again && a.s.retryCount == s.retryCount + 1
           else a.outcome == Return(E.New("UnknownError", "unknown error", E.Nil))
    {
      FailingTurn(env, c, s);
    }
    LoopFails(env, Turn(env), s.(attempts := 0), limit);
  }

  // ------------------------------------------------------------------- waits

  /** Every Retry-After is within `seconds`, and small enough for the sum to fit. */
  ghost predicate HeadersWithin(c: Client, seconds: int) {
    && 0 <= seconds && B.LongestDelay(c.retryer) + seconds * B.SECOND < B.TWO63
    && forall k :: c.header(k).Seconds? ==> -seconds <= c.header(k).n <= seconds
  }

  ghost predicate NoNegativeHeader(c: Client) { forall k :: c.header(k).Seconds? ==> c.header(k).n >= 0 }

  /** The wait guaranteed after `retryCount` retries. */
  function Guaranteed(d: B.DefaultRetryer, throttled: bool, retryCount: nat): int {
    B.GuaranteedDelay(d.MinDelay(throttled), d.MaxDelay(throttled), retryCount)
  }

  lemma WaitBounds(c: Client, k: nat, r: State, seconds: int)
    requires c.retryer.Valid() && c.retryer.numMaxRetries != 0 && HeadersWithin(c, seconds)
    ensures RetryRules(c, k, r) <= c.retryer.MaxDelay(Throttled(c, r)) + seconds * B.SECOND
    ensures NoNegativeHeader(c) ==> Guaranteed(c.retryer, Throttled(c, r), r.retryCount) <= RetryRules(c, k, r)
  {
    B.DelayBounds(c.retryer, Throttled(c, r), StatusOf(r), c.header(k), r.retryCount, c.chance(k), seconds);
  }

  /** The time slept: a negative duration is no sleep. */
  function SleptTime(sleeps: seq<Event>): nat
    requires forall i | 0 <= i < |sleeps| :: sleeps[i].Sleep?
  {
    if sleeps == [] then 0 else Max(0, sleeps[0].delay) + SleptTime(sleeps[1..])
  }

  lemma {:induction false} SleptAtMost(sleeps: seq<Event>, each: nat)
    requires forall i | 0 <= i < |sleeps| :: sleeps[i].Sleep? && sleeps[i].delay <= each
    ensures SleptTime(sleeps) <= |sleeps| * each
  {
    if sleeps != [] {
      SleptAtMost(sleeps[1..], each);
      assert |sleeps| * each == (|sleeps| - 1) * each + each;
    }
  }

  /**
   For any handlers: each wait of a `Send` lies between the wait guaranteed after as many retries as the request had
   and the longest one with the largest Retry-After, both for how the attempt that failed before it was judged:
   throttled or not.
   */
  lemma WaitsBackOff(env: Env, c: Client, s: State, limit: nat, seconds: int, i: nat)
    requires UsesDefaultRetryer(env, c) && HeadersWithin(c, seconds)
    requires SendWithin(env, s, limit).Some? && i < |Sleeps(SendWithin(env, s, limit).value.events)|
    ensures i < |Waited(env, s, limit)|
    ensures var delay := Sleeps(SendWithin(env, s, limit).value.events)[i].delay;
            var judged := Waited(env, s, limit)[i];
            && delay <= c.retryer.MaxDelay(Throttled(c, judged)) + seconds * B.SECOND
            && (NoNegativeHeader(c) ==> Guaranteed(c.retryer, Throttled(c, judged), judged.retryCount) <= delay)
  {
    hide SendWithin, Waited, HeadersWithin, RetryRules, Guaranteed, NoNegativeHeader, Throttled;
    WaitsAreRuled(env, s, limit);
    var judged := Waited(env, s, limit)[i];
    assert Sleeps(SendWithin(env, s, limit).value.events)[i] == RuledSleep(env, judged);
    WaitBounds(c, judged.attempts - 1, judged, seconds);
  }

  /**
   One `Send` sleeps no longer than its retries left times the longest delay plus the longest Retry-After, unless
   handlers overrule cancelled waits and wait again.
   */
  lemma TotalWait(env: Env, c: Client, s: State, limit: nat, seconds: int, longest: nat)
    requires UsesDefaultRetryer(env, c) && NeverOutwaits(env)
    requires HeadersWithin(c, seconds) && longest == B.LongestDelay(c.retryer) + seconds * B.SECOND
    requires SendWithin(env, s, limit).Some?
    ensures SleptTime(Sleeps(SendWithin(env, s, limit).value.events)) <= RetriesLeft(env, s) * longest
  {
    hide UsesDefaultRetryer, SendWithin, HeadersWithin, NoNegativeHeader, Throttled, Waited, SleptTime, Guaranteed;
    hide NeverOutwaits;
    WaitsAreRuled(env, s, limit);
    WaitsAreCounted(env, s, limit);
    var sleeps := Sleeps(SendWithin(env, s, limit).value.events);
    forall i | 0 <= i < |sleeps|
      ensures sleeps[i].delay <= longest
    {
      WaitsBackOff(env, c, s, limit, seconds, i);
    }
    SleptAtMost(sleeps, longest);
    MulLe(longest, |sleeps|, RetriesLeft(env, s));
  }

  /** The attempts that a run waited for were all throttled, or none was. */
  ghost predicate AllOfOneKind(c: Client, waited: seq<State>, throttled: bool) {
    forall i | 0 <= i < |waited| :: Throttled(c, waited[i]) == throttled
  }

  lemma CountOf(env: Env, waited: seq<State>, s: State, i: nat)
    requires CountedInTurn(env, waited, s) && i < |waited|
    ensures waited[i].retryCount == s.retryCount + i
  {
  }

  lemma KindOf(c: Client, waited: seq<State>, throttled: bool, i: nat)
    requires AllOfOneKind(c, waited, throttled) && i < |waited|
    ensures Throttled(c, waited[i]) == throttled
  {
  }

  lemma UsesValidSettings(env: Env, c: Client)
    requires UsesDefaultRetryer(env, c)
    ensures c.retryer.Valid()
  {
  }

  /**
   While the throttle status stays the same, the waits of a `Send` back off exponentially: what is guaranteed of the
   first is doubled with every further wait, until it reaches half the maximum.
   */
  lemma WaitsDouble(env: Env, c: Client, s: State, limit: nat, seconds: int, throttled: bool, i: nat)
    requires UsesDefaultRetryer(env, c) && NeverOutwaits(env) && HeadersWithin(c, seconds) && NoNegativeHeader(c)
    requires SendWithin(env, s, limit).Some? && i < |Sleeps(SendWithin(env, s, limit).value.events)|
    requires AllOfOneKind(c, Waited(env, s, limit), throttled)
    ensures var delay := Sleeps(SendWithin(env, s, limit).value.events)[i].delay;
            var maxDelay := c.retryer.MaxDelay(throttled);
            Min(Pow2(i) * Guaranteed(c.retryer, throttled, s.retryCount), maxDelay / 2) <= delay
            <= maxDelay + seconds * B.SECOND
  {
    hide *;
    UsesValidSettings(env, c);
    WaitsBackOff(env, c, s, limit, seconds, i);
    WaitsAreCounted(env, s, limit);
    CountOf(env, Waited(env, s, limit), s, i);
    KindOf(c, Waited(env, s, limit), throttled, i);
    GuaranteeDoubles(c.retryer, throttled, s.retryCount, i);
  }

  lemma GuaranteeDoubles(d: B.DefaultRetryer, throttled: bool, retryCount: nat, more: nat)
    requires d.Valid()
    ensures Guaranteed(d, throttled, retryCount + more)
         == Min(Pow2(more) * Guaranteed(d, throttled, retryCount), d.MaxDelay(throttled) / 2)
  {
    B.GuaranteedDelayDoubles(d.MinDelay(throttled), d.MaxDelay(throttled), retryCount, more);
  }

  /** The server answers every attempt with one of the statuses that mean throttling. */
  ghost predicate ThrottlesAll(env: Env) {
    forall k :: env.transport(k).Responded? && env.transport(k).status in {429, 502, 503, 504}
  }

  lemma AnsweredStatus(env: Env, s: State)
    requires QuietResponse(env) && env.transport(s.attempts).Responded?
    ensures SendRequestStep(env, s).0.s.status == Some(env.transport(s.attempts).status)
  {
  }

  lemma ThrottledTurn(env: Env, c: Client, s: State)
    requires QuietResponse(env) && ThrottlesAll(env)
    ensures Throttled(c, JudgedAt(env, s))
  {
    hide SignStep, SendRequestStep;
    var signed := SignStep(env, s.(err := E.Nil)).s;
    SigningCountsNothing(env, s.(err := E.Nil));
    AnsweredStatus(env, signed);
  }

  lemma {:induction false} LoopThrottled(env: Env, c: Client, turn: State -> Attempt, s: State, limit: nat)
    requires QuietResponse(env) && ThrottlesAll(env)
    ensures AllOfOneKind(c, LoopWaited(env, turn, s, limit), true)
    decreases limit
  {
    hide QuietResponse, ThrottlesAll, Throttled, JudgedAt, Sleeps;
    ThrottledTurn(env, c, s);
    if limit > 0 && turn(s).outcome == Again {
      LoopThrottled(env, c, turn, turn(s).s, limit - 1);
    }
  }

  /** Against a server that throttles every attempt, all waits are ruled by the throttle settings and so double. */
  lemma ThrottlingServerIsGivenTime(env: Env, c: Client, s: State, limit: nat, seconds: int, i: nat)
    requires UsesDefaultRetryer(env, c) && NeverOutwaits(env) && HeadersWithin(c, seconds) && NoNegativeHeader(c)
    requires QuietResponse(env) && ThrottlesAll(env)
    requires SendWithin(env, s, limit).Some? && i < |Sleeps(SendWithin(env, s, limit).value.events)|
    ensures Min(Pow2(i) * Guaranteed(c.retryer, true, s.retryCount), c.retryer.MaxDelay(true) / 2)
         <= Sleeps(SendWithin(env, s, limit).value.events)[i].delay
  {
    LoopThrottled(env, c, Turn(env), s.(attempts := 0), limit);
    hide NeverOutwaits, UsesDefaultRetryer, SendWithin, HeadersWithin, NoNegativeHeader, Throttled, Sleeps, Pow2;
    hide LoopWaited;
    WaitsDouble(env, c, s, limit, seconds, true, i);
  }

  lemma JudgedStatus(env: Env, s: State)
    requires QuietResponse(env) && env.transport(s.attempts).Responded?
    ensures JudgedAt(env, s).status == Some(env.transport(s.attempts).status)
  {
    hide SignStep, SendRequestStep;
    SigningCountsNothing(env, s.(err := E.Nil));
    AnsweredStatus(env, SignStep(env, s.(err := E.Nil)).s);
  }

  /** The server answers every attempt with the status. */
  ghost predicate AlwaysAnswers(env: Env, status: int) { forall k :: env.transport(k) == Responded(status) }

  predicate AllOfStatus(waited: seq<State>, status: int) {
    forall i | 0 <= i < |waited| :: waited[i].status == Some(status)
  }

  lemma {:induction false} LoopAnswered(env: Env, turn: State -> Attempt, s: State, limit: nat, status: int)
    requires QuietResponse(env) && AlwaysAnswers(env, status)
    ensures AllOfStatus(LoopWaited(env, turn, s, limit), status)
    decreases limit
  {
    hide QuietResponse, JudgedAt, Sleeps;
    assert env.transport(s.attempts) == Responded(status);
    JudgedStatus(env, s);
    if limit > 0 && turn(s).outcome == Again {
      LoopAnswered(env, turn, turn(s).s, limit - 1, status);
      var rest := LoopWaited(env, turn, turn(s).s, limit - 1);
      assert LoopWaited(env, turn, s, limit) == TurnWaited(env, s, turn(s)) + rest;
    }
  }

  lemma WaitedAnswered(env: Env, s: State, limit: nat, status: int, i: nat)
    requires QuietResponse(env) && AlwaysAnswers(env, status) && i < |Waited(env, s, limit)|
    ensures Waited(env, s, limit)[i].status == Some(status)
  {
    hide QuietResponse, AlwaysAnswers, LoopWaited, AttemptStep;
    LoopAnswered(env, Turn(env), s.(attempts := 0), limit, status);
  }

  lemma RulesOfWait(env: Env, c: Client, s: State, limit: nat, i: nat)
    requires UsesDefaultRetryer(env, c)
    requires SendWithin(env, s, limit).Some? && i < |Sleeps(SendWithin(env, s, limit).value.events)|
    ensures i < |Waited(env, s, limit)| && Waited(env, s, limit)[i].attempts >= 1
    ensures c.retryer.numMaxRetries != 0
    ensures var judged := Waited(env, s, limit)[i];
            Sleeps(SendWithin(env, s, limit).value.events)[i].delay == RetryRules(c, judged.attempts - 1, judged)
  {
    hide SendWithin, Waited, Sleeps, RetryRules;
    WaitsAreRuled(env, s, limit);
    var judged := Waited(env, s, limit)[i];
    assert Sleeps(SendWithin(env, s, limit).value.events)[i] == RuledSleep(env, judged);
    assert judged.retryCount < env.retryer.maxRetries;
  }

  lemma HonouredWait(c: Client, k: nat, r: State, n: nat)
    requires c.retryer.Valid() && c.retryer.numMaxRetries != 0 && HeadersWithin(c, n) && c.header(k) == B.Seconds(n)
    requires r.status == Some(429) || r.status == Some(503)
    ensures RetryRules(c, k, r) >= n * 1_000_000_000 + Guaranteed(c.retryer, true, r.retryCount)
  {
    var d := c.retryer;
    B.HeaderCountsExactlyOn(d, true, StatusOf(r), c.header(k), r.retryCount, c.chance(k));
    B.RetryAfterExact(d, true, StatusOf(r), c.header(k), r.retryCount, c.chance(k));
    B.BackoffBounds(d.MinDelay(true), d.MaxDelay(true), r.retryCount, c.chance(k));
    MulLe(Pow2(r.retryCount), 0, d.MinDelay(true));
    hide B.BackoffDelay, B.GuaranteedDelay, B.ProlongedBy, Pow2;
  }

  /**
   Against a server that answers every attempt with 429 or 503 and a Retry-After of `n` seconds, each wait is at least
   that long, and longer by the backoff.
   */
  lemma RetryAfterIsHonoured(env: Env, c: Client, s: State, limit: nat, status: int, n: nat, i: nat)
    requires UsesDefaultRetryer(env, c) && HeadersWithin(c, n) && (forall k :: c.header(k) == B.Seconds(n))
    requires QuietResponse(env) && (status == 429 || status == 503) && AlwaysAnswers(env, status)
    requires SendWithin(env, s, limit).Some? && i < |Sleeps(SendWithin(env, s, limit).value.events)|
    ensures i < |Waited(env, s, limit)|
    ensures Sleeps(SendWithin(env, s, limit).value.events)[i].delay
         >= n * 1_000_000_000 + Guaranteed(c.retryer, true, Waited(env, s, limit)[i].retryCount)
  {
    hide *;
    UsesValidSettings(env, c);
    RulesOfWait(env, c, s, limit, i);
    WaitedAnswered(env, s, limit, status, i);
    var judged := Waited(env, s, limit)[i];
    HonouredWait(c, judged.attempts - 1, judged, n);
  }
}
