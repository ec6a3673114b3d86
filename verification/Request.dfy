/**
 The request as the source has it: an object whose fields Build, Sign, `sendRequest`, the default handlers and Send
 update in place. Every method is proved against the step function of module Lifecycle with the same name.
 */
module Requests {
  import opened Prelude
  import E = Errors
  import opened Lifecycle

  class Request {
    var err: Error
    var retryable: Option<bool>
    var retryCount: nat
    var built: bool
    var status: Option<int>
    var retryDelay: int
    /** How many attempts this `Send` has made: the clock that the environment is read by. */
    var attempts: nat
    /** The handler lists run so far. */
    ghost var trace: seq<Event>

    /** `New`: `err` is what parsing the endpoint or setting the empty body left. */
    constructor (err: Error)
      ensures Fields() == State(err, None, 0, false, None, 0, 0) && trace == []
    {
      this.err, retryable, retryCount, built, status, retryDelay, attempts := err, None, 0, false, None, 0, 0;
      trace := [];
    }

    ghost function Fields(): State
      reads this
    {
      State(err, retryable, retryCount, built, status, retryDelay, attempts)
    }

    method Build(env: Env) returns (ret: Error)
      modifies this
      ensures Fields() == BuildStep(env, old(Fields())).s
      ensures trace == old(trace) + BuildStep(env, old(Fields())).events
      ensures ret == err
    {
      if !built {
        err := env.validate(err);
        trace := trace + [Event.Validate];
        if err != E.Nil {
          return err;
        }
        err := env.build(err);
        trace := trace + [Event.Build];
        if err != E.Nil {
          return err;
        }
        built := true;
      }
      return err;
    }

    method Sign(env: Env) returns (ret: Error)
      modifies this
      ensures Fields() == SignStep(env, old(Fields())).s
      ensures trace == old(trace) + SignStep(env, old(Fields())).events
      ensures ret == err
    {
      var _ := Build(env);
      if err != E.Nil {
        return err;
      }
      err := env.sign(attempts, err);
      trace := trace + [Event.Sign];
      return err;
    }

    method HandleSendError(env: Env, cause: Error, response: Option<int>)
      modifies this
      ensures Fields() == SendFailure(env, old(Fields()), cause, response).s
      ensures trace == old(trace) + SendFailure(env, old(Fields()), cause, response).events
    {
      status := if response.Some? then response else Some(0);
      err := E.New(E.REQUEST_ERROR, "send request failed", cause);
      if env.doneAtSend(attempts) {
        err := CANCELED_REQUEST;
        retryable := Some(false);
        trace := trace + [CancelSeen];
      }
    }

    /** The Send handlers: `ValidateReqSigHandler`, then `SendHandler`. */
    method RunSendHandlers(env: Env)
      modifies this
      ensures Fields() == TransportStep(env, old(Fields())).s
      ensures trace == old(trace) + TransportStep(env, old(Fields())).events
    {
      trace := trace + [Event.Send];
      var resigned := env.resign(attempts);
      if resigned.Some? {
        err := resigned.value;
        trace := trace + [Resign];
      }
      match env.transport(attempts) {
        case Responded(code) => status := Some(code);
        case BadRedirect(code) => status := Some(code);
        case Failed(cause, response) => HandleSendError(env, cause, response);
      }
    }

    method RunHandler(handler: ResponseHandler)
      modifies this`err, this`status
      ensures Fields() == HandleResponse(handler, old(Fields()))
    {
      var answer := handler(attempts, err, status);
      err, status := answer.0, answer.1;
    }

    method RunResponseHandlers(env: Env)
      modifies this
      ensures Fields() == ResponseStep(env, old(Fields())).s
      ensures trace == old(trace) + ResponseStep(env, old(Fields())).events
    {
      RunHandler(env.unmarshalMeta);
      trace := trace + [UnmarshalMeta];
      if status.None? || status.value == 0 || status.value >= 300 {
        err := E.New("UnknownError", "unknown error", err);
      }
      RunHandler(env.validateResponse);
      trace := trace + [ValidateResponse];
      if err != E.Nil {
        RunHandler(env.unmarshalError);
        trace := trace + [UnmarshalError];
      } else {
        RunHandler(env.unmarshal);
        trace := trace + [Unmarshal];
      }
    }

    method SendRequest(env: Env) returns (sendErr: Error)
      modifies this
      ensures Fields() == SendRequestStep(env, old(Fields())).0.s
      ensures trace == old(trace) + SendRequestStep(env, old(Fields())).0.events
      ensures sendErr == SendRequestStep(env, old(Fields())).1
    {
      hide TransportStep, ResponseStep;
      retryable := None;
      ghost var s0 := Fields();
      RunSendHandlers(env);
      ghost var sent := TransportStep(env, s0);
      TransportKeeps(env, s0);
      ResponseKeeps(env, sent.s);
      ghost var answer := if err == E.Nil then ResponseStep(env, sent.s).events else [];
      if err == E.Nil {
        RunResponseHandlers(env);
      }
      sendErr := err;
      err := env.completeAttempt(attempts, err);
      trace := trace + [CompleteAttempt];
      assert SendRequestStep(env, old(Fields())).0.events == sent.events + answer + [CompleteAttempt];
      assert trace == old(trace) + (sent.events + answer + [CompleteAttempt]);
      attempts := attempts + 1;
    }

    predicate WillBeRetried(env: Env, k: nat)
      reads this
      ensures WillBeRetried(env, k) == WillRetry(env, Fields(), k)
    {
      env.bodyCanBeResent(k) && err != E.Nil && retryable == Some(true) && retryCount < env.retryer.maxRetries
    }

    method AfterRetryHandler(env: Env, k: nat)
      modifies this
      ensures Fields() == AfterRetryStep(env, old(Fields()), k).s
      ensures trace == old(trace) + AfterRetryStep(env, old(Fields()), k).events
    {
      if retryable.None? || env.enforceShouldRetryCheck {
        retryable := Some(env.retryer.shouldRetry(
                            k, State(err, retryable, retryCount, built, status, retryDelay, attempts)));
      }
      if WillBeRetried(env, k) {
        retryDelay := env.retryer.retryRules(
          k, State(err, retryable, retryCount, built, status, retryDelay, attempts));
        trace := trace + [Sleep(retryCount, retryDelay)];
        if env.doneAtSleep(k) {
          err := CANCELED_REQUEST;
          retryable := Some(false);
          trace := trace + [CancelSeen];
          return;
        }
        if E.IsErrorExpired(err) {
          trace := trace + [ExpireCredentials];
        }
        retryCount := retryCount + 1;
        err := E.Nil;
      }
    }

    /** The AfterRetry list: the default handler and those that were added after it. */
    method RunAfterRetry(env: Env, k: nat)
      modifies this
      ensures Fields() == AfterRetryList(env, old(Fields()), k).s
      ensures trace == old(trace) + AfterRetryList(env, old(Fields()), k).events
    {
      hide AfterRetryStep;
      AfterRetryHandler(env, k);
      var answer := env.afterRetry(k, err, retryable);
      err, retryable := answer.0, answer.1;
    }

    /** One turn of the loop in `Send`; `again` is false when the source returns from inside it. */
    method TakeTurn(env: Env) returns (again: bool, ret: Error)
      modifies this
      ensures Fields() == AttemptStep(env, old(Fields())).s
      ensures trace == old(trace) + AttemptStep(env, old(Fields())).events
      ensures AttemptStep(env, old(Fields())).outcome == if again then Again else Return(ret)
    {
      hide SignStep, SendSigned;
      err := E.Nil;
      ghost var s0 := Fields();
      var signErr := Sign(env);
      if signErr != E.Nil {
        return false, signErr;
      }
      SendSignedPrefix(env, SignStep(env, s0).events, Fields());
      again, ret := SendAndJudge(env);
    }

    method TakeTurnBy(env: Env, ghost turn: State -> Attempt) returns (again: bool, ret: Error)
      requires IsTurn(env, turn)
      modifies this
      ensures Fields() == turn(old(Fields())).s
      ensures trace == old(trace) + turn(old(Fields())).events
      ensures turn(old(Fields())).outcome == if again then Again else Return(ret)
    {
      again, ret := TakeTurn(env);
    }

    /** The rest of a turn whose request is signed. */
    method SendAndJudge(env: Env) returns (again: bool, ret: Error)
      modifies this
      ensures Fields() == SendSigned(env, [], old(Fields())).s
      ensures trace == old(trace) + SendSigned(env, [], old(Fields())).events
      ensures SendSigned(env, [], old(Fields())).outcome == if again then Again else Return(ret)
    {
      hide SendRequestStep, Judge;
      ghost var s0 := Fields();
      var k := attempts;
      var sendErr := SendRequest(env);
      if sendErr == E.Nil {
        return false, E.Nil;
      }
      JudgePrefix(env, k, [] + SendRequestStep(env, s0).0.events, Fields());
      again, ret := JudgeFailure(env, k);
    }

    /** The rest of a turn whose `sendRequest` failed. */
    method JudgeFailure(env: Env, k: nat) returns (again: bool, ret: Error)
      modifies this
      ensures Fields() == Judge(env, k, [], old(Fields())).s
      ensures trace == old(trace) + Judge(env, k, [], old(Fields())).events
      ensures Judge(env, k, [], old(Fields())).outcome == if again then Again else Return(ret)
    {
      hide AfterRetryList, PrepareRetryError;
      var judged := env.retry(k, err, retryable);
      err, retryable := judged.0, judged.1;
      trace := trace + [Event.Retry];
      trace := trace + [AfterRetry];
      RunAfterRetry(env, k);
      if err != E.Nil || retryable != Some(true) {
        return false, err;
      }
      err := PrepareRetryError(env, k);
      if err != E.Nil {
        return false, err;
      }
      return true, E.Nil;
    }

    /**
     `Send` on a request and in a world where it returns, `limit` being a bound on the turns of its loop: the fields,
     the trace and the returned error are those of the specification.
     */
    method Send(env: Env, ghost limit: nat) returns (ret: Error)
      requires SendWithin(env, Fields(), limit).Some?
      modifies this
      ensures var run := SendWithin(env, old(Fields()), limit).value;
              Fields() == run.s && trace == old(trace) + run.events && ret == run.ret
    {
      hide AttemptStep, Loop, FinishState;
      if err != E.Nil {
        ret := err;
        Complete(env);
        return;
      }
      attempts := 0;
      EveryTurn(env);
      ret := TurnUntilDone(env, Turn(env), limit);
      Complete(env);
    }

    /** The loop of `Send`; `turn` is one turn of it. */
    method TurnUntilDone(env: Env, ghost turn: State -> Attempt, ghost limit: nat) returns (ret: Error)
      requires IsTurn(env, turn) && Loop(turn, Fields(), limit).Some?
      modifies this
      ensures var run := Loop(turn, old(Fields()), limit).value;
              Fields() == run.s && trace == old(trace) + run.events && ret == run.ret
    {
      hide AttemptStep, Loop, Prefixed;
      PrefixedByNothing(Loop(turn, Fields(), limit));
      ret := E.Nil;
      ghost var left := limit;
      ghost var done: seq<Event> := [];
      var again := true;
      while again
        invariant trace == old(trace) + done
        invariant again ==>
                    && Loop(turn, Fields(), left).Some?
                    && Loop(turn, old(Fields()), limit) == Prefixed(done, Loop(turn, Fields(), left))
        invariant !again ==> Loop(turn, old(Fields()), limit) == Some(Run(Fields(), done, ret))
        decreases if again then 1 + left else 0
      {
        ghost var s := Fields();
        again, ret := TakeTurnBy(env, turn);
        TurnUnfolds(turn, s, left, done, turn(s));
        done := done + turn(s).events;
        left := left - 1;
      }
    }

    /** The deferred function of `Send`. */
    method Complete(env: Env)
      modifies this
      ensures Fields() == FinishState(env, old(Fields()))
      ensures trace == old(trace) + [Event.Complete]
    {
      if status.None? {
        status := Some(0);
      }
      err := env.complete(err);
      trace := trace + [Event.Complete];
    }
  }

  function Prefixed(done: seq<Event>, rest: Option<Run>): Option<Run> {
    match rest
    case None => None
    case Some(run) => Some(run.(events := done + run.events))
  }

  lemma PrefixedByNothing(rest: Option<Run>)
    ensures Prefixed([], rest) == rest
  {
    if rest.Some? {
      assert [] + rest.value.events == rest.value.events;
    }
  }

  /** `turn` is one turn of the loop in `Send`. */
  ghost predicate IsTurn(env: Env, turn: State -> Attempt) {
    forall s {:trigger AttemptStep(env, s)} :: turn(s) == AttemptStep(env, s)
  }

  lemma EveryTurn(env: Env)
    ensures IsTurn(env, Turn(env))
  {
  }

  lemma JudgePrefix(env: Env, k: nat, xs: seq<Event>, s: State)
    ensures Judge(env, k, xs, s) == Judge(env, k, [], s).(events := xs + Judge(env, k, [], s).events)
  {
    var (err, retryable) := env.retry(k, s.err, s.retryable);
    var after := AfterRetryList(env, s.(err := err, retryable := retryable), k);
    assert xs + [Retry, AfterRetry] + after.events == xs + ([] + [Retry, AfterRetry] + after.events);
  }

  lemma SendSignedPrefix(env: Env, xs: seq<Event>, s: State)
    ensures SendSigned(env, xs, s)
         == SendSigned(env, [], s).(events := xs + SendSigned(env, [], s).events)
  {
    hide SendRequestStep, Judge;
    var (sent, sendErr) := SendRequestStep(env, s);
    assert xs + ([] + sent.events) == xs + sent.events;
    JudgePrefix(env, s.attempts, xs + sent.events, sent.s);
    JudgePrefix(env, s.attempts, [] + sent.events, sent.s);
  }

  /** What a turn at `s` means for the rest of the loop. */
  lemma TurnUnfolds(turn: State -> Attempt, s: State, left: nat, done: seq<Event>, a: Attempt)
    requires turn(s) == a && Loop(turn, s, left).Some?
    ensures left >= 1
    ensures if a.outcome == Again then
              && Loop(turn, a.s, left - 1).Some?
              && Prefixed(done, Loop(turn, s, left)) == Prefixed(done + a.events, Loop(turn, a.s, left - 1))
            else Prefixed(done, Loop(turn, s, left)) == Some(Run(a.s, done + a.events, a.outcome.err))
  {
    if a.outcome == Again {
      var rest := Loop(turn, a.s, left - 1).value;
      assert done + (a.events + rest.events) == done + a.events + rest.events;
    }
  }
}
