/** Where a `Send` stops: before it sends, and with which error each failure ends. What it leaves in the request. */
module LifecycleErrors {
  import opened Prelude
  import E = Errors
  import opened Lifecycle
  import opened LifecycleGrammar
  import opened LifecycleTermination
  import opened LifecycleOutcomes
  import opened LifecycleWaits

  // ------------------------------------------------------- before it is sent

  /**
   Validation, building and signing are passed in this order or not at all: the first of them to fail ends the run
   with its error, and only a request that passes all three is sent. A failed build is not marked as done.
   */
  lemma OnlySignedRequestsAreSent(env: Env, s: State, limit: nat)
    requires SendWithin(env, s, limit).Some? && s.err == E.Nil
    ensures var run := SendWithin(env, s, limit).value;
            var built := if s.built then [] else [Validate, Build];
            if !s.built && env.validate(E.Nil) != E.Nil then
              run.events == [Validate, Complete] && run.ret == env.validate(E.Nil) && !run.s.built
            else if !s.built && env.build(E.Nil) != E.Nil then
              run.events == [Validate, Build, Complete] && run.ret == env.build(E.Nil) && !run.s.built
            else if env.sign(0, E.Nil) != E.Nil then
              run.events == built + [Sign, Complete] && run.ret == env.sign(0, E.Nil) && run.s.built
            else built + [Sign, Send] <= run.events
  {
    var first := AttemptStep(env, s.(attempts := 0));
    var built := if s.built then [] else [Validate, Build];
    SignedFirst(env, s.(attempts := 0));
    hide AttemptStep;
    if first.outcome == Again {
      PrefixStays(built + [Sign, Send], first.events, SendWithin(env, s, limit).value.events);
    }
  }

  lemma PrefixStays(p: seq<Event>, xs: seq<Event>, ys: seq<Event>)
    ensures p <= xs && xs <= ys ==> p <= ys
  {
  }

  lemma SignedFirst(env: Env, s: State)
    ensures var a := AttemptStep(env, s);
            var built := if s.built then [] else [Validate, Build];
            if !s.built && env.validate(E.Nil) != E.Nil then
              a.events == [Validate] && a.outcome == Return(env.validate(E.Nil)) && !a.s.built
            else if !s.built && env.build(E.Nil) != E.Nil then
              a.events == [Validate, Build] && a.outcome == Return(env.build(E.Nil)) && !a.s.built
            else if env.sign(s.attempts, E.Nil) != E.Nil then
              a.events == built + [Sign] && a.outcome == Return(env.sign(s.attempts, E.Nil)) && a.s.built
            else built + [Sign, Send] <= a.events
  {
    hide SendRequestStep, Judge;
    var signed := SignStep(env, s.(err := E.Nil));
    if signed.s.err == E.Nil {
      var (sent, sendErr) := SendRequestStep(env, signed.s);
      SendRequestEvents(env, signed.s);
      var xs := signed.events + sent.events;
      JudgeExtendsEvents(env, s.attempts, xs, sent.s);
      assert [Send] <= sent.events;
    }
  }

  lemma JudgeExtendsEvents(env: Env, k: nat, xs: seq<Event>, sent: State)
    ensures xs <= Judge(env, k, xs, sent).events
  {
    hide AfterRetryList;
  }

  // -------------------------------------------------------- how it can fail

  function Cause(e: Error): seq<Error> { if e == E.Nil then [] else [e] }

  /**
   The error and the status of the attempt `k`, from what the transport and the response handlers answer: a failed
   send keeps the status of its response, if there was one; the status is judged before any further handler sees it.
   */
  function Answered(env: Env, k: nat): (Error, Option<int>) {
    match env.transport(k)
    case Failed(cause, response) =>
      (if env.doneAtSend(k)
       then E.Aws(E.Base("RequestCanceled", "request context canceled", [E.Plain("context canceled")]))
       else E.Aws(E.Base("RequestError", "send request failed", Cause(cause))),
       if response.Some? then response else Some(0))
    case _ =>
      var code := env.transport(k).status;
      if env.resign(k).Some? && env.resign(k).value != E.Nil then (env.resign(k).value, Some(code))
      else
        var (e, status) := env.unmarshalMeta(k, E.Nil, Some(code));
        var judged := if status.None? || status.value == 0 || status.value >= 300
                      then E.Aws(E.Base("UnknownError", "unknown error", Cause(e))) else e;
        var (invalid, left) := env.validateResponse(k, judged, status);
        if invalid != E.Nil then env.unmarshalError(k, invalid, left) else env.unmarshal(k, E.Nil, left)
  }

  function AttemptError(env: Env, k: nat): Error { Answered(env, k).0 }

  lemma SendRequestAnswers(env: Env, s: State)
    requires s.err == E.Nil
    ensures (SendRequestStep(env, s).1, SendRequestStep(env, s).0.s.status) == Answered(env, s.attempts)
  {
  }

  /** A wait that was cancelled. */
  const WAIT_CANCELED := E.Aws(E.Base("RequestCanceled", "request context canceled", [E.Plain("context canceled")]))

  /** A body that cannot be rewound, for the error that seeking gives. */
  function RewindError(cause: Error): Error {
    E.Aws(E.Base("SerializationError", "failed to prepare body for retry", [
      E.Aws(E.Base("SerializationError", "failed to reset request body", [
        E.Aws(E.Base("SerializationError", "failed to get next request body reader", [cause]))]))]))
  }

  /** How a turn ends whose request is signed, with the default handlers. */
  function TurnEnd(env: Env, s: State): Outcome {
    var k := s.attempts;
    if AttemptError(env, k) == E.Nil then Return(E.Nil)
    else if !WillRetry(env, JudgedAt(env, s), k) then Return(AttemptError(env, k))
    else if env.doneAtSleep(k) then Return(WAIT_CANCELED)
    else if env.bodySeek(k) != E.Nil then Return(RewindError(env.bodySeek(k)))
    else Again
  }

  lemma JudgementReports(env: Env, k: nat, xs: seq<Event>, sent: State)
    requires QuietHandlers(env) && sent.err != E.Nil
    ensures var a := Judge(env, k, xs, sent);
            && (a.outcome.Return? ==> a.s.err == a.outcome.err)
            && a.outcome ==
               if !WillRetry(env, Assessed(env, sent, k), k) then Return(sent.err)
               else if env.doneAtSleep(k) then Return(WAIT_CANCELED)
               else if env.bodySeek(k) != E.Nil then Return(RewindError(env.bodySeek(k)))
               else Again
  {
    assert sent.(err := sent.err, retryable := sent.retryable) == sent;
  }

  /** Every failure is reported with its own code and cause, in the returned error and in the request's. */
  lemma TurnReports(env: Env, s: State)
    requires QuietHandlers(env) && SignStep(env, s.(err := E.Nil)).s.err == E.Nil
    ensures var a := AttemptStep(env, s);
            && a.outcome == TurnEnd(env, s)
            && a.s.attempts == s.attempts + 1 && a.s.status == Answered(env, s.attempts).1
            && (a.outcome.Return? ==> a.s.err == a.outcome.err)
  {
    hide SignStep, SendRequestStep, Judge, Answered, WillRetry;
    SigningCountsNothing(env, s.(err := E.Nil));
    var signed := SignStep(env, s.(err := E.Nil));
    SendRequestAnswers(env, signed.s);
    FailedAttempt(env, signed.s);
    var (sent, sendErr) := SendRequestStep(env, signed.s);
    if sendErr != E.Nil {
      JudgementReports(env, s.attempts, signed.events + sent.events, sent.s);
      JudgeCountsNothing(env, s.attempts, signed.events + sent.events, sent.s);
      assert sent.s.(err := sent.s.err, retryable := sent.s.retryable) == sent.s;
    }
  }

  /** The request is signed in every turn: it is built, or can be, and no signature fails. */
  ghost predicate AlwaysSigned(env: Env) {
    env.validate(E.Nil) == E.Nil && env.build(E.Nil) == E.Nil && forall k :: env.sign(k, E.Nil) == E.Nil
  }

  lemma SignedAlways(env: Env, s: State)
    requires AlwaysSigned(env)
    ensures SignStep(env, s.(err := E.Nil)).s.err == E.Nil
  {
  }

  /** The run ended with attempt `last`: why it returns what it does. */
  predicate EndsWith(env: Env, last: nat, ret: Error) {
    var e := AttemptError(env, last);
    || ret == e
    || (e != E.Nil && env.doneAtSleep(last) && ret == WAIT_CANCELED)
    || (e != E.Nil && env.bodySeek(last) != E.Nil && ret == RewindError(env.bodySeek(last)))
  }

  predicate EndShown(env: Env, s: State, a: Attempt) {
    && a.s.attempts == s.attempts + 1 && a.s.status == Answered(env, s.attempts).1
    && (a.outcome == Again ==> AttemptError(env, s.attempts) != E.Nil)
    && (a.outcome.Return? ==> a.s.err == a.outcome.err && EndsWith(env, s.attempts, a.outcome.err))
  }

  lemma {:induction false} LoopReports(env: Env, turn: State -> Attempt, s: State, limit: nat)
    requires (forall s :: EndShown(env, s, turn(s))) && Loop(turn, s, limit).Some?
    ensures var run := Loop(turn, s, limit).value;
            && run.s.attempts > s.attempts && run.s.err == run.ret
            && run.s.status == Answered(env, run.s.attempts - 1).1
            && EndsWith(env, run.s.attempts - 1, run.ret)
            && forall j | s.attempts <= j < run.s.attempts - 1 :: AttemptError(env, j) != E.Nil
    decreases limit
  {
    hide EndsWith, Answered;
    assert EndShown(env, s, turn(s));
    if turn(s).outcome == Again {
      LoopReports(env, turn, turn(s).s, limit - 1);
    }
  }

  /**
   With any response handlers, and none but the default after an attempt, a run whose request is signed returns the
   error of its last attempt, nil if that succeeded, or that of the wait cancelled or the rewinding failed after it;
   every attempt before had failed. The error of a failed send has the transport's as its cause, and one for the status
   what the response handlers had found before.
   */
  lemma EveryFailureIsReported(env: Env, s: State, limit: nat)
    requires QuietHandlers(env) && AlwaysSigned(env)
    requires s.err == E.Nil && SendWithin(env, s, limit).Some?
    ensures var run := SendWithin(env, s, limit).value;
            && run.s.attempts > 0 && run.s.err == env.complete(run.ret)
            && (run.s.status == Answered(env, run.s.attempts - 1).1
                || (Answered(env, run.s.attempts - 1).1 == None && run.s.status == Some(0)))
            && EndsWith(env, run.s.attempts - 1, run.ret)
            && forall j: nat | j < run.s.attempts - 1 :: AttemptError(env, j) != E.Nil
  {
    hide AttemptStep, Loop, EndsWith, Answered, AlwaysSigned, QuietHandlers;
    forall s
      ensures EndShown(env, s, Turn(env)(s))
    {
      SignedAlways(env, s);
      TurnReports(env, s);
      EndOfTurn(env, s);
    }
    LoopReports(env, Turn(env), s.(attempts := 0), limit);
  }

  lemma EndOfTurn(env: Env, s: State)
    ensures TurnEnd(env, s) == Again ==> AttemptError(env, s.attempts) != E.Nil
    ensures TurnEnd(env, s).Return? ==> EndsWith(env, s.attempts, TurnEnd(env, s).err)
  {
    hide Answered, WillRetry;
  }

  // ------------------------------------------------------- what it leaves

  /** The delay of the last wait. */
  function LastDelay(events: seq<Event>, before: int): int {
    if events == [] then before
    else if events[|events| - 1].Sleep? then events[|events| - 1].delay
    else LastDelay(events[..|events| - 1], before)
  }

  lemma {:induction false} LastDelayConcat(xs: seq<Event>, ys: seq<Event>, before: int)
    ensures LastDelay(xs + ys, before) == LastDelay(ys, LastDelay(xs, before))
    decreases |ys|
  {
    if ys == [] {
      assert xs + ys == xs;
    } else {
      assert (xs + ys)[..|xs + ys| - 1] == xs + ys[..|ys| - 1];
      LastDelayConcat(xs, ys[..|ys| - 1], before);
    }
  }

  lemma {:induction false} NoDelay(events: seq<Event>, before: int)
    requires forall i | 0 <= i < |events| :: !events[i].Sleep?
    ensures LastDelay(events, before) == before
  {
    if events != [] {
      NoDelay(events[..|events| - 1], before);
    }
  }

  lemma AfterRetryDelay(env: Env, s: State, k: nat)
    ensures var after := AfterRetryStep(env, s, k);
            after.s.retryDelay == LastDelay(after.events, s.retryDelay)
  {
    var after := AfterRetryStep(env, s, k);
    if after.events != [] {
      assert after.events[..|after.events|] == after.events;
      LastDelayConcat([after.events[0]], after.events[1..], s.retryDelay);
      NoDelay(after.events[1..], LastDelay([after.events[0]], s.retryDelay));
      assert after.events == [after.events[0]] + after.events[1..];
    }
  }

  lemma SendRequestDelay(env: Env, s: State)
    ensures SendRequestStep(env, s).0.s.retryDelay == s.retryDelay
  {
  }

  lemma SigningDelay(env: Env, s: State)
    ensures SignStep(env, s).s.retryDelay == s.retryDelay
  {
  }

  lemma JudgeDelay(env: Env, k: nat, xs: seq<Event>, sent: State, before: int)
    requires sent.retryDelay == LastDelay(xs, before)
    ensures var a := Judge(env, k, xs, sent);
            a.s.retryDelay == LastDelay(a.events, before)
  {
    hide AfterRetryStep, LastDelay;
    var (err, retryable) := env.retry(k, sent.err, sent.retryable);
    var judging := sent.(err := err, retryable := retryable);
    AfterRetryDelay(env, judging, k);
    NoDelay([Retry, AfterRetry], sent.retryDelay);
    LastDelayConcat(xs, [Retry, AfterRetry], before);
    LastDelayConcat(xs + [Retry, AfterRetry], AfterRetryStep(env, judging, k).events, before);
  }

  lemma TurnDelay(env: Env, s: State)
    ensures var a := AttemptStep(env, s);
            a.s.retryDelay == LastDelay(a.events, s.retryDelay)
  {
    hide SignStep, SendRequestStep, Judge, LastDelay;
    var signed := SignStep(env, s.(err := E.Nil));
    SigningDelay(env, s.(err := E.Nil));
    SigningCountsNothing(env, s.(err := E.Nil));
    SignEvents(env, s.(err := E.Nil));
    NoDelay(signed.events, s.retryDelay);
    if signed.s.err == E.Nil {
      var (sent, sendErr) := SendRequestStep(env, signed.s);
      SendRequestEvents(env, signed.s);
      SendRequestDelay(env, signed.s);
      NoDelay(sent.events, s.retryDelay);
      LastDelayConcat(signed.events, sent.events, s.retryDelay);
      if sendErr != E.Nil {
        JudgeDelay(env, s.attempts, signed.events + sent.events, sent.s, s.retryDelay);
      }
    }
  }

  lemma {:induction false} LoopDelay(turn: State -> Attempt, s: State, limit: nat)
    requires forall s :: turn(s).s.retryDelay == LastDelay(turn(s).events, s.retryDelay)
    requires Loop(turn, s, limit).Some?
    ensures var run := Loop(turn, s, limit).value;
            run.s.retryDelay == LastDelay(run.events, s.retryDelay)
    decreases limit
  {
    hide LastDelay;
    if turn(s).outcome == Again {
      LoopDelay(turn, turn(s).s, limit - 1);
      LastDelayConcat(turn(s).events, Loop(turn, turn(s).s, limit - 1).value.events, s.retryDelay);
    }
  }

  /**
   Whatever the world, a `Send` leaves a status, the delay of its last wait, and the error its Complete handlers make;
   a request that already has an error is only completed, and gives that error back.
   */
  lemma WhatSendLeaves(env: Env, s: State, limit: nat)
    requires SendWithin(env, s, limit).Some?
    ensures var run := SendWithin(env, s, limit).value;
            && run.s.status.Some? && run.s.retryDelay == LastDelay(run.events, s.retryDelay)
            && (s.err != E.Nil ==>
                  && run.events == [Complete] && run.ret == s.err
                  && run.s == s.(err := env.complete(s.err), status := run.s.status)
                  && (s.status.Some? ==> run.s.status == s.status))
  {
    hide AttemptStep, Loop, LastDelay;
    NoDelay([Complete], s.retryDelay);
    assert [] + [Complete] == [Complete];
    if s.err == E.Nil {
      forall s
        ensures Turn(env)(s).s.retryDelay == LastDelay(Turn(env)(s).events, s.retryDelay)
      {
        TurnDelay(env, s);
      }
      LoopDelay(Turn(env), s.(attempts := 0), limit);
      var run := Loop(Turn(env), s.(attempts := 0), limit).value;
      LastDelayConcat(run.events, [Complete], s.retryDelay);
      NoDelay([Complete], run.s.retryDelay);
    }
  }
}
