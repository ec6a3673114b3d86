/** What a `Send` returns, and what error it leaves. */
module LifecycleOutcomes {
  import opened Prelude
  import E = Errors
  import opened Lifecycle
  import opened LifecycleGrammar
  import opened LifecycleTermination

  // ----------------------------------------------------------------- events

  /** The last thing before Complete was the end of an attempt: it was not handed to the retry handlers. */
  predicate EndsInAttempt(events: seq<Event>) { events != [] && events[|events| - 1] == CompleteAttempt }

  lemma SignEvents(env: Env, s: State)
    ensures var signed := SignStep(env, s);
            && (s.err == E.Nil ==> signed.events != [])
            && (forall i | 0 <= i < |signed.events| :: signed.events[i] in {Validate, Build, Sign})
  {
  }

  /** Send comes first and once, and a cancellation that is seen is the error left. */
  lemma TransportEvents(env: Env, s: State)
    ensures var sent := TransportStep(env, s);
            && sent.events != [] && sent.events[0] == Send
            && (forall i | 1 <= i < |sent.events| :: sent.events[i] in {Resign, CancelSeen})
            && (CancelSeen in sent.events ==> sent.s.err == CANCELED_REQUEST && sent.s.retryable == Some(false))
  {
  }

  lemma ResponseEvents(env: Env, s: State)
    ensures var events := ResponseStep(env, s).events;
            forall i | 0 <= i < |events| :: events[i] in {UnmarshalMeta, ValidateResponse, Unmarshal, UnmarshalError}
  {
  }

  /** The events of one `sendRequest`: Send comes first and once, CompleteAttempt last, and nothing sleeps. */
  lemma SendRequestEvents(env: Env, s: State)
    ensures var (sent, sendErr) := SendRequestStep(env, s);
            && EndsInAttempt(sent.events) && sent.events[0] == Send
            && (forall i | 1 <= i < |sent.events| :: sent.events[i] != Send && !sent.events[i].Sleep?)
            && (CancelSeen in sent.events ==> sendErr == CANCELED_REQUEST && sent.s.retryable == Some(false))
  {
    hide TransportStep, ResponseStep;
    var s0 := s.(retryable := None);
    TransportEvents(env, s0);
    ResponseEvents(env, TransportStep(env, s0).s);
  }

  // ---------------------------------------------------------------- results

  /** How the outcome of one turn shows in its events and in the error it leaves. */
  predicate ResultShown(env: Env, a: Attempt) {
    && a.events != []
    && (a.outcome != Again ==>
          if EndsInAttempt(a.events)
          then a.outcome == Return(E.Nil) && a.s.attempts >= 1
               && a.s.err == env.completeAttempt(a.s.attempts - 1, E.Nil)
          else a.s.err == a.outcome.err)
  }

  lemma JudgeResult(env: Env, k: nat, xs: seq<Event>, sent: State)
    ensures ResultShown(env, Judge(env, k, xs, sent))
    ensures !EndsInAttempt(Judge(env, k, xs, sent).events)
  {
    var (err, retryable) := env.retry(k, sent.err, sent.retryable);
    AfterRetryEvents(env, sent.(err := err, retryable := retryable), k);
  }

  lemma AttemptResult(env: Env, s: State)
    ensures ResultShown(env, AttemptStep(env, s))
  {
    hide SignStep, SendRequestStep, Judge;
    var signed := SignStep(env, s.(err := E.Nil));
    SignEvents(env, s.(err := E.Nil));
    if signed.s.err == E.Nil {
      var (sent, sendErr) := SendRequestStep(env, signed.s);
      SendRequestEvents(env, signed.s);
      FailedAttempt(env, signed.s);
      SigningCountsNothing(env, s.(err := E.Nil));
      if sendErr != E.Nil {
        JudgeResult(env, s.attempts, signed.events + sent.events, sent.s);
      }
    }
  }

  ghost predicate TurnResult(env: Env, turn: State -> Attempt) {
    forall s :: ResultShown(env, turn(s))
  }

  lemma EveryTurnResult(env: Env)
    ensures TurnResult(env, Turn(env))
  {
    forall s
      ensures ResultShown(env, Turn(env)(s))
    {
      AttemptResult(env, s);
    }
  }

  lemma LastOfRest(xs: seq<Event>, ys: seq<Event>)
    requires ys != []
    ensures EndsInAttempt(xs + ys) <==> EndsInAttempt(ys)
  {
    assert (xs + ys)[|xs + ys| - 1] == ys[|ys| - 1];
  }

  lemma {:induction false} LoopResult(env: Env, turn: State -> Attempt, s: State, limit: nat)
    requires TurnResult(env, turn)
    requires Loop(turn, s, limit).Some?
    ensures var run := Loop(turn, s, limit).value;
            ResultShown(env, Attempt(run.s, run.events, Return(run.ret)))
    decreases limit
  {
    var a := turn(s);
    assert ResultShown(env, a);
    if a.outcome == Again {
      LoopResult(env, turn, a.s, limit - 1);
      LastOfRest(a.events, Loop(turn, a.s, limit - 1).value.events);
    }
  }

  /** The events of a run without the Complete that ends it. */
  function BeforeComplete(run: Run): seq<Event>
    requires run.events != []
  {
    run.events[..|run.events| - 1]
  }

  lemma CompleteEndsTheLoop(env: Env, s: State, limit: nat)
    requires s.err == E.Nil && SendWithin(env, s, limit).Some?
    ensures var inner := Loop(Turn(env), s.(attempts := 0), limit);
            var run := SendWithin(env, s, limit).value;
            && inner.Some? && run == Finish(env, inner.value)
            && run.events != [] && BeforeComplete(run) == inner.value.events
  {
    hide Loop, AttemptStep;
    var inner := Loop(Turn(env), s.(attempts := 0), limit).value;
    assert (inner.events + [Complete])[..|inner.events|] == inner.events;
  }

  /**
   The error a request is left with, for any handlers: the Complete handlers act on the returned error, unless the
   last attempt succeeded, when they act on what the CompleteAttempt handlers made of no error.
   */
  lemma FinalError(env: Env, s: State, limit: nat)
    requires SendWithin(env, s, limit).Some?
    ensures var run := SendWithin(env, s, limit).value;
            && run.events != []
            && (if s.err == E.Nil && EndsInAttempt(BeforeComplete(run))
                then run.s.attempts >= 1
                  && run.s.err == env.complete(env.completeAttempt(run.s.attempts - 1, E.Nil))
                  && run.ret == E.Nil
                else run.s.err == env.complete(run.ret))
  {
    hide Loop, AttemptStep;
    if s.err == E.Nil {
      EveryTurnResult(env);
      LoopResult(env, Turn(env), s.(attempts := 0), limit);
      CompleteEndsTheLoop(env, s, limit);
    }
  }

  /**
   With CompleteAttempt handlers that do not turn success into failure, the returned error is the request's error
   if and only if the Complete handlers leave that error alone.
   */
  lemma ReturnedErrorIsRequestError(env: Env, s: State, limit: nat)
    requires SendWithin(env, s, limit).Some?
    requires forall k :: env.completeAttempt(k, E.Nil) == E.Nil
    ensures var run := SendWithin(env, s, limit).value;
            run.s.err == run.ret <==> env.complete(run.ret) == run.ret
  {
    FinalError(env, s, limit);
  }

  // --------------------------------------------------------- what nil means

  /** Once attempting, nil was returned if and only if the last attempt succeeded: nothing ran after it but Complete. */
  predicate NilMeansSuccess(run: Run) {
    run.events != [] && (run.ret == E.Nil <==> EndsInAttempt(BeforeComplete(run)))
  }

  /** The failure is cleared although the request is not sent again: `Send` then returns nil. */
  predicate Hides(env: Env, k: nat, x: Course) {
    Possible(env, k, x) && EndOf(env, k, x).err == E.Nil && !EndOf(env, k, x).GoesOn()
  }

  lemma QuietHandlersNeverHide(env: Env, k: nat, x: Course)
    requires QuietHandlers(env)
    ensures !Hides(env, k, x)
  {
  }

  /** Some run may get to the attempt `k` and have its failure hidden. */
  ghost predicate CanHideAt(env: Env, k: nat) { CanReach(env, k) && exists x :: Hides(env, k, x) }

  ghost predicate NilShown(env: Env, s: State, a: Attempt) {
    a.outcome == Return(E.Nil) ==> EndsInAttempt(a.events) || exists x :: Hides(env, s.attempts, x)
  }

  lemma JudgeNil(env: Env, k: nat, xs: seq<Event>, sent: State, f: Failure)
    requires f.Possible() && sent.err == env.completeAttempt(k, f.err) && sent.retryable == f.retryable
    ensures Judge(env, k, xs, sent).outcome == Return(E.Nil) ==> exists x :: Hides(env, k, x)
  {
    hide Judge, ChoiceTaken, EndOf, Possible;
    JudgeTakesCourse(env, k, xs, sent, f);
    if Judge(env, k, xs, sent).outcome == Return(E.Nil) {
      assert Hides(env, k, Course(f, ChoiceTaken(env, k, sent)));
    }
  }

  lemma AttemptNil(env: Env, s: State)
    ensures NilShown(env, s, AttemptStep(env, s))
  {
    hide SignStep, SendRequestStep, Judge, Hides;
    var signed := SignStep(env, s.(err := E.Nil));
    SigningCountsNothing(env, s.(err := E.Nil));
    if signed.s.err == E.Nil {
      var (sent, sendErr) := SendRequestStep(env, signed.s);
      FailedAttempt(env, signed.s);
      SendRequestEvents(env, signed.s);
      if sendErr != E.Nil {
        JudgeNil(env, s.attempts, signed.events + sent.events, sent.s, Failure(sendErr, sent.s.retryable));
      } else {
        LastOfRest(signed.events, sent.events);
      }
    }
  }

  lemma {:induction false} LoopNil(env: Env, turn: State -> Attempt, s: State, limit: nat)
    requires TurnAccounted(env, turn) && TurnResult(env, turn) && (forall s :: NilShown(env, s, turn(s)))
    requires CanReach(env, s.attempts) && forall k :: !CanHideAt(env, k)
    requires Loop(turn, s, limit).Some? && Loop(turn, s, limit).value.ret == E.Nil
    ensures EndsInAttempt(Loop(turn, s, limit).value.events)
    decreases limit
  {
    var a := turn(s);
    assert Accounted(env, s, a) && NilShown(env, s, a) && !CanHideAt(env, s.attempts);
    if a.outcome == Again {
      LoopNil(env, turn, a.s, limit - 1);
      LastOfRest(a.events, Loop(turn, a.s, limit - 1).value.events);
    }
  }

  lemma NilMeansSuccessUnlessHidden(env: Env, s: State, limit: nat)
    requires s.err == E.Nil && SendWithin(env, s, limit).Some?
    requires forall k :: !CanHideAt(env, k)
    ensures NilMeansSuccess(SendWithin(env, s, limit).value)
  {
    hide Loop, AttemptStep, CanHideAt;
    FinalError(env, s, limit);
    CompleteEndsTheLoop(env, s, limit);
    if SendWithin(env, s, limit).value.ret == E.Nil {
      EveryTurnAccounted(env);
      EveryTurnResult(env);
      forall s
        ensures NilShown(env, s, Turn(env)(s))
      {
        AttemptNil(env, s);
      }
      LoopNil(env, Turn(env), s.(attempts := 0), limit);
    }
  }

  lemma PlannedSuccess(env: Env, plan: nat -> Course, maxRetries: int, s: State)
    requires plan(s.attempts).failure == Failure(E.Nil, None) && s.err == E.Nil
    ensures SendRequestStep(Planned(env, plan, maxRetries), s).1 == E.Nil
  {
  }

  lemma SuccessfulTurn(env: Env, plan: nat -> Course, maxRetries: int, s: State)
    requires plan(s.attempts).failure == Failure(E.Nil, None)
    ensures var a := AttemptStep(Planned(env, plan, maxRetries), s);
            a.outcome == Return(E.Nil) && Send in a.events
  {
    hide SignStep, SendRequestStep, Planned;
    var world := Planned(env, plan, maxRetries);
    PlannedSigns(env, plan, maxRetries, s.(err := E.Nil));
    var signed := SignStep(world, s.(err := E.Nil));
    PlannedSuccess(env, plan, maxRetries, signed.s);
    SendRequestEvents(world, signed.s);
  }

  /** Runs that go on up to the attempt `n`, which takes the course `x`. */
  ghost function HidingPlan(env: Env, n: nat, x: Course): nat -> Course {
    (k: nat) => if k < n then GoingOn(env, k) else x
  }

  ghost function HidingWorld(env: Env, n: nat, x: Course): Env { Planned(env, HidingPlan(env, n, x), n + 1) }

  lemma HiddenTurn(env: Env, n: nat, x: Course, s: State)
    requires s.attempts == n && s.retryCount <= n && Hides(env, n, x)
    requires ResultShown(HidingWorld(env, n, x), AttemptStep(HidingWorld(env, n, x), s))
    ensures var a := AttemptStep(HidingWorld(env, n, x), s);
            a.outcome == Return(E.Nil) && a.events != [] && !EndsInAttempt(a.events)
  {
    hide AttemptStep, Planned, EndOf, Possible;
    PlannedTurn(env, HidingPlan(env, n, x), n + 1, s);
    FailingTurn(env, HidingPlan(env, n, x), n + 1, s);
  }

  /** A turn whose attempt fails does not end in the attempt. */
  lemma FailingTurn(env: Env, plan: nat -> Course, maxRetries: int, s: State)
    requires Possible(env, s.attempts, plan(s.attempts))
    ensures !EndsInAttempt(AttemptStep(Planned(env, plan, maxRetries), s).events)
  {
    hide SignStep, SendRequestStep, Judge, Planned;
    var world := Planned(env, plan, maxRetries);
    var signed := SignStep(world, s.(err := E.Nil));
    PlannedSigns(env, plan, maxRetries, s.(err := E.Nil));
    var (sent, sendErr) := SendRequestStep(world, signed.s);
    PlannedAttemptFails(env, plan, maxRetries, signed.s);
    JudgeResult(world, s.attempts, signed.events + sent.events, sent.s);
  }

  lemma {:induction false} LoopHides(env: Env, n: nat, x: Course, turn: State -> Attempt, s: State)
    requires CanReach(env, n) && Hides(env, n, x) && turn == Turn(HidingWorld(env, n, x))
    requires s.retryCount <= s.attempts <= n && TurnResult(HidingWorld(env, n, x), turn)
    ensures var run := Loop(turn, s, n - s.attempts + 1);
            run.Some? && run.value.ret == E.Nil && run.value.events != [] && !EndsInAttempt(run.value.events)
    decreases n - s.attempts
  {
    hide AttemptStep, Planned, EndOf, Possible, Hides;
    assert ResultShown(HidingWorld(env, n, x), turn(s));
    if s.attempts < n {
      PlannedTurn(env, HidingPlan(env, n, x), n + 1, s);
      LoopHides(env, n, x, turn, turn(s).s);
      LastOfRest(turn(s).events, Loop(turn, turn(s).s, n - s.attempts).value.events);
    } else {
      HiddenTurn(env, n, x, s);
    }
  }

  /** Where a failure can be hidden, some world returns nil after a failed attempt. */
  lemma SomeWorldHides(env: Env, n: nat) returns (world: Env)
    requires CanHideAt(env, n)
    ensures TreatsFailuresAlike(env, world) && SendWithin(world, NEW_REQUEST, n + 1).Some?
    ensures !NilMeansSuccess(SendWithin(world, NEW_REQUEST, n + 1).value)
  {
    hide Loop, AttemptStep, Hides, MayGoOn, Clears;
    var x :| Hides(env, n, x);
    world := HidingWorld(env, n, x);
    EveryTurnResult(world);
    LoopHides(env, n, x, Turn(world), NEW_REQUEST);
    CompleteEndsTheLoop(world, NEW_REQUEST, n + 1);
  }

  ghost predicate NilAlwaysMeansSuccess(env: Env) {
    forall s: State, limit | s.err == E.Nil && SendWithin(env, s, limit).Some? ::
      NilMeansSuccess(SendWithin(env, s, limit).value)
  }

  lemma HidesAlike(env: Env, world: Env, k: nat)
    requires TreatsFailuresAlike(env, world)
    ensures CanHideAt(world, k) <==> CanHideAt(env, k)
  {
    forall j: nat
      ensures CanGoOn(world, j) <==> CanGoOn(env, j)
    {
      AlikeInAll(env, world, j);
    }
    assert forall x :: Hides(world, k, x) <==> Hides(env, k, x);
  }

  /**
   Whatever the transport, the context, the retryer and all handlers beyond those that `TreatsFailuresAlike` fixes do,
   nil means that the last attempt succeeded, if and only if no run can get to an attempt whose failure can be hidden.
   */
  lemma NilMeansSuccessExactlyWhen(env: Env)
    ensures (forall world | TreatsFailuresAlike(env, world) :: NilAlwaysMeansSuccess(world))
       <==> forall k :: !CanHideAt(env, k)
  {
    hide SendWithin, CanHideAt, TreatsFailuresAlike, NilMeansSuccess;
    if k :| CanHideAt(env, k) {
      var world := SomeWorldHides(env, k);
      assert !NilAlwaysMeansSuccess(world);
    } else {
      forall world | TreatsFailuresAlike(env, world)
        ensures NilAlwaysMeansSuccess(world)
      {
        forall k
          ensures !CanHideAt(world, k)
        {
          HidesAlike(env, world, k);
        }
        forall s: State, limit | s.err == E.Nil && SendWithin(world, s, limit).Some?
          ensures NilMeansSuccess(SendWithin(world, s, limit).value)
        {
          NilMeansSuccessUnlessHidden(world, s, limit);
        }
      }
    }
  }

  /** For handlers that do not count attempts it is enough to look at the first. */
  lemma SteadyHandlersTellExactlyWhen(env: Env)
    requires IgnoresAttempt(env)
    ensures (forall world | TreatsFailuresAlike(env, world) :: NilAlwaysMeansSuccess(world))
       <==> forall x :: !Hides(env, 0, x)
  {
    NilMeansSuccessExactlyWhen(env);
    hide NilAlwaysMeansSuccess, TreatsFailuresAlike;
    forall k, x
      ensures Hides(env, k, x) <==> Hides(env, 0, x)
    {
    }
    if x :| Hides(env, 0, x) {
      assert CanHideAt(env, 0);
    }
  }
}
