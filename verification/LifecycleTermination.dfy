/**
 When `Send` returns. Of everything around the engine only four things decide it: the CompleteAttempt handlers, the
 Retry handlers, the handlers that follow `AfterRetryHandler` in its list, and whether the retryer is asked about
 requests that a handler has settled.
 */
module LifecycleTermination {
  import opened Prelude
  import E = Errors
  import opened Lifecycle

  function RetriesLeft(env: Env, s: State): nat { Max(0, env.retryer.maxRetries - s.retryCount) }

  // ---------------------------------------------- what is made of a failure

  /** A failed attempt, as one list of handlers leaves it to the next. */
  datatype Failure = Failure(err: Error, retryable: Option<bool>) {
    /** What `sendRequest` can end with: any error, or the cancellation that it saw, with its veto. */
    predicate Possible() {
      if retryable.None? then err != E.Nil else retryable == Some(false) && err == CANCELED_REQUEST
    }

    /** What `Send` asks for to go on. */
    predicate GoesOn() { err == E.Nil && retryable.Some? && retryable.value }
  }

  /** The cancellation as `handleSendError` and a cancelled wait leave it: with a veto. */
  const VETOED := Failure(CANCELED_REQUEST, Some(false))

  /**
   What `AfterRetryHandler` does with a failure: it keeps it, the retryer having judged so if it was asked, or it
   waits, and sees the context cancelled or not. Keeping one that is judged retryable means that no retry is left, or
   that the body cannot be sent again.
   */
  datatype Choice = Kept(retry: bool) | WaitCanceled | WaitDone

  /** A failure of an attempt, and what `AfterRetryHandler` does with it. */
  datatype Course = Course(failure: Failure, choice: Choice)

  /** What the CompleteAttempt and Retry handlers make of a failure of the attempt `k`. */
  function Handled(env: Env, k: nat, f: Failure): Failure {
    var (err, retryable) := env.retry(k, env.completeAttempt(k, f.err), f.retryable);
    Failure(err, retryable)
  }

  /** The retryer decides: no handler has settled the question, or that does not count. */
  predicate IsAsked(env: Env, f: Failure) { f.retryable.None? || env.enforceShouldRetryCheck }

  function LeftBy(env: Env, f: Failure, choice: Choice): Failure {
    match choice
    case Kept(retry) => if IsAsked(env, f) then f.(retryable := Some(retry)) else f
    case WaitCanceled => VETOED
    case WaitDone => Failure(E.Nil, Some(true))
  }

  /** What a failure has become when all handlers of the attempt `k` have run. */
  function EndOf(env: Env, k: nat, x: Course): Failure {
    var left := LeftBy(env, Handled(env, k, x.failure), x.choice);
    var (err, retryable) := env.afterRetry(k, left.err, left.retryable);
    Failure(err, retryable)
  }

  /** The failure can occur, and is waited for only if an error is left that may be judged retryable. */
  predicate Possible(env: Env, k: nat, x: Course) {
    var f := Handled(env, k, x.failure);
    x.failure.Possible() && (!x.choice.Kept? ==> f.err != E.Nil && (IsAsked(env, f) || f.retryable.value))
  }

  predicate MayGoOn(env: Env, k: nat, x: Course) { Possible(env, k, x) && EndOf(env, k, x).GoesOn() }

  /** Another attempt may follow although no retry is used up: the failure was cleared by a handler. */
  predicate Clears(env: Env, k: nat, x: Course) { MayGoOn(env, k, x) && x.choice != WaitDone }

  ghost predicate CanGoOn(env: Env, k: nat) { exists x :: MayGoOn(env, k, x) }

  ghost predicate CanClear(env: Env, k: nat) { exists x :: Clears(env, k, x) }

  /** Some run may get as far as the attempt `k`. */
  ghost predicate CanReach(env: Env, k: nat) { forall j: nat | j < k :: CanGoOn(env, j) }

  /** Some run may get to the attempt `k` and have every failure from there on cleared. */
  ghost predicate CanClearFrom(env: Env, k: nat) { CanReach(env, k) && forall j: nat | j >= k :: CanClear(env, j) }

  /** No handler clears a failure, at any attempt. */
  ghost predicate NeverClears(env: Env) { forall k :: !CanClear(env, k) }

  /** Handlers that change nothing, as the empty lists of the default are. */
  ghost predicate QuietHandlers(env: Env) {
    && (forall k, e :: env.completeAttempt(k, e) == e)
    && (forall k, e, r :: env.retry(k, e, r) == (e, r) == env.afterRetry(k, e, r))
  }

  lemma QuietHandlersNeverClear(env: Env)
    requires QuietHandlers(env)
    ensures NeverClears(env)
  {
  }

  // ------------------------------------------------------------------ turns

  lemma FailedAttempt(env: Env, s: State)
    ensures var (sent, sendErr) := SendRequestStep(env, s);
            && sent.s.attempts == s.attempts + 1 && sent.s.retryCount == s.retryCount && sent.s.built == s.built
            && sent.s.err == env.completeAttempt(s.attempts, sendErr)
            && (sendErr != E.Nil ==> Failure(sendErr, sent.s.retryable).Possible())
  {
    hide TransportStep, ResponseStep;
    var s0 := s.(retryable := None);
    TransportKeeps(env, s0);
    ResponseKeeps(env, TransportStep(env, s0).s);
  }

  lemma SigningCountsNothing(env: Env, s: State)
    ensures SignStep(env, s).s.attempts == s.attempts && SignStep(env, s).s.retryCount == s.retryCount
  {
  }

  /** What `AfterRetryHandler` does in this world with the attempt that ended as `sent`. */
  function ChoiceTaken(env: Env, k: nat, sent: State): Choice {
    var (err, retryable) := env.retry(k, sent.err, sent.retryable);
    var judged := Assessed(env, sent.(err := err, retryable := retryable), k);
    if !WillRetry(env, judged, k) then Kept(judged.retryable.Some? && judged.retryable.value)
    else if env.doneAtSleep(k) then WaitCanceled else WaitDone
  }

  /** A failed attempt ends as its course says, and counts a retry exactly if it was waited for. */
  predicate TakesCourse(env: Env, k: nat, sent: State, x: Course, a: Attempt) {
    && Possible(env, k, x)
    && (a.outcome == Again ==> EndOf(env, k, x).GoesOn())
    && (a.outcome == Return(E.Nil) ==> EndOf(env, k, x).err == E.Nil && !EndOf(env, k, x).GoesOn())
    && a.s.attempts == sent.attempts
    && a.s.retryCount == sent.retryCount + (if x.choice == WaitDone then 1 else 0)
    && (!x.choice.Kept? ==> sent.retryCount < env.retryer.maxRetries)
  }

  lemma AfterRetryTakesCourse(env: Env, k: nat, sent: State, judging: State)
    requires env.retry(k, sent.err, sent.retryable) == (judging.err, judging.retryable)
    requires judging == sent.(err := judging.err, retryable := judging.retryable)
    ensures var choice := ChoiceTaken(env, k, sent);
            var f := Failure(judging.err, judging.retryable);
            var after := AfterRetryStep(env, judging, k).s;
            && Failure(after.err, after.retryable) == LeftBy(env, f, choice)
            && (!choice.Kept? ==> f.err != E.Nil && (IsAsked(env, f) || f.retryable.value))
            && after.attempts == sent.attempts
            && after.retryCount == sent.retryCount + (if choice == WaitDone then 1 else 0)
            && (!choice.Kept? ==> sent.retryCount < env.retryer.maxRetries)
  {
    if judging.retryable.Some? {
      assert judging.retryable == Some(judging.retryable.value);
    }
  }

  lemma JudgeTakesCourse(env: Env, k: nat, xs: seq<Event>, sent: State, f: Failure)
    requires f.Possible() && sent.err == env.completeAttempt(k, f.err) && sent.retryable == f.retryable
    ensures TakesCourse(env, k, sent, Course(f, ChoiceTaken(env, k, sent)), Judge(env, k, xs, sent))
  {
    hide AfterRetryStep, ChoiceTaken, LeftBy;
    var (err, retryable) := env.retry(k, sent.err, sent.retryable);
    AfterRetryTakesCourse(env, k, sent, sent.(err := err, retryable := retryable));
    assert Handled(env, k, f) == Failure(err, retryable);
  }

  lemma JudgeCountsNothing(env: Env, k: nat, xs: seq<Event>, sent: State)
    ensures Judge(env, k, xs, sent).s.attempts == sent.attempts && Judge(env, k, xs, sent).s.status == sent.status
  {
  }

  /** A turn that goes on either uses up a retry or has had its failure cleared. */
  ghost predicate Accounted(env: Env, s: State, a: Attempt) {
    a.outcome == Again ==>
      && a.s.attempts == s.attempts + 1 && CanGoOn(env, s.attempts)
      && if a.s.retryCount == s.retryCount then CanClear(env, s.attempts)
         else s.retryCount < env.retryer.maxRetries && a.s.retryCount == s.retryCount + 1
  }

  lemma JudgeAccounted(env: Env, s: State, xs: seq<Event>, sent: State, f: Failure)
    requires f.Possible() && sent.err == env.completeAttempt(s.attempts, f.err) && sent.retryable == f.retryable
    requires sent.attempts == s.attempts + 1 && sent.retryCount == s.retryCount
    ensures Accounted(env, s, Judge(env, s.attempts, xs, sent))
  {
    hide Judge, ChoiceTaken, EndOf, Possible;
    JudgeTakesCourse(env, s.attempts, xs, sent, f);
    var a := Judge(env, s.attempts, xs, sent);
    if a.outcome == Again {
      var x := Course(f, ChoiceTaken(env, s.attempts, sent));
      assert MayGoOn(env, s.attempts, x);
      assert a.s.retryCount == s.retryCount ==> Clears(env, s.attempts, x);
    }
  }

  lemma AttemptAccounted(env: Env, s: State)
    ensures Accounted(env, s, AttemptStep(env, s))
  {
    hide SignStep, SendRequestStep, Judge;
    var signed := SignStep(env, s.(err := E.Nil));
    SigningCountsNothing(env, s.(err := E.Nil));
    if signed.s.err == E.Nil {
      var (sent, sendErr) := SendRequestStep(env, signed.s);
      FailedAttempt(env, signed.s);
      if sendErr != E.Nil {
        JudgeAccounted(env, s, signed.events + sent.events, sent.s, Failure(sendErr, sent.s.retryable));
      }
    }
  }

  ghost predicate TurnAccounted(env: Env, turn: State -> Attempt) { forall s :: Accounted(env, s, turn(s)) }

  lemma EveryTurnAccounted(env: Env)
    ensures TurnAccounted(env, Turn(env))
  {
    forall s
      ensures Accounted(env, s, Turn(env)(s))
    {
      AttemptAccounted(env, s);
    }
  }

  // -------------------------------------------------------- a bound on turns

  lemma {:induction false} LoopEnds(env: Env, turn: State -> Attempt, s: State, limit: nat)
    requires TurnAccounted(env, turn) && NeverClears(env)
    requires limit > RetriesLeft(env, s)
    ensures Loop(turn, s, limit).Some?
    decreases limit
  {
    assert Accounted(env, s, turn(s));
    if turn(s).outcome == Again {
      LoopEnds(env, turn, turn(s).s, limit - 1);
    }
  }

  /** When no failure is cleared, `Send` returns within one turn more than there are retries left. */
  lemma SendTerminates(env: Env, s: State, limit: nat)
    requires NeverClears(env) && limit > RetriesLeft(env, s)
    ensures SendWithin(env, s, limit).Some?
    ensures SendWithin(env, s, limit) == SendWithin(env, s, RetriesLeft(env, s) + 1)
  {
    hide AttemptStep, Loop;
    EveryTurnAccounted(env);
    LoopEnds(env, Turn(env), s.(attempts := 0), RetriesLeft(env, s) + 1);
    LoopStable(Turn(env), s.(attempts := 0), RetriesLeft(env, s) + 1, limit);
  }

  // ----------------------------------------------------- the exact condition

  /** Everything but what is made of a failure may differ: transport, context, retryer and all other handlers. */
  ghost predicate TreatsFailuresAlike(env: Env, world: Env) {
    && world.completeAttempt == env.completeAttempt && world.retry == env.retry && world.afterRetry == env.afterRetry
    && world.enforceShouldRetryCheck == env.enforceShouldRetryCheck
  }

  lemma AlikeInAll(env: Env, world: Env, k: nat)
    requires TreatsFailuresAlike(env, world)
    ensures CanGoOn(world, k) <==> CanGoOn(env, k)
    ensures CanClear(world, k) <==> CanClear(env, k)
  {
    assert forall x :: MayGoOn(world, k, x) <==> MayGoOn(env, k, x);
    assert forall x :: Clears(world, k, x) <==> Clears(env, k, x);
  }

  ghost predicate Returns(env: Env, s: State) { exists limit :: SendWithin(env, s, limit).Some? }

  /** Before the attempt `k`, which clears nothing, the loop ends or uses up a retry. */
  lemma {:induction false} LoopEndsBy(env: Env, turn: State -> Attempt, s: State, k: nat) returns (limit: nat)
    requires TurnAccounted(env, turn) && CanReach(env, s.attempts)
    requires forall n :: !CanClearFrom(env, n)
    requires k >= s.attempts && !CanClear(env, k)
    ensures Loop(turn, s, limit).Some?
    decreases RetriesLeft(env, s), k - s.attempts
  {
    var a := turn(s);
    assert Accounted(env, s, a);
    if a.outcome != Again {
      return 1;
    }
    assert CanReach(env, a.s.attempts);
    var k' := k;
    if a.s.retryCount != s.retryCount {
      assert !CanClearFrom(env, a.s.attempts);
      k' :| k' >= a.s.attempts && !CanClear(env, k');
    }
    limit := LoopEndsBy(env, turn, a.s, k');
    limit := limit + 1;
  }

  lemma SendReturns(env: Env, s: State)
    requires forall n :: !CanClearFrom(env, n)
    ensures Returns(env, s)
  {
    var limit := 0;
    if s.err == E.Nil {
      EveryTurnAccounted(env);
      assert !CanClearFrom(env, 0);
      var k :| k >= 0 && !CanClear(env, k);
      limit := LoopEndsBy(env, Turn(env), s.(attempts := 0), k);
    }
    assert SendWithin(env, s, limit).Some?;
  }

  /**
   A world that treats failures as `env` does, and in which the attempt `k` takes the course `plan(k)`. It is cancelled
   while sending, or answered with the status 500 that is unmarshalled to the planned error; without a planned error it
   succeeds. The waits are those of a context seen done or not, or of `Config.SleepDelay`, which ignores the context.
   */
  function Planned(env: Env, plan: nat -> Course, maxRetries: int): Env {
    env.(
      retryer := Retryer(
        maxRetries,
        (k: nat, s: State) => if plan(k).choice.Kept? then plan(k).choice.retry else true,
        (k: nat, s: State) => 0),
      bodyCanBeResent := (k: nat) => !plan(k).choice.Kept?,
      validate := (e: Error) => e,
      build := (e: Error) => e,
      sign := (k: nat, e: Error) => e,
      resign := (k: nat) => None,
      transport := (k: nat) =>
        if plan(k).failure.retryable.Some? then Failed(E.Plain("context canceled"), None)
        else Responded(if plan(k).failure.err == E.Nil then 200 else 500),
      doneAtSend := (k: nat) => plan(k).failure.retryable.Some?,
      unmarshalMeta := (k: nat, e: Error, status: Option<int>) => (e, status),
      validateResponse := (k: nat, e: Error, status: Option<int>) => (e, status),
      unmarshal := (k: nat, e: Error, status: Option<int>) => (e, status),
      unmarshalError := (k: nat, e: Error, status: Option<int>) => (plan(k).failure.err, status),
      doneAtSleep := (k: nat) => plan(k).choice == WaitCanceled,
      bodySeek := (k: nat) => E.Nil)
  }

  lemma PlannedAttemptFails(env: Env, plan: nat -> Course, maxRetries: int, s: State)
    requires plan(s.attempts).failure.Possible() && s.err == E.Nil
    ensures var (sent, sendErr) := SendRequestStep(Planned(env, plan, maxRetries), s);
            && sendErr == plan(s.attempts).failure.err != E.Nil
            && sent.s.err == env.completeAttempt(s.attempts, sendErr)
            && sent.s.retryable == plan(s.attempts).failure.retryable
            && sent.s.retryCount == s.retryCount && sent.s.attempts == s.attempts + 1
  {
  }

  lemma PlannedSigns(env: Env, plan: nat -> Course, maxRetries: int, s: State)
    requires s.err == E.Nil
    ensures var signed := SignStep(Planned(env, plan, maxRetries), s).s;
            signed.err == E.Nil && signed.attempts == s.attempts && signed.retryCount == s.retryCount
  {
  }

  /** A turn that takes the course `x`. */
  predicate Follows(env: Env, k: nat, retryCount: nat, x: Course, a: Attempt) {
    && (EndOf(env, k, x).GoesOn() ==> a.outcome == Again)
    && (EndOf(env, k, x).err == E.Nil && !EndOf(env, k, x).GoesOn() ==> a.outcome == Return(E.Nil))
    && a.s.attempts == k + 1
    && a.s.retryCount == retryCount + (if x.choice == WaitDone then 1 else 0)
    && (x.choice == WaitCanceled ==> CancelSeen in a.events)
    && (!x.choice.Kept? ==> HasSleep(a.events))
  }

  predicate HasSleep(events: seq<Event>) { exists i :: 0 <= i < |events| && events[i].Sleep? }

  lemma PlannedAfterRetry(env: Env, plan: nat -> Course, maxRetries: int, k: nat, judging: State)
    requires Possible(env, k, plan(k)) && judging.retryCount < maxRetries
    requires Handled(env, k, plan(k).failure) == Failure(judging.err, judging.retryable)
    ensures var after := AfterRetryStep(Planned(env, plan, maxRetries), judging, k);
            && Failure(after.s.err, after.s.retryable) == LeftBy(env, Handled(env, k, plan(k).failure), plan(k).choice)
            && after.s.attempts == judging.attempts
            && after.s.retryCount == judging.retryCount + (if plan(k).choice == WaitDone then 1 else 0)
            && (plan(k).choice == WaitCanceled ==> CancelSeen in after.events)
            && (!plan(k).choice.Kept? ==> |after.events| > 0 && after.events[0].Sleep?)
  {
    var world := Planned(env, plan, maxRetries);
    var judged := Assessed(world, judging, k);
    assert world.enforceShouldRetryCheck == env.enforceShouldRetryCheck;
    assert world.retryer.shouldRetry(k, judging) == if plan(k).choice.Kept? then plan(k).choice.retry else true;
    if judging.retryable.Some? {
      assert judging.retryable == Some(judging.retryable.value);
    }
    assert !plan(k).choice.Kept? ==> judged.retryable == Some(true);
    assert WillRetry(world, judged, k) <==> !plan(k).choice.Kept?;
  }

  lemma PlannedJudgement(env: Env, plan: nat -> Course, maxRetries: int, k: nat, xs: seq<Event>, sent: State)
    requires sent.err == env.completeAttempt(k, plan(k).failure.err) && sent.retryable == plan(k).failure.retryable
    requires Possible(env, k, plan(k)) && sent.retryCount < maxRetries && sent.attempts == k + 1
    ensures Follows(env, k, sent.retryCount, plan(k), Judge(Planned(env, plan, maxRetries), k, xs, sent))
  {
    hide AfterRetryStep, LeftBy, Possible;
    var world := Planned(env, plan, maxRetries);
    var (err, retryable) := env.retry(k, sent.err, sent.retryable);
    PlannedAfterRetry(env, plan, maxRetries, k, sent.(err := err, retryable := retryable));
    assert PrepareRetryError(world, k) == E.Nil;
    var a := Judge(world, k, xs, sent);
    var after := AfterRetryStep(world, sent.(err := err, retryable := retryable), k);
    assert a.events == xs + [Retry, AfterRetry] + after.events;
    assert |after.events| > 0 ==> a.events[|xs| + 2] == after.events[0];
  }

  /** In a planned world a turn takes the planned course, while a retry is left. */
  lemma PlannedTurn(env: Env, plan: nat -> Course, maxRetries: int, s: State)
    requires Possible(env, s.attempts, plan(s.attempts)) && s.retryCount < maxRetries
    ensures Follows(env, s.attempts, s.retryCount, plan(s.attempts), AttemptStep(Planned(env, plan, maxRetries), s))
  {
    hide SignStep, SendRequestStep, Judge, Planned, Follows;
    var world := Planned(env, plan, maxRetries);
    var signed := SignStep(world, s.(err := E.Nil));
    PlannedSigns(env, plan, maxRetries, s.(err := E.Nil));
    var (sent, sendErr) := SendRequestStep(world, signed.s);
    PlannedAttemptFails(env, plan, maxRetries, signed.s);
    PlannedJudgement(env, plan, maxRetries, s.attempts, signed.events + sent.events, sent.s);
  }

  /** A course that the attempt `k` may be followed by another after: one that clears where there is one. */
  ghost function GoingOn(env: Env, k: nat): (x: Course)
    ensures CanGoOn(env, k) || CanClear(env, k) ==> MayGoOn(env, k, x)
    ensures CanClear(env, k) ==> Clears(env, k, x)
  {
    if CanClear(env, k) then var x :| Clears(env, k, x); x
    else if CanGoOn(env, k) then var x :| MayGoOn(env, k, x); x
    else Course(VETOED, Kept(false))
  }

  /** The world that goes on wherever some world does, with more than `n` retries. */
  ghost function GoingOnWorld(env: Env, n: nat): Env { Planned(env, (k: nat) => GoingOn(env, k), n + 1) }

  lemma {:induction false} LoopsForever(env: Env, n: nat, turn: State -> Attempt, s: State, limit: nat)
    requires CanClearFrom(env, n) && turn == Turn(GoingOnWorld(env, n))
    requires s.retryCount <= Min(s.attempts, n)
    ensures Loop(turn, s, limit) == None
    decreases limit
  {
    hide AttemptStep, Planned, EndOf, Possible;
    if limit > 0 {
      var k := s.attempts;
      assert k < n ==> CanGoOn(env, k);
      assert k >= n ==> CanClear(env, k);
      PlannedTurn(env, (k: nat) => GoingOn(env, k), n + 1, s);
      LoopsForever(env, n, turn, turn(s).s, limit - 1);
    }
  }

  /** A new request, as `New` makes it. */
  const NEW_REQUEST := State(E.Nil, None, 0, false, None, 0, 0)

  /**
   `Send` returns for every request, transport, context, retryer and every other handler beyond those that
   `TreatsFailuresAlike` fixes, if and only if no run can get to an attempt from which on every failure can be cleared.
   */
  lemma SendReturnsExactlyWhen(env: Env)
    ensures (forall world, s | TreatsFailuresAlike(env, world) :: Returns(world, s))
       <==> forall k :: !CanClearFrom(env, k)
  {
    if k :| CanClearFrom(env, k) {
      var world := GoingOnWorld(env, k);
      forall limit
        ensures SendWithin(world, NEW_REQUEST, limit).None?
      {
        LoopsForever(env, k, Turn(world), NEW_REQUEST, limit);
      }
      assert TreatsFailuresAlike(env, world) && !Returns(world, NEW_REQUEST);
    } else {
      forall world, s | TreatsFailuresAlike(env, world)
        ensures Returns(world, s)
      {
        forall k: nat
          ensures CanGoOn(world, k) <==> CanGoOn(env, k)
          ensures CanClear(world, k) <==> CanClear(env, k)
        {
          AlikeInAll(env, world, k);
        }
        assert forall k | CanClearFrom(world, k) :: CanClearFrom(env, k);
        SendReturns(world, s);
      }
    }
  }

  /** Handlers that do not count attempts. */
  ghost predicate IgnoresAttempt(env: Env) {
    && (forall k, e :: env.completeAttempt(k, e) == env.completeAttempt(0, e))
    && (forall k, e, r :: env.retry(k, e, r) == env.retry(0, e, r))
    && (forall k, e, r :: env.afterRetry(k, e, r) == env.afterRetry(0, e, r))
  }

  /** For such handlers: `Send` always returns if and only if they clear no failure of the first attempt. */
  lemma SteadyHandlersReturnExactlyWhen(env: Env)
    requires IgnoresAttempt(env)
    ensures (forall world, s | TreatsFailuresAlike(env, world) :: Returns(world, s)) <==> forall x :: !Clears(env, 0, x)
  {
    SendReturnsExactlyWhen(env);
    hide Returns;
    forall k, x
      ensures Clears(env, k, x) <==> Clears(env, 0, x)
    {
    }
    if x :| Clears(env, 0, x) {
      forall k: nat
        ensures CanClear(env, k) && CanGoOn(env, k)
      {
        assert Clears(env, k, x) && MayGoOn(env, k, x);
      }
      assert CanClearFrom(env, 0);
    } else {
      forall k
        ensures !CanClearFrom(env, k)
      {
        assert !CanClear(env, k);
      }
    }
  }
}
