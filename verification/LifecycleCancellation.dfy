/** What a cancellation that is seen does to a `Send`. */
module LifecycleCancellation {
  import opened Prelude
  import E = Errors
  import opened Lifecycle
  import opened LifecycleGrammar
  import opened LifecycleTermination
  import opened LifecycleOutcomes

  /** No attempt follows a cancellation that was seen. */
  predicate NoSendAfterCancel(events: seq<Event>) {
    forall i, j | 0 <= i < j < |events| :: events[i] == CancelSeen ==> events[j] != Send
  }

  /** A turn in which a cancellation is seen ends the loop, unless its veto is lifted. */
  predicate CancelShown(a: Attempt, lifted: bool) {
    NoSendAfterCancel(a.events) && (CancelSeen in a.events && a.outcome == Again ==> lifted)
  }

  /** No handler lifts the veto of a request marked not retryable. */
  ghost predicate KeepsVeto(env: Env) {
    forall k, e :: env.retry(k, e, Some(false)).1 == Some(false) == env.afterRetry(k, e, Some(false)).1
  }

  /** A request marked not retryable stays so: neither a handler nor the retryer overrules the mark. */
  ghost predicate RespectsVeto(env: Env) {
    KeepsVeto(env) && forall k, s: State | s.retryable == Some(false) :: !env.retryer.shouldRetry(k, s)
  }

  /** The cancellation of an attempt, while sending or while waiting, is overruled. */
  predicate Overrules(env: Env, k: nat, x: Course) {
    MayGoOn(env, k, x) && (x.failure.retryable.Some? || x.choice == WaitCanceled)
  }

  ghost predicate CanOverrule(env: Env, k: nat) { exists x :: Overrules(env, k, x) }

  lemma NothingSent(xs: seq<Event>, ys: seq<Event>)
    requires NoSendAfterCancel(xs) && forall i | 0 <= i < |ys| :: ys[i] != Send
    ensures NoSendAfterCancel(xs + ys)
  {
  }

  /** `AfterRetryHandler` sends nothing, and sees a cancellation exactly if its wait is cancelled. */
  lemma AfterRetryCancel(env: Env, k: nat, sent: State)
    ensures var (err, retryable) := env.retry(k, sent.err, sent.retryable);
            var events := AfterRetryStep(env, sent.(err := err, retryable := retryable), k).events;
            && (forall i | 0 <= i < |events| :: events[i] != Send)
            && (CancelSeen in events <==> ChoiceTaken(env, k, sent) == WaitCanceled)
  {
  }

  /** What follows a failed attempt sends nothing, and is cancelled only by a wait that is. */
  lemma JudgeEvents(env: Env, k: nat, xs: seq<Event>, sent: State)
    requires NoSendAfterCancel(xs)
    ensures var a := Judge(env, k, xs, sent);
            && NoSendAfterCancel(a.events)
            && (CancelSeen in a.events ==> CancelSeen in xs || ChoiceTaken(env, k, sent) == WaitCanceled)
  {
    hide NoSendAfterCancel, AfterRetryStep, ChoiceTaken;
    AfterRetryCancel(env, k, sent);
    var (err, retryable) := env.retry(k, sent.err, sent.retryable);
    NothingSent(xs, [Retry, AfterRetry]);
    NothingSent(xs + [Retry, AfterRetry], AfterRetryStep(env, sent.(err := err, retryable := retryable), k).events);
  }

  lemma VetoRespected(env: Env, k: nat, xs: seq<Event>, sent: State)
    requires RespectsVeto(env)
    requires sent.retryable == Some(false) || ChoiceTaken(env, k, sent) == WaitCanceled
    ensures Judge(env, k, xs, sent).outcome != Again
  {
  }

  lemma JudgeCancel(env: Env, k: nat, xs: seq<Event>, sent: State, f: Failure)
    requires f.Possible() && sent.err == env.completeAttempt(k, f.err) && sent.retryable == f.retryable
    requires NoSendAfterCancel(xs) && (CancelSeen in xs ==> sent.retryable == Some(false))
    ensures CancelShown(Judge(env, k, xs, sent), !RespectsVeto(env) && CanOverrule(env, k))
  {
    hide Judge, NoSendAfterCancel, RespectsVeto, EndOf, Possible, ChoiceTaken;
    JudgeEvents(env, k, xs, sent);
    JudgeTakesCourse(env, k, xs, sent, f);
    var a := Judge(env, k, xs, sent);
    if CancelSeen in a.events && a.outcome == Again {
      assert Overrules(env, k, Course(f, ChoiceTaken(env, k, sent)));
      if RespectsVeto(env) {
        VetoRespected(env, k, xs, sent);
      }
    }
  }

  lemma AttemptCancel(env: Env, s: State)
    ensures CancelShown(AttemptStep(env, s), !RespectsVeto(env) && CanOverrule(env, s.attempts))
  {
    hide SignStep, SendRequestStep, Judge, RespectsVeto, CanOverrule;
    var signed := SignStep(env, s.(err := E.Nil));
    SignEvents(env, s.(err := E.Nil));
    SigningCountsNothing(env, s.(err := E.Nil));
    if signed.s.err == E.Nil {
      var (sent, sendErr) := SendRequestStep(env, signed.s);
      SendRequestEvents(env, signed.s);
      FailedAttempt(env, signed.s);
      if sendErr != E.Nil {
        JudgeCancel(env, s.attempts, signed.events + sent.events, sent.s, Failure(sendErr, sent.s.retryable));
      }
    }
  }

  lemma {:induction false} LoopCancel(env: Env, turn: State -> Attempt, s: State, limit: nat)
    requires TurnAccounted(env, turn) && CanReach(env, s.attempts)
    requires forall s: State | CanReach(env, s.attempts) :: CancelShown(turn(s), false)
    requires Loop(turn, s, limit).Some?
    ensures NoSendAfterCancel(Loop(turn, s, limit).value.events)
    decreases limit
  {
    var a := turn(s);
    assert CancelShown(a, false) && Accounted(env, s, a);
    if a.outcome == Again {
      LoopCancel(env, turn, a.s, limit - 1);
      assert forall i | 0 <= i < |a.events| :: a.events[i] != CancelSeen;
    }
  }

  lemma SendCancel(env: Env, s: State, limit: nat)
    requires forall s: State | CanReach(env, s.attempts) :: CancelShown(Turn(env)(s), false)
    requires SendWithin(env, s, limit).Some?
    ensures NoSendAfterCancel(SendWithin(env, s, limit).value.events)
  {
    hide AttemptStep, Loop;
    if s.err == E.Nil {
      EveryTurnAccounted(env);
      LoopCancel(env, Turn(env), s.(attempts := 0), limit);
    }
  }

  /**
   If nothing overrules a request marked not retryable, no attempt follows a cancellation observed while sending or
   while waiting to retry.
   */
  lemma CancellationStopsSending(env: Env, s: State, limit: nat)
    requires RespectsVeto(env) && SendWithin(env, s, limit).Some?
    ensures NoSendAfterCancel(SendWithin(env, s, limit).value.events)
  {
    forall s
      ensures CancelShown(Turn(env)(s), false)
    {
      AttemptCancel(env, s);
    }
    SendCancel(env, s, limit);
  }

  // ----------------------------------------------------- the exact condition

  /** Some run may get to the attempt `k`, see it cancelled, and have that overruled. */
  ghost predicate CanOverruleAt(env: Env, k: nat) { CanReach(env, k) && CanOverrule(env, k) }

  ghost predicate CancellationAlwaysStops(env: Env) {
    forall s, limit | SendWithin(env, s, limit).Some? :: NoSendAfterCancel(SendWithin(env, s, limit).value.events)
  }

  lemma CancellationStopsUnlessOverruled(env: Env, s: State, limit: nat)
    requires SendWithin(env, s, limit).Some? && forall k :: !CanOverruleAt(env, k)
    ensures NoSendAfterCancel(SendWithin(env, s, limit).value.events)
  {
    hide AttemptStep, RespectsVeto, CanOverrule, NoSendAfterCancel;
    forall s: State | CanReach(env, s.attempts)
      ensures CancelShown(Turn(env)(s), false)
    {
      AttemptCancel(env, s);
      assert !CanOverruleAt(env, s.attempts);
    }
    SendCancel(env, s, limit);
  }

  /** Runs that go on up to the attempt `n`, which takes the course `x`, and then succeed. */
  ghost function OverrulingPlan(env: Env, n: nat, x: Course): nat -> Course {
    (k: nat) => if k < n then GoingOn(env, k) else if k == n then x else Course(Failure(E.Nil, None), Kept(false))
  }

  ghost function OverrulingWorld(env: Env, n: nat, x: Course): Env { Planned(env, OverrulingPlan(env, n, x), n + 1) }

  lemma CanceledSendShows(env: Env, s: State)
    requires env.transport(s.attempts).Failed? && env.doneAtSend(s.attempts)
    ensures CancelSeen in SendRequestStep(env, s).0.events
  {
  }

  lemma JudgeExtends(env: Env, k: nat, xs: seq<Event>, sent: State)
    ensures forall e | e in xs :: e in Judge(env, k, xs, sent).events
  {
  }

  /** An attempt that is planned to be cancelled while sending shows it. */
  lemma CanceledTurnShows(env: Env, plan: nat -> Course, maxRetries: int, s: State)
    requires Possible(env, s.attempts, plan(s.attempts)) && plan(s.attempts).failure.retryable.Some?
    ensures CancelSeen in AttemptStep(Planned(env, plan, maxRetries), s).events
  {
    hide SignStep, SendRequestStep, Judge;
    var world := Planned(env, plan, maxRetries);
    var signed := SignStep(world, s.(err := E.Nil));
    PlannedSigns(env, plan, maxRetries, s.(err := E.Nil));
    CanceledSendShows(world, signed.s);
    var (sent, sendErr) := SendRequestStep(world, signed.s);
    PlannedAttemptFails(env, plan, maxRetries, signed.s);
    JudgeExtends(world, s.attempts, signed.events + sent.events, sent.s);
  }

  lemma SendAfterCancelStays(xs: seq<Event>, ys: seq<Event>)
    ensures CancelSeen in xs && Send in ys ==> !NoSendAfterCancel(xs + ys)
    ensures !NoSendAfterCancel(ys) ==> !NoSendAfterCancel(xs + ys)
    ensures !NoSendAfterCancel(xs) ==> !NoSendAfterCancel(xs + ys)
  {
    if CancelSeen in xs && Send in ys {
      var i :| 0 <= i < |xs| && xs[i] == CancelSeen;
      var j :| 0 <= j < |ys| && ys[j] == Send;
      assert (xs + ys)[i] == CancelSeen && (xs + ys)[|xs| + j] == Send;
    }
    if i, j :| 0 <= i < j < |ys| && ys[i] == CancelSeen && ys[j] == Send {
      assert (xs + ys)[|xs| + i] == CancelSeen && (xs + ys)[|xs| + j] == Send;
    }
    if i, j :| 0 <= i < j < |xs| && xs[i] == CancelSeen && xs[j] == Send {
      assert (xs + ys)[i] == CancelSeen && (xs + ys)[j] == Send;
    }
  }

  lemma {:induction false} LoopOverrules(env: Env, n: nat, x: Course, turn: State -> Attempt, s: State)
    requires CanReach(env, n) && Overrules(env, n, x) && turn == Turn(OverrulingWorld(env, n, x))
    requires s.retryCount <= s.attempts <= n
    ensures var run := Loop(turn, s, n - s.attempts + 2);
            run.Some? && !NoSendAfterCancel(run.value.events)
    decreases n - s.attempts
  {
    hide AttemptStep, Planned, EndOf, Possible, NoSendAfterCancel;
    var a, plan := turn(s), OverrulingPlan(env, n, x);
    PlannedTurn(env, plan, n + 1, s);
    if s.attempts < n {
      LoopOverrules(env, n, x, turn, a.s);
      SendAfterCancelStays(a.events, Loop(turn, a.s, n - s.attempts + 1).value.events);
    } else {
      if x.failure.retryable.Some? {
        CanceledTurnShows(env, plan, n + 1, s);
      }
      SuccessfulTurn(env, plan, n + 1, a.s);
      assert Loop(turn, a.s, 1) == Some(Run(turn(a.s).s, turn(a.s).events, E.Nil));
      SendAfterCancelStays(a.events, turn(a.s).events);
    }
  }

  /** Where a cancellation can be overruled, some world sends again after it was seen. */
  lemma SomeWorldOverrules(env: Env, n: nat) returns (world: Env)
    requires CanOverruleAt(env, n)
    ensures TreatsFailuresAlike(env, world) && !CancellationAlwaysStops(world)
  {
    hide Loop, AttemptStep, Overrules, NoSendAfterCancel;
    var x :| Overrules(env, n, x);
    world := OverrulingWorld(env, n, x);
    LoopOverrules(env, n, x, Turn(world), NEW_REQUEST);
    SendAfterCancelStays(Loop(Turn(world), NEW_REQUEST, n + 2).value.events, [Complete]);
    assert SendWithin(world, NEW_REQUEST, n + 2).Some?;
  }

  lemma OverrulesAlike(env: Env, world: Env, k: nat)
    requires TreatsFailuresAlike(env, world)
    ensures CanOverruleAt(world, k) <==> CanOverruleAt(env, k)
  {
    forall j: nat
      ensures CanGoOn(world, j) <==> CanGoOn(env, j)
    {
      AlikeInAll(env, world, j);
    }
    assert forall x :: Overrules(world, k, x) <==> Overrules(env, k, x);
  }

  /**
   Whatever the transport, the context, the retryer and all handlers beyond those that `TreatsFailuresAlike` fixes do,
   no attempt follows a cancellation that was seen, if and only if no run can get to an attempt whose cancellation,
   while sending or while waiting, can be overruled.
   */
  lemma CancellationStopsExactlyWhen(env: Env)
    ensures (forall world | TreatsFailuresAlike(env, world) :: CancellationAlwaysStops(world))
       <==> forall k :: !CanOverruleAt(env, k)
  {
    hide SendWithin, CanOverruleAt, TreatsFailuresAlike, NoSendAfterCancel;
    if k :| CanOverruleAt(env, k) {
      var world := SomeWorldOverrules(env, k);
    } else {
      forall world | TreatsFailuresAlike(env, world)
        ensures CancellationAlwaysStops(world)
      {
        forall k
          ensures !CanOverruleAt(world, k)
        {
          OverrulesAlike(env, world, k);
        }
        forall s, limit | SendWithin(world, s, limit).Some?
          ensures NoSendAfterCancel(SendWithin(world, s, limit).value.events)
        {
          CancellationStopsUnlessOverruled(world, s, limit);
        }
      }
    }
  }

  /** For handlers that do not count attempts: exactly when they overrule no cancellation of the first. */
  lemma SteadyHandlersStopExactlyWhen(env: Env)
    requires IgnoresAttempt(env)
    ensures (forall world | TreatsFailuresAlike(env, world) :: CancellationAlwaysStops(world))
       <==> forall x :: !Overrules(env, 0, x)
  {
    CancellationStopsExactlyWhen(env);
    hide CancellationAlwaysStops, TreatsFailuresAlike;
    forall k, x
      ensures Overrules(env, k, x) <==> Overrules(env, 0, x)
    {
    }
    if x :| Overrules(env, 0, x) {
      assert CanOverruleAt(env, 0);
    }
  }
}
