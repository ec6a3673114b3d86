/** How many attempts a `Send` makes, which waits it makes between them, and what each wait is ruled by. */
module LifecycleWaits {
  import opened Prelude
  import E = Errors
  import opened Lifecycle
  import opened LifecycleGrammar
  import opened LifecycleTermination
  import opened LifecycleOutcomes

  function Sleeps(events: seq<Event>): (sleeps: seq<Event>)
    ensures forall i | 0 <= i < |sleeps| :: sleeps[i].Sleep?
  {
    if events == [] then []
    else (if events[0].Sleep? then [events[0]] else []) + Sleeps(events[1..])
  }

  lemma {:induction false} CountConcat(xs: seq<Event>, ys: seq<Event>, e: Event)
    ensures Count(xs + ys, e) == Count(xs, e) + Count(ys, e)
  {
    if xs == [] {
      assert xs + ys == ys;
    } else {
      assert (xs + ys)[1..] == xs[1..] + ys;
      CountConcat(xs[1..], ys, e);
    }
  }

  lemma {:induction false} SleepsConcat(xs: seq<Event>, ys: seq<Event>)
    ensures Sleeps(xs + ys) == Sleeps(xs) + Sleeps(ys)
  {
    if xs == [] {
      assert xs + ys == ys;
    } else {
      assert (xs + ys)[1..] == xs[1..] + ys;
      SleepsConcat(xs[1..], ys);
    }
  }

  lemma {:induction false} NoneOf(events: seq<Event>)
    ensures (forall i | 0 <= i < |events| :: events[i] != Send) ==> Count(events, Send) == 0
    ensures (forall i | 0 <= i < |events| :: !events[i].Sleep?) ==> Sleeps(events) == []
  {
    if events != [] {
      NoneOf(events[1..]);
      assert forall i | 0 <= i < |events| - 1 :: events[1..][i] == events[i + 1];
    }
  }

  // ------------------------------------------------------------------- turns

  /** The request as it is judged at the end of a turn that begins at `s` and whose attempt fails. */
  function JudgedAt(env: Env, s: State): State {
    var sent := SendRequestStep(env, SignStep(env, s.(err := E.Nil)).s).0.s;
    var (err, retryable) := env.retry(s.attempts, sent.err, sent.retryable);
    Assessed(env, sent.(err := err, retryable := retryable), s.attempts)
  }

  /** The wait ruled for a request that was judged to be sent again, after its attempts so far. */
  function RuledSleep(env: Env, judged: State): Event
    requires judged.attempts >= 1
  {
    Sleep(judged.retryCount, env.retryer.retryRules(judged.attempts - 1, judged))
  }

  lemma AfterRetrySleeps(env: Env, s: State, k: nat)
    ensures var after := AfterRetryStep(env, s, k);
            var judged := Assessed(env, s, k);
            && Count(after.events, Send) == 0 && after.s.attempts == s.attempts
            && Sleeps(after.events) == (if WillRetry(env, judged, k)
                                        then [Sleep(s.retryCount, env.retryer.retryRules(k, judged))] else [])
            && judged.retryCount == s.retryCount && judged.attempts == s.attempts
  {
    AfterRetryEvents(env, s, k);
    var events := AfterRetryStep(env, s, k).events;
    NoneOf(events);
    if events != [] {
      NoneOf(events[1..]);
      assert Sleeps(events) == [events[0]];
    }
  }

  /** The attempt `k` may be waited for. */
  ghost predicate CanWait(env: Env, k: nat) { exists x :: Possible(env, k, x) && !x.choice.Kept? }

  /** The wait for the attempt `k` may be cancelled, and that be overruled by a handler after `AfterRetryHandler`. */
  ghost predicate CanOverruleWait(env: Env, k: nat) { exists x :: MayGoOn(env, k, x) && x.choice == WaitCanceled }

  /**
   At most one attempt in a turn, and at most one wait, ruled for the request judged in it. If the turn goes on, its
   wait has counted a retry, unless it was cancelled and that overruled.
   */
  ghost predicate WaitShown(env: Env, s: State, a: Attempt) {
    var sleeps := Sleeps(a.events);
    var judged := JudgedAt(env, s);
    && Count(a.events, Send) <= 1 && |sleeps| <= 1
    && (sleeps != [] ==>
          && s.retryCount < env.retryer.maxRetries && CanWait(env, s.attempts)
          && judged.retryCount == s.retryCount && judged.attempts == s.attempts + 1
          && sleeps == [RuledSleep(env, judged)])
    && (a.outcome == Again ==>
          && a.s.attempts == s.attempts + 1
          && s.retryCount <= a.s.retryCount <= s.retryCount + |sleeps|
          && (a.s.retryCount == s.retryCount + |sleeps| || CanOverruleWait(env, s.attempts)))
  }

  lemma JudgedEvents(xs: seq<Event>, zs: seq<Event>)
    requires Count(xs, Send) <= 1 && Sleeps(xs) == [] && Count(zs, Send) == 0
    ensures Count(xs + [Retry, AfterRetry] + zs, Send) <= 1
    ensures Sleeps(xs + [Retry, AfterRetry] + zs) == Sleeps(zs)
  {
    var ys := [Retry, AfterRetry];
    NoneOf(ys);
    CountConcat(xs, ys, Send);
    SleepsConcat(xs, ys);
    CountConcat(xs + ys, zs, Send);
    SleepsConcat(xs + ys, zs);
    assert [] + Sleeps(zs) == Sleeps(zs);
  }

  lemma JudgeSleeps(env: Env, k: nat, xs: seq<Event>, sent: State)
    requires Count(xs, Send) <= 1 && Sleeps(xs) == []
    ensures var (err, retryable) := env.retry(k, sent.err, sent.retryable);
            var judged := Assessed(env, sent.(err := err, retryable := retryable), k);
            var a := Judge(env, k, xs, sent);
            && Count(a.events, Send) <= 1
            && Sleeps(a.events) == (if ChoiceTaken(env, k, sent).Kept? then []
                                    else [Sleep(sent.retryCount, env.retryer.retryRules(k, judged))])
            && judged.retryCount == sent.retryCount && judged.attempts == sent.attempts
  {
    hide AfterRetryStep, Sleeps, Count, Assessed;
    var (err, retryable) := env.retry(k, sent.err, sent.retryable);
    var judging := sent.(err := err, retryable := retryable);
    AfterRetrySleeps(env, judging, k);
    JudgedEvents(xs, AfterRetryStep(env, judging, k).events);
  }

  lemma JudgeWaits(env: Env, s: State, xs: seq<Event>, sent: State, f: Failure)
    requires sent == SendRequestStep(env, SignStep(env, s.(err := E.Nil)).s).0.s
    requires f.Possible() && sent.err == env.completeAttempt(s.attempts, f.err) && sent.retryable == f.retryable
    requires sent.retryCount == s.retryCount && sent.attempts == s.attempts + 1
    requires Count(xs, Send) <= 1 && Sleeps(xs) == []
    ensures WaitShown(env, s, Judge(env, s.attempts, xs, sent))
  {
    hide Judge, Sleeps, Count, SendRequestStep, SignStep, Assessed, ChoiceTaken, EndOf, Possible;
    JudgeSleeps(env, s.attempts, xs, sent);
    JudgeTakesCourse(env, s.attempts, xs, sent, f);
    var x := Course(f, ChoiceTaken(env, s.attempts, sent));
    assert Possible(env, s.attempts, x);
    assert Judge(env, s.attempts, xs, sent).outcome == Again ==> MayGoOn(env, s.attempts, x);
  }

  lemma SignAndSendCounts(xs: seq<Event>, ys: seq<Event>)
    requires forall i | 0 <= i < |xs| :: xs[i] in {Validate, Build, Sign}
    requires ys != [] && ys[0] == Send
    requires forall i | 1 <= i < |ys| :: ys[i] != Send && !ys[i].Sleep?
    ensures Count(xs, Send) == 0 && Sleeps(xs) == []
    ensures Count(xs + ys, Send) == 1 && Sleeps(xs + ys) == []
  {
    NoneOf(xs);
    NoneOf(ys[1..]);
    CountConcat(xs, ys, Send);
    SleepsConcat(xs, ys);
  }

  lemma AttemptWaits(env: Env, s: State)
    ensures WaitShown(env, s, AttemptStep(env, s))
  {
    hide SignStep, SendRequestStep, Judge, Sleeps, Count, JudgedAt;
    var signed := SignStep(env, s.(err := E.Nil));
    SignEvents(env, s.(err := E.Nil));
    SigningCountsNothing(env, s.(err := E.Nil));
    NoneOf(signed.events);
    if signed.s.err == E.Nil {
      var (sent, sendErr) := SendRequestStep(env, signed.s);
      SendRequestEvents(env, signed.s);
      FailedAttempt(env, signed.s);
      SignAndSendCounts(signed.events, sent.events);
      if sendErr != E.Nil {
        JudgeWaits(env, s, signed.events + sent.events, sent.s, Failure(sendErr, sent.s.retryable));
      }
    }
  }

  ghost predicate TurnWaits(env: Env, turn: State -> Attempt) { forall s :: WaitShown(env, s, turn(s)) }

  lemma EveryTurnWaits(env: Env)
    ensures TurnWaits(env, Turn(env))
  {
    forall s
      ensures WaitShown(env, s, Turn(env)(s))
    {
      AttemptWaits(env, s);
    }
  }

  /** The handlers after `AfterRetryHandler` let a request go on that was waited for. */
  predicate LetsGoOn(env: Env, k: nat) {
    var (err, retryable) := env.afterRetry(k, E.Nil, Some(true));
    Failure(err, retryable).GoesOn()
  }

  /**
   What `WillRetry` decides: where no failure is cleared, a turn whose attempt failed is followed by another exactly
   when it holds of the judged request, the wait is not cancelled, no later handler objects and the body can be
   rewound.
   */
  lemma WillRetryDecides(env: Env, s: State)
    requires NeverClears(env)
    requires var signed := SignStep(env, s.(err := E.Nil)).s;
             signed.err == E.Nil && SendRequestStep(env, signed).1 != E.Nil
    ensures AttemptStep(env, s).outcome == Again <==>
              && WillRetry(env, JudgedAt(env, s), s.attempts) && !env.doneAtSleep(s.attempts)
              && LetsGoOn(env, s.attempts) && env.bodySeek(s.attempts) == E.Nil
  {
    hide SignStep, SendRequestStep, Judge, NeverClears;
    var signed := SignStep(env, s.(err := E.Nil));
    var (sent, sendErr) := SendRequestStep(env, signed.s);
    SigningCountsNothing(env, s.(err := E.Nil));
    FailedAttempt(env, signed.s);
    WillRetryDecidesJudgement(env, s.attempts, signed.events + sent.events, sent.s, Failure(sendErr, sent.s.retryable));
  }

  lemma WillRetryDecidesJudgement(env: Env, k: nat, xs: seq<Event>, sent: State, f: Failure)
    requires NeverClears(env)
    requires f.Possible() && sent.err == env.completeAttempt(k, f.err) && sent.retryable == f.retryable
    ensures var (err, retryable) := env.retry(k, sent.err, sent.retryable);
            var judged := Assessed(env, sent.(err := err, retryable := retryable), k);
            Judge(env, k, xs, sent).outcome == Again <==>
              WillRetry(env, judged, k) && !env.doneAtSleep(k) && LetsGoOn(env, k) && env.bodySeek(k) == E.Nil
  {
    var x := Course(f, ChoiceTaken(env, k, sent));
    if x.choice != WaitDone {
      hide Judge, EndOf, Possible;
      JudgeTakesCourse(env, k, xs, sent, f);
      assert !CanClear(env, k) && !Clears(env, k, x);
    } else {
      WaitedJudgement(env, k, xs, sent);
    }
  }

  lemma WaitedJudgement(env: Env, k: nat, xs: seq<Event>, sent: State)
    requires ChoiceTaken(env, k, sent) == WaitDone
    ensures Judge(env, k, xs, sent).outcome == Again <==> LetsGoOn(env, k) && env.bodySeek(k) == E.Nil
  {
  }

  // -------------------------------------------------------------------- runs

  /** The request waited for in a turn, if it was. */
  function TurnWaited(env: Env, s: State, a: Attempt): seq<State> {
    if Sleeps(a.events) != [] then [JudgedAt(env, s)] else []
  }

  /** The requests that the turns of a run waited for, as they were judged. */
  function LoopWaited(env: Env, turn: State -> Attempt, s: State, limit: nat): seq<State>
    decreases limit
  {
    if limit == 0 then []
    else
      var a := turn(s);
      TurnWaited(env, s, a) + if a.outcome == Again then LoopWaited(env, turn, a.s, limit - 1) else []
  }

  /** The requests that `Send` waited for, each as it was judged after the attempt that failed. */
  function Waited(env: Env, s: State, limit: nat): seq<State> {
    if s.err != E.Nil then [] else LoopWaited(env, Turn(env), s.(attempts := 0), limit)
  }

  /** Each wait is the one ruled for the request waited for, which had a retry left; no attempt is waited for twice. */
  ghost predicate RuledInTurn(env: Env, sleeps: seq<Event>, waited: seq<State>, s: State) {
    && |sleeps| == |waited|
    && (forall i | 0 <= i < |sleeps| ::
          && s.attempts < waited[i].attempts && sleeps[i] == RuledSleep(env, waited[i])
          && s.retryCount <= waited[i].retryCount < env.retryer.maxRetries)
    && (forall i, j | 0 <= i < j < |sleeps| :: waited[i].attempts < waited[j].attempts)
  }

  /** Every wait but the last has counted a retry. */
  predicate CountedInTurn(env: Env, waited: seq<State>, s: State) {
    |waited| <= RetriesLeft(env, s) && forall i | 0 <= i < |waited| :: waited[i].retryCount == s.retryCount + i
  }

  lemma RuledBefore(env: Env, s: State, a: Attempt, sleeps: seq<Event>, waited: seq<State>)
    requires WaitShown(env, s, a)
    requires a.outcome == Again ==> RuledInTurn(env, sleeps, waited, a.s)
    requires a.outcome != Again ==> sleeps == [] && waited == []
    ensures RuledInTurn(env, Sleeps(a.events) + sleeps, TurnWaited(env, s, a) + waited, s)
  {
    hide JudgedAt, Sleeps, Count, RuledSleep, CanOverruleWait, CanWait;
  }

  lemma {:induction false} LoopWaits(env: Env, turn: State -> Attempt, s: State, limit: nat)
    requires TurnWaits(env, turn) && Loop(turn, s, limit).Some?
    ensures RuledInTurn(env, Sleeps(Loop(turn, s, limit).value.events), LoopWaited(env, turn, s, limit), s)
    decreases limit
  {
    hide JudgedAt, Sleeps, Count, RuledInTurn, WaitShown;
    var a := turn(s);
    assert WaitShown(env, s, a);
    var waited: seq<State> := [];
    var sleeps: seq<Event> := [];
    if a.outcome == Again {
      LoopWaits(env, turn, a.s, limit - 1);
      waited := LoopWaited(env, turn, a.s, limit - 1);
      sleeps := Sleeps(Loop(turn, a.s, limit - 1).value.events);
      SleepsConcat(a.events, Loop(turn, a.s, limit - 1).value.events);
    } else {
      assert Sleeps(a.events) + [] == Sleeps(a.events);
    }
    RuledBefore(env, s, a, sleeps, waited);
  }

  lemma CompleteSleepsNot(events: seq<Event>)
    ensures Sleeps(events + [Complete]) == Sleeps(events)
  {
    NoneOf([Complete]);
    SleepsConcat(events, [Complete]);
    assert Sleeps(events) + [] == Sleeps(events);
  }

  /** For any handlers: each wait is the one ruled for the request as it was judged after the attempt that failed. */
  lemma WaitsAreRuled(env: Env, s: State, limit: nat)
    requires SendWithin(env, s, limit).Some?
    ensures RuledInTurn(env, Sleeps(SendWithin(env, s, limit).value.events), Waited(env, s, limit), s.(attempts := 0))
  {
    hide Loop, AttemptStep, JudgedAt;
    if s.err == E.Nil {
      EveryTurnWaits(env);
      LoopWaits(env, Turn(env), s.(attempts := 0), limit);
      CompleteSleepsNot(Loop(Turn(env), s.(attempts := 0), limit).value.events);
    } else {
      CompleteSleepsNot([]);
      assert [] + [Complete] == [Complete];
    }
  }

  // -------------------------------------------------------- how many waits

  /** Some run may have a cancelled wait for the attempt `j` overruled, and wait again for the later attempt `k`. */
  ghost predicate CanOutwait(env: Env, j: nat, k: nat) {
    j < k && CanReach(env, k) && CanOverruleWait(env, j) && CanWait(env, k)
  }

  ghost predicate NeverOutwaits(env: Env) { forall j: nat, k: nat :: !CanOutwait(env, j, k) }

  /** After a cancelled wait that was overruled there is no other. */
  lemma {:induction false} LoopSilent(env: Env, turn: State -> Attempt, s: State, limit: nat, j: nat)
    requires TurnWaits(env, turn) && TurnAccounted(env, turn) && NeverOutwaits(env)
    requires j < s.attempts && CanReach(env, s.attempts) && CanOverruleWait(env, j)
    ensures LoopWaited(env, turn, s, limit) == []
    decreases limit
  {
    hide JudgedAt, Sleeps, Count, RuledSleep, CanOverruleWait, CanWait;
    if limit > 0 {
      var a := turn(s);
      assert WaitShown(env, s, a) && Accounted(env, s, a) && !CanOutwait(env, j, s.attempts);
      if a.outcome == Again {
        LoopSilent(env, turn, a.s, limit - 1, j);
      }
    }
  }

  lemma {:induction false} LoopCounted(env: Env, turn: State -> Attempt, s: State, limit: nat)
    requires TurnWaits(env, turn) && TurnAccounted(env, turn) && NeverOutwaits(env)
    requires CanReach(env, s.attempts)
    ensures CountedInTurn(env, LoopWaited(env, turn, s, limit), s)
    decreases limit
  {
    hide JudgedAt, Sleeps, Count, RuledSleep, CanOverruleWait, CanWait, NeverOutwaits;
    if limit > 0 {
      var a := turn(s);
      assert WaitShown(env, s, a) && Accounted(env, s, a);
      if a.outcome == Again {
        LoopCounted(env, turn, a.s, limit - 1);
        if a.s.retryCount != s.retryCount + |Sleeps(a.events)| {
          LoopSilent(env, turn, a.s, limit - 1, s.attempts);
        }
      }
    }
  }

  lemma WaitsAreCounted(env: Env, s: State, limit: nat)
    requires NeverOutwaits(env)
    ensures CountedInTurn(env, Waited(env, s, limit), s)
  {
    hide AttemptStep, JudgedAt, NeverOutwaits, TurnWaits, TurnAccounted;
    if s.err == E.Nil {
      EveryTurnWaits(env);
      EveryTurnAccounted(env);
      LoopCounted(env, Turn(env), s.(attempts := 0), limit);
    }
  }

  lemma QuietHandlersNeverOutwait(env: Env)
    requires QuietHandlers(env)
    ensures NeverOutwaits(env)
  {
  }

  /** How many of the first `n` planned attempts use up a retry. */
  function RetriesOf(plan: nat -> Course, n: nat): nat {
    if n == 0 then 0 else RetriesOf(plan, n - 1) + if plan(n - 1).choice == WaitDone then 1 else 0
  }

  lemma {:induction false} RetriesGrow(plan: nat -> Course, m: nat, n: nat)
    requires m <= n
    ensures RetriesOf(plan, m) <= RetriesOf(plan, n)
    decreases n
  {
    if m < n {
      RetriesGrow(plan, m, n - 1);
    }
  }

  /** Runs in which the attempt `j` takes the course `y`, the later `k` the course `z`, and the next succeeds. */
  ghost function OutwaitingPlan(env: Env, j: nat, k: nat, y: Course, z: Course): nat -> Course {
    (i: nat) =>
      if i == j then y else if i < k then GoingOn(env, i) else if i == k then z
      else Course(Failure(E.Nil, None), Kept(false))
  }

  ghost predicate Outwaits(env: Env, j: nat, k: nat, y: Course, z: Course) {
    && j < k && CanReach(env, k)
    && MayGoOn(env, j, y) && y.choice == WaitCanceled
    && Possible(env, k, z) && !z.choice.Kept?
  }

  /** A world with one retry more than are used up before the attempt `k`. */
  ghost function OutwaitingWorld(env: Env, j: nat, k: nat, y: Course, z: Course): Env {
    var plan := OutwaitingPlan(env, j, k, y, z);
    Planned(env, plan, RetriesOf(plan, k) + 1)
  }

  lemma SleepIsSeen(events: seq<Event>)
    requires HasSleep(events)
    ensures Sleeps(events) != []
  {
    var i :| 0 <= i < |events| && events[i].Sleep?;
    SleepsConcat(events[..i], events[i..]);
    assert events[..i] + events[i..] == events && events[i..][0] == events[i];
  }

  /** From the attempt `s.attempts` on there are as many waits as retries used up, and two that use up none. */
  lemma {:induction false} LoopOutwaits(env: Env, j: nat, k: nat, y: Course, z: Course, turn: State -> Attempt,
                                        s: State)
    requires Outwaits(env, j, k, y, z) && turn == Turn(OutwaitingWorld(env, j, k, y, z))
    requires TurnWaits(OutwaitingWorld(env, j, k, y, z), turn)
    requires s.attempts <= k && s.retryCount == RetriesOf(OutwaitingPlan(env, j, k, y, z), s.attempts)
    ensures var plan := OutwaitingPlan(env, j, k, y, z);
            var waited := LoopWaited(OutwaitingWorld(env, j, k, y, z), turn, s, k - s.attempts + 2);
            && Loop(turn, s, k - s.attempts + 2).Some?
            && |waited| >= RetriesOf(plan, k) - s.retryCount + (if s.attempts <= j then 2 else 1)
    decreases k - s.attempts
  {
    hide AttemptStep, Planned, EndOf, Possible, JudgedAt, Sleeps, Count, CanWait, CanOverruleWait, GoingOn, HasSleep;
    var world, plan, i := OutwaitingWorld(env, j, k, y, z), OutwaitingPlan(env, j, k, y, z), s.attempts;
    RetriesGrow(plan, i, k);
    assert i < k && i != j ==> CanGoOn(env, i);
    PlannedTurn(env, plan, RetriesOf(plan, k) + 1, s);
    var a := turn(s);
    assert WaitShown(world, s, a);
    if !plan(i).choice.Kept? {
      SleepIsSeen(a.events);
    }
    if i < k {
      assert RetriesOf(plan, i + 1) == RetriesOf(plan, i) + if plan(i).choice == WaitDone then 1 else 0;
      LoopOutwaits(env, j, k, y, z, turn, a.s);
    } else if a.outcome == Again {
      SuccessfulTurn(env, plan, RetriesOf(plan, k) + 1, a.s);
      assert Loop(turn, a.s, 1).Some?;
    }
  }

  /** However a run goes on, `Send` waits at most once for every retry left. */
  ghost predicate WaitsFit(env: Env) {
    forall s, limit | SendWithin(env, s, limit).Some? ::
      |Sleeps(SendWithin(env, s, limit).value.events)| <= RetriesLeft(env, s)
  }

  lemma SomeWorldOutwaits(env: Env, j: nat, k: nat) returns (world: Env)
    requires CanOutwait(env, j, k)
    ensures TreatsFailuresAlike(env, world) && !WaitsFit(world)
  {
    hide AttemptStep, Loop, Possible, EndOf, LoopWaited, TurnWaits, Sleeps;
    var y :| MayGoOn(env, j, y) && y.choice == WaitCanceled;
    var z :| Possible(env, k, z) && !z.choice.Kept?;
    world := OutwaitingWorld(env, j, k, y, z);
    EveryTurnWaits(world);
    LoopOutwaits(env, j, k, y, z, Turn(world), NEW_REQUEST);
    assert SendWithin(world, NEW_REQUEST, k + 2).Some?;
    WaitsAreRuled(world, NEW_REQUEST, k + 2);
  }

  lemma OutwaitsAlike(env: Env, world: Env, j: nat, k: nat)
    requires TreatsFailuresAlike(env, world)
    ensures CanOutwait(world, j, k) <==> CanOutwait(env, j, k)
  {
    forall i: nat
      ensures CanGoOn(world, i) <==> CanGoOn(env, i)
    {
      AlikeInAll(env, world, i);
    }
    assert forall i, x :: MayGoOn(world, i, x) <==> MayGoOn(env, i, x);
    assert forall i, x :: Possible(world, i, x) <==> Possible(env, i, x);
  }

  /**
   Whatever the transport, the context, the retryer and all handlers beyond those that `TreatsFailuresAlike` fixes do,
   `Send` waits at most once for every retry left, if and only if no run can have a cancelled wait overruled and wait
   again for a later attempt. The default handlers overrule none.
   */
  lemma WaitsFitExactlyWhen(env: Env)
    ensures (forall world | TreatsFailuresAlike(env, world) :: WaitsFit(world)) <==> NeverOutwaits(env)
  {
    hide SendWithin, CanOutwait, TreatsFailuresAlike, Sleeps, Waited;
    if j: nat, k: nat :| CanOutwait(env, j, k) {
      var world := SomeWorldOutwaits(env, j, k);
    } else {
      forall world | TreatsFailuresAlike(env, world)
        ensures WaitsFit(world)
      {
        forall j: nat, k: nat
          ensures !CanOutwait(world, j, k)
        {
          OutwaitsAlike(env, world, j, k);
        }
        forall s, limit | SendWithin(world, s, limit).Some?
          ensures |Sleeps(SendWithin(world, s, limit).value.events)| <= RetriesLeft(world, s)
        {
          WaitsAreRuled(world, s, limit);
          WaitsAreCounted(world, s, limit);
        }
      }
    }
  }

  // ------------------------------------------------------ how many attempts

  /** Every attempt but the last is waited for. */
  predicate EveryAttemptWaits(waited: seq<State>, first: nat) {
    forall i | 0 <= i < |waited| :: waited[i].attempts == first + i + 1
  }

  lemma {:induction false} LoopAttempts(env: Env, turn: State -> Attempt, s: State, limit: nat)
    requires TurnWaits(env, turn) && TurnAccounted(env, turn) && NeverClears(env)
    requires Loop(turn, s, limit).Some?
    ensures Count(Loop(turn, s, limit).value.events, Send) <= RetriesLeft(env, s) + 1
    ensures EveryAttemptWaits(LoopWaited(env, turn, s, limit), s.attempts)
    decreases limit
  {
    hide JudgedAt, Sleeps, Count, RuledSleep;
    var a := turn(s);
    assert WaitShown(env, s, a) && Accounted(env, s, a);
    if a.outcome == Again {
      LoopAttempts(env, turn, a.s, limit - 1);
      CountConcat(a.events, Loop(turn, a.s, limit - 1).value.events, Send);
    }
  }

  /**
   Where no failure is cleared: at most one attempt more than there are retries left, and every attempt but the last
   is waited for, so that the i-th wait follows the i-th attempt.
   */
  lemma AttemptsAndWaits(env: Env, s: State, limit: nat)
    requires NeverClears(env) && SendWithin(env, s, limit).Some?
    ensures Count(SendWithin(env, s, limit).value.events, Send) <= RetriesLeft(env, s) + 1
    ensures EveryAttemptWaits(Waited(env, s, limit), 0)
  {
    hide Loop, AttemptStep, JudgedAt;
    if s.err == E.Nil {
      EveryTurnWaits(env);
      EveryTurnAccounted(env);
      LoopAttempts(env, Turn(env), s.(attempts := 0), limit);
      CompleteEndsTheLoop(env, s, limit);
      CountConcat(Loop(Turn(env), s.(attempts := 0), limit).value.events, [Complete], Send);
      NoneOf([Complete]);
    } else {
      NoneOf([Complete]);
    }
  }

  // --------------------------------------------------- what ends each wait

  datatype WaitEnd = SeenCanceled | CredentialsExpired | JustOver

  /** What follows a wait. */
  function EndBy(events: seq<Event>): WaitEnd {
    if events == [] then JustOver
    else if events[0] == CancelSeen then SeenCanceled
    else if events[0] == ExpireCredentials then CredentialsExpired else JustOver
  }

  /** What follows each of the waits. */
  function WaitEnds(events: seq<Event>): seq<WaitEnd> {
    if events == [] then []
    else (if events[0].Sleep? then [EndBy(events[1..])] else []) + WaitEnds(events[1..])
  }

  /** What the documentation says: credentials found expired are expired before the next attempt gets new ones. */
  function ExpectedEnd(env: Env, judged: State): WaitEnd
    requires judged.attempts >= 1
  {
    if env.doneAtSleep(judged.attempts - 1) then SeenCanceled
    else if judged.err.Aws? && E.Code(judged.err.aws) in {"ExpiredToken", "ExpiredTokenException", "RequestExpired"}
    then CredentialsExpired
    else JustOver
  }

  lemma EndByFirst(xs: seq<Event>, ys: seq<Event>)
    requires ys == [] || ys[0] !in {CancelSeen, ExpireCredentials}
    ensures EndBy(xs + ys) == EndBy(xs)
  {
    if xs == [] {
      assert xs + ys == ys;
    } else {
      assert (xs + ys)[0] == xs[0];
    }
  }

  lemma {:induction false} WaitEndsConcat(xs: seq<Event>, ys: seq<Event>)
    requires ys == [] || ys[0] !in {CancelSeen, ExpireCredentials}
    ensures WaitEnds(xs + ys) == WaitEnds(xs) + WaitEnds(ys)
  {
    hide EndBy;
    if xs == [] {
      assert xs + ys == ys;
    } else {
      assert (xs + ys)[1..] == xs[1..] + ys && (xs + ys)[0] == xs[0];
      EndByFirst(xs[1..], ys);
      WaitEndsConcat(xs[1..], ys);
    }
  }

  lemma {:induction false} NothingEnds(events: seq<Event>)
    requires forall i | 0 <= i < |events| :: !events[i].Sleep?
    ensures WaitEnds(events) == []
  {
    if events != [] {
      NothingEnds(events[1..]);
    }
  }

  lemma {:induction false} NothingSlept(events: seq<Event>)
    requires Sleeps(events) == []
    ensures WaitEnds(events) == []
  {
    if events != [] {
      NothingSlept(events[1..]);
    }
  }

  lemma AfterRetryEnds(env: Env, k: nat, sent: State)
    requires sent.attempts == k + 1
    ensures var (err, retryable) := env.retry(k, sent.err, sent.retryable);
            var judging := sent.(err := err, retryable := retryable);
            var judged := Assessed(env, judging, k);
            var after := AfterRetryStep(env, judging, k);
            && judged.attempts >= 1
            && (after.events == [] || after.events[0].Sleep?)
            && WaitEnds(after.events) == (if WillRetry(env, judged, k) then [ExpectedEnd(env, judged)] else [])
  {
    var (err, retryable) := env.retry(k, sent.err, sent.retryable);
    var events := AfterRetryStep(env, sent.(err := err, retryable := retryable), k).events;
    AfterRetryEvents(env, sent.(err := err, retryable := retryable), k);
    if events != [] {
      NothingEnds(events[1..]);
      assert WaitEnds(events) == [EndBy(events[1..])];
    }
  }

  lemma JudgeEnds(env: Env, k: nat, xs: seq<Event>, sent: State)
    requires sent.attempts == k + 1 && WaitEnds(xs) == []
    ensures var (err, retryable) := env.retry(k, sent.err, sent.retryable);
            var judged := Assessed(env, sent.(err := err, retryable := retryable), k);
            && judged.attempts >= 1
            && WaitEnds(Judge(env, k, xs, sent).events)
               == (if ChoiceTaken(env, k, sent).Kept? then [] else [ExpectedEnd(env, judged)])
  {
    hide AfterRetryStep, WaitEnds, ExpectedEnd, EndBy;
    var (err, retryable) := env.retry(k, sent.err, sent.retryable);
    var judging := sent.(err := err, retryable := retryable);
    var after := AfterRetryStep(env, judging, k);
    AfterRetryEnds(env, k, sent);
    NothingEnds([Retry, AfterRetry]);
    WaitEndsConcat(xs, [Retry, AfterRetry]);
    WaitEndsConcat(xs + [Retry, AfterRetry], after.events);
    assert [] + WaitEnds(after.events) == WaitEnds(after.events);
  }

  /** How the wait of a turn ends, if there is one; a turn does not begin with the end of a wait. */
  predicate EndShown(env: Env, s: State, a: Attempt) {
    var judged := JudgedAt(env, s);
    && (a.events == [] || a.events[0] !in {CancelSeen, ExpireCredentials})
    && judged.attempts >= 1
    && WaitEnds(a.events) == if Sleeps(a.events) == [] then [] else [ExpectedEnd(env, judged)]
  }

  lemma JudgedAfterAttempt(env: Env, s: State)
    ensures JudgedAt(env, s).attempts == s.attempts + 1
  {
    hide SignStep, SendRequestStep;
    SigningCountsNothing(env, s.(err := E.Nil));
    FailedAttempt(env, SignStep(env, s.(err := E.Nil)).s);
  }

  lemma AttemptEnds(env: Env, s: State)
    ensures EndShown(env, s, AttemptStep(env, s))
  {
    hide SignStep, SendRequestStep, Judge, Sleeps, Count, WaitEnds, Assessed, ChoiceTaken;
    var signed := SignStep(env, s.(err := E.Nil));
    SignEvents(env, s.(err := E.Nil));
    SigningCountsNothing(env, s.(err := E.Nil));
    NothingEnds(signed.events);
    NoneOf(signed.events);
    JudgedAfterAttempt(env, s);
    var (sent, sendErr) := SendRequestStep(env, signed.s);
    FailedAttempt(env, signed.s);
    if signed.s.err == E.Nil {
      SendRequestEvents(env, signed.s);
      SignAndSendCounts(signed.events, sent.events);
      NothingSlept(signed.events + sent.events);
      if sendErr != E.Nil {
        JudgeEnds(env, s.attempts, signed.events + sent.events, sent.s);
        JudgeSleeps(env, s.attempts, signed.events + sent.events, sent.s);
        JudgeStarts(env, s.attempts, signed.events + sent.events, sent.s);
      }
    }
  }

  lemma JudgeStarts(env: Env, k: nat, xs: seq<Event>, sent: State)
    requires xs != []
    ensures Judge(env, k, xs, sent).events != [] && Judge(env, k, xs, sent).events[0] == xs[0]
  {
  }

  ghost predicate TurnEnds(env: Env, turn: State -> Attempt) { forall s :: EndShown(env, s, turn(s)) }

  lemma {:induction false} LoopStarts(env: Env, turn: State -> Attempt, s: State, limit: nat)
    requires TurnEnds(env, turn) && TurnResult(env, turn) && Loop(turn, s, limit).Some?
    ensures Loop(turn, s, limit).value.events[..1] == turn(s).events[..1] != []
  {
    assert EndShown(env, s, turn(s)) && ResultShown(env, turn(s));
  }

  /** Each wait ends as the request waited for, and the context, say. */
  predicate EndsAsExpected(env: Env, ends: seq<WaitEnd>, waited: seq<State>) {
    && |ends| == |waited|
    && forall i | 0 <= i < |waited| :: waited[i].attempts >= 1 && ends[i] == ExpectedEnd(env, waited[i])
  }

  lemma {:induction false} LoopWaitEnds(env: Env, turn: State -> Attempt, s: State, limit: nat)
    requires TurnEnds(env, turn) && TurnResult(env, turn) && Loop(turn, s, limit).Some?
    ensures EndsAsExpected(env, WaitEnds(Loop(turn, s, limit).value.events), LoopWaited(env, turn, s, limit))
    decreases limit
  {
    hide JudgedAt, Sleeps, WaitEnds, ExpectedEnd;
    var a := turn(s);
    assert EndShown(env, s, a);
    if a.outcome == Again {
      var rest := Loop(turn, a.s, limit - 1).value.events;
      LoopWaitEnds(env, turn, a.s, limit - 1);
      LoopStarts(env, turn, a.s, limit - 1);
      assert EndShown(env, a.s, turn(a.s)) && rest[0] == turn(a.s).events[0];
      WaitEndsConcat(a.events, rest);
    }
  }

  lemma {:induction false} ExpiresOnlyAfterWait(p: Phase, events: seq<Event>)
    requires FollowAll(p, events).Some?
    ensures forall i | 1 <= i < |events| && events[i] == ExpireCredentials :: events[i - 1].Sleep?
    ensures events != [] && events[0] == ExpireCredentials ==> p == Slept
    decreases |events|
  {
    if events != [] {
      var q := Follow(p, events[0]).value;
      ExpiresOnlyAfterWait(q, events[1..]);
      assert q == Slept ==> events[0].Sleep?;
      forall i | 1 <= i < |events| && events[i] == ExpireCredentials
        ensures events[i - 1].Sleep?
      {
        assert events[i] == events[1..][i - 1];
        assert i > 1 ==> events[i - 1] == events[1..][i - 2];
      }
    }
  }

  /**
   For any handlers: the credentials are expired right after a wait and at no other time, and after each wait exactly
   if it was not cancelled and the request had failed with one of the codes for expired credentials.
   */
  lemma CredentialsExpireExactlyWhen(env: Env, s: State, limit: nat)
    requires SendWithin(env, s, limit).Some?
    ensures var events := SendWithin(env, s, limit).value.events;
            && EndsAsExpected(env, WaitEnds(events), Waited(env, s, limit))
            && (forall i | 0 <= i < |events| && events[i] == ExpireCredentials :: i > 0 && events[i - 1].Sleep?)
  {
    hide Loop, AttemptStep, JudgedAt, WaitEnds, ExpectedEnd;
    SendInGrammar(env, s, limit);
    ExpiresOnlyAfterWait(Start, SendWithin(env, s, limit).value.events);
    NothingEnds([Complete]);
    if s.err == E.Nil {
      forall s
        ensures EndShown(env, s, Turn(env)(s))
      {
        AttemptEnds(env, s);
      }
      EveryTurnResult(env);
      LoopWaitEnds(env, Turn(env), s.(attempts := 0), limit);
      WaitEndsConcat(Loop(Turn(env), s.(attempts := 0), limit).value.events, [Complete]);
    } else {
      assert [] + [Complete] == [Complete];
    }
  }
}
