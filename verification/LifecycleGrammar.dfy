/** The order in which any run of `Send` goes through its handler lists. */
module LifecycleGrammar {
  import opened Prelude
  import E = Errors
  import opened Lifecycle

  // ---------------------------------------------------------------- grammar

  /** The stages of a run, as told apart by the events seen so far. */
  datatype Phase =
    | Start | Validated | Built | Signed
    | Sending | Resigned | SendCanceled
    | GotMeta | Checked | Parsed
    | Attempted | AttemptFailed
    | Retried | Judged | Slept | Expired | SleepCanceled
    | Finished

  function Follow(p: Phase, e: Event): Option<Phase> {
    match p
    case Start =>
      if e == Validate then Some(Validated)
      else if e == Sign then Some(Signed)
      else if e == Complete then Some(Finished) else None
    case Validated => if e == Build then Some(Built) else if e == Complete then Some(Finished) else None
    case Built => if e == Sign then Some(Signed) else if e == Complete then Some(Finished) else None
    case Signed => if e == Send then Some(Sending) else if e == Complete then Some(Finished) else None
    case Sending => if e == Resign then Some(Resigned) else FollowSend(e)
    case Resigned => FollowSend(e)
    case SendCanceled => if e == CompleteAttempt then Some(AttemptFailed) else None
    case GotMeta => if e == ValidateResponse then Some(Checked) else None
    case Checked => if e == Unmarshal || e == UnmarshalError then Some(Parsed) else None
    case Parsed => if e == CompleteAttempt then Some(Attempted) else None
    case Attempted => if e == Retry then Some(Retried) else if e == Complete then Some(Finished) else None
    case AttemptFailed => if e == Retry then Some(Retried) else None
    case Retried => if e == AfterRetry then Some(Judged) else None
    case Judged => if e.Sleep? then Some(Slept) else FollowRetry(e)
    case Slept =>
      if e == CancelSeen then Some(SleepCanceled)
      else if e == ExpireCredentials then Some(Expired) else FollowRetry(e)
    case Expired => FollowRetry(e)
    case SleepCanceled => FollowRetry(e)
    case Finished => None
  }

  function FollowSend(e: Event): Option<Phase> {
    if e == UnmarshalMeta then Some(GotMeta)
    else if e == CancelSeen then Some(SendCanceled)
    else if e == CompleteAttempt then Some(AttemptFailed) else None
  }

  function FollowRetry(e: Event): Option<Phase> {
    if e == Sign then Some(Signed) else if e == Complete then Some(Finished) else None
  }

  function FollowAll(p: Phase, events: seq<Event>): Option<Phase>
    decreases |events|
  {
    if events == [] then Some(p)
    else
      match Follow(p, events[0])
      case None => None
      case Some(q) => FollowAll(q, events[1..])
  }

  predicate InGrammar(events: seq<Event>) { FollowAll(Start, events) == Some(Finished) }

  lemma {:induction false} FollowConcat(p: Phase, xs: seq<Event>, ys: seq<Event>)
    requires FollowAll(p, xs).Some?
    ensures FollowAll(p, xs + ys) == FollowAll(FollowAll(p, xs).value, ys)
    decreases |xs|
  {
    if xs == [] {
      assert xs + ys == ys;
    } else {
      assert (xs + ys)[0] == xs[0] && (xs + ys)[1..] == xs[1..] + ys;
      FollowConcat(Follow(p, xs[0]).value, xs[1..], ys);
    }
  }

  /** Where a turn of the loop may begin. */
  predicate BetweenAttempts(p: Phase, s: State) {
    if s.built then p in {Start, Judged, Slept, Expired, SleepCanceled} else p == Start
  }

  /** From `p`, the events and then Complete end the run. */
  predicate Ends(p: Phase, events: seq<Event>) { FollowAll(p, events + [Complete]) == Some(Finished) }

  lemma EndsAfter(p: Phase, xs: seq<Event>, q: Phase, ys: seq<Event>)
    requires FollowAll(p, xs) == Some(q)
    ensures Ends(p, xs + ys) <==> Ends(q, ys)
    ensures Ends(p, xs) <==> Follow(q, Complete) == Some(Finished)
  {
    FollowConcat(p, xs, ys + [Complete]);
    assert xs + ys + [Complete] == xs + (ys + [Complete]);
    FollowConcat(p, xs, [Complete]);
    assert [Complete][1..] == [];
  }

  lemma FollowNothing(p: Phase)
    ensures FollowAll(p, []) == Some(p)
  {
  }

  lemma Follow1(p: Phase, a: Event)
    ensures FollowAll(p, [a]) == Follow(p, a)
  {
    assert [a][1..] == [];
  }

  lemma Follow2(p: Phase, a: Event, b: Event)
    ensures Follow(p, a).Some? ==> FollowAll(p, [a, b]) == Follow(Follow(p, a).value, b)
  {
    assert [a, b][1..] == [b];
    if Follow(p, a).Some? {
      Follow1(Follow(p, a).value, b);
    }
  }

  lemma Follow3(p: Phase, a: Event, b: Event, c: Event)
    requires Follow(p, a).Some?
    ensures FollowAll(p, [a, b, c]) == FollowAll(Follow(p, a).value, [b, c])
  {
    assert [a, b, c][1..] == [b, c];
  }

  lemma SignFollows(env: Env, s: State, p: Phase)
    requires BetweenAttempts(p, s)
    ensures var signed := SignStep(env, s.(err := E.Nil));
            && Ends(p, signed.events)
            && (signed.s.err == E.Nil ==> FollowAll(p, signed.events) == Some(Signed) && signed.s.built)
            && signed.s.attempts == s.attempts
  {
    hide FollowAll, Ends;
    var signed := SignStep(env, s.(err := E.Nil));
    if s.built {
      assert signed.events == [Sign];
    } else if |signed.events| == 3 {
      assert signed.events == [Validate, Build, Sign];
    } else {
      assert signed.events in {[Validate], [Validate, Build]};
    }
    SignEventsFollow(p, signed.events);
  }

  /** Where the events of `Sign` lead to. */
  function SignPhase(events: seq<Event>): Phase {
    if events == [Validate] then Validated else if events == [Validate, Build] then Built else Signed
  }

  /** Validate and Build run before the first Sign only. */
  lemma SignEventsFollow(p: Phase, events: seq<Event>)
    requires p in {Start, Judged, Slept, Expired, SleepCanceled}
    requires if p == Start
             then events in {[Sign], [Validate], [Validate, Build], [Validate, Build, Sign]} else events == [Sign]
    ensures Ends(p, events) && FollowAll(p, events) == Some(SignPhase(events))
  {
    hide FollowAll, Ends;
    Follow1(p, Sign);
    Follow1(Start, Validate);
    Follow2(Start, Validate, Build);
    Follow3(Start, Validate, Build, Sign);
    Follow2(Validated, Build, Sign);
    EndsAfter(p, events, SignPhase(events), []);
  }

  /** The events of the Send handlers: a signature renewed or not, and a cancellation seen or not. */
  lemma SendEventsFollow()
    ensures FollowAll(Signed, [Send]) == Some(Sending) && FollowAll(Signed, [Send, Resign]) == Some(Resigned)
    ensures FollowAll(Signed, [Send] + [CancelSeen]) == Some(SendCanceled)
    ensures FollowAll(Signed, [Send, Resign] + [CancelSeen]) == Some(SendCanceled)
  {
    hide FollowAll;
    Follow1(Signed, Send);
    Follow2(Signed, Send, Resign);
    FollowConcat(Signed, [Send], [CancelSeen]);
    FollowConcat(Signed, [Send, Resign], [CancelSeen]);
    Follow1(Sending, CancelSeen);
    Follow1(Resigned, CancelSeen);
  }

  lemma TransportFollows(env: Env, s: State)
    ensures var sent := TransportStep(env, s);
            var q := FollowAll(Signed, sent.events);
            && q.Some? && q.value in {Sending, Resigned, SendCanceled}
            && (q.value == SendCanceled ==> sent.s.err != E.Nil)
            && sent.s.built == s.built
  {
    hide FollowAll;
    SendEventsFollow();
    assert [Send] + [] == [Send] && [Send, Resign] + [] == [Send, Resign];
  }

  lemma ResponseFollows(env: Env, s: State, p: Phase)
    requires p in {Sending, Resigned}
    ensures FollowAll(p, ResponseStep(env, s).events) == Some(Parsed)
  {
    hide FollowAll;
    var events := ResponseStep(env, s).events;
    assert events == [UnmarshalMeta, ValidateResponse, events[2]];
    Follow3(p, UnmarshalMeta, ValidateResponse, events[2]);
    Follow2(GotMeta, ValidateResponse, events[2]);
  }

  lemma Chain(p: Phase, xs: seq<Event>, q: Phase, ys: seq<Event>, r: Phase, zs: seq<Event>)
    requires FollowAll(p, xs) == Some(q) && FollowAll(q, ys) == Some(r)
    ensures FollowAll(p, xs + ys) == Some(r)
    ensures FollowAll(p, xs + ys + zs) == FollowAll(r, zs)
  {
    FollowConcat(p, xs, ys);
    FollowConcat(p, xs + ys, zs);
  }

  lemma CompleteAttemptFollows(p: Phase)
    requires p in {Sending, Resigned, SendCanceled, Parsed}
    ensures FollowAll(p, [CompleteAttempt]) == Some(if p == Parsed then Attempted else AttemptFailed)
  {
  }

  lemma SendRequestFollows(env: Env, s: State)
    ensures var (sent, sendErr) := SendRequestStep(env, s);
            var q := FollowAll(Signed, sent.events);
            && q.Some? && q.value in {Attempted, AttemptFailed}
            && (sendErr == E.Nil ==> q == Some(Attempted))
            && sent.s.built == s.built
  {
    hide TransportStep, ResponseStep;
    var sent := TransportStep(env, s.(retryable := None));
    TransportFollows(env, s.(retryable := None));
    var q := FollowAll(Signed, sent.events).value;
    if sent.s.err == E.Nil {
      ResponseFollows(env, sent.s, q);
      ResponseKeeps(env, sent.s);
      CompleteAttemptFollows(Parsed);
      Chain(Signed, sent.events, q, ResponseStep(env, sent.s).events, Parsed, [CompleteAttempt]);
    } else {
      CompleteAttemptFollows(q);
      Chain(Signed, sent.events, q, [], q, [CompleteAttempt]);
    }
  }

  /** The phases in which a new turn of the loop begins. */
  predicate Resumes(q: Option<Phase>) { q.Some? && q.value in {Judged, Slept, Expired, SleepCanceled} }

  /** The events `AfterRetryHandler` may leave. */
  predicate RetryEvents(events: seq<Event>) {
    || events == []
    || (|events| == 1 && events[0].Sleep?)
    || (|events| == 2 && events[0].Sleep? && events[1] in {CancelSeen, ExpireCredentials})
  }

  /** Where the events of `AfterRetryHandler` lead to. */
  function AfterRetryPhase(events: seq<Event>): Phase
    requires RetryEvents(events)
  {
    if events == [] then Judged
    else if |events| == 1 then Slept
    else if events[1] == CancelSeen then SleepCanceled else Expired
  }

  lemma RetryEventsLead(events: seq<Event>)
    requires RetryEvents(events)
    ensures FollowAll(Judged, events) == Some(AfterRetryPhase(events))
  {
    hide FollowAll;
    if events == [] {
      FollowNothing(Judged);
    } else if |events| == 1 {
      assert events == [events[0]];
      Follow1(Judged, events[0]);
    } else {
      assert events == [events[0], events[1]];
      Follow2(Judged, events[0], events[1]);
    }
  }

  lemma RetryEventsFollow(events: seq<Event>)
    requires RetryEvents(events)
    ensures Ends(Judged, events) && Resumes(FollowAll(Judged, events))
  {
    hide FollowAll, Ends;
    RetryEventsLead(events);
    EndsAfter(Judged, events, AfterRetryPhase(events), []);
  }

  lemma AfterRetryEvents(env: Env, s: State, k: nat)
    ensures var after := AfterRetryList(env, s, k);
            && after.s.built == s.built && after.s.attempts == s.attempts
            && RetryEvents(after.events)
  {
  }

  lemma AfterRetryFollows(env: Env, s: State, k: nat)
    ensures var after := AfterRetryList(env, s, k);
            && Ends(Judged, after.events) && Resumes(FollowAll(Judged, after.events))
            && after.s.built == s.built
  {
    AfterRetryEvents(env, s, k);
    RetryEventsFollow(AfterRetryList(env, s, k).events);
  }

  lemma JudgeFollows(env: Env, k: nat, xs: seq<Event>, sent: State, p: Phase)
    requires sent.built
    requires FollowAll(p, xs) in {Some(Attempted), Some(AttemptFailed)}
    ensures var a := Judge(env, k, xs, sent);
            if a.outcome == Again then a.s.built && Resumes(FollowAll(p, a.events)) else Ends(p, a.events)
  {
    hide FollowAll, Ends, AfterRetryList;
    var (err, retryable) := env.retry(k, sent.err, sent.retryable);
    var judging := sent.(err := err, retryable := retryable);
    var q := FollowAll(p, xs).value;
    var after := AfterRetryList(env, judging, k);
    Follow2(q, Retry, AfterRetry);
    AfterRetryFollows(env, judging, k);
    Chain(p, xs, q, [Retry, AfterRetry], Judged, after.events);
    EndsAfter(p, xs + [Retry, AfterRetry], Judged, after.events);
  }

  lemma SentFollows(env: Env, s: State, xs: seq<Event>, p: Phase)
    requires FollowAll(p, xs) == Some(Signed)
    ensures var (sent, sendErr) := SendRequestStep(env, s);
            && FollowAll(p, xs + sent.events) in {Some(Attempted), Some(AttemptFailed)}
            && (sendErr == E.Nil ==> Ends(p, xs + sent.events))
            && sent.s.built == s.built
  {
    hide SendRequestStep, FollowAll;
    var (sent, sendErr) := SendRequestStep(env, s);
    SendRequestFollows(env, s);
    var q := FollowAll(Signed, sent.events).value;
    Chain(p, xs, Signed, sent.events, q, []);
    EndsAfter(p, xs + sent.events, q, []);
  }

  lemma AttemptFollows(env: Env, s: State, p: Phase)
    requires BetweenAttempts(p, s)
    ensures var a := AttemptStep(env, s);
            if a.outcome == Again then a.s.built && Resumes(FollowAll(p, a.events)) else Ends(p, a.events)
  {
    var signed := SignStep(env, s.(err := E.Nil));
    SignFollows(env, s, p);
    if signed.s.err == E.Nil {
      var (sent, sendErr) := SendRequestStep(env, signed.s);
      SentFollows(env, signed.s, signed.events, p);
      if sendErr != E.Nil {
        JudgeFollows(env, s.attempts, signed.events + sent.events, sent.s, p);
      }
    }
  }

  ghost predicate TurnFollows(turn: State -> Attempt) {
    forall s, p | BetweenAttempts(p, s) ::
      if turn(s).outcome == Again
      then turn(s).s.built && Resumes(FollowAll(p, turn(s).events))
      else Ends(p, turn(s).events)
  }

  lemma {:induction false} LoopFollows(turn: State -> Attempt, s: State, limit: nat, p: Phase)
    requires TurnFollows(turn) && BetweenAttempts(p, s)
    requires Loop(turn, s, limit).Some?
    ensures Ends(p, Loop(turn, s, limit).value.events)
    decreases limit
  {
    hide FollowAll, Ends;
    var a := turn(s);
    if a.outcome == Again {
      var q := FollowAll(p, a.events).value;
      LoopFollows(turn, a.s, limit - 1, q);
      EndsAfter(p, a.events, q, Loop(turn, a.s, limit - 1).value.events);
    }
  }

  /** Whatever the handlers, the transport and the context do, a `Send` that returns went through the grammar. */
  lemma SendInGrammar(env: Env, s: State, limit: nat)
    requires SendWithin(env, s, limit).Some?
    ensures InGrammar(SendWithin(env, s, limit).value.events)
  {
    if s.err == E.Nil {
      forall s, p | BetweenAttempts(p, s)
        ensures if Turn(env)(s).outcome == Again
                then Turn(env)(s).s.built && Resumes(FollowAll(p, Turn(env)(s).events))
                else Ends(p, Turn(env)(s).events)
      {
        AttemptFollows(env, s, p);
      }
      LoopFollows(Turn(env), s.(attempts := 0), limit, Start);
    } else {
      assert FollowAll(Start, [Complete]) == Some(Finished);
    }
  }

  // ------------------------------------------------ what the grammar implies

  /** An attempt is open from its Send until its CompleteAttempt. */
  predicate Open(p: Phase) { p in {Sending, Resigned, SendCanceled, GotMeta, Checked, Parsed} }

  function Count(events: seq<Event>, e: Event): nat {
    if events == [] then 0 else (if events[0] == e then 1 else 0) + Count(events[1..], e)
  }

  lemma {:induction false} CompleteOnlyLast(p: Phase, events: seq<Event>)
    requires FollowAll(p, events) == Some(Finished) && p != Finished
    ensures forall i | 0 <= i < |events| :: events[i] == Complete <==> i == |events| - 1
    ensures events != []
    decreases |events|
  {
    var q := Follow(p, events[0]).value;
    assert events[0] == Complete <==> q == Finished;
    if q != Finished {
      CompleteOnlyLast(q, events[1..]);
      assert forall i | 1 <= i < |events| :: events[i] == events[1..][i - 1];
    } else {
      assert FollowAll(Finished, events[1..]).Some? ==> events[1..] == [];
    }
  }

  lemma {:induction false} BuildOnlyFirst(p: Phase, events: seq<Event>)
    requires FollowAll(p, events).Some?
    ensures p != Start ==> forall i | 0 <= i < |events| :: events[i] != Validate
    ensures p !in {Start, Validated} ==> forall i | 0 <= i < |events| :: events[i] != Build
    decreases |events|
  {
    if events != [] {
      BuildOnlyFirst(Follow(p, events[0]).value, events[1..]);
      assert forall i | 1 <= i < |events| :: events[i] == events[1..][i - 1];
    }
  }

  /** Sends and CompleteAttempts alternate: their numbers differ exactly by whether an attempt is open. */
  lemma {:induction false} AttemptsAlternate(p: Phase, events: seq<Event>)
    requires FollowAll(p, events).Some?
    ensures (if Open(p) then 1 else 0) + Count(events, Send)
         == Count(events, CompleteAttempt) + (if Open(FollowAll(p, events).value) then 1 else 0)
    decreases |events|
  {
    if events != [] {
      AttemptsAlternate(Follow(p, events[0]).value, events[1..]);
    }
  }

  /**
   What a reader of the documentation expects of the order of handlers: Complete runs exactly once and last;
   Validate can only be the first list to run and Build the second, so both run at most once and before the first
   Sign; every attempt is completed exactly once, before the next one starts.
   */
  lemma GrammarMeaning(events: seq<Event>)
    requires InGrammar(events)
    ensures events != []
    ensures forall i | 0 <= i < |events| :: events[i] == Complete <==> i == |events| - 1
    ensures forall i | 0 <= i < |events| :: events[i] == Validate ==> i == 0
    ensures forall i | 0 <= i < |events| :: events[i] == Build ==> i == 1 && events[0] == Validate
    ensures Count(events, CompleteAttempt) == Count(events, Send)
    ensures forall n | 0 <= n <= |events| ::
              0 <= Count(events[..n], Send) - Count(events[..n], CompleteAttempt) <= 1
  {
    CompleteOnlyLast(Start, events);
    AttemptsAlternate(Start, events);
    var q := Follow(Start, events[0]).value;
    BuildOnlyFirst(q, events[1..]);
    assert forall i | 1 <= i < |events| :: events[i] == events[1..][i - 1];
    if q == Validated && |events| > 1 {
      BuildOnlyFirst(Follow(q, events[1]).value, events[1..][1..]);
      assert forall i | 2 <= i < |events| :: events[i] == events[1..][1..][i - 2];
    }
    forall n | 0 <= n <= |events|
      ensures 0 <= Count(events[..n], Send) - Count(events[..n], CompleteAttempt) <= 1
    {
      PrefixFollows(Start, events, n);
      AttemptsAlternate(Start, events[..n]);
    }
  }

  lemma {:induction false} PrefixFollows(p: Phase, events: seq<Event>, n: nat)
    requires FollowAll(p, events).Some? && n <= |events|
    ensures FollowAll(p, events[..n]).Some?
    decreases n
  {
    if n > 0 {
      assert events[..n][1..] == events[1..][..n - 1];
      PrefixFollows(Follow(p, events[0]).value, events[1..], n - 1);
    }
  }
}
