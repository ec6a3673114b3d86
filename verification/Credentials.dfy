/**
 The credentials cache (aws/credentials/credentials.go) under concurrency: any number of callers of
 `GetWithContext`, cancellations, `Expire` and a provider whose credentials expire when they like.

 The protocol is a state machine over its atomic steps. A step under the read lock, and `Expire`, are one action;
 `singleRetrieve` holds the write lock over several. Calls are joined by a singleflight group
 (internal/sync/singleflight/singleflight.go), whose map entry outlives the function it runs.
 */
module CredentialsProtocol {
  import opened Prelude

  /** The zero `Value` means expired; all others are told apart by a number. */
  datatype Value = Empty | Creds(id: nat)

  /** What `Retrieve` and `Get` return; `ok` means a nil error. */
  datatype Answer = Answer(value: Value, ok: bool)

  /** The negation of `isExpiredLocked`. */
  predicate Usable(creds: Value, expired: bool) { creds != Empty && !expired }

  /** The cached value after a retrieval. */
  function Stored(creds: Value, a: Answer): Value { if a.ok then a.value else creds }

  /**
   `singleRetrieve` undisturbed: usable credentials are the answer, else the provider is asked and answers `outcome`.
   The cached value afterwards, and the answer.
   */
  function RetrieveOnce(creds: Value, expired: bool, outcome: Answer): (Value, Answer) {
    if Usable(creds, expired) then (creds, Answer(creds, true)) else (Stored(creds, outcome), outcome)
  }

  /** A run of `singleRetrieve`. The stamp is the number of `Expire`s before the answer was settled. */
  datatype Flight = Waiting | Locked | Retrieving | Returned(answer: Answer, stamp: nat)

  /**
   A caller of `GetWithContext`: `since` is the number of `Expire`s before the call, `clear` that no flight with a
   stale answer was still listed when the call began.
   */
  datatype Caller =
    | Checking(since: nat, clear: bool)
    | Joining(since: nat, clear: bool)
    | Awaiting(flight: nat, since: nat, clear: bool)
    | Finished(answer: Answer, since: nat, stamp: nat, clear: bool)
    | Canceled

  datatype Event =
    | RetrieveBegin(flight: nat)
    | RetrieveEnd(flight: nat, answer: Answer, expired: bool)
    | Expired
    | ProviderExpired

  datatype State = State(
    creds: Value,
    stamp: nat,
    expired: bool,
    writer: Option<nat>,
    registered: Option<nat>,
    flights: map<nat, Flight>,
    callers: map<nat, Caller>,
    expires: nat,
    trace: seq<Event>)

  const INIT := State(Empty, 0, false, None, None, map[], map[], 0, [])

  datatype Action =
    | StartGet(caller: nat)
    | ReadCache(caller: nat)
    | Cancel(caller: nat)
    | Join(caller: nat, flight: nat)
    | Lock(flight: nat)
    | Check(flight: nat)
    | EndRetrieve(flight: nat, answer: Answer, expired: bool)
    | Publish(flight: nat)
    | Expire
    | SetProviderExpired(expired: bool)

  predicate Enabled(s: State, a: Action) {
    match a
    case StartGet(t) => t !in s.callers
    case ReadCache(t) => t in s.callers && s.callers[t].Checking? && s.writer == None
    case Cancel(t) => t in s.callers && (s.callers[t].Checking? || s.callers[t].Awaiting?)
    case Join(t, f) =>
      && t in s.callers && s.callers[t].Joining?
      && (s.registered == None ==> f !in s.flights)
      && (s.registered.Some? ==> f == s.registered.value && f in s.flights)
    case Lock(f) => f in s.flights && s.flights[f] == Waiting && s.writer == None
    case Check(f) => f in s.flights && s.flights[f] == Locked
    case EndRetrieve(f, _, _) => f in s.flights && s.flights[f] == Retrieving
    case Publish(f) => f in s.flights && s.flights[f].Returned? && s.registered == Some(f)
    case Expire => s.writer == None
    case SetProviderExpired(_) => true
  }

  function Delivered(callers: map<nat, Caller>, f: nat, answer: Answer, stamp: nat): map<nat, Caller> {
    map t | t in callers ::
      if callers[t].Awaiting? && callers[t].flight == f
      then Finished(answer, callers[t].since, stamp, callers[t].clear) else callers[t]
  }

  /** A flight that callers can still join has settled on a value from before the last `Expire`. */
  predicate StaleListed(s: State) {
    && s.registered.Some? && s.registered.value in s.flights
    && var flight := s.flights[s.registered.value];
       flight.Returned? && flight.answer.ok && flight.stamp < s.expires
  }

  function Step(s: State, a: Action): State
    requires Enabled(s, a)
  {
    match a
    case StartGet(t) => s.(callers := s.callers[t := Checking(s.expires, !StaleListed(s))])
    case ReadCache(t) =>
      var Checking(since, clear) := s.callers[t];
      s.(callers := s.callers[t :=
        if Usable(s.creds, s.expired) then Finished(Answer(s.creds, true), since, s.stamp, clear)
        else Joining(since, clear)])
    case Cancel(t) => s.(callers := s.callers[t := Canceled])
    case Join(t, f) =>
      var Joining(since, clear) := s.callers[t];
      s.(registered := Some(f),
         flights := if s.registered == None then s.flights[f := Waiting] else s.flights,
         callers := s.callers[t := Awaiting(f, since, clear)])
    case Lock(f) => s.(writer := Some(f), flights := s.flights[f := Locked])
    case Check(f) =>
      if Usable(s.creds, s.expired) then
        s.(writer := None, flights := s.flights[f := Returned(Answer(s.creds, true), s.stamp)])
      else
        s.(flights := s.flights[f := Retrieving], trace := s.trace + [RetrieveBegin(f)])
    case EndRetrieve(f, answer, expired) =>
      s.(creds := Stored(s.creds, answer),
         stamp := if answer.ok then s.expires else s.stamp,
         expired := expired,
         writer := None,
         flights := s.flights[f := Returned(answer, s.expires)],
         trace := s.trace + [RetrieveEnd(f, answer, expired)])
    case Publish(f) =>
      var flight := s.flights[f];
      s.(registered := None, callers := Delivered(s.callers, f, flight.answer, flight.stamp))
    case Expire => s.(creds := Empty, expires := s.expires + 1, trace := s.trace + [Expired])
    case SetProviderExpired(expired) =>
      s.(expired := expired, trace := s.trace + if expired then [ProviderExpired] else [])
  }

  /** The state after the actions, if each was enabled in its turn. */
  function Run(s: State, actions: seq<Action>): Option<State>
    decreases |actions|
  {
    if actions == [] then Some(s)
    else if !Enabled(s, actions[0]) then None
    else Run(Step(s, actions[0]), actions[1..])
  }

  // --------------------------------------------------------------- invariant

  /** The number of `Expire`s. */
  function ExpiresIn(trace: seq<Event>): nat {
    if trace == [] then 0
    else ExpiresIn(trace[..|trace| - 1]) + (if trace[|trace| - 1] == Expired then 1 else 0)
  }

  /** The values that successful retrievals returned, each with the number of `Expire`s before it did. */
  function Retrieved(trace: seq<Event>): set<(Value, nat)> {
    set k | 0 <= k < |trace| && trace[k].RetrieveEnd? && trace[k].answer.ok ::
      (trace[k].answer.value, ExpiresIn(trace[..k]))
  }

  /** The flight whose retrieval has begun and not ended. */
  function Running(trace: seq<Event>): Option<nat> {
    if trace == [] then None
    else
      match trace[|trace| - 1]
      case RetrieveBegin(f) => Some(f)
      case RetrieveEnd(_, _, _) => None
      case _ => Running(trace[..|trace| - 1])
  }

  /** The last successful non-empty retrieval has not been followed by an expiry of either kind. */
  predicate Fresh(trace: seq<Event>) {
    if trace == [] then false
    else
      match trace[|trace| - 1]
      case RetrieveBegin(_) => Fresh(trace[..|trace| - 1])
      case RetrieveEnd(_, answer, expired) =>
        if answer.ok then Usable(answer.value, expired) else Fresh(trace[..|trace| - 1]) && !expired
      case Expired => false
      case ProviderExpired => false
  }

  /** Every begin finds no retrieval running, every end finds its own, and none begins on a fresh cache. */
  predicate Orderly(trace: seq<Event>) {
    trace == []
    || var before := trace[..|trace| - 1];
       && Orderly(before)
       && match trace[|trace| - 1]
          case RetrieveBegin(f) => Running(before) == None && !Fresh(before)
          case RetrieveEnd(f, _, _) => Running(before) == Some(f) && !Fresh(before)
          case _ => true
  }

  /** The cached value according to the history: that of the last success, if no `Expire` came after it. */
  function CachedBy(trace: seq<Event>): Value {
    if trace == [] then Empty
    else
      match trace[|trace| - 1]
      case RetrieveEnd(_, answer, _) => if answer.ok then answer.value else CachedBy(trace[..|trace| - 1])
      case Expired => Empty
      case _ => CachedBy(trace[..|trace| - 1])
  }

  /** The write lock is held exactly by the flight that is inside its critical section. */
  predicate LockInv(s: State) {
    && (forall f | f in s.flights :: s.flights[f] in {Locked, Retrieving} ==> s.writer == Some(f))
    && (s.writer.Some? ==> s.writer.value in s.flights && s.flights[s.writer.value] in {Locked, Retrieving})
    && (s.registered.Some? ==> s.registered.value in s.flights)
    && (forall f | f in s.flights && !s.flights[f].Returned? :: s.registered == Some(f))
  }

  predicate TraceInv(s: State) {
    && Orderly(s.trace) && s.creds == CachedBy(s.trace)
    && (Fresh(s.trace) ==> Usable(s.creds, s.expired))
    && Running(s.trace) == (
         if s.writer.Some? && s.writer.value in s.flights && s.flights[s.writer.value] == Retrieving
         then s.writer else None)
    && (Running(s.trace).Some? ==> !Fresh(s.trace))
  }

  /** Cached and settled values were retrieved, a cached one after the last `Expire`. */
  predicate AnswerInv(s: State) {
    && s.stamp <= s.expires && s.expires == ExpiresIn(s.trace)
    && (s.creds != Empty ==> (s.creds, s.stamp) in Retrieved(s.trace) && s.stamp == s.expires)
    && (forall f | f in s.flights && s.flights[f].Returned? ::
          && s.flights[f].stamp <= s.expires
          && (s.flights[f].answer.ok ==> (s.flights[f].answer.value, s.flights[f].stamp) in Retrieved(s.trace)))
  }

  /** While a stale answer is listed, nothing has been retrieved since the last `Expire`. */
  predicate StaleInv(s: State) { StaleListed(s) ==> forall x | x in Retrieved(s.trace) :: x.1 < s.expires }

  /** A flight with a value settled it after the first `since` expiries. */
  predicate SettledSince(s: State, f: nat, since: nat) {
    f in s.flights && s.flights[f].Returned? && s.flights[f].answer.ok ==> since <= s.flights[f].stamp
  }

  predicate CallerInv(s: State, c: Caller) {
    match c
    case Checking(since, clear) => since <= s.expires && (clear ==> RegisteredSince(s, since))
    case Joining(since, clear) => since <= s.expires && (clear ==> RegisteredSince(s, since))
    case Awaiting(f, since, clear) => since <= s.expires && f in s.flights && (clear ==> SettledSince(s, f, since))
    case Finished(answer, since, stamp, clear) =>
      && (answer.ok ==> (answer.value, stamp) in Retrieved(s.trace))
      && (answer.ok && clear ==> since <= stamp)
    case Canceled => true
  }

  predicate RegisteredSince(s: State, since: nat) {
    s.registered.Some? ==> SettledSince(s, s.registered.value, since)
  }

  predicate Inv(s: State) {
    && LockInv(s) && TraceInv(s) && AnswerInv(s) && StaleInv(s)
    && forall t | t in s.callers :: CallerInv(s, s.callers[t])
  }

  /** The event at `k` is a successful retrieval, of the first of the pair after as many `Expire`s as the second. */
  predicate RetrievedAt(trace: seq<Event>, k: int, x: (Value, nat)) {
    && 0 <= k < |trace| && trace[k].RetrieveEnd? && trace[k].answer == Answer(x.0, true)
    && ExpiresIn(trace[..k]) == x.1
  }

  lemma RetrievedIff(trace: seq<Event>, x: (Value, nat))
    ensures x in Retrieved(trace) <==> exists k :: RetrievedAt(trace, k, x)
  {
    if x in Retrieved(trace) {
      var k :| 0 <= k < |trace| && trace[k].RetrieveEnd? && trace[k].answer.ok
            && x == (trace[k].answer.value, ExpiresIn(trace[..k]));
      assert RetrievedAt(trace, k, x);
    }
    if k :| RetrievedAt(trace, k, x) {
      assert x == (trace[k].answer.value, ExpiresIn(trace[..k]));
    }
  }

  lemma RetrievedGrows(trace: seq<Event>, e: Event, x: (Value, nat))
    requires x in Retrieved(trace)
    ensures x in Retrieved(trace + [e])
  {
    RetrievedIff(trace, x);
    RetrievedIff(trace + [e], x);
    hide Retrieved;
    var k :| RetrievedAt(trace, k, x);
    assert (trace + [e])[..k] == trace[..k];
    assert RetrievedAt(trace + [e], k, x);
  }

  lemma LastOf(trace: seq<Event>, e: Event)
    ensures (trace + [e])[|trace|] == e && (trace + [e])[..|trace|] == trace
    ensures Retrieved(trace) <= Retrieved(trace + [e])
    ensures e.RetrieveEnd? && e.answer.ok ==> (e.answer.value, ExpiresIn(trace)) in Retrieved(trace + [e])
  {
    forall x | x in Retrieved(trace)
      ensures x in Retrieved(trace + [e])
    {
      RetrievedGrows(trace, e, x);
    }
    assert (trace + [e])[..|trace|] == trace;
    if e.RetrieveEnd? && e.answer.ok {
      RetrievedIff(trace + [e], (e.answer.value, ExpiresIn(trace)));
      assert RetrievedAt(trace + [e], |trace|, (e.answer.value, ExpiresIn(trace)));
    }
  }

  lemma {:induction false} ExpiresGrow(trace: seq<Event>, n: nat)
    requires n <= |trace|
    ensures ExpiresIn(trace[..n]) <= ExpiresIn(trace)
    decreases |trace|
  {
    if n < |trace| {
      assert trace[..|trace| - 1][..n] == trace[..n];
      ExpiresGrow(trace[..|trace| - 1], n);
    } else {
      assert trace[..n] == trace;
    }
  }

  lemma RetrievedBound(trace: seq<Event>, x: (Value, nat))
    requires x in Retrieved(trace)
    ensures x.1 <= ExpiresIn(trace)
  {
    RetrievedIff(trace, x);
    hide Retrieved;
    var k :| RetrievedAt(trace, k, x);
    ExpiresGrow(trace, k);
  }

  lemma RetrievedOnlyBySuccess(trace: seq<Event>, e: Event, x: (Value, nat))
    requires x in Retrieved(trace + [e]) && !(e.RetrieveEnd? && e.answer.ok)
    ensures x in Retrieved(trace)
  {
    RetrievedIff(trace, x);
    RetrievedIff(trace + [e], x);
    hide Retrieved;
    var k :| RetrievedAt(trace + [e], k, x);
    assert k < |trace| && (trace + [e])[..k] == trace[..k];
    assert RetrievedAt(trace, k, x);
  }

  lemma StepKeepsLock(s: State, a: Action)
    requires Inv(s) && Enabled(s, a)
    ensures LockInv(Step(s, a))
  {
  }

  /** What one more event makes of a history. */
  lemma HistoryGrows(trace: seq<Event>, e: Event)
    ensures Running(trace + [e]) ==
              if e.RetrieveBegin? then Some(e.flight) else if e.RetrieveEnd? then None else Running(trace)
    ensures Fresh(trace + [e]) ==
              if e.RetrieveBegin? then Fresh(trace)
              else if e.RetrieveEnd? then
                if e.answer.ok then Usable(e.answer.value, e.expired) else Fresh(trace) && !e.expired
              else false
    ensures CachedBy(trace + [e]) ==
              if e.RetrieveEnd? then Stored(CachedBy(trace), e.answer)
              else if e == Expired then Empty else CachedBy(trace)
    ensures Orderly(trace + [e]) ==
              (&& Orderly(trace)
               && (e.RetrieveBegin? ==> Running(trace) == None && !Fresh(trace))
               && (e.RetrieveEnd? ==> Running(trace) == Some(e.flight) && !Fresh(trace)))
  {
    assert (trace + [e])[|trace|] == e && (trace + [e])[..|trace|] == trace;
  }

  lemma StepKeepsTrace(s: State, a: Action)
    requires Inv(s) && Enabled(s, a)
    ensures TraceInv(Step(s, a))
  {
    hide Retrieved, AnswerInv, StaleInv, CallerInv, Delivered, ExpiresIn, Orderly, Fresh, Running, CachedBy;
    var s' := Step(s, a);
    if s'.trace != s.trace {
      HistoryGrows(s.trace, s'.trace[|s'.trace| - 1]);
    }
  }

  lemma StepKeepsRetrieved(s: State, a: Action)
    requires Enabled(s, a)
    ensures Retrieved(s.trace) <= Retrieved(Step(s, a).trace)
    ensures a.EndRetrieve? && a.answer.ok ==> (a.answer.value, ExpiresIn(s.trace)) in Retrieved(Step(s, a).trace)
    ensures ExpiresIn(Step(s, a).trace) == ExpiresIn(s.trace) + if a == Expire then 1 else 0
  {
    hide Retrieved;
    var s' := Step(s, a);
    if s'.trace != s.trace {
      LastOf(s.trace, s'.trace[|s'.trace| - 1]);
    }
  }

  lemma StepKeepsAnswers(s: State, a: Action)
    requires Inv(s) && Enabled(s, a)
    ensures AnswerInv(Step(s, a))
  {
    hide Retrieved, ExpiresIn, TraceInv, StaleInv, CallerInv, Delivered;
    StepKeepsRetrieved(s, a);
  }

  /** A step after which a stale answer is listed has retrieved nothing. */
  lemma StaleAfterStep(s: State, a: Action)
    requires Inv(s) && Enabled(s, a) && StaleListed(Step(s, a))
    ensures !a.EndRetrieve? && !a.Publish? && (a == Expire || StaleListed(s))
  {
    hide Retrieved, TraceInv, ExpiresIn, Delivered, CallerInv, StaleInv;
  }

  lemma StepKeepsStale(s: State, a: Action)
    requires Inv(s) && Enabled(s, a)
    ensures StaleInv(Step(s, a))
  {
    var s' := Step(s, a);
    if StaleListed(s') {
      StaleAfterStep(s, a);
      assert s.expires == ExpiresIn(s.trace);
      hide Retrieved, LockInv, TraceInv, ExpiresIn, Delivered, CallerInv, StaleListed;
      forall x | x in Retrieved(s'.trace)
        ensures x.1 < s'.expires
      {
        if s'.trace != s.trace {
          RetrievedOnlyBySuccess(s.trace, s'.trace[|s'.trace| - 1], x);
        }
        RetrievedBound(s.trace, x);
      }
    }
  }

  /** A flight that settles during a step settles at the current number of expiries. */
  lemma FlightsSettleNow(s: State, a: Action, f: nat, since: nat)
    requires Inv(s) && Enabled(s, a) && since <= s.expires
    requires f in s.flights && SettledSince(s, f, since)
    ensures f in Step(s, a).flights && SettledSince(Step(s, a), f, since)
    ensures s.expires <= Step(s, a).expires
  {
    hide Retrieved, TraceInv, ExpiresIn, Delivered;
  }

  lemma RegisteredSettlesNow(s: State, a: Action, since: nat)
    requires Inv(s) && Enabled(s, a) && since <= s.expires && RegisteredSince(s, since)
    ensures RegisteredSince(Step(s, a), since)
  {
    hide Retrieved, TraceInv, ExpiresIn, Delivered;
    if s.registered.Some? {
      FlightsSettleNow(s, a, s.registered.value, since);
    }
  }

  /** A caller that a step does not move keeps its invariant. */
  lemma UnmovedCaller(s: State, a: Action, c: Caller)
    requires Inv(s) && Enabled(s, a) && CallerInv(s, c)
    ensures CallerInv(Step(s, a), c)
  {
    StepKeepsRetrieved(s, a);
    hide Retrieved, TraceInv, LockInv, AnswerInv, ExpiresIn, Delivered, SettledSince, RegisteredSince;
    match c
    case Checking(since, clear) =>
      if clear { RegisteredSettlesNow(s, a, since); }
      assert s.expires <= Step(s, a).expires;
    case Joining(since, clear) =>
      if clear { RegisteredSettlesNow(s, a, since); }
      assert s.expires <= Step(s, a).expires;
    case Awaiting(f, since, clear) =>
      if clear { FlightsSettleNow(s, a, f, since); }
      assert s.expires <= Step(s, a).expires && f in Step(s, a).flights;
    case _ =>
  }

  lemma StepKeepsCallers(s: State, a: Action, t: nat)
    requires Inv(s) && Enabled(s, a) && t in Step(s, a).callers
    ensures CallerInv(Step(s, a), Step(s, a).callers[t])
  {
    hide Retrieved, TraceInv, LockInv, ExpiresIn;
    if t in s.callers {
      assert CallerInv(s, s.callers[t]);
      UnmovedCaller(s, a, s.callers[t]);
    }
  }

  lemma StepKeepsInv(s: State, a: Action)
    requires Inv(s) && Enabled(s, a)
    ensures Inv(Step(s, a))
  {
    StepKeepsLock(s, a);
    StepKeepsTrace(s, a);
    StepKeepsAnswers(s, a);
    StepKeepsStale(s, a);
    hide LockInv, TraceInv, AnswerInv, StaleInv, CallerInv;
    forall t | t in Step(s, a).callers
      ensures CallerInv(Step(s, a), Step(s, a).callers[t])
    {
      StepKeepsCallers(s, a, t);
    }
  }

  lemma {:induction false} RunKeepsInv(s: State, actions: seq<Action>)
    requires Inv(s) && Run(s, actions).Some?
    ensures Inv(Run(s, actions).value)
    decreases |actions|
  {
    if actions != [] {
      StepKeepsInv(s, actions[0]);
      RunKeepsInv(Step(s, actions[0]), actions[1..]);
    }
  }

  // ---------------------------------------------------------------- theorems

  predicate Reaches(actions: seq<Action>, s: State) { Run(INIT, actions) == Some(s) }

  lemma {:induction false} OrderlyPrefix(trace: seq<Event>, n: nat)
    requires Orderly(trace) && n <= |trace|
    ensures Orderly(trace[..n])
    decreases |trace|
  {
    if n < |trace| {
      assert trace[..|trace| - 1][..n] == trace[..n];
      OrderlyPrefix(trace[..|trace| - 1], n);
    } else {
      assert trace[..n] == trace;
    }
  }

  /** From its begin on, a retrieval is the one running until its own end. */
  lemma {:induction false} RunsUntilItsEnd(trace: seq<Event>, i: nat, n: nat)
    requires Orderly(trace) && i < n <= |trace| && trace[i].RetrieveBegin?
    ensures || Running(trace[..n]) == Some(trace[i].flight)
            || exists k | i < k < n :: trace[k].RetrieveEnd? && trace[k].flight == trace[i].flight
    decreases n
  {
    OrderlyPrefix(trace, n);
    assert trace[..n][..n - 1] == trace[..n - 1] && trace[..n][n - 1] == trace[n - 1];
    if i < n - 1 {
      RunsUntilItsEnd(trace, i, n - 1);
      assert trace[n - 1].RetrieveEnd? && Running(trace[..n - 1]) == Some(trace[i].flight)
             ==> trace[n - 1].flight == trace[i].flight;
    }
  }

  /** In every interleaving, executions of `Retrieve` never overlap: one ends before the next begins. */
  lemma RetrievesNeverOverlap(actions: seq<Action>, s: State, i: nat, j: nat)
    requires Reaches(actions, s)
    requires i < j < |s.trace| && s.trace[i].RetrieveBegin? && s.trace[j].RetrieveBegin?
    ensures exists k | i < k < j :: s.trace[k].RetrieveEnd? && s.trace[k].flight == s.trace[i].flight
  {
    RunKeepsInv(INIT, actions);
    RunsUntilItsEnd(s.trace, i, j);
    OrderlyPrefix(s.trace, j + 1);
    assert s.trace[..j + 1][..j] == s.trace[..j];
  }

  /** An event after which the cached credentials may not be used. */
  predicate Invalidates(e: Event) { e.Expired? || e.ProviderExpired? || (e.RetrieveEnd? && e.expired) }

  predicate Refreshes(e: Event) { e.RetrieveEnd? && e.answer.ok && e.answer.value != Empty }

  lemma {:induction false} FreshUntilInvalidated(trace: seq<Event>, i: nat, n: nat)
    requires Orderly(trace) && i < n <= |trace| && Refreshes(trace[i])
    ensures Fresh(trace[..n]) || exists k | i <= k < n :: Invalidates(trace[k])
    decreases n
  {
    OrderlyPrefix(trace, n);
    assert trace[..n][..n - 1] == trace[..n - 1] && trace[..n][n - 1] == trace[n - 1];
    if i < n - 1 {
      FreshUntilInvalidated(trace, i, n - 1);
    }
  }

  /**
   Two successful non-empty retrievals are separated by an `Expire`, by the provider's expiry, or by the first of
   them having left the provider expired.
   */
  lemma RefreshesAreSeparated(actions: seq<Action>, s: State, i: nat, j: nat)
    requires Reaches(actions, s)
    requires i < j < |s.trace| && Refreshes(s.trace[i]) && Refreshes(s.trace[j])
    ensures exists k | i <= k < j :: Invalidates(s.trace[k])
  {
    RunKeepsInv(INIT, actions);
    FreshUntilInvalidated(s.trace, i, j);
    OrderlyPrefix(s.trace, j + 1);
    assert s.trace[..j + 1][..j] == s.trace[..j];
  }

  /** A successful retrieval of `v` ended after at least `since` `Expire`s. */
  ghost predicate WasRetrieved(trace: seq<Event>, v: Value, since: nat) {
    exists k, expires: nat :: RetrievedAt(trace, k, (v, expires)) && expires >= since
  }

  /** Every value returned with a nil error came from a successful retrieval. */
  lemma AnswersAreRetrieved(actions: seq<Action>, s: State, t: nat)
    requires Reaches(actions, s) && GotValue(s, t)
    ensures WasRetrieved(s.trace, s.callers[t].answer.value, 0)
  {
    RunKeepsInv(INIT, actions);
    FinishedAnswer(s, t);
  }

  predicate GotValue(s: State, t: nat) { t in s.callers && s.callers[t].Finished? && s.callers[t].answer.ok }

  lemma FinishedAnswer(s: State, t: nat)
    requires Inv(s) && GotValue(s, t)
    ensures var c := s.callers[t];
            WasRetrieved(s.trace, c.answer.value, if c.clear then c.since else 0)
  {
    var c := s.callers[t];
    assert CallerInv(s, c);
    RetrievedIff(s.trace, (c.answer.value, c.stamp));
    hide Retrieved;
    var k :| RetrievedAt(s.trace, k, (c.answer.value, c.stamp));
  }

  /** The caller remembers how many `Expire`s came before its call, and whether a stale answer was listed then. */
  predicate Remembers(s: State, t: nat, since: nat, clear: bool) {
    t in s.callers
    && (s.callers[t].Canceled? || (s.callers[t].since == since && s.callers[t].clear == clear))
  }

  lemma {:induction false} RunRemembers(s: State, actions: seq<Action>, t: nat, since: nat, clear: bool)
    requires Run(s, actions).Some? && Remembers(s, t, since, clear)
    ensures Remembers(Run(s, actions).value, t, since, clear)
    decreases |actions|
  {
    if actions != [] {
      RunRemembers(Step(s, actions[0]), actions[1..], t, since, clear);
    }
  }

  /** Whatever happens next, a call of `t` that begins now gets no value from before the last `Expire`. */
  ghost predicate OnlyFreshValues(s: State, t: nat)
    requires Enabled(s, StartGet(t))
  {
    forall actions, s' | Run(Step(s, StartGet(t)), actions) == Some(s') && GotValue(s', t) ::
      WasRetrieved(s'.trace, s'.callers[t].answer.value, s.expires)
  }

  lemma ClearCallGetsFreshValue(s: State, t: nat, actions: seq<Action>, s': State)
    requires Inv(s) && Enabled(s, StartGet(t)) && !StaleListed(s)
    requires Run(Step(s, StartGet(t)), actions) == Some(s') && GotValue(s', t)
    ensures WasRetrieved(s'.trace, s'.callers[t].answer.value, s.expires)
  {
    StepKeepsInv(s, StartGet(t));
    RunKeepsInv(Step(s, StartGet(t)), actions);
    RunRemembers(Step(s, StartGet(t)), actions, t, s.expires, true);
    FinishedAnswer(s', t);
  }

  lemma RunThree(s: State, a: Action, b: Action, c: Action)
    requires Enabled(s, a) && Enabled(Step(s, a), b) && Enabled(Step(Step(s, a), b), c)
    ensures Run(s, [a, b, c]) == Some(Step(Step(Step(s, a), b), c))
  {
    assert [a, b, c][1..] == [b, c] && [b, c][1..] == [c] && [c][1..] == [];
    assert Run(Step(Step(s, a), b), [c]) == Some(Step(Step(Step(s, a), b), c));
  }

  /** With a stale answer listed, the call finds the cache expired, joins the flight, and is handed that answer. */
  lemma JoinerOfStaleAnswer(s: State, t: nat) returns (s': State)
    requires Inv(s) && Enabled(s, StartGet(t)) && StaleListed(s)
    ensures var f := s.registered.value;
            Run(Step(s, StartGet(t)), [ReadCache(t), Join(t, f), Publish(f)]) == Some(s')
    ensures GotValue(s', t) && s'.trace == s.trace
  {
    hide Retrieved, TraceInv, Run;
    var f := s.registered.value;
    assert s.creds == Empty;
    var started := Step(s, StartGet(t));
    assert s.writer == None;
    var missed := Step(started, ReadCache(t));
    var joined := Step(missed, Join(t, f));
    s' := Step(joined, Publish(f));
    RunThree(started, ReadCache(t), Join(t, f), Publish(f));
  }

  lemma StaleCallGetsStaleValue(s: State, t: nat)
    requires Inv(s) && Enabled(s, StartGet(t)) && StaleListed(s)
    ensures !OnlyFreshValues(s, t)
  {
    var s' := JoinerOfStaleAnswer(s, t);
    hide Run, Inv, Retrieved, ExpiresIn;
    var v := s'.callers[t].answer.value;
    if WasRetrieved(s'.trace, v, s.expires) {
      var k, expires: nat :| RetrievedAt(s'.trace, k, (v, expires)) && expires >= s.expires;
      RetrievedIff(s.trace, (v, expires));
      assert false;
    }
  }

  /**
   What `Expire` promises, and when: at any reachable state, a call that begins gets in every continuation only values
   retrieved after every earlier `Expire`, if and only if no flight is listed that has settled on an older one.
   */
  lemma FreshExactlyWhenNoStaleFlight(actions: seq<Action>, s: State, t: nat)
    requires Reaches(actions, s) && Enabled(s, StartGet(t))
    ensures OnlyFreshValues(s, t) <==> !StaleListed(s)
  {
    RunKeepsInv(INIT, actions);
    if StaleListed(s) {
      StaleCallGetsStaleValue(s, t);
    } else {
      forall actions, s' | Run(Step(s, StartGet(t)), actions) == Some(s') && GotValue(s', t)
        ensures WasRetrieved(s'.trace, s'.callers[t].answer.value, s.expires)
      {
        ClearCallGetsFreshValue(s, t, actions, s');
      }
    }
  }

  // ----------------------------------------------- an expired provider

  /** The action makes the provider say again that its credentials are good, without having retrieved any. */
  predicate Revives(a: Action) {
    || a == SetProviderExpired(false)
    || (a.EndRetrieve? && !a.answer.ok && !a.expired)
  }

  /** A successful retrieval of `v` ended after the first `n` events. */
  ghost predicate RetrievedAfter(trace: seq<Event>, v: Value, n: nat) {
    exists k :: n <= k < |trace| && trace[k].RetrieveEnd? && trace[k].answer == Answer(v, true)
  }

  /** A flight with a value has retrieved it after the first `n` events. */
  ghost predicate SettledAfter(s: State, f: nat, n: nat) {
    f in s.flights && s.flights[f].Returned? && s.flights[f].answer.ok ==>
      RetrievedAfter(s.trace, s.flights[f].answer.value, n)
  }

  ghost predicate CallerAfter(s: State, c: Caller, n: nat) {
    && (c.Awaiting? ==> c.flight in s.flights && SettledAfter(s, c.flight, n))
    && (c.Finished? && c.answer.ok ==> RetrievedAfter(s.trace, c.answer.value, n))
  }

  /** Whatever can still reach the caller `t` was retrieved after the first `n` events, or cannot be used. */
  ghost predicate AfterInv(s: State, t: nat, n: nat) {
    && n <= |s.trace|
    && (Usable(s.creds, s.expired) ==> RetrievedAfter(s.trace, s.creds, n))
    && (s.registered.Some? ==> SettledAfter(s, s.registered.value, n))
    && t in s.callers && CallerAfter(s, s.callers[t], n)
  }

  lemma RetrievedAfterGrows(trace: seq<Event>, e: Event, v: Value, n: nat)
    ensures RetrievedAfter(trace, v, n) ==> RetrievedAfter(trace + [e], v, n)
    ensures n <= |trace| && e.RetrieveEnd? && e.answer == Answer(v, true) ==> RetrievedAfter(trace + [e], v, n)
  {
    if k :| n <= k < |trace| && trace[k].RetrieveEnd? && trace[k].answer == Answer(v, true) {
      assert (trace + [e])[k] == trace[k];
    }
    assert (trace + [e])[|trace|] == e;
  }

  lemma StepKeepsRetrievedAfter(s: State, a: Action, v: Value, n: nat)
    requires Enabled(s, a)
    ensures RetrievedAfter(s.trace, v, n) ==> RetrievedAfter(Step(s, a).trace, v, n)
    ensures n <= |s.trace| && a.EndRetrieve? && a.answer == Answer(v, true) ==> RetrievedAfter(Step(s, a).trace, v, n)
  {
    var s' := Step(s, a);
    if s'.trace != s.trace {
      RetrievedAfterGrows(s.trace, s'.trace[|s'.trace| - 1], v, n);
    }
  }

  /** A flight that settles during a step settles on usable credentials or on what it has just retrieved. */
  lemma FlightSettlesAfter(s: State, a: Action, f: nat, n: nat)
    requires Inv(s) && Enabled(s, a) && n <= |s.trace|
    requires Usable(s.creds, s.expired) ==> RetrievedAfter(s.trace, s.creds, n)
    requires f in s.flights && SettledAfter(s, f, n)
    ensures f in Step(s, a).flights && SettledAfter(Step(s, a), f, n)
  {
    var s' := Step(s, a);
    if s'.flights[f].Returned? && s'.flights[f].answer.ok {
      StepKeepsRetrievedAfter(s, a, s'.flights[f].answer.value, n);
      hide RetrievedAfter, Inv;
    }
  }

  lemma StepKeepsAfter(s: State, a: Action, t: nat, n: nat)
    requires Inv(s) && Enabled(s, a) && AfterInv(s, t, n) && !Revives(a)
    ensures AfterInv(Step(s, a), t, n)
  {
    var s' := Step(s, a);
    hide Inv, RetrievedAfter;
    CacheAfterStep(s, a, n);
    CallerAfterStep(s, a, t, n);
    ListedAfterStep(s, a, n);
    assert n <= |s'.trace|;
  }

  lemma CacheAfterStep(s: State, a: Action, n: nat)
    requires Enabled(s, a) && n <= |s.trace| && !Revives(a)
    requires Usable(s.creds, s.expired) ==> RetrievedAfter(s.trace, s.creds, n)
    ensures var s' := Step(s, a);
            Usable(s'.creds, s'.expired) ==> RetrievedAfter(s'.trace, s'.creds, n)
  {
    hide RetrievedAfter;
    StepKeepsRetrievedAfter(s, a, Step(s, a).creds, n);
  }

  lemma ListedAfterStep(s: State, a: Action, n: nat)
    requires Inv(s) && Enabled(s, a) && n <= |s.trace|
    requires Usable(s.creds, s.expired) ==> RetrievedAfter(s.trace, s.creds, n)
    requires s.registered.Some? ==> SettledAfter(s, s.registered.value, n)
    ensures Step(s, a).registered.Some? ==> SettledAfter(Step(s, a), Step(s, a).registered.value, n)
  {
    if s.registered.Some? {
      FlightSettlesAfter(s, a, s.registered.value, n);
    }
    hide RetrievedAfter;
  }

  lemma CallerAfterStep(s: State, a: Action, t: nat, n: nat)
    requires Inv(s) && Enabled(s, a) && AfterInv(s, t, n)
    ensures t in Step(s, a).callers && CallerAfter(Step(s, a), Step(s, a).callers[t], n)
  {
    var s' := Step(s, a);
    var c := s.callers[t];
    if c.Awaiting? {
      FlightSettlesAfter(s, a, c.flight, n);
    }
    if s.registered.Some? {
      FlightSettlesAfter(s, a, s.registered.value, n);
    }
    if s'.callers[t].Finished? && s'.callers[t].answer.ok {
      StepKeepsRetrievedAfter(s, a, s'.callers[t].answer.value, n);
    }
    hide RetrievedAfter;
  }

  /** No action of the run revives the provider. */
  predicate NeverRevived(actions: seq<Action>) { forall a | a in actions :: !Revives(a) }

  lemma {:induction false} RunKeepsAfter(s: State, actions: seq<Action>, t: nat, n: nat)
    requires Inv(s) && AfterInv(s, t, n) && Run(s, actions).Some? && NeverRevived(actions)
    ensures AfterInv(Run(s, actions).value, t, n)
    decreases |actions|
  {
    if actions != [] {
      assert actions[0] in actions && forall a | a in actions[1..] :: a in actions;
      hide Inv, AfterInv, Step;
      StepKeepsInv(s, actions[0]);
      StepKeepsAfter(s, actions[0], t, n);
      RunKeepsAfter(Step(s, actions[0]), actions[1..], t, n);
    }
  }

  /** Whatever happens next, a call of `t` that begins now gets only values retrieved after it began. */
  ghost predicate OnlyLaterValues(s: State, t: nat)
    requires Enabled(s, StartGet(t))
  {
    forall actions, s' | Run(Step(s, StartGet(t)), actions) == Some(s') && NeverRevived(actions) && GotValue(s', t) ::
      RetrievedAfter(s'.trace, s'.callers[t].answer.value, |s.trace|)
  }

  /** A flight that callers can still join has settled on a value. */
  predicate AnswerListed(s: State) {
    && s.registered.Some? && s.registered.value in s.flights
    && s.flights[s.registered.value].Returned? && s.flights[s.registered.value].answer.ok
  }

  lemma JoinerOfListedAnswer(s: State, t: nat) returns (actions: seq<Action>, s': State)
    requires Inv(s) && Enabled(s, StartGet(t)) && AnswerListed(s) && !Usable(s.creds, s.expired)
    ensures Run(Step(s, StartGet(t)), actions) == Some(s') && NeverRevived(actions)
    ensures GotValue(s', t) && s'.trace == s.trace
  {
    hide Retrieved, TraceInv, Run;
    var f := s.registered.value;
    var started := Step(s, StartGet(t));
    assert s.writer == None;
    var missed := Step(started, ReadCache(t));
    var joined := Step(missed, Join(t, f));
    actions, s' := [ReadCache(t), Join(t, f), Publish(f)], Step(joined, Publish(f));
    RunThree(started, ReadCache(t), Join(t, f), Publish(f));
  }

  /**
   What an expired provider means for a call that begins: as long as the provider is not revived without a retrieval,
   the call gets in every continuation only values retrieved after it began, if and only if no flight is listed that
   has settled on a value already.
   */
  lemma ExpiredProviderIsAskedExactlyWhen(actions: seq<Action>, s: State, t: nat)
    requires Reaches(actions, s) && Enabled(s, StartGet(t)) && s.expired
    ensures OnlyLaterValues(s, t) <==> !AnswerListed(s)
  {
    RunKeepsInv(INIT, actions);
    StepKeepsInv(s, StartGet(t));
    if AnswerListed(s) {
      var more, s' := JoinerOfListedAnswer(s, t);
      assert !RetrievedAfter(s'.trace, s'.callers[t].answer.value, |s.trace|);
    } else {
      var started := Step(s, StartGet(t));
      assert AfterInv(started, t, |s.trace|);
      forall more, s' | Run(started, more) == Some(s') && NeverRevived(more) && GotValue(s', t)
        ensures RetrievedAfter(s'.trace, s'.callers[t].answer.value, |s.trace|)
      {
        RunKeepsAfter(started, more, t, |s.trace|);
      }
    }
  }

  /** A call that finds usable credentials is answered with them at once, without a flight. */
  lemma UsableCredentialsAreReturned(s: State, t: nat)
    requires Enabled(s, StartGet(t)) && s.writer == None && s.creds != Empty && !s.expired
    ensures var end := Run(s, [StartGet(t), ReadCache(t)]);
            && end.Some? && GotValue(end.value, t) && end.value.callers[t].answer.value == s.creds
            && end.value == s.(callers := end.value.callers)
  {
    assert [StartGet(t), ReadCache(t)][1..] == [ReadCache(t)] && [ReadCache(t)][1..] == [];
    var started := Step(s, StartGet(t));
    assert Run(started, [ReadCache(t)]) == Some(Step(started, ReadCache(t)));
  }

  /** At any reachable state the cache holds the value of the last successful retrieval, or none after an `Expire`. */
  lemma CacheFollowsHistory(actions: seq<Action>, s: State)
    requires Reaches(actions, s)
    ensures s.creds == CachedBy(s.trace)
  {
    RunKeepsInv(INIT, actions);
  }

  /** The action ends the retrieval of the flight `f`. */
  predicate Ends(a: Action, f: nat) { a.EndRetrieve? && a.flight == f }

  /** Whoever has an answer in the second state had it in the first. */
  predicate NoneAnswered(s: State, s': State) {
    forall t | t in s'.callers && s'.callers[t].Finished? :: t in s.callers && s.callers[t] == s'.callers[t]
  }

  /**
   While a flight retrieves, nothing that the others do changes the cached value, and no caller is answered: it keeps
   the lock until it ends.
   */
  lemma {:induction false} RetrievalIsAlone(s: State, f: nat, actions: seq<Action>)
    requires Inv(s) && f in s.flights && s.flights[f] == Retrieving
    requires Run(s, actions).Some? && forall a | a in actions :: !Ends(a, f)
    ensures var s' := Run(s, actions).value;
            Inv(s') && s'.creds == s.creds && f in s'.flights && s'.flights[f] == Retrieving && NoneAnswered(s, s')
    decreases |actions|
  {
    if actions != [] {
      var a := actions[0];
      StepKeepsInv(s, a);
      AloneDuringStep(s, f, a);
      assert forall b | b in actions[1..] :: b in actions;
      hide Step, Inv;
      RetrievalIsAlone(Step(s, a), f, actions[1..]);
    }
  }

  lemma AloneDuringStep(s: State, f: nat, a: Action)
    requires Inv(s) && f in s.flights && s.flights[f] == Retrieving
    requires Enabled(s, a) && !Ends(a, f)
    ensures Step(s, a).creds == s.creds && f in Step(s, a).flights && Step(s, a).flights[f] == Retrieving
    ensures NoneAnswered(s, Step(s, a))
  {
    hide TraceInv, AnswerInv, StaleInv, CallerInv, Retrieved;
  }

  lemma {:induction false} RunOneMore(s: State, actions: seq<Action>, a: Action)
    requires Run(s, actions).Some? && Enabled(Run(s, actions).value, a)
    ensures Run(s, actions + [a]) == Some(Step(Run(s, actions).value, a))
    decreases |actions|
  {
    if actions == [] {
      assert actions + [a] == [a];
    } else {
      assert (actions + [a])[1..] == actions[1..] + [a];
      RunOneMore(Step(s, actions[0]), actions[1..], a);
    }
  }

  /** The action is not one of the caller `t`. */
  predicate NotBy(a: Action, t: nat) {
    match a
    case StartGet(u) => u != t
    case ReadCache(u) => u != t
    case Cancel(u) => u != t
    case Join(u, _) => u != t
    case _ => true
  }

  function Canceling(s: State, t: nat): State { s.(callers := s.callers[t := Canceled]) }

  lemma CancelingCommutes(s: State, t: nat, a: Action)
    requires Enabled(s, a) && NotBy(a, t) && t in s.callers
    ensures Enabled(Canceling(s, t), a) && Step(Canceling(s, t), a) == Canceling(Step(s, a), t)
    ensures t in Step(s, a).callers
  {
    if a.Publish? {
      var flight := s.flights[a.flight];
      assert Delivered(s.callers[t := Canceled], a.flight, flight.answer, flight.stamp)
          == Delivered(s.callers, a.flight, flight.answer, flight.stamp)[t := Canceled];
    } else {
      assert Step(Canceling(s, t), a).callers == Step(s, a).callers[t := Canceled];
    }
  }

  lemma {:induction false} CancelingCommutesWithRun(s: State, t: nat, actions: seq<Action>)
    requires Run(s, actions).Some? && t in s.callers && forall a | a in actions :: NotBy(a, t)
    ensures Run(Canceling(s, t), actions) == Some(Canceling(Run(s, actions).value, t))
    decreases |actions|
  {
    if actions != [] {
      assert actions[0] in actions && forall a | a in actions[1..] :: a in actions;
      hide Enabled, Step, NotBy;
      CancelingCommutes(s, t, actions[0]);
      CancelingCommutesWithRun(Step(s, actions[0]), t, actions[1..]);
    }
  }

  /**
   A caller that waits for a flight can always be cancelled, and concerns nobody else: whatever the others do next, the
   cache, the flights and all other callers are as if it had gone on waiting, and it gets no answer any more.
   */
  lemma CancellationConcernsNobodyElse(s: State, t: nat, actions: seq<Action>)
    requires t in s.callers && s.callers[t].Awaiting?
    requires Run(s, actions).Some? && forall a | a in actions :: NotBy(a, t)
    ensures Enabled(s, Cancel(t))
    ensures Run(Step(s, Cancel(t)), actions).Some?
    ensures var canceled, waited := Run(Step(s, Cancel(t)), actions).value, Run(s, actions).value;
            t in canceled.callers && canceled.callers[t] == Canceled && canceled == Canceling(waited, t)
  {
    CancelingCommutesWithRun(s, t, actions);
  }

  /**
   A call that begins after an `Expire` can get the value from before it: the caller 1 joins a flight that has
   stored and returned its answer but is still listed.
   */
  lemma LateJoinerGetsStaleValue() returns (actions: seq<Action>, s: State)
    ensures Reaches(actions, s)
    ensures 1 in s.callers && s.callers[1] == Finished(Answer(Creds(7), true), 1, 0, false)
  {
    var before := [StartGet(0), ReadCache(0), Join(0, 0), Lock(0), Check(0)];
    var s1 := Step(Step(Step(INIT, before[0]), before[1]), before[2]);
    assert Run(INIT, before) == Run(s1, [Lock(0), Check(0)]) by {
      assert before[1..][1..][1..] == [Lock(0), Check(0)];
    }
    var s2 := Step(Step(s1, Lock(0)), Check(0));
    assert Run(s1, [Lock(0), Check(0)]) == Some(s2) by {
      assert [Lock(0), Check(0)][1..] == [Check(0)];
    }
    actions, s := before, s2;
    hide Run;
    actions, s := Extend(actions, s, EndRetrieve(0, Answer(Creds(7), true), false));
    actions, s := Extend(actions, s, Expire);
    actions, s := Extend(actions, s, StartGet(1));
    actions, s := Extend(actions, s, ReadCache(1));
    actions, s := Extend(actions, s, Join(1, 0));
    actions, s := Extend(actions, s, Publish(0));
  }

  lemma Extend(actions: seq<Action>, s: State, a: Action) returns (actions': seq<Action>, s': State)
    requires Reaches(actions, s) && Enabled(s, a)
    ensures actions' == actions + [a] && s' == Step(s, a) && Reaches(actions', s')
  {
    RunOneMore(INIT, actions, a);
    actions', s' := actions + [a], Step(s, a);
  }
}

/** The cache as one object, between its locks: what `singleRetrieve` and `Expire` do to the stored value. */
module CredentialsCache {
  import opened CredentialsProtocol

  class Credentials {
    var creds: Value

    constructor ()
      ensures creds == Empty
    {
      creds := Empty;
    }

    predicate IsExpired(providerExpired: bool)
      reads this
    {
      creds == Empty || providerExpired
    }

    /** `outcome` is what the provider's `Retrieve` answers if it is asked. */
    method SingleRetrieve(providerExpired: bool, outcome: Answer) returns (a: Answer, asked: bool)
      modifies this
      ensures asked <==> !Usable(old(creds), providerExpired)
      ensures (creds, a) == RetrieveOnce(old(creds), providerExpired, outcome)
      ensures a.ok ==> creds == a.value
    {
      asked := IsExpired(providerExpired);
      if !asked {
        return Answer(creds, true), asked;
      }
      if outcome.ok {
        creds := outcome.value;
      }
      return outcome, asked;
    }

    method Expire()
      modifies this
      ensures creds == Empty
      ensures forall providerExpired :: IsExpired(providerExpired)
    {
      creds := Empty;
    }
  }

  /**
   A flight of the protocol is one `SingleRetrieve`, whatever all others do between its check and the end of its
   retrieval: the cached value and the answer are those of an undisturbed call at the moment of the check.
   */
  lemma FlightIsSingleRetrieve(s: State, f: nat, between: seq<Action>, outcome: Answer, expired: bool)
    requires Inv(s) && Enabled(s, Check(f))
    requires Run(Step(s, Check(f)), between).Some? && forall a | a in between :: !Ends(a, f)
    ensures var checked := Step(s, Check(f));
            if Usable(s.creds, s.expired) then
              checked.flights[f].Returned?
              && (checked.creds, checked.flights[f].answer) == RetrieveOnce(s.creds, s.expired, outcome)
            else
              var waited := Run(checked, between).value;
              && NoneAnswered(s, waited)
              && Enabled(waited, EndRetrieve(f, outcome, expired))
              && var ended := Step(waited, EndRetrieve(f, outcome, expired));
                 (ended.creds, ended.flights[f].answer) == RetrieveOnce(s.creds, s.expired, outcome)
  {
    hide Inv;
    StepKeepsInv(s, Check(f));
    if !Usable(s.creds, s.expired) {
      RetrievalIsAlone(Step(s, Check(f)), f, between);
    }
  }
}

/** A chain of providers (aws/credentials/chain_provider.go). */
module ProviderChains {
  import opened Prelude
  import opened CredentialsProtocol
  import E = Errors

  /** What a provider's `Retrieve` returns: a value, or an error. */
  type Retrieval = Result<Value, E.Error>

  /** The first provider that succeeds. */
  function FirstOk(rs: seq<Retrieval>): Option<nat> {
    if rs == [] then None
    else if rs[0].Ok? then Some(0)
    else match FirstOk(rs[1..]) case None => None case Some(i) => Some(i + 1)
  }

  lemma {:induction false} FirstOkIs(rs: seq<Retrieval>, i: nat)
    requires i <= |rs| && forall j | 0 <= j < i :: rs[j].Err?
    ensures i < |rs| && rs[i].Ok? ==> FirstOk(rs) == Some(i)
    ensures i == |rs| ==> FirstOk(rs) == None
  {
    if i > 0 {
      FirstOkIs(rs[1..], i - 1);
    }
  }

  class ChainProvider {
    const verboseErrors: bool
    /** The place in the list of the provider in use. */
    var curr: Option<nat>

    constructor (verboseErrors: bool)
      ensures this.verboseErrors == verboseErrors && curr == None
    {
      this.verboseErrors, curr := verboseErrors, None;
    }

    /** `rs` is what each provider answers if it is asked. */
    method Retrieve(rs: seq<Retrieval>) returns (r: Retrieval)
      modifies this
      ensures curr == FirstOk(rs)
      ensures curr.Some? ==> curr.value < |rs| && r == rs[curr.value] && r.Ok?
      ensures curr.None? ==> r.Err? && r.error.Aws? && E.Code(r.error.aws) == "NoCredentialProviders"
      ensures curr.None? ==> E.Batch(r.error.aws) == if verboseErrors then ErrorsOf(rs) else []
      ensures forall expired: seq<bool> | |expired| == |rs| :: IsExpired(expired) <==> r.Err? || expired[curr.value]
    {
      var errs: seq<E.Error> := [];
      for i := 0 to |rs|
        invariant forall j | 0 <= j < i :: rs[j].Err?
        invariant errs == ErrorsOf(rs[..i])
      {
        if rs[i].Ok? {
          FirstOkIs(rs, i);
          curr := Some(i);
          return rs[i];
        }
        assert rs[..i + 1][..i] == rs[..i];
        errs := errs + [rs[i].error];
      }
      FirstOkIs(rs, |rs|);
      assert rs[..|rs|] == rs;
      curr := None;
      return Err(E.Aws(E.Base("NoCredentialProviders", "", if verboseErrors then errs else [])));
    }

    /** `expired` is what each provider says of its credentials; without one in use they are expired. */
    predicate IsExpired(expired: seq<bool>)
      requires curr.Some? ==> curr.value < |expired|
      reads this
    {
      curr.Some? ==> expired[curr.value]
    }
  }

  function ErrorsOf(rs: seq<Retrieval>): seq<E.Error> {
    if rs == [] then []
    else
      ErrorsOf(rs[..|rs| - 1]) + if rs[|rs| - 1].Err? then [rs[|rs| - 1].error] else []
  }

  lemma {:induction false} ErrorsWhenAllFail(rs: seq<Retrieval>)
    requires forall j | 0 <= j < |rs| :: rs[j].Err?
    ensures |ErrorsOf(rs)| == |rs| && forall j | 0 <= j < |rs| :: ErrorsOf(rs)[j] == rs[j].error
  {
    if rs != [] {
      ErrorsWhenAllFail(rs[..|rs| - 1]);
    }
  }

  /** The error of a verbose chain whose providers all fail. */
  function VerboseError(rs: seq<Retrieval>): E.Error { E.Aws(E.Base("NoCredentialProviders", "", ErrorsOf(rs))) }

  /**
   The retry classifier returns on the error of a verbose chain if and only if the first of several errors is an
   `awserr.Error` and what the batch unrolls to unrolls in turn.
   */
  lemma VerboseChainErrorClassifiedExactlyWhen(rs: seq<Retrieval>)
    requires forall j | 0 <= j < |rs| :: rs[j].Err?
    ensures (exists depth: nat :: E.Evaluate(VerboseError(rs), depth).Some?) <==>
              && (|rs| >= 2 ==> rs[0].error.Aws?)
              && E.Unrolls(E.OrigErr(VerboseError(rs).aws))
  {
    ErrorsWhenAllFail(rs);
    E.ReturnsExactlyWhenUnrolls(VerboseError(rs));
    E.UnrollDropsOrRepeats(VerboseError(rs).aws);
  }
}
