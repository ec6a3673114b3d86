/**
 Waiting for a resource to reach a state (aws/request/waiter.go): requests are repeated until an acceptor decides,
 the attempts are used up, or the context is cancelled. What a request's data holds at a path is an input.
 */
module Waiters {
  import opened Prelude

  type Value = int

  datatype AcceptState = Success | Failure | Retry | UnknownState

  /** A match mode with its argument and the value it expects. */
  datatype Matcher =
    | PathAll(path: string, expected: Value)
    | Path(path: string, expected: Value)
    | PathAny(path: string, expected: Value)
    | PathList(path: string, expected: Value)
    | Status(code: int)
    | ErrorCode(errorCode: string)
    | UnknownMatcher

  datatype Acceptor = Acceptor(state: AcceptState, matcher: Matcher)

  datatype SendError = NoError | AwsError(code: string) | OtherError

  datatype Response = Response(valuesAt: string -> seq<Value>, status: int, err: SendError)

  predicate AllEqual(vals: seq<Value>, expected: Value) { vals != [] && forall v | v in vals :: v == expected }

  predicate Matches(m: Matcher, r: Response) {
    match m
    case PathAll(path, expected) => AllEqual(r.valuesAt(path), expected)
    case Path(path, expected) => AllEqual(r.valuesAt(path), expected)
    case PathAny(path, expected) => expected in r.valuesAt(path)
    case PathList(_, _) => false
    case Status(code) => r.status == code
    case ErrorCode(code) => r.err == AwsError(code)
    case UnknownMatcher => false
  }

  /** What an acceptor decides about a response: Some(true) for success, Some(false) for failure. */
  function Verdict(a: Acceptor, r: Response): Option<bool> {
    if !Matches(a.matcher, r) then None
    else if a.state == Success then Some(true)
    else if a.state == Failure then Some(false)
    else None
  }

  /** `WaiterAcceptor.match`, with its loops. */
  method Match(a: Acceptor, r: Response) returns (verdict: Option<bool>)
    ensures verdict == Verdict(a, r)
  {
    var result := false;
    match a.matcher {
      case PathAll(path, expected) => result := MatchAll(r.valuesAt(path), expected);
      case Path(path, expected) => result := MatchAll(r.valuesAt(path), expected);
      case PathAny(path, expected) => result := MatchAny(r.valuesAt(path), expected);
      case PathList(_, _) =>
      case Status(code) => result := code == r.status;
      case ErrorCode(code) =>
        if r.err.AwsError? {
          result := r.err.code == code;
        }
      case UnknownMatcher =>
    }
    if !result {
      return None;
    }
    match a.state {
      case Success => return Some(true);
      case Failure => return Some(false);
      case Retry => return None;
      case UnknownState => return None;
    }
  }

  method MatchAll(vals: seq<Value>, expected: Value) returns (result: bool)
    ensures result <==> AllEqual(vals, expected)
  {
    if |vals| == 0 {
      return false;
    }
    result := true;
    for i := 0 to |vals|
      invariant result && forall j | 0 <= j < i :: vals[j] == expected
    {
      if vals[i] != expected {
        assert vals[i] in vals;
        return false;
      }
    }
  }

  method MatchAny(vals: seq<Value>, expected: Value) returns (result: bool)
    ensures result <==> expected in vals
  {
    for i := 0 to |vals|
      invariant expected !in vals[..i]
    {
      if vals[i] == expected {
        return true;
      }
    }
    return false;
  }

  /** The first verdict of a list of acceptors. */
  function Decision(acceptors: seq<Acceptor>, r: Response): Option<bool> {
    if acceptors == [] then None
    else if Verdict(acceptors[0], r).Some? then Verdict(acceptors[0], r)
    else Decision(acceptors[1..], r)
  }

  /** The acceptor ends the wait on this response: it can succeed or fail, and it matches. */
  predicate Ends(a: Acceptor, r: Response) { a.state in {Success, Failure} && Matches(a.matcher, r) }

  predicate NoneEnds(acceptors: seq<Acceptor>, r: Response) { forall a | a in acceptors :: !Ends(a, r) }

  /** Acceptor `i` is the first to end the wait. */
  predicate FirstToEnd(acceptors: seq<Acceptor>, r: Response, i: nat) {
    i < |acceptors| && Ends(acceptors[i], r) && NoneEnds(acceptors[..i], r)
  }

  /** The first acceptor to end the wait on this response is of this state. */
  ghost predicate EndsAs(acceptors: seq<Acceptor>, r: Response, state: AcceptState) {
    exists i | 0 <= i < |acceptors| :: FirstToEnd(acceptors, r, i) && acceptors[i].state == state
  }

  /** An acceptor that does not end the wait may be passed over. */
  lemma SkipFirst(acceptors: seq<Acceptor>, r: Response, state: AcceptState)
    requires acceptors != [] && !Ends(acceptors[0], r)
    ensures EndsAs(acceptors, r, state) <==> EndsAs(acceptors[1..], r, state)
  {
    hide Ends;
    var first, rest := acceptors[0], acceptors[1..];
    if i :| 0 <= i < |acceptors| && FirstToEnd(acceptors, r, i) && acceptors[i].state == state {
      assert acceptors[i] == rest[i - 1] && forall a | a in rest[..i - 1] :: a in acceptors[..i];
      assert FirstToEnd(rest, r, i - 1);
    }
    if i :| 0 <= i < |rest| && FirstToEnd(rest, r, i) && rest[i].state == state {
      assert acceptors[..i + 1] == [first] + rest[..i];
      assert FirstToEnd(acceptors, r, i + 1);
    }
  }

  /** An acceptor that ends the wait decides for its state. */
  lemma TakeFirst(acceptors: seq<Acceptor>, r: Response, state: AcceptState)
    requires acceptors != [] && Ends(acceptors[0], r)
    ensures EndsAs(acceptors, r, state) <==> acceptors[0].state == state
  {
    hide Ends;
    assert acceptors[..0] == [] && FirstToEnd(acceptors, r, 0);
    if i :| 0 <= i < |acceptors| && FirstToEnd(acceptors, r, i) && acceptors[i].state == state {
      assert i > 0 ==> acceptors[0] in acceptors[..i];
    }
  }

  /** What is decided is the state of the first acceptor that matches and can end the wait. */
  lemma {:induction false} DecisionMeans(acceptors: seq<Acceptor>, r: Response)
    ensures Decision(acceptors, r) == None <==> NoneEnds(acceptors, r)
    ensures Decision(acceptors, r) == Some(true) <==> EndsAs(acceptors, r, Success)
    ensures Decision(acceptors, r) == Some(false) <==> EndsAs(acceptors, r, Failure)
  {
    hide Matches, FirstToEnd;
    if acceptors != [] {
      DecisionMeans(acceptors[1..], r);
      assert acceptors == [acceptors[0]] + acceptors[1..];
      if Ends(acceptors[0], r) {
        TakeFirst(acceptors, r, Success);
        TakeFirst(acceptors, r, Failure);
      } else {
        SkipFirst(acceptors, r, Success);
        SkipFirst(acceptors, r, Failure);
      }
      hide EndsAs;
    }
  }

  /** How often the value is among the others decides the path modes; a list of paths matches nothing. */
  lemma MatchesExactlyWhen(m: Matcher, r: Response)
    ensures Matches(m, r) <==>
              match m
              case PathAll(path, v) => multiset(r.valuesAt(path))[v] == |r.valuesAt(path)| > 0
              case Path(path, v) => multiset(r.valuesAt(path))[v] == |r.valuesAt(path)| > 0
              case PathAny(path, v) => multiset(r.valuesAt(path))[v] > 0
              case Status(code) => r.status == code
              case ErrorCode(code) => r.err.AwsError? && r.err.code == code
              case _ => false
  {
    if m.PathAll? || m.Path? {
      AllEqualByCount(r.valuesAt(m.path), m.expected);
    }
  }

  lemma {:induction false} AllEqualByCount(vals: seq<Value>, v: Value)
    ensures multiset(vals)[v] <= |vals|
    ensures multiset(vals)[v] == |vals| <==> forall u | u in vals :: u == v
  {
    if vals != [] {
      AllEqualByCount(vals[1..], v);
      assert vals == [vals[0]] + vals[1..] && forall u | u in vals[1..] :: u in vals;
      assert multiset(vals)[v] == (if vals[0] == v then 1 else 0) + multiset(vals[1..])[v];
      if i :| 0 <= i < |vals| && vals[i] != v {
        assert vals[i] in vals && (i > 0 ==> vals[i] in vals[1..]);
      }
    }
  }

  datatype Outcome = Reached | FailedState | Exceeded | SleepCanceled | CannotCreate

  /** The world by attempt, counted from 1. */
  datatype Env = Env(createFails: nat -> bool, respond: nat -> Response, canceled: nat -> bool)

  /** How a wait ends, the requests it sent, and the delays it began. */
  datatype Wait = Wait(outcome: Outcome, sent: nat, delays: nat)

  /** The wait from an attempt on, within `limit` turns of its loop: None means that the limit was hit. Go has none. */
  function WaitFrom(acceptors: seq<Acceptor>, maxAttempts: int, env: Env, attempt: nat, limit: nat): Option<Wait>
    requires attempt >= 1
    decreases limit
  {
    if limit == 0 then None
    else if env.createFails(attempt) then Some(Wait(CannotCreate, attempt - 1, attempt - 1))
    else
      match Decision(acceptors, env.respond(attempt))
      case Some(reached) => Some(Wait(if reached then Reached else FailedState, attempt, attempt - 1))
      case None =>
        if attempt == maxAttempts then Some(Wait(Exceeded, attempt, attempt - 1))
        else if env.canceled(attempt) then Some(Wait(SleepCanceled, attempt, attempt))
        else WaitFrom(acceptors, maxAttempts, env, attempt + 1, limit - 1)
  }

  /** `WaitWithContext` where it returns, `limit` being a bound on the turns of its loop. */
  method WaitWithContext(acceptors: seq<Acceptor>, maxAttempts: int, env: Env, ghost limit: nat) returns (w: Wait)
    requires WaitFrom(acceptors, maxAttempts, env, 1, limit).Some?
    ensures Some(w) == WaitFrom(acceptors, maxAttempts, env, 1, limit)
  {
    var attempt, sent, delays := 1, 0, 0;
    ghost var left := limit;
    while true
      invariant attempt >= 1 && sent == delays == attempt - 1
      invariant WaitFrom(acceptors, maxAttempts, env, 1, limit) == WaitFrom(acceptors, maxAttempts, env, attempt, left)
      decreases left
    {
      if env.createFails(attempt) {
        return Wait(CannotCreate, sent, delays);
      }
      var r := env.respond(attempt);
      sent := sent + 1;
      for i := 0 to |acceptors|
        invariant Decision(acceptors, r) == Decision(acceptors[i..], r)
      {
        var verdict := Match(acceptors[i], r);
        assert acceptors[i..][1..] == acceptors[i + 1..];
        if verdict.Some? {
          return Wait(if verdict.value then Reached else FailedState, sent, delays);
        }
      }
      if attempt == maxAttempts {
        break;
      }
      delays := delays + 1;
      if env.canceled(attempt) {
        return Wait(SleepCanceled, sent, delays);
      }
      attempt := attempt + 1;
      left := left - 1;
    }
    return Wait(Exceeded, sent, delays);
  }

  /** Nothing but the maximum ends the wait at attempt `j`. */
  predicate Undecided(acceptors: seq<Acceptor>, env: Env, j: nat) {
    !env.createFails(j) && NoneEnds(acceptors, env.respond(j)) && !env.canceled(j)
  }

  /** A maximum below 1 is none: the attempts are counted past it. */
  predicate Within(maxAttempts: int, k: nat) { maxAttempts >= 1 ==> k <= maxAttempts }

  lemma {:induction false} WaitEndsBy(acceptors: seq<Acceptor>, maxAttempts: int, env: Env, attempt: nat, k: nat)
    requires 1 <= attempt <= k && (k == maxAttempts || !Undecided(acceptors, env, k))
    ensures WaitFrom(acceptors, maxAttempts, env, attempt, k - attempt + 1).Some?
    decreases k - attempt
  {
    DecisionMeans(acceptors, env.respond(attempt));
    if attempt < k {
      WaitEndsBy(acceptors, maxAttempts, env, attempt + 1, k);
    }
  }

  lemma {:induction false} WaitGoesOn(acceptors: seq<Acceptor>, maxAttempts: int, env: Env, attempt: nat, limit: nat)
    requires attempt >= 1 > maxAttempts && forall k | k >= 1 :: Undecided(acceptors, env, k)
    ensures WaitFrom(acceptors, maxAttempts, env, attempt, limit) == None
    decreases limit
  {
    if limit > 0 {
      assert Undecided(acceptors, env, attempt);
      DecisionMeans(acceptors, env.respond(attempt));
      WaitGoesOn(acceptors, maxAttempts, env, attempt + 1, limit - 1);
    }
  }

  /** A wait returns if and only if it has a maximum of at least one attempt, or some attempt ends it by itself. */
  lemma WaitReturnsExactlyWhen(acceptors: seq<Acceptor>, maxAttempts: int, env: Env)
    ensures (exists limit :: WaitFrom(acceptors, maxAttempts, env, 1, limit).Some?) <==>
              maxAttempts >= 1 || exists k :: k >= 1 && !Undecided(acceptors, env, k)
  {
    if maxAttempts >= 1 {
      WaitEndsBy(acceptors, maxAttempts, env, 1, maxAttempts);
    } else if k: nat :| k >= 1 && !Undecided(acceptors, env, k) {
      WaitEndsBy(acceptors, maxAttempts, env, 1, k);
    } else {
      forall limit
        ensures WaitFrom(acceptors, maxAttempts, env, 1, limit).None?
      {
        WaitGoesOn(acceptors, maxAttempts, env, 1, limit);
      }
    }
  }

  /** The wait ends in turn `k` of its loop, for the reason its outcome names. */
  ghost predicate EndsInTurn(acceptors: seq<Acceptor>, maxAttempts: int, env: Env, w: Wait, k: nat) {
    && k >= 1 && Within(maxAttempts, k) && (forall j | 1 <= j < k :: Undecided(acceptors, env, j))
    && w.sent == (if w.outcome == CannotCreate then k - 1 else k)
    && w.delays == (if w.outcome == SleepCanceled then k else k - 1)
    && (env.createFails(k) <==> w.outcome == CannotCreate)
    && match w.outcome
       case CannotCreate => true
       case Reached => EndsAs(acceptors, env.respond(k), Success)
       case FailedState => EndsAs(acceptors, env.respond(k), Failure)
       case Exceeded => NoneEnds(acceptors, env.respond(k)) && k == maxAttempts
       case SleepCanceled => NoneEnds(acceptors, env.respond(k)) && k != maxAttempts && env.canceled(k)
  }

  lemma {:induction false} WaitMeaningFrom(acceptors: seq<Acceptor>, maxAttempts: int, env: Env, attempt: nat,
                                           limit: nat) returns (k: nat)
    requires 1 <= attempt && Within(maxAttempts, attempt)
    requires forall j | 1 <= j < attempt :: Undecided(acceptors, env, j)
    requires WaitFrom(acceptors, maxAttempts, env, attempt, limit).Some?
    ensures EndsInTurn(acceptors, maxAttempts, env, WaitFrom(acceptors, maxAttempts, env, attempt, limit).value, k)
    decreases limit
  {
    hide NoneEnds, EndsAs;
    DecisionMeans(acceptors, env.respond(attempt));
    k := attempt;
    if Undecided(acceptors, env, attempt) && attempt != maxAttempts {
      k := WaitMeaningFrom(acceptors, maxAttempts, env, attempt + 1, limit - 1);
    }
  }

  /** Attempt `k` is made, and a matching acceptor of the state is the first thing that could end the wait. */
  ghost predicate FirstEndsAs(acceptors: seq<Acceptor>, env: Env, k: nat, state: AcceptState) {
    && k >= 1 && (forall j | 1 <= j < k :: Undecided(acceptors, env, j))
    && !env.createFails(k) && EndsAs(acceptors, env.respond(k), state)
  }

  /**
   Of every wait that returns: it ends in one turn, for the reason its outcome names, having sent one request a turn
   and slept between them. It succeeds if and only if, within the maximum, the first acceptor to end it is one for
   success.
   */
  lemma WaitMeaning(acceptors: seq<Acceptor>, maxAttempts: int, env: Env, limit: nat) returns (k: nat)
    requires WaitFrom(acceptors, maxAttempts, env, 1, limit).Some?
    ensures var w := WaitFrom(acceptors, maxAttempts, env, 1, limit).value;
            && EndsInTurn(acceptors, maxAttempts, env, w, k)
            && (maxAttempts >= 1 ==> w.sent <= maxAttempts && w.delays < maxAttempts)
            && (w.outcome == Reached <==>
                  exists n :: Within(maxAttempts, n) && FirstEndsAs(acceptors, env, n, Success))
            && (w.outcome == FailedState <==>
                  exists n :: Within(maxAttempts, n) && FirstEndsAs(acceptors, env, n, Failure))
  {
    k := WaitMeaningFrom(acceptors, maxAttempts, env, 1, limit);
    DecisionMeans(acceptors, env.respond(k));
    hide WaitFrom, NoneEnds, EndsAs;
    forall n, state | Within(maxAttempts, n) && FirstEndsAs(acceptors, env, n, state) && state in {Success, Failure}
      ensures n == k
    {
      DecisionMeans(acceptors, env.respond(n));
      var _ := (Undecided(acceptors, env, k), Undecided(acceptors, env, n));
    }
  }

  /** Acceptors that can decide nothing: those that retry, those of an unknown kind, and path lists. */
  predicate Idle(a: Acceptor) { a.state in {Retry, UnknownState} || a.matcher.PathList? || a.matcher.UnknownMatcher? }

  function WithoutIdle(acceptors: seq<Acceptor>): seq<Acceptor> {
    if acceptors == [] then []
    else (if Idle(acceptors[0]) then [] else [acceptors[0]]) + WithoutIdle(acceptors[1..])
  }

  lemma {:induction false} IdleDecideNothing(acceptors: seq<Acceptor>, r: Response)
    ensures Decision(WithoutIdle(acceptors), r) == Decision(acceptors, r)
  {
    if acceptors != [] {
      IdleDecideNothing(acceptors[1..], r);
      assert ([acceptors[0]] + WithoutIdle(acceptors[1..]))[1..] == WithoutIdle(acceptors[1..]);
      assert [] + WithoutIdle(acceptors[1..]) == WithoutIdle(acceptors[1..]);
    }
  }

  /** Deleting all retry and path-list acceptors changes no wait, nor whether it returns. */
  lemma {:induction false} IdleAcceptorsDoNotMatter(acceptors: seq<Acceptor>, maxAttempts: int, env: Env, attempt: nat,
                                                    limit: nat)
    requires attempt >= 1
    ensures WaitFrom(WithoutIdle(acceptors), maxAttempts, env, attempt, limit)
         == WaitFrom(acceptors, maxAttempts, env, attempt, limit)
    decreases limit
  {
    IdleDecideNothing(acceptors, env.respond(attempt));
    if limit > 0 {
      IdleAcceptorsDoNotMatter(acceptors, maxAttempts, env, attempt + 1, limit - 1);
    }
  }
}
