# Verified model of the IBM COS SDK request engine

A Dafny 4.11 model of the parts of the SDK whose correctness rests on state, loops and interleavings, with proofs of
what those parts promise. `dafny verify dfyconfig.toml` verifies the whole project. Nothing of the SDK itself is
executed here.

| file | what it models |
|---|---|
| `Prelude.dfy` | options, results, powers of two |
| `Errors.dfy` | the retry classifier and the unrolling of batched errors |
| `Backoff.dfy` | exponential backoff with jitter, in int64 |
| `Lifecycle.dfy` | one `Send` as steps over a request's fields, for any handlers, transport and context |
| `LifecycleGrammar.dfy` | the order in which `Send` runs its handler lists |
| `LifecycleTermination.dfy` | when `Send` returns |
| `LifecycleOutcomes.dfy` | when `Send` returns nil and what error it leaves |
| `LifecycleCancellation.dfy` | what a cancellation that is seen does to `Send` |
| `LifecycleWaits.dfy` | how often `Send` tries, when it waits, and what each wait is ruled by |
| `LifecycleErrors.dfy` | where `Send` stops, with which error, and what it leaves in the request |
| `DefaultRetries.dfy` | `Send` with the default retryer, joining the parts above |
| `Request.dfy` | the request object, its methods proved against `Lifecycle` |
| `Credentials.dfy` | the concurrent credentials cache, and chains of providers |
| `Body.dfy` | rewinding the request body between attempts |
| `HandlerList.dfy` | the handler list over its backing array |
| `WriteAtBuffer.dfy` | the growable download buffer |
| `SharedConfig.dfy` | shared config profiles and their source chains |
| `Endpoints.dfy` | endpoint resolution and enumeration |
| `Pagination.dfy` | the page iterator and the deprecated `EachPage` |
| `Waiter.dfy` | waiting for a resource state |
| `Arn.dfy` | resource names |

## How it is modelled

- An object that the source updates in place is a class with the same fields (`Request`, `HandlerList`,
  `OffsetReader`, `RequestBody`, `WriteAtBuffer`, `SharedConfig`, `Pagination`, `Credentials`, `ChainProvider`); loops
  of the source are loops. Each method is proved against a function over values, and the theorems are about those
  functions.
- Handlers, the transport, clocks, cancellation, random draws, providers and servers are arbitrary parameters. Handlers
  rewrite the request's error, response handlers also the status, and Retry and AfterRetry handlers also whether the
  request is retryable. The Send list is the default one, `ValidateReqSigHandler` and `SendHandler`; the AfterRetry list
  is `AfterRetryHandler` followed by any handlers. The concurrent credentials cache is a state machine whose actions may interleave in any order.
- Recursion and loops of the source that may not end (`shouldRetryError`, `setFromIniFiles`, the loops in `Send` and
  `WaitWithContext`) are modelled with an explicit bound, and the inputs on which some bound is enough are
  characterised by an if-and-only-if.
- Go integers that can overflow are wrapped explicitly (`Backoff.Wrap64`).

## Where the code does not do what one would expect

- `shouldRetryError` never returns on a batch of two or more errors that does not begin with an `awserr.Error`, such
  as the verbose error of a provider chain (`Errors.ReturnsExactlyWhenUnrolls`,
  `ProviderChains.VerboseChainErrorClassifiedExactlyWhen`).
- CompleteAttempt, Retry or further AfterRetry handlers that clear the error of an attempt, and leave the request marked
  to be retried, can make `Send` loop for ever, whatever the maximum of retries: clearing uses up no retry. It always
  returns exactly when no run can get to an attempt from which on every failure can be cleared; for handlers that do not
  count attempts, exactly when they clear no failure in that way (`LifecycleTermination.SendReturnsExactlyWhen`,
  `LifecycleTermination.SteadyHandlersReturnExactlyWhen`).
- Such handlers that clear the error and do not leave the request to be retried make `Send` return nil after a failed
  attempt; nil always means success exactly when no attempt that can be reached can be treated so
  (`LifecycleOutcomes.NilMeansSuccessExactlyWhen`).
- A request cancelled while sending is sent again if a handler lifts its veto or the retryer is asked all the same and
  says yes, one cancelled while waiting if an AfterRetry handler overrules that
  (`LifecycleCancellation.CancellationStopsExactlyWhen`); the default retryer says no
  (`DefaultRetries.DefaultStopsOnCancel`).
- `Send` waits at most once for every retry left exactly when no cancelled wait can be overruled and followed by another
  (`LifecycleWaits.WaitsFitExactlyWhen`). The default handler lists meet all four conditions, that on
  cancellation unless `EnforceShouldRetryCheck` is set (`DefaultRetries.QuietHandlersMeetTheConditions`).
- The documentation of `Credentials.Expire` says that the next `Get` refreshes. A `Get` begun after an `Expire` can
  join a flight that has already returned and receive the old value. It gets only values from after every earlier
  `Expire`, in every continuation, exactly when no flight is listed that has settled on an older one
  (`CredentialsProtocol.FreshExactlyWhenNoStaleFlight`, `CredentialsProtocol.LateJoinerGetsStaleValue`).
- A negative Retry-After, which section 7.1.3 of RFC 7231 does not allow, is accepted and shortens the wait; a huge one
  wraps around. These are the only cases in which a wait is shorter than the backoff
  (`Backoff.RetryAfterShortensExactlyWhen`).
- A negative minimum or maximum delay, or a maximum of 1 ns, can make `RetryRules` panic, unless no retry is allowed
  (`Backoff.NeverPanicsExactlyWhen`).
- A waiter with a maximum below one attempt counts past it, and returns exactly when some attempt ends it by itself
  (`Waiters.WaitReturnsExactlyWhen`).
- A body that starts beyond its end is sent as an empty reader, not as `NoBody`, unless the method is GET, HEAD or
  DELETE or the reader has a length (`Bodies.RequestBody.ResetBody`).
- `WriteAt` shows what the spare capacity of the caller's slice held in a gap, unless it reallocates
  (`WriteAtBuffers.WriteAtBuffer.WriteAt`).
- A first page whose request fails to be sent ends a `Pagination` for good, a later one does not
  (`Paging.NextIsTheNextPage`).
- The profiles visited while loading a shared config are recorded but never consulted: a cycle of `source_profile`s is
  followed for ever (`SharedConfigs.LoadReturnsExactlyWhenAcyclic`).
- The comment on `awserr.New` says that an `awserr.Error` is returned unwrapped; the code wraps it, and so does the
  model (`Errors.New`).

## Model

| member | source | states |
|---|---|---|
| Errors.UnrollDropsOrRepeats | aws/awserr/types.go:93-106 | unrolling a batch that begins with an awserr.Error strictly drops the number of errors it is built of; any other batch of two or more unrolls to a batch that unrolls to itself |
| Errors.ReturnsExactlyWhenUnrolls | aws/request/retryer.go:168-226 | the classifier's recursion returns if and only if every batch met on the way begins with an awserr.Error, and then needs no more depth than there are errors |
| Errors.WellBatchedUnrolls | aws/request/retryer.go:168-226 | it returns on every error whose batches, at any depth, have awserr.Errors in all but the last place |
| Errors.PlainFirstNeverReturns | aws/awserr/types.go:99-104 | no depth is enough for a batch of two that begins with an ordinary error |
| Errors.FirstDecisiveLink | aws/request/retryer.go:168-226 | the answer is that of the first link of the chain of causes that decides on its own; all links before it are undecided and each is the cause of the one before |
| Errors.CanceledIsNeverRetryable | aws/request/retryer.go:168-200 | a cancelled error under any stack of request errors and url errors that are not refused connections is never retryable |
| Errors.SendFailureIsRetriedExactlyWhen | aws/request/retryer.go:168-226 | the answer for a request that could not be sent, by its cause: yes for a refused connection, a failed dial, a temporary failure, a connection broken while not reading, and any text but those of a cancelled request |
| Errors.ReadFailureIsRetriedExactlyWhen | aws/request/retryer.go:130-157 | the answer for a response that could not be read: that for its cause, or yes for the codes of request errors, timeouts and expired credentials, a temporary failure under url errors, and a broken connection |
| Errors.BatchIsJudgedInOrder | aws/awserr/types.go:93-106 | a batch of service errors is judged by its codes in their order: a retryable one settles it unless a cancellation stands before, a request error only in the last place |
| Backoff.DefaultRetryer.WithDefaults | aws/client/default_retryer.go:60-74 | replacing zero delays by the defaults gives positive minima and maxima of at least 2, for settings without negative delays and without a maximum of 1 |
| Backoff.GuardPreventsOverflow | aws/client/default_retryer.go:111-117 | behind the guard on the retry count, the shift, the jitter sum and their product stay within int64, also when the floating point logarithm rounds up |
| Backoff.GuardIsTight | aws/client/default_retryer.go:111-113 | a guard weaker by one would let the product leave int64 |
| Backoff.RetryRules | aws/client/default_retryer.go:77-127 | for every retry count and all settings, the wrapping machine computation panics exactly when the formula would draw below a number that is not positive, and otherwise is the intended delay plus the accepted Retry-After, wrapped once |
| Backoff.NeverPanicsExactlyWhen | aws/client/default_retryer.go:111-127 | a setting never makes the random draw panic if and only if it allows no retry, or its minimum is positive and its maximum at least 2 |
| Backoff.BackoffBounds | aws/client/default_retryer.go:111-121 | before Retry-After is added, the delay lies between min(minDelay * 2^retryCount, maxDelay / 2) and maxDelay |
| Backoff.GuardOnlyPreventsOverflow | aws/client/default_retryer.go:113-120 | for maxima below 2^61 ns the guard changes no answer: the result is the capped exponential formula |
| Backoff.RetryAfterExact | aws/client/default_retryer.go:92-97 | the returned delay is base plus Retry-After if and only if that sum fits into int64; without an accepted header it always is |
| Backoff.DelayBounds | aws/client/default_retryer.go:77-122 | the machine delay never exceeds the maximum for its kind plus the largest header, and is never below the guaranteed wait if the header is not negative |
| Backoff.RetryAfterShortensExactlyWhen | aws/client/default_retryer.go:147-162 | a wait is shorter than the backoff if and only if the header, as a wrapped duration, is negative or makes the sum leave int64 |
| Backoff.HeaderCountsExactlyOn | aws/client/default_retryer.go:147-176 | a Retry-After prolongs the wait by its seconds on a throttled 429 or 503, and on no other answer |
| Backoff.SettingsAreUsed | aws/client/default_retryer.go:60-74 | which setting bounds a wait: that of its kind, or the default of 30 ms, 500 ms or 300 s where it is zero |
| LifecycleTermination.SendTerminates | aws/request/request.go:546-570 | if no failure is cleared, Send returns within one turn more than there are retries left, for any handlers around the default Send list and after AfterRetryHandler, and any responses |
| LifecycleTermination.SendReturnsExactlyWhen | aws/request/request.go:546-570 | Send returns for every request, transport, context, retryer and all other handlers if and only if no run can get to an attempt from which on the CompleteAttempt, Retry and further AfterRetry handlers can clear every failure |
| LifecycleTermination.SteadyHandlersReturnExactlyWhen | aws/request/request.go:558-563 | for such handlers that do not count attempts: if and only if they clear no failure of the first attempt while leaving the request to be retried |
| LifecycleGrammar.SendInGrammar | aws/request/request.go:414-447 | the handler lists that any returning Send ran through, for any handlers, transport and context, form a word of a fixed automaton |
| LifecycleGrammar.GrammarMeaning | aws/request/request.go:527-540 | in every such word Complete is once and last, Validate can only be first and Build second, and every attempt is completed exactly once before the next |
| LifecycleGrammar.AttemptsAlternate | aws/request/request.go:598-629 | from any stage on, Sends and CompleteAttempts alternate |
| LifecycleOutcomes.FinalError | aws/request/request.go:528-544 | the error a request is left with is what the Complete handlers make of the returned error, or after a successful attempt of what CompleteAttempt handlers made of none |
| LifecycleOutcomes.ReturnedErrorIsRequestError | aws/request/request.go:561-568 | with quiet CompleteAttempt handlers, the returned error is the request's error if and only if the Complete handlers leave it alone |
| LifecycleOutcomes.NilMeansSuccessExactlyWhen | aws/request/request.go:555-563 | once attempting, Send returns nil exactly when its last attempt succeeded, for every transport, context, retryer and all other handlers, if and only if no attempt can be reached whose failure CompleteAttempt, Retry and further AfterRetry handlers can hide |
| LifecycleOutcomes.SteadyHandlersTellExactlyWhen | aws/request/request.go:555-563 | for handlers that do not count attempts: if and only if they hide no failure of the first |
| LifecycleErrors.OnlySignedRequestsAreSent | aws/request/request.go:414-447 | the first of validating, building and signing to fail ends the run with its error and nothing after it; a failed build is not marked as done; only a request that passes all three is sent |
| LifecycleErrors.EveryFailureIsReported | aws/request/request.go:555-595 | with any response handlers and the default ones after an attempt, Send returns the error of its last attempt, or of the wait cancelled or the rewinding failed after it, each with its code and its cause, and leaves the status of that attempt; every attempt before had failed |
| LifecycleErrors.TurnReports | aws/request/request.go:546-570 | which of these a turn ends with, decided by the answers of the transport, the retryer, the context and the body |
| LifecycleErrors.WhatSendLeaves | aws/request/request.go:528-544 | a Send leaves a status and the delay of its last wait; a request that already has an error is only completed |
| LifecycleWaits.WaitsAreRuled | aws/corehandlers/handlers.go:189-219 | for any handlers: each wait is what the retryer rules for the request as it was judged after the attempt that failed, which had a retry left and is waited for once |
| LifecycleWaits.WaitsAreCounted | aws/corehandlers/handlers.go:196-217 | unless a cancelled wait can be overruled and followed by another: at most one wait per retry left, the i-th for a request retried i times in the run |
| LifecycleWaits.WaitsFitExactlyWhen | aws/corehandlers/handlers.go:196-217 | Send waits at most once per retry left, for every transport, context, retryer and all other handlers, if and only if no run can have a cancelled wait overruled and wait again for a later attempt |
| LifecycleWaits.AttemptsAndWaits | aws/request/request.go:546-570 | where no failure is cleared: at most one attempt more than there are retries left, and the i-th wait follows the i-th attempt |
| LifecycleWaits.CredentialsExpireExactlyWhen | aws/corehandlers/handlers.go:196-217 | over a whole Send: each wait ends cancelled, or with the credentials expired, or simply over, and it is the second exactly when it was not cancelled and the error of the request judged in that turn has an expired-credentials code |
| LifecycleWaits.WillRetryDecides | aws/request/request.go:263-268 | where no failure is cleared: a failed attempt is followed by another if and only if WillRetry holds of the judged request, the wait is not cancelled, no further AfterRetry handler objects and the body can be rewound |
| LifecycleCancellation.CancellationStopsSending | aws/corehandlers/handlers.go:166-174 | if nothing overrules a request marked not retryable, no attempt follows a cancellation seen while sending or sleeping |
| LifecycleCancellation.CancellationStopsExactlyWhen | aws/corehandlers/handlers.go:162-206 | no attempt follows a cancellation that was seen, for every transport, context, retryer and all other handlers, if and only if no attempt can be reached whose cancellation, while sending or while waiting, can be overruled |
| LifecycleCancellation.SteadyHandlersStopExactlyWhen | aws/corehandlers/handlers.go:162-206 | for handlers that do not count attempts: if and only if they overrule no cancellation of the first |
| DefaultRetries.QuietHandlersMeetTheConditions | aws/request/request.go:546-570 | with the default handler lists no failure is cleared or hidden, no veto lifted and no cancelled wait overruled, so that the conditions above hold, that on cancellation unless the retryer overrules vetoes |
| DefaultRetries.DefaultStopsOnCancel | aws/client/default_retryer.go:130-143 | with the default retryer, and Retry and AfterRetry handlers that lift no veto, no attempt follows an observed cancellation |
| DefaultRetries.CancellationIsReported | aws/corehandlers/handlers.go:162-206 | with the default retryer and handlers, a Send in which a cancellation is seen returns an error with the code for cancelled requests |
| DefaultRetries.CanceledCauseIsLast | aws/request/retryer.go:168-200 | with the default retryer and handlers, an attempt failing with a wrapped cancellation is the last one of its Send, which returns an error, even when the context check did not see it |
| DefaultRetries.NilMeansWellAnswered | aws/corehandlers/handlers.go:178-183 | with the default handlers alone, Send returns nil if and only if some attempt was answered with a status below 300 that is not 0, and that attempt is the last |
| DefaultRetries.TotalWait | aws/corehandlers/handlers.go:196-207 | unless cancelled waits are overruled and followed by others, one Send sleeps at most its retries left times the longest delay plus the largest Retry-After |
| DefaultRetries.WaitsBackOff | aws/client/default_retryer.go:102-121 | for any handlers, each wait of a Send lies within the backoff bounds for the retries that the request had and for the throttle status of the attempt that failed before it |
| DefaultRetries.WaitsDouble | aws/client/default_retryer.go:111-121 | while the throttle status stays the same, what is guaranteed of the first wait is doubled with every further one until it reaches half the maximum |
| DefaultRetries.ThrottlingServerIsGivenTime | aws/client/default_retryer.go:90-109 | against a server that answers every attempt with a throttling status, all waits double by the throttle settings |
| DefaultRetries.ServiceErrorIsRetriedExactlyWhen | aws/client/default_retryer.go:130-143 | what the default retryer answers for a service error without a cause: yes exactly for the statuses 429, 500, 502, 503 and 504, for request errors, and for the timeout, expiry and throttling codes and those configured |
| DefaultRetries.RetryableFailureIsRetried | aws/client/default_retryer.go:130-143 | with the default handlers, an attempt failing with such a status or code while a retry is left is followed by another |
| DefaultRetries.FailingServerIsRetried | aws/request/request.go:546-570 | against a server that answers every attempt with such a status, Send makes exactly one attempt more than there are retries left and returns the error of the last |
| DefaultRetries.RetryAfterIsHonoured | aws/client/default_retryer.go:147-176 | against a server that answers every attempt with 429 or 503 and the same Retry-After, every wait is that many seconds longer than the backoff, so at least that long |
| Requests.Request.Build | aws/request/request.go:414-430 | builds once: validates, builds and marks, stopping at the first error, as specified over the fields |
| Requests.Request.Sign | aws/request/request.go:436-447 | signs after a build, and only if that left no error |
| Requests.Request.HandleSendError | aws/corehandlers/handlers.go:132-175 | a dummy response where there is none, a request error, overridden by a cancellation that also vetoes retrying |
| Requests.Request.RunSendHandlers | aws/corehandlers/handlers.go:62-117 | the signature is renewed in place if it expired, then the transport's answer is recorded |
| Requests.Request.SendRequest | aws/request/request.go:598-629 | one attempt over the fields, with CompleteAttempt after the result is settled |
| Requests.Request.AfterRetryHandler | aws/corehandlers/handlers.go:187-219 | judges, waits, counts the retry and clears the error, or records the cancellation |
| Requests.Request.Send | aws/request/request.go:527-570 | wherever Send returns, final fields, events and returned error of the loop are those of the specification that the theorems are about |
| CredentialsProtocol.CacheFollowsHistory | aws/credentials/credentials.go:280-325 | at any reachable state the cache holds the value of the last successful retrieval, or none if an Expire came after it; failed retrievals leave it |
| CredentialsProtocol.StepKeepsInv | aws/credentials/credentials.go:251-360 | every step of every caller, flight, expiry and cancellation keeps the invariant of lock, history, answers and callers |
| CredentialsProtocol.RetrievesNeverOverlap | aws/credentials/credentials.go:280-300 | in every interleaving, a retrieval ends before the next one begins |
| CredentialsProtocol.RefreshesAreSeparated | aws/credentials/credentials.go:284-298 | two successful non-empty retrievals are separated by an Expire or by the provider's expiry |
| CredentialsProtocol.AnswersAreRetrieved | aws/credentials/credentials.go:251-278 | in every interleaving, a value returned without error came from a successful retrieval |
| CredentialsProtocol.FreshExactlyWhenNoStaleFlight | aws/credentials/credentials.go:315-325 | a call begun at a reachable state gets in every continuation only values from after every earlier Expire, if and only if no flight is listed that has settled on an older one |
| CredentialsProtocol.LateJoinerGetsStaleValue | internal/sync/singleflight/singleflight.go:73-108 | a run in which a call begun after an Expire receives the value from before it |
| CredentialsProtocol.ExpiredProviderIsAskedExactlyWhen | aws/credentials/credentials.go:251-300 | a call begun while the provider says that its credentials are expired gets in every continuation, until the provider says otherwise without a retrieval, only values retrieved after it began, if and only if no flight is listed that has settled on a value |
| CredentialsProtocol.UsableCredentialsAreReturned | aws/credentials/credentials.go:252-260 | a call that finds usable credentials gets them at once, and changes nothing else |
| CredentialsProtocol.CancellationConcernsNobodyElse | aws/credentials/credentials.go:266-278 | a caller waiting for a flight can be cancelled at any time, and whatever follows, cache, flights and all other callers are as if it had gone on waiting |
| CredentialsCache.Credentials.SingleRetrieve | aws/credentials/credentials.go:280-300 | the double check under the lock, the provider asked only if needed, a success stored and a failure not |
| CredentialsCache.FlightIsSingleRetrieve | aws/credentials/credentials.go:280-300 | whatever all others do between its check and its end, a flight of the protocol has the effect and the answer of one undisturbed SingleRetrieve |
| CredentialsCache.Credentials.Expire | aws/credentials/credentials.go:320-325 | after it the cache is expired whatever the provider says |
| ProviderChains.ChainProvider.Retrieve | aws/credentials/chain_provider.go:71-89 | the first provider to succeed answers and becomes current; if none does there is no current one, and a verbose chain returns all errors in order |
| ProviderChains.VerboseChainErrorClassifiedExactlyWhen | aws/credentials/chain_provider.go:83-88 | the retry classifier returns on the error of a verbose chain, of any length, if and only if the first of several errors is an awserr.Error and what the batch unrolls to unrolls in turn |
| Bodies.SeekerLenBySeeking | aws/types.go:130-147 | the length probe reports what is left and restores the position |
| Bodies.SeekerLen | aws/types.go:103-128 | the length left by whichever way the reader offers, -1 when unknown, position unchanged |
| Bodies.CopySeekableBody | aws/types.go:243-264 | copies everything left and puts a seekable body back where it was, or reports an error after copying a part from the beginning |
| Bodies.OffsetReader.Read | aws/request/offset_reader.go:39-48 | an open generation yields the next bytes; a closed one yields none and does not move the shared cursor |
| Bodies.OffsetReader.Seek | aws/request/offset_reader.go:51-56 | seeks the shared body from any origin, closed or not; a failing seek moves nothing |
| Bodies.NewOffsetReader | aws/request/offset_reader.go:18-27 | a new open generation at the offset, or an error that moves nothing |
| Bodies.RequestBody.GetNextRequestBody | aws/request/request.go:449-506 | closes every earlier generation, starts the next at the body's start, and chooses between it and NoBody by the length left |
| Bodies.RequestBody.ResetBody | aws/request/request_1_8.go:27-37 | a seekable body's open generation yields exactly the bytes from its start whatever was read before, NoBody is used exactly when specified, a body that cannot seek is not rewound, and whether the body can be sent again follows from these |
| Bodies.RequestBody.SetReaderBody | aws/request/request.go:300-315 | attempts start where the reader stands when it is set |
| BodyRuns.EveryAttemptReplaysTheBody | aws/request/offset_reader.go:39-48 | over any interleaving of resets, reads and closes, each generation delivers a prefix of the body from its start, and all of it if it stays open and reads to the end |
| BodyRuns.ReadAttempts | aws/request/request.go:581-582 | the same for the real objects over any number of attempts with abandoned readers still reading |
| BodyRuns.RunOnObjects | aws/request/offset_reader.go:39-66 | any schedule of resets, and of reads and closes by current or abandoned readers, does to the real objects what the state machine says: cursor, open reader, and the bytes each reader gets |
| HandlerLists.HandlerList.Copy | aws/request/handlers.go:144-154 | the copy has the same handlers in an array of its own |
| HandlerLists.CopiesAreIndependent | aws/request/handlers.go:28-45 | under any schedule of mutations of a list and its copy, neither sees what was done to the other |
| HandlerLists.HandlerList.PushBackNamed | aws/request/handlers.go:172-177 | appends, allocating or in place |
| HandlerLists.HandlerList.PushFrontNamed | aws/request/handlers.go:185-195 | prepends, both by reallocation and by the overlapping shift |
| HandlerLists.HandlerList.RemoveByName | aws/request/handlers.go:203-216 | deleting while iterating terminates, is the order-preserving filter, and zeroes the freed slots |
| HandlerLists.WithoutKeepsOthers | aws/request/handlers.go:203-216 | removal drops every handler of the name and keeps every other as often as it was |
| HandlerLists.HandlerList.SwapNamed | aws/request/handlers.go:221-230 | replaces the function of every handler of the name, and says whether there was one |
| HandlerLists.HandlerList.Swap | aws/request/handlers.go:234-245 | replaces every handler of the name, and says whether there was one |
| HandlerLists.HandlerList.SetBackNamed | aws/request/handlers.go:249-253 | swaps where the name exists and appends where it does not |
| HandlerLists.HandlerList.SetFrontNamed | aws/request/handlers.go:258-262 | swaps where the name exists and prepends where it does not |
| HandlerLists.SetBackKeepsUnique | aws/request/handlers.go:249-262 | setting a handler keeps a unique name unique |
| HandlerLists.SettingKeepsPlaces | aws/request/handlers.go:249-262 | a handler of a new name comes last, or first, with all others in their order; where the name exists the others keep their places |
| HandlerLists.SubstitutedByName | aws/request/handlers.go:234-245 | replacing keeps every handler of another name at its place, leaves none of the name but the replacement, and adds one replacement for each |
| HandlerLists.SetBackPerAttempt | aws/client/logger.go:176-181 | over any number of attempts that each set their handler, one of the name remains, the last |
| HandlerLists.HandlerList.Run | aws/request/handlers.go:265-275 | runs exactly the prefix that ends at the first handler after which AfterEachFn says no |
| WriteAtBuffers.WriteAtBuffer.WriteAt | aws/types.go:183-201 | length, every byte including those of a gap, growth coefficient and cost after a write; spare capacity stays zero |
| WriteAtBuffers.WriteAtBuffer.WriteInTurn | aws/types.go:183-201 | a run of writes leaves the bytes of their specification, at the specified cost, which a coefficient of at least 2 keeps linear |
| WriteAtBuffers.ByteOfAll | aws/types.go:180-182 | after agreeing writes each byte is that of any write covering it, else what was there, else zero |
| WriteAtBuffers.OrderIndependent | aws/types.go:160-162 | the same agreeing writes leave the same bytes in any order and however often repeated |
| WriteAtBuffers.DisjointWritesCommute | aws/types.go:160-162 | any permutation of pairwise disjoint writes leaves the same bytes |
| WriteAtBuffers.PartsAssemble | aws/types.go:160-162 | parts that tile the buffer assemble to their concatenation in any order |
| WriteAtBuffers.DoublingIsAmortized | aws/types.go:188-198 | with a coefficient of at least 2, bytes copied stay below twice the final length and reallocations logarithmic |
| WriteAtBuffers.DefaultGrowthIsQuadratic | aws/types.go:167-171 | with the default coefficient, appending byte by byte copies quadratically many bytes |
| SharedConfigs.LoadReturnsExactlyWhenAcyclic | aws/session/shared_config.go:173-218 | loading a profile returns if and only if following its source profiles never comes back to one already seen |
| SharedConfigs.LoadedChainIsLinked | aws/session/shared_config.go:198-217 | each link is the source its parent names, and only the last names none and may carry credentials, a source or a process |
| SharedConfigs.ChainNoLongerThanProfiles | aws/session/shared_config.go:202-215 | the chain has no more links than the files name profiles |
| SharedConfigs.KeysComeFromOneFile | aws/session/shared_config.go:261-270 | access key and secret come from one file, the last that has both for the profile |
| SharedConfigs.PlainNameComesFirst | aws/session/shared_config.go:229-236 | a profile's section is the one of its own name, else that of "profile" and its name |
| SharedConfigs.LastFileWins | aws/session/shared_config.go:176-288 | reading fails at the first file whose option is malformed; else every field is what the last file gives for it |
| SharedConfigs.OwnExactly | aws/session/shared_config.go:173-200 | a profile by itself, or why it fails, in terms of the files: malformed option, in no file, two ways to get credentials named, or the last file's fields, credentials cleared where a source is named |
| SharedConfigs.LoadFailsExactlyWhen | aws/session/shared_config.go:202-215 | loading fails if and only if a profile on the walk of sources fails by itself, and with its error |
| SharedConfigs.ResolvesToLastProfile | aws/session/credentials.go:36-88 | from files to credentials: a loaded profile resolves to what the files give the profile at the end of its sources: the keys of the last file with both, else the last process named, else the last credential source, else the default chain |
| SharedConfigObjects.SharedConfig.SetFromIniFile | aws/session/shared_config.go:228-288 | one section overwrites the fields that it has keys for, or fails on a malformed option |
| SharedConfigObjects.SharedConfig.ReadFiles | aws/session/shared_config.go:176-194 | later files overwrite earlier ones, files without the profile are skipped and counted |
| SharedConfigObjects.OneOrNoneOf | aws/session/shared_config.go:322-335 | true exactly when at most one flag is set |
| SharedConfigObjects.SharedConfig.ValidateCredentialType | aws/session/shared_config.go:290-301 | at most one of source profile, credential source and credential process |
| SharedConfigObjects.SharedConfig.SetFromIniFiles | aws/session/shared_config.go:173-218 | the linked objects hold the specified chain, or the specified error is returned |
| Endpoints.MergeMonoid | aws/endpoints/v3model.go:502-527 | merging is associative and idempotent with the blank endpoint as unit |
| Endpoints.MostSpecificLayerWins | aws/endpoints/v3model.go:502-527 | every merged field is that of the last layer that sets it, each field by itself |
| Endpoints.MergeLayers | aws/endpoints/v3model.go:443-449 | the loop over the defaults and the endpoint merges them in order of specificity |
| Endpoints.ParseVariantTags | aws/endpoints/v3model.go:123-141 | tags are known exactly when there are some and all are, in whatever case, and then mean the dual-stack variant |
| Endpoints.TagSpellings | aws/endpoints/v3model.go:129-138 | the spellings of the tag: each letter in either case, and the two letters beyond ASCII that fold into it |
| Endpoints.DecodeVariants | aws/endpoints/v3model.go:97-120 | a variant inherits every field of its base but hostname and DNS suffix; the last with known tags wins, others are dropped |
| Endpoints.ResolveInPartitions | aws/endpoints/v3model.go:43-66 | the first partition that can resolve answers, else under loose matching the first of all; errors carry what is known |
| Endpoints.AppendingPartitionsChangesNothing | aws/endpoints/v3model.go:43-66 | once some partition can resolve, appending partitions never changes the answer |
| Endpoints.WhichPartitionAnswers | aws/endpoints/v3model.go:43-66 | the first partition that lists the endpoint, or whose expression matches the region unless the match is strict, answers; when none does, the first of all, or none when strict |
| Endpoints.ResolvedFields | aws/endpoints/v3model.go:199-257 | host name, scheme and DNS suffix of the URL, signing region, name and method are those of the most specific of endpoint, service default and partition default |
| Endpoints.LayersOf | aws/endpoints/v3model.go:223-256 | what the three layers are: the defaults of partition and service for the variant asked for, and the endpoint of the region, or of the partition for a service that is not regionalized |
| Endpoints.HostOfTemplate | aws/endpoints/v3model.go:473-475 | a host template with the three placeholders gives service, region and DNS suffix in their places, whatever stands between them |
| Endpoints.HostWithoutPlaceholders | aws/endpoints/v3model.go:473-475 | a host name without placeholders is left alone |
| Endpoints.ResolvedUrl | aws/endpoints/v3model.go:473-478 | the URL of a resolved endpoint: the host that the most specific template means, after HTTPS where it is offered or nothing is, unless SSL is disabled |
| Endpoints.RegionFormat | aws/endpoints/v3model.go:557-559 | a region is a letter or digit, or two of them with more of them and hyphens between |
| Endpoints.WhichRegionIsResolved | aws/endpoints/v3model.go:203-221 | a region resolved before replaces the one asked for; without any, the listed services resolve their partition's endpoint and others none; S3 in us-east-1 is the global one unless regional or dual-stack; no other region is replaced |
| Endpoints.ResolvesExactlyWhen | aws/endpoints/v3model.go:199-257 | a partition resolves, or fails in each of three ways, exactly when: the service is known or need not be, the endpoint is there or may be made from defaults, and the region has the right format |
| Endpoints.VariantsAreApart | aws/endpoints/v3model.go:223-248 | a standard resolution reads nothing marked dual-stack; a dual-stack one reads no standard endpoint and no hostname or DNS suffix of a standard entry or of the partition |
| Endpoints.ByPriority | aws/endpoints/v3model.go:427-441 | the default for an empty list, else a member of it, the first priority that it contains |
| Endpoints.ServicesOfRegion | aws/endpoints/endpoints.go:392-404 | the services with a standard endpoint in the region |
| Endpoints.RegionsOfService | aws/endpoints/endpoints.go:426-443 | the known regions with a standard endpoint of the service |
| Endpoints.EndpointsOfService | aws/endpoints/endpoints.go:450-464 | the identifiers of the service's standard endpoints |
| Endpoints.EnumerationsAgree | aws/endpoints/endpoints.go:392-464 | regions of services and services of regions are inverse; regions are the endpoint identifiers that are known |
| Endpoints.ListedEndpointResolvesStrictly | aws/endpoints/v3model.go:199-281 | a listed endpoint with a valid region resolves strictly if and only if the legacy S3 rewrite does not apply or its target is there, its dual-stack variant if and only if that is there |
| Endpoints.ListedEndpointIsFound | aws/endpoints/v3model.go:43-66 | an endpoint that some partition lists is answered by the first partition that can resolve it, that one or one before it, and never by falling back |
| Paging.NextPageTokens | aws/request/request_pagination.go:135-188 | one token per output path, none at all when the page is not truncated or no path has one |
| Paging.NextPageExactlyWhen | aws/request/request_pagination.go:135-188 | a page is followed by another if and only if its truncation value is not false or missing, some output path has a first value other than an empty string, and, when stopping on unchanged tokens, one differs from the page before; the next request carries these values in the input tokens' places |
| Paging.HasNextMeansAPage | aws/request/request_pagination.go:57-67 | after n pages there is a next one to be asked for if and only if the chain has a page n + 1 and no first send has failed |
| Paging.Pagination.Next | aws/request/request_pagination.go:89-118 | the fields and answer after a call, for any failure of creating or sending its request |
| Paging.NextIsTheNextPage | aws/request/request_pagination.go:89-118 | a call retrieves the next page of the chain exactly when the server answers, there is one and no first send failed; a failing call records its error and changes neither tokens nor page |
| Paging.PagesAreTheChain | aws/request/request_pagination.go:89-118 | whatever calls fail, the pages retrieved are those of the token chain in order, none skipped or repeated |
| Paging.AllPagesAreRetrieved | aws/request/request_pagination.go:57-118 | with a server that answers, repeated calls retrieve all pages and stop at the end of the chain |
| Paging.AskingAgain | aws/request/request_pagination.go:229-233 | tokens set over earlier tokens give the same parameters as tokens set on the original ones |
| Paging.CopiedParamsAskTheSame | aws/request/request_pagination.go:220-235 | the requests of EachPage, each copied from the one before, retrieve the pages that Next does |
| Paging.EachPage | aws/request/request_pagination.go:252-266 | on every run that ends, the callback, which may count its calls, sees the pages of the chain in order until it stops, a send fails or they end, and its flag is true exactly on the last page |
| Waiters.Match | aws/request/waiter.go:226-289 | the verdict of an acceptor on a response, with its loops over the values at a path |
| Waiters.DecisionMeans | aws/request/waiter.go:181-185 | a response decides the wait for success or failure if and only if the first acceptor that matches and is for either has that state |
| Waiters.MatchesExactlyWhen | aws/request/waiter.go:226-265 | a path mode matches when all of at least one value, or any, is the expected one, counted; the others compare status or code; a list of paths matches nothing |
| Waiters.WaitWithContext | aws/request/waiter.go:169-212 | wherever it returns: outcome, requests sent and delays begun of the attempt loop, for any maximum |
| Waiters.WaitReturnsExactlyWhen | aws/request/waiter.go:169-212 | a wait returns if and only if its maximum is at least one attempt or some attempt ends it by itself |
| Waiters.WaitMeaning | aws/request/waiter.go:163-212 | a wait ends in one turn, for the reason its outcome names, with a request sent in every turn and a delay between them, at most the maximum of requests; success, or failure, if and only if within it the first acceptor to end the wait has that state |
| Waiters.IdleAcceptorsDoNotMatter | aws/request/waiter.go:253-288 | deleting retry and path-list acceptors changes no outcome, nor whether the wait returns |
| Arns.IsARNExactlyWhenParses | aws/arn/arn.go:61-83 | a text is recognised if and only if it parses |
| Arns.PrintOfParse | aws/arn/arn.go:61-93 | printing what was parsed gives the text back |
| Arns.ParseOfPrint | aws/arn/arn.go:61-93 | parsing what was printed gives the name back if and only if its first four fields contain no colon |
| Arns.SectionsAreFields | aws/arn/arn.go:61-76 | a text of six sections parses into them in their order, the last taking the colons that are left |
| Arns.ParseFailsExactlyWhen | aws/arn/arn.go:61-68 | a text fails for its prefix, or else if and only if it has fewer than five colons |

## Left out

- HTTP transport, TLS, signing algorithms, logging, user agents and error texts: replaced by arbitrary answers or dropped.
- `Presign`, `copy` of a request and streaming bodies: the engine below them is modelled, these entry points are not.
- The handler lists BuildStream and UnmarshalStream, which `Send` never runs; `Handlers.Copy` is modelled list by list.
- Wall-clock time: whether a signature has expired, a timer fired or credentials have expired is an input.
- `ExpiresAt` and the clock arithmetic of `Expiry`: one comparison each.
- Liveness of the credentials cache: the theorems are about safety in every interleaving, not about who gets the lock.
- JSON decoding, ini lexing, environment variables, reflection over paths: maps, sections and values at a path are inputs.
- Generated endpoint tables: the resolver is proved for all models instead.
- Handlers that change anything of a request but its error, its status and whether it is retryable, or that change the status or the mark in other lists than the response, the Retry and the AfterRetry handlers.
- Handlers added to the Send list or in place of a default one; handlers before `AfterRetryHandler` in its list count among the Retry handlers.
- DefaultRetries.NilMeansWellAnswered: says nothing of further response handlers, which may turn the result either way.
- HandlerLists.HandlerList.Run: the list is not changed by the handlers it runs.
- WriteAtBuffers.WriteAtBuffer.WriteAt: the written bytes are a value, so a slice aliasing the buffer is not covered, and the scaled capacity is the exact product without float64 rounding.
- Bodies.Source.Read: a read gives fewer bytes at will but does not fail; failing reads and writes are modelled in `Bodies.CopySeekableBody` only.
- SharedConfigObjects.SharedConfig.SetFromIniFile: the role session name, external id, MFA serial, CA bundle and the boolean options are not modelled; case-insensitive spellings of the one checked option are an input.
- Endpoints.DecodeVariants: the FIPS variant is commented out in the source.
- Paging.EachPage: stated for runs that end, a server may page for ever; requests that ask to stop on an unchanged token do so in `Next` only.
- Waiters.WaitWithContext: type assertions on expected values that the source panics on cannot arise.
