/**
 The error classifier that decides whether a failed request may be sent again
 (aws/request/retryer.go), together with the unrolling of batched errors it
 walks over (aws/awserr/types.go).

 A Go `error` interface value is the datatype `Error`; the interface
 `awserr.Error` is `AwsError`, whose wrappers delegate to what they embed.
 */
module Errors {
  import opened Prelude

  datatype Error =
    | Nil
    | Aws(aws: AwsError)
    | Url(text: string, wrapped: Error)
    | Net(text: string, isDial: bool, temporary: bool)
    | Plain(text: string)

  datatype AwsError =
    | Base(code: string, message: string, errs: seq<Error>)
    | RequestFailure(inner: AwsError, statusCode: int, requestID: string)
    | UnmarshalFailure(inner: AwsError)

  const CANCELED := "RequestCanceled"
  const REQUEST_ERROR := "RequestError"
  const SERIALIZATION := "SerializationError"
  const READ := "ReadError"
  const RESPONSE_TIMEOUT := "ResponseTimeout"
  const BATCHED := "BatchedErrors"

  const RETRYABLE_CODES: set<string> :=
    {REQUEST_ERROR, "RequestTimeout", RESPONSE_TIMEOUT, "RequestTimeoutException"}

  const EXPIRED_CREDS_CODES: set<string> := {"ExpiredToken", "ExpiredTokenException", "RequestExpired"}

  const THROTTLE_CODES: set<string> :=
    {"ProvisionedThroughputExceededException", "ThrottledException", "Throttling", "ThrottlingException",
     "RequestLimitExceeded", "RequestThrottled", "RequestThrottledException", "TooManyRequestsException",
     "PriorRequestNotComplete", "TransactionInProgressException", "EC2ThrottledException"}

  /** `awserr.New`: a nil original error is dropped, any other becomes the only element. */
  function New(code: string, message: string, orig: Error): Error {
    Aws(Base(code, message, if orig == Nil then [] else [orig]))
  }

  function Code(a: AwsError): string {
    match a
    case Base(code, _, _) => code
    case RequestFailure(inner, _, _) => Code(inner)
    case UnmarshalFailure(inner) => Code(inner)
  }

  function Message(a: AwsError): string {
    match a
    case Base(_, message, _) => message
    case RequestFailure(inner, _, _) => Message(inner)
    case UnmarshalFailure(inner) => Message(inner)
  }

  /** The errors listed in the `baseError` at the core of `a`. */
  function Batch(a: AwsError): seq<Error> {
    match a
    case Base(_, _, errs) => errs
    case RequestFailure(inner, _, _) => Batch(inner)
    case UnmarshalFailure(inner) => Batch(inner)
  }

  function OrigErr(a: AwsError): Error {
    var errs := Batch(a);
    if |errs| == 0 then Nil
    else if |errs| == 1 then errs[0]
    else if errs[0].Aws? then Aws(Base(Code(errs[0].aws), Message(errs[0].aws), errs[1..]))
    else Aws(Base(BATCHED, "multiple errors occurred", errs))
  }

  // ---------------------------------------------------------------- measure

  /** How many error values an error is built of. */
  function Size(e: Error): nat
    decreases e, 0
  {
    match e
    case Nil => 0
    case Aws(a) => AwsSize(a)
    case Url(_, wrapped) => 1 + Size(wrapped)
    case Net(_, _, _) => 1
    case Plain(_) => 1
  }

  function AwsSize(a: AwsError): (n: nat)
    ensures n >= 1
    decreases a, 0
  {
    match a
    case Base(_, _, errs) => 1 + SizeAll(errs)
    case RequestFailure(inner, _, _) => 1 + AwsSize(inner)
    case UnmarshalFailure(inner) => 1 + AwsSize(inner)
  }

  function SizeAll(es: seq<Error>): nat
    decreases es, 0
  {
    if es == [] then 0 else Size(es[0]) + SizeAll(es[1..])
  }

  /** A batch whose unrolling makes progress: its first error is an `awserr.Error`, or it is not really a batch. */
  predicate Splittable(a: AwsError) {
    |Batch(a)| >= 2 ==> Batch(a)[0].Aws?
  }

  lemma {:induction false} BatchIsPart(a: AwsError)
    ensures SizeAll(Batch(a)) < AwsSize(a)
  {
    match a
    case Base(_, _, _) =>
    case RequestFailure(inner, _, _) => BatchIsPart(inner);
    case UnmarshalFailure(inner) => BatchIsPart(inner);
  }

  /**
   Unrolling a splittable error strictly drops the number of errors; unrolling any other batch gives a batch
   that unrolls to itself.
   */
  lemma UnrollDropsOrRepeats(a: AwsError)
    ensures Splittable(a) ==> Size(OrigErr(a)) < AwsSize(a)
    ensures !Splittable(a) ==> OrigErr(a).Aws? && OrigErr(OrigErr(a).aws) == OrigErr(a)
  {
    BatchIsPart(a);
    var errs := Batch(a);
    if |errs| == 1 {
      assert SizeAll(errs) == Size(errs[0]) + SizeAll(errs[1..]);
    }
  }

  // ------------------------------------------------------------- classifier

  predicate IsCodeExpiredCreds(code: string) { code in EXPIRED_CREDS_CODES }

  predicate IsCodeRetryable(code: string) { code in RETRYABLE_CODES || IsCodeExpiredCreds(code) }

  predicate IsCodeThrottle(code: string) { code in THROTTLE_CODES }

  predicate IsConnectionReset(text: string) {
    && !Contains(text, "read: connection reset")
    && (|| Contains(text, "use of closed network connection")
        || Contains(text, "connection reset")
        || Contains(text, "broken pipe"))
  }

  /** The `Temporary` method of the errors that have one; a `*url.Error` asks the error it wraps. */
  predicate Temporary(e: Error) {
    match e
    case Net(_, _, temporary) => temporary
    case Url(_, wrapped) => Temporary(wrapped)
    case _ => false
  }

  predicate NestedRetryable(a: AwsError) {
    && Code(a) in {SERIALIZATION, READ}
    && match OrigErr(a)
       case Nil => false
       case Aws(orig) => IsCodeRetryable(Code(orig))
       case Url(text, _) => Temporary(OrigErr(a)) || IsConnectionReset(text)
       case Net(text, _, temporary) => temporary || IsConnectionReset(text)
       case Plain(text) => IsConnectionReset(text)
  }

  predicate Refused(text: string) { Contains(text, "connection refused") }

  const CANCELED_TEXTS: set<string> :=
    {"net/http: request canceled", "net/http: request canceled while waiting for connection"}

  /**
   `shouldRetryError` as written, with `depth` bounding the recursion: None means that the bound was hit. Go has
   no bound, so the call returns exactly when some depth is enough.
   */
  function Evaluate(e: Error, depth: nat): Option<bool>
    decreases depth
  {
    match e
    case Aws(a) =>
      if Code(a) == CANCELED then Some(false)
      else if NestedRetryable(a) then Some(true)
      else if OrigErr(a) == Nil then Some(IsCodeRetryable(Code(a)))
      else if depth == 0 then None
      else (
        match Evaluate(OrigErr(a), depth - 1)
        case None => None
        case Some(shouldRetry) =>
          if Code(a) == REQUEST_ERROR && !shouldRetry then Some(false)
          else if IsCodeRetryable(Code(a)) then Some(true)
          else Some(shouldRetry)
      )
    case Url(text, wrapped) =>
      if Refused(text) then Some(true)
      else if depth == 0 then None
      else Evaluate(wrapped, depth - 1)
    case Net(text, isDial, temporary) => Some(isDial || temporary || IsConnectionReset(text))
    case Nil => Some(true)
    case Plain(text) => Some(text !in CANCELED_TEXTS)
  }

  /**
   The errors on which the classifier returns: following the chain from `e`, every batch met before the walk
   stops begins with an `awserr.Error`.
   */
  predicate Unrolls(e: Error)
    decreases Size(e)
  {
    match e
    case Aws(a) =>
      UnrollDropsOrRepeats(a);
      || Code(a) == CANCELED
      || NestedRetryable(a)
      || (Splittable(a) && Unrolls(OrigErr(a)))
    case Url(text, wrapped) => Refused(text) || Unrolls(wrapped)
    case _ => true
  }

  /** The classifier on the errors where it returns. */
  predicate ShouldRetryError(e: Error)
    requires Unrolls(e)
    decreases Size(e)
  {
    match e
    case Aws(a) =>
      UnrollDropsOrRepeats(a);
      if Code(a) == CANCELED then false
      else if NestedRetryable(a) then true
      else
        var origErr := OrigErr(a);
        var shouldRetry := origErr != Nil && ShouldRetryError(origErr);
        if origErr != Nil && Code(a) == REQUEST_ERROR && !shouldRetry then false
        else IsCodeRetryable(Code(a)) || shouldRetry
    case Url(text, wrapped) => Refused(text) || ShouldRetryError(wrapped)
    case Net(text, isDial, temporary) => isDial || temporary || IsConnectionReset(text)
    case Nil => true
    case Plain(text) => text !in CANCELED_TEXTS
  }

  // ------------------------------------------------------------ termination

  lemma {:induction false} EnoughDepth(e: Error, depth: nat)
    requires Unrolls(e) && depth >= Size(e)
    ensures Evaluate(e, depth) == Some(ShouldRetryError(e))
    decreases Size(e)
  {
    match e
    case Aws(a) =>
      UnrollDropsOrRepeats(a);
      if Code(a) != CANCELED && !NestedRetryable(a) && OrigErr(a) != Nil {
        EnoughDepth(OrigErr(a), depth - 1);
      }
    case Url(text, wrapped) =>
      if !Refused(text) {
        EnoughDepth(wrapped, depth - 1);
      }
    case _ =>
  }

  lemma {:induction false} NoDepthIsEnough(e: Error, depth: nat)
    requires !Unrolls(e)
    ensures Evaluate(e, depth) == None
    decreases depth
  {
    match e
    case Aws(a) =>
      UnrollDropsOrRepeats(a);
      if depth > 0 {
        NoDepthIsEnough(OrigErr(a), depth - 1);
      }
    case Url(text, wrapped) =>
      if depth > 0 {
        NoDepthIsEnough(wrapped, depth - 1);
      }
    case _ =>
  }

  /** The classifier returns on `e` if and only if `e` unrolls, and then its answer needs no more depth than errors. */
  lemma ReturnsExactlyWhenUnrolls(e: Error)
    ensures (exists depth: nat :: Evaluate(e, depth).Some?) <==> Unrolls(e)
    ensures Unrolls(e) ==> forall depth: nat | depth >= Size(e) :: Evaluate(e, depth) == Some(ShouldRetryError(e))
  {
    if Unrolls(e) {
      EnoughDepth(e, Size(e));
      forall depth: nat | depth >= Size(e)
        ensures Evaluate(e, depth) == Some(ShouldRetryError(e))
      {
        EnoughDepth(e, depth);
      }
    } else {
      forall depth: nat
        ensures Evaluate(e, depth) == None
      {
        NoDepthIsEnough(e, depth);
      }
    }
  }

  /** Every batch anywhere inside the error has an `awserr.Error` in all but the last place. */
  predicate WellBatched(e: Error)
    decreases e, 0
  {
    match e
    case Aws(a) => AwsWellBatched(a)
    case Url(_, wrapped) => WellBatched(wrapped)
    case _ => true
  }

  predicate AwsWellBatched(a: AwsError)
    decreases a, 0
  {
    match a
    case Base(_, _, errs) => AllWellBatched(errs)
    case RequestFailure(inner, _, _) => AwsWellBatched(inner)
    case UnmarshalFailure(inner) => AwsWellBatched(inner)
  }

  predicate AllWellBatched(es: seq<Error>)
    decreases es, 0
  {
    es == [] || (WellBatched(es[0]) && (|es| >= 2 ==> es[0].Aws?) && AllWellBatched(es[1..]))
  }

  lemma {:induction false} BatchWellBatched(a: AwsError)
    requires AwsWellBatched(a)
    ensures AllWellBatched(Batch(a))
  {
    match a
    case Base(_, _, _) =>
    case RequestFailure(inner, _, _) => BatchWellBatched(inner);
    case UnmarshalFailure(inner) => BatchWellBatched(inner);
  }

  /** The classifier returns on every well batched error. */
  lemma {:induction false} WellBatchedUnrolls(e: Error)
    requires WellBatched(e)
    ensures Unrolls(e)
    decreases Size(e)
  {
    match e
    case Aws(a) =>
      UnrollDropsOrRepeats(a);
      BatchWellBatched(a);
      assert Splittable(a);
      WellBatchedUnrolls(OrigErr(a));
    case Url(_, wrapped) =>
      WellBatchedUnrolls(wrapped);
    case _ =>
  }

  /** The smallest failing family: a batch of two that begins with an ordinary error is walked for ever. */
  lemma PlainFirstNeverReturns(message: string, text: string, second: Error, depth: nat)
    ensures Evaluate(Aws(Base("NoCredentialProviders", message, [Plain(text), second])), depth) == None
  {
    var e := Aws(Base("NoCredentialProviders", message, [Plain(text), second]));
    assert !Splittable(e.aws);
    assert !Unrolls(e);
    NoDepthIsEnough(e, depth);
  }

  // ------------------------------------------------- what the answer means

  /** What a single link of the chain answers on its own; None hands the question to the next link. */
  function Decides(e: Error): Option<bool> {
    match e
    case Aws(a) =>
      if Code(a) == CANCELED then Some(false)
      else if NestedRetryable(a) then Some(true)
      else if OrigErr(a) == Nil then Some(IsCodeRetryable(Code(a)))
      else if Code(a) != REQUEST_ERROR && IsCodeRetryable(Code(a)) then Some(true)
      else None
    case Url(text, _) => if Refused(text) then Some(true) else None
    case Net(text, isDial, temporary) => Some(isDial || temporary || IsConnectionReset(text))
    case Nil => Some(true)
    case Plain(text) => Some(text !in CANCELED_TEXTS)
  }

  function NextLink(e: Error): Error
    requires e.Aws? || e.Url?
  {
    if e.Aws? then OrigErr(e.aws) else e.wrapped
  }

  /** The links from `e` up to and including the first one that decides. */
  function Links(e: Error): (links: seq<Error>)
    requires Unrolls(e)
    ensures |links| >= 1 && links[0] == e
    decreases Size(e)
  {
    if Decides(e).Some? then [e]
    else if e.Aws? then
      UnrollDropsOrRepeats(e.aws);
      [e] + Links(NextLink(e))
    else [e] + Links(NextLink(e))
  }

  /**
   Independent reading of the classifier: walk the chain of causes outwards-in and return what the first link
   with an opinion says. Links before it have none, and each link is the cause of the one before.
   */
  lemma {:induction false} FirstDecisiveLink(e: Error)
    requires Unrolls(e)
    ensures var links := Links(e);
            && Decides(links[|links| - 1]) == Some(ShouldRetryError(e))
            && (forall i | 0 <= i < |links| - 1 ::
                  Decides(links[i]) == None && links[i + 1] == NextLink(links[i]))
    decreases Size(e)
  {
    if Decides(e) == None {
      if e.Aws? {
        UnrollDropsOrRepeats(e.aws);
      }
      FirstDecisiveLink(NextLink(e));
    }
  }

  /** `e` is a cancellation under any stack of request errors and non-refused `*url.Error`s. */
  predicate WrapsCanceled(e: Error)
    decreases Size(e)
  {
    match e
    case Aws(a) =>
      UnrollDropsOrRepeats(a);
      Code(a) == CANCELED || (Code(a) == REQUEST_ERROR && Splittable(a) && WrapsCanceled(OrigErr(a)))
    case Url(text, wrapped) => !Refused(text) && WrapsCanceled(wrapped)
    case _ => false
  }

  lemma {:induction false} CanceledIsNeverRetryable(e: Error)
    requires WrapsCanceled(e)
    ensures Unrolls(e) && !ShouldRetryError(e)
    decreases Size(e)
  {
    match e
    case Aws(a) =>
      UnrollDropsOrRepeats(a);
      if Code(a) != CANCELED {
        CanceledIsNeverRetryable(OrigErr(a));
      }
    case Url(_, wrapped) => CanceledIsNeverRetryable(wrapped);
  }

  // ------------------------------------------------- the two kinds of failure

  /** `t` stands somewhere in the text. */
  ghost predicate Has(text: string, t: string) { exists before, after :: text == before + t + after }

  lemma ContainsMeans(text: string, t: string)
    ensures Contains(text, t) <==> Has(text, t)
  {
    if i :| 0 <= i <= |text| && t <= text[i..] {
      assert text == text[..i] + t + text[i + |t|..];
    }
    if before, after :| text == before + t + after {
      assert t <= text[|before|..];
    }
  }

  /** The text tells of a broken connection, unless it was broken while reading. */
  ghost predicate TellsBroken(text: string) {
    && !Has(text, "read: connection reset")
    && (Has(text, "use of closed network connection") || Has(text, "connection reset") || Has(text, "broken pipe"))
  }

  lemma ResetMeans(text: string)
    ensures IsConnectionReset(text) <==> TellsBroken(text)
  {
    ContainsMeans(text, "read: connection reset");
    ContainsMeans(text, "use of closed network connection");
    ContainsMeans(text, "connection reset");
    ContainsMeans(text, "broken pipe");
  }

  /** What is left of an error when every `*url.Error` around it is taken off. */
  function Innermost(e: Error): Error { if e.Url? then Innermost(e.wrapped) else e }

  /**
   The answer for a request that could not be sent, by its cause: a refused connection, a failed dial, a temporary
   failure, a broken connection that was not being read, and any text but those of a cancelled request. An
   `awserr.Error` as cause, and a `*url.Error` that was not refused, leave the answer to what they wrap.
   */
  lemma SendFailureIsRetriedExactlyWhen(message: string, cause: Error)
    requires Unrolls(cause)
    ensures Unrolls(New("RequestError", message, cause))
    ensures ShouldRetryError(New("RequestError", message, cause)) <==>
              match cause
              case Nil => true
              case Aws(_) => ShouldRetryError(cause)
              case Url(text, wrapped) =>
                Has(text, "connection refused") || (Unrolls(wrapped) && ShouldRetryError(wrapped))
              case Net(text, isDial, temporary) => isDial || temporary || TellsBroken(text)
              case Plain(text) =>
                && text != "net/http: request canceled"
                && text != "net/http: request canceled while waiting for connection"
  {
    hide Contains, Has;
    var e := New(REQUEST_ERROR, message, cause);
    UnrollDropsOrRepeats(e.aws);
    match cause
    case Url(text, _) => ContainsMeans(text, "connection refused");
    case Net(text, _, _) => ResetMeans(text);
    case _ =>
  }

  /**
   The answer for a response that could not be read: that for its cause, or yes when the cause has the code of a
   request error, a timeout or expired credentials, is a `*url.Error` around a temporary failure, or tells of a broken
   connection.
   */
  lemma ReadFailureIsRetriedExactlyWhen(code: string, message: string, cause: Error)
    requires code in {"SerializationError", "ReadError"} && cause != Nil && Unrolls(cause)
    ensures Unrolls(New(code, message, cause))
    ensures ShouldRetryError(New(code, message, cause)) <==>
              || ShouldRetryError(cause)
              || (cause.Aws? && Code(cause.aws) in
                    {"RequestError", "RequestTimeout", "ResponseTimeout", "RequestTimeoutException",
                     "ExpiredToken", "ExpiredTokenException", "RequestExpired"})
              || (cause.Url? && Innermost(cause).Net? && Innermost(cause).temporary)
              || ((cause.Url? || cause.Plain?) && TellsBroken(cause.text))
  {
    hide Unrolls, ShouldRetryError, NestedRetryable, TellsBroken, Has, Contains;
    ReadFailureUnrolls(code, message, cause);
    NestedMeans(New(code, message, cause).aws, cause);
  }

  lemma ReadFailureUnrolls(code: string, message: string, cause: Error)
    requires code in {SERIALIZATION, READ} && cause != Nil && Unrolls(cause)
    ensures var e := New(code, message, cause);
            Unrolls(e) && (ShouldRetryError(e) <==> NestedRetryable(e.aws) || ShouldRetryError(cause))
  {
    var e := New(code, message, cause);
    UnrollDropsOrRepeats(e.aws);
    assert OrigErr(e.aws) == cause && Code(e.aws) == code;
    hide NestedRetryable, Size, OrigErr;
  }

  /** Of a network error the question about its cause asks no more than that about the error itself. */
  lemma NestedMeans(a: AwsError, cause: Error)
    requires Code(a) in {SERIALIZATION, READ} && OrigErr(a) == cause != Nil && Unrolls(cause)
    ensures NestedRetryable(a) || ShouldRetryError(cause) <==>
              || ShouldRetryError(cause)
              || (cause.Aws? && IsCodeRetryable(Code(cause.aws)))
              || (cause.Url? && Innermost(cause).Net? && Innermost(cause).temporary)
              || ((cause.Url? || cause.Plain?) && TellsBroken(cause.text))
  {
    hide Contains, Has;
    match cause
    case Url(text, _) => ResetMeans(text); TemporaryMeans(cause);
    case Plain(text) => ResetMeans(text);
    case _ =>
  }

  lemma {:induction false} TemporaryMeans(e: Error)
    ensures Temporary(e) <==> Innermost(e).Net? && Innermost(e).temporary
  {
    if e.Url? {
      TemporaryMeans(e.wrapped);
    }
  }

  /** An `awserr.Error` by itself. */
  predicate IsLeaf(e: Error) { e.Aws? && e.aws.Base? && e.aws.errs == [] }

  function CodeOf(e: Error): string { if e.Aws? then Code(e.aws) else "" }

  function CodesOf(errs: seq<Error>): (codes: seq<string>)
    ensures |codes| == |errs|
  {
    if errs == [] then [] else [CodeOf(errs[0])] + CodesOf(errs[1..])
  }

  /** The code at `i` settles that the batch is retried: no cancellation precedes it, and it is not passed over. */
  predicate SettlesAt(codes: seq<string>, i: nat) {
    && i < |codes| && IsCodeRetryable(codes[i]) && CANCELED !in codes[..i]
    && (codes[i] == REQUEST_ERROR ==> i == |codes| - 1)
  }

  lemma SettlesLater(code: string, codes: seq<string>, i: nat)
    requires codes != []
    ensures SettlesAt([code] + codes, i + 1) <==> code != CANCELED && SettlesAt(codes, i)
  {
    assert i < |codes| ==> ([code] + codes)[..i + 1] == [code] + codes[..i];
  }

  /**
   A batch of service errors is judged by its codes in their order: a retryable one settles it, unless a cancellation
   stands before; a request error settles it only in the last place.
   */
  lemma {:induction false} BatchIsJudgedInOrder(code: string, message: string, errs: seq<Error>)
    requires forall e | e in errs :: IsLeaf(e)
    requires code !in {SERIALIZATION, READ} && SERIALIZATION !in CodesOf(errs) && READ !in CodesOf(errs)
    ensures var e := Aws(Base(code, message, errs));
            Unrolls(e) && (ShouldRetryError(e) <==> exists i :: SettlesAt([code] + CodesOf(errs), i))
    decreases |errs|
  {
    var e := Aws(Base(code, message, errs));
    var codes := [code] + CodesOf(errs);
    assert SettlesAt(codes, 0) <==> IsCodeRetryable(code) && (code == REQUEST_ERROR ==> errs == []);
    if errs != [] {
      assert errs == [errs[0]] + errs[1..] && IsLeaf(errs[0]);
      var first := errs[0].aws;
      BatchIsJudgedInOrder(first.code, first.message, errs[1..]);
      var rest := [first.code] + CodesOf(errs[1..]);
      assert codes == [code] + rest;
      FirstOfBatch(code, message, errs);
      hide Unrolls, ShouldRetryError, SettlesAt, CodesOf, IsCodeRetryable;
      SettledByRest(code, rest);
    }
  }

  /** Settling a batch, by its first code or by the others. */
  lemma SettledByRest(code: string, rest: seq<string>)
    requires rest != []
    ensures (exists i :: SettlesAt([code] + rest, i)) <==>
              SettlesAt([code] + rest, 0) || (code != CANCELED && exists i :: SettlesAt(rest, i))
  {
    if i :| i > 0 && SettlesAt([code] + rest, i) {
      SettlesLater(code, rest, i - 1);
    }
    if code != CANCELED {
      if i :| SettlesAt(rest, i) {
        SettlesLater(code, rest, i);
      }
    }
  }

  /** A batch of service errors hands what its own code does not decide to the batch of the others. */
  lemma FirstOfBatch(code: string, message: string, errs: seq<Error>)
    requires errs != [] && IsLeaf(errs[0]) && code !in {SERIALIZATION, READ}
    ensures var e := Aws(Base(code, message, errs));
            var rest := Aws(Base(errs[0].aws.code, errs[0].aws.message, errs[1..]));
            && (Unrolls(rest) ==> Unrolls(e))
            && (Unrolls(rest) ==>
                  (ShouldRetryError(e) <==>
                     (code != REQUEST_ERROR && IsCodeRetryable(code)) || (code != CANCELED && ShouldRetryError(rest))))
  {
    var e := Aws(Base(code, message, errs));
    UnrollDropsOrRepeats(e.aws);
    var rest := Aws(Base(errs[0].aws.code, errs[0].aws.message, errs[1..]));
    assert errs[1..] == [] ==> errs[0] == rest;
    assert OrigErr(e.aws) == rest;
    hide Size;
  }

  // --------------------------------------------- the questions a retryer asks

  predicate HasCode(e: Error, codes: seq<string>) { e.Aws? && Code(e.aws) in codes }

  predicate IsErrorRetryable(e: Error, status: Option<int>, retryCodes: seq<string>)
    requires Unrolls(e)
  {
    || HasCode(e, retryCodes)
    || status == Some(500)
    || (e != Nil && ShouldRetryError(e))
  }

  predicate IsErrorThrottle(e: Error, status: Option<int>, throttleCodes: seq<string>) {
    || HasCode(e, throttleCodes)
    || (status.Some? && status.value in {429, 502, 503, 504})
    || (e.Aws? && IsCodeThrottle(Code(e.aws)))
  }

  predicate IsErrorExpired(e: Error) { e.Aws? && IsCodeExpiredCreds(Code(e.aws)) }
}
