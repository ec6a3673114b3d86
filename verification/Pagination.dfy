/**
 Paging through an API operation (aws/request/request_pagination.go): the `Pagination` iterator and the deprecated
 `EachPage`, against any server.

 Parameters and page data are maps from paths to values; a path of a page has a list of values. Requests are created
 and sent by an environment that may fail at any call.
 */
module Paging {
  import opened Prelude

  /** `Absent` is a nil interface, `NilStr` and `NilBool` are nil pointers of their type. */
  datatype Value = Absent | Str(s: string) | NilStr | Bool(b: bool) | NilBool | Other(id: int)

  type Params = map<string, Value>
  type Page = map<string, seq<Value>>

  datatype Paginator = Paginator(inputTokens: seq<string>, outputTokens: seq<string>, truncationToken: string)

  /** An operation, the parameters its requests are built with, and the server. */
  datatype Pager = Pager(
    paginator: Option<Paginator>,
    base: Params,
    serve: Params -> Page,
    endPageOnSameToken: bool)
  {
    /** Every input token has an output token to be set from; the source panics otherwise. */
    predicate Valid() {
      paginator.Some? ==> |paginator.value.inputTokens| <= |paginator.value.outputTokens|
    }
  }

  // ------------------------------------------------------------------- tokens

  function ValuesAt(page: Page, path: string): seq<Value> { if path in page then page[path] else [] }

  /** The page says that it is the last one: no truncation value, or a false one. */
  predicate NotTruncated(page: Page, path: string) {
    var vs := ValuesAt(page, path);
    path != "" && (|vs| == 0 || vs[0] in {Bool(false), NilBool})
  }

  /** A path has a first value, and it is not an empty string. */
  predicate HasToken(page: Page, path: string) {
    |ValuesAt(page, path)| > 0 && ValuesAt(page, path)[0] !in {Str(""), NilStr}
  }

  function TokenAt(page: Page, path: string): Value {
    if HasToken(page, path) then ValuesAt(page, path)[0] else Absent
  }

  function AllTokens(page: Page, paths: seq<string>): (ts: seq<Value>)
    ensures |ts| == |paths|
  {
    seq(|paths|, i requires 0 <= i < |paths| => TokenAt(page, paths[i]))
  }

  /** The tokens for the next page, none when there is no next page. */
  function NextTokens(p: Pager, page: Page): seq<Value> {
    if p.paginator.None? || NotTruncated(page, p.paginator.value.truncationToken) then []
    else if forall path | path in p.paginator.value.outputTokens :: !HasToken(page, path) then []
    else AllTokens(page, p.paginator.value.outputTokens)
  }

  /** `nextPageTokens`, with its loop. */
  method NextPageTokens(p: Pager, page: Page) returns (tokens: seq<Value>)
    ensures tokens == NextTokens(p, page)
  {
    if p.paginator.None? {
      return [];
    }
    var paginator := p.paginator.value;
    if paginator.truncationToken != "" {
      var tr := ValuesAt(page, paginator.truncationToken);
      if |tr| == 0 || tr[0] == Bool(false) || tr[0] == NilBool {
        return [];
      }
    }
    tokens := [];
    var tokenAdded := false;
    for i := 0 to |paginator.outputTokens|
      invariant tokens == AllTokens(page, paginator.outputTokens)[..i]
      invariant tokenAdded <==> exists j | 0 <= j < i :: HasToken(page, paginator.outputTokens[j])
    {
      var vs := ValuesAt(page, paginator.outputTokens[i]);
      if |vs| == 0 || vs[0] == Str("") || vs[0] == NilStr {
        tokens := tokens + [Absent];
        continue;
      }
      tokenAdded := true;
      tokens := tokens + [vs[0]];
    }
    if !tokenAdded {
      assert forall path | path in paginator.outputTokens :: !HasToken(page, path);
      return [];
    }
    ghost var j :| 0 <= j < |paginator.outputTokens| && HasToken(page, paginator.outputTokens[j]);
    assert paginator.outputTokens[j] in paginator.outputTokens;
  }

  /** The parameters with the first `n` input tokens set. */
  function WithTokens(params: Params, names: seq<string>, tokens: seq<Value>, n: nat): Params
    requires n <= |names| && n <= |tokens|
  {
    if n == 0 then params else WithTokens(params, names, tokens, n - 1)[names[n - 1] := tokens[n - 1]]
  }

  function InputTokens(p: Pager): seq<string> { if p.paginator.Some? then p.paginator.value.inputTokens else [] }

  /** The parameters that ask for the page the tokens name. */
  function Asking(p: Pager, params: Params, tokens: seq<Value>): Params
    requires |InputTokens(p)| <= |tokens|
  {
    WithTokens(params, InputTokens(p), tokens, |InputTokens(p)|)
  }

  method SetTokens(p: Pager, params: Params, tokens: seq<Value>) returns (r: Params)
    requires |InputTokens(p)| <= |tokens|
    ensures r == Asking(p, params, tokens)
  {
    r := params;
    for i := 0 to |InputTokens(p)|
      invariant r == WithTokens(params, InputTokens(p), tokens, i)
    {
      r := r[InputTokens(p)[i] := tokens[i]];
    }
  }

  /** The last of the first `n` names that is `key`. */
  function LastIndex(names: seq<string>, n: nat, key: string): (i: Option<nat>)
    requires n <= |names|
    ensures i.Some? ==> i.value < n && names[i.value] == key
  {
    if n == 0 then None else if names[n - 1] == key then Some(n - 1) else LastIndex(names, n - 1, key)
  }

  /** A parameter is the token set last for it, or what it was. */
  lemma {:induction false} ParamAfter(params: Params, names: seq<string>, tokens: seq<Value>, n: nat, key: string)
    requires n <= |names| && n <= |tokens|
    ensures var after := WithTokens(params, names, tokens, n);
            var i := LastIndex(names, n, key);
            && (key in after <==> i.Some? || key in params)
            && (i.Some? ==> after[key] == tokens[i.value])
            && (i.None? && key in params ==> after[key] == params[key])
  {
    if n > 0 {
      ParamAfter(params, names, tokens, n - 1, key);
    }
  }

  /** Tokens set over earlier tokens leave no trace of them. */
  lemma AskingAgain(p: Pager, params: Params, earlier: seq<Value>, tokens: seq<Value>)
    requires |InputTokens(p)| <= |earlier| && |InputTokens(p)| <= |tokens|
    ensures Asking(p, Asking(p, params, earlier), tokens) == Asking(p, params, tokens)
  {
    var names := InputTokens(p);
    var over, direct := Asking(p, Asking(p, params, earlier), tokens), Asking(p, params, tokens);
    forall key
      ensures key in over <==> key in direct
      ensures key in direct ==> over[key] == direct[key]
    {
      ParamAfter(params, names, earlier, |names|, key);
      ParamAfter(Asking(p, params, earlier), names, tokens, |names|, key);
      ParamAfter(params, names, tokens, |names|, key);
    }
  }

  // -------------------------------------------------------------- the chain

  /** A page with the tokens that led to it and those for the next. */
  datatype Position = Position(prevTokens: seq<Value>, nextTokens: seq<Value>, page: Page)

  predicate MoreAfter(p: Pager, pos: Position) {
    pos.nextTokens != [] && (p.endPageOnSameToken ==> pos.nextTokens != pos.prevTokens)
  }

  lemma TokensFit(p: Pager, page: Page)
    requires p.Valid() && NextTokens(p, page) != []
    ensures |InputTokens(p)| <= |NextTokens(p, page)|
  {
  }

  /** The n-th page of the operation, counted from 1, by following the server's tokens. */
  function PageAt(p: Pager, n: nat): Option<Position>
    requires p.Valid() && n >= 1
    ensures PageAt(p, n).Some? ==> PageAt(p, n).value.nextTokens == NextTokens(p, PageAt(p, n).value.page)
  {
    if n == 1 then
      var page := p.serve(p.base);
      Some(Position([], NextTokens(p, page), page))
    else
      match PageAt(p, n - 1)
      case None => None
      case Some(pos) =>
        if !MoreAfter(p, pos) then None
        else
          TokensFit(p, pos.page);
          var page := p.serve(Asking(p, p.base, pos.nextTokens));
          Some(Position(pos.nextTokens, NextTokens(p, page), page))
  }

  /**
   A page is followed by another if and only if it does not say that it is the last, some output path of it has a
   first value other than an empty string, and, when pages end on the same tokens, one of these differs from that of
   the page before. The next page is asked for with these values.
   */
  lemma NextPageExactlyWhen(p: Pager, n: nat) returns (page: Page, params: Params)
    requires p.Valid() && n >= 1 && PageAt(p, n).Some?
    ensures page == PageAt(p, n).value.page
    ensures PageAt(p, n + 1).Some? <==>
              && p.paginator.Some?
              && var Paginator(_, paths, truncation) := p.paginator.value;
              && (truncation != "" ==>
                    ValuesAt(page, truncation) != [] && ValuesAt(page, truncation)[0] !in {Bool(false), NilBool})
              && (exists path | path in paths ::
                    ValuesAt(page, path) != [] && ValuesAt(page, path)[0] !in {Str(""), NilStr})
              && (p.endPageOnSameToken && n > 1 ==>
                    && PageAt(p, n - 1).Some?
                    && exists path | path in paths :: TokenAt(page, path) != TokenAt(PageAt(p, n - 1).value.page, path))
    ensures PageAt(p, n + 1).Some? ==> PageAt(p, n + 1).value.page == p.serve(params)
    ensures forall key | key !in InputTokens(p) :: Same(params, p.base, key)
    ensures PageAt(p, n + 1).Some? ==>
              forall i | 0 <= i < |InputTokens(p)| && InputTokens(p)[i] !in InputTokens(p)[i + 1..] ::
                && InputTokens(p)[i] in params
                && params[InputTokens(p)[i]] == TokenAt(page, p.paginator.value.outputTokens[i])
  {
    page, params := PageAt(p, n).value.page, p.base;
    var tokens := NextTokens(p, page);
    assert tokens == PageAt(p, n).value.nextTokens;
    if tokens != [] {
      TokensFit(p, page);
      params := Asking(p, p.base, tokens);
      var names := InputTokens(p);
      forall key
        ensures key !in names ==> Same(params, p.base, key)
      {
        ParamAfter(p.base, names, tokens, |names|, key);
      }
      forall i | 0 <= i < |names| && names[i] !in names[i + 1..]
        ensures names[i] in params && params[names[i]] == tokens[i]
      {
        ParamAfter(p.base, names, tokens, |names|, names[i]);
        LastIndexIs(names, |names|, i);
      }
      if n > 1 {
        SameTokensByPath(p, page, PageAt(p, n - 1).value.page);
      }
    }
    hide Asking;
  }

  /** Both have the key with the same value, or neither has it. */
  predicate Same(a: Params, b: Params, key: string) {
    (key in a <==> key in b) && (key in a && key in b ==> a[key] == b[key])
  }

  lemma {:induction false} LastIndexIs(names: seq<string>, n: nat, i: nat)
    requires i < n <= |names| && names[i] !in names[i + 1..]
    ensures LastIndex(names, n, names[i]) == Some(i)
  {
    if i < n - 1 {
      assert names[n - 1] == names[i + 1..][n - 2 - i];
      LastIndexIs(names, n - 1, i);
    }
  }

  /** Two pages name different tokens if and only if they do at some path. */
  lemma SameTokensByPath(p: Pager, page: Page, before: Page)
    requires NextTokens(p, page) != [] && NextTokens(p, before) != []
    ensures NextTokens(p, page) != NextTokens(p, before) <==>
              exists path | path in p.paginator.value.outputTokens :: TokenAt(page, path) != TokenAt(before, path)
  {
    var paths := p.paginator.value.outputTokens;
    assert forall i | 0 <= i < |paths| :: paths[i] in paths;
    if path :| path in paths && TokenAt(page, path) != TokenAt(before, path) {
      var i :| 0 <= i < |paths| && paths[i] == path;
      assert NextTokens(p, page)[i] != NextTokens(p, before)[i];
    } else {
      assert NextTokens(p, page) == NextTokens(p, before);
    }
  }

  // ------------------------------------------------------------ the iterator

  datatype Reply = CannotCreate(err: string) | SendFails(err: string) | Answers

  datatype State = State(
    started: bool,
    prevTokens: seq<Value>,
    nextTokens: seq<Value>,
    err: Option<string>,
    curPage: Option<Page>)

  const FRESH := State(false, [], [], None, None)

  predicate HasNext(p: Pager, s: State) {
    !s.started || (s.nextTokens != [] && (p.endPageOnSameToken ==> s.nextTokens != s.prevTokens))
  }

  /** The tokens held are none, or enough to be set. */
  predicate Usable(p: Pager, s: State) { s.nextTokens == [] || |InputTokens(p)| <= |s.nextTokens| }

  /** `Next` with the reply of its environment: the new state and whether a page was retrieved. */
  function NextStep(p: Pager, s: State, reply: Reply): (State, bool)
    requires Usable(p, s)
  {
    if !HasNext(p, s) then (s, false)
    else
      match reply
      case CannotCreate(err) => (s.(err := Some(err)), false)
      case SendFails(err) => (s.(started := true, err := Some(err)), false)
      case Answers =>
        var page := p.serve(if s.started then Asking(p, p.base, s.nextTokens) else p.base);
        (State(true, s.nextTokens, NextTokens(p, page), s.err, Some(page)), true)
  }

  class Pagination {
    const p: Pager
    var started: bool
    var prevTokens: seq<Value>
    var nextTokens: seq<Value>
    var err: Option<string>
    var curPage: Option<Page>

    constructor (p: Pager)
      requires p.Valid()
      ensures this.p == p && Fields() == FRESH && Usable(p, Fields())
    {
      this.p, started, prevTokens, nextTokens, err, curPage := p, false, [], [], None, None;
    }

    ghost function Fields(): State
      reads this
    {
      State(started, prevTokens, nextTokens, err, curPage)
    }

    predicate HasNextPage()
      reads this
      ensures HasNextPage() == HasNext(p, Fields())
    {
      if !started then true
      else
        var hasNextPage := |nextTokens| != 0;
        if p.endPageOnSameToken then hasNextPage && nextTokens != prevTokens else hasNextPage
    }

    method Next(reply: Reply) returns (ok: bool)
      requires p.Valid() && Usable(p, Fields())
      modifies this
      ensures Usable(p, Fields())
      ensures (Fields(), ok) == NextStep(p, old(Fields()), reply)
    {
      if !HasNextPage() {
        return false;
      }
      if reply.CannotCreate? {
        err := Some(reply.err);
        return false;
      }
      var params := p.base;
      if started {
        params := SetTokens(p, params, nextTokens);
      }
      started := true;
      if reply.SendFails? {
        err := Some(reply.err);
        return false;
      }
      var page := p.serve(params);
      prevTokens := nextTokens;
      nextTokens := NextPageTokens(p, page);
      curPage := Some(page);
      if nextTokens != [] {
        TokensFit(p, page);
      }
      return true;
    }
  }

  /** The state of an iterator that has retrieved `n` pages; without any, a failed first send has ended it. */
  predicate Retrieved(p: Pager, s: State, n: nat)
    requires p.Valid()
  {
    if n == 0 then s.nextTokens == [] && s.prevTokens == [] && s.curPage == None
    else
      && s.started && PageAt(p, n).Some?
      && PageAt(p, n).value == Position(s.prevTokens, s.nextTokens, PageAt(p, n).value.page)
      && s.curPage == Some(PageAt(p, n).value.page)
  }

  lemma RetrievedUsable(p: Pager, s: State, n: nat)
    requires p.Valid() && Retrieved(p, s, n)
    ensures Usable(p, s)
  {
    if n > 0 && s.nextTokens != [] {
      TokensFit(p, PageAt(p, n).value.page);
    }
  }

  /** `HasNextPage` says whether the chain goes on, unless a failed first send has ended the iterator. */
  lemma HasNextMeansAPage(p: Pager, s: State, n: nat)
    requires p.Valid() && Retrieved(p, s, n)
    ensures HasNext(p, s) <==> PageAt(p, n + 1).Some? && !(n == 0 && s.started)
  {
    hide NextTokens, Asking;
  }

  /**
   One call of `Next` after `n` pages. It retrieves a page exactly when the server answers, there is a page n + 1,
   and no first send has failed; then it is that page. A failing call records its error and changes neither tokens
   nor page, so that the following call asks for the same page again.
   */
  lemma NextIsTheNextPage(p: Pager, s: State, n: nat, reply: Reply)
    requires p.Valid() && Retrieved(p, s, n)
    ensures Usable(p, s)
    ensures var (s', ok) := NextStep(p, s, reply);
            var more := PageAt(p, n + 1).Some? && !(n == 0 && s.started);
            && (ok <==> more && reply == Answers)
            && s'.err == (if more && reply != Answers then Some(reply.err) else s.err)
            && (s'.started <==> s.started || (more && !reply.CannotCreate?))
            && Retrieved(p, s', if ok then n + 1 else n)
            && (!ok ==> s'.nextTokens == s.nextTokens && s'.prevTokens == s.prevTokens && s'.curPage == s.curPage)
  {
    RetrievedUsable(p, s, n);
    hide NextTokens, Asking;
  }

  /** Repeated calls: the pages retrieved, in order. */
  function RetrieveAll(p: Pager, s: State, n: nat, replies: seq<Reply>): seq<Page>
    requires p.Valid() && Retrieved(p, s, n)
    decreases |replies|
  {
    if replies == [] then []
    else
      NextIsTheNextPage(p, s, n, replies[0]);
      var (s', ok) := NextStep(p, s, replies[0]);
      if ok then [s'.curPage.value] + RetrieveAll(p, s', n + 1, replies[1..])
      else RetrieveAll(p, s', n, replies[1..])
  }

  /** Whatever calls fail, the pages retrieved are those of the chain: in order, none skipped and none repeated. */
  lemma {:induction false} PagesAreTheChain(p: Pager, s: State, n: nat, replies: seq<Reply>, i: nat)
    requires p.Valid() && Retrieved(p, s, n)
    requires i < |RetrieveAll(p, s, n, replies)|
    ensures PageAt(p, n + i + 1).Some? && RetrieveAll(p, s, n, replies)[i] == PageAt(p, n + i + 1).value.page
    decreases |replies|
  {
    hide PageAt, NextStep;
    NextIsTheNextPage(p, s, n, replies[0]);
    var (s', ok) := NextStep(p, s, replies[0]);
    if !ok {
      PagesAreTheChain(p, s', n, replies[1..], i);
    } else if i > 0 {
      PagesAreTheChain(p, s', n + 1, replies[1..], i - 1);
    }
  }

  predicate Reaches(p: Pager, n: nat)
    requires p.Valid()
  {
    forall i | 1 <= i <= n :: PageAt(p, i).Some?
  }

  /** One call that the server answers retrieves a page while the chain goes on. */
  lemma AnsweredCall(p: Pager, s: State, n: nat, last: nat)
    requires p.Valid() && Retrieved(p, s, n) && (n == 0 ==> !s.started)
    requires n <= last && Reaches(p, last) && PageAt(p, last + 1).None?
    ensures Usable(p, s)
    ensures var (s', ok) := NextStep(p, s, Answers);
            (ok <==> n < last) && Retrieved(p, s', if ok then n + 1 else n) && (n == 0 ==> ok)
  {
    assert PageAt(p, 1).Some?;
    hide PageAt, NextStep, Retrieved;
    NextIsTheNextPage(p, s, n, Answers);
    assert n < last ==> PageAt(p, n + 1).Some?;
  }

  /** With a server that always answers, as many calls retrieve as many pages, until the chain ends. */
  lemma {:induction false} AllPagesAreRetrieved(p: Pager, s: State, n: nat, replies: seq<Reply>, last: nat)
    requires p.Valid() && Retrieved(p, s, n) && (n == 0 ==> !s.started)
    requires forall r | r in replies :: r == Answers
    requires n <= last && Reaches(p, last) && PageAt(p, last + 1).None?
    ensures |RetrieveAll(p, s, n, replies)| == Min(|replies|, last - n)
    decreases |replies|
  {
    hide PageAt, NextStep, Retrieved, Reaches;
    if replies != [] {
      assert replies[0] in replies && forall r | r in replies[1..] :: r in replies;
      AnsweredCall(p, s, n, last);
      var (s', ok) := NextStep(p, s, replies[0]);
      AllPagesAreRetrieved(p, s', if ok then n + 1 else n, replies[1..], last);
    }
  }

  // -------------------------------------------------------------- EachPage

  /** The parameters of the n-th request of `EachPage`, each copied from the one before and its tokens set. */
  function CopiedParams(p: Pager, n: nat): Params
    requires p.Valid() && n >= 1
  {
    if n == 1 then p.base
    else
      var before := CopiedParams(p, n - 1);
      var tokens := NextTokens(p, p.serve(before));
      if |tokens| < |InputTokens(p)| then before else Asking(p, before, tokens)
  }

  /**
   Without the same-token stop, copying the parameters of the previous request asks for the same page as building
   them anew.
   */
  lemma {:induction false} CopiedParamsAskTheSame(p: Pager, n: nat)
    requires p.Valid() && !p.endPageOnSameToken && n >= 1 && PageAt(p, n).Some?
    ensures p.serve(CopiedParams(p, n)) == PageAt(p, n).value.page
    ensures n > 1 ==>
              && PageAt(p, n - 1).Some? && |InputTokens(p)| <= |PageAt(p, n - 1).value.nextTokens|
              && CopiedParams(p, n) == Asking(p, p.base, PageAt(p, n - 1).value.nextTokens)
  {
    if n > 1 {
      CopiedParamsAskTheSame(p, n - 1);
      var pos := PageAt(p, n - 1).value;
      TokensFit(p, pos.page);
      if n > 2 {
        AskingAgain(p, p.base, PageAt(p, n - 2).value.nextTokens, pos.nextTokens);
      }
      hide NextTokens, Asking;
    }
  }

  /** The callback saw the n-th page, and was told whether it is the last. */
  predicate ShowsPage(p: Pager, shown: (Page, bool), n: nat)
    requires p.Valid() && n >= 1
  {
    PageAt(p, n).Some? && shown == (PageAt(p, n).value.page, PageAt(p, n + 1).None?)
  }

  lemma LastPageHasNoTokens(p: Pager, n: nat)
    requires p.Valid() && !p.endPageOnSameToken && n >= 1 && PageAt(p, n).Some?
    ensures PageAt(p, n + 1).None? <==> NextTokens(p, PageAt(p, n).value.page) == []
  {
    hide NextTokens, Asking;
  }

  lemma FirstPage(p: Pager)
    requires p.Valid()
    ensures PageAt(p, 1).Some? && CopiedParams(p, 1) == p.base
  {
  }

  /** One turn of `EachPage`: the page its request retrieves, whether it is the last, and the next request. */
  lemma PageOfTurn(p: Pager, n: nat)
    requires p.Valid() && !p.endPageOnSameToken && n >= 1 && PageAt(p, n).Some?
    ensures var params := CopiedParams(p, n);
            var page := p.serve(params);
            var tokens := NextTokens(p, page);
            && page == PageAt(p, n).value.page && ShowsPage(p, (page, tokens == []), n)
            && (PageAt(p, n + 1).None? <==> tokens == [])
            && (tokens != [] ==>
                  |InputTokens(p)| <= |tokens| && CopiedParams(p, n + 1) == Asking(p, params, tokens))
  {
    CopiedParamsAskTheSame(p, n);
    LastPageHasNoTokens(p, n);
    var page := PageAt(p, n).value.page;
    if NextTokens(p, page) != [] {
      TokensFit(p, page);
    }
    hide NextTokens, Asking, PageAt;
  }

  /** The loop of `EachPage` ends by page `n`: a send fails, there is no further page, or the callback has enough. */
  predicate StopsBy(p: Pager, fails: nat -> bool, fn: (nat, Page, bool) -> bool, n: nat)
    requires p.Valid() && n >= 1
  {
    || fails(n) || PageAt(p, n).None? || PageAt(p, n + 1).None?
    || !fn(n, PageAt(p, n).value.page, false)
  }

  lemma CallbackHasEnough(p: Pager, fails: nat -> bool, fn: (nat, Page, bool) -> bool, n: nat)
    requires p.Valid() && n >= 1 && PageAt(p, n).Some? && PageAt(p, n + 1).Some?
    requires StopsBy(p, fails, fn, n) && !fails(n)
    ensures !fn(n, PageAt(p, n).value.page, false)
  {
  }

  /**
   `EachPage`: `fails` says which sends fail, `fn` is the callback, which may count its calls. When the loop ends by
   `bound`, what the callback saw are the pages that `Next` would retrieve, and the flag it saw is true exactly on the
   last page of the chain.
   */
  method EachPage(p: Pager, fails: nat -> bool, fn: (nat, Page, bool) -> bool, ghost bound: nat)
    returns (seen: seq<(Page, bool)>, ok: bool)
    requires p.Valid() && !p.endPageOnSameToken
    requires bound >= 1 && StopsBy(p, fails, fn, bound)
    ensures forall i | 0 <= i < |seen| :: ShowsPage(p, seen[i], i + 1)
    ensures forall i | 0 <= i < |seen| - 1 :: fn(i + 1, seen[i].0, seen[i].1)
    ensures !ok ==> fails(|seen| + 1)
    ensures ok ==> seen != []
    ensures ok ==> PageAt(p, |seen| + 1).None? || !fn(|seen|, seen[|seen| - 1].0, seen[|seen| - 1].1)
  {
    hide NextTokens, Asking, PageAt, CopiedParams, InputTokens, ShowsPage, StopsBy;
    seen := [];
    var params := p.base;
    var more := true;
    FirstPage(p);
    while more
      invariant |seen| <= bound
      invariant more ==>
                  && PageAt(p, |seen| + 1).Some? && params == CopiedParams(p, |seen| + 1)
                  && |seen| < bound
      invariant forall i | 0 <= i < |seen| :: ShowsPage(p, seen[i], i + 1)
      invariant forall i | 0 <= i < |seen| - (if more then 0 else 1) :: fn(i + 1, seen[i].0, seen[i].1)
      invariant !more ==> seen != [] && PageAt(p, |seen| + 1).None?
      decreases if more then 1 + bound - |seen| else 0
    {
      var n := |seen| + 1;
      if fails(n) {
        return seen, false;
      }
      PageOfTurn(p, n);
      var page := p.serve(params);
      var tokens := NextPageTokens(p, page);
      var isLast := |tokens| == 0;
      if n == bound && !isLast {
        CallbackHasEnough(p, fails, fn, n);
      }
      seen := seen + [(page, isLast)];
      if !fn(n, page, isLast) {
        return seen, true;
      }
      if isLast {
        more := false;
      } else {
        params := SetTokens(p, params, tokens);
      }
    }
    return seen, true;
  }
}
