/**
 The list of named handlers (aws/request/handlers.go): a Go slice that is shifted, truncated and overwritten in its
 backing array, proved to behave as a plain sequence.
 */
module HandlerLists {
  import opened Prelude

  datatype NamedHandler = NamedHandler(name: string, fn: nat)

  /** The zero value that fills spare capacity. */
  const ZERO := NamedHandler("", 0)

  // ---------------------------------------------------- the sequence it is

  /** The handlers not called `name`, in order. */
  function Without(s: seq<NamedHandler>, name: string): seq<NamedHandler> {
    if s == [] then [] else (if s[0].name == name then [] else [s[0]]) + Without(s[1..], name)
  }

  predicate HasName(s: seq<NamedHandler>, name: string) { exists h :: h in s && h.name == name }

  /** Every handler called `name` is replaced by `replacement`, name and all. */
  function Substituted(s: seq<NamedHandler>, name: string, replacement: NamedHandler): (t: seq<NamedHandler>)
    ensures |t| == |s|
  {
    seq(|s|, i requires 0 <= i < |s| => if s[i].name == name then replacement else s[i])
  }

  /** Every handler called `n.name` gets the function of `n`. */
  function Swapped(s: seq<NamedHandler>, n: NamedHandler): (t: seq<NamedHandler>)
    ensures |t| == |s|
  {
    Substituted(s, n.name, n)
  }

  /**
   Replacing keeps every handler of another name at its place, adds a replacement for each of the old name, and leaves
   none of these unless the replacement is so named.
   */
  lemma {:induction false} SubstitutedByName(s: seq<NamedHandler>, name: string, replacement: NamedHandler)
    ensures forall i | 0 <= i < |s| && s[i].name != name :: Substituted(s, name, replacement)[i] == s[i]
    ensures forall h | h in Substituted(s, name, replacement) && h.name == name :: h == replacement
    ensures multiset(Substituted(s, name, replacement))[replacement]
         == Named(s, name) + if replacement.name == name then 0 else multiset(s)[replacement]
  {
    if s != [] {
      SubstitutedByName(s[1..], name, replacement);
      assert s == [s[0]] + s[1..];
      var first := if s[0].name == name then replacement else s[0];
      assert Substituted(s, name, replacement) == [first] + Substituted(s[1..], name, replacement);
    }
  }

  function SetBack(s: seq<NamedHandler>, n: NamedHandler): seq<NamedHandler> {
    if HasName(s, n.name) then Swapped(s, n) else s + [n]
  }

  function SetFront(s: seq<NamedHandler>, n: NamedHandler): seq<NamedHandler> {
    if HasName(s, n.name) then Swapped(s, n) else [n] + s
  }

  lemma WithoutStep(kept: seq<NamedHandler>, rest: seq<NamedHandler>, name: string)
    ensures rest == [] ==> kept + Without(rest, name) == kept
    ensures rest != [] ==>
              kept + Without(rest, name)
              == (if rest[0].name == name then kept else kept + [rest[0]]) + Without(rest[1..], name)
  {
  }

  /** Removal keeps exactly the handlers with another name, each as often as before. */
  lemma {:induction false} WithoutKeepsOthers(s: seq<NamedHandler>, name: string, h: NamedHandler)
    ensures multiset(Without(s, name))[h] == if h.name == name then 0 else multiset(s)[h]
    ensures |Without(s, name)| <= |s|
  {
    if s != [] {
      WithoutKeepsOthers(s[1..], name, h);
      assert s == [s[0]] + s[1..];
    }
  }

  /** How many handlers are called `name`. */
  function Named(s: seq<NamedHandler>, name: string): nat {
    if s == [] then 0 else (if s[0].name == name then 1 else 0) + Named(s[1..], name)
  }

  lemma {:induction false} NamedConcat(xs: seq<NamedHandler>, ys: seq<NamedHandler>, name: string)
    ensures Named(xs + ys, name) == Named(xs, name) + Named(ys, name)
  {
    if xs == [] {
      assert xs + ys == ys;
    } else {
      assert (xs + ys)[1..] == xs[1..] + ys;
      NamedConcat(xs[1..], ys, name);
    }
  }

  lemma {:induction false} NamedAfterSwap(s: seq<NamedHandler>, n: NamedHandler, name: string)
    ensures Named(Swapped(s, n), name) == Named(s, name)
  {
    if s != [] {
      NamedAfterSwap(s[1..], n, name);
      assert Swapped(s, n)[1..] == Swapped(s[1..], n);
    }
  }

  lemma {:induction false} NamedZero(s: seq<NamedHandler>, name: string)
    ensures Named(s, name) == 0 <==> !HasName(s, name)
  {
    if s != [] {
      NamedZero(s[1..], name);
      assert s == [s[0]] + s[1..];
      if h :| h in s && h.name == name {
        assert h == s[0] || h in s[1..];
      }
      if s[0].name == name {
        assert s[0] in s;
      }
    }
  }

  /** Setting a handler leaves exactly as many of that name as there were, and one where there was none. */
  lemma SetBackKeepsUnique(s: seq<NamedHandler>, n: NamedHandler)
    ensures Named(SetBack(s, n), n.name) == Max(1, Named(s, n.name))
    ensures Named(SetFront(s, n), n.name) == Max(1, Named(s, n.name))
    ensures n in SetBack(s, n) && n in SetFront(s, n)
  {
    NamedZero(s, n.name);
    NamedAfterSwap(s, n, n.name);
    NamedConcat(s, [n], n.name);
    NamedConcat([n], s, n.name);
    if HasName(s, n.name) {
      var i :| 0 <= i < |s| && s[i].name == n.name;
      assert Swapped(s, n)[i] == n;
    }
  }

  /** A handler that is new comes last or first; the others keep their order, and else their places. */
  lemma SettingKeepsPlaces(s: seq<NamedHandler>, n: NamedHandler)
    ensures Named(s, n.name) == 0 ==> SetBack(s, n) == s + [n] && SetFront(s, n) == [n] + s
    ensures Named(s, n.name) > 0 ==> forall i | 0 <= i < |s| && s[i].name != n.name ::
                                       |SetBack(s, n)| == |SetFront(s, n)| == |s|
                                       && SetBack(s, n)[i] == s[i] == SetFront(s, n)[i]
  {
    NamedZero(s, n.name);
  }

  /** Setting the same name again only counts the last time. */
  lemma SetBackAbsorbs(s: seq<NamedHandler>, n: NamedHandler, again: NamedHandler)
    requires again.name == n.name
    ensures SetBack(SetBack(s, n), again) == SetBack(s, again)
  {
    SetBackKeepsUnique(s, n);
    NamedZero(SetBack(s, n), n.name);
    if HasName(s, n.name) {
      assert Swapped(Swapped(s, n), again) == Swapped(s, again);
    } else {
      assert forall i | 0 <= i < |s| :: s[i] in s;
      assert Swapped(s + [n], again) == s + [again];
    }
  }

  function SetBackAll(s: seq<NamedHandler>, ns: seq<NamedHandler>): seq<NamedHandler>
    decreases |ns|
  {
    if ns == [] then s else SetBackAll(SetBack(s, ns[0]), ns[1..])
  }

  /** Over any number of attempts that each set their handler, one handler of the name remains, the last one set. */
  lemma {:induction false} SetBackPerAttempt(s: seq<NamedHandler>, ns: seq<NamedHandler>)
    requires ns != [] && forall n | n in ns :: n.name == ns[0].name
    ensures SetBackAll(s, ns) == SetBack(s, ns[|ns| - 1])
    ensures Named(SetBackAll(s, ns), ns[0].name) == Max(1, Named(s, ns[0].name))
    decreases |ns|
  {
    SetBackKeepsUnique(s, ns[|ns| - 1]);
    if |ns| > 1 {
      assert ns[1..][0].name == ns[0].name && ns[1..][|ns| - 2] == ns[|ns| - 1];
      SetBackPerAttempt(SetBack(s, ns[0]), ns[1..]);
      SetBackAbsorbs(s, ns[0], ns[|ns| - 1]);
    } else {
      assert ns[1..] == [];
    }
  }

  // -------------------------------------------------------- the mutations

  datatype Op =
    | PushBack(n: NamedHandler)
    | PushFront(n: NamedHandler)
    | Remove(name: string)
    | SwapFn(n: NamedHandler)
    | Substitute(name: string, n: NamedHandler)
    | SetBackOp(n: NamedHandler)
    | SetFrontOp(n: NamedHandler)
    | Clear

  function Apply(s: seq<NamedHandler>, op: Op): seq<NamedHandler> {
    match op
    case PushBack(n) => s + [n]
    case PushFront(n) => [n] + s
    case Remove(name) => Without(s, name)
    case SwapFn(n) => Swapped(s, n)
    case Substitute(name, n) => Substituted(s, name, n)
    case SetBackOp(n) => SetBack(s, n)
    case SetFrontOp(n) => SetFront(s, n)
    case Clear => []
  }

  function ApplyAll(s: seq<NamedHandler>, ops: seq<Op>): seq<NamedHandler>
    decreases |ops|
  {
    if ops == [] then s else ApplyAll(Apply(s, ops[0]), ops[1..])
  }

  lemma {:induction false} ApplyOneMore(s: seq<NamedHandler>, ops: seq<Op>, op: Op)
    ensures ApplyAll(s, ops + [op]) == Apply(ApplyAll(s, ops), op)
    decreases |ops|
  {
    if ops == [] {
      assert ops + [op] == [op];
    } else {
      assert (ops + [op])[1..] == ops[1..] + [op];
      ApplyOneMore(Apply(s, ops[0]), ops[1..], op);
    }
  }

  // ------------------------------------------------------------ running

  /** The request after the first `n` handlers. */
  function After<R>(s: seq<NamedHandler>, call: (NamedHandler, R) -> R, r: R, n: nat): R
    requires n <= |s|
  {
    if n == 0 then r else call(s[n - 1], After(s, call, r, n - 1))
  }

  type AfterEach<!R> = (nat, NamedHandler, R) -> bool

  /** Whether the list goes on after its handler `i`. */
  predicate GoesOn<R>(s: seq<NamedHandler>, call: (NamedHandler, R) -> R, afterEach: Option<AfterEach<R>>, r: R, i: nat)
    requires i < |s|
  {
    afterEach.Some? ==> afterEach.value(i, s[i], After(s, call, r, i + 1))
  }

  // ------------------------------------------------------------ the slice

  class HandlerList {
    var list: array<NamedHandler>
    var len: nat

    predicate Valid()
      reads this
    {
      len <= list.Length
    }

    function Contents(): (s: seq<NamedHandler>)
      requires Valid()
      reads this, list
      ensures |s| == len
    {
      list[..len]
    }

    /** The zero list: a nil slice. */
    constructor ()
      ensures Valid() && Contents() == [] && list.Length == 0 && fresh(list)
    {
      list, len := new NamedHandler[0], 0;
    }

    /** `copy`: a list over its own array, of exactly the needed capacity. */
    method Copy() returns (n: HandlerList)
      requires Valid()
      ensures fresh(n) && fresh(n.list) && n.Valid()
      ensures n.Contents() == Contents() && n.list.Length == len
    {
      n := new HandlerList();
      if len == 0 {
        return;
      }
      n.list := new NamedHandler[len](i requires 0 <= i < len && Valid() reads this, list => list[i]);
      n.len := len;
    }

    method Clear()
      requires Valid()
      modifies this
      ensures Valid() && list == old(list) && Contents() == []
    {
      len := 0;
    }

    /** Go's `append` of one element: in place while there is capacity, else into a new array twice as large. */
    method Append(n: NamedHandler)
      requires Valid()
      modifies this, list
      ensures Valid() && (list == old(list) || fresh(list))
      ensures Contents() == old(Contents()) + [n]
    {
      if len == list.Length {
        var bigger := new NamedHandler[2 * len + 1](_ => ZERO);
        forall i | 0 <= i < len {
          bigger[i] := list[i];
        }
        list := bigger;
      }
      list[len] := n;
      len := len + 1;
    }

    method PushBackNamed(n: NamedHandler)
      requires Valid()
      modifies this, list
      ensures Valid() && (list == old(list) || fresh(list))
      ensures Contents() == old(Contents()) + [n]
    {
      if list.Length == 0 {
        list, len := new NamedHandler[5](_ => ZERO), 0;
      }
      Append(n);
    }

    /** The overlapping copy of all handlers but the last onto the slots after theirs. */
    method ShiftUp()
      requires Valid() && len > 0
      modifies list
      ensures list[1..len] == old(list[..len - 1])
    {
      forall i | 0 <= i < len - 1 {
        list[1 + i] := list[i];
      }
    }

    /** A prepend by reallocation when the array is full, by an overlapping shift when it is not. */
    method PushFrontNamed(n: NamedHandler)
      requires Valid()
      modifies this, list
      ensures Valid() && (list == old(list) || fresh(list))
      ensures Contents() == [n] + old(Contents())
    {
      if list.Length == len {
        var bigger := new NamedHandler[len + 1](_ => n);
        forall i | 0 <= i < len {
          bigger[1 + i] := list[i];
        }
        assert bigger[1..] == Contents();
        list, len := bigger, len + 1;
      } else {
        ghost var before := Contents();
        Append(ZERO);
        assert list[..len - 1] == before;
        ShiftUp();
        list[0] := n;
        assert list[1..len] == before;
      }
      assert Contents() == [list[0]] + list[1..len];
    }

    /** The slots from `lo` up to `hi` are free and zeroed. */
    predicate Zeroed(lo: nat, hi: nat)
      reads this, list
    {
      lo <= hi <= list.Length && forall j | lo <= j < hi :: list[j] == ZERO
    }

    /** The overlapping copy of what follows slot `i` onto it. */
    method ShiftDown(i: nat)
      requires Valid() && i < len
      modifies list
      ensures list[..i] == old(list[..i]) && list[i..len - 1] == old(list[i + 1..len])
      ensures list[len..] == old(list[len..])
    {
      forall j | i <= j < len - 1 {
        list[j] := list[j + 1];
      }
    }

    /** The deletion of one slot: what follows is shifted down and the freed slot is zeroed. */
    method DeleteAt(i: nat, ghost hi: nat)
      requires Valid() && i < len && Zeroed(len, hi)
      modifies this`len, list
      ensures Valid() && len == old(len) - 1
      ensures list[..i] == old(list[..i]) && list[i..len] == old(list[i + 1..len])
      ensures Zeroed(len, hi)
    {
      ShiftDown(i);
      ghost var spare := list[len..];
      list[len - 1] := ZERO;
      assert list[len..] == spare;
      assert forall j | len <= j < hi :: list[j] == spare[j - len];
      len := len - 1;
    }

    /** Removal while iterating: the index steps back over each deletion. */
    method RemoveByName(name: string)
      requires Valid()
      modifies this, list
      ensures Valid() && list == old(list)
      ensures Contents() == Without(old(Contents()), name)
      ensures Zeroed(len, old(len))
    {
      assert Zeroed(len, len);
      hide Without, Zeroed;
      var i := 0;
      ghost var all := Contents();
      ghost var kept, rest := [], Contents();
      while i < len
        invariant 0 <= i <= len <= old(len) && Valid() && list == old(list)
        invariant kept == list[..i] && rest == list[i..len]
        invariant Without(all, name) == kept + Without(rest, name)
        invariant Zeroed(len, old(len))
        decreases len - i
      {
        var m := list[i];
        WithoutStep(kept, rest, name);
        if m.name == name {
          DeleteAt(i, old(len));
          i := i - 1;
        } else {
          kept := kept + [m];
        }
        rest := rest[1..];
        i := i + 1;
      }
      assert rest == [] && kept == Contents();
      WithoutStep(kept, rest, name);
    }

    method SwapNamed(n: NamedHandler) returns (swapped: bool)
      requires Valid()
      modifies list
      ensures Contents() == Swapped(old(Contents()), n)
      ensures swapped <==> HasName(old(Contents()), n.name)
    {
      swapped := false;
      for i := 0 to len
        invariant forall j | 0 <= j < i :: list[j] == Swapped(old(Contents()), n)[j]
        invariant forall j | i <= j < len :: list[j] == old(Contents())[j]
        invariant swapped <==> exists j | 0 <= j < i :: old(Contents())[j].name == n.name
      {
        if list[i].name == n.name {
          list[i] := list[i].(fn := n.fn);
          swapped := true;
        }
      }
    }

    method Swap(name: string, replacement: NamedHandler) returns (swapped: bool)
      requires Valid()
      modifies list
      ensures Contents() == Substituted(old(Contents()), name, replacement)
      ensures swapped <==> HasName(old(Contents()), name)
    {
      swapped := false;
      for i := 0 to len
        invariant forall j | 0 <= j < i :: list[j] == Substituted(old(Contents()), name, replacement)[j]
        invariant forall j | i <= j < len :: list[j] == old(Contents())[j]
        invariant swapped <==> exists j | 0 <= j < i :: old(Contents())[j].name == name
      {
        if list[i].name == name {
          list[i] := replacement;
          swapped := true;
        }
      }
    }

    method SetBackNamed(n: NamedHandler)
      requires Valid()
      modifies this, list
      ensures Valid() && (list == old(list) || fresh(list))
      ensures Contents() == SetBack(old(Contents()), n)
    {
      var swapped := SwapNamed(n);
      if !swapped {
        SwapsNothing(old(Contents()), n);
        PushBackNamed(n);
      }
    }

    method SetFrontNamed(n: NamedHandler)
      requires Valid()
      modifies this, list
      ensures Valid() && (list == old(list) || fresh(list))
      ensures Contents() == SetFront(old(Contents()), n)
    {
      var swapped := SwapNamed(n);
      if !swapped {
        SwapsNothing(old(Contents()), n);
        PushFrontNamed(n);
      }
    }

    /**
     `Run` on a list that its handlers do not change: exactly the prefix ending at the first handler after which
     `AfterEachFn` says no.
     */
    method Run<R>(call: (NamedHandler, R) -> R, afterEach: Option<AfterEach<R>>, r0: R) returns (r: R, ran: nat)
      requires Valid()
      ensures ran <= len && r == After(Contents(), call, r0, ran)
      ensures forall i: nat | i + 1 < ran :: GoesOn(Contents(), call, afterEach, r0, i)
      ensures ran < len ==> ran > 0 && !GoesOn(Contents(), call, afterEach, r0, ran - 1)
    {
      r, ran := r0, 0;
      while ran < len
        invariant ran <= len && r == After(Contents(), call, r0, ran)
        invariant forall i: nat | i < ran :: GoesOn(Contents(), call, afterEach, r0, i)
      {
        var h := list[ran];
        r := call(h, r);
        ran := ran + 1;
        if afterEach.Some? && !afterEach.value(ran - 1, h, r) {
          return;
        }
      }
    }

    method Perform(op: Op)
      requires Valid()
      modifies this, list
      ensures Valid() && (list == old(list) || fresh(list))
      ensures Contents() == Apply(old(Contents()), op)
    {
      match op {
        case PushBack(n) => PushBackNamed(n);
        case PushFront(n) => PushFrontNamed(n);
        case Remove(name) => RemoveByName(name);
        case SwapFn(n) => var _ := SwapNamed(n);
        case Substitute(name, n) => var _ := Swap(name, n);
        case SetBackOp(n) => SetBackNamed(n);
        case SetFrontOp(n) => SetFrontNamed(n);
        case Clear => Clear();
      }
    }
  }

  lemma SwapsNothing(s: seq<NamedHandler>, n: NamedHandler)
    requires !HasName(s, n.name)
    ensures Swapped(s, n) == s
  {
    assert forall i | 0 <= i < |s| :: s[i] in s;
  }

  /** A mutation of the original, or of its copy. */
  datatype Mutation = Original(op: Op) | Duplicate(op: Op)

  function OpsOn(schedule: seq<Mutation>, duplicate: bool): seq<Op> {
    if schedule == [] then []
    else
      var last := schedule[|schedule| - 1];
      OpsOn(schedule[..|schedule| - 1], duplicate) + if last.Duplicate? == duplicate then [last.op] else []
  }

  /** After a copy, whatever is done to either list in whatever order, neither sees what was done to the other. */
  method CopiesAreIndependent(l: HandlerList, schedule: seq<Mutation>) returns (c: HandlerList)
    requires l.Valid()
    modifies l, l.list
    ensures l.Valid() && c.Valid()
    ensures l.Contents() == ApplyAll(old(l.Contents()), OpsOn(schedule, false))
    ensures c.Contents() == ApplyAll(old(l.Contents()), OpsOn(schedule, true))
  {
    c := l.Copy();
    for i := 0 to |schedule|
      invariant l.Valid() && c.Valid() && c != l && l.list != c.list && fresh(c) && fresh(c.list)
      invariant l.list == old(l.list) || fresh(l.list)
      invariant l.Contents() == ApplyAll(old(l.Contents()), OpsOn(schedule[..i], false))
      invariant c.Contents() == ApplyAll(old(l.Contents()), OpsOn(schedule[..i], true))
    {
      assert schedule[..i + 1][..i] == schedule[..i];
      var duplicate := schedule[i].Duplicate?;
      assert OpsOn(schedule[..i], !duplicate) + [] == OpsOn(schedule[..i], !duplicate);
      ApplyOneMore(old(l.Contents()), OpsOn(schedule[..i], duplicate), schedule[i].op);
      hide Apply, ApplyAll;
      if duplicate {
        c.Perform(schedule[i].op);
      } else {
        l.Perform(schedule[i].op);
      }
    }
    assert schedule[..|schedule|] == schedule;
  }
}
