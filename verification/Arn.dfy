/** Parsing and printing Amazon Resource Names (aws/arn/arn.go). */
module Arns {
  import opened Prelude

  datatype ARN = ARN(partition: string, service: string, region: string, accountID: string, resource: string)

  datatype Error = InvalidPrefix | InvalidSections

  const SECTIONS := 6

  /** The place of the first colon, or the length. */
  function FirstColon(s: string): (i: nat)
    ensures i <= |s| && ':' !in s[..i] && (i < |s| ==> s[i] == ':')
  {
    if s == "" then 0
    else if s[0] == ':' then 0
    else
      assert s[..1 + FirstColon(s[1..])] == [s[0]] + s[1..][..FirstColon(s[1..])];
      1 + FirstColon(s[1..])
  }

  /** `strings.SplitN(s, ":", n)`. */
  function SplitN(s: string, n: nat): (parts: seq<string>)
    requires n >= 1
    ensures 1 <= |parts| <= n
    decreases n
  {
    var i := FirstColon(s);
    if n == 1 || i == |s| then [s] else [s[..i]] + SplitN(s[i + 1..], n - 1)
  }

  function Join(parts: seq<string>): string
    requires parts != []
  {
    if |parts| == 1 then parts[0] else parts[0] + ":" + Join(parts[1..])
  }

  function Count(s: string): nat {
    if s == "" then 0 else (if s[0] == ':' then 1 else 0) + Count(s[1..])
  }

  predicate HasPrefix(s: string) { "arn:" <= s }

  function Parse(s: string): Result<ARN, Error> {
    if !HasPrefix(s) then Err(InvalidPrefix)
    else
      var sections := SplitN(s, SECTIONS);
      if |sections| != SECTIONS then Err(InvalidSections)
      else Ok(ARN(sections[1], sections[2], sections[3], sections[4], sections[5]))
  }

  predicate IsARN(s: string) { HasPrefix(s) && Count(s) >= SECTIONS - 1 }

  function Print(a: ARN): string {
    "arn:" + a.partition + ":" + a.service + ":" + a.region + ":" + a.accountID + ":" + a.resource
  }

  lemma {:induction false} JoinSplit(s: string, n: nat)
    requires n >= 1
    ensures Join(SplitN(s, n)) == s
    ensures forall i | 0 <= i < |SplitN(s, n)| - 1 :: ':' !in SplitN(s, n)[i]
    decreases n
  {
    var i := FirstColon(s);
    if n > 1 && i < |s| {
      JoinSplit(s[i + 1..], n - 1);
      assert s == s[..i] + ":" + s[i + 1..];
      assert forall k | 1 <= k < |SplitN(s, n)| :: SplitN(s, n)[k] == SplitN(s[i + 1..], n - 1)[k - 1];
    }
  }

  /** The first colon is the one that no other precedes. */
  lemma {:induction false} FirstColonIs(s: string, k: nat)
    requires k < |s| && s[k] == ':' && ':' !in s[..k]
    ensures FirstColon(s) == k
  {
    if k > 0 {
      assert s[..k][0] == s[0];
      assert s[1..][..k - 1] == s[..k][1..];
      FirstColonIs(s[1..], k - 1);
    }
  }

  lemma {:induction false} CountFromFirst(s: string)
    ensures Count(s) == if FirstColon(s) == |s| then 0 else 1 + Count(s[FirstColon(s) + 1..])
  {
    if s != "" && s[0] != ':' {
      CountFromFirst(s[1..]);
      if FirstColon(s) < |s| {
        assert s[1..][FirstColon(s)..] == s[FirstColon(s) + 1..];
      }
    }
  }

  /** A split has one part more than there are colons, as far as it may go. */
  lemma {:induction false} SplitLength(s: string, n: nat)
    requires n >= 1
    ensures |SplitN(s, n)| == Min(n, Count(s) + 1)
    decreases n
  {
    CountFromFirst(s);
    hide Count, FirstColon;
    if n > 1 && FirstColon(s) < |s| {
      SplitLength(s[FirstColon(s) + 1..], n - 1);
    }
  }

  lemma SplitFirst(x: string, rest: string, n: nat)
    requires ':' !in x && n > 1
    ensures SplitN(x + ":" + rest, n) == [x] + SplitN(rest, n - 1)
  {
    var s := x + ":" + rest;
    assert s[..|x|] == x && s[|x|] == ':' && s[|x| + 1..] == rest;
    FirstColonIs(s, |x|);
    hide FirstColon;
  }

  lemma {:induction false} SplitJoin(parts: seq<string>)
    requires parts != [] && forall i | 0 <= i < |parts| - 1 :: ':' !in parts[i]
    ensures SplitN(Join(parts), |parts|) == parts
  {
    if |parts| > 1 {
      SplitJoin(parts[1..]);
      SplitFirst(parts[0], Join(parts[1..]), |parts|);
    }
  }

  function Sections(a: ARN): seq<string> {
    ["arn", a.partition, a.service, a.region, a.accountID, a.resource]
  }

  lemma Regroup(x: string, y: string, z: string)
    ensures x + ":" + y + ":" + z == x + ":" + (y + ":" + z)
  {
    assert x + ":" + y + ":" + z == x + ":" + (y + ":" + z);
  }

  lemma JoinFrom(parts: seq<string>, i: nat)
    requires i < |parts|
    ensures Join(parts[i..]) == if i == |parts| - 1 then parts[i] else parts[i] + ":" + Join(parts[i + 1..])
  {
    assert i < |parts| - 1 ==> parts[i..][1..] == parts[i + 1..];
  }

  lemma JoinSix(parts: seq<string>)
    requires |parts| == 6
    ensures Join(parts)
         == parts[0] + ":" + parts[1] + ":" + parts[2] + ":" + parts[3] + ":" + parts[4] + ":" + parts[5]
  {
    JoinFrom(parts, 0);
    JoinFrom(parts, 1);
    JoinFrom(parts, 2);
    JoinFrom(parts, 3);
    JoinFrom(parts, 4);
    JoinFrom(parts, 5);
    assert parts[0..] == parts;
    hide Join;
    Regroup(parts[0] + ":" + parts[1] + ":" + parts[2] + ":" + parts[3], parts[4], parts[5]);
    Regroup(parts[0] + ":" + parts[1] + ":" + parts[2], parts[3], Join(parts[4..]));
    Regroup(parts[0] + ":" + parts[1], parts[2], Join(parts[3..]));
    Regroup(parts[0], parts[1], Join(parts[2..]));
  }

  lemma PrintIsJoin(a: ARN)
    ensures Print(a) == Join(Sections(a)) && HasPrefix(Print(a))
  {
    JoinSix(Sections(a));
    hide Join;
    assert "arn:" == "arn" + ":";
  }

  predicate ColonFree(a: ARN) {
    ':' !in a.partition && ':' !in a.service && ':' !in a.region && ':' !in a.accountID
  }

  /** What is recognised is exactly what parses. */
  lemma IsARNExactlyWhenParses(s: string)
    ensures IsARN(s) <==> Parse(s).Ok?
  {
    SplitLength(s, SECTIONS);
  }

  /** Printing what was parsed gives the text back. */
  lemma PrintOfParse(s: string)
    requires Parse(s).Ok?
    ensures Print(Parse(s).value) == s && ColonFree(Parse(s).value)
  {
    var parts := SplitN(s, SECTIONS);
    JoinSplit(s, SECTIONS);
    FirstSectionIsArn(s);
    hide SplitN, Join, Print;
    PrintIsJoin(Parse(s).value);
    assert Sections(Parse(s).value) == parts;
  }

  lemma FirstSectionIsArn(s: string)
    requires HasPrefix(s)
    ensures SplitN(s, SECTIONS)[0] == "arn"
  {
    assert s[..3] == "arn" && s[3] == ':';
    FirstColonIs(s, 3);
  }

  /** Parsing what was printed gives the name back if and only if its first four fields contain no colon. */
  lemma ParseOfPrint(a: ARN)
    ensures Parse(Print(a)) == Ok(a) <==> ColonFree(a)
  {
    PrintIsJoin(a);
    var parts := Sections(a);
    hide Print, Join;
    if ColonFree(a) {
      SplitJoin(parts);
    } else if Parse(Print(a)) == Ok(a) {
      PrintOfParse(Print(a));
    }
  }

  /** The sections of a name are its fields in their order, and the last takes the colons that are left. */
  lemma SectionsAreFields(partition: string, service: string, region: string, account: string, resource: string)
    requires ':' !in partition && ':' !in service && ':' !in region && ':' !in account
    ensures Parse("arn:" + partition + ":" + service + ":" + region + ":" + account + ":" + resource)
         == Ok(ARN(partition, service, region, account, resource))
  {
    ParseOfPrint(ARN(partition, service, region, account, resource));
    hide Parse;
  }

  lemma {:induction false} CountIs(s: string)
    ensures Count(s) == multiset(s)[':']
  {
    if s != "" {
      CountIs(s[1..]);
      assert s == [s[0]] + s[1..];
    }
  }

  /** A text fails to parse for its prefix, or else for having fewer than five colons. */
  lemma ParseFailsExactlyWhen(s: string)
    ensures Parse(s) == Err(InvalidPrefix) <==> !("arn:" <= s)
    ensures Parse(s) == Err(InvalidSections) <==> "arn:" <= s && multiset(s)[':'] < 5
  {
    SplitLength(s, SECTIONS);
    CountIs(s);
  }
}
