/**
 Rewinding the request body (aws/request/offset_reader.go, aws/request/request_1_8.go, and the body methods of
 aws/request/request.go, with the length probe and the copy of aws/types.go).

 All attempts of a request read one shared body through generations of `OffsetReader`; only the newest is open.
 */
module Bodies {
  import opened Prelude

  datatype Whence = SeekStart | SeekCurrent | SeekEnd

  /** The bytes that are left at a cursor, which may stand beyond the end. */
  function From(data: seq<Byte>, pos: nat): seq<Byte> {
    if pos <= |data| then data[pos..] else []
  }

  /**
   The caller's body. `seekable` is `IsReaderSeekable`; `seekFails` that it is a seeker on which no seek succeeds,
   such as a pipe; `hasLen` that it is wrapped in a `ReaderSeekerCloser` over a reader with a `Len` method.
   */
  class Source {
    const data: seq<Byte>
    const seekable: bool
    const seekFails: bool
    const hasLen: bool
    var pos: nat

    constructor (data: seq<Byte>, pos: nat, seekable: bool, seekFails: bool, hasLen: bool)
      ensures this.data == data && this.pos == pos
      ensures this.seekable == seekable && this.seekFails == seekFails && this.hasLen == hasLen
    {
      this.data, this.pos, this.seekable, this.seekFails, this.hasLen := data, pos, seekable, seekFails, hasLen;
    }

    /** Whether a seek to `target` is an error. */
    predicate CannotSeek(target: int) { seekable && (seekFails || target < 0) }

    function Unread(): seq<Byte>
      reads this
    {
      From(data, pos)
    }

    /** The place that a seek asks for. */
    function Target(offset: int, whence: Whence): int
      reads this
    {
      offset + (match whence case SeekStart => 0 case SeekCurrent => pos case SeekEnd => |data|)
    }

    /** A read of at most `size` bytes, of which the reader chooses to give no more than `give`. */
    method Read(size: nat, give: nat) returns (p: seq<Byte>)
      modifies this
      ensures |p| <= size
      ensures p + Unread() == old(Unread())
      ensures p == old(Unread())[..Min(Min(size, give), |old(Unread())|)]
      ensures pos == old(pos) + |p|
    {
      var unread := Unread();
      var n := Min(Min(size, give), |unread|);
      p := unread[..n];
      pos := pos + n;
    }

    /** A failing seek moves nothing; without a seeker nothing happens. */
    method Seek(offset: int, whence: Whence) returns (r: Result<int, ()>)
      modifies this
      ensures !seekable ==> r == Ok(0) && pos == old(pos)
      ensures seekable ==>
                var target := old(Target(offset, whence));
                if CannotSeek(target) then r == Err(()) && pos == old(pos) else r == Ok(target) && pos == target
    {
      if !seekable {
        return Ok(0);
      }
      var base := match whence case SeekStart => 0 case SeekCurrent => pos case SeekEnd => |data|;
      if CannotSeek(base + offset) {
        return Err(());
      }
      pos := base + offset;
      return Ok(pos);
    }
  }

  /** `seekerLen`: three seeks that put the cursor back; beyond the end the answer is negative. */
  method SeekerLenBySeeking(s: Source) returns (r: Result<int, ()>)
    requires s.seekable
    modifies s
    ensures r == if s.seekFails then Err(()) else Ok(|s.data| - s.pos)
    ensures s.pos == old(s.pos)
  {
    var curOffset := s.Seek(0, SeekCurrent);
    if curOffset.Err? {
      return Err(());
    }
    var endOffset := s.Seek(0, SeekEnd);
    if endOffset.Err? {
      return Err(());
    }
    var back := s.Seek(curOffset.value, SeekStart);
    if back.Err? {
      return Err(());
    }
    return Ok(endOffset.value - curOffset.value);
  }

  /** What `SeekerLen` reports: -1 when it cannot tell. */
  function LengthLeft(s: Source): Result<int, ()>
    reads s
  {
    if s.hasLen then Ok(|s.Unread()|)
    else if !s.seekable then Ok(-1)
    else if s.seekFails then Err(()) else Ok(|s.data| - s.pos)
  }

  method SeekerLen(s: Source) returns (r: Result<int, ()>)
    modifies s
    ensures r == LengthLeft(s)
    ensures s.pos == old(s.pos)
  {
    if s.hasLen {
      return Ok(|s.Unread()|);
    }
    if s.seekable {
      r := SeekerLenBySeeking(s);
      return;
    }
    return Ok(-1);
  }

  /**
   `CopySeekableBody`: everything left is copied and the body is back where it was, or there is an error and what was
   copied is a part from the beginning. `breaks` says which read or write fails, `gives` how much each read gives.
   */
  method CopySeekableBody(src: Source, gives: seq<nat>, breaks: nat -> bool)
    returns (r: Result<int, ()>, copied: seq<Byte>)
    requires src.seekable
    modifies src
    ensures src.seekFails ==> r.Err? && copied == [] && src.pos == old(src.pos)
    ensures !src.seekFails && (forall turn :: !breaks(turn)) ==> r.Ok?
    ensures r.Ok? ==> r == Ok(|copied|) && copied == old(src.Unread()) && src.pos == old(src.pos)
    ensures copied <= old(src.Unread()) && old(src.pos) <= src.pos
  {
    copied := [];
    var curPos := src.Seek(0, SeekCurrent);
    if curPos.Err? {
      return Err(()), copied;
    }
    var turn := 0;
    while src.Unread() != []
      invariant copied + src.Unread() == old(src.Unread()) && old(src.pos) <= src.pos
      decreases |src.Unread()|
    {
      if breaks(turn) {
        return Err(()), copied;
      }
      var give := if turn < |gives| && gives[turn] > 0 then gives[turn] else 1;
      var p := src.Read(32768, give);
      copied := copied + p;
      turn := turn + 1;
    }
    var back := src.Seek(curPos.value, SeekStart);
    if back.Err? {
      return Err(()), copied;
    }
    return Ok(|copied|), copied;
  }

  class OffsetReader {
    const buf: Source
    var closed: bool

    /** The reader part of `newOffsetReader`, after its seek succeeded. */
    constructor (buf: Source)
      ensures this.buf == buf && !closed
    {
      this.buf, closed := buf, false;
    }

    /** What reading to the end would yield. */
    function Remaining(): seq<Byte>
      reads this, buf
    {
      if closed then [] else buf.Unread()
    }

    method Close()
      modifies this
      ensures closed
    {
      closed := true;
    }

    /** A closed generation yields nothing and does not move the shared cursor. */
    method Read(size: nat, give: nat) returns (p: seq<Byte>)
      modifies buf
      ensures |p| <= size && p + Remaining() == old(Remaining())
      ensures closed ==> p == [] && buf.pos == old(buf.pos)
      ensures !closed ==>
                && p == old(buf.Unread())[..Min(Min(size, give), |old(buf.Unread())|)]
                && buf.pos == old(buf.pos) + |p|
    {
      if closed {
        return [];
      }
      p := buf.Read(size, give);
    }

    /** Unlike `Read`, a seek is not stopped by `Close`: it moves the shared cursor for every generation. */
    method Seek(offset: int, whence: Whence) returns (r: Result<int, ()>)
      modifies buf
      ensures !buf.seekable ==> r == Ok(0) && buf.pos == old(buf.pos)
      ensures buf.seekable ==>
                var target := old(buf.Target(offset, whence));
                if buf.CannotSeek(target) then r == Err(()) && buf.pos == old(buf.pos)
                else r == Ok(target) && buf.pos == target
    {
      r := buf.Seek(offset, whence);
    }
  }

  method NewOffsetReader(buf: Source, offset: int) returns (reader: OffsetReader?)
    modifies buf
    ensures reader == null <==> buf.CannotSeek(offset)
    ensures reader != null ==> fresh(reader) && reader.buf == buf && !reader.closed
    ensures buf.pos == if buf.seekable && !buf.CannotSeek(offset) then offset else old(buf.pos)
  {
    var r := buf.Seek(offset, SeekStart);
    if r.Err? {
      return null;
    }
    reader := new OffsetReader(buf);
  }

  /** The body given to the HTTP client. */
  datatype HttpBody = NoBody | Reader(reader: OffsetReader)

  const BODILESS_METHODS: set<string> := {"GET", "HEAD", "DELETE"}

  class RequestBody {
    const httpMethod: string
    var body: Source
    var bodyStart: int
    var safeBody: OffsetReader?
    var httpBody: HttpBody
    var failed: bool
    /** Every generation of readers made so far. */
    ghost var generations: set<OffsetReader>

    ghost predicate Valid()
      reads this, generations
    {
      && (safeBody != null ==> safeBody in generations)
      && (forall g | g in generations && g != safeBody :: g.closed)
      && (httpBody.Reader? ==> httpBody.reader in generations)
    }

    constructor (httpMethod: string, body: Source)
      ensures Valid() && this.httpMethod == httpMethod && this.body == body && generations == {}
      ensures safeBody == null && !failed && bodyStart == 0
    {
      this.httpMethod, this.body, bodyStart, safeBody := httpMethod, body, 0, null;
      httpBody, failed, generations := NoBody, false, {};
    }

    /**
     `IsReaderSeekable(r.Body) || r.HTTPRequest.Body == NoBody`, the body's say in `WillRetry`. For a body that cannot
     seek it may change with every `ResetBody`, as what is left of the body does.
     */
    predicate CanBeResent()
      reads this
    {
      body.seekable || httpBody == NoBody
    }

    /** `getNextRequestBody`: the previous generation is closed, and the next starts at `bodyStart`. */
    method GetNextRequestBody() returns (next: Option<HttpBody>)
      requires Valid()
      modifies this`safeBody, this`generations, body, generations
      ensures Valid()
      ensures next.None? <==> body.CannotSeek(bodyStart)
      ensures body.pos == if body.seekable && !body.CannotSeek(bodyStart) then bodyStart else old(body.pos)
      ensures forall g | g in old(generations) :: g.closed
      ensures old(generations) <= generations && fresh(generations - old(generations))
      ensures next.Some? ==>
                && safeBody != null && fresh(safeBody) && safeBody.buf == body && !safeBody.closed
                && LengthLeft(body).Ok?
                && var length := LengthLeft(body).value;
                   next.value == if length == 0 || (length < 0 && httpMethod in BODILESS_METHODS)
                                 then NoBody else Reader(safeBody)
    {
      if safeBody != null {
        safeBody.Close();
      }
      safeBody := NewOffsetReader(body, bodyStart);
      if safeBody == null {
        return None;
      }
      generations := generations + {safeBody};
      var length := SeekerLen(body);
      if length.Err? {
        return None;
      }
      if length.value == 0 {
        return Some(NoBody);
      } else if length.value > 0 {
        return Some(Reader(safeBody));
      } else if httpMethod in BODILESS_METHODS {
        return Some(NoBody);
      }
      return Some(Reader(safeBody));
    }

    /**
     `ResetBody`: for a seekable body the open generation yields exactly the bytes from `bodyStart`, whatever earlier
     generations read; every earlier generation is closed.
     */
    method ResetBody()
      requires Valid()
      modifies this`safeBody, this`generations, this`httpBody, this`failed, body, generations
      ensures Valid()
      ensures forall g | g in old(generations) :: g.closed
      ensures old(generations) <= generations && fresh(generations - old(generations))
      ensures failed <==> old(failed) || body.CannotSeek(bodyStart)
      ensures body.seekable && !body.CannotSeek(bodyStart) ==>
                && safeBody != null && safeBody.buf == body && !safeBody.closed
                && body.pos == bodyStart && safeBody.Remaining() == From(body.data, bodyStart)
                && (httpBody.Reader? ==> httpBody.reader == safeBody)
                && (httpBody == NoBody <==>
                      if body.hasLen || bodyStart <= |body.data| then From(body.data, bodyStart) == []
                      else httpMethod in {"GET", "HEAD", "DELETE"})
      ensures !body.seekable ==>
                && body.pos == old(body.pos)
                && (httpBody.Reader? ==> httpBody.reader == safeBody && !safeBody.closed
                                         && safeBody.Remaining() == old(body.Unread()))
                && (httpBody == NoBody <==>
                      if body.hasLen then old(body.Unread()) == [] else httpMethod in {"GET", "HEAD", "DELETE"})
      ensures CanBeResent() <==>
                || body.seekable
                || if body.hasLen then old(body.Unread()) == [] else httpMethod in {"GET", "HEAD", "DELETE"}
    {
      var next := GetNextRequestBody();
      if next.None? {
        failed := true;
        return;
      }
      httpBody := next.value;
    }

    /** `SetReaderBody`: attempts start from where the reader stands now. */
    method SetReaderBody(reader: Source)
      requires Valid()
      modifies this, reader, generations
      ensures Valid() && body == reader
      ensures reader.seekable && !reader.seekFails ==>
                && bodyStart == old(reader.pos) && safeBody != null && !safeBody.closed
                && safeBody.Remaining() == old(reader.Unread())
                && (forall g | g in old(generations) :: g.closed)
      ensures failed <==> old(failed) || (reader.seekable && reader.seekFails)
    {
      body := reader;
      if reader.seekable {
        var start := reader.Seek(0, SeekCurrent);
        if start.Err? {
          failed := true;
          return;
        }
        bodyStart := start.value;
      }
      ResetBody();
    }
  }
}

/**
 Whole runs over one shared body: attempts reset it, the transports of any attempt, current or abandoned, go on
 reading and closing their generation in any order.
 */
module BodyRuns {
  import opened Prelude
  import opened Bodies

  /** Generations are numbered; `got` is what each has delivered. */
  datatype State = State(pos: nat, open: Option<nat>, got: seq<seq<Byte>>)

  datatype Op = Reset | Read(generation: nat, size: nat, give: nat) | Close(generation: nat)

  function Step(data: seq<Byte>, start: nat, s: State, op: Op): State {
    match op
    case Reset => State(start, Some(|s.got|), s.got + [[]])
    case Read(g, size, give) =>
      if s.open == Some(g) && g < |s.got| then
        var n := Min(Min(size, give), |From(data, s.pos)|);
        s.(pos := s.pos + n, got := s.got[g := s.got[g] + From(data, s.pos)[..n]])
      else s
    case Close(g) => if s.open == Some(g) then s.(open := None) else s
  }

  function Run(data: seq<Byte>, start: nat, s: State, ops: seq<Op>): State
    decreases |ops|
  {
    if ops == [] then s else Run(data, start, Step(data, start, s, ops[0]), ops[1..])
  }

  /** The open generation has delivered what lies between the start and the cursor, every other a prefix. */
  predicate Inv(data: seq<Byte>, start: nat, s: State) {
    && (forall g | 0 <= g < |s.got| :: s.got[g] <= From(data, start))
    && (s.open.Some? ==> s.open.value < |s.got| && s.got[s.open.value] + From(data, s.pos) == From(data, start))
  }

  lemma {:induction false} RunKeepsInv(data: seq<Byte>, start: nat, s: State, ops: seq<Op>)
    requires Inv(data, start, s)
    ensures Inv(data, start, Run(data, start, s, ops))
    decreases |ops|
  {
    if ops != [] {
      var s' := Step(data, start, s, ops[0]);
      if ops[0].Read? && s.open == Some(ops[0].generation) {
        var g := ops[0].generation;
        var n := Min(Min(ops[0].size, ops[0].give), |From(data, s.pos)|);
        assert From(data, s.pos) == From(data, s.pos)[..n] + From(data, s.pos + n);
        assert s'.got[g] + From(data, s'.pos) == From(data, start);
      }
      RunKeepsInv(data, start, s', ops[1..]);
    }
  }

  /**
   Whatever was read before and by whom, each generation delivers a prefix of the bytes from the start, and one
   that is still open and reads to the end delivers all of them.
   */
  lemma EveryAttemptReplaysTheBody(data: seq<Byte>, start: nat, s: State, ops: seq<Op>, g: nat)
    requires s.open == None && s.got == []
    requires g < |Run(data, start, s, ops).got|
    ensures var end := Run(data, start, s, ops);
            && end.got[g] <= From(data, start)
            && (end.open == Some(g) && From(data, end.pos) == [] ==> end.got[g] == From(data, start))
  {
    RunKeepsInv(data, start, s, ops);
  }

  /** A transport's use of an attempt: reads of the current generation, and of abandoned ones by number. */
  datatype Use = Current(size: nat, give: nat) | Abandoned(generation: nat, size: nat, give: nat)

  /** One transport at work: what it gets from the open generation moves the cursor, nothing else does. */
  method UseAttempt(current: OffsetReader, abandoned: seq<OffsetReader>, plan: seq<Use>) returns (bytes: seq<Byte>)
    requires !current.closed
    requires forall r | r in abandoned :: r.closed && r.buf == current.buf
    modifies current.buf
    ensures bytes + current.buf.Unread() == old(current.buf.Unread())
  {
    hide From;
    bytes := [];
    for i := 0 to |plan|
      invariant bytes + current.buf.Unread() == old(current.buf.Unread())
    {
      ghost var left := current.buf.Unread();
      match plan[i] {
        case Current(size, give) =>
          var p := current.Read(size, give);
          assert bytes + left == bytes + p + current.buf.Unread();
          bytes := bytes + p;
        case Abandoned(g, size, give) =>
          if g < |abandoned| {
            var _ := abandoned[g].Read(size, give);
          }
      }
    }
  }

  /** One attempt: the body is reset, and what the attempt gets is what lies between the start and the cursor. */
  method ReadAttempt(b: RequestBody, abandoned: seq<OffsetReader>, plan: seq<Use>)
    returns (current: OffsetReader, bytes: seq<Byte>)
    requires b.Valid() && b.body.seekable && !b.body.CannotSeek(b.bodyStart)
    requires forall r | r in abandoned :: r in b.generations && r.buf == b.body
    modifies b, b.body, b.generations
    ensures b.Valid() && b.body == old(b.body) && b.bodyStart == old(b.bodyStart)
    ensures old(b.generations) <= b.generations && fresh(b.generations - old(b.generations))
    ensures current in b.generations && current.buf == b.body
    ensures bytes + b.body.Unread() == From(b.body.data, b.bodyStart)
  {
    b.ResetBody();
    current := b.safeBody;
    assert current in b.generations && b.body.Unread() == From(b.body.data, b.bodyStart);
    hide From;
    bytes := UseAttempt(current, abandoned, plan);
  }

  /** The real objects over several attempts: the bytes an attempt gets are a prefix of the body from its start. */
  method ReadAttempts(b: RequestBody, plans: seq<seq<Use>>) returns (got: seq<seq<Byte>>)
    requires b.Valid() && b.body.seekable && !b.body.CannotSeek(b.bodyStart)
    modifies b, b.body, b.generations
    ensures |got| == |plans|
    ensures b.body == old(b.body) && b.bodyStart == old(b.bodyStart)
    ensures forall k | 0 <= k < |got| :: got[k] <= From(b.body.data, old(b.bodyStart))
    ensures got != [] && b.body.Unread() == [] ==> got[|got| - 1] == From(b.body.data, old(b.bodyStart))
  {
    got := [];
    var readers: seq<OffsetReader> := [];
    ghost var body := b.body;
    ghost var all := From(body.data, b.bodyStart);
    hide From;
    while |got| < |plans|
      invariant |got| <= |plans| && b.Valid() && b.body == body && b.bodyStart == old(b.bodyStart)
      invariant fresh(b.generations - old(b.generations))
      invariant forall r | r in readers :: r in b.generations && r.buf == body
      invariant forall k | 0 <= k < |got| :: got[k] <= all
      invariant got != [] && body.Unread() == [] ==> got[|got| - 1] == all
    {
      var current, bytes := ReadAttempt(b, readers, plans[|got|]);
      readers := readers + [current];
      got := got + [bytes];
    }
  }

  /** Every reader is open exactly if the state says so, and they share the body. */
  ghost predicate Mirrors(b: RequestBody, readers: seq<OffsetReader>, s: State)
    reads b, b.body, readers
  {
    && b.body.pos == s.pos && |readers| == |s.got| && (s.open.Some? ==> s.open.value < |readers|)
    && forall g | 0 <= g < |readers| ::
         readers[g].buf == b.body && readers[g] in b.generations && (readers[g].closed <==> s.open != Some(g))
         && forall h | 0 <= h < g :: readers[h] != readers[g]
  }

  method ResetOnObjects(b: RequestBody, readers: seq<OffsetReader>, got: seq<seq<Byte>>, ghost s: State)
    returns (readers': seq<OffsetReader>, got': seq<seq<Byte>>)
    requires b.Valid() && b.body.seekable && !b.body.CannotSeek(b.bodyStart)
    requires got == s.got && Mirrors(b, readers, s)
    modifies b, b.body, b.generations
    ensures b.Valid() && b.body == old(b.body) && b.bodyStart == old(b.bodyStart)
    ensures fresh(b.generations - old(b.generations))
    ensures var s' := Step(b.body.data, b.bodyStart, s, Reset);
            got' == s'.got && Mirrors(b, readers', s')
  {
    b.ResetBody();
    readers', got' := readers + [b.safeBody], got + [[]];
    hide From;
  }

  method ReadOnObjects(b: RequestBody, readers: seq<OffsetReader>, got: seq<seq<Byte>>, ghost s: State,
                       g: nat, size: nat, give: nat)
    returns (got': seq<seq<Byte>>)
    requires b.Valid() && b.bodyStart >= 0 && got == s.got && Mirrors(b, readers, s)
    modifies b.body
    ensures b.Valid()
    ensures var s' := Step(b.body.data, b.bodyStart, s, Read(g, size, give));
            got' == s'.got && Mirrors(b, readers, s')
  {
    hide From;
    got' := got;
    if g < |readers| {
      assert got[g] + [] == got[g];
      var p := readers[g].Read(size, give);
      got' := got[g := got[g] + p];
    }
  }

  method CloseOnObjects(b: RequestBody, readers: seq<OffsetReader>, ghost s: State, g: nat)
    requires b.Valid() && b.bodyStart >= 0 && Mirrors(b, readers, s)
    modifies b.generations
    ensures b.Valid()
    ensures Mirrors(b, readers, Step(b.body.data, b.bodyStart, s, Close(g)))
  {
    hide From;
    if g < |readers| {
      readers[g].Close();
    }
  }

  /**
   The real objects follow the state machine: over any schedule of resets, and of reads and closes by current or
   abandoned readers, each reader gets what the machine says, and is open exactly if it is there.
   */
  method RunOnObjects(b: RequestBody, ops: seq<Op>) returns (readers: seq<OffsetReader>, got: seq<seq<Byte>>)
    requires b.Valid() && b.body.seekable && !b.body.CannotSeek(b.bodyStart)
    modifies b, b.body, b.generations
    ensures b.body == old(b.body) && b.bodyStart == old(b.bodyStart)
    ensures var end := Run(b.body.data, b.bodyStart, State(old(b.body.pos), None, []), ops);
            got == end.got && Mirrors(b, readers, end)
  {
    readers, got := [], [];
    ghost var data, start := b.body.data, b.bodyStart;
    ghost var s := State(b.body.pos, None, []);
    ghost var begin := s;
    hide From, Run;
    for i := 0 to |ops|
      invariant b.Valid() && b.body == old(b.body) && b.bodyStart == old(b.bodyStart) == start
      invariant fresh(b.generations - old(b.generations))
      invariant got == s.got && Mirrors(b, readers, s)
      invariant Run(data, start, begin, ops) == Run(data, start, s, ops[i..])
    {
      RunUnfolds(data, start, s, ops, i);
      match ops[i] {
        case Reset =>
          readers, got := ResetOnObjects(b, readers, got, s);
        case Read(g, size, give) =>
          got := ReadOnObjects(b, readers, got, s, g, size, give);
        case Close(g) =>
          CloseOnObjects(b, readers, s, g);
      }
      s := Step(data, start, s, ops[i]);
    }
    RunEnds(data, start, s, ops);
  }

  lemma RunUnfolds(data: seq<Byte>, start: nat, s: State, ops: seq<Op>, i: nat)
    requires i < |ops|
    ensures Run(data, start, s, ops[i..]) == Run(data, start, Step(data, start, s, ops[i]), ops[i + 1..])
  {
    assert ops[i..][1..] == ops[i + 1..];
  }

  lemma RunEnds(data: seq<Byte>, start: nat, s: State, ops: seq<Op>)
    ensures Run(data, start, s, ops[|ops|..]) == s
  {
  }
}
