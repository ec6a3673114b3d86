/**
 The growable buffer that concurrent part downloads write into (aws/types.go). Each `WriteAt` runs under the
 buffer's lock, so any concurrent use is some order of whole writes.
 */
module WriteAtBuffers {
  import opened Prelude

  datatype Write = Write(pos: nat, data: seq<Byte>) {
    function End(): nat { pos + |data| }

    predicate Covers(i: int) { pos <= i < End() }

    function At(i: int): Byte
      requires Covers(i)
    {
      data[i - pos]
    }
  }

  /** A write into a byte sequence: what it does not cover stays, and a gap it leaves is zero. */
  function Written(s: seq<Byte>, w: Write): (t: seq<Byte>)
    ensures |t| == Max(|s|, w.End())
  {
    seq(Max(|s|, w.End()), i requires 0 <= i < Max(|s|, w.End()) =>
      if w.Covers(i) then w.At(i) else if i < |s| then s[i] else 0)
  }

  function WriteAll(s: seq<Byte>, ws: seq<Write>): seq<Byte>
    decreases |ws|
  {
    if ws == [] then s else WriteAll(Written(s, ws[0]), ws[1..])
  }

  // -------------------------------------------------------- independence

  /** Where two of the writes overlap they carry the same bytes; disjoint writes and repeated parts do. */
  ghost predicate Agree(ws: seq<Write>) {
    forall v, w, i | v in ws && w in ws && v.Covers(i) && w.Covers(i) :: v.At(i) == w.At(i)
  }

  ghost predicate PairwiseDisjoint(ws: seq<Write>) {
    forall j, k, i | 0 <= j < k < |ws| && ws[j].Covers(i) :: !ws[k].Covers(i)
  }

  lemma DisjointAgree(ws: seq<Write>)
    requires PairwiseDisjoint(ws)
    ensures Agree(ws)
  {
    forall v, w, i | v in ws && w in ws && v.Covers(i) && w.Covers(i)
      ensures v.At(i) == w.At(i)
    {
      var j :| 0 <= j < |ws| && ws[j] == v;
      var k :| 0 <= k < |ws| && ws[k] == w;
      assert !(j < k) && !(k < j);
    }
  }

  /** The furthest end of any write. */
  function LastEnd(ws: seq<Write>): (n: nat)
    ensures forall w | w in ws :: w.End() <= n
    ensures n > 0 ==> exists w | w in ws :: w.End() == n
  {
    if ws == [] then 0
    else
      var n := LastEnd(ws[1..]);
      assert ws == [ws[0]] + ws[1..];
      assert ws[0] in ws;
      Max(ws[0].End(), n)
  }

  lemma {:induction false} LengthOfAll(s: seq<Byte>, ws: seq<Write>)
    ensures |WriteAll(s, ws)| == Max(|s|, LastEnd(ws))
    decreases |ws|
  {
    if ws != [] {
      LengthOfAll(Written(s, ws[0]), ws[1..]);
    }
  }

  /** Every byte of the result is that of any write that covers it, or else what was there, or zero. */
  lemma {:induction false} ByteOfAll(s: seq<Byte>, ws: seq<Write>, i: nat)
    requires Agree(ws) && i < |WriteAll(s, ws)|
    ensures forall w | w in ws && w.Covers(i) :: WriteAll(s, ws)[i] == w.At(i)
    ensures (forall w | w in ws :: !w.Covers(i)) ==> WriteAll(s, ws)[i] == if i < |s| then s[i] else 0
    decreases |ws|
  {
    if ws != [] {
      var first, rest := ws[0], ws[1..];
      assert ws == [first] + rest && first in ws;
      assert forall w | w in rest :: w in ws;
      assert Agree(rest);
      var s' := Written(s, first);
      ByteOfAll(s', rest, i);
      LengthOfAll(s', rest);
      if first.Covers(i) {
        assert s'[i] == first.At(i);
        if w :| w in rest && w.Covers(i) {
          assert w.At(i) == first.At(i);
        }
      }
    }
  }

  /**
   The bytes do not depend on the order of the writes, nor on how often each is repeated: any two sequences of the
   same agreeing writes leave the same buffer, whatever it held before.
   */
  lemma OrderIndependent(s: seq<Byte>, ws: seq<Write>, vs: seq<Write>)
    requires forall w :: w in ws <==> w in vs
    requires Agree(ws)
    ensures WriteAll(s, ws) == WriteAll(s, vs)
  {
    LengthOfAll(s, ws);
    LengthOfAll(s, vs);
    assert LastEnd(ws) == LastEnd(vs);
    forall i | 0 <= i < |WriteAll(s, ws)|
      ensures WriteAll(s, ws)[i] == WriteAll(s, vs)[i]
    {
      ByteOfAll(s, ws, i);
      ByteOfAll(s, vs, i);
      if w :| w in ws && w.Covers(i) {
        assert WriteAll(s, ws)[i] == w.At(i) == WriteAll(s, vs)[i];
      }
    }
  }

  /** Any permutation of pairwise disjoint writes produces the same bytes. */
  lemma DisjointWritesCommute(s: seq<Byte>, ws: seq<Write>, vs: seq<Write>)
    requires PairwiseDisjoint(ws) && multiset(ws) == multiset(vs)
    ensures WriteAll(s, ws) == WriteAll(s, vs)
  {
    DisjointAgree(ws);
    forall w
      ensures w in ws <==> w in vs
    {
      assert w in ws <==> w in multiset(ws);
      assert w in vs <==> w in multiset(vs);
    }
    OrderIndependent(s, ws, vs);
  }

  // --------------------------------------------------------------- tiling

  function Concat(parts: seq<seq<Byte>>): seq<Byte> {
    if parts == [] then [] else parts[0] + Concat(parts[1..])
  }

  /** The parts written one after the other from `at` on. */
  function Tiles(parts: seq<seq<Byte>>, at: nat): (ws: seq<Write>)
    ensures forall w | w in ws :: w.pos >= at
    decreases |parts|
  {
    if parts == [] then [] else [Write(at, parts[0])] + Tiles(parts[1..], at + |parts[0]|)
  }

  lemma {:induction false} TilesAgree(parts: seq<seq<Byte>>, at: nat)
    ensures Agree(Tiles(parts, at))
    decreases |parts|
  {
    if parts != [] {
      TilesAgree(parts[1..], at + |parts[0]|);
    }
  }

  lemma AppendIsConcat(s: seq<Byte>, data: seq<Byte>)
    ensures Written(s, Write(|s|, data)) == s + data
  {
  }

  lemma WriteFirst(s: seq<Byte>, first: Write, rest: seq<Write>)
    ensures WriteAll(s, [first] + rest) == WriteAll(Written(s, first), rest)
  {
    assert ([first] + rest)[1..] == rest;
  }

  lemma {:induction false} TilesConcatenate(s: seq<Byte>, parts: seq<seq<Byte>>)
    ensures WriteAll(s, Tiles(parts, |s|)) == s + Concat(parts)
    decreases |parts|
  {
    if parts == [] {
      assert s + [] == s;
    } else {
      var data, others := parts[0], parts[1..];
      var rest := Tiles(others, |s + data|);
      assert Tiles(parts, |s|) == [Write(|s|, data)] + rest;
      assert Concat(parts) == data + Concat(others);
      hide *;
      WriteFirst(s, Write(|s|, data), rest);
      AppendIsConcat(s, data);
      TilesConcatenate(s + data, others);
      assert s + data + Concat(others) == s + (data + Concat(others));
    }
  }

  /** Parts downloaded in any order, some perhaps twice, assemble to their concatenation. */
  lemma PartsAssemble(parts: seq<seq<Byte>>, ws: seq<Write>)
    requires forall w :: w in Tiles(parts, 0) <==> w in ws
    ensures WriteAll([], ws) == Concat(parts)
  {
    TilesAgree(parts, 0);
    OrderIndependent([], Tiles(parts, 0), ws);
    TilesConcatenate([], parts);
    assert [] + Concat(parts) == Concat(parts);
  }

  // ----------------------------------------------------------------- cost

  /** Sizes of a buffer, with the bytes that reallocations copied and their number. */
  datatype Cost = Cost(cap: nat, len: nat, copied: nat, reallocations: nat)

  /** Go's `int64(coeff * float64(n))`, without the rounding of the product. */
  function Scaled(coeff: real, n: nat): (cap: nat)
    requires coeff >= 1.0
    ensures cap >= n
    ensures coeff >= 2.0 ==> cap >= 2 * n
  {
    ScaledAtLeast(coeff, n);
    (coeff * n as real).Floor
  }

  lemma ScaledAtLeast(coeff: real, n: nat)
    requires coeff >= 1.0
    ensures (coeff * n as real).Floor >= n
    ensures coeff >= 2.0 ==> (coeff * n as real).Floor >= 2 * n
  {
    assert coeff * n as real >= n as real;
    if coeff >= 2.0 {
      assert coeff * n as real >= 2.0 * n as real == (2 * n) as real;
    }
  }

  function EffectiveCoeff(coeff: real): (c: real)
    ensures c >= 1.0
  {
    if coeff < 1.0 then 1.0 else coeff
  }

  function Grow(c: Cost, coeff: real, end: nat): Cost {
    if c.len >= end then c
    else if c.cap >= end then c.(len := end)
    else Cost(Scaled(EffectiveCoeff(coeff), end), end, c.copied + c.len, c.reallocations + 1)
  }

  function GrowAll(c: Cost, coeff: real, ends: seq<nat>): Cost
    decreases |ends|
  {
    if ends == [] then c else GrowAll(Grow(c, coeff, ends[0]), coeff, ends[1..])
  }

  /** The ends of a run of writes. */
  function Ends(ws: seq<Write>): seq<nat> { seq(|ws|, i requires 0 <= i < |ws| => ws[i].End()) }

  /** A coefficient that a reallocation raised to 1 grows the buffer as before. */
  lemma EffectiveCoeffGrowsAlike(c: Cost, coeff: real, end: nat)
    ensures Grow(c, EffectiveCoeff(coeff), end) == Grow(c, coeff, end)
    ensures EffectiveCoeff(EffectiveCoeff(coeff)) == EffectiveCoeff(coeff)
  {
  }

  /** The first of a run of writes, and what is left of the run. */
  lemma FirstWrite(s: seq<Byte>, c: Cost, coeff: real, ws: seq<Write>)
    ensures ws == [] ==> WriteAll(s, ws) == s && GrowAll(c, coeff, Ends(ws)) == c
    ensures ws != [] ==>
              && WriteAll(s, ws) == WriteAll(Written(s, ws[0]), ws[1..])
              && GrowAll(c, coeff, Ends(ws)) == GrowAll(Grow(c, coeff, ws[0].End()), coeff, Ends(ws[1..]))
  {
    if ws != [] {
      assert Ends(ws)[0] == ws[0].End() && Ends(ws)[1..] == Ends(ws[1..]);
    }
  }

  predicate Amortized(c: Cost) {
    && c.len <= c.cap && c.copied <= c.cap
    && (c.copied == 0 || c.copied < 2 * c.len)
    && Pow2(c.reallocations) <= c.len + 1
    && Pow2(c.reallocations + 1) <= c.cap + 2
  }

  lemma {:induction false} RunAmortized(c: Cost, coeff: real, ends: seq<nat>)
    requires coeff >= 2.0 && Amortized(c)
    ensures Amortized(GrowAll(c, coeff, ends))
    decreases |ends|
  {
    if ends != [] {
      RunAmortized(Grow(c, coeff, ends[0]), coeff, ends[1..]);
    }
  }

  lemma AmortizedMeans(c: Cost)
    requires Amortized(c)
    ensures (c.copied == 0 || c.copied < 2 * c.len) && Pow2(c.reallocations) <= c.len + 1
  {
  }

  /**
   With a growth coefficient of at least 2, over any run of writes: the bytes copied by reallocations stay below
   twice the final length, and two to the number of reallocations is at most the final length plus one.
   */
  lemma DoublingIsAmortized(cap: nat, len: nat, coeff: real, ends: seq<nat>)
    requires len <= cap && coeff >= 2.0
    ensures var c := GrowAll(Cost(cap, len, 0, 0), coeff, ends);
            (c.copied == 0 || c.copied < 2 * c.len) && Pow2(c.reallocations) <= c.len + 1
  {
    assert Pow2(1) == 2 * Pow2(0);
    RunAmortized(Cost(cap, len, 0, 0), coeff, ends);
  }

  /** Ends of single bytes appended after `n` others. */
  function Appends(n: nat, count: nat): seq<nat> {
    seq(count, i requires 0 <= i => n + i + 1)
  }

  /** With the default coefficient the cost is quadratic: appending byte by byte copies everything each time. */
  lemma {:induction false} DefaultGrowthIsQuadratic(n: nat, count: nat, copied: nat, r: nat)
    ensures var c := GrowAll(Cost(n, n, copied, r), 0.0, Appends(n, count));
            2 * (c.copied - copied) == count * (2 * n + count - 1)
    decreases count
  {
    if count > 0 {
      assert Scaled(1.0, n + 1) == n + 1;
      assert Appends(n, count)[1..] == Appends(n + 1, count - 1);
      DefaultGrowthIsQuadratic(n + 1, count - 1, copied + n, r + 1);
      assert Grow(Cost(n, n, copied, r), 0.0, n + 1) == Cost(n + 1, n + 1, copied + n, r + 1);
      hide *;
      TriangleStep(n, count - 1);
    }
  }

  lemma TriangleStep(n: int, m: int)
    ensures (m + 1) * (2 * n + m) == 2 * n + m * (2 * (n + 1) + m - 1)
  {
  }

  // --------------------------------------------------------------- buffer

  class WriteAtBuffer {
    /** The backing array; the slice `buf` of the source is its first `len` bytes. */
    var buf: array<Byte>
    var len: nat
    var growthCoeff: real
    ghost var copied: nat
    ghost var reallocations: nat

    ghost predicate Valid()
      reads this
    {
      len <= buf.Length
    }

    /** The spare capacity is zero: what growing in place would expose. */
    ghost predicate SpareIsZero()
      requires Valid()
      reads this, buf
    {
      forall i | len <= i < buf.Length :: buf[i] == 0
    }

    ghost function Costs(): Cost
      reads this
    {
      Cost(buf.Length, len, copied, reallocations)
    }

    /** `NewWriteAtBuffer`: the buffer works in the array it is given. */
    constructor (buf: array<Byte>, len: nat)
      requires len <= buf.Length
      ensures Valid() && this.buf == buf && this.len == len && growthCoeff == 0.0
      ensures Costs() == Cost(buf.Length, len, 0, 0)
    {
      this.buf, this.len, growthCoeff := buf, len, 0.0;
      copied, reallocations := 0, 0;
    }

    function Bytes(): (s: seq<Byte>)
      requires Valid()
      reads this, buf
      ensures |s| == len
    {
      buf[..len]
    }

    /**
     `WriteAt`. On zero spare capacity the bytes are those of `Written`; in general the gap before the write shows
     what the spare capacity held, unless the write reallocates.
     */
    method WriteAt(p: seq<Byte>, pos: nat) returns (n: nat)
      requires Valid()
      modifies this, buf
      ensures Valid() && n == |p| && (buf == old(buf) || fresh(buf))
      ensures old(SpareIsZero()) ==> SpareIsZero() && Bytes() == Written(old(Bytes()), Write(pos, p))
      ensures len == Max(old(len), pos + |p|)
      ensures forall i | 0 <= i < len ::
                Bytes()[i] == if pos <= i < pos + |p| then p[i - pos]
                              else if i < old(len) then old(buf[i])
                              else if pos + |p| <= old(buf.Length) then old(buf[i]) else 0
      ensures Costs() == Grow(old(Costs()), old(growthCoeff), pos + |p|)
      ensures growthCoeff == if old(buf.Length) < pos + |p| then EffectiveCoeff(old(growthCoeff)) else old(growthCoeff)
    {
      Extend(pos + |p|);
      hide Grow;
      ghost var spare := SpareIsZero();
      forall i | 0 <= i < |p| {
        buf[pos + i] := p[i];
      }
      assert spare ==> SpareIsZero();
      return |p|;
    }

    /** The first half of `WriteAt`: room for `expLen` bytes, by reslicing or by reallocation. */
    method Extend(expLen: nat)
      requires Valid()
      modifies this
      ensures Valid() && (buf == old(buf) || fresh(buf))
      ensures len == Max(old(len), expLen)
      ensures forall i | 0 <= i < len ::
                buf[i] == if i < old(len) || expLen <= old(buf.Length) then old(buf)[i] else 0
      ensures old(SpareIsZero()) ==> SpareIsZero() && forall i | old(len) <= i < len :: buf[i] == 0
      ensures Costs() == Grow(old(Costs()), old(growthCoeff), expLen)
      ensures growthCoeff == if old(buf.Length) < expLen then EffectiveCoeff(old(growthCoeff)) else old(growthCoeff)
    {
      if len < expLen {
        if buf.Length < expLen {
          if growthCoeff < 1.0 {
            growthCoeff := 1.0;
          }
          var newBuf := new Byte[Scaled(growthCoeff, expLen)](_ => 0);
          forall i | 0 <= i < len {
            newBuf[i] := buf[i];
          }
          copied, reallocations := copied + len, reallocations + 1;
          buf := newBuf;
        }
        len := expLen;
      }
    }

    /** One of a run of writes, on a buffer whose coefficient is `coeff` or what a reallocation made of it. */
    method WriteOne(w: Write, ghost coeff: real)
      requires Valid() && (growthCoeff == coeff || growthCoeff == EffectiveCoeff(coeff))
      modifies this, buf
      ensures Valid() && (buf == old(buf) || fresh(buf))
      ensures growthCoeff == coeff || growthCoeff == EffectiveCoeff(coeff)
      ensures old(SpareIsZero()) ==> SpareIsZero() && Bytes() == Written(old(Bytes()), w)
      ensures Costs() == Grow(old(Costs()), coeff, w.End())
    {
      hide Written, Grow, EffectiveCoeff;
      EffectiveCoeffGrowsAlike(Costs(), coeff, w.End());
      var _ := WriteAt(w.data, w.pos);
      assert Write(w.pos, w.data) == w;
    }

    /** A run of writes, with what its reallocations cost; a coefficient of at least 2 makes that linear. */
    method WriteInTurn(ws: seq<Write>)
      requires Valid()
      modifies this, buf
      ensures Valid()
      ensures old(SpareIsZero()) ==> SpareIsZero() && Bytes() == WriteAll(old(Bytes()), ws)
      ensures Costs() == GrowAll(old(Costs()), old(growthCoeff), Ends(ws))
      ensures old(growthCoeff) >= 2.0 && old(Amortized(Costs())) ==>
                && (copied == 0 || copied < 2 * len) && Pow2(reallocations) <= len + 1
    {
      var i := 0;
      ghost var clean, s, c, coeff := SpareIsZero(), Bytes(), Costs(), growthCoeff;
      hide Grow, GrowAll, Written, WriteAll, EffectiveCoeff, Ends, SpareIsZero, Amortized, Pow2;
      while i < |ws|
        invariant 0 <= i <= |ws| && Valid() && (buf == old(buf) || fresh(buf))
        invariant clean ==> SpareIsZero() && WriteAll(s, ws) == WriteAll(Bytes(), ws[i..])
        invariant growthCoeff == coeff || growthCoeff == EffectiveCoeff(coeff)
        invariant GrowAll(c, coeff, Ends(ws)) == GrowAll(Costs(), coeff, Ends(ws[i..]))
      {
        FirstWrite(Bytes(), Costs(), coeff, ws[i..]);
        WriteOne(ws[i], coeff);
        assert ws[i..][1..] == ws[i + 1..];
        i := i + 1;
      }
      FirstWrite(Bytes(), Costs(), coeff, ws[i..]);
      if coeff >= 2.0 && Amortized(c) {
        RunAmortized(c, coeff, Ends(ws));
        AmortizedMeans(Costs());
      }
    }
  }
}
