/** Sliding the used chunks of the heap down to its start, in order, with what they hold. */
module Compacting {
  import opened Basics
  import opened ChunkMap
  import opened ChunkList
  import opened FreeLists
  import opened ChunkSteps
  import opened Combining
  import opened Allocating
  import opened Division

  /** The used chunks one right behind the other. */
  function Slid(cs: seq<Chunk>): seq<Chunk> {
    if cs == [] then []
    else
      var c := cs[|cs| - 1];
      var init := cs[..|cs| - 1];
      if c.used then Slid(init) + [Chunk(UsedBlocks(init), c.size, true)] else Slid(init)
  }

  /** The whole heap after compaction: one free chunk behind the used ones. */
  function Packed(cs: seq<Chunk>, n: nat): seq<Chunk>
    requires 0 < |cs| && UsedBlocks(cs[..|cs| - 1]) < n
  {
    var used := UsedBlocks(cs[..|cs| - 1]);
    Slid(cs[..|cs| - 1]) + PackedTail(used, n)
  }

  ghost predicate Inside(cs: seq<Chunk>, n: nat) {
    forall j :: 0 <= j < |cs| ==> cs[j].End() <= n
  }

  /** What the used chunks hold, in order. */
  ghost function Contents(cs: seq<Chunk>, memory: seq<int>): seq<seq<int>>
    requires Inside(cs, |memory|)
  {
    if cs == [] then []
    else
      var c := cs[|cs| - 1];
      var init := cs[..|cs| - 1];
      if c.used then Contents(init, memory) + [memory[c.start..c.End()]] else Contents(init, memory)
  }

  lemma AllInside(cs: seq<Chunk>, n: nat)
    requires Tiled(cs, n)
    ensures Inside(cs, n)
  {
    forall j | 0 <= j < |cs|
      ensures cs[j].End() <= n
    {
      Within(cs, n, j);
    }
  }

  // ---- one chunk at a time --------------------------------------------------------------------------------------

  lemma BlocksSnoc(cs: seq<Chunk>, j: nat)
    requires j < |cs|
    ensures UsedBlocks(cs[..j + 1]) == UsedBlocks(cs[..j]) + if cs[j].used then cs[j].size else 0
  {
    assert cs[..j + 1] == cs[..j] + [cs[j]];
    UsedBlocksConcat(cs[..j], [cs[j]]);
    assert [cs[j]][1..] == [];
  }

  lemma SlidSnoc(cs: seq<Chunk>, j: nat)
    requires j < |cs|
    ensures Slid(cs[..j + 1]) == if cs[j].used then Slid(cs[..j]) + [Chunk(UsedBlocks(cs[..j]), cs[j].size, true)]
      else Slid(cs[..j])
  {
    assert cs[..j + 1][..j] == cs[..j];
  }

  lemma ContentsSnoc(cs: seq<Chunk>, j: nat, memory: seq<int>)
    requires Inside(cs, |memory|) && j < |cs|
    ensures Contents(cs[..j + 1], memory) ==
      if cs[j].used then Contents(cs[..j], memory) + [memory[cs[j].start..cs[j].End()]] else Contents(cs[..j], memory)
  {
    assert cs[..j + 1][..j] == cs[..j];
  }

  /** No more blocks are used than there are; fewer, once one was free. */
  lemma {:induction false} BlocksWithin(cs: seq<Chunk>, n: nat, j: nat)
    requires Tiled(cs, n) && j < |cs|
    ensures UsedBlocks(cs[..j]) <= cs[j].start
    ensures (exists i :: 0 <= i < j && !cs[i].used) <==> UsedBlocks(cs[..j]) < cs[j].start
    decreases j
  {
    if j > 0 {
      BlocksWithin(cs, n, j - 1);
      BlocksSnoc(cs, j - 1);
      assert cs[j - 1 + 1].start == cs[j - 1].End() && 0 < cs[j - 1].size;
    }
  }

  lemma {:induction false} SlidShape(cs: seq<Chunk>, n: nat, j: nat)
    requires Tiled(cs, n) && j < |cs|
    ensures var s := Slid(cs[..j]);
      && (forall i :: 0 <= i < |s| ==> s[i].used && 0 < s[i].size && s[i].End() <= UsedBlocks(cs[..j]))
      && (forall i :: 0 <= i < |s| - 1 ==> s[i + 1].start == s[i].End())
      && (s != [] ==> s[|s| - 1].End() == UsedBlocks(cs[..j]))
      && (0 < j ==> s != [] && s[0] == Chunk(0, 1, true))
      && UsedBlocks(s) == UsedBlocks(cs[..j])
    decreases j
  {
    if j > 0 {
      SlidShape(cs, n, j - 1);
      SlidSnoc(cs, j - 1);
      BlocksSnoc(cs, j - 1);
      var s, c := Slid(cs[..j - 1]), Chunk(UsedBlocks(cs[..j - 1]), cs[j - 1].size, true);
      UsedBlocksConcat(s, [c]);
      assert [c][1..] == [];
    }
  }

  /** As long as all chunks are used they are in place. */
  lemma {:induction false} SlidPrefix(cs: seq<Chunk>, n: nat, j: nat)
    requires Tiled(cs, n) && j < |cs| && forall i :: 0 <= i < j ==> cs[i].used
    ensures Slid(cs[..j]) == cs[..j] && UsedBlocks(cs[..j]) == cs[j].start
    decreases j
  {
    BlocksWithin(cs, n, j);
    if j > 0 {
      SlidPrefix(cs, n, j - 1);
      SlidSnoc(cs, j - 1);
    }
  }

  // ---- the state between two moves --------------------------------------------------------------------------------

  /** The chunks below j have been slid down; those from j on are as they were. */
  ghost predicate Sliding(cs: seq<Chunk>, m0: seq<Byte>, memory0: seq<int>, j: nat, m: seq<Byte>, memory: seq<int>) {
    && Tiled(cs, |m0|) && AllMarked(m0, cs) && |m| == |m0| == |memory0| == |memory| && j < |cs|
    && Inside(cs, |m0|) && Inside(Slid(cs[..j]), |m0|) && UsedBlocks(cs[..j]) <= cs[j].start
    && (forall b :: cs[j].start <= b < |m| ==> m[b] == m0[b] && memory[b] == memory0[b])
    && AllMarked(m, Slid(cs[..j]))
    && Contents(Slid(cs[..j]), memory) == Contents(cs[..j], memory0)
  }

  /** What can be read at chunk j. */
  lemma SlidingRead(cs: seq<Chunk>, m0: seq<Byte>, memory0: seq<int>, j: nat, m: seq<Byte>, memory: seq<int>)
    requires Sliding(cs, m0, memory0, j, m, memory)
    ensures SizeAtOk(m, cs[j].start) && SizeAt(m, cs[j].start) == cs[j].size
    ensures (IsUsedByte(m[cs[j].start]) <==> cs[j].used)
    ensures cs[j].End() <= |m| && UsedBlocks(cs[..j]) <= cs[j].start && (cs[j].start == |m| - 1 <==> j == |cs| - 1)
    ensures j + 1 < |cs| ==> cs[j + 1].start == cs[j].End()
    ensures Tiled(cs, |m0|)
  {
    Within(cs, |m0|, j);
    ReadChunk(m0, cs, j);
    HeaderElsewhere(m0, m, cs[j].start, cs[j].size, cs[j].used);
    HeaderReads(m, cs[j].start, cs[j].size, cs[j].used);
  }

  /** At the first free chunk nothing has moved yet. */
  lemma SlidingStart(cs: seq<Chunk>, m: seq<Byte>, memory: seq<int>, j: nat)
    requires Tiled(cs, |m|) && AllMarked(m, cs) && |memory| == |m| && j < |cs| && forall i :: 0 <= i < j ==> cs[i].used
    ensures Sliding(cs, m, memory, j, m, memory) && UsedBlocks(cs[..j]) == cs[j].start
  {
    AllInside(cs, |m|);
    SlidPrefix(cs, |m|, j);
  }

  lemma SlidingPast(cs: seq<Chunk>, m0: seq<Byte>, memory0: seq<int>, j: nat, m: seq<Byte>, memory: seq<int>)
    requires Sliding(cs, m0, memory0, j, m, memory) && !cs[j].used
    ensures j + 1 < |cs| && Sliding(cs, m0, memory0, j + 1, m, memory) && UsedBlocks(cs[..j + 1]) == UsedBlocks(cs[..j])
  {
    hide Marked;
    assert cs[j + 1].start == cs[j].End();
    SlidSnoc(cs, j);
    BlocksSnoc(cs, j);
    ContentsSnoc(cs, j, memory0);
  }

  lemma {:induction false} ContentsElsewhere(cs: seq<Chunk>, memory: seq<int>, memory': seq<int>, f: nat)
    requires |memory'| == |memory| && Inside(cs, f) && f <= |memory|
    requires forall b :: 0 <= b < f ==> memory'[b] == memory[b]
    ensures Inside(cs, |memory|) && Contents(cs, memory') == Contents(cs, memory)
    decreases |cs|
  {
    if cs != [] {
      ContentsElsewhere(cs[..|cs| - 1], memory, memory', f);
      var c := cs[|cs| - 1];
      assert memory'[c.start..c.End()] == memory[c.start..c.End()];
    }
  }

  lemma MarksElsewhere(cs: seq<Chunk>, m: seq<Byte>, m': seq<Byte>, f: nat)
    requires AllMarked(m, cs) && |m'| == |m| && Inside(cs, f) && f <= |m| && forall b :: 0 <= b < f ==> m'[b] == m[b]
    ensures AllMarked(m', cs)
  {
    hide Marked;
    forall j | 0 <= j < |cs|
      ensures Marked(m', cs[j].start, cs[j].size, cs[j].used)
    {
      MarkedElsewhere(m, m', cs[j].start, cs[j].size, cs[j].used);
    }
  }

  /** Chunk j has been moved down and marked. */
  lemma SlidingOn(cs: seq<Chunk>, m0: seq<Byte>, memory0: seq<int>, j: nat, m: seq<Byte>, memory: seq<int>,
                  m': seq<Byte>, memory': seq<int>)
    requires Sliding(cs, m0, memory0, j, m, memory) && cs[j].used && j < |cs| - 1 && |m'| == |memory'| == |m|
    requires var f := UsedBlocks(cs[..j]);
      && (forall b :: 0 <= b < |m| && !(f <= b < f + cs[j].size) ==> m'[b] == m[b] && memory'[b] == memory[b])
      && Marked(m', f, cs[j].size, true)
      && f + cs[j].size <= |m| && cs[j].End() <= |m| && memory'[f..f + cs[j].size] == memory[cs[j].start..cs[j].End()]
    ensures Sliding(cs, m0, memory0, j + 1, m', memory') && UsedBlocks(cs[..j + 1]) == UsedBlocks(cs[..j]) + cs[j].size
  {
    hide Marked, AllMarked, Slid, UsedBlocks, Contents;
    var f, s := UsedBlocks(cs[..j]), Slid(cs[..j]);
    var d := Chunk(f, cs[j].size, true);
    SlidSnoc(cs, j);
    BlocksSnoc(cs, j);
    SlidShape(cs, |m0|, j);
    SlidShape(cs, |m0|, j + 1);
    assert cs[j + 1].start == cs[j].End();
    Within(cs, |m0|, j);
    MarksElsewhere(s, m, m', f);
    MarkedSnoc(m', s, d);
    ContentsElsewhere(s, memory, memory', f);
    SlidContents(cs, memory0, j, memory, memory');
  }

  lemma MarkedSnoc(m: seq<Byte>, s: seq<Chunk>, d: Chunk)
    requires AllMarked(m, s) && Marked(m, d.start, d.size, d.used)
    ensures AllMarked(m, s + [d])
  {}

  lemma SlidContents(cs: seq<Chunk>, memory0: seq<int>, j: nat, memory: seq<int>, memory': seq<int>)
    requires |memory| == |memory0| == |memory'| && Inside(cs, |memory|) && j < |cs| && cs[j].used
    requires UsedBlocks(cs[..j]) <= cs[j].start
    requires Inside(Slid(cs[..j]), |memory|) && Contents(Slid(cs[..j]), memory') == Contents(cs[..j], memory0)
    requires forall b :: cs[j].start <= b < |memory| ==> memory[b] == memory0[b]
    requires memory'[UsedBlocks(cs[..j])..UsedBlocks(cs[..j]) + cs[j].size] == memory[cs[j].start..cs[j].End()]
    ensures Inside(Slid(cs[..j + 1]), |memory|)
    ensures Contents(Slid(cs[..j + 1]), memory') == Contents(cs[..j + 1], memory0)
  {
    hide UsedBlocks, Slid, Contents;
    var f, s := UsedBlocks(cs[..j]), Slid(cs[..j]);
    SlidSnoc(cs, j);
    ContentsSnoc(cs, j, memory0);
    ContentsMore(s, Chunk(f, cs[j].size, true), memory');
    assert memory[cs[j].start..cs[j].End()] == memory0[cs[j].start..cs[j].End()];
  }

  lemma ContentsMore(s: seq<Chunk>, d: Chunk, memory: seq<int>)
    requires Inside(s, |memory|) && d.End() <= |memory|
    ensures Inside(s + [d], |memory|)
    ensures Contents(s + [d], memory) == if d.used then Contents(s, memory) + [memory[d.start..d.End()]]
      else Contents(s, memory)
  {
    var t := s + [d];
    assert t[..|t| - 1] == s && t[|t| - 1] == d;
  }

  // ---- the end ------------------------------------------------------------------------------------------------------

  lemma PackedOk(cs: seq<Chunk>, n: nat)
    requires Tiled(cs, n) && exists i :: 0 <= i < |cs| - 1 && !cs[i].used
    ensures UsedBlocks(cs[..|cs| - 1]) < n - 1 && Tiled(Packed(cs, n), n) && Merged(Packed(cs, n))
    ensures BigMerged(Packed(cs, n))
    ensures UsedBlocks(Packed(cs, n)) == UsedBlocks(cs)
  {
    hide UsedBlocks, Slid, Tiled, Merged, BigMerged;
    TiledEnds(cs, n);
    var j := |cs| - 1;
    BlocksWithin(cs, n, j);
    SlidShape(cs, n, j);
    PackedTiled(Slid(cs[..j]), UsedBlocks(cs[..j]), n);
    BlocksSnoc(cs, j);
    assert cs[..j + 1] == cs;
    UsedBlocksConcat(Slid(cs[..j]), PackedTail(UsedBlocks(cs[..j]), n));
    TailBlocks(UsedBlocks(cs[..j]), n);
  }

  lemma TiledEnds(cs: seq<Chunk>, n: nat)
    requires Tiled(cs, n)
    ensures |cs| >= 3 && cs[|cs| - 1] == Chunk(n - 1, 1, true)
  {}

  function PackedTail(used: nat, n: nat): seq<Chunk>
    requires used < n
  {
    [Chunk(used, n - 1 - used, false), Chunk(n - 1, 1, true)]
  }

  lemma PackedTiled(s: seq<Chunk>, used: nat, n: nat)
    requires used < n - 1 && s != [] && s[0] == Chunk(0, 1, true) && s[|s| - 1].End() == used
    requires forall i :: 0 <= i < |s| ==> s[i].used && 0 < s[i].size
    requires forall i :: 0 <= i < |s| - 1 ==> s[i + 1].start == s[i].End()
    ensures var r := s + PackedTail(used, n);
      Tiled(r, n) && Merged(r) && BigMerged(r)
  {
    var r := s + PackedTail(used, n);
    assert r[|s|] == Chunk(used, n - 1 - used, false) && r[|s| + 1] == Chunk(n - 1, 1, true);
    forall i | 0 <= i < |r| - 1
      ensures r[i + 1].start == r[i].End() && (r[i].used || r[i + 1].used)
    {
      if i < |s| - 1 { assert s[i + 1].start == s[i].End(); }
    }
  }

  lemma TailBlocks(used: nat, n: nat)
    requires used < n - 1
    ensures UsedBlocks(PackedTail(used, n)) == 1
  {
    var t := PackedTail(used, n);
    var e: seq<Chunk> := [];
    assert t[1..] == [t[1]] && [t[1]][1..] == e;
    assert UsedBlocks([t[1]]) == 1 + UsedBlocks(e);
  }

  /** The one free chunk is the only one on the lists. */
  lemma PackedListed(cs: seq<Chunk>, n: nat, empty: Lists)
    requires Tiled(cs, n) && (exists i :: 0 <= i < |cs| - 1 && !cs[i].used) && empty == NoLists()
    ensures var used := UsedBlocks(cs[..|cs| - 1]);
      used < n - 1 && empty.Shape() && ListsOk(Added(empty, used, n - 1 - used), Packed(cs, n), {})
  {
    PackedOk(cs, n);
    var used, r, j := UsedBlocks(cs[..|cs| - 1]), Packed(cs, n), |cs| - 1;
    SlidShape(cs, n, j);
    var l, k := Added(empty, used, n - 1 - used), |Slid(cs[..j])|;
    assert r[k] == Chunk(used, n - 1 - used, false);
    forall i | 0 <= i < |r| && i != k
      ensures r[i].used
    {}
    OneListed(l, r, k);
  }

  /** All blocks are used if and only if no chunk is free. */
  lemma FullOrNot(cs: seq<Chunk>, size: nat, bs: nat)
    requires Tiled(cs, size + 2) && 0 < bs
    ensures (UsedBlocks(cs) - 2) * bs == size * bs <==> !exists i :: 0 <= i < |cs| - 1 && !cs[i].used
    ensures UsedBlocks(cs[..|cs| - 1]) > 0
  {
    hide Tiled, UsedBlocks;
    var j := |cs| - 1;
    TiledEnds(cs, size + 2);
    BlocksWithin(cs, size + 2, j);
    BlocksSnoc(cs, j);
    assert cs[..j + 1] == cs;
    ProductOrder(UsedBlocks(cs) - 2, size, bs);
    FirstBlocks(cs, size + 2);
  }

  lemma FirstBlocks(cs: seq<Chunk>, n: nat)
    requires Tiled(cs, n)
    ensures UsedBlocks(cs[..|cs| - 1]) > 0
  {
    SlidShape(cs, n, |cs| - 1);
    assert Slid(cs[..|cs| - 1])[0].End() <= UsedBlocks(cs[..|cs| - 1]);
  }

  lemma SlidingInside(cs: seq<Chunk>, m0: seq<Byte>, memory0: seq<int>, m: seq<Byte>, memory: seq<int>)
    requires cs != [] && Sliding(cs, m0, memory0, |cs| - 1, m, memory)
    ensures Inside(cs, |memory0|) && |memory0| == |m|
  {}

  /** There is room for chunk j where it goes. */
  lemma SlidingRoom(cs: seq<Chunk>, m0: seq<Byte>, memory0: seq<int>, j: nat, m: seq<Byte>, memory: seq<int>)
    requires Sliding(cs, m0, memory0, j, m, memory) && j < |cs| - 1 && UsedBlocks(cs[..j]) > 0
    ensures 0 < cs[j].size && UsedBlocks(cs[..j]) + cs[j].size <= cs[j].End() < |m| && cs[j].size < |m| - 1
  {
    Within(cs, |m0|, j);
  }

  lemma SlidingEnd(cs: seq<Chunk>, m0: seq<Byte>, memory0: seq<int>, m: seq<Byte>, memory: seq<int>, m': seq<Byte>)
    requires cs != [] && Sliding(cs, m0, memory0, |cs| - 1, m, memory) && |m'| == |m|
    requires exists i :: 0 <= i < |cs| - 1 && !cs[i].used
    requires var used, n := UsedBlocks(cs[..|cs| - 1]), |m|;
      used < n - 1 && Marked(m', used, n - 1 - used, false) && forall b :: 0 <= b < n && !(used <= b < n - 1) ==>
        m'[b] == m[b]
    ensures UsedBlocks(cs[..|cs| - 1]) < |m| && AllMarked(m', Packed(cs, |m|)) && Inside(Packed(cs, |m|), |m|)
    ensures Contents(Packed(cs, |m|), memory) == Contents(cs, memory0)
  {
    hide Marked, AllMarked, UsedBlocks, Merged, BigMerged;
    var n, j := |m|, |cs| - 1;
    PackedOk(cs, n);
    AllInside(Packed(cs, n), n);
    var used, s := UsedBlocks(cs[..j]), Slid(cs[..j]);
    SlidShape(cs, n, j);
    MarksElsewhere(s, m, m', used);
    MarkedSnoc(m', s, Chunk(used, n - 1 - used, false));
    LastSentinel(cs, m0, m');
    MarkedSnoc(m', s + [Chunk(used, n - 1 - used, false)], Chunk(n - 1, 1, true));
    assert Packed(cs, n) == s + [Chunk(used, n - 1 - used, false)] + [Chunk(n - 1, 1, true)];
    PackedContents(cs, memory0, memory);
  }

  lemma LastSentinel(cs: seq<Chunk>, m0: seq<Byte>, m': seq<Byte>)
    requires Tiled(cs, |m0|) && AllMarked(m0, cs) && |m'| == |m0| && m'[|m0| - 1] == m0[|m0| - 1]
    ensures Marked(m', |m0| - 1, 1, true)
  {
    var c := cs[|cs| - 1];
    assert Marked(m0, c.start, c.size, c.used);
    MarkedElsewhere(m0, m', c.start, c.size, c.used);
  }

  lemma PackedContents(cs: seq<Chunk>, memory0: seq<int>, memory: seq<int>)
    requires |memory| == |memory0| && Tiled(cs, |memory|) && Inside(cs, |memory|)
    requires UsedBlocks(cs[..|cs| - 1]) < |memory| - 1
    requires Inside(Slid(cs[..|cs| - 1]), |memory|) && Inside(Packed(cs, |memory|), |memory|)
    requires Contents(Slid(cs[..|cs| - 1]), memory) == Contents(cs[..|cs| - 1], memory0)
    requires memory[|memory| - 1] == memory0[|memory| - 1]
    ensures Contents(Packed(cs, |memory|), memory) == Contents(cs, memory0)
  {
    hide UsedBlocks, Slid, Contents, Tiled;
    TiledEnds(cs, |memory|);
    var n, j := |memory|, |cs| - 1;
    var used, s := UsedBlocks(cs[..j]), Slid(cs[..j]);
    ContentsSnoc(cs, j, memory0);
    assert cs[..j + 1] == cs && cs[j] == Chunk(n - 1, 1, true);
    var a, b := Chunk(used, n - 1 - used, false), Chunk(n - 1, 1, true);
    ContentsMore(s, a, memory);
    ContentsMore(s + [a], b, memory);
    assert Packed(cs, n) == s + [a] + [b];
    assert memory[n - 1..n] == memory0[n - 1..n];
  }
}
