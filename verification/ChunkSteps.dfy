/** What allocating, freeing and combining do to the list of chunks. */
module ChunkSteps {
  import opened Basics
  import opened ChunkMap
  import opened ChunkList
  import opened FreeLists

  /** The used chunks, sentinels included: what the clients of the heap see. */
  ghost function UsedSet(cs: seq<Chunk>): set<Chunk> {
    set j | 0 <= j < |cs| && cs[j].used :: cs[j]
  }

  function UsedBlocks(cs: seq<Chunk>): nat {
    if cs == [] then 0 else (if cs[0].used then cs[0].size else 0) + UsedBlocks(cs[1..])
  }

  lemma {:induction false} UsedBlocksConcat(a: seq<Chunk>, b: seq<Chunk>)
    ensures UsedBlocks(a + b) == UsedBlocks(a) + UsedBlocks(b)
  {
    if a == [] {
      assert a + b == b;
    } else {
      assert (a + b)[1..] == a[1..] + b;
      UsedBlocksConcat(a[1..], b);
    }
  }

  lemma {:induction false} NothingUsed(cs: seq<Chunk>)
    requires forall j :: 0 <= j < |cs| ==> !cs[j].used
    ensures UsedBlocks(cs) == 0
  {
    if cs != [] {
      NothingUsed(cs[1..]);
    }
  }

  /** Chunks lo to hi - 1 replaced by others on the same blocks. */
  function Replaced(cs: seq<Chunk>, lo: nat, hi: nat, mid: seq<Chunk>): seq<Chunk>
    requires lo <= hi <= |cs|
  {
    cs[..lo] + mid + cs[hi..]
  }

  /** The new chunks follow one another over the blocks of the old ones. */
  ghost predicate Fits(cs: seq<Chunk>, lo: nat, hi: nat, mid: seq<Chunk>)
    requires 0 < lo < hi < |cs|
  {
    && mid != [] && mid[0].start == cs[lo].start && mid[|mid| - 1].End() == cs[hi - 1].End()
    && (forall j :: 0 <= j < |mid| ==> 0 < mid[j].size)
    && (forall j :: 0 <= j < |mid| - 1 ==> mid[j + 1].start == mid[j].End())
  }

  lemma ReplacedTiled(cs: seq<Chunk>, n: nat, lo: nat, hi: nat, mid: seq<Chunk>)
    requires Tiled(cs, n) && 0 < lo < hi < |cs| && Fits(cs, lo, hi, mid)
    ensures Tiled(Replaced(cs, lo, hi, mid), n)
  {
    var r := Replaced(cs, lo, hi, mid);
    forall j | 0 <= j < |r| - 1
      ensures r[j + 1].start == r[j].End()
    {
      if j + 1 < lo {
        assert cs[j + 1].start == cs[j].End();
      } else if j + 1 == lo {
        assert cs[lo - 1 + 1].start == cs[lo - 1].End();
      } else if j + 1 < lo + |mid| {
        assert mid[j - lo + 1].start == mid[j - lo].End();
      } else if j + 1 == lo + |mid| {
        assert r[j] == mid[|mid| - 1] && r[j + 1] == cs[hi];
        assert cs[hi - 1 + 1].start == cs[hi - 1].End();
      } else {
        var i := j - lo - |mid| + hi;
        assert r[j] == cs[i] && r[j + 1] == cs[i + 1];
        assert cs[i + 1].start == cs[i].End();
      }
    }
    forall j | 0 <= j < |r|
      ensures 0 < r[j].size
    {
      if lo + |mid| <= j {
        assert r[j] == cs[j - lo - |mid| + hi];
      }
    }
  }

  /** Where a chunk of the new list comes from. */
  lemma ReplacedIn(cs: seq<Chunk>, lo: nat, hi: nat, mid: seq<Chunk>, c: Chunk)
    requires lo <= hi <= |cs|
    ensures c in Replaced(cs, lo, hi, mid) <==> c in cs[..lo] || c in mid || c in cs[hi..]
  {}

  lemma InParts(cs: seq<Chunk>, lo: nat, hi: nat, c: Chunk)
    requires lo <= hi <= |cs|
    ensures c in cs <==> c in cs[..lo] || c in cs[lo..hi] || c in cs[hi..]
  {
    assert cs == cs[..lo] + cs[lo..hi] + cs[hi..];
  }

  lemma UsedSetIs(cs: seq<Chunk>, c: Chunk)
    ensures c in UsedSet(cs) <==> c in cs && c.used
  {}

  lemma IsFreeIs(cs: seq<Chunk>, out: set<nat>, start: nat, size: nat)
    ensures IsFree(cs, out, start, size) <==> start !in out && Chunk(start, size, false) in cs
  {}

  /** Chunks outside the replaced stretch start outside it. */
  lemma PartsApart(cs: seq<Chunk>, n: nat, lo: nat, hi: nat, c: Chunk)
    requires Tiled(cs, n) && 0 < lo < hi < |cs|
    ensures c in cs[..lo] ==> c.start < cs[lo].start
    ensures c in cs[lo..hi] ==> cs[lo].start <= c.start < cs[hi].start
    ensures c in cs[hi..] ==> cs[hi].start <= c.start
  {
    if c in cs[..lo] {
      var j :| 0 <= j < lo && cs[..lo][j] == c;
      Ordered(cs, n, j, lo);
    }
    if c in cs[lo..hi] {
      var j :| 0 <= j < hi - lo && cs[lo..hi][j] == c;
      if 0 < j { Ordered(cs, n, lo, lo + j); }
      Ordered(cs, n, lo + j, hi);
    }
    if c in cs[hi..] {
      var j :| 0 <= j < |cs| - hi && cs[hi..][j] == c;
      if 0 < j { Ordered(cs, n, hi, hi + j); }
    }
  }

  // ---- combining ----------------------------------------------------------------------------------------------

  /** All chunks lo to hi - 1 are free and their neighbours are used. */
  ghost predicate Run(cs: seq<Chunk>, lo: nat, hi: nat) {
    && 0 < lo < hi < |cs| && cs[lo - 1].used && cs[hi].used
    && forall j :: lo <= j < hi ==> !cs[j].used
  }

  function JoinedChunk(cs: seq<Chunk>, lo: nat, hi: nat): Chunk
    requires 0 < lo < hi < |cs| && cs[lo].start <= cs[hi - 1].End()
  {
    Chunk(cs[lo].start, cs[hi - 1].End() - cs[lo].start, false)
  }

  function Joined(cs: seq<Chunk>, lo: nat, hi: nat): seq<Chunk>
    requires 0 < lo < hi < |cs| && cs[lo].start <= cs[hi - 1].End()
  {
    Replaced(cs, lo, hi, [JoinedChunk(cs, lo, hi)])
  }

  lemma RunBounds(cs: seq<Chunk>, n: nat, lo: nat, hi: nat)
    requires Tiled(cs, n) && 0 < lo < hi < |cs|
    ensures cs[lo].start < cs[hi - 1].End() == cs[hi].start
    ensures hi - lo > 1 ==> cs[lo].start + cs[lo].size < cs[hi].start
  {
    if lo < hi - 1 { Ordered(cs, n, lo, hi - 1); }
    assert cs[hi - 1 + 1].start == cs[hi - 1].End();
  }

  lemma JoinedOk(cs: seq<Chunk>, n: nat, lo: nat, hi: nat)
    requires Tiled(cs, n) && Run(cs, lo, hi)
    ensures cs[lo].start <= cs[hi - 1].End() && Tiled(Joined(cs, lo, hi), n)
    ensures UsedSet(Joined(cs, lo, hi)) == UsedSet(cs) && UsedBlocks(Joined(cs, lo, hi)) == UsedBlocks(cs)
  {
    RunBounds(cs, n, lo, hi);
    var mid, r := [JoinedChunk(cs, lo, hi)], Joined(cs, lo, hi);
    ReplacedTiled(cs, n, lo, hi, mid);
    forall c
      ensures c in UsedSet(r) <==> c in UsedSet(cs)
    {
      ReplacedIn(cs, lo, hi, mid, c);
      InParts(cs, lo, hi, c);
      UsedSetIs(cs, c);
      UsedSetIs(r, c);
    }
    ReplacedBlocks(cs, lo, hi, mid);
    NothingUsed(cs[lo..hi]);
  }

  lemma ReplacedBlocks(cs: seq<Chunk>, lo: nat, hi: nat, mid: seq<Chunk>)
    requires lo <= hi <= |cs|
    ensures UsedBlocks(Replaced(cs, lo, hi, mid)) == UsedBlocks(cs) - UsedBlocks(cs[lo..hi]) + UsedBlocks(mid)
  {
    assert cs == (cs[..lo] + cs[lo..hi]) + cs[hi..];
    UsedBlocksConcat(cs[..lo] + cs[lo..hi], cs[hi..]);
    UsedBlocksConcat(cs[..lo], cs[lo..hi]);
    UsedBlocksConcat(cs[..lo] + mid, cs[hi..]);
    UsedBlocksConcat(cs[..lo], mid);
  }

  /** The starts of a stretch of chunks. */
  ghost function Starts(cs: seq<Chunk>, lo: nat, hi: nat): set<nat>
    requires hi <= |cs|
  {
    set j | lo <= j < hi :: cs[j].start
  }

  /** Apart from the joined chunk the free ones are those not taken off the lists. */
  lemma JoinedFree(cs: seq<Chunk>, n: nat, lo: nat, hi: nat, start: nat, size: nat)
    requires Tiled(cs, n) && Run(cs, lo, hi) && cs[lo].start <= cs[hi - 1].End()
    ensures start != cs[lo].start ==>
      (IsFree(Joined(cs, lo, hi), {}, start, size) <==> IsFree(cs, Starts(cs, lo, hi), start, size))
    ensures !IsFree(cs, Starts(cs, lo, hi), cs[lo].start, size)
  {
    RunBounds(cs, n, lo, hi);
    var c, r := Chunk(start, size, false), Joined(cs, lo, hi);
    IsFreeIs(r, {}, start, size);
    IsFreeIs(cs, Starts(cs, lo, hi), start, size);
    ReplacedIn(cs, lo, hi, [JoinedChunk(cs, lo, hi)], c);
    InParts(cs, lo, hi, c);
    PartsApart(cs, n, lo, hi, c);
    StartsWithin(cs, n, lo, hi, start);
    assert cs[lo].start in Starts(cs, lo, hi);
  }

  lemma StartsWithin(cs: seq<Chunk>, n: nat, lo: nat, hi: nat, start: nat)
    requires Tiled(cs, n) && 0 < lo < hi < |cs|
    ensures start in Starts(cs, lo, hi) ==> cs[lo].start <= start < cs[hi].start
    ensures forall size, used :: Chunk(start, size, used) in cs[lo..hi] ==> start in Starts(cs, lo, hi)
  {
    if start in Starts(cs, lo, hi) {
      var j :| lo <= j < hi && cs[j].start == start;
      if lo < j { Ordered(cs, n, lo, j); }
      Ordered(cs, n, j, hi);
    }
    forall size, used | Chunk(start, size, used) in cs[lo..hi]
      ensures start in Starts(cs, lo, hi)
    {
      var j :| 0 <= j < hi - lo && cs[lo..hi][j] == Chunk(start, size, used);
      assert cs[lo + j].start == start;
    }
  }

  // ---- allocating and freeing --------------------------------------------------------------------------------------

  function SplitChunks(c: Chunk, w: nat): seq<Chunk>
    requires w <= c.size
  {
    if w == c.size then [Chunk(c.start, w, true)] else [Chunk(c.start, w, true), Chunk(c.start + w, c.size - w, false)]
  }

  function Split(cs: seq<Chunk>, k: nat, w: nat): seq<Chunk>
    requires k < |cs| && w <= cs[k].size
  {
    Replaced(cs, k, k + 1, SplitChunks(cs[k], w))
  }

  lemma SplitOk(cs: seq<Chunk>, n: nat, k: nat, w: nat)
    requires Tiled(cs, n) && 0 < k < |cs| - 1 && !cs[k].used && 0 < w <= cs[k].size
    ensures Tiled(Split(cs, k, w), n)
    ensures UsedSet(Split(cs, k, w)) == UsedSet(cs) + {Chunk(cs[k].start, w, true)}
    ensures UsedBlocks(Split(cs, k, w)) == UsedBlocks(cs) + w
  {
    hide Tiled, UsedBlocks, UsedSet;
    SplitTiled(cs, n, k, w);
    forall c
      ensures c in UsedSet(Split(cs, k, w)) <==> c in UsedSet(cs) || c == Chunk(cs[k].start, w, true)
    {
      SplitUsed(cs, k, w, c);
    }
    ReplacedBlocks(cs, k, k + 1, SplitChunks(cs[k], w));
    assert cs[k..k + 1] == [cs[k]];
    BlocksOfSplit(cs[k], w);
  }

  lemma SplitTiled(cs: seq<Chunk>, n: nat, k: nat, w: nat)
    requires Tiled(cs, n) && 0 < k < |cs| - 1 && 0 < w <= cs[k].size
    ensures Tiled(Split(cs, k, w), n)
  {
    ReplacedTiled(cs, n, k, k + 1, SplitChunks(cs[k], w));
  }

  lemma SplitUsed(cs: seq<Chunk>, k: nat, w: nat, c: Chunk)
    requires 0 < k < |cs| - 1 && !cs[k].used && 0 < w <= cs[k].size
    ensures c in UsedSet(Split(cs, k, w)) <==> c in UsedSet(cs) || c == Chunk(cs[k].start, w, true)
  {
    hide UsedSet;
    ReplacedIn(cs, k, k + 1, SplitChunks(cs[k], w), c);
    InParts(cs, k, k + 1, c);
    assert cs[k..k + 1] == [cs[k]];
    UsedSetIs(cs, c);
    UsedSetIs(Split(cs, k, w), c);
  }

  lemma BlocksOfSplit(c: Chunk, w: nat)
    requires w <= c.size && !c.used
    ensures UsedBlocks(SplitChunks(c, w)) == w && UsedBlocks([c]) == 0
  {
    var s := SplitChunks(c, w);
    assert [c][1..] == [];
    NothingUsed(s[1..]);
    assert s[0] == Chunk(c.start, w, true);
  }

  lemma SplitFree(cs: seq<Chunk>, n: nat, k: nat, w: nat, start: nat, size: nat)
    requires Tiled(cs, n) && 0 < k < |cs| - 1 && !cs[k].used && 0 < w <= cs[k].size
    ensures start != cs[k].start + w ==>
      (IsFree(Split(cs, k, w), {}, start, size) <==> IsFree(cs, {cs[k].start}, start, size))
    ensures w < cs[k].size ==> !IsFree(cs, {cs[k].start}, cs[k].start + w, size)
    ensures w == cs[k].size ==> (IsFree(Split(cs, k, w), {}, start, size) <==> IsFree(cs, {cs[k].start}, start, size))
  {
    var c, r := Chunk(start, size, false), Split(cs, k, w);
    IsFreeIs(r, {}, start, size);
    IsFreeIs(cs, {cs[k].start}, start, size);
    IsFreeIs(cs, {cs[k].start}, cs[k].start + w, size);
    ReplacedIn(cs, k, k + 1, SplitChunks(cs[k], w), c);
    InParts(cs, k, k + 1, c);
    assert cs[k..k + 1] == [cs[k]];
    PartsApart(cs, n, k, k + 1, c);
    var d := Chunk(cs[k].start + w, size, false);
    InParts(cs, k, k + 1, d);
    PartsApart(cs, n, k, k + 1, d);
    assert cs[k + 1].start == cs[k].End();
  }

  function Freed(cs: seq<Chunk>, k: nat): seq<Chunk>
    requires k < |cs|
  {
    Replaced(cs, k, k + 1, [Chunk(cs[k].start, cs[k].size, false)])
  }

  lemma FreedOk(cs: seq<Chunk>, n: nat, k: nat)
    requires Tiled(cs, n) && 0 < k < |cs| - 1 && cs[k].used
    ensures Tiled(Freed(cs, k), n)
    ensures UsedSet(Freed(cs, k)) == UsedSet(cs) - {cs[k]}
    ensures UsedBlocks(Freed(cs, k)) == UsedBlocks(cs) - cs[k].size
  {
    var mid, r := [Chunk(cs[k].start, cs[k].size, false)], Freed(cs, k);
    ReplacedTiled(cs, n, k, k + 1, mid);
    forall c
      ensures c in UsedSet(r) <==> c in UsedSet(cs) && c != cs[k]
    {
      ReplacedIn(cs, k, k + 1, mid, c);
      InParts(cs, k, k + 1, c);
      assert cs[k..k + 1] == [cs[k]];
      PartsApart(cs, n, k, k + 1, c);
      UsedSetIs(cs, c);
      UsedSetIs(r, c);
    }
    ReplacedBlocks(cs, k, k + 1, mid);
    assert cs[k..k + 1] == [cs[k]] && [cs[k]][1..] == [] && mid[1..] == [];
  }

  lemma FreedFree(cs: seq<Chunk>, n: nat, k: nat, start: nat, size: nat)
    requires Tiled(cs, n) && 0 < k < |cs| - 1 && cs[k].used
    ensures start != cs[k].start ==> (IsFree(Freed(cs, k), {}, start, size) <==> IsFree(cs, {}, start, size))
    ensures !IsFree(cs, {}, cs[k].start, size)
  {
    var c, r := Chunk(start, size, false), Freed(cs, k);
    IsFreeIs(r, {}, start, size);
    IsFreeIs(cs, {}, start, size);
    IsFreeIs(cs, {}, cs[k].start, size);
    ReplacedIn(cs, k, k + 1, [Chunk(cs[k].start, cs[k].size, false)], c);
    InParts(cs, k, k + 1, c);
    assert cs[k..k + 1] == [cs[k]];
    var d := Chunk(cs[k].start, size, false);
    InParts(cs, k, k + 1, d);
    PartsApart(cs, n, k, k + 1, d);
  }

  // ---- marks --------------------------------------------------------------------------------------------------------

  /** The map shows every chunk but those from lo to hi - 1. */
  ghost predicate MarkedBut(m: seq<Byte>, cs: seq<Chunk>, lo: nat, hi: nat) {
    forall j :: 0 <= j < |cs| && !(lo <= j < hi) ==> Marked(m, cs[j].start, cs[j].size, cs[j].used)
  }

  /** Once the new chunks are marked, and nothing outside them was touched, all are. */
  lemma ReplacedMarked(m: seq<Byte>, m': seq<Byte>, cs: seq<Chunk>, lo: nat, hi: nat, mid: seq<Chunk>)
    requires Tiled(cs, |m|) && |m'| == |m| && 0 < lo < hi < |cs| && Fits(cs, lo, hi, mid) && MarkedBut(m, cs, lo, hi)
    requires forall i :: 0 <= i < |m| && !(cs[lo].start <= i < cs[hi].start) ==> m'[i] == m[i]
    requires forall j :: 0 <= j < |mid| ==> Marked(m', mid[j].start, mid[j].size, mid[j].used)
    ensures AllMarked(m', Replaced(cs, lo, hi, mid))
  {
    hide Marked;
    var r := Replaced(cs, lo, hi, mid);
    forall j | 0 <= j < |r|
      ensures Marked(m', r[j].start, r[j].size, r[j].used)
    {
      if j < lo {
        Ordered(cs, |m|, j, lo);
        Within(cs, |m|, j);
        MarkedElsewhere(m, m', cs[j].start, cs[j].size, cs[j].used);
      } else if j >= lo + |mid| {
        var i := j - lo - |mid| + hi;
        assert r[j] == cs[i];
        Within(cs, |m|, i);
        if hi < i { Ordered(cs, |m|, hi, i); }
        MarkedElsewhere(m, m', cs[i].start, cs[i].size, cs[i].used);
      } else {
        assert r[j] == mid[j - lo];
      }
    }
  }
}
