/** Taking chunks off the lists, splitting them and giving them back, as changes of chunks, lists and marks. */
module Allocating {
  import opened Basics
  import opened ChunkMap
  import opened ChunkList
  import opened FreeLists
  import opened ChunkSteps
  import opened Combining
  import opened Division

  // ---- room -----------------------------------------------------------------------------------------------------

  ghost predicate Occupied(used: set<Chunk>, p: int) {
    exists c :: c in used && c.Holds(p)
  }

  /** No used chunk has any of the w blocks from a. */
  ghost predicate RoomAt(used: set<Chunk>, n: nat, w: nat, a: nat) {
    1 <= a && a + w <= n - 1 && forall p :: a <= p < a + w ==> !Occupied(used, p)
  }

  ghost predicate HasRoom(used: set<Chunk>, n: nat, w: nat) {
    exists a: nat :: RoomAt(used, n, w, a)
  }

  lemma UsedOccupies(cs: seq<Chunk>, j: nat, p: nat)
    requires j < |cs| && cs[j].used && cs[j].Holds(p)
    ensures Occupied(UsedSet(cs), p)
  {
    assert cs[j] in UsedSet(cs);
  }

  /** With all free neighbours merged, room for w blocks means a free chunk of at least w blocks. */
  lemma NoRoom(cs: seq<Chunk>, n: nat, w: nat)
    requires Tiled(cs, n) && Merged(cs) && 0 < w && forall j :: 0 <= j < |cs| && !cs[j].used ==> cs[j].size < w
    ensures !HasRoom(UsedSet(cs), n, w)
  {
    forall a: nat | RoomAt(UsedSet(cs), n, w, a)
      ensures false
    {
      var k := Covered(cs, n, a, |cs| - 1);
      assert !Occupied(UsedSet(cs), a);
      if cs[k].used {
        UsedOccupies(cs, k, a);
      } else {
        assert cs[k + 1].start == cs[k].End() && cs[k + 1].used;
        var p := cs[k].End();
        assert !Occupied(UsedSet(cs), p);
        UsedOccupies(cs, k + 1, p);
      }
    }
  }

  /** A used chunk shares no block with the others. */
  lemma UsedApart(cs: seq<Chunk>, n: nat, c: Chunk, d: Chunk, p: nat)
    requires Tiled(cs, n) && c in UsedSet(cs) && d in UsedSet(cs) && c.Holds(p) && d.Holds(p)
    ensures c == d
  {
    var i :| 0 <= i < |cs| && cs[i] == c;
    var j :| 0 <= j < |cs| && cs[j] == d;
    SameChunk(cs, n, i, j, p);
  }

  /** A chunk that was free has room. */
  lemma RoomOf(cs: seq<Chunk>, n: nat, k: nat, w: nat)
    requires Tiled(cs, n) && 0 < k < |cs| - 1 && !cs[k].used && 0 < w <= cs[k].size
    ensures RoomAt(UsedSet(cs), n, w, cs[k].start)
  {
    Within(cs, n, k);
    forall p | cs[k].start <= p < cs[k].start + w
      ensures !Occupied(UsedSet(cs), p)
    {
      if Occupied(UsedSet(cs), p) {
        var c :| c in UsedSet(cs) && c.Holds(p);
        var i :| 0 <= i < |cs| && cs[i] == c;
        SameChunk(cs, n, i, k, p);
      }
    }
  }

  // ---- taking ---------------------------------------------------------------------------------------------------

  /** A listed chunk is a free one, and off the list it is the only one missing. */
  lemma Taken(l: Lists, cs: seq<Chunk>, n: nat, h: HeapChunk) returns (k: nat)
    requires Tiled(cs, n) && ListsOk(l, cs, {}) && 0 < h.size && l.Lists(h.start, h.size)
    ensures 0 < k < |cs| - 1 && cs[k] == Chunk(h.start, h.size, false)
    ensures ListsOk(Removed(l, h.start, h.size), cs, {h.start})
  {
    assert IsFree(cs, {}, h.start, h.size);
    k :| k < |cs| && cs[k] == Chunk(h.start, h.size, false);
    RemovedOk(l, cs, n, {}, k);
    assert {} + {h.start} == {h.start};
  }

  /** Lists without a chunk that is large enough mean that none is. */
  lemma NothingListed(l: Lists, cs: seq<Chunk>, n: nat, w: nat)
    requires Tiled(cs, n) && ListsOk(l, cs, {}) && 0 < w
    requires forall i :: 0 <= i < NOF_LISTS && w <= i + 1 ==> l.free[i] == []
    requires forall e :: 0 <= e < |l.big| ==> l.big[e].size < w
    ensures forall j :: 0 <= j < |cs| && !cs[j].used ==> cs[j].size < w
  {
    forall j | 0 <= j < |cs| && !cs[j].used
      ensures cs[j].size < w
    {
      assert IsFree(cs, {}, cs[j].start, cs[j].size);
      assert l.Lists(cs[j].start, cs[j].size);
      if cs[j].size > NOF_LISTS {
        var e :| 0 <= e < |l.big| && l.big[e] == HeapChunk(cs[j].start, cs[j].size);
      }
    }
  }

  lemma TakenSmall(l: Lists, cs: seq<Chunk>, out: set<nat>, blocks: nat)
    requires ListsOk(l, cs, out) && 0 < blocks <= NOF_LISTS && l.free[blocks - 1] != []
    ensures var h := l.free[blocks - 1][0];
      h.size == blocks && l.Lists(h.start, h.size)
      && Removed(l, h.start, h.size) == l.(free := l.free[blocks - 1 := l.free[blocks - 1][1..]])
  {}

  lemma TakenBig(l: Lists, cs: seq<Chunk>, out: set<nat>, e: nat)
    requires ListsOk(l, cs, out) && e < |l.big|
    ensures var h := l.big[e];
      h.size > 0 && l.Lists(h.start, h.size) && Removed(l, h.start, h.size) == l.(big := l.big[..e] + l.big[e + 1..])
  {
    WithoutAt(l.big, e);
  }

  lemma MarkReads(m: seq<Byte>, s: nat, n: nat, used: bool)
    requires Marked(m, s, n, used)
    ensures Header(m, s, n, used) && SizeAtOk(m, s) && SizeAt(m, s) == n
  {
    HeaderReads(m, s, n, used);
  }

  lemma AllocReady(cs: seq<Chunk>, n: nat, k: nat, w: nat)
    requires Tiled(cs, n) && 0 < k < |cs| - 1 && !cs[k].used && 0 < w <= cs[k].size
    ensures UsedSet(Split(cs, k, w)) == UsedSet(cs) + {Chunk(cs[k].start, w, true)}
    ensures UsedBlocks(Split(cs, k, w)) == UsedBlocks(cs) + w
    ensures RoomAt(UsedSet(cs), n, w, cs[k].start)
    ensures Merged(cs) ==> Merged(Split(cs, k, w))
    ensures BigMerged(cs) ==> BigMerged(Split(cs, k, w))
  {
    SplitOk(cs, n, k, w);
    SplitMerged(cs, k, w);
    RoomOf(cs, n, k, w);
  }

  lemma SplitFits(cs: seq<Chunk>, n: nat, k: nat, w: nat)
    requires Tiled(cs, n) && 0 < k < |cs| - 1 && 0 < w <= cs[k].size
    ensures Fits(cs, k, k + 1, SplitChunks(cs[k], w)) && cs[k + 1].start == cs[k].End() <= n - 1 && 1 <= cs[k].start
  {
    Within(cs, n, k);
  }

  /** Once the two parts are marked and the rest is listed, all is well. */
  lemma SplitDone(m: seq<Byte>, l: Lists, cs: seq<Chunk>, k: nat, w: nat, m': seq<Byte>)
    requires Tiled(cs, |m|) && AllMarked(m, cs) && 0 < k < |cs| - 1 && !cs[k].used && 0 < w <= cs[k].size
    requires ListsOk(l, cs, {cs[k].start})
    requires |m'| == |m| && forall i :: 0 <= i < |m| && !(cs[k].start <= i < cs[k].End()) ==> m'[i] == m[i]
    requires Marked(m', cs[k].start, w, true) && (w < cs[k].size ==> Marked(m', cs[k].start + w, cs[k].size - w, false))
    ensures Tiled(Split(cs, k, w), |m|) && AllMarked(m', Split(cs, k, w)) && l.Shape()
    ensures ListsOk(if w < cs[k].size then Added(l, cs[k].start + w, cs[k].size - w) else l, Split(cs, k, w), {})
  {
    hide Marked, Removed, Added, UsedBlocks, UsedSet, ListsOk;
    Shaped(l, cs, {cs[k].start});
    SplitOk(cs, |m|, k, w);
    SplitFits(cs, |m|, k, w);
    ReplacedMarked(m, m', cs, k, k + 1, SplitChunks(cs[k], w));
    SplitListed(l, cs, |m|, k, w);
  }

  lemma SplitListed(l: Lists, cs: seq<Chunk>, n: nat, k: nat, w: nat)
    requires Tiled(cs, n) && 0 < k < |cs| - 1 && !cs[k].used && 0 < w <= cs[k].size && Tiled(Split(cs, k, w), n)
    requires ListsOk(l, cs, {cs[k].start})
    ensures l.Shape()
    ensures ListsOk(if w < cs[k].size then Added(l, cs[k].start + w, cs[k].size - w) else l, Split(cs, k, w), {})
  {
    hide Added, ListsOk, Tiled, IsFree;
    Shaped(l, cs, {cs[k].start});
    forall start: nat, size: nat
      ensures start != cs[k].start + w || w == cs[k].size ==>
                (IsFree(Split(cs, k, w), {}, start, size) <==> IsFree(cs, {cs[k].start}, start, size))
      ensures w < cs[k].size ==> !IsFree(cs, {cs[k].start}, cs[k].start + w, size)
    {
      SplitFree(cs, n, k, w, start, size);
    }
    if w < cs[k].size {
      assert Split(cs, k, w)[k + 1] == Chunk(cs[k].start + w, cs[k].size - w, false);
      AddedOk(l, cs, Split(cs, k, w), n, {cs[k].start}, {}, k + 1);
    } else {
      SameListed(l, cs, {cs[k].start}, Split(cs, k, w), {});
    }
  }

  lemma SameListed(l: Lists, cs: seq<Chunk>, out: set<nat>, cs': seq<Chunk>, out': set<nat>)
    requires ListsOk(l, cs, out)
    requires forall start: nat, size: nat :: IsFree(cs', out', start, size) <==> IsFree(cs, out, start, size)
    ensures ListsOk(l, cs', out')
  {
    hide IsFree;
  }

  // ---- giving back ----------------------------------------------------------------------------------------------

  lemma FreedDone(m: seq<Byte>, l: Lists, cs: seq<Chunk>, k: nat, m': seq<Byte>)
    requires Tiled(cs, |m|) && AllMarked(m, cs) && 0 < k < |cs| - 1 && cs[k].used && ListsOk(l, cs, {})
    requires |m'| == |m| && forall i :: 0 <= i < |m| && !(cs[k].start <= i < cs[k].End()) ==> m'[i] == m[i]
    requires Marked(m', cs[k].start, cs[k].size, false)
    ensures Tiled(Freed(cs, k), |m|) && AllMarked(m', Freed(cs, k)) && l.Shape()
    ensures ListsOk(Added(l, cs[k].start, cs[k].size), Freed(cs, k), {})
    ensures |Freed(cs, k)| == |cs| && Freed(cs, k)[k] == Chunk(cs[k].start, cs[k].size, false)
  {
    hide Marked, Added, UsedBlocks, UsedSet, ListsOk, IsFree;
    Shaped(l, cs, {});
    FreedOk(cs, |m|, k);
    SplitFits(cs, |m|, k, cs[k].size);
    var mid := [Chunk(cs[k].start, cs[k].size, false)];
    ReplacedMarked(m, m', cs, k, k + 1, mid);
    forall start: nat, size: nat
      ensures start != cs[k].start ==> (IsFree(Freed(cs, k), {}, start, size) <==> IsFree(cs, {}, start, size))
      ensures !IsFree(cs, {}, cs[k].start, size)
    {
      FreedFree(cs, |m|, k, start, size);
    }
    assert Freed(cs, k)[k] == mid[0];
    AddedOk(l, cs, Freed(cs, k), |m|, {}, {}, k);
  }

  /** The freed chunk is in front of its list. */
  lemma FreedCursored(l: Lists, cs: seq<Chunk>, c: Chunk)
    requires l.Shape() && 0 < c.size <= NOF_LISTS
    ensures Cursored(Added(l, c.start, c.size), cs, c, 0)
  {
    var s := Added(l, c.start, c.size).free[c.size - 1];
    assert s[..0] == [];
  }

  /** Merged but for the neighbours of chunk k. */
  ghost predicate MergedBut(cs: seq<Chunk>, k: nat, small: bool) {
    forall j :: 0 <= j < |cs| - 1 && j != k && j + 1 != k ==>
      cs[j].used || cs[j + 1].used || (small && (cs[j].size <= NOF_LISTS || cs[j + 1].size <= NOF_LISTS))
  }

  lemma FreedMergedBut(cs: seq<Chunk>, k: nat)
    requires 0 < k < |cs| - 1 && cs[k].used
    ensures Merged(cs) ==> MergedBut(Freed(cs, k), k, false)
    ensures BigMerged(cs) ==> MergedBut(Freed(cs, k), k, true)
    ensures BigMerged(cs) && cs[k].size <= NOF_LISTS ==> BigMerged(Freed(cs, k))
  {
    var r := Freed(cs, k);
    assert forall j :: 0 <= j < |r| && j != k ==> r[j] == cs[j];
    assert r[k].size == cs[k].size;
  }

  lemma JoinedMergesRest(cs: seq<Chunk>, lo: nat, k: nat, hi: nat)
    requires Run(cs, lo, hi) && lo <= k < hi && cs[lo].start <= cs[hi - 1].End()
    ensures MergedBut(cs, k, false) ==> Merged(Joined(cs, lo, hi))
    ensures MergedBut(cs, k, true) ==> BigMerged(Joined(cs, lo, hi))
  {
    var r := Joined(cs, lo, hi);
    forall j | 0 <= j < |r| - 1
      ensures MergedBut(cs, k, false) ==> r[j].used || r[j + 1].used
      ensures MergedBut(cs, k, true) ==>
        r[j].used || r[j + 1].used || r[j].size <= NOF_LISTS || r[j + 1].size <= NOF_LISTS
    {
      var i := JoinedPair(cs, lo, hi, j);
    }
  }

  /** Where a used chunk other than the sentinels is, and what can be read there. */
  lemma FindUsed(m: seq<Byte>, cs: seq<Chunk>, c: Chunk) returns (k: nat)
    requires Tiled(cs, |m|) && AllMarked(m, cs) && c in UsedSet(cs) && 0 < c.start < |m| - 1
    ensures 0 < k < |cs| - 1 && cs[k] == c && c.used && SizeAtOk(m, c.start) && SizeAt(m, c.start) == c.size > 0
  {
    k :| k < |cs| && cs[k].used && cs[k] == c;
    ReadAt(m, cs, k);
  }

  lemma ReadAt(m: seq<Byte>, cs: seq<Chunk>, j: nat)
    requires Tiled(cs, |m|) && AllMarked(m, cs) && j < |cs|
    ensures SizeAtOk(m, cs[j].start) && SizeAt(m, cs[j].start) == cs[j].size > 0
    ensures (IsUsedByte(m[cs[j].start]) <==> cs[j].used)
  {
    ReadChunk(m, cs, j);
    HeaderReads(m, cs[j].start, cs[j].size, cs[j].used);
  }

  lemma NextChunk(cs: seq<Chunk>, n: nat, j: nat)
    requires Tiled(cs, n) && j < |cs| - 1
    ensures cs[j + 1].start == cs[j].End()
  {}

  lemma FirstChunk(cs: seq<Chunk>, n: nat)
    requires Tiled(cs, n)
    ensures |cs| >= 3 && cs[0].used && cs[1].start == 1
  {
    assert cs[0 + 1].start == cs[0].End();
  }

  lemma FreedFacts(cs: seq<Chunk>, n: nat, k: nat)
    requires Tiled(cs, n) && 0 < k < |cs| - 1 && cs[k].used
    ensures UsedSet(Freed(cs, k)) == UsedSet(cs) - {cs[k]} && UsedBlocks(Freed(cs, k)) == UsedBlocks(cs) - cs[k].size
    ensures Merged(cs) ==> MergedBut(Freed(cs, k), k, false)
    ensures BigMerged(cs) ==> MergedBut(Freed(cs, k), k, true)
    ensures BigMerged(cs) && cs[k].size <= NOF_LISTS ==> BigMerged(Freed(cs, k))
  {
    FreedOk(cs, n, k);
    FreedMergedBut(cs, k);
  }

  lemma JoinedFacts(cs: seq<Chunk>, n: nat, lo: nat, k: nat, hi: nat)
    requires Tiled(cs, n) && Run(cs, lo, hi) && lo <= k < hi
    ensures cs[lo].start <= cs[hi - 1].End() && 0 < lo < hi < |cs|
    ensures UsedSet(Joined(cs, lo, hi)) == UsedSet(cs) && UsedBlocks(Joined(cs, lo, hi)) == UsedBlocks(cs)
    ensures MergedBut(cs, k, false) ==> Merged(Joined(cs, lo, hi))
    ensures MergedBut(cs, k, true) ==> BigMerged(Joined(cs, lo, hi))
  {
    JoinedOk(cs, n, lo, hi);
    JoinedMergesRest(cs, lo, k, hi);
  }

  // ---- the empty heap ---------------------------------------------------------------------------------------------

  function Cleared(size: nat): seq<Chunk> {
    [Chunk(0, 1, true), Chunk(1, size, false), Chunk(size + 1, 1, true)]
  }

  lemma ClearedOk(m: seq<Byte>, size: nat)
    requires 0 < size && |m| == size + 2 && Marked(m, 0, 1, true) && Marked(m, 1, size, false)
    requires Marked(m, size + 1, 1, true)
    ensures Tiled(Cleared(size), |m|) && AllMarked(m, Cleared(size)) && UsedBlocks(Cleared(size)) == 2
    ensures BigMerged(Cleared(size))
    ensures ListsOk(Added(NoLists(), 1, size), Cleared(size), {})
  {
    hide Marked;
    var r := Cleared(size);
    assert r[1..] == [r[1], r[2]] && [r[1], r[2]][1..] == [r[2]];
    assert UsedBlocks(r) == 1 + UsedBlocks(r[1..]) && UsedBlocks([r[1], r[2]]) ==
      UsedBlocks([r[2]]) && UsedBlocks([r[2]]) == 1 + UsedBlocks([r[2]][1..]);
    OneListed(Added(NoLists(), 1, size), r, 1);
  }

  function NoLists(): Lists {
    Lists(seq(NOF_LISTS, _ => []), [])
  }

  /** A list with the only free chunk. */
  lemma OneListed(l: Lists, r: seq<Chunk>, k: nat)
    requires k < |r| && !r[k].used && 0 < r[k].size && forall i :: 0 <= i < |r| && i != k ==> r[i].used
    requires l == Added(NoLists(), r[k].start, r[k].size)
    ensures ListsOk(l, r, {})
  {
    forall start: nat, size: nat | 0 < size
      ensures l.Lists(start, size) <==> IsFree(r, {}, start, size)
    {
      assert IsFree(r, {}, start, size) <==> Chunk(start, size, false) == r[k];
    }
  }

  // ---- addresses --------------------------------------------------------------------------------------------------

  function BlocksFor(bytes: nat, blockSize: nat): nat
    requires 0 < blockSize
  {
    (bytes + blockSize - 1) / blockSize
  }

  lemma RoundedIs(bytes: nat, blockSize: nat) returns (w: nat)
    requires 0 < blockSize && 0 < bytes
    ensures w == BlocksFor(bytes, blockSize) > 0 && (bytes + blockSize - 1) / blockSize * blockSize == w * blockSize
    ensures w * blockSize / blockSize == w
  {
    w := BlocksFor(bytes, blockSize);
    DivisionIs(w * blockSize, w, 0, blockSize);
  }

  lemma RoundedUp(raw: nat, bs: nat)
    requires 0 < bs
    ensures var b := (raw + bs - 1) / bs * bs; b % bs == 0 && raw <= b < raw + bs
  {
    var q := (raw + bs - 1) / bs;
    DivisionIs(q * bs, q, 0, bs);
  }

  lemma RoomIs(used: set<Chunk>, n: nat, w: nat, a: nat)
    requires RoomAt(used, n, w, a)
    ensures HasRoom(used, n, w) && 1 <= a
  {}

  lemma MoreBlocks(a: nat, w: nat, bs: nat)
    ensures (a + w - 2) * bs == (a - 2) * bs + w * bs
  {}

  lemma FewerBlocks(a: nat, w: nat, bs: nat)
    ensures (a - w - 2) * bs == (a - 2) * bs - w * bs
  {}

  /** The aligned address of a byte within some blocks is that of one of them. */
  lemma AlignedWithin(b: nat, a: nat, s: nat, e: nat, bs: nat)
    requires 0 < bs && b % bs == 0 && b + s * bs <= a < b + e * bs
    ensures a - a % bs >= b && s <= (a - a % bs - b) / bs < e
  {
    var q := AlignedDown(b, a, s, bs);
    if q < s { LeastGap(q, s, bs); }
    if e <= q {
      if e < q { LeastGap(e, q, bs); }
    }
  }

  lemma AlignedDown(b: nat, a: nat, s: nat, bs: nat) returns (q: nat)
    requires 0 < bs && b % bs == 0 && b + s * bs <= a
    ensures b <= a - a % bs == b + q * bs <= a < b + q * bs + bs && (a - a % bs - b) / bs == q
  {
    assert 0 <= s * bs;
    var o, r := b / bs, (a - b) % bs;
    q := (a - b) / bs;
    assert b == o * bs && a - b == q * bs + r;
    assert (o + q) * bs == o * bs + q * bs;
    DivisionIs(a, o + q, r, bs);
    DivisionIs(q * bs, q, 0, bs);
  }

  lemma LeastGap(x: int, y: int, bs: nat)
    requires x < y
    ensures x * bs + bs <= y * bs
  {
    LeastProduct(y - x, bs);
    assert (y - x) * bs == y * bs - x * bs;
  }

  lemma ProductOrder(x: int, y: int, b: nat)
    requires 0 < b
    ensures x < y <==> x * b < y * b
  {
    if x < y {
      LeastProduct(y - x, b);
      assert (y - x) * b == y * b - x * b;
    } else {
      assert (x - y) * b == x * b - y * b;
      assert (x - y) * b >= 0;
    }
  }
}
