/** The code heap: a segregated free-list allocator over blocks, which splits chunks when it allocates,
    combines free neighbours lazily at first and eagerly once memory has run short, and can compact. */
module CodeZone {
  import opened Basics
  import opened ChunkMap
  import opened ChunkList
  import opened FreeLists
  import opened ChunkSteps
  import opened Combining
  import opened Allocating
  import opened Division
  import opened Compacting
  import opened Extents

  datatype Block = Null | Block(at: nat)

  class ZoneHeap {
    const mapSize: nat
    const blockSize: nat
    const base: nat
    const bytes: array<Byte>
    const memory: array<int>
    var lists: Lists
    var bytesUsed: int
    var combineOnDeallocation: bool
    var lastCombine: nat

    ghost var cs: seq<Chunk>

    /** The chunks tile the heap between the sentinels, the map shows them, and the lists hold exactly
        the free ones. */
    ghost predicate Sound()
      reads this`lists, this`cs, bytes
    {
      && 0 < mapSize < MAX_CHUNK && bytes.Length == mapSize + 2
      && Tiled(cs, bytes.Length) && AllMarked(bytes[..], cs) && ListsOk(lists, cs, {})
    }

    /** Free chunks that combining on deallocation keeps apart: none, or none that are both big. */
    ghost predicate Combined()
      reads this`cs, this`combineOnDeallocation
    {
      if combineOnDeallocation then Merged(cs) else BigMerged(cs)
    }

    ghost predicate Valid()
      reads this, bytes
    {
      && Sound() && Combined() && 0 < blockSize && base % blockSize == 0 && memory.Length == bytes.Length
      && bytesUsed == (UsedBlocks(cs) - 2) * blockSize
    }

    /** Where the block that byte p of the map stands for is, and the other way round. */
    function Address(p: nat): nat
      requires 0 < p
    {
      base + (p - 1) * blockSize
    }

    function Position(a: int): int
      requires 0 < blockSize
    {
      1 + (a - base) / blockSize
    }

    /** The memory that has been given out, in bytes. */
    ghost function InUse(): set<Extent>
      reads this`cs
    {
      Extents.Extents(base, blockSize, bytes.Length, UsedSet(cs))
    }

    /** Memory in use lies within the heap, starts at multiples of the block size, and was given out once. */
    lemma InUseSeparate()
      requires Valid()
      ensures Separate(InUse(), base, mapSize * blockSize, blockSize)
    {
      hide Tiled, UsedSet, UsedBlocks, Separate, Extents.Extents;
      UsedSeparate(base, blockSize, cs, bytes.Length);
    }

    /** A heap of `size` bytes in blocks of `bs`, on memory from `raw` on that is aligned here. */
    constructor (size: nat, bs: nat, raw: nat)
      requires 0 < bs && size % bs == 0 && 0 < size / bs < MAX_CHUNK
      ensures Valid() && fresh(bytes) && fresh(memory)
      ensures blockSize == bs && mapSize == size / bs && raw <= base < raw + bs
      ensures cs == Cleared(mapSize) && bytesUsed == 0 && InUse() == {}
    {
      mapSize := size / bs;
      blockSize := bs;
      base := (raw + bs - 1) / bs * bs;
      bytes := new Byte[size / bs + 2](_ => INVALID);
      memory := new int[size / bs + 2];
      lists := NoLists();
      bytesUsed := 0;
      combineOnDeallocation := false;
      lastCombine := 1;
      cs := [];
      new;
      RoundedUp(raw, bs);
      Clear();
    }

    /** `clear`: everything is one free chunk between the sentinels. */
    method Clear()
      requires 0 < mapSize < MAX_CHUNK && bytes.Length == mapSize + 2 && 0 < blockSize && base % blockSize == 0
      requires memory.Length == bytes.Length
      modifies this, bytes
      ensures Valid() && cs == Cleared(mapSize) && bytesUsed == 0 && !combineOnDeallocation && InUse() == {}
    {
      hide Marked, Header, ListsOk, AllMarked;
      bytesUsed := 0;
      lists := NoLists();
      MarkSize(bytes, 1, mapSize, false);
      ghost var m1 := bytes[..];
      MarkSize(bytes, mapSize + 1, 1, true);
      ghost var m2 := bytes[..];
      MarkSize(bytes, 0, 1, true);
      MarkedElsewhere(m1, bytes[..], 1, mapSize, false);
      MarkedElsewhere(m2, bytes[..], mapSize + 1, 1, true);
      MarkReads(bytes[..], 1, mapSize, false);
      var big := AddToFreeList(1, Chunk(1, mapSize, false));
      combineOnDeallocation := false;
      lastCombine := 1;
      cs := Cleared(mapSize);
      ClearedOk(bytes[..], mapSize);
    }

    // ---- free lists ---------------------------------------------------------------------------------------------

    method RemoveFromFreeList(p: nat, ghost c: Chunk)
      requires lists.Shape() && p == c.start && Header(bytes[..], c.start, c.size, c.used)
      modifies this`lists
      ensures lists == Removed(old(lists), c.start, c.size)
    {
      HeaderReads(bytes[..], c.start, c.size, c.used);
      lists := Removed(lists, p, SizeAt(bytes[..], p));
    }

    method AddToFreeList(p: nat, ghost c: Chunk) returns (big: bool)
      requires lists.Shape() && p == c.start && Header(bytes[..], c.start, c.size, c.used)
      modifies this`lists
      ensures lists == Added(old(lists), c.start, c.size) && (big <==> c.size > NOF_LISTS)
    {
      HeaderReads(bytes[..], c.start, c.size, c.used);
      var size := SizeAt(bytes[..], p);
      lists := Added(lists, p, size);
      big := size > NOF_LISTS;
    }

    // ---- combining ------------------------------------------------------------------------------------------------

    /** The first u elements of small list i are still in front. */
    ghost predicate Keeps(before: Lists, i: nat, u: nat)
      reads this`lists
    {
      before.Shape() && lists.Shape() && i < NOF_LISTS && u <= |before.free[i]| && u <= |lists.free[i]|
        && lists.free[i][..u] == before.free[i][..u]
    }

    /** Takes the free chunk j next to those already gathered off its list and spoils its mark. */
    method GatherOne(p: nat, ghost j: nat, ghost lo: nat, ghost k: nat, ghost hi: nat, ghost i: nat, ghost u: nat)
      requires Gathering(bytes[..], lists, cs, lo, k, hi) && 0 < j < |cs| - 1 && !cs[j].used && p == cs[j].start
      requires (j + 1 == lo || j == hi)
      requires Keeps(lists, i, u) && Prefix(lists.free[i][..u], cs, cs[k])
      modifies this`lists, bytes
      ensures Gathering(bytes[..], lists, cs, if j < lo then j else lo, k, if j < lo then hi else j + 1)
      ensures Keeps(old(lists), i, u)
      ensures forall b :: 0 <= b < bytes.Length && b != p ==> bytes[b] == old(bytes[b])
    {
      hide Gathering, Prefix, Removed, Header, Marked, Tiled;
      GatheringBounds(bytes[..], lists, cs, lo, k, hi);
      GatheringRead(bytes[..], lists, cs, lo, k, hi, j);
      if j < lo {
        GatherBelow(bytes[..], lists, cs, lo, k, hi);
      } else {
        GatherAbove(bytes[..], lists, cs, lo, k, hi);
      }
      PrefixKept(bytes[..], lists, cs, lo, k, hi, j, i, u);
      ghost var m := bytes[..];
      RemoveFromFreeList(p, cs[j]);
      bytes[p] := INVALID;
      assert bytes[..] == m[p := INVALID];
    }

    /** The free chunks right below chunk k are gathered; `cm1` is where the first of them starts. */
    method GatherLeft(p: nat, ghost k: nat, ghost i: nat, ghost u: nat) returns (cm1: nat, ghost lo: nat)
      requires Gathering(bytes[..], lists, cs, k, k, k + 1) && p == cs[k].start && k < |cs| - 1
      requires Keeps(lists, i, u) && Prefix(lists.free[i][..u], cs, cs[k])
      modifies this`lists, bytes
      ensures 0 < lo <= k && cs[lo - 1].used && cm1 == cs[lo].start && Gathering(bytes[..], lists, cs, lo, k, k + 1)
      ensures Keeps(old(lists), i, u) && (lo == k ==> lists == old(lists))
    {
      hide Gathering, Prefix, Header, Marked, Tiled, SizeAt, SizeBefore, ListsOk, IsUsedByte;
      lo := k;
      GatheringBounds(bytes[..], lists, cs, lo, k, k + 1);
      GatheringRead(bytes[..], lists, cs, lo, k, k + 1, lo - 1);
      var q := p - SizeBefore(bytes[..], p);
      while !IsUsedByte(bytes[q])
        invariant 0 < lo <= k < |cs| - 1 && q == cs[lo - 1].start && SizeAtOk(bytes[..], q)
        invariant (IsUsedByte(bytes[q]) <==> cs[lo - 1].used)
        invariant Gathering(bytes[..], lists, cs, lo, k, k + 1) && (lo == k ==> lists == old(lists))
        invariant Keeps(old(lists), i, u) && Prefix(old(lists).free[i][..u], cs, cs[k])
        decreases lo
      {
        q := GatherBefore(q, lo, k, i, u);
        lo := lo - 1;
      }
      GatheringRead(bytes[..], lists, cs, lo, k, k + 1, lo - 1);
      cm1 := q + SizeAt(bytes[..], q);
    }

    /** The free chunk at `p` is gathered; the chunk before it starts at `q`. */
    method GatherBefore(p: nat, ghost lo: nat, ghost k: nat, ghost i: nat, ghost u: nat) returns (q: nat)
      requires Gathering(bytes[..], lists, cs, lo, k, k + 1) && 0 < lo <= k < |cs| - 1
      requires p == cs[lo - 1].start && !cs[lo - 1].used
      requires Keeps(lists, i, u) && Prefix(lists.free[i][..u], cs, cs[k])
      modifies this`lists, bytes
      ensures 1 < lo && Gathering(bytes[..], lists, cs, lo - 1, k, k + 1) && q == cs[lo - 2].start
      ensures SizeAtOk(bytes[..], q) && (IsUsedByte(bytes[q]) <==> cs[lo - 2].used) && Keeps(old(lists), i, u)
    {
      hide Gathering, Prefix, Header, Marked, Tiled, SizeAt, SizeBefore, ListsOk, IsUsedByte;
      GatheringBounds(bytes[..], lists, cs, lo, k, k + 1);
      GatheringRead(bytes[..], lists, cs, lo, k, k + 1, lo - 2);
      q := p - SizeBefore(bytes[..], p);
      GatherOne(p, lo - 1, lo, k, k + 1, i, u);
      GatheringRead(bytes[..], lists, cs, lo - 1, k, k + 1, lo - 2);
    }

    /** The free chunks right above chunk k are gathered; `cm2` is where the chunk after them starts. */
    method GatherRight(p: nat, ghost lo: nat, ghost k: nat, ghost i: nat, ghost u: nat)
      returns (cm2: nat, ghost hi: nat)
      requires Gathering(bytes[..], lists, cs, lo, k, k + 1) && p == cs[k].End() && k < |cs| - 1
      requires Keeps(lists, i, u) && Prefix(lists.free[i][..u], cs, cs[k])
      modifies this`lists, bytes
      ensures k < hi < |cs| && cs[hi].used && cm2 == cs[hi].start && Gathering(bytes[..], lists, cs, lo, k, hi)
      ensures Keeps(old(lists), i, u) && (hi == k + 1 ==> lists == old(lists))
    {
      hide Gathering, Prefix, Header, Marked, Tiled, SizeAt, SizeBefore, ListsOk, IsUsedByte;
      hi := k + 1;
      GatheringRead(bytes[..], lists, cs, lo, k, hi, k);
      GatheringRead(bytes[..], lists, cs, lo, k, hi, hi);
      cm2 := p;
      while !IsUsedByte(bytes[cm2])
        invariant k < hi < |cs| && cm2 == cs[hi].start && SizeAtOk(bytes[..], cm2)
        invariant (IsUsedByte(bytes[cm2]) <==> cs[hi].used)
        invariant Gathering(bytes[..], lists, cs, lo, k, hi) && (hi == k + 1 ==> lists == old(lists))
        invariant Keeps(old(lists), i, u) && Prefix(old(lists).free[i][..u], cs, cs[k])
        decreases |cs| - hi
      {
        GatheringBounds(bytes[..], lists, cs, lo, k, hi);
        GatheringRead(bytes[..], lists, cs, lo, k, hi, hi);
        var chunk := cm2;
        cm2 := cm2 + SizeAt(bytes[..], cm2);
        GatherOne(chunk, hi, lo, k, hi, i, u);
        hi := hi + 1;
        GatheringRead(bytes[..], lists, cs, lo, k, hi, hi);
      }
    }

    /** What combining finds when it starts. */
    lemma CombineReady(k: nat, u: nat)
      requires Sound() && k < |cs| && !cs[k].used
      requires cs[k].size <= NOF_LISTS ==> Cursored(lists, cs, cs[k], u)
      ensures 0 < k < |cs| - 1 && Gathering(bytes[..], lists, cs, k, k, k + 1) && (cs[k].start == 1 ==> cs[k - 1].used)
      ensures SizeAtOk(bytes[..], cs[k].start) && SizeAt(bytes[..], cs[k].start) == cs[k].size > 0
      ensures Keeps(lists, ListOf(cs[k]), Passed(cs[k], u))
      ensures Prefix(lists.free[ListOf(cs[k])][..Passed(cs[k], u)], cs, cs[k])
    {
      assert Starts(cs, k, k) + Starts(cs, k + 1, k + 1) == {};
      GatheringRead(bytes[..], lists, cs, k, k, k + 1, k);
      if cs[k].size <= NOF_LISTS {
        PrefixMore(lists, cs, cs[k], u);
      }
      if cs[k].start == 1 && k > 1 {
        Within(cs, bytes.Length, 1);
        Ordered(cs, bytes.Length, 1, k);
      }
    }

    /** The run around chunk k, all of it gathered, becomes one free chunk. */
    method Replace(p: nat, cm1: nat, cm2: nat, ghost lo: nat, ghost k: nat, ghost hi: nat)
      requires Gathering(bytes[..], lists, cs, lo, k, hi) && Run(cs, lo, hi) && 0 < mapSize < MAX_CHUNK
      requires bytes.Length == mapSize + 2
      requires p == cs[k].start && cm1 == cs[lo].start && cm2 == cs[hi].start
      modifies this`lists, this`cs, bytes
      ensures old(cs)[lo].start <= old(cs)[hi - 1].End() && cs == Joined(old(cs), lo, hi) && Sound()
      ensures old(lists).Shape()
      ensures var c, d := old(cs)[k], JoinedChunk(old(cs), lo, hi);
        Removed(old(lists), c.start, c.size).Shape() && lists ==
          Added(Removed(old(lists), c.start, c.size), d.start, d.size)
    {
      hide Gathering, Header, Marked, Tiled, ListsOk, AllMarked, Joined, Removed, Added, Run, UsedBlocks;
      ghost var m0, l0 := bytes[..], lists;
      ghost var size := ReplaceReady(m0, l0, cs, lo, k, hi);
      RemoveFromFreeList(p, cs[k]);
      bytes[p] := INVALID;
      MarkSize(bytes, cm1, cm2 - cm1, false);
      MarkedHeader(bytes[..], cm1, size);
      var big := AddToFreeList(cm1, Chunk(cm1, size, false));
      ReplaceDone(m0, l0, cs, lo, k, hi, bytes[..]);
      cs := Joined(cs, lo, hi);
    }

    /** `combine`: joins the free chunk k with its free neighbours; `next` is the element that follows
        it on its list, the neighbours having been taken off. */
    method Combine(p: nat, ghost k: nat, ghost u: nat) returns (size: nat, next: Cursor, ghost lo: nat, ghost hi: nat)
      requires Sound() && k < |cs| && !cs[k].used && p == cs[k].start
      requires cs[k].size <= NOF_LISTS ==> Cursored(lists, cs, cs[k], u)
      modifies this`lists, this`lastCombine, this`cs, bytes
      ensures Sound() && Run(old(cs), lo, hi) && lo <= k < hi && old(cs)[lo].start <= old(cs)[hi - 1].End()
      ensures cs == Joined(old(cs), lo, hi) && size == JoinedChunk(old(cs), lo, hi).size
      ensures old(cs)[k].size <= NOF_LISTS ==> Advanced(old(lists), lists, old(cs)[k], hi - lo > 1, u, next)
    {
      hide Gathering, Prefix, Header, Marked, Tiled, ListsOk, AllMarked, Joined, JoinedChunk, Cursored, Advanced, Run,
        UsedBlocks, CursorAt, Successor, Removed, Added;
      ghost var c, i, l0, cs0 := cs[k], ListOf(cs[k]), lists, cs;
      CombineReady(k, u);
      var sz := SizeAt(bytes[..], p);
      var cm1 := p;
      var cmnext := p + sz;
      lo := k;
      if p != 1 {
        cm1, lo := GatherLeft(p, k, i, Passed(c, u));
      }
      var cm2;
      cm2, hi := GatherRight(cmnext, lo, k, i, Passed(c, u));
      GatheredRun(bytes[..], lists, cs, lo, k, hi);
      next := Successor(if sz <= NOF_LISTS then lists.free[sz - 1] else lists.big, HeapChunk(p, sz));
      ghost var l1 := lists;
      if cm1 != p || cm2 != cmnext {
        Replace(p, cm1, cm2, lo, k, hi);
        lastCombine := cm1;
      } else {
        NothingGathered(k);
      }
      if sz <= NOF_LISTS {
        CursorMoves(l0, l1, cs0, lo, k, hi, u, bytes.Length);
      }
      JoinedReads(bytes[..], cs0, cs, lo, hi);
      size := SizeAt(bytes[..], cm1);
    }

    /** Without free neighbours all is as it was. */
    lemma NothingGathered(k: nat)
      requires Gathering(bytes[..], lists, cs, k, k, k + 1)
      ensures cs[k].start <= cs[k].End() && AllMarked(bytes[..], cs) && ListsOk(lists, cs, {})
      ensures Joined(cs, k, k + 1) == cs
    {
      assert Starts(cs, k, k) + Starts(cs, k + 1, k + 1) == {};
      assert cs[..k] + [cs[k]] + cs[k + 1..] == cs;
    }

    /** One of the small lists: every chunk on it is combined, and the cursor never comes back. */
    method CombineList(i: nat, biggest0: nat, ghost cs0: seq<Chunk>) returns (biggest: nat)
      requires Sound() && i < NOF_LISTS && Progress(cs0, cs, i, biggest0)
      modifies this`lists, this`lastCombine, this`cs, bytes
      ensures Sound() && Progress(cs0, cs, i + 1, biggest)
    {
      hide Progress, Front, Tiled, AllMarked, ListsOk, Advanced, Cursored, Joined, Run, UsedBlocks;
      biggest := biggest0;
      ghost var u := 0;
      StartOfList(i, biggest);
      var c := CursorAt(lists.free[i], 0);
      while c != Anchor
        invariant Sound() && Progress(cs0, cs, i, biggest) && Front(lists, cs, i, u, biggest) && lists.Shape()
        invariant u <= |lists.free[i]|
        invariant c == CursorAt(lists.free[i], u)
        decreases |cs|, |lists.free[i]| - u
      {
        var c1 := c;
        ghost var l, d := lists, cs;
        ghost var k := Listed(l, d, i, u);
        FrontCursored(l, d, i, u, biggest, k);
        var sz;
        ghost var lo, hi;
        sz, c, lo, hi := Combine(c.chunk.start, k, u);
        ProgressStep(cs0, d, bytes.Length, i, biggest, lo, k, hi);
        FrontStep(l, lists, d, bytes.Length, i, u, biggest, lo, k, hi, c);
        CursorOnwards(l, lists, d, lo, k, hi, u, c);
        assert c != c1;
        if sz > biggest {
          biggest := sz;
        }
        u := if hi - lo > 1 then u else u + 1;
      }
      ProgressNext(cs0, cs, bytes.Length, lists, i, u, biggest);
    }

    lemma StartOfList(i: nat, biggest: nat)
      requires Sound() && i < NOF_LISTS
      ensures lists.Shape() && Front(lists, cs, i, 0, biggest)
    {}

    /** `combineAll`: no two free chunks adjoin afterwards, and the result is the size of the biggest
        free chunk but for those that were big already. */
    method CombineAll() returns (biggest: nat)
      requires Sound() && BigMerged(cs)
      modifies this`lists, this`lastCombine, this`combineOnDeallocation, this`cs, bytes
      ensures Sound() && Merged(cs) && combineOnDeallocation
      ensures UsedSet(cs) == old(UsedSet(cs)) && UsedBlocks(cs) == old(UsedBlocks(cs))
      ensures forall j ::
        0 <= j < |cs| && !cs[j].used ==> cs[j].size <= biggest || (cs[j] in old(cs) && cs[j].size > NOF_LISTS)
      ensures biggest > 0 ==> QuietOfSize(cs, biggest)
    {
      hide Progress, Tiled, AllMarked, ListsOk, UsedBlocks, QuietOfSize, UsedSet, Merged, BigMerged;
      ghost var cs0 := cs;
      biggest := 0;
      StartOfProgress(cs0, bytes.Length);
      var i := 0;
      while i < NOF_LISTS
        invariant i <= NOF_LISTS && Sound() && Progress(cs0, cs, i, biggest)
      {
        biggest := CombineList(i, biggest, cs0);
        i := i + 1;
      }
      EndOfProgress(cs0, cs, biggest);
      combineOnDeallocation := true;
    }

    // ---- allocating -------------------------------------------------------------------------------------------

    /** The first small list from the wanted size on that has a chunk gives up its first. */
    method SearchSmall(wanted: nat) returns (blocks: nat, p: Cursor)
      requires lists.Shape() && 0 < wanted
      modifies this`lists
      ensures p == Anchor ==>
        lists == old(lists) && forall i :: 0 <= i < NOF_LISTS && wanted <= i + 1 ==> lists.free[i] == []
      ensures p.At? ==>
        wanted <= blocks <= NOF_LISTS && old(lists).free[blocks - 1] != [] && p.chunk == old(lists).free[blocks - 1][0]
      ensures p.At? ==> lists == old(lists).(free := old(lists).free[blocks - 1 := old(lists).free[blocks - 1][1..]])
    {
      p := Anchor;
      blocks := wanted;
      while blocks <= NOF_LISTS && lists.free[blocks - 1] == []
        invariant wanted <= blocks && forall i :: 0 <= i < NOF_LISTS && wanted <= i + 1 < blocks ==> lists.free[i] == []
        decreases NOF_LISTS - blocks
      {
        blocks := blocks + 1;
      }
      if blocks <= NOF_LISTS {
        p := At(lists.free[blocks - 1][0]);
        lists := lists.(free := lists.free[blocks - 1 := lists.free[blocks - 1][1..]]);
      }
    }

    /** The first big chunk that is large enough. */
    method SearchBig(wanted: nat) returns (e: nat)
      ensures e <= |lists.big| && (e < |lists.big| ==> lists.big[e].size >= wanted)
      ensures forall f :: 0 <= f < e ==> lists.big[f].size < wanted
    {
      e := 0;
      while e < |lists.big| && lists.big[e].size < wanted
        invariant e <= |lists.big| && forall f :: 0 <= f < e ==> lists.big[f].size < wanted
      {
        e := e + 1;
      }
    }

    /** Marks the first part of a free chunk as used, and the rest as free. */
    method MarkParts(p: nat, wanted: nat, blocks: nat) returns (freeChunk: nat)
      requires 0 < wanted <= blocks < MAX_CHUNK && p + blocks <= bytes.Length
      modifies bytes
      ensures forall i :: 0 <= i < bytes.Length && !(p <= i < p + blocks) ==> bytes[i] == old(bytes[i])
      ensures Marked(bytes[..], p, wanted, true)
      ensures wanted < blocks ==> freeChunk == p + wanted && Marked(bytes[..], freeChunk, blocks - wanted, false)
    {
      hide Marked, Header;
      MarkSize(bytes, p, wanted, true);
      freeChunk := 0;
      if blocks > wanted {
        MarkReads(bytes[..], p, wanted, true);
        freeChunk := p + SizeAt(bytes[..], p);
        ghost var m1 := bytes[..];
        MarkSize(bytes, freeChunk, blocks - wanted, false);
        MarkedElsewhere(m1, bytes[..], p, wanted, true);
      }
    }

    /** Takes the first part of the free chunk k, which is off the lists, and lists the rest. */
    method TakeChunk(p: nat, wanted: nat, blocks: nat, ghost k: nat)
      requires 0 < mapSize < MAX_CHUNK && bytes.Length == mapSize + 2 && Tiled(cs, bytes.Length)
      requires AllMarked(bytes[..], cs)
      requires 0 < k < |cs| - 1 && cs[k] == Chunk(p, blocks, false) && 0 < wanted <= blocks && ListsOk(lists, cs, {p})
      modifies this`lists, this`cs, bytes
      ensures cs == Split(old(cs), k, wanted) && Sound()
    {
      hide Marked, Header, Tiled, ListsOk, AllMarked, Split, Added, Fits, SplitChunks;
      ghost var m0, l0 := bytes[..], lists;
      SplitFits(cs, bytes.Length, k, wanted);
      Shaped(lists, cs, {p});
      var freeChunk := MarkParts(p, wanted, blocks);
      if blocks > wanted {
        MarkReads(bytes[..], freeChunk, blocks - wanted, false);
        var big := AddToFreeList(freeChunk, Chunk(p + wanted, blocks - wanted, false));
      }
      SplitDone(m0, l0, cs, k, wanted, bytes[..]);
      cs := Split(cs, k, wanted);
    }

    /** `allocFromLists`: the retry after combining happens at most once, and then succeeds. */
    method AllocFromLists(wanted: nat) returns (p: Block)
      requires Sound() && Combined() && 0 < wanted
      modifies this`lists, this`lastCombine, this`combineOnDeallocation, this`cs, bytes
      ensures Sound() && Combined()
      ensures p == Null ==> UsedSet(cs) == old(UsedSet(cs)) && UsedBlocks(cs) == old(UsedBlocks(cs))
      ensures p == Null ==> !HasRoom(UsedSet(cs), bytes.Length, wanted)
      ensures p.Block? ==>
        UsedSet(cs) == old(UsedSet(cs)) + {Chunk(p.at, wanted, true)} && UsedBlocks(cs) == old(UsedBlocks(cs)) + wanted
      ensures p.Block? ==> RoomAt(old(UsedSet(cs)), bytes.Length, wanted, p.at)
      decreases if combineOnDeallocation then 0 else 1
    {
      hide Marked, Header, Tiled, ListsOk, AllMarked, Split, UsedBlocks, UsedSet, Merged, BigMerged, HasRoom, RoomAt,
        Removed, QuietOfSize;
      ghost var l0 := lists;
      Shaped(lists, cs, {});
      var blocks, h := SearchSmall(wanted);
      if h == Anchor {
        var e := SearchBig(wanted);
        if e == |lists.big| {
          NothingListed(lists, cs, bytes.Length, wanted);
          if !combineOnDeallocation {
            var biggest := CombineAll();
            if biggest >= wanted {
              p := AllocFromLists(wanted);
              return;
            }
          }
          NoRoom(cs, bytes.Length, wanted);
          return Null;
        }
        h := At(lists.big[e]);
        blocks := lists.big[e].size;
        TakenBig(lists, cs, {}, e);
        lists := lists.(big := lists.big[..e] + lists.big[e + 1..]);
      } else {
        TakenSmall(l0, cs, {}, blocks);
      }
      ghost var k := Taken(l0, cs, bytes.Length, h.chunk);
      AllocReady(cs, bytes.Length, k, wanted);
      TakeChunk(h.chunk.start, wanted, blocks, k);
      p := Block(h.chunk.start);
    }

    /** `allocate`: fails if and only if no run of contiguous free blocks is as large as the request;
        otherwise the block it returns was free and is used from now on, and no other has changed. */
    method Allocate(wantedBytes: nat) returns (p: Block, ghost start: nat, ghost size: nat)
      requires Valid() && 0 < wantedBytes
      modifies this`lists, this`lastCombine, this`combineOnDeallocation, this`cs, this`bytesUsed, bytes
      ensures Valid()
      ensures p == Null <==> !HasRoom(old(UsedSet(cs)), bytes.Length, BlocksFor(wantedBytes, blockSize))
      ensures p == Null ==> UsedSet(cs) == old(UsedSet(cs)) && bytesUsed == old(bytesUsed)
      ensures p.Block? ==>
        0 < start && p.at == Address(start)
          && RoomAt(old(UsedSet(cs)), bytes.Length, BlocksFor(wantedBytes, blockSize), start)
      ensures p.Block? ==> UsedSet(cs) == old(UsedSet(cs)) + {Chunk(start, BlocksFor(wantedBytes, blockSize), true)}
      ensures p.Block? ==> bytesUsed == old(bytesUsed) + BlocksFor(wantedBytes, blockSize) * blockSize
      ensures wantedBytes <= size < wantedBytes + blockSize && size % blockSize == 0
      ensures p == Null <==> !SomePlace(old(InUse()), base, mapSize * blockSize, blockSize, size)
      ensures p == Null ==> InUse() == old(InUse())
      ensures p.Block? ==>
        && PlaceFits(old(InUse()), base, mapSize * blockSize, blockSize, p.at, size)
        && InUse() == old(InUse()) + {Extent(p.at, p.at + size)} && bytesUsed == old(bytesUsed) + size
    {
      hide Tiled, Sound, Combined, UsedSet, UsedBlocks, RoomAt, HasRoom, SomePlace, PlaceFits, Extents.Extents;
      var rounded := (wantedBytes + blockSize - 1) / blockSize * blockSize;
      ghost var w := RoundedIs(wantedBytes, blockSize);
      RoundedUp(wantedBytes, blockSize);
      size := rounded;
      start := 0;
      InBytes(w);
      ghost var before, blocks := cs, UsedBlocks(cs);
      p := AllocFromLists(rounded / blockSize);
      if p.Block? {
        start := p.at;
        RoomIs(old(UsedSet(cs)), bytes.Length, w, start);
        MoreBlocks(blocks, w, blockSize);
        assert UsedBlocks(cs) == blocks + w;
        bytesUsed := bytesUsed + rounded;
        p := Block(Address(p.at));
        GivenOut(before, w, start);
      }
    }

    /** Whether there is room, in bytes. */
    lemma InBytes(w: nat)
      requires Valid() && 0 < w
      ensures Tiled(cs, bytes.Length) && bytes.Length == mapSize + 2
      ensures HasRoom(UsedSet(cs), bytes.Length, w) <==>
        SomePlace(InUse(), base, mapSize * blockSize, blockSize, w * blockSize)
    {
      hide Tiled, UsedSet, UsedBlocks, HasRoom, SomePlace, Extents.Extents;
      HasRoomFits(base, blockSize, cs, bytes.Length, w);
    }

    /** What has been given out, in bytes. */
    lemma GivenOut(before: seq<Chunk>, w: nat, start: nat)
      requires Tiled(before, bytes.Length) && bytes.Length == mapSize + 2 && 0 < blockSize && base % blockSize == 0
      requires 0 < w && 0 < start && RoomAt(UsedSet(before), bytes.Length, w, start)
      requires UsedSet(cs) == UsedSet(before) + {Chunk(start, w, true)}
      ensures var xs, a := Extents.Extents(base, blockSize, bytes.Length, UsedSet(before)), Address(start);
        && PlaceFits(xs, base, mapSize * blockSize, blockSize, a, w * blockSize)
        && InUse() == xs + {Extent(a, a + w * blockSize)}
    {
      hide Tiled, UsedSet, Extents.Extents, PlaceFits;
      RoomFits(base, blockSize, before, bytes.Length, w, start);
      ExtentAdded(base, blockSize, bytes.Length, UsedSet(before), Chunk(start, w, true));
      Product(start, w, blockSize);
    }

    /** Marks the used chunk k as free and lists it. */
    method Free(p: nat, size: nat, ghost k: nat) returns (big: bool)
      requires Sound() && 0 < k < |cs| - 1 && cs[k] == Chunk(p, size, true) && 0 < size
      modifies this`lists, this`cs, bytes
      ensures Sound() && cs == Freed(old(cs), k) && k < |cs| && cs[k] == Chunk(p, size, false)
      ensures (big <==> size > NOF_LISTS)
      ensures size <= NOF_LISTS ==> Cursored(lists, cs, cs[k], 0)
    {
      hide Marked, Header, Tiled, ListsOk, AllMarked, Freed, Added, Fits, Cursored;
      ghost var m0, l0 := bytes[..], lists;
      SplitFits(cs, bytes.Length, k, size);
      Shaped(lists, cs, {});
      MarkSize(bytes, p, size, false);
      MarkReads(bytes[..], p, size, false);
      big := AddToFreeList(p, Chunk(p, size, false));
      FreedDone(m0, l0, cs, k, bytes[..]);
      cs := Freed(cs, k);
      if size <= NOF_LISTS {
        FreedCursored(l0, cs, cs[k]);
      }
    }

    /** `deallocate`: the block is free again and no other has changed; what has to be combined is. */
    method Deallocate(address: nat, ghost c: Chunk)
      requires Valid() && c in UsedSet(cs) && 0 < c.start < bytes.Length - 1 && address == Address(c.start)
      modifies this`lists, this`lastCombine, this`cs, this`bytesUsed, bytes
      ensures Valid() && UsedSet(cs) == old(UsedSet(cs)) - {c} && bytesUsed == old(bytesUsed) - c.size * blockSize
      ensures var x := Extent(address, address + c.size * blockSize);
        x in old(InUse()) && InUse() == old(InUse()) - {x} && bytesUsed == old(bytesUsed) - (x.to - x.from)
    {
      hide Marked, Header, Tiled, ListsOk, AllMarked, Freed, UsedBlocks, UsedSet, Merged, BigMerged, MergedBut, Joined,
        JoinedChunk, Run, Cursored, Advanced;
      ghost var k := FindUsed(bytes[..], cs, c);
      PositionOf(c.start, blockSize);
      ExtentGone(base, blockSize, cs, bytes.Length, c);
      ExtentIs(c);
      var m := Position(address);
      var size := SizeAt(bytes[..], m);
      ghost var d := cs;
      FreedFacts(d, bytes.Length, k);
      FewerBlocks(UsedBlocks(d), size, blockSize);
      bytesUsed := bytesUsed - size * blockSize;
      var big := Free(m, size, k);
      if combineOnDeallocation || big {
        ghost var e := cs;
        var s, next;
        ghost var lo, hi;
        s, next, lo, hi := Combine(m, k, 0);
        JoinedFacts(e, bytes.Length, lo, k, hi);
      }
    }

    /** `findStartOfBlock`: from any byte of a used block to the start of the block. */
    method FindStartOfBlock(address: nat, ghost c: Chunk) returns (start: nat)
      requires Valid() && c in UsedSet(cs) && 0 < c.start < bytes.Length - 1
      requires Address(c.start) <= address < Address(c.End())
      ensures start == Address(c.start)
      ensures exists x :: x in InUse() && x.from == start && x.from <= address < x.to
    {
      hide Marked, Header, Tiled, ListsOk, AllMarked, UsedSet, UsedBlocks;
      ghost var k := FindUsed(bytes[..], cs, c);
      var aligned := address - address % blockSize;
      AlignedWithin(base, address, c.start - 1, c.End() - 1, blockSize);
      var m := FindStart(bytes, Position(aligned), cs, k);
      start := Address(m);
      ExtentGone(base, blockSize, cs, bytes.Length, c);
      ExtentIs(c);
      Product(c.start, c.size, blockSize);
    }

    /** `sizeOfBlock`: the bytes a used block takes up. */
    method SizeOfBlock(address: nat, ghost c: Chunk) returns (size: nat)
      requires Valid() && c in UsedSet(cs) && 0 < c.start < bytes.Length - 1 && address == Address(c.start)
      ensures size == c.size * blockSize && Extent(address, address + size) in InUse()
    {
      hide Marked, Header, Tiled, ListsOk, AllMarked, UsedSet, UsedBlocks;
      ghost var k := FindUsed(bytes[..], cs, c);
      PositionOf(c.start, blockSize);
      size := SizeAt(bytes[..], Position(address)) * blockSize;
      ExtentGone(base, blockSize, cs, bytes.Length, c);
      ExtentIs(c);
    }

    lemma ExtentIs(c: Chunk)
      requires 0 < c.start
      ensures ExtentOf(base, blockSize, c) == Extent(Address(c.start), Address(c.start) + c.size * blockSize)
    {
      Product(c.start, c.size, blockSize);
    }

    // ---- compacting -------------------------------------------------------------------------------------------

    /** Moves the contents of blocks down, overlapping or not. */
    method Move(from: nat, to: nat, n: nat)
      requires to <= from && from + n <= memory.Length
      modifies memory
      ensures memory[to..to + n] == old(memory[from..from + n])
      ensures forall b :: 0 <= b < memory.Length && !(to <= b < to + n) ==> memory[b] == old(memory[b])
    {
      var i := 0;
      while i < n
        invariant i <= n
        invariant forall b :: to <= b < to + i ==> memory[b] == old(memory[b - to + from])
        invariant forall b :: 0 <= b < memory.Length && !(to <= b < to + i) ==> memory[b] == old(memory[b])
      {
        memory[to + i] := memory[from + i];
        i := i + 1;
      }
    }

    /** The first free chunk. */
    method FirstFree() returns (p: nat, ghost j: nat)
      requires Sound() && exists i :: 0 <= i < |cs| - 1 && !cs[i].used
      ensures j < |cs| - 1 && 0 < p == cs[j].start && forall i :: 0 <= i < j ==> cs[i].used
    {
      hide Marked, Header, Tiled, ListsOk, AllMarked;
      p, j := 1, 1;
      FirstChunk(cs, bytes.Length);
      ReadAt(bytes[..], cs, j);
      while IsUsedByte(bytes[p])
        invariant 0 < j < |cs| - 1 && 0 < p == cs[j].start && forall i :: 0 <= i < j ==> cs[i].used
        invariant SizeAtOk(bytes[..], p) && SizeAt(bytes[..], p) == cs[j].size && (IsUsedByte(bytes[p]) <==> cs[j].used)
        decreases |cs| - j
      {
        NextChunk(cs, bytes.Length, j);
        p := p + SizeAt(bytes[..], p);
        j := j + 1;
        ReadAt(bytes[..], cs, j);
      }
    }

    /** Down to the next used chunk, or the end. */
    method NextUsed(p: nat, ghost d: seq<Chunk>, ghost m0: seq<Byte>, ghost memory0: seq<int>, ghost j0: nat)
      returns (usedChunk: nat, ghost j: nat)
      requires Sliding(d, m0, memory0, j0, bytes[..], memory[..]) && j0 < |d| && p == d[j0].start
      ensures Sliding(d, m0, memory0, j, bytes[..], memory[..]) && j0 <= j < |d| && usedChunk == d[j].start && d[j].used
      ensures UsedBlocks(d[..j]) == UsedBlocks(d[..j0])
    {
      hide Marked, Header, Tiled, AllMarked, Slid, UsedBlocks, Contents, Sliding;
      usedChunk, j := p, j0;
      SlidingRead(d, m0, memory0, j, bytes[..], memory[..]);
      while !IsUsedByte(bytes[usedChunk])
        invariant Sliding(d, m0, memory0, j, bytes[..], memory[..]) && j0 <= j < |d| && usedChunk == d[j].start
        invariant UsedBlocks(d[..j]) == UsedBlocks(d[..j0])
        invariant SizeAtOk(bytes[..], usedChunk) && SizeAt(bytes[..], usedChunk) == d[j].size
        invariant (IsUsedByte(bytes[usedChunk]) <==> d[j].used)
        decreases |d| - j
      {
        SlidingPast(d, m0, memory0, j, bytes[..], memory[..]);
        SlidingRead(d, m0, memory0, j, bytes[..], memory[..]);
        usedChunk := usedChunk + SizeAt(bytes[..], usedChunk);
        j := j + 1;
        SlidingRead(d, m0, memory0, j, bytes[..], memory[..]);
      }
    }

    /** Moves the used chunk j down to its new place and marks it there. */
    method SlideOne(usedChunk: nat, freeChunk: nat, ghost d: seq<Chunk>, ghost m0: seq<Byte>, ghost memory0: seq<int>,
                    ghost j: nat) returns (uSize: nat)
      requires memory.Length == bytes.Length < MAX_CHUNK + 2 && Sliding(d, m0, memory0, j, bytes[..], memory[..])
      requires j < |d| - 1 && usedChunk == d[j].start && d[j].used && freeChunk == UsedBlocks(d[..j]) && 0 < freeChunk
      modifies bytes, memory
      ensures Sliding(d, m0, memory0, j + 1, bytes[..], memory[..]) && uSize == d[j].size
      ensures UsedBlocks(d[..j + 1]) == freeChunk + uSize && d[j + 1].start == usedChunk + uSize
    {
      hide Marked, Header, Tiled, AllMarked, Slid, UsedBlocks, Contents, Sliding;
      ghost var m, mem := bytes[..], memory[..];
      SlidingRead(d, m0, memory0, j, m, mem);
      SlidingRoom(d, m0, memory0, j, m, mem);
      uSize := SizeAt(bytes[..], usedChunk);
      Move(usedChunk, freeChunk, uSize);
      MarkSize(bytes, freeChunk, uSize, true);
      SlidingOn(d, m0, memory0, j, m, mem, bytes[..], memory[..]);
    }

    /** Moves all used chunks down. */
    method SlideDown() returns (freeChunk: nat)
      requires Sound() && memory.Length == bytes.Length && exists i :: 0 <= i < |cs| - 1 && !cs[i].used
      modifies bytes, memory
      ensures Sliding(cs, old(bytes[..]), old(memory[..]), |cs| - 1, bytes[..], memory[..])
      ensures freeChunk == UsedBlocks(cs[..|cs| - 1])
    {
      hide Marked, Header, Tiled, ListsOk, AllMarked, Slid, UsedBlocks, Contents, Sliding;
      ghost var d, m0, memory0 := cs, bytes[..], memory[..];
      var end := mapSize + 1;
      ghost var j;
      freeChunk, j := FirstFree();
      var usedChunk := freeChunk;
      SlidingStart(d, m0, memory0, j);
      usedChunk, j := NextUsed(usedChunk, d, m0, memory0, j);
      SlidingRead(d, m0, memory0, j, bytes[..], memory[..]);
      while usedChunk != end
        invariant Sliding(d, m0, memory0, j, bytes[..], memory[..]) && j < |d| && usedChunk == d[j].start && d[j].used
        invariant freeChunk == UsedBlocks(d[..j]) && 0 < freeChunk && (usedChunk == end <==> j == |d| - 1)
        decreases |d| - j
      {
        var uSize := SlideOne(usedChunk, freeChunk, d, m0, memory0, j);
        freeChunk := freeChunk + uSize;
        usedChunk := usedChunk + uSize;
        usedChunk, j := NextUsed(usedChunk, d, m0, memory0, j + 1);
        SlidingRead(d, m0, memory0, j, bytes[..], memory[..]);
      }
    }

    /** All blocks behind the used ones become one free chunk. */
    method FillUp(freeChunk: nat, ghost d: seq<Chunk>, ghost m0: seq<Byte>, ghost memory0: seq<int>)
      requires 0 < mapSize < MAX_CHUNK && bytes.Length == mapSize + 2 && Tiled(d, bytes.Length)
      requires exists i :: 0 <= i < |d| - 1 && !d[i].used
      requires Sliding(d, m0, memory0, |d| - 1, bytes[..], memory[..]) && freeChunk == UsedBlocks(d[..|d| - 1])
      requires memory.Length == bytes.Length && 0 < freeChunk
      modifies this`lists, this`lastCombine, this`cs, bytes
      ensures Sound() && cs == Packed(d, bytes.Length) && Merged(cs) && BigMerged(cs) && UsedBlocks(cs) == UsedBlocks(d)
      ensures freeChunk < bytes.Length - 1 && Inside(d, |memory0|) && Inside(cs, memory.Length)
      ensures Contents(cs, memory[..]) == Contents(d, memory0)
    {
      hide Marked, Header, Tiled, ListsOk, AllMarked, Slid, UsedBlocks, Contents, Merged, BigMerged, Sliding, Packed,
        Added;
      ghost var m := bytes[..];
      var end := mapSize + 1;
      PackedOk(d, bytes.Length);
      SlidingInside(d, m0, memory0, m, memory[..]);
      lists := NoLists();
      PackedListed(d, bytes.Length, lists);
      MarkSize(bytes, freeChunk, end - freeChunk, false);
      SlidingEnd(d, m0, memory0, m, memory[..], bytes[..]);
      MarkReads(bytes[..], freeChunk, end - freeChunk, false);
      var big := AddToFreeList(freeChunk, Chunk(freeChunk, end - freeChunk, false));
      cs := Packed(d, bytes.Length);
      lastCombine := 1;
    }

    /** `compact`: the used chunks are moved down in their order, with what they hold, and all free
        blocks become one chunk behind them. */
    method Compact() returns (r: Block)
      requires Valid()
      modifies this`lists, this`lastCombine, this`cs, bytes, memory
      ensures Valid() && Inside(old(cs), memory.Length) && Inside(cs, memory.Length)
      ensures Contents(cs, memory[..]) == old(Contents(cs, memory[..]))
      ensures r == Null <==> bytesUsed == mapSize * blockSize
      ensures r == Null ==> cs == old(cs) && lists == old(lists) && bytes[..] == old(bytes[..])
      ensures r.Block? ==> var used := UsedBlocks(old(cs)[..|old(cs)| - 1]);
        0 < used < bytes.Length && cs == Packed(old(cs), bytes.Length) && r.at == Address(used)
      ensures r.Block? ==>
        && r.at == base + bytesUsed && base <= r.at < base + mapSize * blockSize && r.at % blockSize == 0
        && forall x :: x in InUse() ==> x.to <= r.at
    {
      hide Marked, Header, Tiled, ListsOk, AllMarked, Slid, UsedBlocks, Contents, Merged, BigMerged, Sliding, Packed,
        Added;
      AllInside(cs, bytes.Length);
      FullOrNot(cs, mapSize, blockSize);
      if bytesUsed == mapSize * blockSize {
        return Null;
      }
      ghost var d, m0, memory0 := cs, bytes[..], memory[..];
      var freeChunk := SlideDown();
      FillUp(freeChunk, d, m0, memory0);
      r := Block(Address(freeChunk));
      PackedBelow(base, blockSize, d, bytes.Length, freeChunk);
    }

    lemma PositionOf(p: nat, bs: nat)
      requires 0 < p && 0 < bs && bs == blockSize
      ensures Position(Address(p)) == p
    {
      DivisionIs(Address(p) - base, p - 1, 0, bs);
    }
  }
}
