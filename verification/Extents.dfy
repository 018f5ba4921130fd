/** Chunks of the heap as ranges of memory, in bytes. */
module Extents {
  import opened ChunkList
  import opened ChunkSteps
  import opened Allocating
  import opened Compacting
  import opened Division

  /** The bytes from `from` up to, but not including, `to`. */
  datatype Extent = Extent(from: int, to: int)

  function ExtentOf(base: int, bs: int, c: Chunk): Extent {
    Extent(base + (c.start - 1) * bs, base + (c.End() - 1) * bs)
  }

  /** The memory of all used chunks but the sentinels, which have none. */
  ghost function Extents(base: int, bs: int, n: nat, used: set<Chunk>): set<Extent> {
    set c | c in used && 0 < c.start < n - 1 :: ExtentOf(base, bs, c)
  }

  /** All lie within `size` bytes from `base` on, at multiples of `bs`, and no two overlap. */
  ghost predicate Separate(xs: set<Extent>, base: int, size: int, bs: int)
    requires bs != 0
  {
    && (forall x :: x in xs ==> base <= x.from < x.to <= base + size && x.from % bs == 0)
    && (forall x, y :: x in xs && y in xs && x != y ==> x.to <= y.from || y.to <= x.from)
  }

  /** The bytes from a on are within the memory, at a multiple of `bs`, and in none of the extents. */
  ghost predicate PlaceFits(xs: set<Extent>, base: int, size: int, bs: int, a: int, bytes: int)
    requires bs != 0
  {
    && base <= a && a + bytes <= base + size && a % bs == 0
    && forall x :: x in xs ==> x.to <= a || a + bytes <= x.from
  }

  lemma Order(base: int, bs: nat, x: int, y: int)
    requires 0 < bs
    ensures base + (x - 1) * bs < base + (y - 1) * bs <==> x < y
  {
    ProductOrder(x - 1, y - 1, bs);
  }

  lemma Multiple(base: int, bs: nat, q: int)
    requires 0 < bs && base % bs == 0
    ensures (base + q * bs) % bs == 0
  {
    var b := base / bs;
    assert base == b * bs;
    assert base + q * bs == (b + q) * bs;
    DivisionIs((b + q) * bs, b + q, 0, bs);
  }

  lemma Between(base: int, bs: nat, a: int) returns (q: int)
    requires 0 < bs && base % bs == 0 && a % bs == 0 && base <= a
    ensures a == base + q * bs && 0 <= q
  {
    var b := base / bs;
    assert base == b * bs;
    q := a / bs - b;
    assert a == a / bs * bs;
    assert q * bs == a / bs * bs - b * bs;
    if q < 0 {
      ProductOrder(q, 0, bs);
    }
  }

  lemma ChunksApart(cs: seq<Chunk>, n: nat, c: Chunk, d: Chunk)
    requires Tiled(cs, n) && c in UsedSet(cs) && d in UsedSet(cs) && c != d
    ensures c.End() <= d.start || d.End() <= c.start
  {
    hide Tiled, UsedSet;
    ChunkWithin(cs, n, c);
    ChunkWithin(cs, n, d);
    if c.start < d.End() && d.start < c.End() {
      UsedApart(cs, n, c, d, if c.start < d.start then d.start else c.start);
    }
  }

  lemma ChunkWithin(cs: seq<Chunk>, n: nat, c: Chunk)
    requires Tiled(cs, n) && c in UsedSet(cs)
    ensures 0 < c.size && c.End() <= n && (0 < c.start < n - 1 ==> c.End() <= n - 1)
    ensures !(0 < c.start < n - 1) ==> c.End() <= 1 || n - 1 <= c.start
  {
    var j :| 0 <= j < |cs| && cs[j] == c;
    if j < |cs| - 1 { Ordered(cs, n, j, |cs| - 1); }
    if 0 < j { Ordered(cs, n, 0, j); }
  }

  /** Memory in use is within the heap, aligned, and given out once. */
  lemma UsedSeparate(base: int, bs: nat, cs: seq<Chunk>, n: nat)
    requires Tiled(cs, n) && 0 < bs && base % bs == 0
    ensures Separate(Extents(base, bs, n, UsedSet(cs)), base, (n - 2) * bs, bs)
  {
    hide Tiled, UsedSet;
    var xs := Extents(base, bs, n, UsedSet(cs));
    forall x | x in xs
      ensures base <= x.from < x.to <= base + (n - 2) * bs && x.from % bs == 0
    {
      var c :| c in UsedSet(cs) && 0 < c.start < n - 1 && x == ExtentOf(base, bs, c);
      ChunkWithin(cs, n, c);
      Order(base, bs, c.start, c.End());
      Order(base, bs, n - 1, c.End());
      Order(base, bs, c.start, 1);
      Multiple(base, bs, c.start - 1);
    }
    forall x, y | x in xs && y in xs && x != y
      ensures x.to <= y.from || y.to <= x.from
    {
      var c :| c in UsedSet(cs) && 0 < c.start < n - 1 && x == ExtentOf(base, bs, c);
      var d :| d in UsedSet(cs) && 0 < d.start < n - 1 && y == ExtentOf(base, bs, d);
      ChunksApart(cs, n, c, d);
      Order(base, bs, d.start, c.End());
      Order(base, bs, c.start, d.End());
    }
  }

  lemma RoomAvoids(used: set<Chunk>, n: nat, w: nat, a: nat, c: Chunk)
    requires RoomAt(used, n, w, a) && 0 < w && c in used && 0 < c.size
    ensures c.End() <= a || a + w <= c.start
  {
    if a < c.End() && c.start < a + w {
      Common(used, c, a, w);
    }
  }

  lemma Common(used: set<Chunk>, c: Chunk, a: nat, w: nat)
    requires c in used && 0 < c.size && 0 < w && a < c.End() && c.start < a + w
    ensures exists p :: a <= p < a + w && Occupied(used, p)
  {
    var p := if a < c.start then c.start else a;
    assert c.Holds(p) && Occupied(used, p);
  }

  /** Blocks without used chunks are bytes without used extents. */
  lemma RoomFits(base: int, bs: nat, cs: seq<Chunk>, n: nat, w: nat, a: nat)
    requires Tiled(cs, n) && 0 < bs && base % bs == 0 && 0 < w && RoomAt(UsedSet(cs), n, w, a)
    ensures PlaceFits(Extents(base, bs, n, UsedSet(cs)), base, (n - 2) * bs, bs, base + (a - 1) * bs, w * bs)
  {
    hide Tiled, UsedSet;
    var used, at := UsedSet(cs), base + (a - 1) * bs;
    Product(a, w, bs);
    Multiple(base, bs, a - 1);
    Order(base, bs, a, 1);
    Order(base, bs, n - 1, a + w);
    forall x | x in Extents(base, bs, n, used)
      ensures x.to <= at || at + w * bs <= x.from
    {
      var c :| c in used && 0 < c.start < n - 1 && x == ExtentOf(base, bs, c);
      ChunkWithin(cs, n, c);
      RoomAvoids(used, n, w, a, c);
      Order(base, bs, a, c.End());
      Order(base, bs, c.start, a + w);
    }
  }

  lemma Product(a: int, w: int, bs: int)
    ensures (a - 1) * bs + w * bs == (a + w - 1) * bs
  {}

  lemma FitsRoom(base: int, bs: nat, cs: seq<Chunk>, n: nat, w: nat, a: int)
    requires Tiled(cs, n) && 0 < bs && base % bs == 0 && 0 < w
    requires PlaceFits(Extents(base, bs, n, UsedSet(cs)), base, (n - 2) * bs, bs, base + (a - 1) * bs, w * bs)
    ensures 1 <= a && RoomAt(UsedSet(cs), n, w, a)
  {
    hide Tiled, UsedSet;
    var used := UsedSet(cs);
    Product(a, w, bs);
    Order(base, bs, a, 1);
    Order(base, bs, n - 1, a + w);
    forall p | a <= p < a + w
      ensures !Occupied(used, p)
    {
      if Occupied(used, p) {
        var c :| c in used && c.Holds(p);
        NoHolder(base, bs, cs, n, w, a, c);
      }
    }
  }

  lemma NoHolder(base: int, bs: nat, cs: seq<Chunk>, n: nat, w: nat, a: int, c: Chunk)
    requires Tiled(cs, n) && 0 < bs && 0 < w && c in UsedSet(cs) && 1 <= a && a + w <= n - 1
    requires PlaceFits(Extents(base, bs, n, UsedSet(cs)), base, (n - 2) * bs, bs, base + (a - 1) * bs, w * bs)
    ensures c.End() <= a || a + w <= c.start
  {
    hide Tiled, UsedSet;
    ChunkWithin(cs, n, c);
    if 0 < c.start < n - 1 {
      assert ExtentOf(base, bs, c) in Extents(base, bs, n, UsedSet(cs));
      Product(a, w, bs);
      Order(base, bs, a, c.End());
      Order(base, bs, c.start, a + w);
    }
  }

  /** There is a place for so many bytes. */
  ghost predicate SomePlace(xs: set<Extent>, base: int, size: int, bs: int, bytes: int)
    requires bs != 0
  {
    exists a :: PlaceFits(xs, base, size, bs, a, bytes)
  }

  lemma HasRoomFits(base: int, bs: nat, cs: seq<Chunk>, n: nat, w: nat)
    requires Tiled(cs, n) && 0 < bs && base % bs == 0 && 0 < w
    ensures HasRoom(UsedSet(cs), n, w) <==>
      SomePlace(Extents(base, bs, n, UsedSet(cs)), base, (n - 2) * bs, bs, w * bs)
  {
    hide Tiled, UsedSet, PlaceFits, RoomAt;
    var xs, size := Extents(base, bs, n, UsedSet(cs)), (n - 2) * bs;
    if HasRoom(UsedSet(cs), n, w) {
      var a: nat :| RoomAt(UsedSet(cs), n, w, a);
      RoomFits(base, bs, cs, n, w, a);
    }
    if SomePlace(xs, base, size, bs, w * bs) {
      var a :| PlaceFits(xs, base, size, bs, a, w * bs);
      FitsAligned(xs, base, size, bs, a, w * bs);
      var q := Between(base, bs, a);
      assert q + 1 - 1 == q;
      FitsRoom(base, bs, cs, n, w, q + 1);
    }
  }

  lemma FitsAligned(xs: set<Extent>, base: int, size: int, bs: nat, a: int, bytes: int)
    requires 0 < bs && PlaceFits(xs, base, size, bs, a, bytes)
    ensures a % bs == 0 && base <= a
  {}

  lemma ExtentAdded(base: int, bs: int, n: nat, used: set<Chunk>, c: Chunk)
    requires 0 < c.start < n - 1
    ensures Extents(base, bs, n, used + {c}) == Extents(base, bs, n, used) + {ExtentOf(base, bs, c)}
  {}

  /** Different chunks have different extents. */
  lemma ExtentGone(base: int, bs: nat, cs: seq<Chunk>, n: nat, c: Chunk)
    requires Tiled(cs, n) && 0 < bs && c in UsedSet(cs) && 0 < c.start < n - 1
    ensures ExtentOf(base, bs, c) in Extents(base, bs, n, UsedSet(cs))
    ensures Extents(base, bs, n, UsedSet(cs) - {c}) == Extents(base, bs, n, UsedSet(cs)) - {ExtentOf(base, bs, c)}
  {
    hide Tiled, UsedSet;
    forall d | d in UsedSet(cs) && d != c && 0 < d.start < n - 1
      ensures ExtentOf(base, bs, d) != ExtentOf(base, bs, c)
    {
      ChunksApart(cs, n, c, d);
      ChunkWithin(cs, n, c);
      ChunkWithin(cs, n, d);
      Order(base, bs, c.start, d.start);
      Order(base, bs, d.start, c.start);
    }
  }

  lemma ExtentSize(base: int, bs: int, c: Chunk)
    ensures ExtentOf(base, bs, c).to - ExtentOf(base, bs, c).from == c.size * bs
  {}

  /** With one free chunk right before the end, all memory in use lies before it. */
  lemma UsedBelow(base: int, bs: nat, cs: seq<Chunk>, n: nat, used: nat)
    requires Tiled(cs, n) && 0 < bs && cs[|cs| - 2].start == used && !cs[|cs| - 2].used
    ensures forall x :: x in Extents(base, bs, n, UsedSet(cs)) ==> x.to <= base + (used - 1) * bs
  {
    hide Tiled;
    forall x | x in Extents(base, bs, n, UsedSet(cs))
      ensures x.to <= base + (used - 1) * bs
    {
      var c :| c in UsedSet(cs) && 0 < c.start < n - 1 && x == ExtentOf(base, bs, c);
      var j :| 0 <= j < |cs| && cs[j].used && cs[j] == c;
      LastStarts(cs, n);
      Ordered(cs, n, j, |cs| - 2);
      Order(base, bs, used, c.End());
    }
  }

  /** After compaction the memory in use comes first, without gaps. */
  lemma PackedBelow(base: int, bs: nat, d: seq<Chunk>, n: nat, used: nat)
    requires Tiled(d, n) && used == UsedBlocks(d[..|d| - 1]) && 0 < used < n - 1 && 0 < bs && base % bs == 0
    requires Tiled(Packed(d, n), n) && UsedBlocks(Packed(d, n)) == UsedBlocks(d)
    ensures var a := base + (used - 1) * bs;
      && a == base + (UsedBlocks(d) - 2) * bs && base <= a < base + (n - 2) * bs && a % bs == 0
      && forall x :: x in Extents(base, bs, n, UsedSet(Packed(d, n))) ==> x.to <= a
  {
    hide Tiled, UsedSet, UsedBlocks, Extents, Slid;
    WithEnd(d, n);
    TiledEnds(d, n);
    assert Packed(d, n)[|Packed(d, n)| - 2] == Chunk(used, n - 1 - used, false);
    hide Packed;
    UsedBelow(base, bs, Packed(d, n), n, used);
    PlaceIs(base, bs, n - 2, used - 1);
  }

  lemma PlaceIs(base: int, bs: nat, m: nat, q: nat)
    requires 0 < bs && base % bs == 0 && q < m
    ensures base <= base + q * bs < base + m * bs && (base + q * bs) % bs == 0
  {
    Multiple(base, bs, q);
    ProductOrder(q, m, bs);
    ProductOrder(q, 0, bs);
  }

  lemma WithEnd(d: seq<Chunk>, n: nat)
    requires Tiled(d, n)
    ensures UsedBlocks(d) == UsedBlocks(d[..|d| - 1]) + 1
  {
    hide Tiled, UsedBlocks;
    TiledEnds(d, n);
    BlocksSnoc(d, |d| - 1);
    assert d[..|d| - 1 + 1] == d;
  }

  lemma LastStarts(cs: seq<Chunk>, n: nat)
    requires Tiled(cs, n)
    ensures |cs| >= 3 && cs[|cs| - 1].start == n - 1
  {}
}
