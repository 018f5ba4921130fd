/** The chunks a code heap consists of, and how the byte map shows them. The map starts and ends with a
    sentinel, a used chunk of one block; positions are positions in the map. */
module ChunkList {
  import opened Basics
  import opened ChunkMap

  datatype Chunk = Chunk(start: nat, size: nat, used: bool) {
    function End(): nat { start + size }
    predicate Holds(p: int) { start <= p < start + size }
  }

  /** The chunks follow one another without gap from 0 to n; the first and last are the sentinels. */
  ghost predicate Tiled(cs: seq<Chunk>, n: nat) {
    && n >= 3 && |cs| >= 3 && cs[0] == Chunk(0, 1, true) && cs[|cs| - 1] == Chunk(n - 1, 1, true)
    && (forall j :: 0 <= j < |cs| ==> 0 < cs[j].size)
    && (forall j :: 0 <= j < |cs| - 1 ==> cs[j + 1].start == cs[j].End())
  }

  ghost predicate AllMarked(m: seq<Byte>, cs: seq<Chunk>) {
    forall j :: 0 <= j < |cs| ==> Marked(m, cs[j].start, cs[j].size, cs[j].used)
  }

  lemma {:induction false} Ordered(cs: seq<Chunk>, n: nat, i: nat, j: nat)
    requires Tiled(cs, n) && i < j < |cs|
    ensures cs[i].End() <= cs[j].start
    decreases j
  {
    if i < j - 1 {
      Ordered(cs, n, i, j - 1);
      assert 0 < cs[j - 1].size;
    }
    assert cs[j - 1 + 1].start == cs[j - 1].End();
  }

  lemma Within(cs: seq<Chunk>, n: nat, j: nat)
    requires Tiled(cs, n) && j < |cs|
    ensures cs[j].End() <= n && (0 < j ==> 1 <= cs[j].start) && (j < |cs| - 1 ==> cs[j].End() <= n - 1)
  {
    if 0 < j { Ordered(cs, n, 0, j); }
    if j < |cs| - 1 { Ordered(cs, n, j, |cs| - 1); }
  }

  lemma SameChunk(cs: seq<Chunk>, n: nat, i: nat, j: nat, p: nat)
    requires Tiled(cs, n) && i < |cs| && j < |cs| && cs[i].Holds(p) && cs[j].Holds(p)
    ensures i == j
  {
    if i < j {
      Ordered(cs, n, i, j);
    } else if j < i {
      Ordered(cs, n, j, i);
    }
  }

  /** Every position lies in a chunk. */
  lemma {:induction false} Covered(cs: seq<Chunk>, n: nat, p: nat, j: nat) returns (k: nat)
    requires Tiled(cs, n) && j < |cs| && p < cs[j].End()
    ensures k <= j && cs[k].Holds(p)
    decreases j
  {
    if cs[j].start <= p {
      k := j;
    } else {
      assert j > 0 && cs[j - 1 + 1].start == cs[j - 1].End();
      k := Covered(cs, n, p, j - 1);
    }
  }

  /** What the map says at the start of chunk j, and before it. */
  lemma ReadChunk(m: seq<Byte>, cs: seq<Chunk>, j: nat)
    requires Tiled(cs, |m|) && AllMarked(m, cs) && j < |cs|
    ensures Header(m, cs[j].start, cs[j].size, cs[j].used)
  {
    assert Marked(m, cs[j].start, cs[j].size, cs[j].used);
  }

  // ---- from inside a chunk to its start --------------------------------------------------------------------

  /** Position p holds a distance byte of chunk c, from which the trail of distances leads to its start. */
  predicate OnTrail(m: seq<Byte>, c: Chunk, p: nat) {
    && c.Holds(p) && p < |m|
    && (c.used || p == c.start || p == c.start + HeaderLength(c.size))
    && (m[p] < MAX_DISTANCE || p == c.start)
  }

  lemma TrailStep(m: seq<Byte>, c: Chunk, p: nat)
    requires Marked(m, c.start, c.size, c.used) && OnTrail(m, c, p) && m[p] < MAX_DISTANCE
    ensures 0 < m[p] <= p && OnTrail(m, c, p - m[p])
  {
    var i, h := p - c.start, HeaderLength(c.size);
    assert p != c.start;
    InnerByte(m, c, p);
    if c.used {
      assert m[c.start + i] == Distance(c.size, i);
      if i >= MAX_DISTANCE && c.size >= MAX_ONE_BYTE_LEN {
        var k := i - (MAX_DISTANCE - MAX_HEADER_SIZE);
        assert m[c.start + k] == Distance(c.size, k);
      }
    }
  }

  /** A distance byte is not one of the header bytes. */
  lemma InnerByte(m: seq<Byte>, c: Chunk, p: nat)
    requires Header(m, c.start, c.size, c.used) && c.Holds(p) && m[p] < MAX_DISTANCE
    ensures HeaderLength(c.size) <= p - c.start < c.size - HeaderLength(c.size)
  {
    var i := p - c.start;
    if c.size < MAX_ONE_BYTE_LEN {
      assert i != 0 && i != c.size - 1;
    } else {
      assert i != 0 && i != 1 && i != 2 && i != 3;
      assert i != c.size - 1 && i != c.size - 2 && i != c.size - 3 && i != c.size - 4;
    }
  }

  /** The byte after the header of a chunk that has one is a distance byte. */
  lemma FirstDistance(m: seq<Byte>, c: Chunk)
    requires Marked(m, c.start, c.size, c.used) && 2 * HeaderLength(c.size) < c.size
    ensures c.start + HeaderLength(c.size) < |m| && m[c.start + HeaderLength(c.size)] == HeaderLength(c.size)
  {
    if c.used {
      assert m[c.start + HeaderLength(c.size)] == Distance(c.size, HeaderLength(c.size));
    }
  }

  /** Follows the distances down to the start of the chunk. */
  method WalkDown(bytes: array<Byte>, p0: nat, ghost c: Chunk) returns (p: nat)
    requires Marked(bytes[..], c.start, c.size, c.used) && OnTrail(bytes[..], c, p0)
    ensures p == c.start
  {
    p := p0;
    while bytes[p] < MAX_DISTANCE
      invariant OnTrail(bytes[..], c, p)
      decreases p
    {
      TrailStep(bytes[..], c, p);
      p := p - bytes[p];
    }
  }

  /** From any block of a used chunk to the start of the chunk, with no more to go by than the map. */
  method FindStart(bytes: array<Byte>, p0: nat, ghost cs: seq<Chunk>, ghost k: nat) returns (start: nat)
    requires Tiled(cs, bytes.Length) && AllMarked(bytes[..], cs) && 0 < k < |cs| - 1 && cs[k].used && cs[k].Holds(p0)
    ensures start == cs[k].start
  {
    ghost var m := bytes[..];
    Within(cs, bytes.Length, k);
    assert Marked(m, cs[k].start, cs[k].size, cs[k].used);
    var end := bytes.Length - 1;
    var p := p0;
    if bytes[p] < MAX_DISTANCE {
      start := WalkDown(bytes, p, cs[k]);
    } else {
      ghost var j := k;
      p, j := WalkUp(bytes, p0, cs, k);
      if p < end {
        assert Marked(m, cs[j].start, cs[j].size, cs[j].used);
        p := WalkDown(bytes, p, cs[j]);
      }
      start := BackTo(bytes, p, p0, cs, j, k);
    }
  }

  /** Up from a header byte to the first distance byte, or the end: that of the chunk itself or of one
      behind it. */
  method WalkUp(bytes: array<Byte>, p0: nat, ghost cs: seq<Chunk>, ghost k: nat) returns (p: nat, ghost j: nat)
    requires Tiled(cs, bytes.Length) && AllMarked(bytes[..], cs) && 0 < k < |cs| - 1 && cs[k].used && cs[k].Holds(p0)
    requires bytes[p0] >= MAX_DISTANCE && p0 < bytes.Length - 1
    ensures k <= j < |cs| && p < bytes.Length
    ensures p < bytes.Length - 1 ==> OnTrail(bytes[..], cs[j], p)
    ensures p == bytes.Length - 1 ==> j == |cs| - 1
  {
    ghost var m := bytes[..];
    var end := bytes.Length - 1;
    p := p0;
    while bytes[p] >= MAX_DISTANCE && p < end
      invariant p0 <= p <= end
      invariant forall i :: p0 <= i < p ==> bytes[i] >= MAX_DISTANCE
      decreases end - p
    {
      p := p + 1;
    }
    j := Covered(cs, bytes.Length, p, |cs| - 1);
    if j < k { Ordered(cs, bytes.Length, j, k); }
    if p < end {
      UpOnTrail(m, cs, p0, p, j, k);
    } else {
      SameChunk(cs, bytes.Length, j, |cs| - 1, p);
    }
  }

  lemma UpOnTrail(m: seq<Byte>, cs: seq<Chunk>, p0: nat, p: nat, j: nat, k: nat)
    requires Tiled(cs, |m|) && AllMarked(m, cs) && k <= j < |cs| && cs[k].used && cs[k].Holds(p0) && cs[j].Holds(p)
    requires p0 < p < |m|
    requires m[p] < MAX_DISTANCE && forall i :: p0 <= i < p ==> m[i] >= MAX_DISTANCE
    ensures OnTrail(m, cs[j], p)
  {
    var c := cs[j];
    assert Marked(m, c.start, c.size, c.used);
    InnerByte(m, c, p);
    FirstDistance(m, c);
    if k < j {
      Ordered(cs, |m|, k, j);
    }
    var f := c.start + HeaderLength(c.size);
    if !c.used {
      NoneBefore(m, p0, p, f);
    }
  }

  lemma NoneBefore(m: seq<Byte>, p0: nat, p: nat, f: nat)
    requires p0 <= f < |m| && p < |m| && m[f] < MAX_DISTANCE && forall i :: p0 <= i < p ==> m[i] >= MAX_DISTANCE
    ensures p <= f
  {}

  /** Back over whole chunks to the one that holds p0. */
  method BackTo(bytes: array<Byte>, p: nat, p0: nat, ghost cs: seq<Chunk>, ghost j0: nat, ghost k: nat)
    returns (start: nat)
    requires Tiled(cs, bytes.Length) && AllMarked(bytes[..], cs) && k <= j0 < |cs| && cs[k].Holds(p0)
    requires p == cs[j0].start
    ensures start == cs[k].start
  {
    ghost var m := bytes[..];
    ghost var j := j0;
    start := p;
    ReadChunk(m, cs, j);
    HeaderReads(m, cs[j].start, cs[j].size, cs[j].used);
    while !(start <= p0 < start + SizeAt(bytes[..], start))
      invariant k <= j < |cs| && start == cs[j].start && start < bytes.Length
      invariant start + 3 < bytes.Length || (bytes[start] != USED_OVFL && bytes[start] != UNUSED_OVFL)
      invariant SizeAt(bytes[..], start) == cs[j].size
      decreases j
    {
      if j == k {
        assert false;
      }
      j := j - 1;
      assert cs[j + 1].start == cs[j].End();
      ReadChunk(m, cs, j);
      HeaderReads(m, cs[j].start, cs[j].size, cs[j].used);
      start := start - SizeBefore(bytes[..], start);
    }
    SameChunk(cs, bytes.Length, j, k, p0);
  }
}
