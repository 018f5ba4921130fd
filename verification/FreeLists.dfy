/** The free lists of the code heap: one for every small size, and one for all big chunks. */
module FreeLists {
  import opened ChunkList

  const NOF_LISTS := 30

  /** A free chunk on a list. The heap itself reads the size only on the list for big chunks. */
  datatype HeapChunk = HeapChunk(start: nat, size: nat)

  datatype Lists = Lists(free: seq<seq<HeapChunk>>, big: seq<HeapChunk>) {
    predicate Shape() { |free| == NOF_LISTS }

    /** Whether a chunk is listed where its size puts it. */
    predicate Lists(start: nat, size: nat)
      requires Shape()
    {
      HeapChunk(start, size) in if 0 < size <= NOF_LISTS then free[size - 1] else big
    }
  }

  predicate NoRepeats(s: seq<HeapChunk>) {
    forall i, j :: 0 <= i < j < |s| ==> s[i] != s[j]
  }

  /** A free chunk that is not in `out`, those being taken off the lists. */
  ghost predicate IsFree(cs: seq<Chunk>, out: set<nat>, start: nat, size: nat) {
    start !in out && exists j :: 0 <= j < |cs| && cs[j] == Chunk(start, size, false)
  }

  /** The lists hold exactly the free chunks, each once and on the list for its size. */
  ghost predicate ListsOk(l: Lists, cs: seq<Chunk>, out: set<nat>) {
    && l.Shape()
    && (forall i :: 0 <= i < NOF_LISTS ==> NoRepeats(l.free[i]))
    && (forall i, k :: 0 <= i < NOF_LISTS && 0 <= k < |l.free[i]| ==> l.free[i][k].size == i + 1)
    && NoRepeats(l.big) && (forall k :: 0 <= k < |l.big| ==> l.big[k].size > NOF_LISTS)
    && (forall start: nat, size: nat :: 0 < size ==> (l.Lists(start, size) <==> IsFree(cs, out, start, size)))
  }

  function Without(s: seq<HeapChunk>, x: HeapChunk): (r: seq<HeapChunk>) {
    if s == [] then [] else if s[0] == x then s[1..] else [s[0]] + Without(s[1..], x)
  }

  lemma {:induction false} WithoutFacts(s: seq<HeapChunk>, x: HeapChunk)
    requires NoRepeats(s)
    ensures NoRepeats(Without(s, x)) && forall y :: y in Without(s, x) <==> y in s && y != x
    ensures forall k :: 0 <= k < |Without(s, x)| ==> Without(s, x)[k] in s
    decreases |s|
  {
    if s != [] {
      var t := s[1..];
      forall i, j | 0 <= i < j < |t|
        ensures t[i] != t[j]
      {
        assert t[i] == s[i + 1] && t[j] == s[j + 1];
      }
      forall k | 0 <= k < |t|
        ensures t[k] != s[0]
      {
        assert t[k] == s[k + 1];
      }
      if s[0] != x {
        WithoutFacts(t, x);
        Prepend(Without(t, x), s[0]);
      }
      assert forall y :: y in s <==> y == s[0] || y in t;
    }
  }

  lemma Prepend(s: seq<HeapChunk>, x: HeapChunk)
    requires NoRepeats(s) && x !in s
    ensures NoRepeats([x] + s)
  {}

  function Added(l: Lists, start: nat, size: nat): Lists
    requires l.Shape()
  {
    if 0 < size <= NOF_LISTS then l.(free := l.free[size - 1 := [HeapChunk(start, size)] + l.free[size - 1]])
    else l.(big := [HeapChunk(start, size)] + l.big)
  }

  function Removed(l: Lists, start: nat, size: nat): Lists
    requires l.Shape()
  {
    if 0 < size <= NOF_LISTS then l.(free := l.free[size - 1 := Without(l.free[size - 1], HeapChunk(start, size))])
    else l.(big := Without(l.big, HeapChunk(start, size)))
  }

  /** Taking one chunk off its list. */
  lemma RemovedOk(l: Lists, cs: seq<Chunk>, n: nat, out: set<nat>, j: nat)
    requires Tiled(cs, n) && ListsOk(l, cs, out) && j < |cs| && !cs[j].used && cs[j].start !in out
    ensures ListsOk(Removed(l, cs[j].start, cs[j].size), cs, out + {cs[j].start})
  {
    hide Tiled, IsFree;
    ThatIsFree(cs, n, out, j);
    var c := cs[j];
    var r := Removed(l, c.start, c.size);
    if c.size <= NOF_LISTS {
      WithoutFacts(l.free[c.size - 1], HeapChunk(c.start, c.size));
    } else {
      WithoutFacts(l.big, HeapChunk(c.start, c.size));
    }
    forall start: nat, size: nat | 0 < size
      ensures r.Lists(start, size) <==> IsFree(cs, out + {c.start}, start, size)
    {
      assert l.Lists(start, size) <==> IsFree(cs, out, start, size);
      assert r.Lists(start, size) <==> l.Lists(start, size) && !(start == c.start && size == c.size);
      OneLess(cs, n, out, j, start, size);
    }
  }

  /** Apart from one chunk the free ones are the same. */
  lemma OneLess(cs: seq<Chunk>, n: nat, out: set<nat>, j: nat, start: nat, size: nat)
    requires Tiled(cs, n) && j < |cs| && !cs[j].used && cs[j].start !in out
    ensures IsFree(cs, out + {cs[j].start}, start, size) <==>
      IsFree(cs, out, start, size) && !(start == cs[j].start && size == cs[j].size)
  {
    if start == cs[j].start {
      OneSize(cs, n, j, start, size);
    }
  }

  lemma OneSize(cs: seq<Chunk>, n: nat, j: nat, start: nat, size: nat)
    requires Tiled(cs, n) && j < |cs| && cs[j].start == start
    ensures (exists i :: 0 <= i < |cs| && cs[i] == Chunk(start, size, false)) ==> cs[j] == Chunk(start, size, false)
  {
    forall i | 0 <= i < |cs| && cs[i] == Chunk(start, size, false)
      ensures i == j
    {
      SameChunk(cs, n, i, j, start);
    }
  }

  /** Putting a chunk that has just become free on its list. */
  lemma AddedOk(l: Lists, cs: seq<Chunk>, cs': seq<Chunk>, n: nat, out: set<nat>, out': set<nat>, j: nat)
    requires Tiled(cs', n) && ListsOk(l, cs, out) && j < |cs'| && !cs'[j].used && cs'[j].start !in out'
    requires forall start: nat, size: nat ::
      start != cs'[j].start ==> (IsFree(cs', out', start, size) <==> IsFree(cs, out, start, size))
    requires forall size: nat :: !IsFree(cs, out, cs'[j].start, size)
    ensures ListsOk(Added(l, cs'[j].start, cs'[j].size), cs', out')
  {
    hide Tiled, IsFree;
    var c := cs'[j];
    var r := Added(l, c.start, c.size);
    ThatIsFree(cs', n, out', j);
    assert !l.Lists(c.start, c.size) && !IsFree(cs, out, c.start, c.size);
    if c.size <= NOF_LISTS {
      Prepend(l.free[c.size - 1], HeapChunk(c.start, c.size));
    } else {
      Prepend(l.big, HeapChunk(c.start, c.size));
    }
    forall start: nat, size: nat | 0 < size
      ensures r.Lists(start, size) <==> IsFree(cs', out', start, size)
    {
      assert l.Lists(start, size) <==> IsFree(cs, out, start, size);
      assert r.Lists(start, size) <==> l.Lists(start, size) || (start == c.start && size == c.size);
    }
  }

  lemma ThatIsFree(cs: seq<Chunk>, n: nat, out: set<nat>, j: nat)
    requires Tiled(cs, n) && j < |cs| && !cs[j].used && cs[j].start !in out
    ensures 0 < cs[j].size && forall size: nat :: IsFree(cs, out, cs[j].start, size) <==> size == cs[j].size
  {
    forall size: nat
      ensures IsFree(cs, out, cs[j].start, size) <==> size == cs[j].size
    {
      OneSize(cs, n, j, cs[j].start, size);
    }
  }
}
