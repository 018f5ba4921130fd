/** Combining free neighbours, as a change of chunks, lists and marks. */
module Combining {
  import opened Basics
  import opened ChunkMap
  import opened ChunkList
  import opened FreeLists
  import opened ChunkSteps

  datatype Cursor = Anchor | At(chunk: HeapChunk)

  /** The element of a list after `x`, or its anchor. */
  function Successor(s: seq<HeapChunk>, x: HeapChunk): Cursor {
    if s == [] then Anchor
    else if s[0] == x then if |s| > 1 then At(s[1]) else Anchor
    else Successor(s[1..], x)
  }

  // ---- neighbours ---------------------------------------------------------------------------------------------

  /** No two neighbouring chunks are free. */
  ghost predicate Merged(cs: seq<Chunk>) {
    forall j :: 0 <= j < |cs| - 1 ==> cs[j].used || cs[j + 1].used
  }

  /** No two neighbouring chunks are free and big. */
  ghost predicate BigMerged(cs: seq<Chunk>) {
    forall j :: 0 <= j < |cs| - 1 ==>
      cs[j].used || cs[j + 1].used || cs[j].size <= NOF_LISTS || cs[j + 1].size <= NOF_LISTS
  }

  ghost predicate Quiet(cs: seq<Chunk>, j: int) {
    0 < j < |cs| - 1 && !cs[j].used && cs[j - 1].used && cs[j + 1].used
  }

  /** The free chunk at `start` has used neighbours. */
  ghost predicate QuietAt(cs: seq<Chunk>, start: nat) {
    exists j :: Quiet(cs, j) && cs[j].start == start
  }

  /** Joining another run leaves a quiet chunk quiet. */
  lemma QuietKept(cs: seq<Chunk>, n: nat, lo: nat, hi: nat, k: nat, start: nat)
    requires Tiled(cs, n) && Run(cs, lo, hi) && lo <= k < hi && start != cs[k].start && QuietAt(cs, start)
    ensures cs[lo].start <= cs[hi - 1].End() && QuietAt(Joined(cs, lo, hi), start)
  {
    RunBounds(cs, n, lo, hi);
    var j :| Quiet(cs, j) && cs[j].start == start;
    var i := QuietKeeps(cs, lo, hi, k, j);
  }

  lemma QuietKeeps(cs: seq<Chunk>, lo: nat, hi: nat, k: nat, j: nat) returns (i: nat)
    requires Run(cs, lo, hi) && cs[lo].start <= cs[hi - 1].End() && lo <= k < hi && j != k && Quiet(cs, j)
    ensures i < |Joined(cs, lo, hi)| && Joined(cs, lo, hi)[i] == cs[j] && Quiet(Joined(cs, lo, hi), i)
  {
    var r := Joined(cs, lo, hi);
    i := 0;
    if j < lo {
      i := j;
      assert j + 1 != lo;
      assert r[i - 1] == cs[j - 1] && r[i] == cs[j] && r[i + 1] == cs[j + 1];
    } else if j >= hi {
      i := j - (hi - lo) + 1;
      assert j != hi;
      assert r[i - 1] == cs[j - 1] && r[i] == cs[j] && r[i + 1] == cs[j + 1];
    } else {
      if k < j {
        assert false;
      }
    }
  }

  /** The joined chunk is quiet. */
  lemma JoinedQuiet(cs: seq<Chunk>, n: nat, lo: nat, hi: nat)
    requires Tiled(cs, n) && Run(cs, lo, hi)
    ensures cs[lo].start <= cs[hi - 1].End() && QuietAt(Joined(cs, lo, hi), cs[lo].start)
    ensures Joined(cs, lo, hi)[lo] == JoinedChunk(cs, lo, hi)
  {
    RunBounds(cs, n, lo, hi);
    var r := Joined(cs, lo, hi);
    assert r[lo] == JoinedChunk(cs, lo, hi) && r[lo - 1] == cs[lo - 1] && r[lo + 1] == cs[hi];
    assert Quiet(r, lo);
  }

  /** A chunk of a run with a free neighbour is not quiet. */
  lemma NotQuiet(cs: seq<Chunk>, n: nat, j: nat)
    requires Tiled(cs, n) && 0 < j < |cs| - 1 && !cs[j].used && (!cs[j - 1].used || !cs[j + 1].used)
    ensures !QuietAt(cs, cs[j].start)
  {
    if QuietAt(cs, cs[j].start) {
      var i :| Quiet(cs, i) && cs[i].start == cs[j].start;
      SameChunk(cs, n, i, j, cs[j].start);
    }
  }

  /** Two neighbours after joining were neighbours before, unless one is used. */
  lemma JoinedPair(cs: seq<Chunk>, lo: nat, hi: nat, j: nat) returns (i: nat)
    requires Run(cs, lo, hi) && cs[lo].start <= cs[hi - 1].End() && j < |Joined(cs, lo, hi)| - 1
    ensures var r := Joined(cs, lo, hi);
      r[j].used || r[j + 1].used || (i < |cs| - 1 && r[j] == cs[i] && r[j + 1] == cs[i + 1])
  {
    var r := Joined(cs, lo, hi);
    i := if j + 1 < lo then j else if j > lo then j - 1 + (hi - lo) else 0;
    if j + 1 == lo {
      assert r[j] == cs[lo - 1];
    } else if j == lo {
      assert r[j + 1] == cs[hi];
    }
  }

  lemma JoinedMerged(cs: seq<Chunk>, n: nat, lo: nat, hi: nat)
    requires Tiled(cs, n) && Run(cs, lo, hi)
    ensures cs[lo].start <= cs[hi - 1].End()
    ensures Merged(cs) ==> Merged(Joined(cs, lo, hi))
    ensures BigMerged(cs) ==> BigMerged(Joined(cs, lo, hi))
  {
    RunBounds(cs, n, lo, hi);
    var r := Joined(cs, lo, hi);
    forall j | 0 <= j < |r| - 1
      ensures Merged(cs) ==> r[j].used || r[j + 1].used
      ensures BigMerged(cs) ==> r[j].used || r[j + 1].used || r[j].size <= NOF_LISTS || r[j + 1].size <= NOF_LISTS
    {
      var i := JoinedPair(cs, lo, hi, j);
    }
  }

  lemma SplitPair(cs: seq<Chunk>, k: nat, w: nat, j: nat) returns (i: nat)
    requires 0 < k < |cs| - 1 && !cs[k].used && 0 < w <= cs[k].size && j < |Split(cs, k, w)| - 1
    ensures var r := Split(cs, k, w);
      r[j].used || r[j + 1].used || (i < |cs| - 1 && !cs[i].used && r[j].size <= cs[i].size && r[j + 1] == cs[i + 1])
  {
    var r, s := Split(cs, k, w), |SplitChunks(cs[k], w)|;
    i := if j + 1 < k then j else if k + s <= j + 1 then j - s + 1 else 0;
    if k <= j + 1 < k + s {
      assert r[k].used;
    } else if j + 1 == k + s {
      assert r[j + 1] == cs[k + 1];
    }
  }

  lemma SplitMerged(cs: seq<Chunk>, k: nat, w: nat)
    requires 0 < k < |cs| - 1 && !cs[k].used && 0 < w <= cs[k].size
    ensures Merged(cs) ==> Merged(Split(cs, k, w))
    ensures BigMerged(cs) ==> BigMerged(Split(cs, k, w))
  {
    var r := Split(cs, k, w);
    forall j | 0 <= j < |r| - 1
      ensures Merged(cs) ==> r[j].used || r[j + 1].used
      ensures BigMerged(cs) ==> r[j].used || r[j + 1].used || r[j].size <= NOF_LISTS || r[j + 1].size <= NOF_LISTS
    {
      var i := SplitPair(cs, k, w, j);
    }
  }

  // ---- combining: value level -----------------------------------------------------------------------------------

  /** Chunks lo to hi - 1 but k have been taken off the lists and are no longer marked. */
  ghost predicate Gathering(m: seq<Byte>, l: Lists, cs: seq<Chunk>, lo: nat, k: nat, hi: nat) {
    && Tiled(cs, |m|) && 0 < lo <= k < hi < |cs|
    && (forall j :: lo <= j < hi ==> !cs[j].used)
    && (forall j :: 0 <= j < |cs| && (j < lo || j == k || hi <= j) ==> Marked(m, cs[j].start, cs[j].size, cs[j].used))
    && ListsOk(l, cs, Starts(cs, lo, k) + Starts(cs, k + 1, hi))
  }

  lemma StartsSnoc(cs: seq<Chunk>, lo: nat, hi: nat)
    requires lo <= hi < |cs|
    ensures Starts(cs, lo, hi + 1) == Starts(cs, lo, hi) + {cs[hi].start}
    ensures lo > 0 ==> Starts(cs, lo - 1, hi) == if lo - 1 < hi then Starts(cs, lo, hi) + {cs[lo - 1].start} else {}
  {
    forall x
      ensures x in Starts(cs, lo, hi + 1) <==> x in Starts(cs, lo, hi) || x == cs[hi].start
    {
      if x == cs[hi].start { assert lo <= hi < hi + 1; }
    }
    if lo > 0 && lo - 1 < hi {
      forall x
        ensures x in Starts(cs, lo - 1, hi) <==> x in Starts(cs, lo, hi) || x == cs[lo - 1].start
      {
        if x == cs[lo - 1].start { assert lo - 1 <= lo - 1 < hi; }
      }
    }
  }

  lemma StartsApart(cs: seq<Chunk>, n: nat, lo: nat, hi: nat, j: nat)
    requires Tiled(cs, n) && hi <= |cs| && j < |cs| && !(lo <= j < hi)
    ensures cs[j].start !in Starts(cs, lo, hi)
  {
    if cs[j].start in Starts(cs, lo, hi) {
      var i :| lo <= i < hi && cs[i].start == cs[j].start;
      SameChunk(cs, n, i, j, cs[j].start);
    }
  }

  /** Spoiling the first byte of a chunk touches no other. */
  lemma SpoiledMarks(m: seq<Byte>, cs: seq<Chunk>, j: nat, i: nat)
    requires Tiled(cs, |m|) && j < |cs| && i < |cs| && i != j && Marked(m, cs[i].start, cs[i].size, cs[i].used)
    ensures cs[j].start < |m| && Marked(m[cs[j].start := INVALID], cs[i].start, cs[i].size, cs[i].used)
  {
    hide Marked;
    Within(cs, |m|, j);
    Within(cs, |m|, i);
    if i < j { Ordered(cs, |m|, i, j); } else { Ordered(cs, |m|, j, i); }
    MarkedElsewhere(m, m[cs[j].start := INVALID], cs[i].start, cs[i].size, cs[i].used);
  }

  /** One more chunk below is gathered. */
  lemma GatherBelow(m: seq<Byte>, l: Lists, cs: seq<Chunk>, lo: nat, k: nat, hi: nat)
    requires Gathering(m, l, cs, lo, k, hi) && lo > 1 && !cs[lo - 1].used
    ensures l.Shape() && cs[lo - 1].start < |m|
    ensures Gathering(m[cs[lo - 1].start := INVALID], Removed(l, cs[lo - 1].start, cs[lo - 1].size), cs, lo - 1, k, hi)
  {
    hide Marked, ListsOk, Removed;
    Shaped(l, cs, Starts(cs, lo, k) + Starts(cs, k + 1, hi));
    Within(cs, |m|, lo - 1);
    StartsApart(cs, |m|, lo, k, lo - 1);
    StartsApart(cs, |m|, k + 1, hi, lo - 1);
    RemovedOk(l, cs, |m|, Starts(cs, lo, k) + Starts(cs, k + 1, hi), lo - 1);
    StartsSnoc(cs, lo, k);
    assert Starts(cs, lo, k) + Starts(cs, k + 1, hi) + {cs[lo - 1].start} ==
      Starts(cs, lo - 1, k) + Starts(cs, k + 1, hi);
    forall i | 0 <= i < |cs| && (i < lo - 1 || i == k || hi <= i)
      ensures Marked(m[cs[lo - 1].start := INVALID], cs[i].start, cs[i].size, cs[i].used)
    {
      SpoiledMarks(m, cs, lo - 1, i);
    }
  }

  lemma Shaped(l: Lists, cs: seq<Chunk>, out: set<nat>)
    requires ListsOk(l, cs, out)
    ensures l.Shape()
  {}

  /** One more chunk above is gathered. */
  lemma GatherAbove(m: seq<Byte>, l: Lists, cs: seq<Chunk>, lo: nat, k: nat, hi: nat)
    requires Gathering(m, l, cs, lo, k, hi) && hi < |cs| - 1 && !cs[hi].used
    ensures l.Shape() && cs[hi].start < |m|
    ensures Gathering(m[cs[hi].start := INVALID], Removed(l, cs[hi].start, cs[hi].size), cs, lo, k, hi + 1)
  {
    hide Marked, ListsOk, Removed;
    Shaped(l, cs, Starts(cs, lo, k) + Starts(cs, k + 1, hi));
    Within(cs, |m|, hi);
    StartsApart(cs, |m|, lo, k, hi);
    StartsApart(cs, |m|, k + 1, hi, hi);
    RemovedOk(l, cs, |m|, Starts(cs, lo, k) + Starts(cs, k + 1, hi), hi);
    StartsSnoc(cs, k + 1, hi);
    assert Starts(cs, lo, k) + Starts(cs, k + 1, hi) + {cs[hi].start} == Starts(cs, lo, k) + Starts(cs, k + 1, hi + 1);
    forall i | 0 <= i < |cs| && (i < lo || i == k || hi + 1 <= i)
      ensures Marked(m[cs[hi].start := INVALID], cs[i].start, cs[i].size, cs[i].used)
    {
      SpoiledMarks(m, cs, hi, i);
    }
  }

  /** The whole run is off the lists; once it is marked as one chunk and listed again, all is well. */
  lemma Gathered(m: seq<Byte>, l: Lists, cs: seq<Chunk>, lo: nat, k: nat, hi: nat, m': seq<Byte>)
    requires Gathering(m, l, cs, lo, k, hi) && Run(cs, lo, hi) && cs[lo].start <= cs[hi - 1].End()
    requires |m'| == |m| && forall i :: 0 <= i < |m| && !(cs[lo].start <= i < cs[hi].start) ==> m'[i] == m[i]
    requires Marked(m', cs[lo].start, cs[hi - 1].End() - cs[lo].start, false)
    ensures l.Shape()
    ensures AllMarked(m', Joined(cs, lo, hi))
    ensures ListsOk(Added(Removed(l, cs[k].start, cs[k].size), cs[lo].start, cs[hi - 1].End() - cs[lo].start),
      Joined(cs, lo, hi), {})
  {
    hide Marked, ListsOk, Removed, Added;
    var out := Starts(cs, lo, k) + Starts(cs, k + 1, hi);
    Shaped(l, cs, out);
    StartsApart(cs, |m|, lo, k, k);
    StartsApart(cs, |m|, k + 1, hi, k);
    RemovedOk(l, cs, |m|, out, k);
    AllStarts(cs, lo, k, hi);
    JoinedOk(cs, |m|, lo, hi);
    JoinedQuiet(cs, |m|, lo, hi);
    forall start: nat, size: nat
      ensures start != cs[lo].start ==>
        (IsFree(Joined(cs, lo, hi), {}, start, size) <==> IsFree(cs, Starts(cs, lo, hi), start, size))
      ensures !IsFree(cs, Starts(cs, lo, hi), cs[lo].start, size)
    {
      JoinedFree(cs, |m|, lo, hi, start, size);
    }
    Shaped(Removed(l, cs[k].start, cs[k].size), cs, out + {cs[k].start});
    AddedOk(Removed(l, cs[k].start, cs[k].size), cs, Joined(cs, lo, hi), |m|, Starts(cs, lo, hi), {}, lo);
    RunBounds(cs, |m|, lo, hi);
    var mid := [JoinedChunk(cs, lo, hi)];
    ReplacedMarked(m, m', cs, lo, hi, mid);
  }

  lemma AllStarts(cs: seq<Chunk>, lo: nat, k: nat, hi: nat)
    requires lo <= k < hi <= |cs|
    ensures Starts(cs, lo, k) + Starts(cs, k + 1, hi) + {cs[k].start} == Starts(cs, lo, hi)
  {
    forall x
      ensures x in Starts(cs, lo, hi) <==> x in Starts(cs, lo, k) || x in Starts(cs, k + 1, hi) || x == cs[k].start
    {
      if x == cs[k].start { assert lo <= k < hi; }
    }
  }

  /** Every one of these listed chunks is quiet, or is `c` itself. */
  ghost predicate Prefix(s: seq<HeapChunk>, cs: seq<Chunk>, c: Chunk) {
    forall e :: 0 <= e < |s| ==> s[e].start == c.start || QuietAt(cs, s[e].start)
  }

  /** What can be read around chunk j, and where its neighbours are. */
  lemma GatheringRead(m: seq<Byte>, l: Lists, cs: seq<Chunk>, lo: nat, k: nat, hi: nat, j: nat)
    requires Gathering(m, l, cs, lo, k, hi) && j < |cs| && (j < lo || j == k || hi <= j)
    ensures Header(m, cs[j].start, cs[j].size, cs[j].used)
    ensures SizeAtOk(m, cs[j].start) && (IsUsedByte(m[cs[j].start]) <==> cs[j].used)
    ensures SizeAt(m, cs[j].start) == cs[j].size
    ensures SizeBeforeOk(m, cs[j].End()) && SizeBefore(m, cs[j].End()) == cs[j].size
    ensures j + 1 < |cs| ==> cs[j + 1].start == cs[j].End()
  {
    assert Marked(m, cs[j].start, cs[j].size, cs[j].used);
    HeaderReads(m, cs[j].start, cs[j].size, cs[j].used);
  }

  lemma GatheringBounds(m: seq<Byte>, l: Lists, cs: seq<Chunk>, lo: nat, k: nat, hi: nat)
    requires Gathering(m, l, cs, lo, k, hi)
    ensures 0 < lo <= k < hi < |cs| && l.Shape() && Tiled(cs, |m|) && cs[0].used && cs[|cs| - 1].used
    ensures forall j :: lo <= j < hi ==> !cs[j].used
  {}

  /** Taking off a chunk that has a gathered neighbour leaves the quiet ones in front. */
  lemma PrefixKept(m: seq<Byte>, l: Lists, cs: seq<Chunk>, lo: nat, k: nat, hi: nat, j: nat, i: nat, u: nat)
    requires Gathering(m, l, cs, lo, k, hi) && 0 < j < |cs| - 1 && !cs[j].used && (j + 1 == lo || j == hi)
    requires l.Shape() && i < NOF_LISTS && u <= |l.free[i]| && Prefix(l.free[i][..u], cs, cs[k])
    ensures var r := Removed(l, cs[j].start, cs[j].size);
      r.Shape() && u <= |r.free[i]| && r.free[i][..u] == l.free[i][..u]
  {
    hide Marked, ListsOk;
    NotQuiet(cs, |m|, j);
    if cs[j].start == cs[k].start { SameChunk(cs, |m|, j, k, cs[j].start); }
    forall e | 0 <= e < u
      ensures l.free[i][e].start != cs[j].start
    {
      assert l.free[i][..u][e] == l.free[i][e];
    }
    WithoutPrefix(l.free[i], HeapChunk(cs[j].start, cs[j].size), u);
  }

  lemma {:induction false} WithoutPrefix(s: seq<HeapChunk>, x: HeapChunk, u: nat)
    requires u <= |s| && forall e :: 0 <= e < u ==> s[e] != x
    ensures u <= |Without(s, x)| && Without(s, x)[..u] == s[..u]
    decreases u
  {
    if u > 0 {
      WithoutPrefix(s[1..], x, u - 1);
      assert s[..u] == [s[0]] + s[1..][..u - 1];
    }
  }

  /** The small list of a chunk, and how many of its elements are known once the cursor is at c. */
  function ListOf(c: Chunk): (i: nat)
    ensures i < NOF_LISTS
  {
    if 0 < c.size <= NOF_LISTS then c.size - 1 else 0
  }

  function Passed(c: Chunk, u: nat): nat {
    if c.size <= NOF_LISTS then u + 1 else 0
  }

  /** The cursor is at element u of the small list of c, which is c; the elements in front are quiet. */
  ghost predicate Cursored(l: Lists, cs: seq<Chunk>, c: Chunk, u: nat) {
    && l.Shape() && 0 < c.size <= NOF_LISTS && u < |l.free[c.size - 1]|
    && l.free[c.size - 1][u] == HeapChunk(c.start, c.size)
    && Prefix(l.free[c.size - 1][..u], cs, c)
  }

  function CursorAt(s: seq<HeapChunk>, u: nat): Cursor {
    if u < |s| then At(s[u]) else Anchor
  }

  /** The elements in front of the cursor are still there; if c was joined with others it is gone, and
      the cursor is where c was, otherwise behind it. */
  ghost predicate Advanced(l: Lists, l': Lists, c: Chunk, merged: bool, u: nat, next: Cursor) {
    && l.Shape() && l'.Shape() && 0 < c.size <= NOF_LISTS
    && SameFront(l.free[c.size - 1], l'.free[c.size - 1], if merged then u else u + 1, next)
    && next != At(HeapChunk(c.start, c.size)) && (!merged ==> l' == l)
  }

  ghost predicate SameFront(s: seq<HeapChunk>, s': seq<HeapChunk>, v: nat, next: Cursor) {
    v <= |s| && v <= |s'| && s'[..v] == s[..v] && next == CursorAt(s', v)
  }

  lemma PrefixMore(l: Lists, cs: seq<Chunk>, c: Chunk, u: nat)
    requires Cursored(l, cs, c, u)
    ensures Prefix(l.free[c.size - 1][..u + 1], cs, c)
  {
    var s := l.free[c.size - 1];
    var t := s[..u + 1];
    forall e | 0 <= e < |t|
      ensures t[e].start == c.start || QuietAt(cs, t[e].start)
    {
      if e < u { assert s[..u][e] == t[e]; }
    }
  }

  lemma {:induction false} SuccessorAt(s: seq<HeapChunk>, u: nat)
    requires NoRepeats(s) && u < |s|
    ensures Successor(s, s[u]) == CursorAt(s, u + 1)
    decreases u
  {
    if u > 0 {
      assert s[0] != s[u];
      TailNoRepeats(s);
      SuccessorAt(s[1..], u - 1);
    }
  }

  lemma TailNoRepeats(s: seq<HeapChunk>)
    requires NoRepeats(s) && s != []
    ensures NoRepeats(s[1..])
  {
    var t := s[1..];
    forall i, j | 0 <= i < j < |t|
      ensures t[i] != t[j]
    {
      assert t[i] == s[i + 1] && t[j] == s[j + 1];
    }
  }

  lemma {:induction false} WithoutAt(s: seq<HeapChunk>, u: nat)
    requires NoRepeats(s) && u < |s|
    ensures Without(s, s[u]) == s[..u] + s[u + 1..]
    decreases u
  {
    if u > 0 {
      assert s[0] != s[u];
      TailNoRepeats(s);
      WithoutAt(s[1..], u - 1);
    }
  }

  /** What replacing a gathered run by one chunk needs, and what it leads to. */
  lemma ReplaceReady(m: seq<Byte>, l: Lists, cs: seq<Chunk>, lo: nat, k: nat, hi: nat) returns (size: nat)
    requires Gathering(m, l, cs, lo, k, hi) && Run(cs, lo, hi)
    ensures 0 < lo <= k < hi < |cs| && l.Shape() && Header(m, cs[k].start, cs[k].size, cs[k].used) && cs[k].start < |m|
    ensures 1 <= cs[lo].start <= cs[k].start < cs[hi].start <= |m| - 1 && cs[hi].start == cs[hi - 1].End()
    ensures size == cs[hi].start - cs[lo].start
    ensures JoinedChunk(cs, lo, hi) == Chunk(cs[lo].start, size, false) && Removed(l, cs[k].start, cs[k].size).Shape()
  {
    Shaped(l, cs, Starts(cs, lo, k) + Starts(cs, k + 1, hi));
    assert Marked(m, cs[k].start, cs[k].size, cs[k].used);
    RunBounds(cs, |m|, lo, hi);
    Ordered(cs, |m|, k, hi);
    if lo < k { Ordered(cs, |m|, lo, k); }
    Within(cs, |m|, hi - 1);
    Within(cs, |m|, lo);
    size := cs[hi].start - cs[lo].start;
  }

  lemma MarkedHeader(m: seq<Byte>, s: nat, n: nat)
    requires Marked(m, s, n, false)
    ensures Header(m, s, n, false)
  {}

  lemma ReplaceDone(m: seq<Byte>, l: Lists, cs: seq<Chunk>, lo: nat, k: nat, hi: nat, m': seq<Byte>)
    requires Gathering(m, l, cs, lo, k, hi) && Run(cs, lo, hi) && cs[lo].start <= cs[hi - 1].End() == cs[hi].start
    requires |m'| == |m| && forall i :: 0 <= i < |m| && !(cs[lo].start <= i < cs[hi].start) ==> m'[i] == m[i]
    requires Marked(m', cs[lo].start, cs[hi - 1].End() - cs[lo].start, false)
    ensures l.Shape() && Tiled(Joined(cs, lo, hi), |m|)
    ensures AllMarked(m', Joined(cs, lo, hi)) && UsedBlocks(Joined(cs, lo, hi)) == UsedBlocks(cs)
    ensures ListsOk(Added(Removed(l, cs[k].start, cs[k].size), cs[lo].start, cs[hi - 1].End() - cs[lo].start),
      Joined(cs, lo, hi), {})
  {
    hide Marked, ListsOk, Removed, Added, AllMarked, Joined, Run, UsedBlocks;
    Gathered(m, l, cs, lo, k, hi, m');
    JoinedOk(cs, |m|, lo, hi);
  }

  lemma GatheredRun(m: seq<Byte>, l: Lists, cs: seq<Chunk>, lo: nat, k: nat, hi: nat)
    requires Gathering(m, l, cs, lo, k, hi) && cs[lo - 1].used && cs[hi].used
    ensures Run(cs, lo, hi) && l.Shape() && cs[lo].start <= cs[hi - 1].End() && NoRepeats(l.free[ListOf(cs[k])])
    ensures lo == k <==> cs[lo].start == cs[k].start
    ensures hi == k + 1 <==> cs[hi].start == cs[k].End()
  {
    RunBounds(cs, |m|, lo, hi);
    if lo < k { Ordered(cs, |m|, lo, k); }
    assert cs[k + 1].start == cs[k].End();
    if k + 1 < hi { Ordered(cs, |m|, k + 1, hi); }
  }

  /** The joined chunk as the map shows it. */
  lemma JoinedReads(m: seq<Byte>, cs: seq<Chunk>, r: seq<Chunk>, lo: nat, hi: nat)
    requires Run(cs, lo, hi) && cs[lo].start <= cs[hi - 1].End() && r == Joined(cs, lo, hi) && AllMarked(m, r)
    ensures SizeAtOk(m, cs[lo].start) && SizeAt(m, cs[lo].start) == JoinedChunk(cs, lo, hi).size
  {
    var d := JoinedChunk(cs, lo, hi);
    assert r[lo] == d;
    assert Marked(m, d.start, d.size, d.used);
    HeaderReads(m, d.start, d.size, d.used);
  }

  lemma CursorMoves(l0: Lists, l: Lists, cs: seq<Chunk>, lo: nat, k: nat, hi: nat, u: nat, n: nat)
    requires Tiled(cs, n) && Run(cs, lo, hi) && lo <= k < hi && cs[lo].start <= cs[hi - 1].End()
    requires Cursored(l0, cs, cs[k], u)
    requires l.Shape()
    requires var s, s' := l0.free[ListOf(cs[k])], l.free[ListOf(cs[k])];
      u + 1 <= |s'| && s'[..u + 1] == s[..u + 1] && NoRepeats(s')
    ensures var c, d := cs[k], JoinedChunk(cs, lo, hi);
      && Removed(l, c.start, c.size).Shape()
      && var next := Successor(l.free[c.size - 1], HeapChunk(c.start, c.size));
         && (hi - lo == 1 && l == l0 ==> Advanced(l0, l, c, false, u, next))
         && (hi - lo > 1 ==> Advanced(l0, Added(Removed(l, c.start, c.size), d.start, d.size), c, true, u, next))
  {
    var c, d := cs[k], JoinedChunk(cs, lo, hi);
    var s, s' := l0.free[ListOf(c)], l.free[ListOf(c)];
    assert s[u] == s[..u + 1][u] == s'[u] == HeapChunk(c.start, c.size);
    SuccessorAt(s', u);
    WithoutAt(s', u);
    if hi - lo > 1 {
      JoinedLarger(cs, n, lo, k, hi);
      assert s[..u] == s[..u + 1][..u] && s'[..u] == s'[..u + 1][..u];
    }
  }

  lemma JoinedLarger(cs: seq<Chunk>, n: nat, lo: nat, k: nat, hi: nat)
    requires Tiled(cs, n) && 0 < lo <= k < hi < |cs| && cs[lo].start <= cs[hi - 1].End() && hi - lo > 1
    ensures cs[k].size < JoinedChunk(cs, lo, hi).size
  {
    if lo < k { Ordered(cs, n, lo, k); }
    if k + 1 < hi { Ordered(cs, n, k, hi - 1); }
  }

  predicate SizeAtOk(m: seq<Byte>, p: nat) {
    p < |m| && (p + 3 < |m| || (m[p] != USED_OVFL && m[p] != UNUSED_OVFL))
  }

  predicate SizeBeforeOk(m: seq<Byte>, p: nat) {
    0 < p <= |m| && (4 <= p || (m[p - 1] != USED_OVFL && m[p - 1] != UNUSED_OVFL))
  }

  // ---- combining everything -----------------------------------------------------------------------------------------

  /** With all runs around chunks of at most i blocks joined: such chunks are quiet, no new chunk is
      larger than `biggest`, and one of that size is there to stay. */
  ghost predicate Progress(cs0: seq<Chunk>, cs: seq<Chunk>, i: nat, biggest: nat) {
    && BigMerged(cs) && UsedSet(cs) == UsedSet(cs0) && UsedBlocks(cs) == UsedBlocks(cs0)
    && (forall j :: 0 <= j < |cs| && !cs[j].used && cs[j].size <= i ==> Quiet(cs, j) && cs[j].size <= biggest)
    && (forall j :: 0 <= j < |cs| && !cs[j].used ==> cs[j].size <= biggest || cs[j] in cs0)
    && (biggest > 0 ==> QuietOfSize(cs, biggest))
  }

  ghost predicate QuietOfSize(cs: seq<Chunk>, size: nat) {
    exists j :: Quiet(cs, j) && cs[j].size == size
  }

  /** The first u elements of list i are done. */
  ghost predicate Front(l: Lists, cs: seq<Chunk>, i: nat, u: nat, biggest: nat) {
    && l.Shape() && i < NOF_LISTS && u <= |l.free[i]| && (u > 0 ==> i + 1 <= biggest)
    && forall e :: 0 <= e < u ==> QuietAt(cs, l.free[i][e].start)
  }

  /** The chunk an element of a small list stands for. */
  lemma Listed(l: Lists, cs: seq<Chunk>, i: nat, u: nat) returns (k: nat)
    requires ListsOk(l, cs, {}) && i < NOF_LISTS && u < |l.free[i]|
    ensures k < |cs| && cs[k] == Chunk(l.free[i][u].start, i + 1, false)
    ensures l.free[i][u] == HeapChunk(cs[k].start, i + 1)
  {
    var h := l.free[i][u];
    assert h.size == i + 1 && l.Lists(h.start, h.size);
    assert IsFree(cs, {}, h.start, h.size);
    k :| k < |cs| && cs[k] == Chunk(h.start, h.size, false);
  }

  lemma FrontCursored(l: Lists, cs: seq<Chunk>, i: nat, u: nat, biggest: nat, k: nat)
    requires Front(l, cs, i, u, biggest) && u < |l.free[i]| && k < |cs|
    requires cs[k] == Chunk(l.free[i][u].start, i + 1, false)
    requires l.free[i][u] == HeapChunk(cs[k].start, i + 1)
    ensures Cursored(l, cs, cs[k], u)
  {
    var t := l.free[i][..u];
    forall e | 0 <= e < |t|
      ensures QuietAt(cs, t[e].start)
    {
      assert t[e] == l.free[i][e];
    }
  }

  lemma FrontStep(l: Lists, l': Lists, cs: seq<Chunk>, n: nat, i: nat, u: nat, biggest: nat, lo: nat, k: nat, hi: nat,
                  next: Cursor)
    requires Tiled(cs, n) && ListsOk(l, cs, {}) && Front(l, cs, i, u, biggest) && u < |l.free[i]| && Run(cs, lo, hi)
    requires lo <= k < hi
    requires l.free[i][u] == HeapChunk(cs[k].start, i + 1) && cs[k].size == i + 1
    requires Advanced(l, l', cs[k], hi - lo > 1, u, next)
    ensures cs[lo].start <= cs[hi - 1].End()
    ensures var v := if hi - lo > 1 then u else u + 1;
      forall b :: b >= biggest && b > i ==> Front(l', Joined(cs, lo, hi), i, v, b)
  {
    hide Tiled, QuietAt, Joined;
    RunBounds(cs, n, lo, hi);
    var v := if hi - lo > 1 then u else u + 1;
    JoinedQuiet(cs, n, lo, hi);
    forall e | 0 <= e < v
      ensures QuietAt(Joined(cs, lo, hi), l'.free[i][e].start)
    {
      assert l'.free[i][e] == l'.free[i][..v][e] == l.free[i][..v][e] == l.free[i][e];
      if e < u {
        assert l.free[i][e] != l.free[i][u] && l.free[i][e].size == i + 1;
        QuietKept(cs, n, lo, hi, k, l.free[i][e].start);
      }
    }
  }

  /** A chunk of the joined list is the joined one or an old one outside the run. */
  lemma JoinedOrigin(cs: seq<Chunk>, lo: nat, hi: nat, j: nat)
    requires Run(cs, lo, hi) && cs[lo].start <= cs[hi - 1].End() && j < |Joined(cs, lo, hi)|
    ensures j != lo ==> Joined(cs, lo, hi)[j] == cs[if j < lo then j else j - 1 + (hi - lo)]
    ensures j == lo ==> Joined(cs, lo, hi)[j] == JoinedChunk(cs, lo, hi) && Quiet(Joined(cs, lo, hi), lo)
  {
    var r := Joined(cs, lo, hi);
    if j == lo {
      assert r[lo - 1] == cs[lo - 1] && r[lo + 1] == cs[hi];
    }
  }

  lemma ProgressStep(cs0: seq<Chunk>, cs: seq<Chunk>, n: nat, i: nat, biggest: nat, lo: nat, k: nat, hi: nat)
    requires Tiled(cs, n) && Progress(cs0, cs, i, biggest) && Run(cs, lo, hi) && lo <= k < hi && cs[k].size == i + 1
    ensures cs[lo].start <= cs[hi - 1].End()
    ensures var s := JoinedChunk(cs, lo, hi).size;
      s > i && Progress(cs0, Joined(cs, lo, hi), i, if s > biggest then s else biggest)
  {
    hide UsedBlocks, UsedSet, Joined, Tiled, BigMerged, Run, Quiet, QuietOfSize;
    RunIn(cs, lo, hi);
    RunBounds(cs, n, lo, hi);
    JoinedOk(cs, n, lo, hi);
    JoinedMerged(cs, n, lo, hi);
    var r, s := Joined(cs, lo, hi), JoinedChunk(cs, lo, hi).size;
    if hi - lo > 1 { JoinedLarger(cs, n, lo, k, hi); }
    forall j | 0 <= j < |r| && !r[j].used
      ensures r[j].size <= i ==> Quiet(r, j) && r[j].size <= if s > biggest then s else biggest
      ensures r[j].size <= (if s > biggest then s else biggest) || r[j] in cs0
    {
      ProgressChunk(cs0, cs, i, biggest, lo, k, hi, j);
    }
    ProgressBiggest(cs, biggest, lo, k, hi);
  }

  lemma RunIn(cs: seq<Chunk>, lo: nat, hi: nat)
    requires Run(cs, lo, hi)
    ensures 0 < lo < hi < |cs|
  {}

  lemma ProgressChunk(cs0: seq<Chunk>, cs: seq<Chunk>, i: nat, biggest: nat, lo: nat, k: nat, hi: nat, j: nat)
    requires Progress(cs0, cs, i, biggest) && Run(cs, lo, hi) && lo <= k < hi && cs[lo].start <= cs[hi - 1].End()
    requires j < |Joined(cs, lo, hi)| && !Joined(cs, lo, hi)[j].used && i < JoinedChunk(cs, lo, hi).size
    ensures var r, s := Joined(cs, lo, hi), JoinedChunk(cs, lo, hi).size;
      && (r[j].size <= i ==> Quiet(r, j) && r[j].size <= if s > biggest then s else biggest)
      && (r[j].size <= (if s > biggest then s else biggest) || r[j] in cs0)
  {
    hide UsedBlocks, UsedSet, BigMerged, QuietOfSize;
    JoinedOrigin(cs, lo, hi, j);
    if j != lo {
      var o := if j < lo then j else j - 1 + (hi - lo);
      assert cs[o].size <= biggest || cs[o] in cs0;
      if cs[o].size <= i {
        assert Quiet(cs, o);
        StillQuiet(cs, lo, hi, k, j);
      }
    }
  }

  lemma ProgressBiggest(cs: seq<Chunk>, biggest: nat, lo: nat, k: nat, hi: nat)
    requires Run(cs, lo, hi) && lo <= k < hi && cs[lo].start <= cs[hi - 1].End()
    requires (biggest > 0 ==> QuietOfSize(cs, biggest))
    ensures var s := JoinedChunk(cs, lo, hi).size;
      s >= biggest || biggest > 0 ==> QuietOfSize(Joined(cs, lo, hi), if s > biggest then s else biggest)
  {
    var r, s := Joined(cs, lo, hi), JoinedChunk(cs, lo, hi).size;
    if s >= biggest {
      assert lo < |r|;
      JoinedOrigin(cs, lo, hi, lo);
      assert Quiet(r, lo) && r[lo].size == s;
    } else if biggest > 0 {
      var j :| Quiet(cs, j) && cs[j].size == biggest;
      if j == k {
        QuietRun(cs, lo, hi, k);
      }
      var e := QuietKeeps(cs, lo, hi, k, j);
    }
  }

  lemma QuietRun(cs: seq<Chunk>, lo: nat, hi: nat, k: nat)
    requires Run(cs, lo, hi) && lo <= k < hi && Quiet(cs, k) && cs[lo].start <= cs[hi - 1].End()
    ensures lo == k && hi == k + 1 && JoinedChunk(cs, lo, hi).size == cs[k].size
  {}

  lemma StillQuiet(cs: seq<Chunk>, lo: nat, hi: nat, k: nat, j: nat)
    requires Run(cs, lo, hi) && lo <= k < hi && cs[lo].start <= cs[hi - 1].End() && j < |Joined(cs, lo, hi)| && j != lo
    requires (if j < lo then j else j - 1 + (hi - lo)) < |cs| && Quiet(cs, if j < lo then j else j - 1 + (hi - lo))
    ensures Quiet(Joined(cs, lo, hi), j)
  {
    var r := Joined(cs, lo, hi);
    if j < lo {
      assert j + 1 != lo;
      assert r[j - 1] == cs[j - 1] && r[j] == cs[j] && r[j + 1] == cs[j + 1];
    } else {
      var o := j - 1 + (hi - lo);
      assert o != hi;
      assert r[j - 1] == cs[o - 1] && r[j] == cs[o] && r[j + 1] == cs[o + 1];
    }
  }

  /** The end of a list: all its chunks are quiet. */
  lemma ProgressNext(cs0: seq<Chunk>, cs: seq<Chunk>, n: nat, l: Lists, i: nat, u: nat, biggest: nat)
    requires Tiled(cs, n) && ListsOk(l, cs, {}) && Progress(cs0, cs, i, biggest) && Front(l, cs, i, u, biggest)
    requires u == |l.free[i]|
    ensures Progress(cs0, cs, i + 1, biggest)
  {
    hide BigMerged, UsedSet, UsedBlocks, Tiled;
    forall j | 0 <= j < |cs| && !cs[j].used && cs[j].size == i + 1
      ensures Quiet(cs, j) && cs[j].size <= biggest
    {
      assert IsFree(cs, {}, cs[j].start, cs[j].size);
      assert l.Lists(cs[j].start, cs[j].size);
      var e :| 0 <= e < |l.free[i]| && l.free[i][e] == HeapChunk(cs[j].start, cs[j].size);
      assert QuietAt(cs, l.free[i][e].start);
      var q :| Quiet(cs, q) && cs[q].start == cs[j].start;
      SameStart(cs, n, q, j);
    }
  }

  lemma SameStart(cs: seq<Chunk>, n: nat, i: nat, j: nat)
    requires Tiled(cs, n) && i < |cs| && j < |cs| && cs[i].start == cs[j].start
    ensures i == j
  {
    SameChunk(cs, n, i, j, cs[i].start);
  }

  lemma CursorOnwards(l: Lists, l': Lists, cs: seq<Chunk>, lo: nat, k: nat, hi: nat, u: nat, next: Cursor)
    requires Run(cs, lo, hi) && cs[lo].start <= cs[hi - 1].End() && lo <= k < hi
    requires Advanced(l, l', cs[k], hi - lo > 1, u, next)
    ensures next != At(HeapChunk(cs[k].start, cs[k].size)) && l'.Shape() && ListOf(cs[k]) == cs[k].size - 1
    ensures var s, v := l'.free[ListOf(cs[k])], if hi - lo > 1 then u else u + 1;
      v <= |s| && next == CursorAt(s, v) && (hi - lo > 1 || l' == l)
    ensures hi - lo > 1 ==> |Joined(cs, lo, hi)| < |cs|
    ensures hi - lo == 1 ==> |Joined(cs, lo, hi)| == |cs|
  {}

  lemma StartOfProgress(cs: seq<Chunk>, n: nat)
    requires BigMerged(cs) && Tiled(cs, n)
    ensures Progress(cs, cs, 0, 0)
  {
    hide UsedSet, UsedBlocks, BigMerged;
  }

  lemma EndOfProgress(cs0: seq<Chunk>, cs: seq<Chunk>, biggest: nat)
    requires Progress(cs0, cs, NOF_LISTS, biggest)
    ensures Merged(cs) && UsedSet(cs) == UsedSet(cs0) && (biggest > 0 ==> QuietOfSize(cs, biggest))
    ensures UsedBlocks(cs) == UsedBlocks(cs0)
    ensures forall j ::
      0 <= j < |cs| && !cs[j].used ==> cs[j].size <= biggest || (cs[j] in cs0 && cs[j].size > NOF_LISTS)
  {
    AllMerged(cs0, cs, biggest);
  }

  /** When all small chunks are quiet and no two big ones adjoin, all is merged. */
  lemma AllMerged(cs0: seq<Chunk>, cs: seq<Chunk>, biggest: nat)
    requires Progress(cs0, cs, NOF_LISTS, biggest)
    ensures Merged(cs)
    ensures forall j ::
      0 <= j < |cs| && !cs[j].used ==> cs[j].size <= biggest || (cs[j] in cs0 && cs[j].size > NOF_LISTS)
  {
    hide UsedSet, UsedBlocks;
    forall j | 0 <= j < |cs| - 1
      ensures cs[j].used || cs[j + 1].used
    {
      if !cs[j].used && cs[j].size <= NOF_LISTS { assert Quiet(cs, j); }
      if !cs[j + 1].used && cs[j + 1].size <= NOF_LISTS { assert Quiet(cs, j + 1); }
    }
  }
}
