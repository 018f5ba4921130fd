/** The code an assembler has emitted, as a program of items: which label every use asks for, where
    labels are bound, how the unresolved uses of a label are chained through the code, and which jumps
    have been erased again. */
module LabelChains {
  import opened Basics
  import opened Displacements

  /** A label: unused (0), bound to position -pos - 1, or unbound with its last use at pos - 1. */
  class Label {
    var pos: int

    constructor ()
      ensures pos == 0
    {
      pos := 0;
    }

    predicate IsBound() reads this { pos < 0 }
    predicate IsUnbound() reads this { pos > 0 }
    predicate IsUnused() reads this { pos == 0 }

    function Pos(): int
      reads this
      requires !IsUnused()
    {
      if pos < 0 then -pos - 1 else pos - 1
    }

    method BindTo(p: nat)
      modifies this
      ensures IsBound() && Pos() == p
    {
      pos := -(p as int) - 1;
    }

    method LinkTo(p: nat)
      modifies this
      ensures IsUnbound() && Pos() == p
    {
      pos := p + 1;
    }

    method Unuse()
      modifies this
      ensures IsUnused()
    {
      pos := 0;
    }
  }

  /** What the client asked for: plain bytes, or a use of a label. `forward` says that the label was
      not bound at the time. */
  datatype Item =
    | Plain(bytes: seq<Byte>)
    | Use(kind: Kind, info: nat, target: Label, forward: bool)

  // ---- where jumps lead -------------------------------------------------------------------------------

  /** Item i is an unconditional jump to item j. */
  predicate JumpsTo(items: seq<Item>, bound: map<Label, nat>, i: int, j: int) {
    0 <= i < |items| && items[i].Use? && items[i].kind ==
      AbsoluteJump && items[i].target in bound && bound[items[i].target] == j
  }

  ghost predicate Path(items: seq<Item>, bound: map<Label, nat>, p: seq<int>) {
    p != [] && forall k :: 0 <= k < |p| - 1 ==> JumpsTo(items, bound, p[k], p[k + 1])
  }

  /** Execution that arrives at item i arrives at item j, by unconditional jumps alone. */
  ghost predicate Reaches(items: seq<Item>, bound: map<Label, nat>, i: int, j: int) {
    exists p :: Path(items, bound, p) && p[0] == i && p[|p| - 1] == j
  }

  lemma ReachesSelf(items: seq<Item>, bound: map<Label, nat>, i: int)
    ensures Reaches(items, bound, i, i)
  {
    assert Path(items, bound, [i]);
  }

  lemma ReachesStep(items: seq<Item>, bound: map<Label, nat>, i: int, j: int)
    requires JumpsTo(items, bound, i, j)
    ensures Reaches(items, bound, i, j)
  {
    assert Path(items, bound, [i, j]);
  }

  lemma ReachesThrough(items: seq<Item>, bound: map<Label, nat>, i: int, j: int, k: int)
    requires Reaches(items, bound, i, j) && Reaches(items, bound, j, k)
    ensures Reaches(items, bound, i, k)
  {
    var p :| Path(items, bound, p) && p[0] == i && p[|p| - 1] == j;
    var q :| Path(items, bound, q) && q[0] == j && q[|q| - 1] == k;
    var r := p + q[1..];
    forall m | 0 <= m < |r| - 1
      ensures JumpsTo(items, bound, r[m], r[m + 1])
    {
      if m >= |p| - 1 {
        assert r[m] == q[m - (|p| - 1)] && r[m + 1] == q[m + 1 - (|p| - 1)];
      }
    }
    assert Path(items, bound, r);
    assert r[|r| - 1] == k;
  }

  /** More items and more bound labels change no path. */
  lemma ReachesMore(items: seq<Item>, bound: map<Label, nat>, items': seq<Item>, bound': map<Label, nat>, i: int,
                    j: int)
    requires Reaches(items, bound, i, j) && items <= items'
    requires forall l :: l in bound ==> l in bound' && bound'[l] == bound[l]
    ensures Reaches(items', bound', i, j)
  {
    var p :| Path(items, bound, p) && p[0] == i && p[|p| - 1] == j;
    assert Path(items', bound', p);
  }

  /** Following jumps is deterministic: of two items reached, one lies on the way to the other. */
  lemma {:induction false} ReachesLinear(items: seq<Item>, bound: map<Label, nat>, p: seq<int>, q: seq<int>)
    requires Path(items, bound, p) && Path(items, bound, q) && p[0] == q[0] && |p| <= |q|
    ensures q[..|p|] == p
    decreases |p|
  {
    if |p| > 1 {
      var n := |p| - 1;
      assert Path(items, bound, p[..n]);
      ReachesLinear(items, bound, p[..n], q);
      assert JumpsTo(items, bound, p[n - 1], p[n]) && JumpsTo(items, bound, q[n - 1], q[n]);
      assert q[..n][n - 1] == q[n - 1];
    }
  }

  /** Execution arriving at i ends up, after unconditional jumps, at item e, which is no such jump. */
  ghost predicate EndsUpAt(items: seq<Item>, bound: map<Label, nat>, i: int, e: int) {
    Reaches(items, bound, i, e) && !exists j :: JumpsTo(items, bound, e, j)
  }

  lemma JumpsOn(items: seq<Item>, bound: map<Label, nat>, p: seq<int>, q: seq<int>)
    requires Path(items, bound, p) && Path(items, bound, q) && p[0] == q[0] && |q| < |p|
    ensures JumpsTo(items, bound, q[|q| - 1], p[|q|])
  {
    ReachesLinear(items, bound, q, p);
    assert p[..|q|][|q| - 1] == p[|q| - 1];
    assert JumpsTo(items, bound, p[|q| - 1], p[|q| - 1 + 1]);
  }

  /** Starting further along the same jumps makes no difference to where they end up. */
  lemma SameEnd(items: seq<Item>, bound: map<Label, nat>, i: int, j: int, e: int)
    requires Reaches(items, bound, i, j)
    ensures EndsUpAt(items, bound, i, e) <==> EndsUpAt(items, bound, j, e)
  {
    if EndsUpAt(items, bound, i, e) {
      var p :| Path(items, bound, p) && p[0] == i && p[|p| - 1] == j;
      var q :| Path(items, bound, q) && q[0] == i && q[|q| - 1] == e;
      if |q| < |p| {
        JumpsOn(items, bound, p, q);
      } else {
        PathRest(items, bound, p, q);
      }
    }
    if EndsUpAt(items, bound, j, e) {
      ReachesThrough(items, bound, i, j, e);
    }
  }

  lemma PathRest(items: seq<Item>, bound: map<Label, nat>, p: seq<int>, q: seq<int>)
    requires Path(items, bound, p) && Path(items, bound, q) && p[0] == q[0] && |p| <= |q|
    ensures Reaches(items, bound, p[|p| - 1], q[|q| - 1])
  {
    ReachesLinear(items, bound, p, q);
    var r := q[|p| - 1..];
    assert r[0] == q[..|p|][|p| - 1];
    forall k | 0 <= k < |r| - 1
      ensures JumpsTo(items, bound, r[k], r[k + 1])
    {
      var m := k + |p| - 1;
      assert r[k] == q[m] && r[k + 1] == q[m + 1];
    }
    assert Path(items, bound, r);
  }

  // ---- addresses ----------------------------------------------------------------------------------------

  function Flatten(pieces: seq<seq<Byte>>): seq<Byte> {
    if pieces == [] then [] else Flatten(pieces[..|pieces| - 1]) + pieces[|pieces| - 1]
  }

  /** Where item m starts: erased items take no room. */
  function Addr(pieces: seq<seq<Byte>>, m: int): (a: nat)
    requires 0 <= m <= |pieces|
  {
    |Flatten(pieces[..m])|
  }

  lemma AddrStep(pieces: seq<seq<Byte>>, m: nat)
    requires m < |pieces|
    ensures Addr(pieces, m + 1) == Addr(pieces, m) + |pieces[m]|
  {
    assert pieces[..m + 1][..m] == pieces[..m];
  }

  lemma AddrEnds(pieces: seq<seq<Byte>>)
    ensures Addr(pieces, 0) == 0 && Addr(pieces, |pieces|) == |Flatten(pieces)|
  {
    assert pieces[..0] == [] && pieces[..|pieces|] == pieces;
  }

  lemma {:induction false} AddrMonotone(pieces: seq<seq<Byte>>, m: nat, n: nat)
    requires m <= n <= |pieces|
    ensures Addr(pieces, m) <= Addr(pieces, n)
    decreases n
  {
    if m < n {
      AddrMonotone(pieces, m, n - 1);
      AddrStep(pieces, n - 1);
    }
  }

  /** The start of an item depends only on the sizes of those before it. */
  lemma {:induction false} AddrSame(pieces: seq<seq<Byte>>, pieces': seq<seq<Byte>>, m: nat)
    requires m <= |pieces| && m <= |pieces'| && forall k :: 0 <= k < m ==> |pieces[k]| == |pieces'[k]|
    ensures Addr(pieces, m) == Addr(pieces', m)
    decreases m
  {
    if m > 0 {
      AddrSame(pieces, pieces', m - 1);
      AddrStep(pieces, m - 1);
      AddrStep(pieces', m - 1);
    } else {
      assert pieces[..0] == [] && pieces'[..0] == [];
    }
  }

  lemma {:induction false} FlattenConcat(a: seq<seq<Byte>>, b: seq<seq<Byte>>)
    ensures Flatten(a + b) == Flatten(a) + Flatten(b)
    decreases |b|
  {
    if b == [] {
      assert a + b == a;
    } else {
      var n := |b| - 1;
      assert (a + b)[..|a + b| - 1] == a + b[..n];
      FlattenConcat(a, b[..n]);
    }
  }

  lemma FlattenSnoc(a: seq<seq<Byte>>, x: seq<Byte>)
    ensures Flatten(a + [x]) == Flatten(a) + x
  {
    assert (a + [x])[..|a|] == a;
  }

  lemma Around<T>(s: seq<T>, m: nat)
    requires m < |s|
    ensures s == (s[..m] + [s[m]]) + s[m + 1..]
  {}

  lemma FlattenSplit(pieces: seq<seq<Byte>>, m: nat)
    requires m < |pieces|
    ensures Flatten(pieces) == Flatten(pieces[..m]) + pieces[m] + Flatten(pieces[m + 1..])
  {
    hide Flatten;
    Around(pieces, m);
    FlattenConcat(pieces[..m] + [pieces[m]], pieces[m + 1..]);
    FlattenSnoc(pieces[..m], pieces[m]);
  }

  /** The bytes of item m, as part of the code. */
  lemma PieceInCode(pieces: seq<seq<Byte>>, m: nat)
    requires m < |pieces|
    ensures Addr(pieces, m) + |pieces[m]| <= |Flatten(pieces)|
    ensures Flatten(pieces)[Addr(pieces, m)..Addr(pieces, m) + |pieces[m]|] == pieces[m]
  {
    FlattenSplit(pieces, m);
  }

  function Patched(code: seq<Byte>, pos: nat, w: nat): (c: seq<Byte>)
    requires pos + 4 <= |code| && w < WORD
    ensures |c| == |code|
  {
    code[..pos] + WordBytes(w) + code[pos + 4..]
  }

  lemma PatchMiddle(a: seq<Byte>, op: seq<Byte>, w: nat, w': nat, b: seq<Byte>)
    requires w < WORD && w' < WORD
    ensures var c := a + (op + WordBytes(w)) + b;
      && WordAt(c, |a| + |op|) == w
      && a + (op + WordBytes(w')) + b == Patched(c, |a| + |op|, w')
  {
    hide WordBytes, WordAt;
    var c, pos := a + (op + WordBytes(w)) + b, |a| + |op|;
    assert c[pos..pos + 4] == WordBytes(w);
    WordBytesAt(c, pos, w);
    assert c[..pos] == a + op && c[pos + 4..] == b;
  }

  /** Patching the operand of one item. */
  lemma PatchPiece(pieces: seq<seq<Byte>>, m: nat, op: seq<Byte>, w: nat, w': nat)
    requires m < |pieces| && w < WORD && w' < WORD && pieces[m] == op + WordBytes(w)
    ensures Addr(pieces, m) + |op| + 4 <= |Flatten(pieces)|
    ensures WordAt(Flatten(pieces), Addr(pieces, m) + |op|) == w
    ensures Flatten(pieces[m := op + WordBytes(w')]) == Patched(Flatten(pieces), Addr(pieces, m) + |op|, w')
  {
    hide Flatten, WordBytes, WordAt, Patched;
    var pieces' := pieces[m := op + WordBytes(w')];
    FlattenSplit(pieces, m);
    FlattenSplit(pieces', m);
    assert pieces'[..m] == pieces[..m] && pieces'[m + 1..] == pieces[m + 1..];
    PatchMiddle(Flatten(pieces[..m]), op, w, w', Flatten(pieces[m + 1..]));
  }
}
