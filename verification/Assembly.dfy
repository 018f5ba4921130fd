/** What an assembler knows about the code it has emitted, and the steps that change it: emitting an
    instruction, binding a label, appending one chain to another, resolving a use, erasing a jump. */
module Assembly {
  import opened Basics
  import opened Displacements
  import opened LabelChains

  /** Items with their bytes; where labels are bound and resolved uses lead (as item numbers); what
      lies behind an erased jump; the chain of unresolved uses of every label, latest first, and the
      chain every such use is on. `pending` is the label whose uses wait to be bound to item `mark`. */
  datatype Asm = Asm(
    items: seq<Item>, pieces: seq<seq<Byte>>,
    bound: map<Label, nat>, resolved: map<nat, nat>, erased: map<nat, nat>,
    chains: map<Label, seq<nat>>, home: map<nat, Label>,
    pending: Label, mark: nat)
  {
    function Size(): nat { |Flatten(pieces)| }

    ghost predicate Leads(i: int, j: int) { Reaches(items, bound, i, j) }
  }

  /** The position of the operand field of use m. */
  function Fix(g: Asm, m: nat): nat
    requires m < |g.items| && m < |g.pieces|
  {
    Addr(g.pieces, m) + if g.items[m].Use? then OpcodeSize(g.items[m].kind) else 0
  }

  /** An unresolved use in the code, with the position of the next one. */
  function Unresolved(kind: Kind, info: nat, next: nat): seq<Byte> {
    if WellFormedUse(kind, info) && next < MAX_CODE then Opcode(kind, info) + WordBytes(Displace(next, kind, info).data)
      else []
  }

  /** An unconditional jump that is or was on a chain: the only kind of item that can be erased. */
  predicate Erasable(item: Item) {
    item.Use? && item.kind == AbsoluteJump && item.forward
  }

  ghost predicate Sized(g: Asm) {
    && |g.items| == |g.pieces| && g.Size() <= MAX_CODE && g.mark <= |g.items|
    && g.pending in g.chains && g.pending !in g.bound
    && (forall l :: l in g.bound ==> l in g.chains && g.bound[l] <= |g.items|)
    && (forall l, k :: l in g.chains && 0 <= k < |g.chains[l]| ==> g.chains[l][k] < |g.items|)
  }

  // ---- items -----------------------------------------------------------------------------------------------

  /** An erased jump takes no room and leads past itself, over nothing but erased jumps. */
  ghost predicate ErasedOk(g: Asm, m: nat)
    requires m < |g.items| == |g.pieces| && m in g.erased
  {
    && Erasable(g.items[m]) && g.pieces[m] == [] && m !in g.resolved && m !in g.home
    && m < g.erased[m] <= |g.items| && g.Leads(m, g.erased[m])
    && forall q :: m <= q < g.erased[m] ==> q in g.erased
  }

  /** A resolved use decodes to the address of an item that its label's binding leads to. */
  ghost predicate ResolvedOk(g: Asm, m: nat)
    requires m < |g.items| == |g.pieces| && m in g.resolved
  {
    && g.items[m].Use? && m !in g.home && g.items[m].target in g.bound
    && g.resolved[m] <= |g.items| && g.Leads(g.bound[g.items[m].target], g.resolved[m])
    && Decode(g.pieces[m], Addr(g.pieces, m)) ==
         Reference(g.items[m].kind, g.items[m].info, Addr(g.pieces, g.resolved[m]))
  }

  ghost predicate ItemOk(g: Asm, m: nat)
    requires m < |g.items| == |g.pieces|
  {
    if m in g.erased then ErasedOk(g, m)
    else if m in g.resolved then ResolvedOk(g, m)
    else if g.items[m].Plain? then g.pieces[m] == g.items[m].bytes != [] && m !in g.home
    else m in g.home && g.home[m] in g.chains && m in g.chains[g.home[m]]
  }

  ghost predicate ItemsOk(g: Asm)
    requires |g.items| == |g.pieces|
  {
    && (forall m :: 0 <= m < |g.items| ==> ItemOk(g, m))
    && (forall m :: m in g.erased ==> m < |g.items|)
    && (forall m :: m in g.resolved ==> m < |g.items|)
    && (forall m :: m in g.home ==> m < |g.items|)
  }

  // ---- chains ----------------------------------------------------------------------------------------------

  function NextFix(g: Asm, c: seq<nat>, k: nat): nat
    requires |g.items| == |g.pieces| && k < |c| && forall i :: 0 <= i < |c| ==> c[i] < |g.items|
  {
    if k + 1 < |c| then Fix(g, c[k + 1]) else 0
  }

  /** The k-th use on a chain: its operand field holds the position of the next. */
  ghost predicate LinkOk(g: Asm, l: Label, c: seq<nat>, k: nat)
    requires |g.items| == |g.pieces| && k < |c| && forall i :: 0 <= i < |c| ==> c[i] < |g.items|
  {
    var m := c[k];
    && m in g.home && g.home[m] == l && m !in g.resolved && m !in g.erased
    && g.items[m].Use? && g.items[m].forward && WellFormedUse(g.items[m].kind, g.items[m].info)
    && g.pieces[m] == Unresolved(g.items[m].kind, g.items[m].info, NextFix(g, c, k))
  }

  ghost predicate ChainOk(g: Asm, l: Label, c: seq<nat>)
    requires |g.items| == |g.pieces|
  {
    && (forall i :: 0 <= i < |c| ==> c[i] < |g.items|)
    && (forall k :: 0 <= k < |c| ==> LinkOk(g, l, c, k))
    && (forall i, k :: 0 <= i < k < |c| ==> c[i] != c[k])
  }

  ghost predicate ChainsOk(g: Asm)
    requires |g.items| == |g.pieces|
  {
    forall l :: l in g.chains ==> ChainOk(g, l, g.chains[l])
  }

  /** Chains are acyclic and disjoint, hold exactly the unresolved uses, and the code shows them. */
  ghost predicate Structured(g: Asm) {
    Sized(g) && ItemsOk(g) && ChainsOk(g)
  }

  // ---- what the uses on a chain wait for -------------------------------------------------------------------

  /** Use m may be given the position of label l: it asks for l itself, or its label is bound to a place
      that leads to a jump to l (to the place of l, once that is bound). */
  ghost predicate Owes(g: Asm, m: nat, l: Label)
    requires m < |g.items| && g.items[m].Use?
  {
    var a := g.items[m].target;
    if l in g.bound then a in g.bound && g.Leads(g.bound[a], g.bound[l])
    else a == l || (a in g.bound && exists q :: LeadsToJump(g, g.bound[a], q, l))
  }

  ghost predicate LeadsToJump(g: Asm, i: int, q: int, l: Label) {
    0 <= q < |g.items| && g.items[q].Use? && g.items[q].kind == AbsoluteJump && g.items[q].target == l && g.Leads(i, q)
  }

  ghost predicate OwesOk(g: Asm, l: Label)
    requires l in g.chains
  {
    forall k :: 0 <= k < |g.chains[l]| ==>
      g.chains[l][k] < |g.items| && g.items[g.chains[l][k]].Use? && Owes(g, g.chains[l][k], l)
  }

  /** The pending uses lead to item `mark`, which cannot be erased. */
  ghost predicate PendingOk(g: Asm)
    requires g.pending in g.chains
  {
    && (forall k :: 0 <= k < |g.chains[g.pending]| ==> PendingUse(g, g.chains[g.pending][k]))
    && (g.chains[g.pending] != [] && g.mark < |g.items| ==> !Erasable(g.items[g.mark]))
  }

  ghost predicate PendingUse(g: Asm, m: nat) {
    && m < |g.items| && g.items[m].Use? && g.items[m].target in g.bound
    && g.Leads(g.bound[g.items[m].target], g.mark)
  }

  ghost predicate Waiting(g: Asm)
    requires g.pending in g.chains
  {
    PendingOk(g) && forall l :: l in g.chains && l != g.pending ==> OwesOk(g, l)
  }

  /** No place that a resolved use leads to can be taken back by erasing jumps at the end. */
  ghost predicate Held(g: Asm) {
    forall m :: m in g.resolved ==> HeldAt(g, g.resolved[m])
  }

  ghost predicate HeldAt(g: Asm, j: nat) {
    exists q :: j <= q < |g.items| && !Erasable(g.items[q])
  }

  // ---- adding an item -----------------------------------------------------------------------------------------

  function WithPlain(g: Asm, bytes: seq<Byte>): Asm {
    g.(items := g.items + [Plain(bytes)], pieces := g.pieces + [bytes])
  }

  function WithBackward(g: Asm, kind: Kind, info: nat, l: Label, piece: seq<Byte>): Asm
    requires l in g.bound
  {
    g.(items := g.items + [Use(kind, info, l, false)], pieces := g.pieces + [piece],
       resolved := g.resolved[|g.items| := g.bound[l]])
  }

  function WithForward(g: Asm, kind: Kind, info: nat, l: Label): Asm
    requires Sized(g) && l in g.chains
  {
    var c := g.chains[l];
    g.(items := g.items + [Use(kind, info, l, true)],
       pieces := g.pieces + [Unresolved(kind, info, if c == [] then 0 else Fix(g, c[0]))],
       chains := g.chains[l := [|g.items|] + c], home := g.home[|g.items| := l])
  }

  /** `h` has one item more than `g`; otherwise old items, labels and uses are as they were. */
  ghost predicate OneMore(g: Asm, h: Asm) {
    && |g.items| == |g.pieces| && |h.items| == |h.pieces| == |g.items| + 1
    && h.items[..|g.items|] == g.items && h.pieces[..|g.pieces|] == g.pieces
    && h.bound == g.bound && h.erased == g.erased && h.pending == g.pending && h.mark == g.mark
    && (forall m :: 0 <= m < |g.items| ==> (m in h.resolved <==> m in g.resolved) && (m in h.home <==> m in g.home))
    && (forall m :: 0 <= m < |g.items| && m in g.resolved ==> h.resolved[m] == g.resolved[m])
    && (forall m :: 0 <= m < |g.items| && m in g.home ==> h.home[m] == g.home[m])
    && g.chains.Keys == h.chains.Keys
  }

  lemma OldAddr(g: Asm, h: Asm, m: nat)
    requires OneMore(g, h) && m <= |g.items|
    ensures Addr(h.pieces, m) == Addr(g.pieces, m)
  {
    forall k | 0 <= k < m
      ensures g.pieces[k] == h.pieces[k]
    {
      assert h.pieces[..|g.pieces|][k] == h.pieces[k];
    }
    AddrSame(g.pieces, h.pieces, m);
  }

  lemma OldLeads(g: Asm, h: Asm, i: int, j: int)
    requires OneMore(g, h) && g.Leads(i, j)
    ensures h.Leads(i, j)
  {
    assert g.items <= h.items;
    ReachesMore(g.items, g.bound, h.items, h.bound, i, j);
  }

  lemma OldItem(g: Asm, h: Asm, m: nat)
    requires OneMore(g, h) && m < |g.items| && ItemOk(g, m)
    requires forall l :: l in g.chains ==> forall i :: i in g.chains[l] ==> i in h.chains[l]
    ensures ItemOk(h, m)
  {
    hide Reaches, Decode, Flatten, Addr;
    assert h.items[m] == h.items[..|g.items|][m] && h.pieces[m] == h.pieces[..|g.pieces|][m];
    if m in g.erased {
      OldLeads(g, h, m, g.erased[m]);
    } else if m in g.resolved {
      OldLeads(g, h, g.bound[g.items[m].target], g.resolved[m]);
      OldAddr(g, h, m);
      OldAddr(g, h, g.resolved[m]);
    }
  }

  /** A chain that only old items are on. */
  lemma OldChain(g: Asm, h: Asm, l: Label, c: seq<nat>)
    requires OneMore(g, h) && ChainOk(g, l, c)
    ensures ChainOk(h, l, c)
  {
    hide Reaches, Decode, Flatten, Addr, Unresolved;
    forall k | 0 <= k < |c|
      ensures h.items[c[k]] == g.items[c[k]] && h.pieces[c[k]] == g.pieces[c[k]] && Fix(h, c[k]) == Fix(g, c[k])
    {
      assert h.items[c[k]] == h.items[..|g.items|][c[k]] && h.pieces[c[k]] == h.pieces[..|g.pieces|][c[k]];
      OldAddr(g, h, c[k]);
    }
    forall k | 0 <= k < |c|
      ensures LinkOk(h, l, c, k)
    {
      assert LinkOk(g, l, c, k);
    }
  }

  lemma OldItems(g: Asm, h: Asm)
    requires OneMore(g, h) && ItemsOk(g)
    requires forall l :: l in g.chains ==> forall i :: i in g.chains[l] ==> i in h.chains[l]
    ensures forall m :: 0 <= m < |g.items| ==> ItemOk(h, m)
  {
    hide ItemOk;
    forall m | 0 <= m < |g.items|
      ensures ItemOk(h, m)
    {
      OldItem(g, h, m);
    }
  }

  lemma SizeMore(g: Asm, h: Asm)
    requires OneMore(g, h)
    ensures h.Size() == g.Size() + |h.pieces[|g.items|]|
  {
    assert h.pieces == h.pieces[..|g.pieces|] + [h.pieces[|g.items|]];
    FlattenSnoc(g.pieces, h.pieces[|g.items|]);
  }

  lemma PlainStructured(g: Asm, bytes: seq<Byte>)
    requires Structured(g) && bytes != [] && g.Size() + |bytes| <= MAX_CODE
    ensures Structured(WithPlain(g, bytes)) && WithPlain(g, bytes).Size() == g.Size() + |bytes|
  {
    hide ItemOk, ChainOk;
    var h := WithPlain(g, bytes);
    assert OneMore(g, h);
    OldItems(g, h);
    SizeMore(g, h);
    forall l | l in g.chains
      ensures ChainOk(h, l, h.chains[l])
    {
      OldChain(g, h, l, g.chains[l]);
    }
    PlainItem(h, |g.items|);
  }

  lemma PlainItem(h: Asm, m: nat)
    requires m < |h.items| == |h.pieces| && h.items[m].Plain? && h.pieces[m] == h.items[m].bytes != []
    requires m !in h.erased && m !in h.resolved && m !in h.home
    ensures ItemOk(h, m)
  {}

  lemma BackwardStructured(g: Asm, kind: Kind, info: nat, l: Label, piece: seq<Byte>)
    requires Structured(g) && l in g.bound && g.Size() + |piece| <= MAX_CODE
    requires g.bound[l] <= |g.pieces| && Decode(piece, g.Size()) == Reference(kind, info, Addr(g.pieces, g.bound[l]))
    ensures Structured(WithBackward(g, kind, info, l, piece))
    ensures WithBackward(g, kind, info, l, piece).Size() == g.Size() + |piece|
  {
    hide ItemOk, ChainOk;
    var h := WithBackward(g, kind, info, l, piece);
    assert OneMore(g, h);
    OldItems(g, h);
    SizeMore(g, h);
    forall x | x in g.chains
      ensures ChainOk(h, x, h.chains[x])
    {
      OldChain(g, h, x, g.chains[x]);
    }
    BackwardItem(g, h, kind, info, l, piece);
  }

  lemma BackwardItem(g: Asm, h: Asm, kind: Kind, info: nat, l: Label, piece: seq<Byte>)
    requires Sized(g) && ItemsOk(g) && l in g.bound && h == WithBackward(g, kind, info, l, piece) && OneMore(g, h)
    requires Decode(piece, g.Size()) == Reference(kind, info, Addr(g.pieces, g.bound[l]))
    ensures ItemOk(h, |g.items|)
  {
    hide Reaches, Decode, Flatten, Addr;
    ReachesSelf(h.items, h.bound, g.bound[l]);
    AddrEnds(g.pieces);
    OldAddr(g, h, |g.items|);
    OldAddr(g, h, g.bound[l]);
  }

  lemma ForwardStructured(g: Asm, kind: Kind, info: nat, l: Label)
    requires Structured(g) && l in g.chains && WellFormedUse(kind, info) && g.Size() + OpcodeSize(kind) + 4 <= MAX_CODE
    ensures var h := WithForward(g, kind, info, l);
      && Structured(h) && h.Size() == g.Size() + OpcodeSize(kind) + 4
      && Fix(h, |g.items|) == g.Size() + OpcodeSize(kind)
  {
    ForwardLink(g, kind, info, l);
    ForwardSized(g, kind, info, l);
    ForwardItems(g, kind, info, l);
    ForwardChains(g, kind, info, l);
    hide ItemsOk, ChainsOk, Flatten, Addr;
  }

  lemma ForwardSized(g: Asm, kind: Kind, info: nat, l: Label)
    requires Structured(g) && l in g.chains && WellFormedUse(kind, info) && g.Size() + OpcodeSize(kind) + 4 <= MAX_CODE
    ensures var h := WithForward(g, kind, info, l);
      Sized(h) && h.Size() == g.Size() + OpcodeSize(kind) + 4
  {
    ForwardLink(g, kind, info, l);
    var h := WithForward(g, kind, info, l);
    hide ItemsOk, ChainsOk, Flatten, Addr;
    assert OneMore(g, h);
    SizeMore(g, h);
  }

  lemma ForwardItems(g: Asm, kind: Kind, info: nat, l: Label)
    requires Structured(g) && l in g.chains
    ensures var h := WithForward(g, kind, info, l);
      |h.items| == |h.pieces| && ItemsOk(h)
  {
    ForwardItem(g, kind, info, l);
    ForwardOneMore(g, kind, info, l);
    var h := WithForward(g, kind, info, l);
    hide *;
    OldItems(g, h);
    ItemsFrom(g, h);
  }

  lemma OneMoreSize(g: Asm, h: Asm)
    requires OneMore(g, h)
    ensures |h.items| == |h.pieces| == |g.items| + 1 && |g.items| == |g.pieces|
    ensures h.bound == g.bound && h.pending == g.pending && h.mark == g.mark && h.chains.Keys == g.chains.Keys
  {}

  lemma ItemsFrom(g: Asm, h: Asm)
    requires |g.items| == |g.pieces| && ItemsOk(g) && OneMore(g, h) && ItemOk(h, |g.items|)
    requires forall m :: 0 <= m < |g.items| ==> ItemOk(h, m)
    requires h.resolved == g.resolved && h.home.Keys == g.home.Keys + {|g.items|}
    ensures ItemsOk(h)
  {
    hide ItemOk, Flatten;
  }

  lemma ForwardOneMore(g: Asm, kind: Kind, info: nat, l: Label)
    requires Structured(g) && l in g.chains
    ensures var h := WithForward(g, kind, info, l);
      && OneMore(g, h) && (forall x :: x in g.chains ==> forall i :: i in g.chains[x] ==> i in h.chains[x])
      && h.home.Keys == g.home.Keys + {|g.items|} && h.resolved == g.resolved && ItemsOk(g)
  {
    hide ItemsOk, ChainsOk, Fix, Unresolved;
  }

  lemma ForwardChains(g: Asm, kind: Kind, info: nat, l: Label)
    requires Structured(g) && l in g.chains && WellFormedUse(kind, info) && g.Size() + OpcodeSize(kind) + 4 <= MAX_CODE
    ensures var h := WithForward(g, kind, info, l);
      |h.items| == |h.pieces| && ChainsOk(h)
  {
    ForwardLink(g, kind, info, l);
    ForwardChain(g, kind, info, l);
    var h := WithForward(g, kind, info, l);
    assert OneMore(g, h);
    hide ItemsOk, ChainOk, Flatten, Addr;
    forall x | x in g.chains && x != l
      ensures ChainOk(h, x, h.chains[x])
    {
      OldChain(g, h, x, g.chains[x]);
    }
  }

  lemma FixBound(g: Asm, l: Label, c: seq<nat>, k: nat)
    requires |g.items| == |g.pieces| && g.Size() <= MAX_CODE && ChainOk(g, l, c) && k < |c|
    ensures 0 < Fix(g, c[k]) && Fix(g, c[k]) + 4 <= g.Size() && Fix(g, c[k]) < MAX_CODE
    ensures NextFix(g, c, k) < MAX_CODE
    ensures g.items[c[k]].Use? && WellFormedUse(g.items[c[k]].kind, g.items[c[k]].info)
    ensures g.pieces[c[k]] == Opcode(g.items[c[k]].kind, g.items[c[k]].info)
      + WordBytes(Displace(NextFix(g, c, k), g.items[c[k]].kind, g.items[c[k]].info).data)
    decreases |c| - k
  {
    hide Flatten, Addr, Displace, WordBytes;
    assert LinkOk(g, l, c, k);
    if k + 1 < |c| {
      FixBound(g, l, c, k + 1);
    }
    PieceInCode(g.pieces, c[k]);
  }

  lemma ForwardLink(g: Asm, kind: Kind, info: nat, l: Label)
    requires Structured(g) && l in g.chains && WellFormedUse(kind, info) && g.Size() + OpcodeSize(kind) + 4 <= MAX_CODE
    ensures var h := WithForward(g, kind, info, l);
      && |h.pieces[|g.items|]| == OpcodeSize(kind) + 4 && Addr(h.pieces, |g.items|) == g.Size()
      && (g.chains[l] != [] ==> Fix(h, g.chains[l][0]) == Fix(g, g.chains[l][0]))
  {
    hide Flatten, Addr, Displace, WordBytes;
    var h := WithForward(g, kind, info, l);
    assert OneMore(g, h);
    AddrEnds(g.pieces);
    OldAddr(g, h, |g.items|);
    if g.chains[l] != [] {
      FixBound(g, l, g.chains[l], 0);
      OldAddr(g, h, g.chains[l][0]);
    }
  }

  lemma ForwardChain(g: Asm, kind: Kind, info: nat, l: Label)
    requires Structured(g) && l in g.chains && WellFormedUse(kind, info)
    requires g.chains[l] != [] ==> Fix(WithForward(g, kind, info, l), g.chains[l][0]) == Fix(g, g.chains[l][0])
    ensures var h := WithForward(g, kind, info, l);
      OneMore(g, h) && ChainOk(h, l, h.chains[l])
  {
    var h, c := WithForward(g, kind, info, l), g.chains[l];
    assert OneMore(g, h);
    assert |g.items| !in g.resolved && |g.items| !in g.erased;
    hide Reaches, Decode, Flatten, Addr, Unresolved, ItemsOk;
    OldChain(g, h, l, c);
    ChainPush(h, l, c, |g.items|);
  }

  lemma ChainPush(h: Asm, l: Label, c: seq<nat>, m: nat)
    requires |h.items| == |h.pieces| && ChainOk(h, l, c) && m < |h.items| && m !in c
    requires m in h.home && h.home[m] == l && m !in h.resolved && m !in h.erased
    requires h.items[m].Use? && h.items[m].forward && WellFormedUse(h.items[m].kind, h.items[m].info)
    requires h.pieces[m] == Unresolved(h.items[m].kind, h.items[m].info, if c == [] then 0 else Fix(h, c[0]))
    ensures ChainOk(h, l, [m] + c)
  {
    hide Flatten, Addr, Unresolved, Fix;
    var d := [m] + c;
    forall k | 0 <= k < |d|
      ensures LinkOk(h, l, d, k)
    {
      if k > 0 {
        assert LinkOk(h, l, c, k - 1);
        assert NextFix(h, d, k) == NextFix(h, c, k - 1);
      }
    }
  }

  lemma ForwardItem(g: Asm, kind: Kind, info: nat, l: Label)
    requires Structured(g) && l in g.chains
    ensures |WithForward(g, kind, info, l).items| == |WithForward(g, kind, info, l).pieces|
    ensures ItemOk(WithForward(g, kind, info, l), |g.items|)
  {
    assert |g.items| !in g.erased && |g.items| !in g.resolved;
    assert WithForward(g, kind, info, l).chains[l][0] == |g.items|;
  }

  lemma OldOwes(g: Asm, h: Asm, m: nat, l: Label)
    requires OneMore(g, h) && m < |g.items| && g.items[m].Use? && Owes(g, m, l)
    ensures m < |h.items| && h.items[m] == g.items[m] && Owes(h, m, l)
  {
    hide Reaches, Flatten;
    assert h.items[m] == h.items[..|g.items|][m];
    var a := g.items[m].target;
    if l in g.bound {
      OldLeads(g, h, g.bound[a], g.bound[l]);
    } else if a != l {
      var q :| LeadsToJump(g, g.bound[a], q, l);
      OldLeads(g, h, g.bound[a], q);
      assert h.items[q] == h.items[..|g.items|][q];
      assert LeadsToJump(h, h.bound[a], q, l);
    }
  }

  lemma OldPending(g: Asm, h: Asm)
    requires OneMore(g, h) && g.pending in g.chains && PendingOk(g) && h.chains[g.pending] == g.chains[g.pending]
    requires g.chains[g.pending] != [] && g.mark == |g.items| ==> !Erasable(h.items[|g.items|])
    requires g.mark <= |g.items|
    ensures PendingOk(h)
  {
    hide Reaches, Flatten, Erasable;
    var c := g.chains[g.pending];
    forall k | 0 <= k < |c|
      ensures PendingUse(h, c[k])
    {
      assert PendingUse(g, c[k]);
      OldLeads(g, h, g.bound[g.items[c[k]].target], g.mark);
      assert h.items[c[k]] == h.items[..|g.items|][c[k]];
    }
    if g.mark < |g.items| {
      assert h.items[g.mark] == h.items[..|g.items|][g.mark];
    }
  }

  /** Emitting an item keeps what the uses on the chains wait for; a jump at the place that pending
      uses wait for has to take them over first. */
  lemma WaitingMore(g: Asm, h: Asm, l: Label)
    requires OneMore(g, h) && g.pending in g.chains && Waiting(g) && g.mark <= |g.items|
    requires g.chains[g.pending] != [] && g.mark == |g.items| ==> !Erasable(h.items[|g.items|])
    requires forall x :: x in g.chains && x != l ==> h.chains[x] == g.chains[x]
    requires l in g.chains && h.chains[l] != g.chains[l] ==> ForwardPush(g, h, l)
    ensures Waiting(h)
  {
    hide Owes, PendingOk, Erasable;
    OldPending(g, h);
    forall x | x in g.chains && x != g.pending
      ensures OwesOk(h, x)
    {
      assert OwesOk(g, x);
      forall k | 0 <= k < |h.chains[x]|
        ensures h.chains[x][k] < |h.items| && h.items[h.chains[x][k]].Use? && Owes(h, h.chains[x][k], x)
      {
        if h.chains[x] == g.chains[x] {
          OldOwes(g, h, h.chains[x][k], x);
        } else if k > 0 {
          assert h.chains[x][k] == g.chains[x][k - 1];
          OldOwes(g, h, h.chains[x][k], x);
        } else {
          OwesItself(h, h.chains[x][k], x);
        }
      }
    }
  }

  ghost predicate ForwardPush(g: Asm, h: Asm, l: Label)
    requires OneMore(g, h) && l in g.chains
  {
    && l != g.pending && l !in g.bound && h.chains[l] == [|g.items|] + g.chains[l]
    && h.items[|g.items|].Use? && h.items[|g.items|].target == l
  }

  lemma OwesItself(g: Asm, m: nat, l: Label)
    requires m < |g.items| && g.items[m].Use? && g.items[m].target == l && l !in g.bound
    ensures Owes(g, m, l)
  {}

  lemma HeldMore(g: Asm, h: Asm)
    requires OneMore(g, h) && Held(g) && (forall m :: m in h.resolved ==> m <= |g.items|)
    requires |g.items| in h.resolved ==> !Erasable(h.items[|g.items|]) && h.resolved[|g.items|] <= |g.items|
    ensures Held(h)
  {
    hide Erasable;
    forall m | m in h.resolved
      ensures HeldAt(h, h.resolved[m])
    {
      if m < |g.items| {
        assert HeldAt(g, g.resolved[m]);
        var q :| g.resolved[m] <= q < |g.items| && !Erasable(g.items[q]);
        assert h.items[q] == h.items[..|g.items|][q];
      }
    }
  }

  // ---- steps that leave sizes alone ---------------------------------------------------------------------------

  ghost predicate SameLayout(g: Asm, h: Asm) {
    && h.items == g.items && h.bound == g.bound && h.erased == g.erased && h.pending == g.pending
    && |h.pieces| == |g.pieces| == |g.items| && forall k :: 0 <= k < |g.pieces| ==> |h.pieces[k]| == |g.pieces[k]|
  }

  lemma LayoutAddr(g: Asm, h: Asm)
    requires SameLayout(g, h)
    ensures forall m :: 0 <= m <= |g.items| ==> Addr(h.pieces, m) == Addr(g.pieces, m)
    ensures h.Size() == g.Size()
  {
    hide Flatten, Addr;
    forall m | 0 <= m <= |g.items|
      ensures Addr(h.pieces, m) == Addr(g.pieces, m)
    {
      AddrSame(g.pieces, h.pieces, m);
    }
    AddrEnds(g.pieces);
    AddrEnds(h.pieces);
  }

  lemma LayoutFix(g: Asm, h: Asm, m: nat)
    requires SameLayout(g, h) && m < |g.items|
    ensures Fix(h, m) == Fix(g, m)
  {
    hide Flatten, Addr;
    LayoutAddr(g, h);
  }

  /** An item not involved in the step. */
  lemma LayoutItem(g: Asm, h: Asm, m: nat)
    requires SameLayout(g, h) && m < |g.items| && ItemOk(g, m)
    requires (m in h.resolved <==> m in g.resolved) && (m in h.home <==> m in g.home)
    requires m in g.resolved ==> h.resolved[m] == g.resolved[m]
    requires m !in g.home ==> h.pieces[m] == g.pieces[m]
    requires m in g.home && g.home[m] in g.chains && m in g.chains[g.home[m]] ==>
      h.home[m] in h.chains && m in h.chains[h.home[m]]
    ensures ItemOk(h, m)
  {
    hide Flatten, Addr, Reaches, Decode;
    LayoutAddr(g, h);
  }

  lemma LayoutChain(g: Asm, h: Asm, l: Label, c: seq<nat>)
    requires SameLayout(g, h) && ChainOk(g, l, c)
    requires forall k ::
      0 <= k < |c| ==> h.pieces[c[k]] == g.pieces[c[k]] && c[k] in h.home && h.home[c[k]] == l && c[k] !in h.resolved
    ensures ChainOk(h, l, c)
  {
    hide Flatten, Addr, Unresolved, Fix, LinkOk;
    forall k | 0 <= k < |c|
      ensures Fix(h, c[k]) == Fix(g, c[k]) && c[k] !in h.erased
    {
      assert LinkOk(g, l, c, k);
      LinkFacts(g, l, c, k);
      LayoutFix(g, h, c[k]);
    }
    ChainMoved(g, h, l, c);
  }

  lemma LinkFacts(g: Asm, l: Label, c: seq<nat>, k: nat)
    requires |g.items| == |g.pieces| && k < |c| && (forall i :: 0 <= i < |c| ==> c[i] < |g.items|) && LinkOk(g, l, c, k)
    ensures c[k] in g.home && g.home[c[k]] == l && c[k] !in g.resolved && c[k] !in g.erased && g.items[c[k]].Use?
  {}

  /** A chain none of whose uses is touched or moves. */
  lemma ChainMoved(g: Asm, h: Asm, l: Label, c: seq<nat>)
    requires |g.items| == |g.pieces| == |h.pieces| && h.items == g.items && ChainOk(g, l, c)
    requires forall k :: 0 <= k < |c| ==>
      && h.pieces[c[k]] == g.pieces[c[k]] && Fix(h, c[k]) == Fix(g, c[k])
      && c[k] in h.home && h.home[c[k]] == l && c[k] !in h.resolved && c[k] !in h.erased
    ensures ChainOk(h, l, c)
  {
    hide Flatten, Addr, Unresolved, Fix;
    forall k | 0 <= k < |c|
      ensures LinkOk(h, l, c, k)
    {
      assert LinkOk(g, l, c, k);
    }
  }

  // ---- appending the pending uses to a chain ----------------------------------------------------------------------

  /** `Assembler::link_to(L, _unbound_label)`: the pending chain is appended to that of `l`. */
  function Linked(g: Asm, l: Label): Asm
    requires Sized(g) && l in g.chains
  {
    var c, a := g.chains[l], g.chains[g.pending];
    g.(pieces := if c == [] || a == [] then g.pieces else
         var m := c[|c| - 1];
         if g.items[m].Use? then g.pieces[m := Unresolved(g.items[m].kind, g.items[m].info, Fix(g, a[0]))]
           else g.pieces,
       chains := g.chains[l := c + a][g.pending := []],
       home := g.home + map m | m in a :: l)
  }

  lemma LinkedLayout(g: Asm, l: Label)
    requires Structured(g) && l in g.chains && l != g.pending
    ensures SameLayout(g, Linked(g, l)) && Linked(g, l).Size() == g.Size()
    ensures forall m ::
      0 <= m < |g.items| && (g.chains[l] == [] || m != g.chains[l][|g.chains[l]| - 1]) ==>
        Linked(g, l).pieces[m] == g.pieces[m]
  {
    var c, a := g.chains[l], g.chains[g.pending];
    hide Flatten, Addr, WordBytes, ItemsOk, Displace;
    if c != [] && a != [] {
      assert ChainOk(g, l, c) && ChainOk(g, g.pending, a);
      FixBound(g, l, c, |c| - 1);
      FixBound(g, g.pending, a, 0);
    }
    assert SameLayout(g, Linked(g, l));
    LayoutAddr(g, Linked(g, l));
  }

  lemma LinkedStructured(g: Asm, l: Label)
    requires Structured(g) && l in g.chains && l != g.pending
    ensures Structured(Linked(g, l)) && Linked(g, l).Size() == g.Size() && SameLayout(g, Linked(g, l))
  {
    LinkedLayout(g, l);
    LinkedSized(g, l);
    LinkedItems(g, l);
    LinkedChains(g, l);
    hide Sized, ItemsOk, ChainsOk, Linked;
  }

  lemma LinkedSized(g: Asm, l: Label)
    requires Structured(g) && l in g.chains && l != g.pending
    ensures Sized(Linked(g, l))
  {
    LinkedLayout(g, l);
    hide ItemsOk, ChainsOk, Flatten, Unresolved, Fix;
    var c, a, h := g.chains[l], g.chains[g.pending], Linked(g, l);
    forall x, k | x in h.chains && 0 <= k < |h.chains[x]|
      ensures h.chains[x][k] < |h.items|
    {
      if x == l && k >= |c| {
        assert h.chains[x][k] == a[k - |c|];
      }
    }
  }

  lemma LinkedItems(g: Asm, l: Label)
    requires Structured(g) && l in g.chains && l != g.pending
    ensures |Linked(g, l).items| == |Linked(g, l).pieces| && ItemsOk(Linked(g, l))
  {
    LinkedLayout(g, l);
    var h := Linked(g, l);
    forall m | 0 <= m < |g.items|
      ensures ItemOk(h, m)
    {
      LinkedItem(g, l, m);
    }
    assert forall m :: m in g.chains[g.pending] ==> m < |g.items|;
    hide ItemOk, ChainsOk, Flatten, Unresolved, Fix;
  }

  lemma LinkedItem(g: Asm, l: Label, m: nat)
    requires Structured(g) && l in g.chains && l != g.pending && m < |g.items| && SameLayout(g, Linked(g, l))
    ensures ItemOk(Linked(g, l), m)
  {
    var c, a, h := g.chains[l], g.chains[g.pending], Linked(g, l);
    OnChain(g, l);
    OnChain(g, g.pending);
    assert ItemOk(g, m);
    hide ItemOk, ItemsOk, ChainsOk, Flatten, Unresolved, Fix;
    LayoutItem(g, h, m);
  }

  /** Uses on a chain are at home there. */
  lemma OnChain(g: Asm, l: Label)
    requires Structured(g) && l in g.chains
    ensures forall m ::
      m in g.chains[l] ==> m < |g.items| && m in g.home && g.home[m] == l && m !in g.resolved && m !in g.erased
    ensures forall m :: m in g.chains[l] ==> g.items[m].Use? && g.items[m].forward
  {
    hide Flatten, Unresolved, ItemsOk;
    var c := g.chains[l];
    assert ChainOk(g, l, c);
    forall m | m in c
      ensures m < |g.items| && m in g.home && g.home[m] == l && m !in g.resolved && m !in g.erased
      ensures g.items[m].Use? && g.items[m].forward
    {
      var k :| 0 <= k < |c| && c[k] == m;
      assert LinkOk(g, l, c, k);
    }
  }

  lemma LinkedChains(g: Asm, l: Label)
    requires Structured(g) && l in g.chains && l != g.pending
    ensures |Linked(g, l).items| == |Linked(g, l).pieces| && ChainsOk(Linked(g, l))
  {
    LinkedLayout(g, l);
    LinkedChain(g, l);
    var c, a, h := g.chains[l], g.chains[g.pending], Linked(g, l);
    forall x | x in g.chains && x != l && x != g.pending
      ensures ChainOk(h, x, h.chains[x])
    {
      OtherChain(g, l, x);
    }
    hide ChainOk, Flatten, Unresolved, Fix, ItemsOk;
    assert ChainOk(h, g.pending, []) by { EmptyChain(h, g.pending); }
  }

  lemma EmptyChain(g: Asm, l: Label)
    requires |g.items| == |g.pieces|
    ensures ChainOk(g, l, [])
  {}

  lemma OtherChain(g: Asm, l: Label, x: Label)
    requires Structured(g) && l in g.chains && l != g.pending && x in g.chains && x != l && x != g.pending
    ensures |Linked(g, l).items| == |Linked(g, l).pieces| && ChainOk(Linked(g, l), x, g.chains[x])
  {
    hide ChainOk, ChainsOk, Flatten, Unresolved, Fix, ItemsOk, SameLayout;
    LinkedLayout(g, l);
    OnChain(g, x);
    OnChain(g, l);
    OnChain(g, g.pending);
    ThatChain(g, x);
    LinkedPieces(g, l);
    var h, c := Linked(g, l), g.chains[x];
    forall k: nat | k < |c|
      ensures h.pieces[c[k]] == g.pieces[c[k]] && c[k] in h.home && h.home[c[k]] == x && c[k] !in h.resolved
    {
      var m: nat := c[k];
      assert m in c && m < |g.items| && m in g.home && g.home[m] == x && m !in g.resolved;
      if g.chains[l] != [] { assert g.chains[l][|g.chains[l]| - 1] in g.chains[l]; }
      assert c[k] !in g.chains[g.pending];
    }
    LayoutChain(g, h, x, c);
  }

  lemma LinkedPieces(g: Asm, l: Label)
    requires Sized(g) && l in g.chains
    ensures var h := Linked(g, l); |h.pieces| == |g.pieces| == |h.items| && h.items == g.items
  {}

  lemma LinkedChain(g: Asm, l: Label)
    requires Structured(g) && l in g.chains && l != g.pending
    ensures |Linked(g, l).items| == |Linked(g, l).pieces| && ChainOk(Linked(g, l), l, Linked(g, l).chains[l])
  {
    var c, a, h := g.chains[l], g.chains[g.pending], Linked(g, l);
    LinkedLayout(g, l);
    OnChain(g, l);
    OnChain(g, g.pending);
    assert ChainOk(g, l, c) && ChainOk(g, g.pending, a);
    var d := c + a;
    forall k | 0 <= k < |d|
      ensures d[k] < |g.items|
    {
      if k >= |c| { assert d[k] == a[k - |c|]; }
    }
    forall k | 0 <= k < |d|
      ensures LinkOk(h, l, d, k)
    {
      if k < |c| {
        LinkedFirst(g, l, k);
      } else {
        LinkedSecond(g, l, k);
      }
    }
    hide LinkOk, ItemsOk, ChainsOk, Flatten, Unresolved, Fix;
    DisjointConcat(c, a);
  }

  lemma LinkedFirst(g: Asm, l: Label, k: nat)
    requires Structured(g) && l in g.chains && l != g.pending && k < |g.chains[l]|
    ensures var c, a, h := g.chains[l], g.chains[g.pending], Linked(g, l);
      && |h.items| == |h.pieces| && (forall i :: 0 <= i < |c + a| ==> (c + a)[i] < |h.items|)
      && LinkOk(h, l, c + a, k)
  {
    var c, a, h := g.chains[l], g.chains[g.pending], Linked(g, l);
    var d := c + a;
    LinkedLayout(g, l);
    OnChain(g, l);
    OnChain(g, g.pending);
    LinkedElements(g, l);
    assert ChainOk(g, l, c) && LinkOk(g, l, c, k) && c[k] in c;
    hide Flatten, Unresolved, Addr, ItemsOk, ChainsOk;
    if k + 1 < |d| {
      LayoutFix(g, h, d[k + 1]);
    }
  }

  lemma LinkedSecond(g: Asm, l: Label, k: nat)
    requires Structured(g) && l in g.chains && l != g.pending
    requires |g.chains[l]| <= k < |g.chains[l]| + |g.chains[g.pending]|
    ensures var c, a, h := g.chains[l], g.chains[g.pending], Linked(g, l);
      && |h.items| == |h.pieces| && (forall i :: 0 <= i < |c + a| ==> (c + a)[i] < |h.items|)
      && LinkOk(h, l, c + a, k)
  {
    var c, a, h := g.chains[l], g.chains[g.pending], Linked(g, l);
    var d, n := c + a, k - |c|;
    LinkedLayout(g, l);
    OnChain(g, l);
    OnChain(g, g.pending);
    LinkedElements(g, l);
    assert ChainOk(g, g.pending, a) && LinkOk(g, g.pending, a, n) && d[k] == a[n] && a[n] in a;
    assert c != [] ==> c[|c| - 1] in c;
    hide Flatten, Unresolved, Addr, ItemsOk, ChainsOk;
    if k + 1 < |d| {
      LayoutFix(g, h, d[k + 1]);
      assert d[k + 1] == a[n + 1];
    }
  }

  lemma LinkedElements(g: Asm, l: Label)
    requires Sized(g) && l in g.chains
    ensures forall i ::
      0 <= i < |g.chains[l] + g.chains[g.pending]| ==> (g.chains[l] + g.chains[g.pending])[i] < |g.items|
  {
    var c, a := g.chains[l], g.chains[g.pending];
    forall i | 0 <= i < |c + a|
      ensures (c + a)[i] < |g.items|
    {
      if i >= |c| { assert (c + a)[i] == a[i - |c|]; }
    }
  }

  lemma DisjointConcat(c: seq<nat>, a: seq<nat>)
    requires (forall i, k :: 0 <= i < k < |c| ==> c[i] != c[k]) && (forall i, k :: 0 <= i < k < |a| ==> a[i] != a[k])
    requires forall m :: m in c ==> m !in a
    ensures forall i, k :: 0 <= i < k < |c + a| ==> (c + a)[i] != (c + a)[k]
  {
    var d := c + a;
    forall i, k | 0 <= i < k < |d|
      ensures d[i] != d[k]
    {
      if k >= |c| {
        assert d[k] == a[k - |c|] && d[k] in a;
        if i < |c| {
          assert d[i] == c[i] && c[i] in c;
        } else {
          assert d[i] == a[i - |c|];
        }
      }
    }
  }

  /** Binding a label where the pending uses lead: its chain may take them over. */
  lemma LinkedWaiting(g: Asm, l: Label)
    requires Structured(g) && Waiting(g) && l in g.bound && g.bound[l] == g.mark
    ensures l != g.pending && Linked(g, l).pending in Linked(g, l).chains && Waiting(Linked(g, l))
  {
    var h := Linked(g, l);
    hide Unresolved, Fix, ItemsOk, ChainsOk, Owes, PendingUse, Erasable;
    assert PendingOk(h);
    forall x | x in h.chains && x != h.pending
      ensures OwesOk(h, x)
    {
      assert OwesOk(g, x);
      if x == l {
        LinkedOwes(g, l);
      } else {
        SameOwes(g, h, x);
      }
    }
  }

  lemma SameOwes(g: Asm, h: Asm, x: Label)
    requires h.items == g.items && h.bound == g.bound && x in g.chains && x in h.chains && h.chains[x] == g.chains[x]
    requires OwesOk(g, x)
    ensures OwesOk(h, x)
  {
    hide Reaches;
    forall k | 0 <= k < |h.chains[x]|
      ensures Owes(h, h.chains[x][k], x)
    {
      SameOwed(g, h, h.chains[x][k], x);
    }
  }

  lemma SameOwed(g: Asm, h: Asm, m: nat, l: Label)
    requires h.items == g.items && h.bound == g.bound && m < |g.items| && g.items[m].Use? && Owes(g, m, l)
    ensures Owes(h, m, l)
  {
    hide Reaches;
    var a := g.items[m].target;
    if l !in g.bound && a != l {
      var q :| LeadsToJump(g, g.bound[a], q, l);
      assert LeadsToJump(h, h.bound[a], q, l);
    }
  }

  lemma LinkedOwes(g: Asm, l: Label)
    requires Structured(g) && PendingOk(g) && l in g.bound && g.bound[l] == g.mark && OwesOk(g, l)
    ensures OwesOk(Linked(g, l), l)
  {
    var c, a, h := g.chains[l], g.chains[g.pending], Linked(g, l);
    hide Unresolved, Fix, ItemsOk, ChainsOk, Reaches, Erasable;
    forall k | 0 <= k < |c + a|
      ensures (c + a)[k] < |h.items| && h.items[(c + a)[k]].Use? && Owes(h, (c + a)[k], l)
    {
      if k < |c| {
        SameOwed(g, h, c[k], l);
      } else {
        assert PendingUse(g, a[k - |c|]);
      }
    }
  }

  /** `h` is `g` after a jump to `l` has been emitted that takes the pending uses over. */
  ghost predicate TakenOver(g: Asm, h: Asm, l: Label) {
    && l in g.chains && g.pending in g.chains && l != g.pending && l !in g.bound && g.mark == |g.items|
    && h.items == g.items + [Use(AbsoluteJump, 0, l, true)] && h.bound == g.bound && h.pending == g.pending
    && h.chains == g.chains[l := [|g.items|] + (g.chains[l] + g.chains[g.pending])][g.pending := []]
  }

  lemma JumpTakesOver(g: Asm, l: Label)
    requires Structured(g) && l in g.chains && l !in g.bound && l != g.pending && g.mark == |g.items|
    requires Structured(Linked(g, l))
    ensures TakenOver(g, WithForward(Linked(g, l), AbsoluteJump, 0, l), l)
  {
    hide Fix, Unresolved, ItemsOk, ChainsOk, Flatten;
    assert forall x :: x in WithForward(Linked(g, l), AbsoluteJump, 0, l).chains <==> x in g.chains;
  }

  /** A jump emitted where pending uses lead takes them over: they may go where it goes. */
  lemma TakenOverWaiting(g: Asm, h: Asm, l: Label)
    requires TakenOver(g, h, l) && Waiting(g)
    ensures Waiting(h)
  {
    hide Owes, PendingUse, Erasable;
    forall x | x in h.chains && x != h.pending
      ensures OwesOk(h, x)
    {
      if x == l {
        JumpOwes(g, h, l);
      } else {
        JumpOwesOther(g, h, l, x);
      }
    }
  }

  lemma JumpOwesOther(g: Asm, h: Asm, l: Label, x: Label)
    requires TakenOver(g, h, l) && x in g.chains && x != g.pending && x != l && OwesOk(g, x)
    ensures OwesOk(h, x)
  {
    hide Owes;
    forall k | 0 <= k < |h.chains[x]|
      ensures h.chains[x][k] < |h.items| && h.items[h.chains[x][k]].Use? && Owes(h, h.chains[x][k], x)
    {
      OwesLonger(g, h, h.chains[x][k], x);
    }
  }

  lemma JumpOwes(g: Asm, h: Asm, l: Label)
    requires TakenOver(g, h, l) && PendingOk(g) && OwesOk(g, l)
    ensures OwesOk(h, l)
  {
    var c, a := g.chains[l], g.chains[g.pending];
    hide Owes, PendingUse;
    forall k | 0 <= k < |h.chains[l]|
      ensures h.chains[l][k] < |h.items| && h.items[h.chains[l][k]].Use? && Owes(h, h.chains[l][k], l)
    {
      var m := h.chains[l][k];
      if k == 0 {
        OwesItself(h, m, l);
      } else if k - 1 < |c| {
        assert m == c[k - 1];
        OwesLonger(g, h, m, l);
      } else {
        assert m == a[k - 1 - |c|];
        PendingOwes(g, h, m, l);
      }
    }
  }

  lemma OwesLonger(g: Asm, h: Asm, m: nat, l: Label)
    requires g.items <= h.items && h.bound == g.bound && m < |g.items| && g.items[m].Use? && Owes(g, m, l)
    ensures h.items[m] == g.items[m] && Owes(h, m, l)
  {
    hide Reaches;
    var a := g.items[m].target;
    if l in g.bound {
      ReachesMore(g.items, g.bound, h.items, h.bound, g.bound[a], g.bound[l]);
    } else if a != l {
      var q :| LeadsToJump(g, g.bound[a], q, l);
      ReachesMore(g.items, g.bound, h.items, h.bound, g.bound[a], q);
      assert LeadsToJump(h, h.bound[a], q, l);
    }
  }

  lemma PendingOwes(g: Asm, h: Asm, m: nat, l: Label)
    requires h.items == g.items + [Use(AbsoluteJump, 0, l, true)] && h.bound == g.bound && l !in g.bound
    requires g.mark == |g.items|
    requires PendingUse(g, m)
    ensures m < |g.items| && g.items[m].Use? && h.items[m] == g.items[m] && Owes(h, m, l)
  {
    hide Reaches;
    var a := g.items[m].target;
    ReachesMore(g.items, g.bound, h.items, h.bound, g.bound[a], |g.items|);
    assert LeadsToJump(h, h.bound[a], |g.items|, l);
  }

  // ---- labels -----------------------------------------------------------------------------------------------------

  /** A label is seen for the first time. */
  function Entered(g: Asm, l: Label): Asm {
    g.(chains := g.chains[l := []])
  }

  lemma EnteredStructured(g: Asm, l: Label)
    requires Structured(g) && l !in g.chains
    ensures Structured(Entered(g, l))
  {
    var h := Entered(g, l);
    hide Flatten, Unresolved, Reaches, Decode, Erasable;
    forall m | 0 <= m < |g.items|
      ensures ItemOk(h, m)
    {
      assert ItemOk(g, m);
    }
    forall x | x in h.chains
      ensures ChainOk(h, x, h.chains[x])
    {
      EnteredChain(g, l, x);
    }
    hide ItemOk, ChainOk;
  }

  lemma EnteredWaiting(g: Asm, l: Label)
    requires Structured(g) && Waiting(g) && l !in g.chains
    ensures Waiting(Entered(g, l))
  {
    var h := Entered(g, l);
    hide Flatten, Reaches, Erasable, ItemsOk, ChainsOk, Owes, PendingUse;
    forall x | x in h.chains && x != h.pending
      ensures OwesOk(h, x)
    {
      if x != l {
        SameOwes(g, h, x);
      }
    }
    forall k | 0 <= k < |h.chains[h.pending]|
      ensures PendingUse(h, h.chains[h.pending][k])
    {
      assert PendingUse(g, h.chains[h.pending][k]);
      SamePendingUse(g, h, h.chains[h.pending][k]);
    }
  }

  lemma SamePendingUse(g: Asm, h: Asm, m: nat)
    requires PendingUse(g, m) && h.items == g.items && h.bound == g.bound && h.mark == g.mark
    ensures PendingUse(h, m)
  {}

  lemma SameHeld(g: Asm, h: Asm)
    requires Held(g) && h.items == g.items && h.resolved == g.resolved
    ensures Held(h)
  {
    hide Erasable;
    forall m | m in h.resolved
      ensures HeldAt(h, h.resolved[m])
    {
      assert HeldAt(g, g.resolved[m]);
      var q :| g.resolved[m] <= q < |g.items| && !Erasable(g.items[q]);
      assert q < |h.items| && !Erasable(h.items[q]);
    }
  }

  lemma EnteredChain(g: Asm, l: Label, x: Label)
    requires Structured(g) && l !in g.chains && x in Entered(g, l).chains
    ensures ChainOk(Entered(g, l), x, Entered(g, l).chains[x])
  {
    hide Flatten, Unresolved, ItemOk;
    if x != l {
      var c, h := g.chains[x], Entered(g, l);
      assert ChainOk(g, x, c);
      forall k | 0 <= k < |c|
        ensures LinkOk(h, x, c, k)
      {
        assert LinkOk(g, x, c, k);
      }
    }
  }

  /** A label is bound to the end of the code. */
  function BoundHere(g: Asm, l: Label): Asm {
    g.(bound := g.bound[l := |g.items|])
  }

  lemma BoundLeads(g: Asm, l: Label, i: int, j: int)
    requires l !in g.bound && g.Leads(i, j)
    ensures BoundHere(g, l).Leads(i, j)
  {
    ReachesMore(g.items, g.bound, g.items, BoundHere(g, l).bound, i, j);
  }

  lemma BoundStructured(g: Asm, l: Label)
    requires Structured(g) && l in g.chains && l !in g.bound && l != g.pending
    ensures Structured(BoundHere(g, l))
  {
    var h := BoundHere(g, l);
    hide Flatten, Unresolved, Reaches, Decode, Erasable;
    forall m | 0 <= m < |g.items|
      ensures ItemOk(h, m)
    {
      BoundItem(g, l, m);
    }
    forall x | x in h.chains
      ensures ChainOk(h, x, h.chains[x])
    {
      BoundChain(g, l, x);
    }
    hide ItemOk, ChainOk;
  }

  lemma BoundItem(g: Asm, l: Label, m: nat)
    requires Structured(g) && l !in g.bound && m < |g.items|
    ensures ItemOk(BoundHere(g, l), m)
  {
    hide Flatten, Unresolved, Reaches, Decode, Erasable;
    assert ItemOk(g, m);
    if m in g.erased {
      BoundLeads(g, l, m, g.erased[m]);
    } else if m in g.resolved {
      BoundLeads(g, l, g.bound[g.items[m].target], g.resolved[m]);
    }
  }

  lemma BoundChain(g: Asm, l: Label, x: Label)
    requires Structured(g) && l !in g.bound && x in g.chains
    ensures ChainOk(BoundHere(g, l), x, g.chains[x])
  {
    hide Flatten, Unresolved, ItemOk;
    var c, h := g.chains[x], BoundHere(g, l);
    assert ChainOk(g, x, c);
    forall k | 0 <= k < |c|
      ensures LinkOk(h, x, c, k)
    {
      assert LinkOk(g, x, c, k);
    }
  }

  lemma BoundWaiting(g: Asm, l: Label)
    requires Structured(g) && Waiting(g) && l in g.chains && l !in g.bound && l != g.pending
    ensures Waiting(BoundHere(g, l)) && (Held(g) ==> Held(BoundHere(g, l)))
  {
    var h := BoundHere(g, l);
    hide Reaches, Erasable, ItemsOk, ChainsOk, Owes;
    forall x | x in h.chains && x != h.pending
      ensures OwesOk(h, x)
    {
      assert OwesOk(g, x);
      forall k | 0 <= k < |h.chains[x]|
        ensures Owes(h, h.chains[x][k], x)
      {
        BoundOwes(g, l, h.chains[x][k], x);
      }
    }
    forall k | 0 <= k < |h.chains[h.pending]|
      ensures PendingUse(h, h.chains[h.pending][k])
    {
      var m := h.chains[h.pending][k];
      assert PendingUse(g, m);
      BoundLeads(g, l, g.bound[g.items[m].target], g.mark);
    }
    if Held(g) {
      SameHeld(g, h);
    }
  }

  lemma BoundOwes(g: Asm, l: Label, m: nat, x: Label)
    requires l !in g.bound && m < |g.items| && g.items[m].Use? && Owes(g, m, x)
    ensures Owes(BoundHere(g, l), m, x)
  {
    hide Reaches;
    var a, h := g.items[m].target, BoundHere(g, l);
    if x in g.bound {
      BoundLeads(g, l, g.bound[a], g.bound[x]);
    } else if a == x {
      ReachesSelf(h.items, h.bound, |g.items|);
    } else {
      var q :| LeadsToJump(g, g.bound[a], q, x);
      BoundLeads(g, l, g.bound[a], q);
      if x == l {
        ReachesStep(h.items, h.bound, q, |g.items|);
        ReachesThrough(h.items, h.bound, g.bound[a], q, |g.items|);
      } else {
        assert LeadsToJump(h, h.bound[a], q, x);
      }
    }
  }

  /** The uses of a label that has just been bound become the pending ones. */
  function Deferred(g: Asm, l: Label): Asm
    requires l in g.chains
  {
    g.(chains := g.chains[g.pending := g.chains[l]][l := []], home := g.home + map m | m in g.chains[l] ::
      g.pending, mark := |g.items|)
  }

  lemma DeferredStructured(g: Asm, l: Label)
    requires Structured(g) && l in g.chains && l != g.pending && g.chains[g.pending] == []
    ensures Structured(Deferred(g, l))
  {
    hide Flatten, Unresolved, Reaches, Decode, Erasable, Addr, Fix;
    var h := Deferred(g, l);
    OnChain(g, l);
    forall m | 0 <= m < |g.items|
      ensures ItemOk(h, m)
    {
      assert ItemOk(g, m);
    }
    forall x | x in h.chains
      ensures ChainOk(h, x, h.chains[x])
    {
      DeferredChain(g, l, x);
    }
    hide ItemOk, ChainOk;
  }

  lemma DeferredChain(g: Asm, l: Label, x: Label)
    requires Structured(g) && l in g.chains && l != g.pending && g.chains[g.pending] == [] && x in Deferred(g, l).chains
    ensures ChainOk(Deferred(g, l), x, Deferred(g, l).chains[x])
  {
    hide Flatten, Unresolved, ItemsOk, ChainsOk;
    OnChain(g, l);
    OnChain(g, x);
    var h, y := Deferred(g, l), if x == g.pending then l else x;
    var c := g.chains[y];
    assert ChainOk(g, y, c) by { ThatChain(g, y); }
    if x != l {
      assert h.chains[x] == c;
      forall k | 0 <= k < |c|
        ensures LinkOk(h, x, c, k)
      {
        assert LinkOk(g, y, c, k) && c[k] in c;
      }
    } else {
      assert h.chains[x] == [];
    }
  }

  lemma ThatChain(g: Asm, l: Label)
    requires Structured(g) && l in g.chains
    ensures ChainOk(g, l, g.chains[l])
  {
    hide ChainOk, ItemsOk;
  }

  lemma DeferredWaiting(g: Asm, l: Label)
    requires Structured(g) && Waiting(g) && l in g.bound && g.bound[l] == |g.items|
    ensures Waiting(Deferred(g, l)) && (Held(g) ==> Held(Deferred(g, l)))
  {
    var h := Deferred(g, l);
    assert OwesOk(g, l);
    hide Reaches, Erasable, ItemsOk, ChainsOk;
    forall k | 0 <= k < |h.chains[h.pending]|
      ensures PendingUse(h, h.chains[h.pending][k])
    {}
    hide Owes;
    forall x | x in h.chains && x != h.pending
      ensures OwesOk(h, x)
    {
      if x != l {
        assert OwesOk(g, x);
        SameOwes(g, h, x);
      }
    }
    if Held(g) {
      SameHeld(g, h);
    }
  }

  // ---- resolving a use --------------------------------------------------------------------------------------------

  /** The latest use of `l` gets its operand and leaves the chain. */
  function Settled(g: Asm, l: Label, j: nat): Asm
    requires Sized(g) && l in g.chains && g.chains[l] != [] && j <= |g.items|
  {
    var c := g.chains[l];
    var m := c[0];
    g.(pieces := if g.items[m].Use? && WellFormedUse(g.items[m].kind, g.items[m].info)
         then g.pieces[m := Opcode(g.items[m].kind, g.items[m].info)
           + WordBytes(Operand(g.items[m].kind, g.items[m].info, Addr(g.pieces, m), Addr(g.pieces, j)))]
         else g.pieces,
       chains := g.chains[l := c[1..]], home := g.home - {m}, resolved := g.resolved[m := j])
  }

  ghost predicate Settles(g: Asm, l: Label, j: nat) {
    && l in g.chains && g.chains[l] != [] && j <= |g.items| && g.chains[l][0] < |g.items|
    && g.items[g.chains[l][0]].Use? && g.items[g.chains[l][0]].target in g.bound
    && g.Leads(g.bound[g.items[g.chains[l][0]].target], j)
  }

  lemma SettledLayout(g: Asm, l: Label, j: nat)
    requires Structured(g) && Settles(g, l, j)
    ensures SameLayout(g, Settled(g, l, j)) && Settled(g, l, j).Size() == g.Size()
    ensures forall m :: 0 <= m < |g.items| && m != g.chains[l][0] ==> Settled(g, l, j).pieces[m] == g.pieces[m]
  {
    hide Flatten, Addr, WordBytes, ItemsOk, Displace, Operand;
    assert ChainOk(g, l, g.chains[l]);
    FixBound(g, l, g.chains[l], 0);
    assert SameLayout(g, Settled(g, l, j));
    LayoutAddr(g, Settled(g, l, j));
  }

  lemma StructuredFrom(h: Asm)
    requires Sized(h) && (forall m :: 0 <= m < |h.items| ==> ItemOk(h, m))
    requires forall x :: x in h.chains ==> ChainOk(h, x, h.chains[x])
    requires forall m :: m in h.erased || m in h.resolved || m in h.home ==> m < |h.items|
    ensures Structured(h)
  {
    hide ItemOk, ChainOk;
  }

  lemma SettledShape(g: Asm, l: Label, j: nat)
    requires Structured(g) && Settles(g, l, j)
    ensures Sized(g) && l in g.chains && g.chains[l] != [] && j <= |g.items|
    ensures var h := Settled(g, l, j);
      && |h.items| == |g.items| && h.chains.Keys == g.chains.Keys && Sized(h)
      && forall m :: m in h.erased || m in h.resolved || m in h.home ==> m < |h.items|
  {
    hide ItemOk, ChainOk, Flatten, Addr, WordBytes, Operand, Reaches, Displace;
    SettledLayout(g, l, j);
    assert g.chains[l][1..] == g.chains[l][1..];
  }

  lemma SettledStructured(g: Asm, l: Label, j: nat)
    requires Structured(g) && Settles(g, l, j)
    ensures Structured(Settled(g, l, j)) && Settled(g, l, j).Size() == g.Size() && SameLayout(g, Settled(g, l, j))
  {
    hide ItemOk, ChainOk, Flatten, Addr, WordBytes, Operand, Reaches, Settles, SameLayout, ItemsOk, ChainsOk;
    SettledLayout(g, l, j);
    SettledShape(g, l, j);
    var h := Settled(g, l, j);
    hide Settled;
    forall m | 0 <= m < |h.items|
      ensures ItemOk(h, m)
    {
      SettledItem(g, l, j, m);
    }
    forall x | x in h.chains
      ensures ChainOk(h, x, h.chains[x])
    {
      SettledChain(g, l, j, x);
    }
    StructuredFrom(h);
  }

  lemma SettledItem(g: Asm, l: Label, j: nat, m: nat)
    requires Structured(g) && Settles(g, l, j) && m < |g.items| && SameLayout(g, Settled(g, l, j))
    ensures ItemOk(Settled(g, l, j), m)
  {
    var h := Settled(g, l, j);
    SettledLayout(g, l, j);
    OnChain(g, l);
    assert ItemOk(g, m);
    if m == g.chains[l][0] {
      SettledUse(g, l, j);
    } else {
      StillOnChain(g, l, j, m);
      hide ItemOk, ItemsOk, ChainsOk, Flatten, WordBytes, Operand, Reaches;
      LayoutItem(g, h, m);
    }
  }

  lemma StillOnChain(g: Asm, l: Label, j: nat, m: nat)
    requires Structured(g) && Settles(g, l, j) && m < |g.items| && m != g.chains[l][0]
    ensures m in g.home && g.home[m] in g.chains && m in g.chains[g.home[m]] ==> m in Settled(g, l, j).chains[g.home[m]]
  {
    hide ItemsOk, ChainsOk, Flatten, WordBytes, Operand, Reaches;
    var c := g.chains[l];
    if m in c {
      var k :| 0 <= k < |c| && c[k] == m;
      assert c[1..][k - 1] == m;
    }
  }

  lemma SettledUse(g: Asm, l: Label, j: nat)
    requires Structured(g) && Settles(g, l, j) && SameLayout(g, Settled(g, l, j))
    ensures ItemOk(Settled(g, l, j), g.chains[l][0])
  {
    var h, m := Settled(g, l, j), g.chains[l][0];
    OnChain(g, l);
    assert ChainOk(g, l, g.chains[l]) && m in g.chains[l];
    LayoutAddr(g, h);
    hide Flatten, Addr, WordBytes, Reaches, Displace;
    FixBound(g, l, g.chains[l], 0);
    AddrBound(g.pieces, m);
    AddrBound(g.pieces, j);
    hide ItemsOk, ChainsOk;
    DecodeOperand(g.items[m].kind, g.items[m].info, Addr(g.pieces, m), Addr(g.pieces, j));
  }

  lemma AddrBound(pieces: seq<seq<Byte>>, m: nat)
    requires m <= |pieces|
    ensures Addr(pieces, m) <= |Flatten(pieces)|
  {
    AddrMonotone(pieces, m, |pieces|);
    AddrEnds(pieces);
  }

  lemma SettledChain(g: Asm, l: Label, j: nat, x: Label)
    requires Structured(g) && Settles(g, l, j) && x in g.chains && SameLayout(g, Settled(g, l, j))
    ensures ChainOk(Settled(g, l, j), x, Settled(g, l, j).chains[x])
  {
    var h, c := Settled(g, l, j), g.chains[x];
    SettledLayout(g, l, j);
    OnChain(g, l);
    OnChain(g, x);
    assert ChainOk(g, x, c);
    hide ChainsOk, ItemsOk, Flatten, WordBytes, Operand, Reaches;
    if x == l {
      ChainRest(g, l, c);
      assert forall k :: 0 <= k < |c[1..]| ==> c[1..][k] == c[k + 1] && c[k + 1] in c && c[k + 1] != c[0];
      LayoutChain(g, h, l, c[1..]);
    } else {
      LayoutChain(g, h, x, c);
    }
  }

  lemma ChainRest(g: Asm, l: Label, c: seq<nat>)
    requires |g.items| == |g.pieces| && ChainOk(g, l, c) && c != []
    ensures ChainOk(g, l, c[1..])
  {
    hide Flatten, Unresolved, Fix;
    var d := c[1..];
    forall k | 0 <= k < |d|
      ensures LinkOk(g, l, d, k)
    {
      assert LinkOk(g, l, c, k + 1);
    }
  }

  /** What the other uses wait for does not change. */
  lemma FewerWaiting(g: Asm, h: Asm, l: Label)
    requires g.pending in g.chains && Waiting(g) && h.items == g.items && h.bound == g.bound && h.pending == g.pending
    requires h.mark == g.mark
    requires l in g.chains && g.chains[l] != [] && h.chains == g.chains[l := g.chains[l][1..]]
    ensures Waiting(h)
  {
    hide Owes, Reaches, Erasable;
    forall x | x in h.chains && x != h.pending
      ensures OwesOk(h, x)
    {
      assert OwesOk(g, x);
      forall k | 0 <= k < |h.chains[x]|
        ensures h.chains[x][k] < |h.items| && h.items[h.chains[x][k]].Use? && Owes(h, h.chains[x][k], x)
      {
        assert h.chains[x][k] == g.chains[x][if x == l then k + 1 else k];
        SameOwed(g, h, h.chains[x][k], x);
      }
    }
    forall k | 0 <= k < |h.chains[h.pending]|
      ensures PendingUse(h, h.chains[h.pending][k])
    {
      assert h.chains[h.pending][k] == g.chains[h.pending][if h.pending == l then k + 1 else k];
      assert PendingUse(g, h.chains[h.pending][k]);
    }
  }

  lemma SettledHeld(g: Asm, l: Label, j: nat)
    requires Sized(g) && Settles(g, l, j) && Held(g) && HeldAt(g, j)
    ensures Held(Settled(g, l, j))
  {
    var h := Settled(g, l, j);
    hide Erasable, Reaches, Flatten, WordBytes, Operand;
    forall m | m in h.resolved
      ensures HeldAt(h, h.resolved[m])
    {
      var i := h.resolved[m];
      assert HeldAt(g, i);
      var q :| i <= q < |g.items| && !Erasable(g.items[q]);
      assert q < |h.items| && !Erasable(h.items[q]);
    }
  }

  // ---- erasing a jump ---------------------------------------------------------------------------------------------

  /** The jump that is the latest use of `l` ends the code and is taken back. */
  function Retracted(g: Asm, l: Label): Asm
    requires Sized(g) && l in g.chains && g.chains[l] != []
  {
    var m := g.chains[l][0];
    g.(pieces := g.pieces[m := []], chains := g.chains[l := g.chains[l][1..]], home := g.home - {m}, erased :=
      g.erased[m := |g.items|])
  }

  ghost predicate Retracts(g: Asm, l: Label) {
    && l in g.chains && g.chains[l] != [] && |g.items| == |g.pieces| && g.chains[l][0] < |g.items|
    && g.items[g.chains[l][0]].Use? && g.items[g.chains[l][0]].kind == AbsoluteJump
    && g.items[g.chains[l][0]].target in g.bound
    && g.Leads(g.bound[g.items[g.chains[l][0]].target], |g.items|)
    && Fix(g, g.chains[l][0]) + 4 == g.Size()
  }

  /** Everything behind the last jump has been erased already. */
  lemma NothingBehind(g: Asm, l: Label)
    requires Structured(g) && Retracts(g, l)
    ensures var m := g.chains[l][0];
      && |g.pieces[m]| == 5 && Addr(g.pieces, m) + 5 == g.Size()
      && forall q :: m < q < |g.items| ==> q in g.erased && g.pieces[q] == []
  {
    var m := g.chains[l][0];
    hide Flatten, Addr, WordBytes, Displace, Reaches;
    assert ChainOk(g, l, g.chains[l]);
    FixBound(g, l, g.chains[l], 0);
    AddrStep(g.pieces, m);
    AddrEnds(g.pieces);
    forall q | m < q < |g.items|
      ensures q in g.erased && g.pieces[q] == []
    {
      EmptyPiece(g, m, q);
    }
  }

  lemma EmptyPiece(g: Asm, m: nat, q: nat)
    requires Structured(g) && m < q < |g.items| && Addr(g.pieces, m + 1) == Addr(g.pieces, |g.pieces|)
    ensures q in g.erased && g.pieces[q] == []
  {
    hide Flatten, Addr, WordBytes, Displace, Reaches;
    AddrMonotone(g.pieces, m + 1, q);
    AddrStep(g.pieces, q);
    AddrMonotone(g.pieces, q + 1, |g.pieces|);
    assert ItemOk(g, q);
    if q !in g.erased && q !in g.resolved && g.items[q].Use? {
      var l := g.home[q];
      var k :| 0 <= k < |g.chains[l]| && g.chains[l][k] == q;
      assert ChainOk(g, l, g.chains[l]);
      FixBound(g, l, g.chains[l], k);
    }
  }

  lemma RetractedAddr(g: Asm, l: Label, i: nat)
    requires Structured(g) && Retracts(g, l) && i <= |g.items|
    ensures Addr(Retracted(g, l).pieces, i) == if i <= g.chains[l][0] then Addr(g.pieces, i) else g.Size() - 5
  {
    var m := g.chains[l][0];
    NothingBehind(g, l);
    hide Flatten, Addr, Structured, Retracts;
    EmptiedAddr(g.pieces, m, i);
  }

  /** Taking the last bytes away moves only what starts behind them. */
  lemma {:induction false} EmptiedAddr(pieces: seq<seq<Byte>>, m: nat, i: nat)
    requires m < |pieces| && i <= |pieces| && forall q :: m < q < |pieces| ==> pieces[q] == []
    ensures Addr(pieces[m := []], i) == if i <= m then Addr(pieces, i) else Addr(pieces, m)
    decreases i
  {
    hide Flatten, Addr;
    if i <= m {
      AddrSame(pieces, pieces[m := []], i);
    } else {
      EmptiedAddr(pieces, m, i - 1);
      AddrStep(pieces[m := []], i - 1);
    }
  }

  lemma RetractedShape(g: Asm, l: Label)
    requires Structured(g) && Retracts(g, l)
    ensures Sized(g) && l in g.chains && g.chains[l] != []
    ensures var h := Retracted(g, l);
      && |h.items| == |g.items| && h.chains.Keys == g.chains.Keys && Sized(h) && h.Size() == g.Size() - 5
      && forall m :: m in h.erased || m in h.resolved || m in h.home ==> m < |h.items|
  {
    hide ItemOk, ChainOk, Flatten, Addr, Reaches;
    NothingBehind(g, l);
    RetractedAddr(g, l, |g.items|);
    AddrEnds(Retracted(g, l).pieces);
  }

  lemma RetractedStructured(g: Asm, l: Label)
    requires Structured(g) && Held(g) && Retracts(g, l)
    ensures Structured(Retracted(g, l)) && Retracted(g, l).Size() == g.Size() - 5
  {
    hide ItemOk, ChainOk, Flatten, Addr, Reaches, Retracts, ItemsOk, ChainsOk, Held;
    RetractedShape(g, l);
    var h := Retracted(g, l);
    hide Retracted;
    forall m | 0 <= m < |h.items|
      ensures ItemOk(h, m)
    {
      RetractedItem(g, l, m);
    }
    forall x | x in h.chains
      ensures ChainOk(h, x, h.chains[x])
    {
      RetractedChain(g, l, x);
    }
    StructuredFrom(h);
  }

  lemma RetractedItem(g: Asm, l: Label, i: nat)
    requires Structured(g) && Held(g) && Retracts(g, l) && i < |g.items|
    ensures ItemOk(Retracted(g, l), i)
  {
    var m, h := g.chains[l][0], Retracted(g, l);
    OnChain(g, l);
    assert ItemOk(g, i);
    if i == m {
      RetractedJump(g, l);
    } else if i in g.resolved {
      RetractedUse(g, l, i);
    } else {
      StillChained(g, l, i);
      hide Flatten, Addr, Reaches, ItemsOk, ChainsOk, Held;
    }
  }

  lemma StillChained(g: Asm, l: Label, i: nat)
    requires Structured(g) && Retracts(g, l) && i < |g.items| && i != g.chains[l][0]
    ensures i in g.home && g.home[i] in g.chains && i in g.chains[g.home[i]] ==> i in Retracted(g, l).chains[g.home[i]]
  {
    hide ItemsOk, ChainsOk, Flatten, Reaches;
    var c := g.chains[l];
    if i in c {
      var k :| 0 <= k < |c| && c[k] == i;
      assert c[1..][k - 1] == i;
    }
  }

  lemma RetractedJump(g: Asm, l: Label)
    requires Structured(g) && Retracts(g, l)
    ensures ItemOk(Retracted(g, l), g.chains[l][0])
  {
    var m, h := g.chains[l][0], Retracted(g, l);
    OnChain(g, l);
    NothingBehind(g, l);
    var b := g.bound[g.items[m].target];
    ReachesStep(g.items, g.bound, m, b);
    ReachesThrough(g.items, g.bound, m, b, |g.items|);
    assert m in g.chains[l];
    hide Flatten, Addr, Reaches, ItemsOk, ChainsOk;
  }

  /** The place a resolved use leads to lies before the jump that is taken back. */
  lemma RetractedUse(g: Asm, l: Label, i: nat)
    requires Structured(g) && Held(g) && Retracts(g, l) && i < |g.items| && i in g.resolved && i != g.chains[l][0]
    requires ItemOk(g, i)
    ensures ItemOk(Retracted(g, l), i)
  {
    var m, h := g.chains[l][0], Retracted(g, l);
    NothingBehind(g, l);
    ResolvedBefore(g, l, i);
    RetractedAddr(g, l, i);
    RetractedAddr(g, l, g.resolved[i]);
    hide Flatten, Addr, Reaches, Decode, Structured, Held;
  }

  lemma ResolvedBefore(g: Asm, l: Label, i: nat)
    requires Structured(g) && Held(g) && Retracts(g, l) && i < |g.items| && i in g.resolved
    ensures i !in g.erased && i < g.chains[l][0] && g.resolved[i] < g.chains[l][0]
  {
    hide Flatten, Addr, Reaches, Held, ChainsOk, ItemsOk, ErasedOk, ResolvedOk;
    var m := g.chains[l][0];
    OnChain(g, l);
    NothingBehind(g, l);
    assert m in g.chains[l];
    assert HeldAt(g, g.resolved[i]) by { HoldsAt(g, i); }
    var q :| g.resolved[i] <= q < |g.items| && !Erasable(g.items[q]);
    ThatItem(g, q);
    ThatItem(g, i);
    assert q !in g.erased by { if q in g.erased { ErasedErasable(g, q); } }
    assert i !in g.erased by { if i in g.erased { ErasedErasable(g, i); } }
  }

  lemma HoldsAt(g: Asm, i: nat)
    requires Held(g) && i in g.resolved
    ensures HeldAt(g, g.resolved[i])
  {}

  lemma ThatItem(g: Asm, m: nat)
    requires Structured(g) && m < |g.items|
    ensures ItemOk(g, m)
  {
    hide ItemOk, ChainsOk;
  }

  lemma ErasedErasable(g: Asm, m: nat)
    requires Structured(g) && m < |g.items| && m in g.erased
    ensures Erasable(g.items[m]) && m !in g.resolved
  {
    hide ChainsOk, Reaches;
    ThatItem(g, m);
  }

  lemma RetractedChain(g: Asm, l: Label, x: Label)
    requires Structured(g) && Retracts(g, l) && x in g.chains
    ensures ChainOk(Retracted(g, l), x, Retracted(g, l).chains[x])
  {
    var h, c := Retracted(g, l), if x == l then g.chains[l][1..] else g.chains[x];
    RetractedBefore(g, l, x, c);
    OnChain(g, x);
    assert ChainOk(g, x, g.chains[x]);
    if x == l { ChainRest(g, l, g.chains[l]); }
    hide ChainsOk, ItemsOk, ChainOk, Reaches, Flatten, Addr, Retracts, Fix;
    forall k | 0 <= k < |c|
      ensures Fix(h, c[k]) == Fix(g, c[k]) && c[k] in g.chains[x]
    {
      RetractedFix(g, l, c[k]);
      if x == l {
        assert c[k] == g.chains[l][k + 1];
      }
    }
    ChainMoved(g, h, x, c);
  }

  lemma RetractedBefore(g: Asm, l: Label, x: Label, c: seq<nat>)
    requires Structured(g) && Retracts(g, l) && x in g.chains && c == if x == l then g.chains[l][1..] else g.chains[x]
    ensures forall k :: 0 <= k < |c| ==> c[k] < g.chains[l][0]
  {
    var m := g.chains[l][0];
    OnChain(g, l);
    OnChain(g, x);
    NothingBehind(g, l);
    assert ChainOk(g, l, g.chains[l]) && m in g.chains[l];
    hide ChainsOk, ItemsOk, Reaches, Flatten, Addr, Retracts, LinkOk;
    forall k | 0 <= k < |c|
      ensures c[k] < m
    {
      if x == l {
        assert c[k] == g.chains[l][k + 1];
      }
      assert c[k] in g.chains[x] && c[k] != m;
    }
  }

  lemma RetractedFix(g: Asm, l: Label, i: nat)
    requires Structured(g) && Retracts(g, l) && i <= g.chains[l][0]
    ensures Fix(Retracted(g, l), i) == Fix(g, i)
  {
    RetractedAddr(g, l, i);
    hide Flatten, Addr;
  }

  lemma RetractedWaiting(g: Asm, l: Label)
    requires Structured(g) && Waiting(g) && Held(g) && Retracts(g, l)
    ensures Waiting(Retracted(g, l)) && Held(Retracted(g, l))
  {
    hide ItemsOk, ChainsOk;
    FewerWaiting(g, Retracted(g, l), l);
    SameHeld(g, Retracted(g, l));
  }
}
