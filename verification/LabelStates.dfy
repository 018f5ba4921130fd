/** What an assembler's labels show of the code, and what the steps of the assembler do to it: emitting an
    instruction, appending a chain, resolving a use, taking a jump back, putting off and binding a label. */
module LabelStates {
  import opened Basics
  import opened Displacements
  import opened LabelChains
  import opened Assembly

  /** The value of a label's field, given what is known about it. `binding` is the label in the middle
      of being bound, and the labels in `stale` were bound to places that have been taken back. */
  ghost predicate Shown(g: Asm, stale: set<Label>, binding: Label?, l: Label, pos: int)
    requires |g.items| == |g.pieces| && l in g.chains
  {
    if g.chains[l] != [] then g.chains[l][0] < |g.items| && pos == Fix(g, g.chains[l][0]) + 1
    else if l == binding then pos == 0
    else if l in stale then pos < 0
    else if l in g.bound then g.bound[l] <= |g.items| && pos == -(Addr(g.pieces, g.bound[l]) as int) - 1
    else if l == g.pending then pos <= 0
    else pos == 0
  }

  ghost predicate Settling(g: Asm, stale: set<Label>, binding: Label?, elim: bool, finalized: bool, bindingPos: int) {
    && Structured(g) && (elim && !finalized ==> Held(g)) && (!elim ==> g.chains[g.pending] == [])
    && (forall l :: l in g.bound && l != binding ==> g.chains[l] == [])
    && (g.chains[g.pending] != [] ==> bindingPos == Addr(g.pieces, g.mark))
    && stale <= g.bound.Keys && binding !in stale
  }

  /** The latest use of `l` is a jump that ends the code. */
  ghost predicate TrailingJump(g: Asm, l: Label) {
    && l in g.chains && g.chains[l] != [] && g.chains[l][0] < |g.items| == |g.pieces|
    && g.items[g.chains[l][0]].Use? && g.items[g.chains[l][0]].kind == AbsoluteJump
    && Fix(g, g.chains[l][0]) + 4 == g.Size()
  }

  /** How many jumps would be taken back one after the other, from the end of the code on: those heading
      the chain `c` that end where the next one starts. */
  ghost function Trail(g: Asm, c: seq<nat>, end: int): nat {
    if c != [] && c[0] < |g.items| == |g.pieces| && g.items[c[0]].Use? && g.items[c[0]].kind ==
      AbsoluteJump && Fix(g, c[0]) + 4 == end
    then 1 + Trail(g, c[1..], end - 5) else 0
  }

  /** The uses of `l` once it is being bound: its own and, if they wait at this very place, the pending ones. */
  ghost function Joined(g: Asm, l: Label): seq<nat> {
    var own := if l in g.chains then g.chains[l] else [];
    if g.pending in g.chains && g.mark == |g.items| then own + g.chains[g.pending] else own
  }

  lemma {:induction false} SameTrail(g: Asm, h: Asm, c: seq<nat>, end: int)
    requires h.items == g.items && |h.pieces| == |g.pieces|
    requires forall k :: 0 <= k < |c| && c[k] < |g.items| == |g.pieces| ==> Fix(h, c[k]) == Fix(g, c[k])
    ensures Trail(h, c, end) == Trail(g, c, end)
  {
    hide Fix;
    if c != [] {
      SameTrail(g, h, c[1..], end - 5);
    }
  }

  lemma LayoutTrail(g: Asm, h: Asm, c: seq<nat>, end: int)
    requires SameLayout(g, h)
    ensures Trail(h, c, end) == Trail(g, c, end)
  {
    hide Trail, Fix;
    forall k | 0 <= k < |c| && c[k] < |g.items| == |g.pieces|
      ensures Fix(h, c[k]) == Fix(g, c[k])
    {
      LayoutFix(g, h, c[k]);
    }
    SameTrail(g, h, c, end);
  }

  /** Taking back one jump leaves the others before it to be taken back. */
  lemma RetractedTrail(g: Asm, l: Label)
    requires Structured(g) && Retracts(g, l)
    ensures Sized(g) && l in g.chains && l in Retracted(g, l).chains
    ensures Trail(g, g.chains[l], g.Size()) == 1 + Trail(Retracted(g, l), Retracted(g, l).chains[l], g.Size() - 5)
  {
    RetractedShape(g, l);
    ChainMembers(g, l);
    var c, h := g.chains[l], Retracted(g, l);
    RetractedBefore(g, l, l, c[1..]);
    forall k | 0 <= k < |c[1..]|
      ensures c[1..][k] < |g.items| && Fix(h, c[1..][k]) == Fix(g, c[1..][k])
    {
      assert c[1..][k] == c[k + 1];
      RetractedFix(g, l, c[k + 1]);
    }
    hide Structured, Retracted, Fix, Flatten;
    SameTrail(g, h, c[1..], g.Size() - 5);
  }

  /** Binding a label as far as the program is concerned moves nothing. */
  lemma StartedTrail(g: Asm, l: Label, end: int)
    requires l != g.pending
    ensures Trail(BoundHere(Known(g, l), l), Joined(BoundHere(Known(g, l), l), l), end) == Trail(g, Joined(g, l), end)
  {
    var h := BoundHere(Known(g, l), l);
    assert Joined(h, l) == Joined(g, l);
    hide Trail, Joined;
    SameTrail(g, h, Joined(g, l), end);
  }

  lemma LinkedTrail(g: Asm, l: Label, end: int)
    requires Structured(g) && l in g.chains && l != g.pending && g.mark == |g.items|
    ensures Sized(g) && l in Linked(g, l).chains
    ensures Trail(Linked(g, l), Linked(g, l).chains[l], end) == Trail(g, Joined(g, l), end)
  {
    hide Flatten, Addr, Trail, ItemsOk, ChainsOk, Fix;
    LinkedStructured(g, l);
    LayoutTrail(g, Linked(g, l), Joined(g, l), end);
  }

  lemma SettledTrail(g: Asm, h: Asm, l: Label, end: int)
    requires SameBut(g, h, g.pending) && l in g.chains && l != g.pending && g.mark < |g.items|
    ensures l in h.chains && Trail(h, h.chains[l], end) == Trail(g, Joined(g, l), end)
  {
    hide Flatten, Addr, Trail, Fix;
    LayoutTrail(g, h, Joined(g, l), end);
  }

  /** Without pending uses the chain is that of the label itself. */
  lemma JoinedCases(g: Asm, l: Label)
    requires l in g.chains && g.pending in g.chains && g.chains[g.pending] == []
    ensures Joined(g, l) == g.chains[l]
  {}

  lemma TrailingMoved(g: Asm, h: Asm, l: Label, p: Label)
    requires !TrailingJump(g, l) && l in g.chains && p in h.chains && h.chains[p] == g.chains[l] && h.items == g.items
    requires h.pieces == g.pieces
    ensures !TrailingJump(h, p)
  {
    hide Flatten, Addr;
  }

  lemma TrailingSame(g: Asm, h: Asm, l: Label, p: Label)
    requires SameBut(g, h, l) && p != l && p in g.chains
    ensures TrailingJump(h, p) <==> TrailingJump(g, p)
  {
    hide Flatten, Addr, Fix;
    LayoutAddr(g, h);
    if g.chains[p] != [] && g.chains[p][0] < |g.items| {
      LayoutFix(g, h, g.chains[p][0]);
    }
  }

  /** The labels bound behind the latest use of `l`, with those already stale. */
  ghost function Passed(g: Asm, stale: set<Label>, l: Label): set<Label> {
    stale + set a | a in g.bound && a != l && l in g.chains && g.chains[l] != [] && g.bound[a] > g.chains[l][0]
  }

  /** All uses on the chain of `l` may be resolved to item j. */
  ghost predicate AllSettle(g: Asm, l: Label, j: nat) {
    && l in g.chains && j <= |g.items|
    && forall k :: 0 <= k < |g.chains[l]| ==> SettlesAt(g, g.chains[l][k], j)
  }

  ghost predicate SettlesAt(g: Asm, m: nat, j: nat) {
    m < |g.items| && g.items[m].Use? && g.items[m].target in g.bound && g.Leads(g.bound[g.items[m].target], j)
  }

  /** Same program, sizes and chains, but for the chain of `l`. */
  ghost predicate SameBut(g: Asm, h: Asm, l: Label) {
    && SameLayout(g, h) && h.mark == g.mark && h.chains.Keys == g.chains.Keys
    && forall x :: x in g.chains && x != l ==> h.chains[x] == g.chains[x]
  }

  lemma SameButSelf(g: Asm, l: Label)
    requires |g.items| == |g.pieces|
    ensures SameBut(g, g, l)
  {}

  /** `h` is what will be known once the bytes `op` are out. */
  ghost predicate Ready(g: Asm, h: Asm, pending: Label, stale: set<Label>, elim: bool, finalized: bool, bp: int,
                        op: seq<Byte>) {
    && h.pending == pending && Settling(h, stale, null, elim, finalized, bp) && Waiting(h)
    && Flatten(h.pieces) == Flatten(g.pieces) + op
  }

  /** `h` has the one more item `item`, with the same bindings and erased jumps. */
  ghost predicate OneItem(g: Asm, h: Asm, item: Item) {
    && h.items == g.items + [item] && h.bound == g.bound && h.erased == g.erased
    && h.chains.Keys == g.chains.Keys + if item.Use? then {item.target} else {}
  }

  /** The label of a forward use is not bound, and the uses on the chains wait for the same things. */
  lemma ForwardUse(g: Asm, stale: set<Label>, elim: bool, finalized: bool, bp: int, l: Label, pos: int, kind: Kind,
                   info: nat)
    requires Settling(g, stale, null, elim, finalized, bp) && Waiting(g) && l != g.pending && l !in stale && pos >= 0
    requires (l in g.chains ==> Shown(g, stale, null, l, pos)) && WellFormedUse(kind, info)
    requires kind == AbsoluteJump ==> g.chains[g.pending] == [] || g.mark < |g.items|
    ensures l in Known(g, l).chains && Sized(Known(g, l))
    ensures var h := WithForward(Known(g, l), kind, info, l);
      OneItem(g, h, Use(kind, info, l, true)) && h.pending in h.chains && h.pending == g.pending && Waiting(h)
  {
    if l in g.chains {
      UnboundShown(g, stale, elim, finalized, bp, l, pos);
    } else {
      KnownSettling(g, stale, elim, finalized, bp, l);
      EnteredWaiting(g, l);
    }
    SizedOf(g);
    SizedOf(Known(g, l));
    KnownFacts(g, l);
    assert Structured(Known(g, l)) && Waiting(Known(g, l)) && l !in g.bound && g.pending in g.chains;
    hide *;
    ForwardWaiting(Known(g, l), kind, info, l);
    OneItemKnown(g, Known(g, l), WithForward(Known(g, l), kind, info, l), Use(kind, info, l, true));
  }

  lemma OneItemKnown(g: Asm, k: Asm, h: Asm, item: Item)
    requires item.Use? && OneItem(k, h, item)
    requires k.items == g.items && k.bound == g.bound && k.erased == g.erased
    requires k.chains.Keys == g.chains.Keys + {item.target}
    ensures OneItem(g, h, item)
  {}

  lemma KnownFacts(g: Asm, l: Label)
    ensures var k := Known(g, l);
      && k.items == g.items && k.bound == g.bound && k.erased == g.erased && k.chains.Keys == g.chains.Keys + {l}
      && k.pending == g.pending && k.mark == g.mark && k.pieces == g.pieces
      && (l != g.pending && g.pending in g.chains ==> k.chains[k.pending] == g.chains[g.pending])
  {}

  lemma BackwardPiece(g: Asm, l: Label, kind: Kind, info: nat, piece: seq<Byte>)
    requires Sized(g) && WellFormedUse(kind, info) && l in g.bound && Addr(g.pieces, g.bound[l]) <= g.Size() <= MAX_CODE
    requires piece == Opcode(kind, info) + WordBytes(Operand(kind, info, g.Size(), Addr(g.pieces, g.bound[l])))
    ensures |piece| == OpcodeSize(kind) + 4
    ensures Decode(piece, g.Size()) == Reference(kind, info, Addr(g.pieces, g.bound[l]))
  {
    OpcodeLength(kind, info);
    DecodeOperand(kind, info, g.Size(), Addr(g.pieces, g.bound[l]));
  }

  /** A label becomes known with its first use. */
  function Known(g: Asm, l: Label): Asm {
    if l in g.chains then g else Entered(g, l)
  }

  lemma OpcodeLength(kind: Kind, info: nat)
    requires WellFormedUse(kind, info)
    ensures |Opcode(kind, info)| == OpcodeSize(kind)
  {}

  lemma UnboundShown(g: Asm, stale: set<Label>, elim: bool, finalized: bool, bp: int, l: Label, pos: int)
    requires Settling(g, stale, null, elim, finalized, bp)
    requires l in g.chains && l != g.pending && l !in stale && pos >= 0 && Shown(g, stale, null, l, pos)
    ensures l !in g.bound
    ensures pos == if g.chains[l] == [] then 0 else Fix(g, g.chains[l][0]) + 1
  {}

  lemma KnownSettling(g: Asm, stale: set<Label>, elim: bool, finalized: bool, bp: int, l: Label)
    requires Settling(g, stale, null, elim, finalized, bp) && l !in g.chains
    ensures Settling(Entered(g, l), stale, null, elim, finalized, bp) && l !in g.bound
  {
    hide Waiting, ItemsOk, ChainsOk, Flatten;
    EnteredStructured(g, l);
    if Held(g) { SameHeld(g, Entered(g, l)); }
  }

  lemma KnownShown(g: Asm, stale: set<Label>, l: Label, x: Label, pos: int)
    requires |g.items| == |g.pieces| && x in Known(g, l).chains
    requires if x in g.chains then Shown(g, stale, null, x, pos) else pos == 0 && x !in stale && x !in g.bound
    ensures Shown(Known(g, l), stale, null, x, pos)
  {
    hide Flatten, Addr;
  }

  /** The whole effect of one forward use on what the assembler knows. */
  lemma ForwardSettling(g: Asm, stale: set<Label>, elim: bool, finalized: bool, bp: int, kind: Kind, info: nat,
                        l: Label, next: nat)
    requires Settling(g, stale, null, elim, finalized, bp) && WellFormedUse(kind, info)
    requires l in g.chains && l !in g.bound && l != g.pending && g.Size() + OpcodeSize(kind) + 4 <= MAX_CODE
    requires next == if g.chains[l] == [] then 0 else Fix(g, g.chains[l][0])
    ensures next < MAX_CODE
    ensures var h := WithForward(g, kind, info, l);
      && l in h.chains && |h.items| == |h.pieces|
      && Settling(h, stale, null, elim, finalized, bp)
      && Flatten(h.pieces) == Flatten(g.pieces) + Opcode(kind, info) + WordBytes(Displace(next, kind, info).data)
      && Shown(h, stale, null, l, g.Size() + OpcodeSize(kind) + 1)
  {
    var h := WithForward(g, kind, info, l);
    ForwardStructured(g, kind, info, l);
    ForwardOneMore(g, kind, info, l);
    ForwardBytes(g, kind, info, l, next);
    ForwardHead(g, kind, info, l);
    SizedOf(g);
    SizedOf(h);
    hide *;
    SettlingMore(g, h, stale, elim, finalized, bp, l);
    HeadShown(h, stale, l, g.Size() + OpcodeSize(kind) + 1);
  }

  lemma ForwardHead(g: Asm, kind: Kind, info: nat, l: Label)
    requires Structured(g) && l in g.chains
    ensures var h := WithForward(g, kind, info, l);
      && l in h.chains && h.chains[l] == [|g.items|] + g.chains[l] && |h.items| == |h.pieces| == |g.items| + 1
      && h.resolved == g.resolved
      && (forall x :: x in g.chains && x != l ==> x in h.chains && h.chains[x] == g.chains[x])
  {
    hide ItemsOk, ChainsOk, Fix, Unresolved;
  }

  lemma HeadShown(h: Asm, stale: set<Label>, l: Label, pos: int)
    requires |h.items| == |h.pieces| && l in h.chains && h.chains[l] != [] && h.chains[l][0] < |h.items|
    requires pos == Fix(h, h.chains[l][0]) + 1
    ensures Shown(h, stale, null, l, pos)
  {}

  /** One more item, with at most the chain of an unbound label changed. */
  lemma SettlingMore(g: Asm, h: Asm, stale: set<Label>, elim: bool, finalized: bool, bp: int, l: Label)
    requires Settling(g, stale, null, elim, finalized, bp) && OneMore(g, h) && Structured(h) && l != g.pending
    requires forall x :: x in g.chains && x != l ==> x in h.chains && h.chains[x] == g.chains[x]
    requires l in g.bound ==> l in h.chains && h.chains[l] == g.chains[l]
    requires |g.items| in h.resolved ==> !Erasable(h.items[|g.items|]) && h.resolved[|g.items|] <= |g.items|
    ensures Settling(h, stale, null, elim, finalized, bp)
  {
    SizedOf(g);
    ResolvedRange(h);
    assert g.pending in g.chains && g.mark <= |g.items|;
    OneMoreSize(g, h);
    hide Structured, Flatten, Addr, OneMore;
    if Held(g) {
      HeldMore(g, h);
    }
    if g.chains[g.pending] != [] {
      OldAddr(g, h, g.mark);
    }
  }

  lemma SizedOf(g: Asm)
    requires Structured(g)
    ensures Sized(g)
  {}

  lemma ResolvedRange(g: Asm)
    requires Structured(g)
    ensures forall m :: m in g.resolved ==> m < |g.items|
  {}

  lemma ForwardBytes(g: Asm, kind: Kind, info: nat, l: Label, next: nat)
    requires Structured(g) && WellFormedUse(kind, info) && l in g.chains
    requires next == if g.chains[l] == [] then 0 else Fix(g, g.chains[l][0])
    ensures next < MAX_CODE
    ensures Flatten(WithForward(g, kind, info, l).pieces) ==
      Flatten(g.pieces) + Opcode(kind, info) + WordBytes(Displace(next, kind, info).data)
  {
    hide Flatten, Addr, Displace, WordBytes;
    if g.chains[l] != [] {
      assert ChainOk(g, l, g.chains[l]);
      FixBound(g, l, g.chains[l], 0);
    }
    FlattenSnoc(g.pieces, Unresolved(kind, info, next));
    assert Flatten(g.pieces) + (Opcode(kind, info) + WordBytes(Displace(next, kind, info).data))
        == Flatten(g.pieces) + Opcode(kind, info) + WordBytes(Displace(next, kind, info).data);
  }

  lemma ForwardShown(g: Asm, stale: set<Label>, kind: Kind, info: nat, l: Label, x: Label, pos: int)
    requires Structured(g) && l in g.chains && x in g.chains && x != l && Shown(g, stale, null, x, pos)
    ensures |WithForward(g, kind, info, l).items| == |WithForward(g, kind, info, l).pieces|
    ensures Shown(WithForward(g, kind, info, l), stale, null, x, pos)
  {
    ForwardOneMore(g, kind, info, l);
    OldShown(g, WithForward(g, kind, info, l), stale, null, x, pos);
  }

  /** A label whose chain is not changed shows the same. */
  lemma OldShown(g: Asm, h: Asm, stale: set<Label>, binding: Label?, x: Label, pos: int)
    requires OneMore(g, h) && x in g.chains && x in h.chains && h.chains[x] == g.chains[x]
    requires Shown(g, stale, binding, x, pos)
    ensures Shown(h, stale, binding, x, pos)
  {
    hide Flatten, Addr;
    if g.chains[x] != [] {
      var m := g.chains[x][0];
      OldAddr(g, h, m);
      assert h.items[m] == h.items[..|g.items|][m];
    } else if x in g.bound && g.bound[x] <= |g.items| {
      OldAddr(g, h, g.bound[x]);
    }
  }

  lemma Whole(c: seq<Byte>)
    ensures c + [] == c
  {}

  lemma CodeSize(g: Asm, op: seq<Byte>)
    ensures |Flatten(g.pieces) + op| == g.Size() + |op|
  {}

  lemma BoundShown(g: Asm, stale: set<Label>, l: Label, pos: int)
    requires Structured(g) && l in g.chains && l !in stale && pos < 0 && l != g.pending && Shown(g, stale, null, l, pos)
    ensures l in g.bound && g.bound[l] <= |g.items| == |g.pieces| && pos == -(Addr(g.pieces, g.bound[l]) as int) - 1
    ensures Addr(g.pieces, g.bound[l]) <= g.Size() <= MAX_CODE
  {
    if l in g.bound {
      AddrBound(g.pieces, g.bound[l]);
    }
  }

  lemma BackwardSettling(g: Asm, stale: set<Label>, elim: bool, finalized: bool, bp: int, kind: Kind, info: nat,
                         l: Label, piece: seq<Byte>)
    returns (h: Asm)
    requires Settling(g, stale, null, elim, finalized, bp) && Waiting(g) && l in g.bound
    requires g.Size() + |piece| <= MAX_CODE
    requires g.bound[l] <= |g.pieces| && Decode(piece, g.Size()) == Reference(kind, info, Addr(g.pieces, g.bound[l]))
    ensures Settling(h, stale, null, elim, finalized, bp) && Waiting(h) && OneMore(g, h)
    ensures OneItem(g, h, Use(kind, info, l, false))
    ensures h.chains == g.chains && h.pending == g.pending && Flatten(h.pieces) == Flatten(g.pieces) + piece
  {
    hide Flatten, Addr, Reaches, ItemOk, ChainOk, Decode;
    h := WithBackward(g, kind, info, l, piece);
    BackwardStructured(g, kind, info, l, piece);
    FlattenSnoc(g.pieces, piece);
    SizedOf(g);
    assert OneMore(g, h) && l != g.pending && !Erasable(h.items[|g.items|]);
    assert h.chains == g.chains && h.resolved[|g.items|] <= |g.items|;
    assert OneItem(g, h, Use(kind, info, l, false));
    hide Structured, Flatten, Addr, Decode, Waiting, Settling, WithBackward, Erasable, OneMore, OneItem;
    SettlingMore(g, h, stale, elim, finalized, bp, l);
    WaitingMore(g, h, l);
  }

  lemma PlainSettling(g: Asm, stale: set<Label>, elim: bool, finalized: bool, bp: int, bytes: seq<Byte>)
    requires Settling(g, stale, null, elim, finalized, bp) && Waiting(g) && bytes != []
    requires g.Size() + |bytes| <= MAX_CODE
    ensures Settling(WithPlain(g, bytes), stale, null, elim, finalized, bp)
    ensures WithPlain(g, bytes).pending in WithPlain(g, bytes).chains && Waiting(WithPlain(g, bytes))
  {
    var h := WithPlain(g, bytes);
    hide Flatten, Addr, Reaches, ItemOk, ChainOk;
    PlainStructured(g, bytes);
    SizedOf(g);
    ResolvedRange(g);
    assert OneMore(g, h) && h.chains == g.chains && !Erasable(h.items[|g.items|]);
    hide Structured, Flatten, Addr, Waiting, Erasable, OneMore;
    if Held(g) { HeldMore(g, h); }
    if g.chains[g.pending] != [] { OldAddr(g, h, g.mark); }
    WaitingMore(g, h, g.pending);
  }

  /** One more plain item, apart from what the invariants say. */
  lemma PlainShape(g: Asm, bytes: seq<Byte>)
    requires Structured(g)
    ensures var h := WithPlain(g, bytes);
      && |h.items| == |h.pieces| && |g.items| == |g.pieces| && OneMore(g, h) && OneItem(g, h, Plain(bytes))
      && h.chains == g.chains && h.pending == g.pending && Flatten(h.pieces) == Flatten(g.pieces) + bytes
  {
    hide ItemsOk, ChainsOk, Flatten;
    FlattenSnoc(g.pieces, bytes);
  }

  lemma ForwardWaiting(g: Asm, kind: Kind, info: nat, l: Label)
    requires Structured(g) && Waiting(g) && l in g.chains && l !in g.bound && l != g.pending
    requires kind == AbsoluteJump ==> g.chains[g.pending] == [] || g.mark < |g.items|
    ensures var h := WithForward(g, kind, info, l);
      && g.pending in h.chains && h.pending == g.pending && Waiting(h) && OneItem(g, h, Use(kind, info, l, true))
  {
    var h := WithForward(g, kind, info, l);
    ForwardOneMore(g, kind, info, l);
    ForwardHead(g, kind, info, l);
    SizedOf(g);
    assert h.items == g.items + [Use(kind, info, l, true)];
    hide Structured, Flatten, Waiting, WithForward, OneMore;
    WaitingMore(g, h, l);
  }

  // ---- reading and patching chains --------------------------------------------------------------------------------

  /** The label field that stands for the rest of a chain. */
  function NextField(g: Asm, l: Label, k: nat): nat
    requires |g.items| == |g.pieces| && l in g.chains && k < |g.chains[l]|
  {
    if k + 1 < |g.chains[l]| && g.chains[l][k + 1] < |g.items| then Fix(g, g.chains[l][k + 1]) + 1 else 0
  }

  lemma ChainMembers(g: Asm, l: Label)
    requires Structured(g) && l in g.chains
    ensures forall k :: 0 <= k < |g.chains[l]| ==> g.chains[l][k] < |g.items| && g.items[g.chains[l][k]].Use?
  {
    OnChain(g, l);
    hide Structured;
    forall k | 0 <= k < |g.chains[l]|
      ensures g.chains[l][k] < |g.items| && g.items[g.chains[l][k]].Use?
    {
      assert g.chains[l][k] in g.chains[l];
    }
  }

  lemma NextPosition(g: Asm, l: Label, k: nat)
    requires Structured(g) && |g.items| == |g.pieces| && l in g.chains && k < |g.chains[l]|
    ensures k + 1 < |g.chains[l]| <==> NextField(g, l, k) > 0
    ensures k + 1 < |g.chains[l]| ==>
      g.chains[l][k + 1] < |g.items| && NextField(g, l, k) == Fix(g, g.chains[l][k + 1]) + 1
  {
    ChainMembers(g, l);
  }

  /** The operand field of a use on a chain. */
  lemma ReadUse(g: Asm, l: Label, k: nat)
    requires Structured(g) && l in g.chains && k < |g.chains[l]| && g.chains[l][k] < |g.items|
    ensures var m, p := g.chains[l][k], Fix(g, g.chains[l][k]);
      && 0 < p && p + 4 <= g.Size() && g.items[m].Use? && WellFormedUse(g.items[m].kind, g.items[m].info)
      && var d := Displacement(WordAt(Flatten(g.pieces), p));
        && d.Type() == g.items[m].kind && d.Info() == g.items[m].info
        && NextField(g, l, k) == if d.Next() > 0 then d.Next() + 1 else 0
  {
    hide Flatten, Addr, Displace, WordBytes, WordAt, Displacement.Next, Displacement.Type, Displacement.Info;
    var c, m := g.chains[l], g.chains[l][k];
    assert ChainOk(g, l, c);
    FixBound(g, l, c, k);
    if k + 1 < |c| { FixBound(g, l, c, k + 1); }
    var kind, info := g.items[m].kind, g.items[m].info;
    var next := NextFix(g, c, k);
    OpcodeLength(kind, info);
    PatchPiece(g.pieces, m, Opcode(kind, info), Displace(next, kind, info).data, 0);
    DisplaceFields(next, kind, info);
  }

  /** The field of a label says whether there are uses on its chain. */
  lemma FieldFacts(g: Asm, stale: set<Label>, binding: Label?, l: Label, pos: int)
    requires Structured(g) && l in g.chains && Shown(g, stale, binding, l, pos)
    ensures pos > 0 <==> g.chains[l] != []
    ensures g.chains[l] != [] ==> g.chains[l][0] < |g.items| == |g.pieces| && pos == Fix(g, g.chains[l][0]) + 1
    ensures g.chains[l] == [] && l !in stale && l !in g.bound && l != g.pending ==> pos == 0
  {}

  lemma LayoutShown(g: Asm, h: Asm, stale: set<Label>, binding: Label?, x: Label, pos: int)
    requires SameLayout(g, h) && x in g.chains && x in h.chains && h.chains[x] == g.chains[x]
    requires Shown(g, stale, binding, x, pos)
    ensures Shown(h, stale, binding, x, pos)
  {
    hide Flatten, Addr;
    LayoutAddr(g, h);
  }

  lemma LinkedSettling(g: Asm, stale: set<Label>, binding: Label?, elim: bool, finalized: bool, bp: int, l: Label)
    requires Settling(g, stale, binding, elim, finalized, bp) && l in g.chains && l != g.pending
    requires (l in g.bound ==> l == binding)
    ensures Settling(Linked(g, l), stale, binding, elim, finalized, bp)
  {
    var h := Linked(g, l);
    LinkedStructured(g, l);
    hide Structured, Flatten, Fix, Unresolved;
    if Held(g) { SameHeld(g, h); }
  }

  lemma LinkedShown(g: Asm, stale: set<Label>, binding: Label?, l: Label, pos: int, pendingPos: int)
    requires Structured(g) && l in g.chains && l != g.pending && l !in stale && (l in g.bound ==> l == binding)
    requires g.pending !in stale && binding != g.pending
    requires Shown(g, stale, binding, l, pos) && Shown(g, stale, binding, g.pending, pendingPos)
    ensures |Linked(g, l).items| == |Linked(g, l).pieces| && g.pending in Linked(g, l).chains
    ensures Shown(Linked(g, l), stale, binding, l, if g.chains[g.pending] != [] && g.chains[l] == [] then pendingPos
      else pos)
    ensures Shown(Linked(g, l), stale, binding, g.pending, 0)
  {
    var h := Linked(g, l);
    LinkedLayout(g, l);
    ChainMembers(g, l);
    ChainMembers(g, g.pending);
    assert Sized(g) && Sized(h) by { LinkedSized(g, l); }
    if g.chains[l] != [] {
      LayoutFix(g, h, g.chains[l][0]);
    } else if g.chains[g.pending] != [] {
      LayoutFix(g, h, g.chains[g.pending][0]);
    }
    hide Structured, Flatten, Fix, Unresolved, Addr;
  }

  /** Appending patches one operand field. */
  lemma LinkedBytes(g: Asm, l: Label)
    requires Structured(g) && l in g.chains && l != g.pending && g.chains[l] != [] && g.chains[g.pending] != []
    ensures var m, n := g.chains[l][|g.chains[l]| - 1], g.chains[g.pending][0];
      && m < |g.items| && n < |g.items| && g.items[m].Use? && Fix(g, n) < MAX_CODE && g.items[m].info < 0x100
      && Fix(g, m) + 4 <= g.Size()
      && Flatten(Linked(g, l).pieces) ==
           Patched(Flatten(g.pieces), Fix(g, m), Displace(Fix(g, n), g.items[m].kind, g.items[m].info).data)
  {
    hide Flatten, Addr, Displace, WordBytes, WordAt, Patched;
    var c, a := g.chains[l], g.chains[g.pending];
    var m := c[|c| - 1];
    assert ChainOk(g, l, c) && ChainOk(g, g.pending, a);
    FixBound(g, l, c, |c| - 1);
    FixBound(g, g.pending, a, 0);
    var kind, info := g.items[m].kind, g.items[m].info;
    OpcodeLength(kind, info);
    PatchPiece(g.pieces, m, Opcode(kind, info), Displace(NextFix(g, c, |c| - 1), kind, info).data,
      Displace(Fix(g, a[0]), kind, info).data);
  }

  lemma SameLayoutSize(g: Asm, h: Asm)
    requires SameLayout(g, h)
    ensures |h.items| == |h.pieces| == |g.pieces| && h.pending == g.pending
  {}

  /** What appending the pending chain to that of `l` amounts to. */
  lemma LinkingFacts(g: Asm, stale: set<Label>, binding: Label?, elim: bool, finalized: bool, bp: int, l: Label,
                     pos: int, pendingPos: int)
    requires Settling(g, stale, binding, elim, finalized, bp)
    requires l in g.chains && l != g.pending && l !in stale && (l in g.bound ==> l == binding) && binding != g.pending
    requires Shown(g, stale, binding, l, pos) && Shown(g, stale, binding, g.pending, pendingPos)
    ensures Sized(g) && Structured(g)
    ensures pos > 0 <==> g.chains[l] != []
    ensures pendingPos > 0 <==> g.chains[g.pending] != []
    ensures g.chains[l] != [] ==> g.chains[l][0] < |g.items| && pos == Fix(g, g.chains[l][0]) + 1
    ensures g.chains[g.pending] != [] ==>
      g.chains[g.pending][0] < |g.items| && pendingPos == Fix(g, g.chains[g.pending][0]) + 1
    ensures var h := Linked(g, l);
      && h.pending == g.pending && l in h.chains && g.pending in h.chains && SameLayout(g, h) && |h.items| == |h.pieces|
      && Settling(h, stale, binding, elim, finalized, bp)
      && Shown(h, stale, binding, l, if pendingPos > 0 && pos <= 0 then pendingPos else pos)
      && Shown(h, stale, binding, g.pending, 0)
      && (forall x :: x in h.chains && x != l && x != g.pending ==> x in g.chains && h.chains[x] == g.chains[x])
      && (pos <= 0 || pendingPos <= 0 ==> h.pieces == g.pieces)
  {
    SizedOf(g);
    PendingNotStale(g, stale, binding, elim, finalized, bp);
    LinkedShape(g, l);
    FieldFacts(g, stale, binding, l, pos);
    FieldFacts(g, stale, binding, g.pending, pendingPos);
    assert Structured(g) && |g.items| == |g.pieces|;
    LinkedSettling(g, stale, binding, elim, finalized, bp, l);
    LinkedStructured(g, l);
    LinkedShown(g, stale, binding, l, pos, pendingPos);
    hide *;
    SameLayoutSize(g, Linked(g, l));
  }

  lemma PendingNotStale(g: Asm, stale: set<Label>, binding: Label?, elim: bool, finalized: bool, bp: int)
    requires Settling(g, stale, binding, elim, finalized, bp)
    ensures g.pending !in stale
  {
    hide ItemsOk, ChainsOk, Flatten;
  }

  lemma LinkedShape(g: Asm, l: Label)
    requires Sized(g) && l in g.chains && l != g.pending
    ensures var h := Linked(g, l);
      && h.pending == g.pending && l in h.chains && g.pending in h.chains
      && (forall x :: x in h.chains && x != l && x != g.pending ==> x in g.chains && h.chains[x] == g.chains[x])
      && (g.chains[l] == [] || g.chains[g.pending] == [] ==> h.pieces == g.pieces)
  {
    hide Flatten, Fix, Unresolved;
  }

  lemma KnownSettled(g: Asm, stale: set<Label>, elim: bool, finalized: bool, bp: int, l: Label, pos: int)
    requires Settling(g, stale, null, elim, finalized, bp) && Waiting(g) && l != g.pending && l !in stale && pos >= 0
    requires l in g.chains ==> Shown(g, stale, null, l, pos)
    ensures |g.items| == |g.pieces| && g.bound.Keys <= g.chains.Keys
    ensures var k := Known(g, l);
      && Settling(k, stale, null, elim, finalized, bp) && k.pending in k.chains && Waiting(k) && k.pending == g.pending
      && k.pieces == g.pieces
      && l in k.chains && l !in k.bound
  {
    SizedOf(g);
    if l in g.chains {
      UnboundShown(g, stale, elim, finalized, bp, l, pos);
    } else {
      KnownSettling(g, stale, elim, finalized, bp, l);
      EnteredWaiting(g, l);
    }
    hide Settling, Waiting, Structured, Shown, Flatten;
  }

  lemma MarkPosition(g: Asm)
    requires Structured(g) && PendingOk(g) && g.chains[g.pending] != []
    ensures Addr(g.pieces, g.mark) == g.Size() <==> g.mark == |g.items|
    ensures Addr(g.pieces, g.mark) <= g.Size()
  {
    AddrEnds(g.pieces);
    hide Flatten, Addr;
    if g.mark < |g.items| {
      SolidTakesRoom(g, g.mark);
      AddrStep(g.pieces, g.mark);
      AddrMonotone(g.pieces, g.mark + 1, |g.pieces|);
    }
  }

  /** An item that cannot be erased takes room. */
  lemma SolidTakesRoom(g: Asm, q: nat)
    requires Structured(g) && q < |g.items| && !Erasable(g.items[q])
    ensures |g.pieces[q]| > 0
  {
    hide Flatten, Addr, Reaches, Erasable;
    assert ItemOk(g, q);
    if q !in g.erased && q !in g.resolved && g.items[q].Use? {
      var l := g.home[q];
      var k :| 0 <= k < |g.chains[l]| && g.chains[l][k] == q;
      assert ChainOk(g, l, g.chains[l]);
      FixBound(g, l, g.chains[l], k);
    }
  }

  lemma TakesOver(g: Asm, l: Label)
    requires Structured(g) && Waiting(g) && l in g.chains && l !in g.bound && l != g.pending && g.mark == |g.items|
    ensures Structured(Linked(g, l)) && l in Linked(g, l).chains && Linked(g, l).chains.Keys == g.chains.Keys
    ensures Known(Linked(g, l), l) == Linked(g, l)
    ensures var h := WithForward(Linked(g, l), AbsoluteJump, 0, l);
      h.pending in h.chains && Waiting(h) && OneItem(g, h, Use(AbsoluteJump, 0, l, true))
  {
    hide ItemsOk, ChainsOk, Flatten, Fix, Unresolved, OwesOk;
    LinkedStructured(g, l);
    SizedOf(g);
    LinkedShape(g, l);
    JumpTakesOver(g, l);
    var h := WithForward(Linked(g, l), AbsoluteJump, 0, l);
    assert OneItem(g, h, Use(AbsoluteJump, 0, l, true)) && h.pending in h.chains;
    hide Structured, Linked, WithForward, Waiting, OneItem;
    TakenOverWaiting(g, h, l);
  }

  lemma SettledShape(g: Asm, l: Label, j: nat)
    requires Sized(g) && Settles(g, l, j)
    ensures var h := Settled(g, l, j);
      && h.chains == g.chains[l := g.chains[l][1..]] && h.items == g.items && h.bound == g.bound
      && h.pending == g.pending && h.mark == g.mark
  {}

  /** What resolving the latest use of `l` amounts to. */
  lemma SettleFacts(g: Asm, stale: set<Label>, binding: Label?, elim: bool, finalized: bool, bp: int, l: Label,
                    pos: int, j: nat)
    requires Settling(g, stale, binding, elim, finalized, bp) && Waiting(g) && Settles(g, l, j)
    requires Shown(g, stale, binding, l, pos)
    requires (l == binding || l == g.pending) && (elim && !finalized ==> HeldAt(g, j))
    ensures Structured(g) && Sized(g) && |g.items| == |g.pieces| && pos == Fix(g, g.chains[l][0]) + 1
    ensures var h, m := Settled(g, l, j), g.chains[l][0];
      && SameLayout(g, h) && Settling(h, stale, binding, elim, finalized, bp) && h.pending in h.chains && Waiting(h)
      && h.pending == g.pending
      && l in h.chains && h.chains.Keys == g.chains.Keys
      && (forall x :: x in g.chains && x != l ==> h.chains[x] == g.chains[x])
      && |h.items| == |h.pieces| && Shown(h, stale, binding, l, NextField(g, l, 0))
      && m < |g.items| && Fix(g, m) + 4 <= g.Size() && OpcodeSize(g.items[m].kind) <= Fix(g, m)
      && Flatten(h.pieces) == Patched(Flatten(g.pieces), Fix(g, m),
           Operand(g.items[m].kind, g.items[m].info, Fix(g, m) - OpcodeSize(g.items[m].kind), Addr(g.pieces, j)))
  {
    hide *;
    SettleBounds(g, stale, binding, elim, finalized, bp, l, pos, j);
    SettledShape(g, l, j);
    var h := Settled(g, l, j);
    SettledStructured(g, l, j);
    FewerWaiting(g, h, l);
    SettledBytes(g, l, j);
    SettledField(g, stale, binding, l, j);
    SettledSettling(g, stale, binding, elim, finalized, bp, l, j);
    SizedOf(h);
    SameLayoutSize(g, h);
  }

  lemma SettlesFacts(g: Asm, l: Label, j: nat)
    requires Settles(g, l, j)
    ensures l in g.chains && g.chains[l] != [] && j <= |g.items| && g.chains[l][0] < |g.items|
    ensures g.items[g.chains[l][0]].Use?
  {}

  lemma SettleBounds(g: Asm, stale: set<Label>, binding: Label?, elim: bool, finalized: bool, bp: int, l: Label,
                     pos: int, j: nat)
    requires Settling(g, stale, binding, elim, finalized, bp) && Settles(g, l, j) && Shown(g, stale, binding, l, pos)
    requires l == binding || l == g.pending
    ensures Structured(g) && Sized(g) && |g.items| == |g.pieces| && l in g.chains && g.chains[l] != []
    ensures g.pending in g.chains && j <= |g.items|
    ensures g.chains[l][0] < |g.items| && g.items[g.chains[l][0]].Use? && pos == Fix(g, g.chains[l][0]) + 1
    ensures l !in stale && g.pending !in stale && g.pending !in g.bound
    ensures (l == g.pending ==> binding != l || binding == l)
  {
    hide ItemsOk, ChainsOk, Flatten, Fix, Addr;
  }

  lemma SettledSettling(g: Asm, stale: set<Label>, binding: Label?, elim: bool, finalized: bool, bp: int, l: Label,
                        j: nat)
    requires Settling(g, stale, binding, elim, finalized, bp) && Settles(g, l, j)
    requires (elim && !finalized ==> HeldAt(g, j))
    ensures Sized(g) && Settling(Settled(g, l, j), stale, binding, elim, finalized, bp)
  {
    hide Flatten, Addr, ItemsOk, ChainsOk, Reaches, Decode;
    var h := Settled(g, l, j);
    SizedOf(g);
    SettledShape(g, l, j);
    SettledStructured(g, l, j);
    if elim && !finalized {
      SettledHeld(g, l, j);
    }
    LayoutAddr(g, h);
    hide Structured, Flatten, Addr, Settled, Held, Sized, Settles, HeldAt, SameLayout;
  }

  lemma SettledField(g: Asm, stale: set<Label>, binding: Label?, l: Label, j: nat)
    requires Structured(g) && Settles(g, l, j) && (l == binding || l == g.pending) && l !in stale && g.pending !in stale
    requires g.pending !in g.bound
    ensures |Settled(g, l, j).items| == |Settled(g, l, j).pieces| && l in Settled(g, l, j).chains
    ensures Shown(Settled(g, l, j), stale, binding, l, NextField(g, l, 0))
  {
    var h := Settled(g, l, j);
    SettledLayout(g, l, j);
    SettledShape(g, l, j);
    ChainMembers(g, l);
    var c := g.chains[l];
    if |c| > 1 {
      assert h.chains[l][0] == c[1];
      LayoutFix(g, h, c[1]);
    }
    hide Structured, Flatten, Addr, Settled, Fix;
  }

  lemma SettledBytes(g: Asm, l: Label, j: nat)
    requires Structured(g) && Settles(g, l, j)
    ensures var m := g.chains[l][0];
      && Fix(g, m) == Addr(g.pieces, m) + OpcodeSize(g.items[m].kind) && Fix(g, m) + 4 <= g.Size()
      && Flatten(Settled(g, l, j).pieces) == Patched(Flatten(g.pieces), Fix(g, m),
           Operand(g.items[m].kind, g.items[m].info, Addr(g.pieces, m), Addr(g.pieces, j)))
  {
    hide Flatten, Addr, Displace, WordBytes, WordAt, Patched, Operand;
    var c, m := g.chains[l], g.chains[l][0];
    assert ChainOk(g, l, c);
    FixBound(g, l, c, 0);
    var kind, info := g.items[m].kind, g.items[m].info;
    OpcodeLength(kind, info);
    PatchPiece(g.pieces, m, Opcode(kind, info), Displace(NextFix(g, c, 0), kind, info).data,
      Operand(kind, info, Addr(g.pieces, m), Addr(g.pieces, j)));
  }

  lemma BindStep(g0: Asm, g: Asm, l: Label, j: nat)
    requires SameBut(g0, g, l) && AllSettle(g, l, j) && g.chains[l] != []
    ensures Settles(g, l, j) && |g.items| == |g.pieces| && |g0.items| == |g0.pieces| && j <= |g0.items|
    ensures Addr(g.pieces, j) == Addr(g0.pieces, j)
    ensures HeldAt(g0, j) ==> HeldAt(g, j)
  {
    hide Flatten, Addr, Reaches, Erasable;
    LayoutAddr(g0, g);
    assert SettlesAt(g, g.chains[l][0], j);
  }

  lemma AfterSettle(g0: Asm, g: Asm, l: Label, j: nat)
    requires SameBut(g0, g, l) && AllSettle(g, l, j) && Structured(g) && Settles(g, l, j)
    ensures Sized(g)
    ensures var h := Settled(g, l, j);
      h.pending in h.chains && SameBut(g0, h, l) && AllSettle(h, l, j) && l in h.chains && |h.chains[l]| ==
        |g.chains[l]| - 1
  {
    hide Structured, Settled, Flatten, Addr, Reaches, Sized, ItemsOk, ChainsOk;
    SizedOf(g);
    SettledShape(g, l, j);
    SettledLayout(g, l, j);
    PendingKnown(g);
    var h := Settled(g, l, j);
    forall k | 0 <= k < |h.chains[l]|
      ensures SettlesAt(h, h.chains[l][k], j)
    {
      assert SettlesAt(g, g.chains[l][k + 1], j);
    }
  }

  lemma PendingKnown(g: Asm)
    requires Structured(g)
    ensures g.pending in g.chains && |g.items| == |g.pieces|
  {}

  lemma PendingSettles(g: Asm)
    requires g.pending in g.chains && PendingOk(g) && g.mark <= |g.items| && g.chains[g.pending] != []
    ensures AllSettle(g, g.pending, g.mark) && (g.mark < |g.items| ==> HeldAt(g, g.mark))
  {
    hide Reaches, Erasable;
    forall k | 0 <= k < |g.chains[g.pending]|
      ensures SettlesAt(g, g.chains[g.pending][k], g.mark)
    {
      assert PendingUse(g, g.chains[g.pending][k]);
    }
  }

  lemma BoundKnown(g: Asm, a: Label)
    requires Structured(g) && a in g.bound
    ensures a in g.chains && |g.items| == |g.pieces|
  {}

  lemma BindingShown(g: Asm, stale: set<Label>, l: Label, x: Label, pos: int)
    requires Structured(g) && l in g.chains && l !in g.bound && l != g.pending && l !in stale && x in g.chains
    requires Shown(g, stale, null, x, pos)
    ensures Shown(BoundHere(g, l), stale, l, x, pos)
  {
    hide Flatten, Addr, ItemsOk, ChainsOk;
  }

  /** A label that is not stale is bound to a place within the code. */
  lemma NotBeyond(g: Asm, stale: set<Label>, a: Label, pos: int)
    requires Structured(g) && a in g.bound && a in g.chains && g.chains[a] == [] && Shown(g, stale, null, a, pos)
    ensures a !in stale ==> -pos - 1 <= g.Size()
  {
    if a !in stale && g.bound[a] <= |g.pieces| {
      AddrBound(g.pieces, g.bound[a]);
    }
  }

  lemma OwesSettles(g: Asm, l: Label)
    requires l in g.chains && OwesOk(g, l) && l in g.bound && g.bound[l] == |g.items|
    ensures AllSettle(g, l, |g.items|)
  {
    hide Reaches;
    forall k | 0 <= k < |g.chains[l]|
      ensures SettlesAt(g, g.chains[l][k], |g.items|)
    {
      assert Owes(g, g.chains[l][k], l);
    }
  }

  lemma RetractedShape(g: Asm, l: Label)
    requires Structured(g) && Retracts(g, l)
    ensures Sized(g) && l in g.chains && g.chains[l] != [] && g.chains[l][0] < |g.items|
    ensures var h := Retracted(g, l);
      && h.chains == g.chains[l := g.chains[l][1..]] && h.items == g.items && h.bound == g.bound
      && h.pending == g.pending && h.mark == g.mark
      && |h.items| == |h.pieces| && (forall m :: m in g.erased ==> m in h.erased)
  {
    hide ItemsOk, ChainsOk, Flatten, Fix, Reaches;
  }

  /** What taking back the last jump amounts to. */
  lemma RetractFacts(g: Asm, stale: set<Label>, stale1: set<Label>, finalized: bool, bp: int, l: Label, pos: int)
    returns (h: Asm)
    requires Settling(g, stale, l, true, finalized, bp) && !finalized && Waiting(g) && Retracts(g, l)
    requires g.chains[g.pending] == []
    requires l != g.pending && l !in stale && Shown(g, stale, l, l, pos) && stale1 == Passed(g, stale, l)
    ensures Structured(g) && Sized(g) && |g.items| == |g.pieces| && l in g.chains && g.chains[l] != []
    ensures g.chains[l][0] < |g.items|
    ensures h == Retracted(g, l) && pos == Fix(g, g.chains[l][0]) + 1 && g.Size() >= 5
    ensures h.items == g.items && h.bound == g.bound && h.chains == g.chains[l := g.chains[l][1..]]
    ensures |h.items| == |h.pieces|
    ensures h.pending == g.pending && Settling(h, stale1, l, true, finalized, bp) && h.pending in h.chains && Waiting(h)
    ensures Flatten(h.pieces) == Flatten(g.pieces)[..g.Size() - 5] && l !in stale1
    ensures Shown(h, stale1, l, l, NextField(g, l, 0))
    ensures forall m :: m in g.erased ==> m in h.erased
  {
    hide Flatten, Addr, Waiting, Held, Structured, Retracts, Shown, Fix, NextField;
    RetractedShape(g, l);
    PendingKnown(g);
    h := Retracted(g, l);
    RetractedStructured(g, l);
    RetractedWaiting(g, l);
    RetractedBytes(g, l);
    RetractedField(g, stale, l, pos);
  }

  lemma RetractedBytes(g: Asm, l: Label)
    requires Structured(g) && Retracts(g, l)
    ensures Sized(g) && g.Size() >= 5 && Flatten(Retracted(g, l).pieces) == Flatten(g.pieces)[..g.Size() - 5]
  {
    hide Flatten, Addr, Reaches;
    SizedOf(g);
    NothingBehind(g, l);
    var m, h := g.chains[l][0], Retracted(g, l);
    hide Retracts, Structured;
    FlattenSplit(g.pieces, m);
    FlattenSplit(h.pieces, m);
    EmptyRest(g.pieces[m + 1..]);
    assert h.pieces[..m] == g.pieces[..m] && h.pieces[m + 1..] == g.pieces[m + 1..];
  }

  lemma {:induction false} EmptyRest(pieces: seq<seq<Byte>>)
    requires forall k :: 0 <= k < |pieces| ==> pieces[k] == []
    ensures Flatten(pieces) == []
  {
    if pieces != [] {
      EmptyRest(pieces[..|pieces| - 1]);
    }
  }

  lemma RetractedField(g: Asm, stale: set<Label>, l: Label, pos: int)
    requires Structured(g) && Retracts(g, l) && l != g.pending && l !in stale && Shown(g, stale, l, l, pos)
    ensures Sized(g) && |Retracted(g, l).items| == |Retracted(g, l).pieces| && l in Retracted(g, l).chains
    ensures l !in Passed(g, stale, l)
    ensures |g.items| == |g.pieces| && l in g.chains && g.chains[l] != [] && pos == Fix(g, g.chains[l][0]) + 1
    ensures Shown(Retracted(g, l), Passed(g, stale, l), l, l, NextField(g, l, 0))
  {
    RetractedShape(g, l);
    ChainMembers(g, l);
    var c := g.chains[l];
    RetractedBefore(g, l, l, c[1..]);
    if |c| > 1 {
      assert c[1..][0] == c[1];
      RetractedFix(g, l, c[1]);
    }
    hide Structured, Retracted, Fix, Flatten;
  }

  /** The other labels show what they should, now that some are stale. */
  lemma RetractedShown(g: Asm, stale: set<Label>, l: Label, x: Label, pos: int)
    requires Structured(g) && Retracts(g, l) && x in g.chains && x != l && Shown(g, stale, l, x, pos)
    requires (x in g.bound ==> g.chains[x] == []) && (x in stale ==> x in g.bound)
    ensures Sized(g) && |Retracted(g, l).items| == |Retracted(g, l).pieces| && x in Retracted(g, l).chains
    ensures Shown(Retracted(g, l), Passed(g, stale, l), l, x, pos)
  {
    RetractedShape(g, l);
    var h, m := Retracted(g, l), g.chains[l][0];
    if g.chains[x] != [] {
      RetractedBefore(g, l, x, g.chains[x]);
      RetractedFix(g, l, g.chains[x][0]);
    } else if x in g.bound && x !in stale && g.bound[x] <= m {
      RetractedAddr(g, l, g.bound[x]);
    }
    hide Structured, Retracted, Fix, Flatten, Addr;
  }

  /** A label becomes stale just when its place lies behind the new end. */
  lemma PassedIs(g: Asm, stale: set<Label>, l: Label, a: Label, pos: int)
    requires Structured(g) && Retracts(g, l) && a in g.bound && a in g.chains && a != l && g.chains[a] == []
    requires Shown(g, stale, l, a, pos)
    ensures a in Passed(g, stale, l) <==> a in stale || -pos - 1 > g.Size() - 5
  {
    NothingBehind(g, l);
    hide Flatten, Addr, Reaches, ItemsOk, ChainsOk;
    var m, b := g.chains[l][0], g.bound[a];
    if a !in stale {
      if b <= m {
        AddrMonotone(g.pieces, b, m);
      } else {
        AddrStep(g.pieces, m);
        AddrMonotone(g.pieces, m + 1, b);
      }
    }
  }

  lemma SameButFacts(g: Asm, h: Asm, l: Label)
    requires SameBut(g, h, l)
    ensures h.items == g.items && h.bound == g.bound && h.erased == g.erased && h.pending == g.pending
    ensures |h.items| == |h.pieces|
    ensures h.chains.Keys == g.chains.Keys
  {}

  lemma LinkedBound(g: Asm, l: Label)
    requires Structured(g) && l in g.chains && l != g.pending
    ensures Sized(g)
    ensures var h := Linked(g, l);
      && h.items == g.items && h.bound == g.bound && h.erased == g.erased && h.pending == g.pending
      && |h.items| == |h.pieces|
      && h.chains.Keys == g.chains.Keys && g.pending in h.chains && h.chains[g.pending] == []
  {
    SizedOf(g);
    hide ItemsOk, ChainsOk, Flatten, Fix, Unresolved;
  }

  /** What putting off the uses of a label that has just been bound amounts to. */
  lemma DeferFacts(g: Asm, stale: set<Label>, elim: bool, finalized: bool, bp: int, l: Label, pos: int) returns (h: Asm)
    requires Settling(g, stale, l, elim, finalized, bp) && elim && Waiting(g) && g.chains[g.pending] == []
    requires l in g.bound && g.bound[l] == |g.items| && l in g.chains && l != g.pending && l !in stale
    requires Shown(g, stale, l, l, pos)
    ensures h == Deferred(g, l) && |g.items| == |g.pieces| == |h.pieces| && h.items == g.items && h.bound == g.bound
    ensures h.erased == g.erased && h.pieces == g.pieces
    ensures h.chains == g.chains[g.pending := g.chains[l]][l := []] && h.pending == g.pending && h.pending in h.chains
    ensures Waiting(h)
    ensures Settling(h, stale, l, elim, finalized, g.Size())
    ensures Shown(h, stale, l, g.pending, pos) && Shown(h, stale, l, l, 0) && g.pending !in g.bound
  {
    hide Flatten, Addr, Waiting, Held, Structured, Shown, Fix;
    PendingKnown(g);
    h := Deferred(g, l);
    DeferredStructured(g, l);
    DeferredWaiting(g, l);
    AddrEnds(g.pieces);
    DeferredFields(g, stale, l, pos);
    PendingNotStale(g, stale, l, elim, finalized, bp);
  }

  lemma DeferredFields(g: Asm, stale: set<Label>, l: Label, pos: int)
    requires Structured(g) && g.chains[g.pending] == [] && l in g.chains && l != g.pending && l !in stale
    requires stale <= g.bound.Keys && Shown(g, stale, l, l, pos)
    ensures var h := Deferred(g, l);
      && |h.items| == |h.pieces| && g.pending in h.chains && Shown(h, stale, l, g.pending, pos)
      && Shown(h, stale, l, l, 0) && g.pending !in g.bound
  {
    hide Flatten, Addr, ItemsOk, ChainsOk;
  }

  lemma DeferredShown(g: Asm, stale: set<Label>, l: Label, x: Label, pos: int)
    requires Structured(g) && x in g.chains && x != l && x != g.pending && l in g.chains && Shown(g, stale, l, x, pos)
    ensures |g.items| == |g.pieces| && x in Deferred(g, l).chains && Shown(Deferred(g, l), stale, l, x, pos)
  {
    hide Flatten, Addr, ItemsOk, ChainsOk;
  }
}
