/** The assembler's label machinery: uses of labels that are not bound yet are chained through the
    operand fields of the emitted code; binding resolves them, unless they can be put off because the
    next thing emitted may be another jump. */
module LabelAssembler {
  import opened Basics
  import opened Displacements
  import opened LabelChains
  import opened Assembly
  import opened LabelStates

  class Assembler {
    const buffer: array<Byte>
    const eliminateJumpsToJumps: bool
    const unboundLabel: Label
    var codePos: nat
    var bindingPos: nat

    ghost var g: Asm
    ghost var stale: set<Label>
    ghost var finalized: bool

    function Offset(): nat
      reads `codePos
    {
      codePos
    }

    function Code(): seq<Byte>
      reads `codePos, buffer
      requires codePos <= buffer.Length
    {
      buffer[..codePos]
    }

    /** Everything but the contents of the buffer. */
    ghost predicate State(binding: Label?)
      reads `g, `stale, `finalized, `bindingPos, g.chains.Keys
    {
      && g.pending == unboundLabel && Settling(g, stale, binding, eliminateJumpsToJumps, finalized, bindingPos)
      && forall l :: l in g.chains ==> Shown(g, stale, binding, l, l.pos)
    }

    /** The buffer holds the code of all items, and the opcode bytes `op` of one being emitted. */
    ghost predicate Holds(op: seq<Byte>)
      reads `g, `codePos, buffer
    {
      buffer.Length <= MAX_CODE && codePos <= buffer.Length && buffer[..codePos] == Flatten(g.pieces) + op
    }

    ghost predicate Valid()
      reads `g, `stale, `finalized, `bindingPos, `codePos, g.chains.Keys, buffer
    {
      Holds([]) && State(null) && Waiting(g)
    }

    /** A label this assembler knows, or an unused one. */
    ghost predicate Usable(l: Label)
      reads `g, `stale, l
    {
      (l in g.chains || l.pos == 0) && l != unboundLabel && l !in stale
    }

    constructor (capacity: nat, elim: bool)
      requires capacity <= MAX_CODE
      ensures Valid() && fresh(buffer) && fresh(unboundLabel) && buffer.Length == capacity && codePos == 0
      ensures eliminateJumpsToJumps == elim && !finalized && stale == {}
      ensures g.items == [] && g.bound == map[] && g.chains.Keys == {unboundLabel}
    {
      buffer := new Byte[capacity];
      eliminateJumpsToJumps := elim;
      var l := new Label();
      unboundLabel := l;
      codePos, bindingPos := 0, 0;
      g := Asm([], [], map[], map[], map[], map[l := []], map[], l, 0);
      stale, finalized := {}, false;
    }

    // ---- raw emission -----------------------------------------------------------------------------------------------

    method EmitByte(x: Byte, ghost op: seq<Byte>)
      requires Holds(op) && codePos < buffer.Length
      modifies `codePos, buffer
      ensures Holds(op + [x]) && codePos == old(codePos) + 1
    {
      ghost var c := Code();
      buffer[codePos] := x;
      codePos := codePos + 1;
      assert buffer[..codePos] == c + [x];
    }

    method EmitLong(w: nat, ghost op: seq<Byte>)
      requires Holds(op) && codePos + 4 <= buffer.Length && w < WORD
      modifies `codePos, buffer
      ensures Holds(op + WordBytes(w)) && codePos == old(codePos) + 4
    {
      ghost var c := Code();
      var b := WordBytes(w);
      buffer[codePos] := b[0];
      buffer[codePos + 1] := b[1];
      buffer[codePos + 2] := b[2];
      buffer[codePos + 3] := b[3];
      codePos := codePos + 4;
      assert buffer[..codePos] == c + b;
    }

    method LongAt(pos: nat) returns (w: nat)
      requires codePos <= buffer.Length && pos + 4 <= codePos
      ensures w < WORD && w == WordAt(buffer[..codePos], pos)
    {
      w := buffer[pos] as int + 0x100 * (buffer[pos + 1] as int) + 0x1_0000 * (buffer[pos + 2] as int)
        + 0x100_0000 * (buffer[pos + 3] as int);
    }

    method LongAtPut(pos: nat, w: nat)
      requires codePos <= buffer.Length && pos + 4 <= codePos && w < WORD
      modifies buffer
      ensures buffer[..codePos] == Patched(old(buffer[..codePos]), pos, w)
    {
      var b := WordBytes(w);
      buffer[pos] := b[0];
      buffer[pos + 1] := b[1];
      buffer[pos + 2] := b[2];
      buffer[pos + 3] := b[3];
    }

    // ---- uses of labels -------------------------------------------------------------------------------------------

    /** The item now being emitted is complete. */
    ghost method Commit(op: seq<Byte>, h: Asm)
      requires Holds(op) && Ready(g, h, unboundLabel, stale, eliminateJumpsToJumps, finalized, bindingPos, op)
      requires forall x :: x in h.chains ==> Shown(h, stale, null, x, x.pos)
      modifies `g
      ensures Valid() && g == h
    {
      hide Settling, Shown, Flatten, Waiting;
      g := h;
      Whole(Flatten(g.pieces));
    }

    /** What is known before a use of a bound label is emitted. */
    lemma BackwardUse(l: Label, kind: Kind, info: nat, w: nat) returns (h: Asm, op: seq<Byte>)
      requires Valid() && Usable(l) && l.IsBound() && WellFormedUse(kind, info)
      requires codePos + OpcodeSize(kind) + 4 <= buffer.Length
      requires w == Operand(kind, info, codePos, l.Pos())
      ensures Holds([]) && op == Opcode(kind, info) && |op| == OpcodeSize(kind) && |h.items| == |h.pieces|
      ensures OneItem(g, h, Use(kind, info, l, false))
      ensures Ready(g, h, unboundLabel, stale, eliminateJumpsToJumps, finalized, bindingPos, op + WordBytes(w))
      ensures forall x :: x in h.chains ==> Shown(h, stale, null, x, x.pos)
    {
      BoundShown(g, stale, l, l.pos);
      Whole(Flatten(g.pieces));
      CodeSize(g, []);
      op := Opcode(kind, info);
      OpcodeLength(kind, info);
      BackwardPiece(g, l, kind, info, op + WordBytes(w));
      h := BackwardSettling(g, stale, eliminateJumpsToJumps, finalized, bindingPos, kind, info, l, op + WordBytes(w));
      hide Settling, Shown, Flatten, Waiting, OneMore, Opcode, WordBytes, Operand, OneItem;
      AllShown(h);
    }

    lemma AllShown(h: Asm)
      requires |g.items| == |g.pieces| && OneMore(g, h) && h.chains == g.chains && |h.items| == |h.pieces|
      requires forall x :: x in g.chains ==> Shown(g, stale, null, x, x.pos)
      ensures forall x :: x in h.chains ==> Shown(h, stale, null, x, x.pos)
    {
      hide OneMore, Shown;
      forall x | x in h.chains
        ensures Shown(h, stale, null, x, x.pos)
      {
        OldShown(g, h, stale, null, x, x.pos);
      }
    }

    /** The operand of a use of a label that is not bound: it becomes the head of the label's chain. */
    method EmitDisp(l: Label, kind: Kind, info: nat)
      requires WellFormedUse(kind, info) && Holds(Opcode(kind, info)) && State(null) && codePos + 4 <= buffer.Length
      requires Usable(l) && !l.IsBound()
      modifies l, buffer, `codePos, `g
      ensures Holds([]) && State(null) && codePos == old(codePos) + 4
      ensures l in Known(old(g), l).chains && Sized(Known(old(g), l))
      ensures g == WithForward(Known(old(g), l), kind, info, l)
    {
      ForwardReady(l, kind, info);
      ghost var h := WithForward(Known(g, l), kind, info, l);
      var next := if l.IsUnbound() then l.Pos() else 0;
      var disp := Displace(next, kind, info);
      hide *;
      PutHead(l, disp.data, Opcode(kind, info), h);
    }

    /** Writes an operand field and makes it the head of the label's chain. */
    method PutHead(l: Label, w: nat, ghost op: seq<Byte>, ghost h: Asm)
      requires Holds(op) && codePos + 4 <= buffer.Length && w < WORD
      requires Flatten(h.pieces) == Flatten(g.pieces) + op + WordBytes(w) && h.pending == unboundLabel
      requires Settling(h, stale, null, eliminateJumpsToJumps, finalized, bindingPos) && l in h.chains
      requires Shown(h, stale, null, l, codePos + 1)
      requires forall x :: x in h.chains && x != l ==> Shown(h, stale, null, x, x.pos)
      modifies l, buffer, `codePos, `g
      ensures Holds([]) && State(null) && g == h && codePos == old(codePos) + 4
    {
      hide Settling, Shown, Flatten, WordBytes;
      l.LinkTo(Offset());
      EmitLong(w, op);
      g := h;
      Whole(Flatten(g.pieces));
    }

    /** What is known before the operand of a forward use is emitted. */
    lemma ForwardReady(l: Label, kind: Kind, info: nat)
      requires WellFormedUse(kind, info) && Holds(Opcode(kind, info)) && State(null) && codePos + 4 <= buffer.Length
      requires Usable(l) && !l.IsBound()
      ensures l in Known(g, l).chains && Sized(Known(g, l))
      ensures var next, h := if l.IsUnbound() then l.Pos() else 0, WithForward(Known(g, l), kind, info, l);
        && 0 <= next < MAX_CODE && info < 0x100
        && h.pending == unboundLabel && Settling(h, stale, null, eliminateJumpsToJumps, finalized, bindingPos)
        && Flatten(h.pieces) == Flatten(g.pieces) + Opcode(kind, info) + WordBytes(Displace(next, kind, info).data)
        && Shown(h, stale, null, l, codePos + 1)
        && forall x :: x in h.chains && x != l ==> Shown(h, stale, null, x, x.pos)
    {
      hide Flatten, Addr, ItemsOk, ChainsOk, Waiting, Held, Unresolved, WordBytes, Displace, Fix;
      var next := if l.IsUnbound() then l.Pos() else 0;
      if l in g.chains {
        UnboundShown(g, stale, eliminateJumpsToJumps, finalized, bindingPos, l, l.pos);
      } else {
        KnownSettling(g, stale, eliminateJumpsToJumps, finalized, bindingPos, l);
      }
      CodeSize(g, Opcode(kind, info));
      OpcodeLength(kind, info);
      ForwardSettling(Known(g, l), stale, eliminateJumpsToJumps, finalized, bindingPos, kind, info, l, next);
      OthersForward(l, kind, info);
    }

    /** The other labels show what they did before. */
    lemma OthersForward(l: Label, kind: Kind, info: nat)
      requires WellFormedUse(kind, info) && State(null) && Sized(Known(g, l)) && l in Known(g, l).chains
      requires Structured(Known(g, l)) && l !in g.bound
      ensures var h := WithForward(Known(g, l), kind, info, l);
        |h.items| == |h.pieces| && forall x :: x in h.chains && x != l ==> Shown(h, stale, null, x, x.pos)
    {
      hide Shown, Flatten, ItemsOk, ChainsOk, Unresolved, Fix;
      forall x | x in Known(g, l).chains && x != l
        ensures Shown(WithForward(Known(g, l), kind, info, l), stale, null, x, x.pos)
      {
        KnownShown(g, stale, l, x, x.pos);
        ForwardShown(Known(g, l), stale, kind, info, l, x, x.pos);
      }
    }

    /** An instruction without a label. */
    method Emit(bytes: seq<Byte>)
      requires Valid() && bytes != [] && codePos + |bytes| <= buffer.Length
      modifies `codePos, buffer, `g
      ensures Valid() && codePos == old(codePos) + |bytes|
      ensures OneItem(old(g), g, Plain(bytes))
    {
      hide *;
      ghost var h := PlainReady(bytes);
      EmitAll(bytes);
      Commit(bytes, h);
    }

    method EmitAll(bytes: seq<Byte>)
      requires Holds([]) && codePos + |bytes| <= buffer.Length
      modifies `codePos, buffer
      ensures Holds(bytes) && codePos == old(codePos) + |bytes|
    {
      var i := 0;
      while i < |bytes|
        invariant i <= |bytes| && Holds(bytes[..i]) && codePos == old(codePos) + i
      {
        EmitByte(bytes[i], bytes[..i]);
        assert bytes[..i + 1] == bytes[..i] + [bytes[i]];
        i := i + 1;
      }
      assert bytes[..i] == bytes;
    }

    lemma PlainReady(bytes: seq<Byte>) returns (h: Asm)
      requires Valid() && bytes != [] && codePos + |bytes| <= buffer.Length
      ensures Holds([]) && |h.items| == |h.pieces| && OneItem(g, h, Plain(bytes))
      ensures Ready(g, h, unboundLabel, stale, eliminateJumpsToJumps, finalized, bindingPos, bytes)
      ensures forall x :: x in h.chains ==> Shown(h, stale, null, x, x.pos)
    {
      hide Shown, Flatten, Waiting, ItemsOk, ChainsOk, Held, Addr, OneMore, WithPlain, OneItem;
      Whole(Flatten(g.pieces));
      CodeSize(g, []);
      h := WithPlain(g, bytes);
      PlainShape(g, bytes);
      PlainSettling(g, stale, eliminateJumpsToJumps, finalized, bindingPos, bytes);
      AllShown(h);
    }

    /** A use of a bound label: the operand is known. */
    method EmitBackward(l: Label, kind: Kind, info: nat, w: nat)
      requires Valid() && Usable(l) && l.IsBound() && WellFormedUse(kind, info)
      requires codePos + OpcodeSize(kind) + 4 <= buffer.Length
      requires w == Operand(kind, info, codePos, l.Pos())
      modifies `codePos, buffer, `g
      ensures Valid() && codePos == old(codePos) + OpcodeSize(kind) + 4
      ensures OneItem(old(g), g, Use(kind, info, l, false))
    {
      hide Settling, Shown, Waiting, Flatten, OneItem, Valid, State, Holds, Ready, Usable, Operand, WordBytes;
      ghost var h, op := BackwardUse(l, kind, info, w);
      PutUse(Opcode(kind, info), w, h);
    }

    /** Emits an instruction with its operand. */
    method PutUse(op: seq<Byte>, w: nat, ghost h: Asm)
      requires Holds([]) && w < WORD && codePos + |op| + 4 <= buffer.Length
      requires Ready(g, h, unboundLabel, stale, eliminateJumpsToJumps, finalized, bindingPos, op + WordBytes(w))
      requires forall x :: x in h.chains ==> Shown(h, stale, null, x, x.pos)
      modifies `codePos, buffer, `g
      ensures Valid() && g == h && codePos == old(codePos) + |op| + 4
    {
      hide *;
      EmitAll(op);
      EmitLong(w, op);
      Commit(op + WordBytes(w), h);
    }

    /** A use of a label that is not bound. */
    method EmitForward(l: Label, kind: Kind, info: nat)
      requires Valid() && Usable(l) && !l.IsBound() && WellFormedUse(kind, info)
      requires codePos + OpcodeSize(kind) + 4 <= buffer.Length
      requires kind == AbsoluteJump ==> g.chains[g.pending] == [] || g.mark < |g.items|
      modifies l, `codePos, buffer, `g
      ensures Valid() && codePos == old(codePos) + OpcodeSize(kind) + 4
      ensures OneItem(old(g), g, Use(kind, info, l, true))
    {
      ForwardUse(g, stale, eliminateJumpsToJumps, finalized, bindingPos, l, l.pos, kind, info);
      hide *;
      EmitHead(l, kind, info);
    }

    /** The instruction of a forward use. */
    method EmitHead(l: Label, kind: Kind, info: nat)
      requires Holds([]) && State(null) && Usable(l) && !l.IsBound() && WellFormedUse(kind, info)
      requires codePos + OpcodeSize(kind) + 4 <= buffer.Length
      modifies l, `codePos, buffer, `g
      ensures Holds([]) && State(null) && codePos == old(codePos) + OpcodeSize(kind) + 4
      ensures l in Known(old(g), l).chains && Sized(Known(old(g), l))
      ensures g == WithForward(Known(old(g), l), kind, info, l)
    {
      OpcodeLength(kind, info);
      hide *;
      EmitAll(Opcode(kind, info));
      EmitDisp(l, kind, info);
    }

    method Call(l: Label)
      requires Valid() && Usable(l) && codePos + 5 <= buffer.Length
      modifies l, `codePos, buffer, `g
      ensures Valid() && codePos == old(codePos) + 5
      ensures OneItem(old(g), g, Use(Kind.Call, 0, l, !old(l.IsBound())))
    {
      hide Settling, Shown, Waiting, Flatten, OneItem, Unsigned, Valid;
      if l.IsBound() {
        var offs := l.Pos() - Offset();
        EmitBackward(l, Kind.Call, 0, Unsigned(offs - 5));
      } else {
        EmitForward(l, Kind.Call, 0);
      }
    }

    method Jcc(cc: nat, l: Label)
      requires Valid() && Usable(l) && cc < 16 && codePos + 6 <= buffer.Length
      modifies l, `codePos, buffer, `g
      ensures Valid() && codePos == old(codePos) + 6
      ensures OneItem(old(g), g, Use(ConditionalJump, cc, l, !old(l.IsBound())))
    {
      hide Settling, Shown, Waiting, Flatten, OneItem, Unsigned, Valid;
      if l.IsBound() {
        BoundBefore(l);
        var offs := l.Pos() - Offset();
        if 0 <= offs - 2 < 0x100 {
          assert false;
        } else {
          EmitBackward(l, ConditionalJump, cc, Unsigned(offs - 6));
        }
      } else {
        EmitForward(l, ConditionalJump, cc);
      }
    }

    lemma BoundBefore(l: Label)
      requires Valid() && Usable(l) && l.IsBound()
      ensures l.Pos() <= codePos
    {
      BoundShown(g, stale, l, l.pos);
      CodeSize(g, []);
      Whole(Flatten(g.pieces));
    }

    method IcInfo(l: Label, flags: nat)
      requires Valid() && Usable(l) && flags < 0x100 && codePos + 5 <= buffer.Length
      modifies l, `codePos, buffer, `g
      ensures Valid() && codePos == old(codePos) + 5
      ensures OneItem(old(g), g, Use(Kind.IcInfo, flags, l, !old(l.IsBound())))
    {
      hide Settling, Shown, Waiting, Flatten, OneItem, Unsigned, Valid;
      if l.IsBound() {
        var offs := l.Pos() - Offset();
        EmitBackward(l, Kind.IcInfo, flags, Unsigned(offs * 0x100 + flags));
      } else {
        EmitForward(l, Kind.IcInfo, flags);
      }
    }

    // ---- chains in the code ---------------------------------------------------------------------------------------

    /** The field of a label that is the next on a chain, read from the use at `p`. */
    method NextUse(p: nat, ghost l: Label, ghost k: nat) returns (next: nat, kind: Kind, info: nat)
      requires Holds([]) && Structured(g) && l in g.chains && k < |g.chains[l]|
      requires g.chains[l][k] < |g.items| == |g.pieces| && p == Fix(g, g.chains[l][k])
      ensures p + 4 <= codePos && next == NextField(g, l, k)
      ensures g.items[g.chains[l][k]].Use? && kind == g.items[g.chains[l][k]].kind
      ensures info == g.items[g.chains[l][k]].info
    {
      ReadUse(g, l, k);
      Whole(Flatten(g.pieces));
      hide *;
      var w := LongAt(p);
      var disp := Displacement(w);
      var n := disp.Next();
      next := if n > 0 then n + 1 else 0;
      kind, info := disp.Type(), disp.Info();
    }

    /** The position of the last use on the chain of `l`. */
    method LastUse(l: Label) returns (p: nat, kind: Kind, info: nat)
      requires Holds([]) && Structured(g) && l in g.chains && g.chains[l] != []
      requires g.chains[l][0] < |g.items| == |g.pieces| && l.pos == Fix(g, g.chains[l][0]) + 1
      ensures var m := g.chains[l][|g.chains[l]| - 1];
        && m < |g.items| && g.items[m].Use? && p == Fix(g, m) && kind == g.items[m].kind && info == g.items[m].info
        && p + 4 <= codePos
    {
      ChainMembers(g, l);
      hide Holds, Structured, Fix, NextField;
      ghost var k := 0;
      p := l.pos - 1;
      var q;
      q, kind, info := NextUse(p, l, k);
      NextPosition(g, l, k);
      while q > 0
        invariant k < |g.chains[l]| && p == Fix(g, g.chains[l][k]) && q == NextField(g, l, k) && p + 4 <= codePos
        invariant k + 1 < |g.chains[l]| <==> q > 0
        invariant k + 1 < |g.chains[l]| ==> q == Fix(g, g.chains[l][k + 1]) + 1
        invariant g.items[g.chains[l][k]].Use? && kind == g.items[g.chains[l][k]].kind
        invariant info == g.items[g.chains[l][k]].info
        decreases |g.chains[l]| - k
      {
        k := k + 1;
        p := q - 1;
        q, kind, info := NextUse(p, l, k);
        NextPosition(g, l, k);
      }
    }

    /** Appends the chain of the unbound label to that of `l`, which takes over its uses. */
    method LinkTo(l: Label, ghost binding: Label?)
      requires Holds([]) && State(binding) && l in g.chains && l != unboundLabel && l !in stale
      requires (l in g.bound ==> l == binding)
      requires binding != unboundLabel
      modifies l, unboundLabel, buffer, `g
      ensures Holds([]) && State(binding) && codePos == old(codePos)
      ensures Sized(old(g)) && l in old(g.chains) && g == Linked(old(g), l)
      ensures l in g.chains && (old(l.pos) >= 0 ==> l.pos >= 0)
    {
      hide Settling, Shown, Flatten, Structured, Sized, Holds, State, Linked, Fix;
      ghost var h := LinkReady(l, binding);
      var newPos := l.pos;
      if unboundLabel.IsUnbound() {
        if l.IsUnbound() {
          PatchLast(l);
        } else {
          newPos := unboundLabel.pos;
        }
      }
      PutLink(l, newPos, binding, h);
    }

    lemma LinkReady(l: Label, binding: Label?) returns (h: Asm)
      requires Holds([]) && State(binding) && l in g.chains && l != unboundLabel && l !in stale
      requires (l in g.bound ==> l == binding)
      requires binding != unboundLabel
      ensures Structured(g) && Sized(g) && |g.items| == |g.pieces| && g.pending == unboundLabel
      ensures unboundLabel in g.chains
      ensures l.pos > 0 <==> g.chains[l] != []
      ensures unboundLabel.pos > 0 <==> g.chains[unboundLabel] != []
      ensures g.chains[l] != [] ==> g.chains[l][0] < |g.items| && l.pos == Fix(g, g.chains[l][0]) + 1
      ensures g.chains[unboundLabel] != [] ==>
        g.chains[unboundLabel][0] < |g.items| && unboundLabel.pos == Fix(g, g.chains[unboundLabel][0]) + 1
      ensures h == Linked(g, l) && h.pending == unboundLabel && unboundLabel in h.chains && l in h.chains
      ensures |h.items| == |h.pieces|
      ensures Settling(h, stale, binding, eliminateJumpsToJumps, finalized, bindingPos)
      ensures Shown(h, stale, binding, l, if unboundLabel.pos > 0 && l.pos <= 0 then unboundLabel.pos else l.pos)
      ensures Shown(h, stale, binding, unboundLabel, 0)
      ensures forall x :: x in h.chains && x != l && x != unboundLabel ==> Shown(h, stale, binding, x, x.pos)
      ensures buffer.Length <= MAX_CODE && codePos <= buffer.Length
      ensures l.pos <= 0 || unboundLabel.pos <= 0 ==> buffer[..codePos] == Flatten(h.pieces)
    {
      LinkingFacts(g, stale, binding, eliminateJumpsToJumps, finalized, bindingPos, l, l.pos, unboundLabel.pos);
      h := Linked(g, l);
      OthersShown(h, l, binding);
      Whole(Flatten(g.pieces));
      hide Settling, Shown, Flatten, Structured, Linked, SameLayout, Fix;
    }

    /** The last use on the chain of `l` gets the first pending use as its next. */
    method PatchLast(l: Label)
      requires Holds([]) && Structured(g) && Sized(g) && l in g.chains && l != g.pending && g.chains[l] != []
      requires g.chains[g.pending] != []
      requires g.chains[l][0] < |g.items| && l.pos == Fix(g, g.chains[l][0]) + 1
      requires g.chains[g.pending][0] < |g.items| && unboundLabel.pos == Fix(g, g.chains[g.pending][0]) + 1
      modifies buffer
      ensures codePos <= buffer.Length && buffer[..codePos] == Flatten(Linked(g, l).pieces)
    {
      hide Flatten, ItemsOk, ChainsOk, Linked, Displace, Addr, Fix, Unresolved;
      LinkedBytes(g, l);
      Whole(Flatten(g.pieces));
      var p, kind, info := LastUse(l);
      LongAtPut(p, Displace(unboundLabel.Pos(), kind, info).data);
    }

    lemma OthersShown(h: Asm, l: Label, binding: Label?)
      requires SameLayout(g, h) && |g.items| == |g.pieces|
      requires forall x :: x in g.chains ==> Shown(g, stale, binding, x, x.pos)
      requires forall x :: x in h.chains && x != l && x != g.pending ==> x in g.chains && h.chains[x] == g.chains[x]
      ensures |h.items| == |h.pieces|
      ensures forall x :: x in h.chains && x != l && x != g.pending ==> Shown(h, stale, binding, x, x.pos)
    {
      hide Shown, SameLayout, Flatten;
      SameLayoutSize(g, h);
      forall x | x in h.chains && x != l && x != g.pending
        ensures Shown(h, stale, binding, x, x.pos)
      {
        LayoutShown(g, h, stale, binding, x, x.pos);
      }
    }

    /** Sets the two labels as the link requires. */
    method PutLink(l: Label, newPos: int, ghost binding: Label?, ghost h: Asm)
      requires buffer.Length <= MAX_CODE && codePos <= buffer.Length && buffer[..codePos] == Flatten(h.pieces)
      requires l != unboundLabel
      requires Settling(h, stale, binding, eliminateJumpsToJumps, finalized, bindingPos) && h.pending == unboundLabel
      requires l in h.chains
      requires Shown(h, stale, binding, l, newPos) && Shown(h, stale, binding, unboundLabel, 0)
      requires forall x :: x in h.chains && x != l && x != unboundLabel ==> Shown(h, stale, binding, x, x.pos)
      modifies l, unboundLabel, `g
      ensures Holds([]) && State(binding) && g == h && l.pos == newPos
    {
      hide Settling, Shown, Flatten;
      l.pos := newPos;
      unboundLabel.Unuse();
      g := h;
      Whole(Flatten(g.pieces));
    }

    /** A label that is used for the first time. */
    ghost method Register(l: Label)
      requires Valid() && Usable(l) && !l.IsBound()
      modifies `g
      ensures Valid() && g == Known(old(g), l) && l in g.chains && l !in g.bound
    {
      hide *;
      ghost var k := RegisterReady(l);
      Commit([], k);
    }

    lemma RegisterReady(l: Label) returns (k: Asm)
      requires Valid() && Usable(l) && !l.IsBound()
      ensures Holds([]) && |k.items| == |k.pieces| && k == Known(g, l) && l in k.chains && l !in k.bound
      ensures Ready(g, k, unboundLabel, stale, eliminateJumpsToJumps, finalized, bindingPos, [])
      ensures forall x :: x in k.chains ==> Shown(k, stale, null, x, x.pos)
    {
      KnownSettled(g, stale, eliminateJumpsToJumps, finalized, bindingPos, l, l.pos);
      AllKnown(l);
      Whole(Flatten(g.pieces));
      k := Known(g, l);
      KnownFacts(g, l);
      hide Settling, Waiting, Shown, Flatten, Known;
    }

    lemma AllKnown(l: Label)
      requires State(null) && Usable(l) && |g.items| == |g.pieces| && g.bound.Keys <= g.chains.Keys
      ensures forall x :: x in Known(g, l).chains ==> Shown(Known(g, l), stale, null, x, x.pos)
    {
      KnownFacts(g, l);
      hide Settling, Shown, Known;
      forall x | x in Known(g, l).chains
        ensures Shown(Known(g, l), stale, null, x, x.pos)
      {
        KnownShown(g, stale, l, x, x.pos);
      }
    }

    method Jmp(l: Label)
      requires Valid() && Usable(l) && codePos + 5 <= buffer.Length
      modifies l, unboundLabel, `codePos, buffer, `g
      ensures Valid() && codePos == old(codePos) + 5
      ensures OneItem(old(g), g, Use(AbsoluteJump, 0, l, !old(l.IsBound())))
    {
      hide Settling, Shown, Waiting, Flatten, OneItem, Unsigned, Valid;
      if l.IsBound() {
        BoundBefore(l);
        var offs := l.Pos() - Offset();
        if 0 <= offs - 2 < 0x100 {
          assert false;
        } else {
          EmitBackward(l, AbsoluteJump, 0, Unsigned(offs - 5));
        }
      } else {
        PendingFields();
        if eliminateJumpsToJumps && unboundLabel.IsUnbound() && bindingPos == Offset() {
          JumpToJump(l);
        } else {
          EmitForward(l, AbsoluteJump, 0);
        }
      }
    }

    /** What the unbound label and the binding position say about the pending uses. */
    lemma PendingFields()
      requires Valid()
      ensures g.pending == unboundLabel && unboundLabel in g.chains && unboundLabel !in g.bound && g.mark <= |g.items|
      ensures unboundLabel.IsUnbound() <==> g.chains[unboundLabel] != []
      ensures unboundLabel.IsUnbound() ==> (bindingPos == codePos <==> g.mark == |g.items|) && bindingPos <= codePos
      ensures !eliminateJumpsToJumps ==> !unboundLabel.IsUnbound()
    {
      SizedOf(g);
      FieldFacts(g, stale, null, unboundLabel, unboundLabel.pos);
      Whole(Flatten(g.pieces));
      if g.chains[unboundLabel] != [] {
        MarkPosition(g);
      }
    }

    /** The current position is the target of pending uses: they go where the new jump goes. */
    method JumpToJump(l: Label)
      requires Valid() && Usable(l) && !l.IsBound() && codePos + 5 <= buffer.Length
      requires unboundLabel.IsUnbound() && bindingPos == codePos
      modifies l, unboundLabel, `codePos, buffer, `g
      ensures Valid() && codePos == old(codePos) + 5
      ensures OneItem(old(g), g, Use(AbsoluteJump, 0, l, true))
    {
      ghost var g0 := g;
      KnownFacts(g, l);
      Register(l);
      PendingFields();
      JumpOn(g0, l);
    }

    method JumpOn(ghost g0: Asm, l: Label)
      requires Valid() && Usable(l) && !l.IsBound() && codePos + 5 <= buffer.Length && l in g.chains && l !in g.bound
      requires g.mark == |g.items| && g.items == g0.items && g.bound == g0.bound && g.erased == g0.erased
      requires g.chains.Keys == g0.chains.Keys + {l}
      modifies l, unboundLabel, `codePos, buffer, `g
      ensures Valid() && codePos == old(codePos) + 5
      ensures OneItem(g0, g, Use(AbsoluteJump, 0, l, true))
    {
      ghost var g1 := g;
      TakesOver(g1, l);
      SizedOf(g1);
      assert Holds([]) && State(null);
      hide *;
      LinkAndEmit(l);
      OneItemKnown(g0, g1, g, Use(AbsoluteJump, 0, l, true));
    }

    method LinkAndEmit(l: Label)
      requires Holds([]) && State(null) && Usable(l) && !l.IsBound() && codePos + 5 <= buffer.Length && l in g.chains
      requires l !in g.bound
      requires Sized(g) && l in Linked(g, l).chains && Known(Linked(g, l), l) == Linked(g, l)
      modifies l, unboundLabel, `codePos, buffer, `g
      ensures Holds([]) && State(null) && codePos == old(codePos) + 5
      ensures Sized(old(g)) && Sized(Linked(old(g), l)) && l in Linked(old(g), l).chains
      ensures g == WithForward(Linked(old(g), l), AbsoluteJump, 0, l)
    {
      hide Settling, Shown, Flatten, Structured, Sized, Linked, WithForward, Known, Holds, State;
      LinkTo(l, null);
      EmitHead(l, AbsoluteJump, 0);
    }

    // ---- binding --------------------------------------------------------------------------------------------------

    /** Resolves the latest use of `l` to position `pos` and takes it off the chain. */
    method SettleUse(l: Label, pos: nat, ghost j: nat, ghost binding: Label?)
      requires Holds([]) && State(binding) && Waiting(g) && Settles(g, l, j) && |g.items| == |g.pieces|
      requires pos == Addr(g.pieces, j)
      requires (l == binding || l == unboundLabel) && (eliminateJumpsToJumps && !finalized ==> HeldAt(g, j))
      modifies l, buffer, `g
      ensures Holds([]) && State(binding) && Waiting(g)
      ensures Structured(old(g)) && Sized(old(g)) && Settles(old(g), l, j) && g == Settled(old(g), l, j)
    {
      hide Settling, Shown, Flatten, Structured, Waiting, Holds, State, Patched, Sized, Settled, Settles, HeldAt,
        SameLayout, Addr, Fix;
      ghost var h := SettleReady(l, j, binding);
      var fixup := l.Pos();
      var next, kind, info := NextUse(fixup, l, 0);
      var imm32 := Immediate(kind, info, fixup, pos);
      PutSettled(l, fixup, imm32, next, h, binding);
    }

    lemma SettleReady(l: Label, j: nat, binding: Label?) returns (h: Asm)
      requires Holds([]) && State(binding) && Waiting(g) && Settles(g, l, j) && |g.items| == |g.pieces|
      requires (l == binding || l == unboundLabel) && (eliminateJumpsToJumps && !finalized ==> HeldAt(g, j))
      ensures Structured(g) && Sized(g) && l in g.chains && g.chains[l] != [] && j <= |g.items|
      ensures h == Settled(g, l, j) && h.pending == unboundLabel && unboundLabel in h.chains && l in h.chains
      ensures |h.items| == |h.pieces|
      ensures Settling(h, stale, binding, eliminateJumpsToJumps, finalized, bindingPos) && Waiting(h)
      ensures Shown(h, stale, binding, l, NextField(g, l, 0))
      ensures forall x :: x in h.chains && x != l ==> Shown(h, stale, binding, x, x.pos)
      ensures buffer.Length <= MAX_CODE && codePos <= buffer.Length
      ensures var m := g.chains[l][0];
        && m < |g.items| && g.items[m].Use? && l.pos == Fix(g, m) + 1 && OpcodeSize(g.items[m].kind) <= Fix(g, m)
        && Fix(g, m) + 4 <= codePos
        && Flatten(h.pieces) == Patched(buffer[..codePos], Fix(g, m),
             Operand(g.items[m].kind, g.items[m].info, Fix(g, m) - OpcodeSize(g.items[m].kind), Addr(g.pieces, j)))
    {
      hide Settling, Shown, Flatten, Structured, Waiting, Patched, Settled, SameLayout, Addr, Fix, HeldAt, Settles,
        Sized, Operand;
      SettlesFacts(g, l, j);
      SettleFacts(g, stale, binding, eliminateJumpsToJumps, finalized, bindingPos, l, l.pos, j);
      h := Settled(g, l, j);
      Whole(Flatten(g.pieces));
      AllSettledShown(h, l, binding);
    }

    /** The operand that makes the use with its field at `fixup` refer to `pos`. */
    method Immediate(kind: Kind, info: nat, fixup: nat, pos: nat) returns (imm32: nat)
      requires OpcodeSize(kind) <= fixup
      ensures imm32 == Operand(kind, info, fixup - OpcodeSize(kind), pos)
    {
      match kind {
        case Call | AbsoluteJump | ConditionalJump =>
          imm32 := Unsigned(pos - (fixup + 4));
        case IcInfo =>
          imm32 := Unsigned((pos - (fixup - 1)) * 0x100 + info);
      }
    }

    method PutSettled(l: Label, fixup: nat, imm32: nat, next: nat, ghost h: Asm, ghost binding: Label?)
      requires buffer.Length <= MAX_CODE && codePos <= buffer.Length && fixup + 4 <= codePos && imm32 < WORD
      requires Patched(buffer[..codePos], fixup, imm32) == Flatten(h.pieces) && h.pending == unboundLabel
      requires l in h.chains
      requires Settling(h, stale, binding, eliminateJumpsToJumps, finalized, bindingPos) && Waiting(h)
      requires Shown(h, stale, binding, l, next)
      requires forall x :: x in h.chains && x != l ==> Shown(h, stale, binding, x, x.pos)
      modifies l, buffer, `g
      ensures Holds([]) && State(binding) && Waiting(g) && g == h
    {
      hide Settling, Shown, Flatten, Waiting, Patched;
      LongAtPut(fixup, imm32);
      l.pos := next;
      g := h;
      Whole(Flatten(g.pieces));
    }

    lemma AllSettledShown(h: Asm, l: Label, binding: Label?)
      requires SameLayout(g, h) && |g.items| == |g.pieces| && l in g.chains
      requires forall x :: x in g.chains ==> Shown(g, stale, binding, x, x.pos)
      requires h.chains.Keys == g.chains.Keys && forall x :: x in g.chains && x != l ==> h.chains[x] == g.chains[x]
      ensures |h.items| == |h.pieces| && forall x :: x in h.chains && x != l ==> Shown(h, stale, binding, x, x.pos)
    {
      hide Shown, SameLayout, Flatten;
      SameLayoutSize(g, h);
      forall x | x in h.chains && x != l
        ensures Shown(h, stale, binding, x, x.pos)
      {
        LayoutShown(g, h, stale, binding, x, x.pos);
      }
    }

    /** The field of a label tells whether it has uses. */
    lemma Fields(l: Label, binding: Label?)
      requires State(binding) && l in g.chains
      ensures l.IsUnbound() <==> g.chains[l] != []
      ensures g.pending in g.chains
    {
      FieldFacts(g, stale, binding, l, l.pos);
    }

    /** Resolves all uses of `l` to position `pos`, where item j starts. */
    method SettleAll(l: Label, pos: nat, ghost j: nat, ghost binding: Label?)
      requires Holds([]) && State(binding) && Waiting(g) && AllSettle(g, l, j) && |g.items| == |g.pieces|
      requires pos == Addr(g.pieces, j)
      requires l == binding || l == unboundLabel
      requires eliminateJumpsToJumps && !finalized && g.chains[l] != [] ==> HeldAt(g, j)
      modifies l, buffer, `g
      ensures Holds([]) && State(binding) && g.pending in g.chains && Waiting(g) && SameBut(old(g), g, l)
      ensures l in g.chains && g.chains[l] == []
    {
      hide Settling, Shown, Flatten, Waiting, Settled, SameBut, Settles, HeldAt, Sized, Structured, Addr, SameLayout,
        Fix, SettlesAt;
      ghost var g0 := g;
      SameButSelf(g, l);
      Fields(l, binding);
      while l.IsUnbound()
        invariant Holds([]) && State(binding) && g.pending in g.chains && Waiting(g) && SameBut(g0, g, l)
        invariant AllSettle(g, l, j)
        invariant l in g.chains && (l.IsUnbound() <==> g.chains[l] != [])
        decreases |g.chains[l]|
      {
        SettleNext(l, pos, j, binding, g0);
      }
    }

    method SettleNext(l: Label, pos: nat, ghost j: nat, ghost binding: Label?, ghost g0: Asm)
      requires Holds([]) && State(binding) && g.pending in g.chains && Waiting(g) && SameBut(g0, g, l)
      requires AllSettle(g, l, j) && g.chains[l] != []
      requires j <= |g0.items| == |g0.pieces| && pos == Addr(g0.pieces, j) && (l == binding || l == unboundLabel)
      requires eliminateJumpsToJumps && !finalized ==> HeldAt(g0, j)
      modifies l, buffer, `g
      ensures Holds([]) && State(binding) && g.pending in g.chains && Waiting(g) && SameBut(g0, g, l)
      ensures AllSettle(g, l, j) && |g.chains[l]| < |old(g.chains[l])|
      ensures l.IsUnbound() <==> g.chains[l] != []
    {
      hide Settling, Shown, Flatten, Waiting, Settled, SameBut, AllSettle, Settles, HeldAt, Sized, Structured, Addr,
        Holds, State, SameLayout;
      BindStep(g0, g, l, j);
      ghost var g1 := g;
      SettleUse(l, pos, j, binding);
      AfterSettle(g0, g1, l, j);
      Fields(l, binding);
    }

    /** Resolves the pending uses. */
    method BindPending(ghost binding: Label?)
      requires Holds([]) && State(binding) && Waiting(g) && binding != unboundLabel
      requires unboundLabel.IsUnbound() && (eliminateJumpsToJumps && !finalized ==> g.mark < |g.items|)
      modifies unboundLabel, buffer, `g
      ensures Holds([]) && State(binding) && unboundLabel in g.chains && g.pending == unboundLabel && Waiting(g)
      ensures SameBut(old(g), g, unboundLabel) && g.chains[unboundLabel] == []
    {
      hide Settling, Shown, Flatten, Waiting, Structured, SameBut, AllSettle, HeldAt, Sized, Holds;
      PendingReady(binding);
      SettleAll(unboundLabel, bindingPos, g.mark, binding);
      Rebound(binding, bindingPos);
      unboundLabel.BindTo(bindingPos);
    }

    lemma PendingReady(binding: Label?)
      requires State(binding) && Waiting(g) && unboundLabel.IsUnbound()
      ensures unboundLabel in g.chains && AllSettle(g, unboundLabel, g.mark) && |g.items| == |g.pieces|
      ensures bindingPos == Addr(g.pieces, g.mark)
      ensures g.mark < |g.items| ==> HeldAt(g, g.mark)
    {
      hide Shown, Flatten, Addr, ItemsOk, ChainsOk, Erasable, Reaches;
      PendingKnown(g);
      Fields(unboundLabel, binding);
      PendingSettles(g);
    }

    /** The unbound label may show any bound position once nothing is pending. */
    lemma Rebound(binding: Label?, pos: nat)
      requires State(binding) && unboundLabel in g.chains && g.chains[unboundLabel] == [] && binding != unboundLabel
      ensures |g.items| == |g.pieces| && Shown(g, stale, binding, unboundLabel, -(pos as int) - 1)
      ensures g.pending == unboundLabel && Settling(g, stale, binding, eliminateJumpsToJumps, finalized, bindingPos)
      ensures forall x :: x in g.chains ==> Shown(g, stale, binding, x, x.pos)
    {
      PendingKnown(g);
      PendingNotStale(g, stale, binding, eliminateJumpsToJumps, finalized, bindingPos);
      hide Flatten, Addr, ItemsOk, ChainsOk;
    }

    /** Resolves what is still pending; no uses may be left behind when the code is run. */
    method Finalize()
      requires Valid()
      modifies this`finalized, unboundLabel, buffer, `g
      ensures Valid() && finalized && unboundLabel in g.chains && g.chains[unboundLabel] == []
      ensures SameBut(old(g), g, unboundLabel)
    {
      hide Settling, Shown, Flatten, Waiting, Structured, SameBut, Sized, Holds;
      FinalReady();
      finalized := true;
      if unboundLabel.IsUnbound() {
        BindPending(null);
      }
    }

    lemma FinalReady()
      requires Valid()
      ensures Holds([]) && State(null) && Waiting(g) && unboundLabel in g.chains && g.pending == unboundLabel
      ensures SameBut(g, g, unboundLabel) && (unboundLabel.IsUnbound() <==> g.chains[unboundLabel] != [])
      ensures Settling(g, stale, null, eliminateJumpsToJumps, true, bindingPos)
      ensures forall x :: x in g.chains ==> Shown(g, stale, null, x, x.pos)
    {
      PendingKnown(g);
      SameButSelf(g, unboundLabel);
      Fields(unboundLabel, null);
    }

    /** The labels that count as stale are those that were, and those bound to places now behind the end. */
    ghost predicate StaleIs(l: Label, stale0: set<Label>)
      reads `g, `stale, `codePos, g.bound.Keys
    {
      forall a :: a in g.bound && a != l ==> (a in stale <==> a in stale0 || -a.pos - 1 > codePos)
    }

    /** In the middle of binding `l` to the end of the code. */
    ghost predicate Binding(l: Label, stale0: set<Label>)
      reads `g, `stale, `finalized, `bindingPos, `codePos, g.chains.Keys, g.bound.Keys, buffer
    {
      && Holds([]) && State(l) && unboundLabel in g.chains && g.pending == unboundLabel && Waiting(g) && l in g.chains
      && l != unboundLabel && l !in stale
      && l in g.bound && g.bound[l] == |g.items| == |g.pieces| && StaleIs(l, stale0) && !finalized
    }

    /** The label is bound as far as the program is concerned. */
    ghost method StartBinding(l: Label)
      requires Valid() && !finalized && Usable(l) && !l.IsBound()
      modifies `g
      ensures Binding(l, stale) && g.items == old(g.items) && g.bound == old(g.bound)[l := |g.items|]
      ensures g.erased == old(g.erased)
      ensures g.mark <= |g.items| && l !in old(g.bound) && g.chains.Keys == old(g.chains.Keys) + {l}
      ensures Trail(g, Joined(g, l), codePos) == old(Trail(g, Joined(g, l), codePos))
      ensures unboundLabel.IsUnbound() <==> g.chains[unboundLabel] != []
      ensures unboundLabel.IsUnbound() ==> (bindingPos == codePos <==> g.mark == |g.items|) && eliminateJumpsToJumps
      ensures !eliminateJumpsToJumps ==> g.chains[unboundLabel] == []
    {
      hide Settling, Shown, Flatten, Waiting, Structured, Valid, Known, Trail, Joined;
      ghost var g0 := g;
      KnownFacts(g, l);
      Register(l);
      PendingFields();
      BindingReady(l);
      g := BoundHere(g, l);
      StartedTrail(g0, l, codePos);
    }

    lemma BindingReady(l: Label)
      requires Valid() && !finalized && Usable(l) && l in g.chains && l !in g.bound
      ensures Holds([]) && |g.items| == |g.pieces|
      ensures Settling(BoundHere(g, l), stale, l, eliminateJumpsToJumps, finalized, bindingPos)
      ensures unboundLabel in g.chains && g.pending == unboundLabel && Waiting(BoundHere(g, l))
      ensures forall x :: x in g.chains ==> Shown(BoundHere(g, l), stale, l, x, x.pos)
      ensures StaleIs(l, stale)
      ensures !eliminateJumpsToJumps ==> g.chains[unboundLabel] == []
    {
      hide Shown, Flatten, Structured, Held, Waiting, Addr;
      PendingKnown(g);
      BoundStructured(g, l);
      BoundWaiting(g, l);
      Whole(Flatten(g.pieces));
      forall x | x in g.chains
        ensures Shown(BoundHere(g, l), stale, l, x, x.pos)
      {
        BindingShown(g, stale, l, x, x.pos);
      }
      forall a | a in g.bound && a != l
        ensures a in stale <==> a in stale || -a.pos - 1 > codePos
      {
        BoundKnown(g, a);
        NotBeyond(g, stale, a, a.pos);
      }
    }

    /** Whether the last instruction is a jump that is the latest use of `l`. */
    method EndsInJump(l: Label, ghost stale0: set<Label>) returns (b: bool)
      requires Binding(l, stale0)
      ensures b <==> TrailingJump(g, l)
      ensures b ==> Retracts(g, l)
    {
      hide Settling, Shown, Flatten, Waiting, Structured, State, Holds, Fix;
      JumpReady(l, stale0);
      b := false;
      if l.IsUnbound() {
        if l.Pos() + 4 == Offset() {
          var next, kind, info := NextUse(l.Pos(), l, 0);
          b := kind == AbsoluteJump;
        }
      }
    }

    lemma JumpReady(l: Label, stale0: set<Label>)
      requires Binding(l, stale0)
      ensures Structured(g) && codePos == g.Size() && (l.IsUnbound() <==> g.chains[l] != [])
      ensures l.IsUnbound() ==> g.chains[l][0] < |g.items| && l.pos == Fix(g, g.chains[l][0]) + 1
      ensures l.IsUnbound() ==> SettlesAt(g, g.chains[l][0], |g.items|)
    {
      hide Flatten, Addr, ItemsOk, ChainsOk, Fix, Reaches;
      CodeSize(g, []);
      Whole(Flatten(g.pieces));
      Fields(l, l);
      FieldFacts(g, stale, l, l, l.pos);
      OwesSettles(g, l);
      if g.chains[l] != [] {
        assert SettlesAt(g, g.chains[l][0], |g.items|);
      }
    }

    /** Takes the last instruction back, a jump to what follows it. */
    method EraseJump(l: Label, ghost stale0: set<Label>)
      requires Binding(l, stale0) && Retracts(g, l) && eliminateJumpsToJumps && g.chains[unboundLabel] == []
      modifies l, `codePos, `g, `stale
      ensures Binding(l, stale0) && g.items == old(g.items) && g.bound == old(g.bound)
      ensures g.chains.Keys == old(g.chains.Keys) && g.chains[unboundLabel] == []
      ensures |g.chains[l]| < |old(g.chains[l])| && codePos == old(codePos) - 5
      ensures old(Trail(g, g.chains[l], codePos)) == 1 + Trail(g, g.chains[l], codePos)
      ensures forall m :: m in old(g.erased) ==> m in g.erased
    {
      hide Settling, Shown, Flatten, Waiting, Structured, Retracts, Fix, NextField, Trail, Addr, Reaches, Displace;
      ghost var h, stale1 := EraseReady(l, stale0);
      var next, kind, info := NextUse(l.Pos(), l, 0);
      TakeBack(l, next, stale0, h, stale1);
    }

    /** The end moves back over the jump, and the label goes on to its next use. */
    method TakeBack(l: Label, next: nat, ghost stale0: set<Label>, ghost h: Asm, ghost stale1: set<Label>)
      requires buffer.Length <= MAX_CODE && 5 <= codePos <= buffer.Length && !finalized
      requires l in h.chains && l != unboundLabel && unboundLabel in h.chains && unboundLabel !in h.bound
      requires l in h.bound && h.bound[l] == |h.items| == |h.pieces| && l !in stale1
      requires h.pending == unboundLabel && Waiting(h)
      requires Settling(h, stale1, l, eliminateJumpsToJumps, finalized, bindingPos)
      requires Flatten(h.pieces) == buffer[..codePos - 5] && Shown(h, stale1, l, l, next)
      requires forall x :: x in h.chains && x != l ==> Shown(h, stale1, l, x, x.pos)
      requires forall a :: a in h.bound && a != l ==> (a in stale1 <==> a in stale0 || -a.pos - 1 > codePos - 5)
      modifies l, `codePos, `g, `stale
      ensures Binding(l, stale0) && g == h && stale == stale1 && codePos == old(codePos) - 5
    {
      hide Settling, Shown, Flatten, Waiting;
      l.pos := next;
      codePos := codePos - 5;
      g, stale := h, stale1;
      Whole(Flatten(g.pieces));
    }

    lemma EraseReady(l: Label, stale0: set<Label>) returns (h: Asm, stale1: set<Label>)
      requires Binding(l, stale0) && Retracts(g, l) && eliminateJumpsToJumps && g.chains[unboundLabel] == []
      ensures Structured(g) && Holds([]) && g.chains[l] != [] && g.chains[l][0] < |g.items| == |g.pieces|
      ensures l.pos == Fix(g, g.chains[l][0]) + 1
      ensures h.items == g.items && h.bound == g.bound && h.chains == g.chains[l := g.chains[l][1..]]
      ensures |h.items| == |h.pieces|
      ensures h.pending == unboundLabel && Settling(h, stale1, l, eliminateJumpsToJumps, finalized, bindingPos)
      ensures Waiting(h)
      ensures codePos >= 5 && Flatten(h.pieces) == buffer[..codePos - 5] && l !in stale1 && unboundLabel !in g.bound
      ensures Trail(g, g.chains[l], codePos) == 1 + Trail(h, h.chains[l], codePos - 5)
      ensures Shown(h, stale1, l, l, NextField(g, l, 0))
      ensures forall x :: x in h.chains && x != l ==> Shown(h, stale1, l, x, x.pos)
      ensures forall a :: a in h.bound && a != l ==> (a in stale1 <==> a in stale0 || -a.pos - 1 > codePos - 5)
      ensures forall m :: m in g.erased ==> m in h.erased
    {
      hide Shown, Flatten, Waiting, Structured, Retracts, Fix, NextField, Addr, Trail;
      CodeSize(g, []);
      Whole(Flatten(g.pieces));
      stale1 := Passed(g, stale, l);
      h := RetractFacts(g, stale, stale1, finalized, bindingPos, l, l.pos);
      assert buffer[..codePos - 5] == buffer[..codePos][..codePos - 5];
      BoundLabels(l, stale0);
      RetractedTrail(g, l);
      forall x | x in h.chains && x != l
        ensures Shown(h, stale1, l, x, x.pos)
      {
        RetractedShown(g, stale, l, x, x.pos);
      }
      forall a | a in h.bound && a != l
        ensures a in stale1 <==> a in stale0 || -a.pos - 1 > codePos - 5
      {
        BoundKnown(g, a);
        PassedIs(g, stale, l, a, a.pos);
      }
    }

    /** Takes back all jumps at the end that lead to what follows them. */
    method EraseJumps(l: Label, ghost stale0: set<Label>)
      requires Binding(l, stale0) && eliminateJumpsToJumps && g.chains[unboundLabel] == []
      modifies l, `codePos, `g, `stale
      ensures codePos == old(codePos) - 5 * old(Trail(g, g.chains[l], codePos))
      ensures Binding(l, stale0) && g.items == old(g.items) && g.bound == old(g.bound)
      ensures g.chains.Keys == old(g.chains.Keys) && g.chains[unboundLabel] == []
      ensures codePos <= old(codePos) && forall m :: m in old(g.erased) ==> m in g.erased
      ensures !TrailingJump(g, l)
    {
      hide Settling, Shown, Flatten, Waiting, Structured, Retracts, State, Holds, StaleIs, TrailingJump, Trail;
      var again := EndsInJump(l, stale0);
      while again
        invariant Binding(l, stale0) && g.items == old(g.items) && g.bound == old(g.bound)
        invariant g.chains.Keys == old(g.chains.Keys)
        invariant g.chains[unboundLabel] == []
        invariant codePos - 5 * Trail(g, g.chains[l], codePos) == old(codePos) - 5 * old(Trail(g, g.chains[l], codePos))
        invariant codePos <= old(codePos) && forall m :: m in old(g.erased) ==> m in g.erased
        invariant (again ==> Retracts(g, l)) && (again <==> TrailingJump(g, l))
        decreases |g.chains[l]|, again
      {
        EraseJump(l, stale0);
        again := EndsInJump(l, stale0);
      }
      NoTrail(l, stale0);
    }

    lemma NoTrail(l: Label, stale0: set<Label>)
      requires Binding(l, stale0) && !TrailingJump(g, l)
      ensures Trail(g, g.chains[l], codePos) == 0
    {
      hide Settling, Shown, Flatten, Waiting, State, StaleIs, Fix;
      CodeSize(g, []);
      Whole(Flatten(g.pieces));
    }

    /** The uses of `l` become the pending ones: the next instruction may be a jump. */
    method Defer(l: Label, ghost stale0: set<Label>)
      requires Binding(l, stale0) && eliminateJumpsToJumps && g.chains[unboundLabel] == [] && !TrailingJump(g, l)
      modifies l, unboundLabel, `bindingPos, `g
      ensures Binding(l, stale0) && g.items == old(g.items) && g.bound == old(g.bound) && g.erased == old(g.erased)
      ensures g.chains.Keys == old(g.chains.Keys)
      ensures g.chains[l] == [] && !TrailingJump(g, unboundLabel)
    {
      hide Settling, Shown, Flatten, Waiting, Structured, Fix;
      ghost var h := DeferReady(l, stale0);
      TrailingMoved(g, h, l, unboundLabel);
      Postpone(l, stale0, h);
    }

    /** The unbound label takes over from `l`. */
    method Postpone(l: Label, ghost stale0: set<Label>, ghost h: Asm)
      requires Holds([]) && l in g.bound && g.bound[l] == |g.items| && l !in stale && StaleIs(l, stale0) && !finalized
      requires l in h.chains && l != unboundLabel && unboundLabel in h.chains && unboundLabel !in g.bound
      requires h.bound == g.bound && h.pieces == g.pieces && |h.items| == |h.pieces| == |g.items|
      requires h.pending == unboundLabel && Waiting(h)
      requires Settling(h, stale, l, eliminateJumpsToJumps, finalized, codePos)
      requires Shown(h, stale, l, unboundLabel, l.pos) && Shown(h, stale, l, l, 0)
      requires forall x :: x in h.chains && x != l && x != unboundLabel ==> Shown(h, stale, l, x, x.pos)
      modifies l, unboundLabel, `bindingPos, `g
      ensures g == h && Binding(l, stale0)
    {
      hide Settling, Shown, Flatten, Waiting, Structured, Fix;
      unboundLabel.pos := l.pos;
      bindingPos := Offset();
      l.Unuse();
      g := h;
    }

    lemma DeferReady(l: Label, stale0: set<Label>) returns (h: Asm)
      requires Binding(l, stale0) && eliminateJumpsToJumps && g.chains[unboundLabel] == []
      ensures h.items == g.items && h.bound == g.bound && h.erased == g.erased && h.pieces == g.pieces
      ensures h.chains == g.chains[unboundLabel := g.chains[l]][l := []] && |h.items| == |h.pieces|
      ensures h.pending == unboundLabel && Settling(h, stale, l, eliminateJumpsToJumps, finalized, codePos)
      ensures Waiting(h)
      ensures Shown(h, stale, l, unboundLabel, l.pos) && Shown(h, stale, l, l, 0)
      ensures forall x :: x in h.chains && x != l && x != unboundLabel ==> Shown(h, stale, l, x, x.pos)
      ensures unboundLabel !in g.bound
    {
      hide Shown, Flatten, Waiting, Structured, Addr, Fix;
      CodeSize(g, []);
      Whole(Flatten(g.pieces));
      h := DeferFacts(g, stale, eliminateJumpsToJumps, finalized, bindingPos, l, l.pos);
      forall x | x in h.chains && x != l && x != unboundLabel
        ensures Shown(h, stale, l, x, x.pos)
      {
        DeferredShown(g, stale, l, x, x.pos);
      }
    }

    /** Resolves the uses `l` still has and records the position in the label. */
    method BindHere(l: Label, ghost stale0: set<Label>)
      requires Binding(l, stale0) && (eliminateJumpsToJumps ==> g.chains[l] == [] && !TrailingJump(g, unboundLabel))
      modifies l, buffer, `g
      ensures Valid() && g.items == old(g.items) && g.bound == old(g.bound) && g.erased == old(g.erased)
      ensures StaleIs(l, stale0) && l !in stale
      ensures g.chains.Keys == old(g.chains.Keys)
      ensures eliminateJumpsToJumps ==> !TrailingJump(g, unboundLabel)
    {
      hide Settling, Shown, Flatten, Waiting, Structured, SameBut, AllSettle, Holds, HeldAt, Addr, Sized, TrailingJump;
      HereReady(l, stale0);
      ghost var g0 := g;
      SettleAll(l, Offset(), |g.items|, l);
      SameButFacts(g0, g, l);
      TrailingSame(g0, g, l, unboundLabel);
      Concluded(l);
      l.BindTo(Offset());
    }

    lemma HereReady(l: Label, stale0: set<Label>)
      requires Binding(l, stale0)
      ensures Holds([]) && State(l) && AllSettle(g, l, |g.items|) && codePos == Addr(g.pieces, |g.items|)
    {
      hide Flatten, Addr, ItemsOk, ChainsOk;
      CodeSize(g, []);
      Whole(Flatten(g.pieces));
      AddrEnds(g.pieces);
      OwesSettles(g, l);
    }

    lemma Concluded(l: Label)
      requires Holds([]) && State(l) && l in g.chains && g.chains[l] == [] && l in g.bound && g.bound[l] == |g.items|
      requires l !in stale && l != unboundLabel
      ensures |g.items| == |g.pieces| && g.pending == unboundLabel
      ensures Settling(g, stale, null, eliminateJumpsToJumps, finalized, bindingPos)
      ensures Shown(g, stale, null, l, -(codePos as int) - 1)
      ensures forall x :: x in g.chains && x != l ==> Shown(g, stale, null, x, x.pos)
    {
      hide Flatten, Addr, ItemsOk, ChainsOk, Fix;
      PendingKnown(g);
      CodeSize(g, []);
      Whole(Flatten(g.pieces));
      AddrEnds(g.pieces);
      forall x | x in g.chains && x != l
        ensures Shown(g, stale, null, x, x.pos)
      {
        assert Shown(g, stale, l, x, x.pos);
      }
    }

    /** Where the code will end when `l` is bound now: the jumps at the end that are, one behind the other,
        the latest uses of `l`, with the uses pending here, are taken back. */
    ghost function EndAfterBind(l: Label): int
      reads `g, `codePos
    {
      if eliminateJumpsToJumps then codePos - 5 * Trail(g, Joined(g, l), codePos) else codePos
    }

    /** Binds `l` to the end of the code, after taking back jumps that would only lead there. Labels
        bound earlier keep their place, except exactly those bound behind the end that the code will have. */
    method Bind(l: Label)
      requires Valid() && !finalized && Usable(l) && !l.IsBound()
      modifies `g, `stale, `codePos, `bindingPos, l, unboundLabel, buffer
      ensures Valid() && codePos == old(EndAfterBind(l))
      ensures forall a ::
        a in old(g.bound) ==> (a in stale <==> a in old(stale) || old(-a.pos - 1) > old(EndAfterBind(l)))
      ensures stale == old(stale) <==>
        forall a :: a in old(g.bound) && a !in old(stale) ==> old(-a.pos - 1) <= old(EndAfterBind(l))
      ensures g.items == old(g.items) && g.bound == old(g.bound)[l := |g.items|] && l !in old(g.bound) && l !in stale
      ensures g.chains.Keys == old(g.chains.Keys) + {l}
      ensures forall m :: m in old(g.erased) ==> m in g.erased
      ensures eliminateJumpsToJumps ==> !TrailingJump(g, unboundLabel)
    {
      hide Settling, Shown, Flatten, Waiting, Structured, Valid, State, Holds, SameBut, Binding, Linked, Sized,
        TrailingJump, Trail, Joined;
      ghost var stale0 := stale;
      OnlyBoundStale();
      StartBinding(l);
      BoundLabels(l, stale0);
      if eliminateJumpsToJumps {
        Eliminate(l, stale0);
      }
      BindHere(l, stale0);
      OnlyBoundStale();
    }

    lemma OnlyBoundStale()
      requires Valid()
      ensures stale <= g.bound.Keys
    {
      hide Shown, Flatten, Waiting, Structured;
    }

    /** Jumps that would only lead here are taken back, and the uses of `l` are left pending. */
    method Eliminate(l: Label, ghost stale0: set<Label>)
      requires Binding(l, stale0) && eliminateJumpsToJumps && g.mark <= |g.items|
      requires unboundLabel.IsUnbound() <==> g.chains[unboundLabel] != []
      requires unboundLabel.IsUnbound() ==> (bindingPos == codePos <==> g.mark == |g.items|)
      modifies `g, `stale, `codePos, `bindingPos, l, unboundLabel, buffer
      ensures Binding(l, stale0) && g.items == old(g.items) && g.bound == old(g.bound)
      ensures g.chains.Keys == old(g.chains.Keys)
      ensures codePos == old(codePos) - 5 * old(Trail(g, Joined(g, l), codePos))
      ensures forall m :: m in old(g.erased) ==> m in g.erased
      ensures g.chains[l] == [] && !TrailingJump(g, unboundLabel)
    {
      hide Settling, Shown, Flatten, Waiting, Structured, Valid, State, Holds, SameBut, Linked, Sized, TrailingJump,
        StaleIs, Trail;
      if unboundLabel.IsUnbound() {
        if bindingPos == Offset() {
          LinkBound(l, stale0);
        } else {
          SettlePending(l, stale0);
        }
      } else {
        JoinedCases(g, l);
      }
      EraseJumps(l, stale0);
      Defer(l, stale0);
    }

    /** The uses pending at this very place join those of the label being bound. */
    method LinkBound(l: Label, ghost stale0: set<Label>)
      requires Binding(l, stale0) && g.mark == |g.items|
      modifies l, unboundLabel, buffer, `g
      ensures Binding(l, stale0) && g.items == old(g.items) && g.bound == old(g.bound) && g.erased == old(g.erased)
      ensures g.chains.Keys == old(g.chains.Keys)
      ensures g.chains[unboundLabel] == []
      ensures Trail(g, g.chains[l], codePos) == old(Trail(g, Joined(g, l), codePos))
    {
      hide Settling, Shown, Flatten, Waiting, Structured, State, Holds, Linked, Sized;
      ghost var g0 := g;
      BoundLabels(l, stale0);
      LinkedWaiting(g0, l);
      LinkTo(l, l);
      LinkedBound(g0, l);
      LinkedTrail(g0, l, codePos);
    }

    /** The uses pending at an earlier place are resolved. */
    method SettlePending(l: Label, ghost stale0: set<Label>)
      requires Binding(l, stale0) && g.mark < |g.items| && unboundLabel.IsUnbound()
      modifies unboundLabel, buffer, `g
      ensures Binding(l, stale0) && g.items == old(g.items) && g.bound == old(g.bound) && g.erased == old(g.erased)
      ensures g.chains.Keys == old(g.chains.Keys)
      ensures g.chains[unboundLabel] == []
      ensures Trail(g, g.chains[l], codePos) == old(Trail(g, Joined(g, l), codePos))
    {
      hide Settling, Shown, Flatten, Waiting, Structured, State, Holds, SameBut, Sized;
      ghost var g0 := g;
      BoundLabels(l, stale0);
      BindPending(l);
      SameButFacts(g0, g, unboundLabel);
      SettledTrail(g0, g, l, codePos);
    }

    lemma BoundLabels(l: Label, stale0: set<Label>)
      requires Binding(l, stale0)
      ensures Structured(g) && unboundLabel !in g.bound
    {
      hide ItemsOk, ChainsOk, Flatten;
    }
  }
}
