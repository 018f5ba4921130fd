/** Making one mapping agree with another at a merge point: the value-level steps. In the middle of
    the resolution a table `r` records which locations each pseudo register holds now; it may
    temporarily hold none, its value being on the push stack. */
module Conformance {
  import opened Machine
  import opened LocationPool
  import opened MappingTable

  /** No two pseudo registers share a location. */
  ghost predicate Injective(t: Table) {
    forall i, j :: 0 <= i < j < |t| ==> Locs(t[i]) !! Locs(t[j])
  }

  /** The locations the target mapping `w` wants for the pseudo register of `e`. */
  function Wanted(w: Table, e: Entry): Entry {
    if e.Entry? && 0 <= IndexOf(w, e.pr) then w[IndexOf(w, e.pr)] else Unused
  }

  /** Where both tables know a pseudo register, they have it in the same places. */
  ghost predicate Conformant(t: Table, w: Table) {
    forall i, j :: 0 <= i < |t| && 0 <= j < |w| && t[i].Entry? && w[j].Entry? && t[i].pr == w[j].pr ==> t[i] == w[j]
  }

  predicate Differs(e: Entry, f: Entry)
    requires e.Entry? && f.Entry?
  {
    e.reg != f.reg || e.stk != f.stk
  }

  predicate RegisterConforms(e: Entry, f: Entry)
    requires e.Entry? && f.Entry?
  {
    e.reg != NO_LOCATION && e.reg == f.reg
  }

  predicate StackConforms(e: Entry, f: Entry)
    requires e.Entry? && f.Entry?
  {
    e.stk != NO_LOCATION && e.stk == f.stk
  }

  /** Neither location conforms: the value has to go over the push stack. */
  predicate NeedsPush(e: Entry, f: Entry)
    requires e.Entry? && f.Entry?
  {
    !RegisterConforms(e, f) && !StackConforms(e, f)
  }

  /** What is left of an entry once its non-conforming locations have been given up. */
  function Conforming(e: Entry, f: Entry): Entry
    requires e.Entry? && f.Entry?
  {
    Entry(e.pr,
          if RegisterConforms(e, f) then e.reg else NO_LOCATION,
          if StackConforms(e, f) then e.stk else NO_LOCATION)
  }

  /** The location a value is pushed from. */
  function Primary(e: Entry): int
    requires e.Entry?
  {
    if e.reg != NO_LOCATION then e.reg else e.stk
  }

  function WithLoc(y: Layout, e: Entry, l: int): Entry
    requires e.Entry?
  {
    if y.IsRegister(l) then Entry(e.pr, l, e.stk) else Entry(e.pr, e.reg, l)
  }

  // ---- the state of the resolution --------------------------------------------------------------

  /** Every location an entry of `r` holds now has the value the pseudo register had in `t`. */
  ghost predicate Carried(y: Layout, code: Code, r: Table, t: Table) {
    |r| == |t| && forall i, l :: 0 <= i < |r| && l in Locs(r[i]) ==> From(y, code, l, t[i])
  }

  /** Every entry holds only locations that the target mapping wants for it. */
  ghost predicate Within(y: Layout, n: int, r: Table, t: Table, w: Table) {
    |r| == |t| && forall i :: 0 <= i < |r| ==>
      && (t[i].Unused? ==> r[i].Unused?)
      && (t[i].Entry? ==> r[i].Entry? && r[i].pr == t[i].pr && Wanted(w, t[i]).Entry?
                          && (r[i].reg == NO_LOCATION || r[i].reg == Wanted(w, t[i]).reg)
                          && (r[i].stk == NO_LOCATION || r[i].stk == Wanted(w, t[i]).stk)
                          && OkEntry(y, n, Wanted(w, t[i])))
  }

  /** Different entries want different locations. */
  ghost predicate Apart(t: Table, w: Table) {
    forall i, k :: 0 <= i < |t| && 0 <= k < |t| && i != k ==> Locs(Wanted(w, t[i])) !! Locs(Wanted(w, t[k]))
  }

  ghost predicate Resolving(y: Layout, t: Table, w: Table, r: Table, u: seq<nat>, reserved: multiset<int>, code: Code,
                            saved: seq<Operand>) {
    && 1 <= y.nofRegisters <= MAX_USABLE_REGISTERS && y.StackTmpsBeg() <= |u|
    && Counted(r, u, reserved) && Alone(y, u, reserved)
    && Carried(y, code, r, t) && Pushes(code, saved)
    && Within(y, |u|, r, t, w) && Apart(t, w)
    && (forall i, l :: 0 <= i < |t| && l in Locs(Wanted(w, t[i])) ==> l !in reserved)
  }

  lemma FromMovl(y: Layout, code: Code, l: int, e: Entry, dst: int, src: Operand)
    requires y.nofRegisters <= MAX_USABLE_REGISTERS && 0 <= l && 0 <= dst && l != dst && From(y, code, l, e)
    ensures From(y, code + [Movl(OperandOf(y, dst), src)], l, e)
  {
    OperandsDiffer(y, l, dst);
    hide OperandOf, Copies;
    var k :| k in Locs(e) && Copies(code, OperandOf(y, l), OperandOf(y, k));
    MovlKeeps(code, OperandOf(y, dst), src, OperandOf(y, l), OperandOf(y, k));
  }

  lemma FromMoved(y: Layout, code: Code, e: Entry, dst: int, src: int)
    requires From(y, code, src, e)
    ensures From(y, code + [Movl(OperandOf(y, dst), OperandOf(y, src))], dst, e)
  {
    hide OperandOf, Copies;
    var k :| k in Locs(e) && Copies(code, OperandOf(y, src), OperandOf(y, k));
    MovlCopies(code, OperandOf(y, dst), OperandOf(y, src), OperandOf(y, k));
  }

  lemma FromPopl(y: Layout, code: Code, l: int, e: Entry, dst: int)
    requires y.nofRegisters <= MAX_USABLE_REGISTERS && 0 <= l && 0 <= dst && l != dst && From(y, code, l, e)
    ensures From(y, code + [Popl(OperandOf(y, dst))], l, e)
  {
    OperandsDiffer(y, l, dst);
    hide OperandOf, Copies;
    var k :| k in Locs(e) && Copies(code, OperandOf(y, l), OperandOf(y, k));
    PoplKeeps(code, OperandOf(y, dst), OperandOf(y, l), OperandOf(y, k));
  }

  /** A wanted location nobody has got yet is free, and giving it to its entry keeps the counts. */
  lemma WantedFree(y: Layout, t: Table, w: Table, r: Table, u: seq<nat>, reserved: multiset<int>, i: nat, l: int)
    requires i < |t| && Within(y, |u|, r, t, w) && Apart(t, w) && Counted(r, u, reserved) && l !in reserved
    requires l in Locs(Wanted(w, t[i])) && l !in Locs(r[i]) && !y.IsArgument(l)
    ensures 0 <= l && (forall k :: 0 <= k < |r| ==> l !in Locs(r[k])) && At(u, l) == 0
  {
    hide RefCount, IndexOf;
    forall k | 0 <= k < |r|
      ensures l !in Locs(r[k])
    {
      if k != i {
        assert Locs(Wanted(w, t[i])) !! Locs(Wanted(w, t[k]));
      }
    }
    RefCountNone(r, l);
  }

  lemma GivenWanted(y: Layout, t: Table, w: Table, r: Table, u: seq<nat>, reserved: multiset<int>, i: nat, l: int)
    requires i < |t| && Within(y, |u|, r, t, w) && Apart(t, w) && Counted(r, u, reserved) && Alone(y, u, reserved)
    requires l !in reserved
    requires l in Locs(Wanted(w, t[i])) && l !in Locs(r[i]) && !y.IsArgument(l) && l < |u|
    ensures var r', u' := r[i := WithLoc(y, r[i], l)], Take(u, l);
      && |u'| == |u| && Within(y, |u'|, r', t, w) && Counted(r', u', reserved) && Alone(y, u', reserved)
      && Locs(r'[i]) == Locs(r[i]) + {l}
  {
    WantedFree(y, t, w, r, u, reserved, i, l);
    hide RefCount, IndexOf, Apart;
    assert r[i].Entry? && OkEntry(y, |u|, Wanted(w, t[i]));
    assert Swapped(u, Take(u, l), r[i], WithLoc(y, r[i], l));
    CountedSet(r, u, reserved, i, WithLoc(y, r[i], l), Take(u, l));
  }

  lemma CarriedMove(y: Layout, code: Code, r: Table, t: Table, n: int, w: Table, i: nat, dst: int, src: int)
    requires y.nofRegisters <= MAX_USABLE_REGISTERS && i < |r| && r[i].Entry? && Carried(y, code, r, t)
    requires Within(y, n, r, t, w)
    requires src in Locs(r[i]) && 0 <= dst && forall k :: 0 <= k < |r| ==> dst !in Locs(r[k])
    ensures forall e :: Locs(e) == Locs(r[i]) + {dst} ==>
      Carried(y, code + [Movl(OperandOf(y, dst), OperandOf(y, src))], r[i := e], t)
  {
    hide OperandOf, From, IndexOf;
    var d, f := OperandOf(y, dst), OperandOf(y, src);
    FromMoved(y, code, t[i], dst, src);
    forall k, l | 0 <= k < |r| && l in Locs(r[k])
      ensures From(y, code + [Movl(d, f)], l, t[k])
    {
      assert 0 <= l && l != dst by { assert OkEntry(y, n, Wanted(w, t[k])); }
      FromMovl(y, code, l, t[k], dst, f);
    }
  }

  lemma CarriedPop(y: Layout, code: Code, saved: seq<Operand>, r: Table, t: Table, n: int, w: Table, i: nat, dst: int,
                   from: int)
    requires y.nofRegisters <= MAX_USABLE_REGISTERS && i < |r| && r[i].Entry? && Carried(y, code, r, t)
    requires Within(y, n, r, t, w)
    requires Pushes(code, saved) && saved != [] && saved[|saved| - 1] == OperandOf(y, from) && from in Locs(t[i])
    requires 0 <= dst && forall k :: 0 <= k < |r| ==> dst !in Locs(r[k])
    ensures forall e :: Locs(e) == Locs(r[i]) + {dst} ==> Carried(y, code + [Popl(OperandOf(y, dst))], r[i := e], t)
    ensures Pushes(code + [Popl(OperandOf(y, dst))], saved[..|saved| - 1])
  {
    hide OperandOf, IndexOf, Pushes, Copies;
    var d := OperandOf(y, dst);
    PoplPushes(code, saved, d);
    assert From(y, code + [Popl(d)], dst, t[i]);
    hide From;
    forall k, l | 0 <= k < |r| && l in Locs(r[k])
      ensures From(y, code + [Popl(d)], l, t[k])
    {
      assert 0 <= l && l != dst by { assert OkEntry(y, n, Wanted(w, t[k])); }
      FromPopl(y, code, l, t[k], dst);
    }
  }

  /** Moving a value from a location its pseudo register holds to one that is still wanted. */
  lemma ResolveMove(y: Layout, t: Table, w: Table, r: Table, u: seq<nat>, reserved: multiset<int>, code: Code,
                    saved: seq<Operand>,
                    i: nat, dst: int, src: int)
    requires i < |t| && Resolving(y, t, w, r, u, reserved, code, saved) && i < |r| && src in Locs(r[i])
    requires dst in Locs(Wanted(w, t[i])) && dst !in Locs(r[i]) && !y.IsArgument(dst) && dst < |u|
    requires y.IsRegister(dst) || y.IsRegister(src)
    ensures 0 <= dst && At(u, dst) == 0 && |Take(u, dst)| == |u|
    ensures Resolving(y, t, w, r[i := WithLoc(y, r[i], dst)], Take(u, dst), reserved,
                      code + [Movl(OperandOf(y, dst), OperandOf(y, src))], saved)
  {
    hide Counted, Alone, Carried, Pushes, Within, Apart, OperandOf, IndexOf, Wanted;
    assert dst !in reserved;
    WantedFree(y, t, w, r, u, reserved, i, dst);
    GivenWanted(y, t, w, r, u, reserved, i, dst);
    CarriedMove(y, code, r, t, |u|, w, i, dst, src);
    if y.IsRegister(dst) { IsRegisterOperand(y, dst); } else { IsRegisterOperand(y, src); }
    MovlPushes(code, saved, OperandOf(y, dst), OperandOf(y, src));
  }

  /** Popping a saved value into a location that is still wanted. */
  lemma ResolvePop(y: Layout, t: Table, w: Table, r: Table, u: seq<nat>, reserved: multiset<int>, code: Code,
                   saved: seq<Operand>,
                   i: nat, dst: int)
    requires i < |t| && Resolving(y, t, w, r, u, reserved, code, saved) && t[i].Entry?
    requires saved != [] && saved[|saved| - 1] == OperandOf(y, Primary(t[i])) && Primary(t[i]) in Locs(t[i])
    requires dst in Locs(Wanted(w, t[i])) && i < |r| && dst !in Locs(r[i]) && !y.IsArgument(dst) && dst < |u|
    ensures 0 <= dst && At(u, dst) == 0 && |Take(u, dst)| == |u| && r[i].Entry?
    ensures Resolving(y, t, w, r[i := WithLoc(y, r[i], dst)], Take(u, dst), reserved,
                      code + [Popl(OperandOf(y, dst))], saved[..|saved| - 1])
  {
    assert r[i].Entry?;
    hide Counted, Alone, Carried, Pushes, Within, Apart, OperandOf, IndexOf, Wanted;
    assert dst !in reserved;
    WantedFree(y, t, w, r, u, reserved, i, dst);
    GivenWanted(y, t, w, r, u, reserved, i, dst);
    CarriedPop(y, code, saved, r, t, |u|, w, i, dst, Primary(t[i]));
  }

  // ---- first pass: saving values and giving up locations ------------------------------------------

  /** The pushes made for a list of slot pairs, in order. */
  function PushedFor(y: Layout, t: Table, w: Table, src: seq<int>, dst: seq<int>): seq<Operand>
    requires |src| == |dst|
  {
    if src == [] then []
    else
      var i, j := src[|src| - 1], dst[|src| - 1];
      PushedFor(y, t, w, src[..|src| - 1], dst[..|src| - 1])
      + if 0 <= i < |t| && 0 <= j < |w| && t[i].Entry? && w[j].Entry? && NeedsPush(t[i], w[j])
        then [OperandOf(y, Primary(t[i]))] else []
  }

  lemma PushedForSnoc(y: Layout, t: Table, w: Table, src: seq<int>, dst: seq<int>, i: nat, j: nat)
    requires |src| == |dst| && i < |t| && j < |w| && t[i].Entry? && w[j].Entry?
    ensures PushedFor(y, t, w, src + [i], dst + [j])
         == PushedFor(y, t, w, src, dst) + if NeedsPush(t[i], w[j]) then [OperandOf(y, Primary(t[i]))] else []
  {
    assert (src + [i])[..|src|] == src && (dst + [j])[..|dst|] == dst;
  }

  /** The pairs are the slots, from target slot n on, whose entries differ; each comes once. */
  ghost predicate Pairs(t: Table, w: Table, src: seq<int>, dst: seq<int>, n: int) {
    && |src| == |dst| && 0 <= n
    && (forall k :: 0 <= k < |src| ==>
          && 0 <= src[k] < |t| && n <= dst[k] < |w| && t[src[k]].Entry? && w[dst[k]].Entry?
          && t[src[k]].pr == w[dst[k]].pr && Differs(t[src[k]], w[dst[k]]))
    && (forall k, m :: 0 <= k < m < |src| ==> src[k] != src[m])
    && (forall i :: 0 <= i < |t| && t[i].Entry? && n <= IndexOf(w, t[i].pr) && Differs(t[i], w[IndexOf(w, t[i].pr)]) ==>
         i in src)
  }

  /** What the entries hold once target slots from n on have been looked at. */
  function Residual(t: Table, w: Table, n: nat): (r: Table)
    ensures |r| == |t|
    ensures forall i :: 0 <= i < |t| ==>
      r[i] == if t[i].Entry? && n <= IndexOf(w, t[i].pr) then Conforming(t[i], w[IndexOf(w, t[i].pr)]) else t[i]
  {
    seq(|t|, i requires 0 <= i < |t| =>
      if t[i].Entry? && n <= IndexOf(w, t[i].pr) then Conforming(t[i], w[IndexOf(w, t[i].pr)]) else t[i])
  }

  /** The target slot n has no counterpart, or one that agrees with it. */
  lemma ResidualSkip(y: Layout, n1: int, n2: int, t: Table, w: Table, src: seq<int>, dst: seq<int>, n: nat)
    requires OkTable(y, n1, t) && OkTable(y, n2, w) && n < |w| && Pairs(t, w, src, dst, n + 1)
    requires w[n].Entry? && 0 <= IndexOf(t, w[n].pr) ==> !Differs(t[IndexOf(t, w[n].pr)], w[n])
    ensures Residual(t, w, n) == Residual(t, w, n + 1) && Pairs(t, w, src, dst, n)
  {
    hide Residual, IndexOf;
    forall i | 0 <= i < |t| && t[i].Entry? && IndexOf(w, t[i].pr) == n
      ensures Conforming(t[i], w[n]) == t[i] && !Differs(t[i], w[n])
    {
      UniqueSlot(y, n1, t, i);
    }
  }

  lemma UniqueSlot(y: Layout, n: int, t: Table, i: nat)
    requires OkTable(y, n, t) && i < |t| && t[i].Entry?
    ensures IndexOf(t, t[i].pr) == i
  {}

  lemma ResidualStep(y: Layout, n1: int, n2: int, t: Table, w: Table, src: seq<int>, dst: seq<int>, n: nat, i: nat)
    requires OkTable(y, n1, t) && OkTable(y, n2, w) && n < |w| && Pairs(t, w, src, dst, n + 1)
    requires w[n].Entry? && i < |t| && t[i].Entry? && t[i].pr == w[n].pr && Differs(t[i], w[n])
    ensures Residual(t, w, n + 1)[i] == t[i]
    ensures Residual(t, w, n) == Residual(t, w, n + 1)[i := Conforming(t[i], w[n])]
    ensures Pairs(t, w, src + [i], dst + [n], n)
  {
    hide Residual, IndexOf;
    UniqueSlot(y, n2, w, n);
    forall k | 0 <= k < |t| && t[k].Entry? && IndexOf(w, t[k].pr) == n
      ensures k == i
    {
      assert t[k].pr == w[n].pr;
      UniqueSlot(y, n1, t, i);
      UniqueSlot(y, n1, t, k);
    }
    forall k | 0 <= k < |src|
      ensures src[k] != i
    {
      UniqueSlot(y, n2, w, dst[k]);
      UniqueSlot(y, n2, w, n);
    }
  }

  ghost predicate KeepsAll(code: Code) {
    forall o: Operand {:trigger Copies(code, o, o)} :: Copies(code, o, o)
  }

  lemma KeepsAllPush(code: Code, src: Operand)
    requires KeepsAll(code)
    ensures KeepsAll(code + [Pushl(src)])
  {
    hide Copies;
    forall o: Operand
      ensures Copies(code + [Pushl(src)], o, o)
    {
      PushlKeeps(code, src, o, o);
    }
  }

  lemma KeepsNothing()
    ensures KeepsAll([]) && Pushes([], [])
  {
    hide Copies, Pushes;
    NoCode(Frame(0));
    forall o: Operand
      ensures Copies([], o, o)
    {
      NoCode(o);
    }
  }

  /** The use counts after giving up the non-conforming locations of an entry. */
  function Surrendered(u: seq<nat>, e: Entry, f: Entry): seq<nat>
    requires e.Entry? && f.Entry?
  {
    if RegisterConforms(e, f) then GiveUp(u, e.stk)
    else if StackConforms(e, f) then GiveUp(u, e.reg)
    else GiveUp(GiveUp(u, e.reg), e.stk)
  }

  /** Giving up the non-conforming locations of an entry. */
  lemma ConformingCounts(y: Layout, t: Table, u: seq<nat>, r: Table, reserved: multiset<int>, i: nat, f: Entry)
    requires |t| == |r| && i < |t| && t[i].Entry? && f.Entry? && r[i] == t[i] && OkEntry(y, |u|, t[i])
    requires Differs(t[i], f)
    requires Counted(r, u, reserved) && Alone(y, u, reserved)
    ensures var u' := Surrendered(u, t[i], f);
      Counted(r[i := Conforming(t[i], f)], u', reserved) && Alone(y, u', reserved) && |u'| == |u|
    ensures forall l :: l in Locs(t[i]) ==> 0 <= l < |u| && u[l] >= 1
  {
    hide RefCount;
    var e := t[i];
    forall l | l in Locs(e)
      ensures 0 <= l < |u| && u[l] >= 1 && l !in reserved
    {
      HolderUsed(r, u, reserved, i, l);
      if l in reserved {
        ReservedAlone(r, u, reserved, i, l);
      }
    }
    var u2 := Surrendered(u, e, f);
    assert e.reg != NO_LOCATION ==> e.reg in Locs(e);
    assert e.stk != NO_LOCATION ==> e.stk in Locs(e);
    assert Swapped(u, u2, e, Conforming(e, f));
    CountedSet(r, u, reserved, i, Conforming(e, f), u2);
  }

  // ---- second pass: giving every pseudo register its wanted locations ----------------------------

  /** What the entries hold while the slots in `pending` still wait for their value. */
  function Pending(t: Table, w: Table, pending: seq<int>): (r: Table)
    ensures |r| == |t|
    ensures forall i :: 0 <= i < |t| ==>
      r[i] == if t[i].Unused? || Wanted(w, t[i]).Unused? then Unused
              else if i in pending then Conforming(t[i], Wanted(w, t[i])) else Wanted(w, t[i])
  {
    seq(|t|, i requires 0 <= i < |t| =>
      if t[i].Unused? || Wanted(w, t[i]).Unused? then Unused
      else if i in pending then Conforming(t[i], Wanted(w, t[i])) else Wanted(w, t[i]))
  }

  /** The mapping's own entries meanwhile: those pending have not been touched. */
  function Untouched(t: Table, w: Table, pending: seq<int>): (r: Table)
    ensures |r| == |t|
    ensures forall i :: 0 <= i < |t| ==> r[i] == if i in pending then t[i] else Wanted(w, t[i])
  {
    seq(|t|, i requires 0 <= i < |t| => if i in pending then t[i] else Wanted(w, t[i]))
  }

  lemma PendingStart(t: Table, w: Table, src: seq<int>, dst: seq<int>)
    requires Pairs(t, w, src, dst, 0)
    requires forall i :: 0 <= i < |t| && t[i].Entry? ==> 0 <= IndexOf(w, t[i].pr)
    ensures Pending(t, w, src) == Residual(t, w, 0) && Untouched(t, w, src) == t
  {
    hide IndexOf, Residual, Pending, Untouched;
    forall i | 0 <= i < |t| && i !in src && t[i].Entry?
      ensures Conforming(t[i], Wanted(w, t[i])) == t[i] == Wanted(w, t[i])
    {}
    forall i | 0 <= i < |t| && i in src
      ensures t[i].Entry?
    {}
  }

  lemma PendingStep(t: Table, w: Table, src: seq<int>, k: nat)
    requires k < |src| && (forall a, b :: 0 <= a < b < |src| ==> src[a] != src[b])
    requires 0 <= src[k] < |t| && t[src[k]].Entry? && Wanted(w, t[src[k]]).Entry?
    ensures Pending(t, w, src[..k]) == Pending(t, w, src[..k + 1])[src[k] := Wanted(w, t[src[k]])]
    ensures Untouched(t, w, src[..k]) == Untouched(t, w, src[..k + 1])[src[k] := Wanted(w, t[src[k]])]
    ensures Pending(t, w, src[..k + 1])[src[k]] == Conforming(t[src[k]], Wanted(w, t[src[k]]))
    ensures Untouched(t, w, src[..k + 1])[src[k]] == t[src[k]]
  {
    hide IndexOf, Pending, Untouched, Wanted;
    forall i
      ensures i in src[..k + 1] <==> i in src[..k] || i == src[k]
    {
      assert src[..k + 1] == src[..k] + [src[k]];
    }
    assert src[k] !in src[..k];
  }

  /** The first pass leaves things ready for the second. */
  lemma StartResolving(y: Layout, t: Table, n0: int, w: Table, n: int, u: seq<nat>, reserved: multiset<int>, code: Code,
                       saved: seq<Operand>)
    requires 1 <= y.nofRegisters <= MAX_USABLE_REGISTERS && y.StackTmpsBeg() <= |u|
    requires OkTable(y, n0, t) && OkTable(y, n, w) && n <= |u| && Injective(w)
    requires forall i :: 0 <= i < |t| && t[i].Entry? ==> 0 <= IndexOf(w, t[i].pr)
    requires Counted(Residual(t, w, 0), u, reserved) && Alone(y, u, reserved)
    requires KeepsAll(code) && Pushes(code, saved)
    requires forall i, l :: 0 <= i < |t| && l in Locs(Wanted(w, t[i])) ==> l !in reserved
    ensures Resolving(y, t, w, Residual(t, w, 0), u, reserved, code, saved)
  {
    hide Counted, Alone, Pushes, Copies, OperandOf;
    StartWithin(y, t, w, n, |u|);
    StartCarried(y, code, t, w);
    StartApart(y, n0, t, w);
  }

  lemma StartWithin(y: Layout, t: Table, w: Table, n: int, n': int)
    requires OkTable(y, n, w) && n <= n'
    requires forall i :: 0 <= i < |t| && t[i].Entry? ==> 0 <= IndexOf(w, t[i].pr)
    ensures Within(y, n', Residual(t, w, 0), t, w)
  {
    hide IndexOf, Residual;
    forall i | 0 <= i < |t| && t[i].Entry?
      ensures OkEntry(y, n', Wanted(w, t[i]))
    {
      assert OkEntry(y, n, w[IndexOf(w, t[i].pr)]);
    }
  }

  lemma StartCarried(y: Layout, code: Code, t: Table, w: Table)
    requires KeepsAll(code)
    ensures Carried(y, code, Residual(t, w, 0), t)
  {
    hide IndexOf, Residual, Copies, OperandOf;
    forall i, l | 0 <= i < |t| && l in Locs(Residual(t, w, 0)[i])
      ensures From(y, code, l, t[i])
    {
      assert Copies(code, OperandOf(y, l), OperandOf(y, l));
    }
  }

  lemma StartApart(y: Layout, n: int, t: Table, w: Table)
    requires OkTable(y, n, t) && Injective(w)
    ensures Apart(t, w)
  {
    hide IndexOf;
    forall i, k | 0 <= i < |t| && 0 <= k < |t| && i != k
      ensures Locs(Wanted(w, t[i])) !! Locs(Wanted(w, t[k]))
    {
      if Wanted(w, t[i]).Entry? && Wanted(w, t[k]).Entry? {
        UniqueSlot(y, n, t, i);
        UniqueSlot(y, n, t, k);
        var a, b := IndexOf(w, t[i].pr), IndexOf(w, t[k].pr);
        assert a != b;
        if a < b { assert Locs(w[a]) !! Locs(w[b]); } else { assert Locs(w[b]) !! Locs(w[a]); }
      }
    }
  }

  /** When nothing is pending any more, the table is sound, conforms and has kept every value. */
  lemma FinishResolving(y: Layout, t: Table, n0: int, w: Table, n: int, u: seq<nat>, reserved: multiset<int>,
                        code: Code)
    requires OkTable(y, n0, t) && OkTable(y, n, w) && n <= |u|
    requires forall i :: 0 <= i < |t| && t[i].Entry? ==> 0 <= IndexOf(w, t[i].pr)
    requires Resolving(y, t, w, Pending(t, w, []), u, reserved, code, [])
    ensures var t' := Untouched(t, w, []);
      && Consistent(y, t', u, reserved, multiset{}) && Preserves(y, t, t', code)
      && Conformant(t', w) && PRs(t') == PRs(t)
  {
    var t' := Untouched(t, w, []);
    assert Pending(t, w, []) == t' by { hide IndexOf, Pending, Untouched; }
    hide Counted, Alone, Pushes, Within, Apart, OperandOf, From, IndexOf, Untouched, Pending;
    forall i | 0 <= i < |t|
      ensures OkEntry(y, |u|, t'[i]) && t'[i].Entry? == t[i].Entry?
      ensures (t[i].Entry? ==> t'[i].pr == t[i].pr && t'[i] == w[IndexOf(w, t[i].pr)])
    {
      assert t[i].Entry? ==> OkEntry(y, n, w[IndexOf(w, t[i].pr)]);
    }
    SamePRs(t, t');
    assert reserved + multiset{} == reserved;
    FinishConformant(y, n, t, t', w);
    forall i, j | 0 <= i < |t| && 0 <= j < |t'| && t[i].Entry? && t'[j].Entry? && t[i].pr == t'[j].pr
      ensures Carries(y, code, t[i], t'[j])
    {
      UniqueSlot(y, n0, t, i);
      UniqueSlot(y, n0, t, j);
    }
  }

  lemma FinishConformant(y: Layout, n: int, t: Table, t': Table, w: Table)
    requires OkTable(y, n, w) && |t| == |t'|
    requires forall i :: 0 <= i < |t| && t'[i].Entry? ==> 0 <= IndexOf(w, t'[i].pr) && t'[i] == w[IndexOf(w, t'[i].pr)]
    ensures Conformant(t', w)
  {
    hide IndexOf;
    forall i, j | 0 <= i < |t'| && 0 <= j < |w| && t'[i].Entry? && w[j].Entry? && t'[i].pr == w[j].pr
      ensures t'[i] == w[j]
    {
      UniqueSlot(y, n, w, j);
    }
  }

  // ---- one step of the second pass -------------------------------------------------------------------

  /** The code that brings a value to its wanted locations. */
  function Delivery(y: Layout, e: Entry, f: Entry): Code
    requires e.Entry? && f.Entry?
  {
    if RegisterConforms(e, f) then
      if f.stk == NO_LOCATION then [] else [Movl(OperandOf(y, f.stk), OperandOf(y, e.reg))]
    else if StackConforms(e, f) then
      if f.reg == NO_LOCATION then [] else [Movl(OperandOf(y, f.reg), OperandOf(y, e.stk))]
    else if f.reg == NO_LOCATION then [Popl(OperandOf(y, f.stk))]
    else if f.stk == NO_LOCATION then [Popl(OperandOf(y, f.reg))]
    else [Popl(OperandOf(y, f.reg)), Movl(OperandOf(y, f.stk), OperandOf(y, f.reg))]
  }

  /** The use counts after taking the wanted locations that are not held yet. */
  function Acquired(u: seq<nat>, e: Entry, f: Entry): seq<nat>
    requires e.Entry? && f.Entry?
  {
    var u1 := if RegisterConforms(e, f) || f.reg == NO_LOCATION then u else Take(u, f.reg);
    if StackConforms(e, f) || f.stk == NO_LOCATION then u1 else Take(u1, f.stk)
  }

  function Missing(e: Entry, f: Entry): set<int>
    requires e.Entry? && f.Entry?
  {
    Locs(f) - Locs(Conforming(e, f))
  }

  /** The last value pushed belongs to `e` if `e` had to be pushed. */
  predicate OnTop(y: Layout, saved: seq<Operand>, e: Entry, f: Entry)
    requires e.Entry? && f.Entry?
  {
    NeedsPush(e, f) ==> saved != [] && saved[|saved| - 1] == OperandOf(y, Primary(e))
  }

  lemma ResolveSlot(y: Layout, t: Table, w: Table, r: Table, u: seq<nat>, reserved: multiset<int>, code: Code,
                    saved: seq<Operand>, i: nat)
    requires i < |t| && Resolving(y, t, w, r, u, reserved, code, saved) && i < |r|
    requires t[i].Entry? && Wanted(w, t[i]).Entry? && Differs(t[i], Wanted(w, t[i])) && OkEntry(y, |u|, t[i])
    requires r[i] == Conforming(t[i], Wanted(w, t[i])) && WantsOnly(y, t, w, reserved)
    requires OnTop(y, saved, t[i], Wanted(w, t[i]))
    ensures var e, f := t[i], Wanted(w, t[i]);
      && (forall l :: l in Missing(e, f) ==> 0 <= l < |u| && !y.IsArgument(l) && At(u, l) == 0)
      && |Acquired(u, e, f)| == |u|
      && Resolving(y, t, w, r[i := f], Acquired(u, e, f), reserved, code + Delivery(y, e, f),
                   if NeedsPush(e, f) then saved[..|saved| - 1] else saved)
  {
    var e, f := t[i], Wanted(w, t[i]);
    assert y.StackTmpsBeg() <= |u| && OkEntry(y, |u|, f) && f.pr == e.pr && (y.IsArgument(f.stk) ==> e.stk == f.stk);
    assert e.reg != NO_LOCATION ==> e.reg in Locs(e);
    assert e.stk != NO_LOCATION ==> e.stk in Locs(e);
    assert f.reg != NO_LOCATION ==> f.reg in Locs(f);
    assert f.stk != NO_LOCATION ==> f.stk in Locs(f);
    hide Resolving, OperandOf, IndexOf, Wanted, WantsOnly, Take;
    if RegisterConforms(e, f) {
      if f.stk == NO_LOCATION {
        assert code + [] == code && r[i := f] == r;
      } else {
        ResolveMove(y, t, w, r, u, reserved, code, saved, i, f.stk, e.reg);
        assert WithLoc(y, r[i], f.stk) == f;
      }
    } else if StackConforms(e, f) {
      if f.reg == NO_LOCATION {
        assert code + [] == code && r[i := f] == r;
      } else {
        ResolveMove(y, t, w, r, u, reserved, code, saved, i, f.reg, e.stk);
        assert WithLoc(y, r[i], f.reg) == f;
      }
    } else if f.reg == NO_LOCATION {
      ResolvePop(y, t, w, r, u, reserved, code, saved, i, f.stk);
      assert WithLoc(y, r[i], f.stk) == f;
    } else {
      ResolvePop(y, t, w, r, u, reserved, code, saved, i, f.reg);
      if f.stk == NO_LOCATION {
        assert WithLoc(y, r[i], f.reg) == f;
      } else {
        ResolvePopMove(y, t, w, r, u, reserved, code, saved, i, f);
      }
    }
  }

  /** Both wanted locations are missing: pop into the register, then copy to the stack slot. */
  lemma ResolvePopMove(y: Layout, t: Table, w: Table, r: Table, u: seq<nat>, reserved: multiset<int>, code: Code,
                       saved: seq<Operand>,
                       i: nat, f: Entry)
    requires i < |t| && Resolving(y, t, w, r, u, reserved, code, saved) && t[i].Entry? && i < |r|
    requires saved != [] && saved[|saved| - 1] == OperandOf(y, Primary(t[i])) && Primary(t[i]) in Locs(t[i])
    requires f == Wanted(w, t[i]) && f.Entry? && f.reg != NO_LOCATION && f.stk != NO_LOCATION && f.pr == t[i].pr
    requires r[i] == Entry(t[i].pr, NO_LOCATION, NO_LOCATION) && OkEntry(y, |u|, f) && !y.IsArgument(f.stk)
    requires f.stk < |u| && f.reg < |u|
    ensures 0 <= f.reg && 0 <= f.stk && At(u, f.reg) == 0 && At(u, f.stk) == 0
    ensures var u' := Take(Take(u, f.reg), f.stk);
      && |u'| == |u|
      && Resolving(y, t, w, r[i := f], u', reserved,
                   code + [Popl(OperandOf(y, f.reg)), Movl(OperandOf(y, f.stk), OperandOf(y, f.reg))],
                     saved[..|saved| - 1])
  {
    hide Resolving, OperandOf, IndexOf, Wanted, Take;
    var d, m := OperandOf(y, f.reg), OperandOf(y, f.stk);
    assert f.reg in Locs(f) && f.stk in Locs(f);
    ResolvePop(y, t, w, r, u, reserved, code, saved, i, f.reg);
    var r1, u1 := r[i := WithLoc(y, r[i], f.reg)], Take(u, f.reg);
    assert r1[i] == Entry(t[i].pr, f.reg, NO_LOCATION);
    ResolveMove(y, t, w, r1, u1, reserved, code + [Popl(d)], saved[..|saved| - 1], i, f.stk, f.reg);
    assert r1[i := WithLoc(y, r1[i], f.stk)] == r[i := f];
    assert code + [Popl(d)] + [Movl(m, d)] == code + [Popl(d), Movl(m, d)];
    TakeKeeps(u, f.reg, f.stk);
  }

  lemma TakeKeeps(u: seq<nat>, l: int, k: int)
    requires 0 <= l < |u| && k != l
    ensures At(Take(u, l), k) == At(u, k)
  {}

  /** The target wants no reserved location, and an argument slot only where it is used already. */
  ghost predicate WantsOnly(y: Layout, t: Table, w: Table, reserved: multiset<int>) {
    forall i :: 0 <= i < |t| && Wanted(w, t[i]).Entry? ==>
      && (forall l :: l in Locs(Wanted(w, t[i])) ==> l !in reserved)
      && (y.IsArgument(Wanted(w, t[i]).stk) ==> t[i].stk == Wanted(w, t[i]).stk)
  }
}
