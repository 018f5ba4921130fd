/** Looking up the temporaries and the expression stack of a scope that has been read. */
module DebugLists {
  import opened Basics
  import opened DebugEncoding
  import opened DebugReader

  /** The element of a list at an index, as it is read for pc. */
  function Element(e: Env, list: seq<Address>, index: int, pc: int): Option<NameDescriptor> {
    if 0 <= index < |list| then Some(Describe(e, NameAt(list[index], pc))) else None
  }

  lemma SolidParts(s: NativeMethodScopes, offset: nat, e: Env, list: seq<Address>, k: nat)
    requires k <= |list| && At(s, offset, SolidBytes(e, list, k))
    ensures k == |list| ==> At(s, offset, [TERMINATION]) && |SolidBytes(e, list, k)| == 1
    ensures k < |list| ==>
      At(s, offset, AddressBytes(e, list[k])) && At(s, offset + |AddressBytes(e, list[k])|, SolidBytes(e, list, k + 1))
    ensures k < |list| ==> |SolidBytes(e, list, k)| == |AddressBytes(e, list[k])| + |SolidBytes(e, list, k + 1)|
  {
    hide AddressBytes, At;
    if k < |list| {
      AtSplit(s, offset, AddressBytes(e, list[k]), SolidBytes(e, list, k + 1));
    }
  }

  /** The next element of a list, or nothing at its end. */
  method NextElement(s: NativeMethodScopes, offset: nat, pc: int, ghost e: Env, ghost list: seq<Address>, ghost k: nat)
    returns (current: Option<NameDescriptor>, next: nat)
    requires Backed(s, e) && k <= |list| && At(s, offset, SolidBytes(e, list, k))
    ensures current == Element(e, list, k, pc) && (current == None <==> k == |list|)
    ensures next + (if k == |list| then 0 else |SolidBytes(e, list, k + 1)|) == offset + |SolidBytes(e, list, k)|
    ensures k < |list| ==> At(s, next, SolidBytes(e, list, k + 1))
  {
    hide At, AddressBytes, Backed, Describe, NameAt, SolidBytes;
    SolidParts(s, offset, e, list, k);
    current, next := UnpackNameDescAt(s, offset, pc, e, if k < |list| then Some(list[k]) else None);
  }

  /** Past a whole list. */
  method SkipList(s: NativeMethodScopes, offset: nat, pc: int, ghost e: Env, ghost list: seq<Address>)
    returns (next: nat)
    requires Backed(s, e) && At(s, offset, SolidBytes(e, list, 0))
    ensures next == offset + |SolidBytes(e, list, 0)|
  {
    hide At, Backed, Describe, NameAt, SolidBytes;
    ghost var k := 0;
    var current;
    current, next := NextElement(s, offset, pc, e, list, 0);
    while current != None
      invariant k <= |list| && (current == None <==> k == |list|)
      invariant k < |list| ==> At(s, next, SolidBytes(e, list, k + 1))
      invariant next + (if k == |list| then 0 else |SolidBytes(e, list, k + 1)|) == offset + |SolidBytes(e, list, 0)|
      decreases |list| - k
    {
      current, next := NextElement(s, next, pc, e, list, k + 1);
      k := k + 1;
    }
  }

  /** The element of a list at an index. */
  method FindInList(s: NativeMethodScopes, offset: nat, index: int, pc: int, ghost e: Env, ghost list: seq<Address>)
    returns (result: Option<NameDescriptor>)
    requires Backed(s, e) && At(s, offset, SolidBytes(e, list, 0))
    ensures result == Element(e, list, index, pc)
  {
    hide At, Backed, Describe, NameAt, SolidBytes;
    result := None;
    var i := 0;
    var current, pos := NextElement(s, offset, pc, e, list, 0);
    while current != None
      invariant i <= |list| && (current == None <==> i == |list|) && current == Element(e, list, i, pc)
      invariant i < |list| ==> At(s, pos, SolidBytes(e, list, i + 1))
      invariant 0 <= index < i ==> false
      decreases |list| - i
    {
      if i == index {
        return current;
      }
      current, pos := NextElement(s, pos, pc, e, list, i + 1);
      i := i + 1;
    }
  }

  /** The lists of a scope one by one. */
  lemma ListsApart(s: NativeMethodScopes, offset: nat, e: Env, n: ScopeNode)
    requires At(s, offset, NameListBytes(e, n))
    ensures
      var a := if n.HasArgs() then |SolidBytes(e, n.args, 0)| else 0;
      var t := if n.HasTemps() then |SolidBytes(e, n.temps, 0)| else 0;
      var c := if n.HasContextTemps() then |SolidBytes(e, n.contextTemps, 0)| else 0;
      && (n.HasArgs() ==> At(s, offset, SolidBytes(e, n.args, 0)))
      && (n.HasTemps() ==> At(s, offset + a, SolidBytes(e, n.temps, 0)))
      && (n.HasContextTemps() ==> At(s, offset + a + t, SolidBytes(e, n.contextTemps, 0)))
      && (n.HasExprStack() ==> At(s, offset + a + t + c, SparseBytes(e, n.exprStack, 0)))
  {
    hide At, SolidBytes, SparseBytes;
    var a := if n.HasArgs() then SolidBytes(e, n.args, 0) else [];
    var t := if n.HasTemps() then SolidBytes(e, n.temps, 0) else [];
    var c := if n.HasContextTemps() then SolidBytes(e, n.contextTemps, 0) else [];
    var x := if n.HasExprStack() then SparseBytes(e, n.exprStack, 0) else [];
    AtSplit(s, offset, a + t + c, x);
    AtSplit(s, offset, a + t, c);
    AtSplit(s, offset, a, t);
  }

  /** The lists that the reader takes for those of the temporaries and of the context temporaries: since it
      does not know of arguments, these shift all lists by one. */
  function TemporariesRead(n: ScopeNode): seq<Address> {
    if !n.HasTemps() then [] else if n.HasArgs() then n.args else n.temps
  }

  function ContextTemporariesRead(n: ScopeNode): seq<Address> {
    if !n.HasContextTemps() then [] else if !n.HasArgs() then n.contextTemps else if n.HasTemps() then n.temps
      else n.args
  }

  /** `temporary` */
  method Temporary(s: NativeMethodScopes, d: ScopeDescriptor, index: int, pc: int, ghost e: Env, ghost n: ScopeNode)
    returns (result: Option<NameDescriptor>)
    requires Backed(s, e) && At(s, d.namesOffset, NameListBytes(e, n)) && d.hasTemps == n.HasTemps()
    ensures result == Element(e, TemporariesRead(n), index, pc)
  {
    hide At, NameListBytes, Backed, SolidBytes;
    ListsApart(s, d.namesOffset, e, n);
    result := None;
    if d.hasTemps {
      result := FindInList(s, d.namesOffset, index, pc, e, TemporariesRead(n));
    }
  }

  /** `contextTemporary` */
  method ContextTemporary(s: NativeMethodScopes, d: ScopeDescriptor, index: int, pc: int, ghost e: Env,
                          ghost n: ScopeNode)
    returns (result: Option<NameDescriptor>)
    requires Backed(s, e) && At(s, d.namesOffset, NameListBytes(e, n)) && d.hasTemps == n.HasTemps()
    requires d.hasContextTemps == n.HasContextTemps()
    ensures result == Element(e, ContextTemporariesRead(n), index, pc)
  {
    hide At, NameListBytes, Backed, SolidBytes;
    ListsApart(s, d.namesOffset, e, n);
    var pos := d.namesOffset;
    if d.hasTemps {
      pos := SkipList(s, pos, pc, e, TemporariesRead(n));
    }
    result := None;
    if d.hasContextTemps {
      result := FindInList(s, pos, index, pc, e, ContextTemporariesRead(n));
    }
  }

  // ---- when arguments do no harm ----------------------------------------------------------------------------------

  /** The names are the same, but for scopes that are at the same offset. */
  predicate Alike(e: Env, a: Name, b: Name) {
    match a
    case BlockValueName(m, p) => b.BlockValueName? && b.blockMethod == m && OffsetOf(e, b.parentScope) == OffsetOf(e, p)
    case MemoizedName(l, m, p) => b.MemoizedName? && b.location == l && b.blockMethod ==
      m && OffsetOf(e, b.parentScope) == OffsetOf(e, p)
    case _ => a == b
  }

  /** As many entities in both lists, and the same names for them at pc. */
  predicate AllAlike(e: Env, a: seq<Address>, b: seq<Address>, pc: int) {
    |a| == |b| && forall i :: 0 <= i < |a| ==> Alike(e, NameAt(a[i], pc), NameAt(b[i], pc))
  }

  lemma ListsAlike(e: Env, a: seq<Address>, b: seq<Address>, pc: int)
    ensures (forall i :: Element(e, a, i, pc) == Element(e, b, i, pc)) <==> AllAlike(e, a, b, pc)
  {
    hide NameAt;
    if |a| != |b| {
      var i := if |a| < |b| then |a| else |b|;
      assert Element(e, a, i, pc) != Element(e, b, i, pc);
    } else if !AllAlike(e, a, b, pc) {
      var i :| 0 <= i < |a| && !Alike(e, NameAt(a[i], pc), NameAt(b[i], pc));
      assert Element(e, a, i, pc) != Element(e, b, i, pc);
    }
  }

  /** Temporaries are found as they were recorded exactly if no arguments were recorded, or if their names
      at pc are those of the temporaries. */
  lemma TemporariesRight(e: Env, n: ScopeNode, pc: int)
    requires n.HasTemps()
    ensures (forall i :: Element(e, TemporariesRead(n), i, pc) == Element(e, n.temps, i, pc)) <==>
      (n.args == [] || AllAlike(e, n.args, n.temps, pc))
  {
    hide NameAt, AllAlike;
    ListsAlike(e, n.args, n.temps, pc);
  }

  /** Context temporaries likewise: with arguments, the temporaries are read in their place, or the arguments
      if there are no temporaries. */
  lemma ContextTemporariesRight(e: Env, n: ScopeNode, pc: int)
    requires n.HasContextTemps()
    ensures (forall i :: Element(e, ContextTemporariesRead(n), i, pc) == Element(e, n.contextTemps, i, pc)) <==>
      (n.args == [] || AllAlike(e, if n.temps != [] then n.temps else n.args, n.contextTemps, pc))
  {
    hide NameAt, AllAlike;
    ListsAlike(e, if n.temps != [] then n.temps else n.args, n.contextTemps, pc);
  }

  /** A scope with one argument in location 1 and one temporary in location 2: the temporary is read as
      being in location 1. */
  method ArgumentRead(pc: int)
    returns (s: NativeMethodScopes, d: ScopeDescriptor, n: ScopeNode, result: Option<NameDescriptor>)
    ensures At(s, d.namesOffset, NameListBytes(Env([], [], map[]), n)) && d.hasTemps && n.HasTemps() && |n.temps| == 1
    ensures NameAt(n.temps[0], pc) == LocationName(2) && result == Some(LocationNameDescriptor(1))
  {
    var one, two := [Physical(LocationName(1), 0)], [Physical(LocationName(2), 0)];
    var here := MethodScope(0, 0, one);
    n := ScopeNode(0, here, 0, false, 0, false, 0, true, [one], [two], [], [], []);
    s := NativeMethodScopes([NameHeader(LOCATION_CODE, true, 1), TERMINATION, NameHeader(LOCATION_CODE, true, 2),
      TERMINATION], [], []);
    d := ScopeDescriptor(0, METHOD_CODE, false, true, false, false, 0, 0, false, 0, 0, 0, 0, None, 0, 0, 4);
    ghost var e := Env([], [], map[]);
    OneName(e, one, 1);
    OneName(e, two, 2);
    assert NameListBytes(e, n) == s.codes;
    result := Temporary(s, d, 0, pc, e, n);
  }

  lemma OneName(e: Env, a: Address, l: nat)
    requires l < MAX_INDEX && a == [Physical(LocationName(l), 0)]
    ensures SolidBytes(e, [a], 0) == [NameHeader(LOCATION_CODE, true, l), TERMINATION]
    ensures forall pc :: NameAt(a, pc) == LocationName(l)
  {
  }

  // ---- the expression stack ---------------------------------------------------------------------------------------

  /** The first element of a sparse list from k on that is there. */
  function NextThere(list: seq<Option<Address>>, k: nat): (j: nat)
    requires k <= |list|
    ensures k <= j <= |list| && (j < |list| ==> list[j].Some?) && forall i :: k <= i < j ==> list[i] == None
    decreases |list| - k
  {
    if k == |list| || list[k].Some? then k else NextThere(list, k + 1)
  }

  lemma {:induction false} SparseFrom(e: Env, list: seq<Option<Address>>, k: nat)
    requires k <= |list|
    ensures SparseBytes(e, list, k) == SparseBytes(e, list, NextThere(list, k))
    decreases |list| - k
  {
    hide AddressBytes, ValueBytes;
    if k < |list| && list[k] == None {
      SparseFrom(e, list, k + 1);
      assert SparseBytes(e, list, k) == [] + SparseBytes(e, list, k + 1);
    }
  }

  lemma SparseParts(s: NativeMethodScopes, offset: nat, e: Env, list: seq<Option<Address>>, k: nat)
    requires k <= |list| && At(s, offset, SparseBytes(e, list, k))
    ensures var j := NextThere(list, k);
      && (j == |list| ==> At(s, offset, [TERMINATION]))
      && (j < |list| ==>
            var a, v := AddressBytes(e, list[j].value), ValueBytes(e, j);
            At(s, offset, a) && At(s, offset + |a|, v) && At(s, offset + |a| + |v|, SparseBytes(e, list, j + 1)))
  {
    hide AddressBytes, At, ValueBytes;
    SparseFrom(e, list, k);
    var j := NextThere(list, k);
    if j < |list| {
      var a, v := AddressBytes(e, list[j].value), ValueBytes(e, j);
      AtSplit(s, offset, a + v, SparseBytes(e, list, j + 1));
      AtSplit(s, offset, a, v);
    }
  }

  /** The list that the reader takes for that of the expression stack if arguments were recorded: the one
      right before it. */
  function StackRead(n: ScopeNode): seq<Address> {
    if n.HasContextTemps() then n.contextTemps else if n.HasTemps() then n.temps else n.args
  }

  /** Where `exprStackElem` starts looking: at the list of the expression stack if and only if no arguments
      were recorded; otherwise one list too early, whose entities are not followed by indices. */
  method StackStart(s: NativeMethodScopes, d: ScopeDescriptor, pc: int, ghost e: Env, ghost n: ScopeNode)
    returns (pos: nat)
    requires Backed(s, e) && At(s, d.namesOffset, NameListBytes(e, n)) && d.hasTemps == n.HasTemps()
    requires d.hasContextTemps == n.HasContextTemps() && n.HasExprStack()
    ensures !n.HasArgs() ==> At(s, pos, SparseBytes(e, n.exprStack, 0))
    ensures n.HasArgs() ==>
      && StackRead(n) != [] && |SolidBytes(e, StackRead(n), 0)| > 0
      && At(s, pos, SolidBytes(e, StackRead(n), 0))
      && At(s, pos + |SolidBytes(e, StackRead(n), 0)|, SparseBytes(e, n.exprStack, 0))
  {
    hide At, NameListBytes, Backed, SolidBytes, SparseBytes;
    ListsApart(s, d.namesOffset, e, n);
    SomeBytes(e, StackRead(n));
    pos := d.namesOffset;
    if d.hasTemps {
      pos := SkipList(s, pos, pc, e, TemporariesRead(n));
    }
    if d.hasContextTemps {
      pos := SkipList(s, pos, pc, e, ContextTemporariesRead(n));
    }
  }

  lemma SomeBytes(e: Env, list: seq<Address>)
    ensures |SolidBytes(e, list, 0)| > 0
  {}

  /** `exprStackElem`: what was recorded for the byte code, if anything was. */
  method ExprStackElem(s: NativeMethodScopes, d: ScopeDescriptor, byteCode: int, pc: int, ghost e: Env,
                       ghost n: ScopeNode)
    returns (result: Option<NameDescriptor>)
    requires Backed(s, e) && At(s, d.namesOffset, NameListBytes(e, n)) && d.hasTemps == n.HasTemps()
    requires d.hasContextTemps == n.HasContextTemps() && d.hasExprStack == n.HasExprStack()
    requires n.HasArgs() ==> !n.HasExprStack()
    ensures result == if n.HasExprStack() && 0 <= byteCode < |n.exprStack| && n.exprStack[byteCode].Some?
                      then Some(Describe(e, NameAt(n.exprStack[byteCode].value, pc))) else None
  {
    hide At, NameListBytes, Backed, SolidBytes, SparseBytes, Describe, NameAt;
    result := None;
    if d.hasExprStack {
      var pos := StackStart(s, d, pc, e, n);
      result := FindInSparse(s, pos, byteCode, pc, e, n.exprStack);
    }
  }

  method FindInSparse(s: NativeMethodScopes, offset: nat, byteCode: int, pc: int, ghost e: Env,
                      ghost list: seq<Option<Address>>)
    returns (result: Option<NameDescriptor>)
    requires Backed(s, e) && At(s, offset, SparseBytes(e, list, 0))
    ensures result == if 0 <= byteCode < |list|
      && list[byteCode].Some? then Some(Describe(e, NameAt(list[byteCode].value, pc))) else None
  {
    hide At, Backed, SparseBytes, AddressBytes, ValueBytes, Describe, NameAt;
    ghost var k: nat, j: nat := 0, NextThere(list, 0);
    SparseParts(s, offset, e, list, 0);
    var current, pos: nat := UnpackNameDescAt(s, offset, pc, e, if j < |list| then list[j] else None);
    while current != None
      invariant k <= j <= |list| && j == NextThere(list, k) && (current == None <==> j == |list|)
      invariant j < |list| ==> current == Some(Describe(e, NameAt(list[j].value, pc)))
      invariant j < |list| ==>
        At(s, pos, ValueBytes(e, j)) && At(s, pos + |ValueBytes(e, j)|, SparseBytes(e, list, j + 1))
      invariant forall i :: 0 <= i < k && i == byteCode ==> list[i] == None
      decreases |list| - j
    {
      var index;
      index, pos := UnpackValueAt(s, pos, e, j);
      if index == byteCode {
        return current;
      }
      k, j := j + 1, NextThere(list, j + 1);
      SparseParts(s, pos, e, list, k);
      current, pos := UnpackNameDescAt(s, pos, pc, e, if j < |list| then list[j] else None);
    }
    return None;
  }
}
