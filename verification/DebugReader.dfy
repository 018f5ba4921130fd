/** The reader of the encoding. Each step is told, for the proof only, what was written at its position,
    and finds exactly that. */
module DebugReader {
  import opened Basics
  import opened DebugEncoding
  import opened Division

  /** The finished tables next to the code of a method. */
  datatype NativeMethodScopes = NativeMethodScopes(codes: seq<Byte>, oops: seq<int>, values: seq<int>)

  ghost predicate At(s: NativeMethodScopes, offset: nat, bytes: seq<int>) {
    offset + |bytes| <= |s.codes| && s.codes[offset..offset + |bytes|] == bytes
  }

  /** The tables are those of the recorder, and small enough for 15-bit indices. */
  ghost predicate Backed(s: NativeMethodScopes, e: Env) {
    && s.oops == e.oops && s.values == e.values
    && |s.oops| + 1 <= 0x8000 && |s.values| + MAX_INLINE_VALUE + 1 <= 0x8000
  }

  lemma AtSplit(s: NativeMethodScopes, offset: nat, a: seq<int>, b: seq<int>)
    requires At(s, offset, a + b)
    ensures At(s, offset, a) && At(s, offset + |a|, b)
  {
    var c := s.codes[offset..offset + |a + b|];
    assert c[..|a|] == a && c[|a|..] == b;
    assert s.codes[offset..offset + |a|] == c[..|a|];
    assert s.codes[offset + |a|..offset + |a| + |b|] == c[|a|..];
  }

  lemma AtFirst(s: NativeMethodScopes, offset: nat, bytes: seq<int>)
    requires At(s, offset, bytes) && bytes != []
    ensures offset < |s.codes| && s.codes[offset] == bytes[0]
  {
    assert s.codes[offset..offset + |bytes|][0] == bytes[0];
  }

  // ---- indices, values and objects ----------------------------------------------------------------------------

  /** The byte that was read, with two more at `offset` if it says so, stands for index i. */
  ghost predicate IndexRead(s: NativeMethodScopes, index: Byte, offset: nat, i: nat) {
    if index == EXTENDED_INDEX then At(s, offset, HalfBytes(i)) else index == i
  }

  function AfterIndex(index: Byte, offset: nat): nat {
    if index == EXTENDED_INDEX then offset + 2 else offset
  }

  method NextHalf(s: NativeMethodScopes, offset: nat, ghost i: nat) returns (half: int, next: nat)
    requires At(s, offset, HalfBytes(i)) && i < 0x8000
    ensures half == i && next == offset + 2
  {
    assert s.codes[offset..offset + 2][0] == HalfBytes(i)[0] && s.codes[offset..offset + 2][1] == HalfBytes(i)[1];
    HalfReads(i);
    half := HalfOf(s.codes[offset], s.codes[offset + 1]);
    next := offset + 2;
  }

  method UnpackValueFromIndex(s: NativeMethodScopes, index: Byte, offset: nat, ghost e: Env, ghost v: int)
    returns (r: int, next: nat)
    requires Backed(s, e) && KnownValue(e, v) && IndexRead(s, index, offset, ValueIndex(e, v))
    requires index == EXTENDED_INDEX ==> !(0 <= v <= MAX_INLINE_VALUE)
    ensures r == v && next == AfterIndex(index, offset)
  {
    if index <= MAX_INLINE_VALUE {
      r, next := index, offset;
    } else if index < EXTENDED_INDEX {
      r, next := s.values[index - (MAX_INLINE_VALUE + 1)], offset;
    } else {
      var half;
      half, next := NextHalf(s, offset, ValueIndex(e, v));
      r := s.values[half - (MAX_INLINE_VALUE + 1)];
    }
  }

  method UnpackOopFromIndex(s: NativeMethodScopes, index: Byte, offset: nat, ghost e: Env, ghost o: int)
    returns (r: int, next: nat)
    requires Backed(s, e) && KnownOop(e, o) && IndexRead(s, index, offset, OopIndex(e, o))
    requires (index == EXTENDED_INDEX ==> o != 0)
    ensures r == o && next == AfterIndex(index, offset)
  {
    if index == 0 {
      r, next := 0, offset;
    } else if index < EXTENDED_INDEX {
      r, next := s.oops[index - 1], offset;
    } else {
      var half;
      half, next := NextHalf(s, offset, OopIndex(e, o));
      r := s.oops[half - 1];
    }
  }

  /** What an index that was written looks like. */
  lemma IndexAt(s: NativeMethodScopes, offset: nat, i: nat)
    requires At(s, offset, IndexBytes(i))
    ensures offset < |s.codes| && IndexRead(s, s.codes[offset], offset + 1, i)
    ensures s.codes[offset] == EXTENDED_INDEX <==> i >= EXTENDED_INDEX
    ensures AfterIndex(s.codes[offset], offset + 1) == offset + |IndexBytes(i)|
  {
    AtFirst(s, offset, IndexBytes(i));
    if i >= EXTENDED_INDEX {
      AtSplit(s, offset, [EXTENDED_INDEX], HalfBytes(i));
    }
  }

  /** Something that was written is known: what is not would have been no byte. */
  lemma NeverMissing(s: NativeMethodScopes, offset: nat, rest: seq<int>)
    ensures !At(s, offset, [MISSING] + rest)
  {
    assert ([MISSING] + rest)[0] == MISSING;
    if At(s, offset, [MISSING] + rest) {
      AtFirst(s, offset, [MISSING] + rest);
    }
  }

  lemma ValueAt(s: NativeMethodScopes, offset: nat, e: Env, v: int)
    requires At(s, offset, ValueBytes(e, v))
    ensures KnownValue(e, v) && offset < |s.codes| && IndexRead(s, s.codes[offset], offset + 1, ValueIndex(e, v))
    ensures s.codes[offset] == EXTENDED_INDEX ==> !(0 <= v <= MAX_INLINE_VALUE)
    ensures AfterIndex(s.codes[offset], offset + 1) == offset + |ValueBytes(e, v)|
  {
    if !KnownValue(e, v) {
      assert [MISSING] + [] == [MISSING];
      NeverMissing(s, offset, []);
    } else {
      IndexAt(s, offset, ValueIndex(e, v));
    }
  }

  lemma OopAt(s: NativeMethodScopes, offset: nat, e: Env, o: int)
    requires At(s, offset, OopBytes(e, o))
    ensures KnownOop(e, o) && offset < |s.codes| && IndexRead(s, s.codes[offset], offset + 1, OopIndex(e, o))
    ensures s.codes[offset] == EXTENDED_INDEX ==> o != 0
    ensures AfterIndex(s.codes[offset], offset + 1) == offset + |OopBytes(e, o)|
  {
    if !KnownOop(e, o) {
      assert [MISSING] + [] == [MISSING];
      NeverMissing(s, offset, []);
    } else {
      IndexAt(s, offset, OopIndex(e, o));
    }
  }

  method UnpackValueAt(s: NativeMethodScopes, offset: nat, ghost e: Env, ghost v: int) returns (r: int, next: nat)
    requires Backed(s, e) && At(s, offset, ValueBytes(e, v))
    ensures r == v && next == offset + |ValueBytes(e, v)|
  {
    hide ValueBytes, At, ValueIndex, KnownValue, IndexRead;
    ValueAt(s, offset, e, v);
    r, next := UnpackValueFromIndex(s, s.codes[offset], offset + 1, e, v);
  }

  method UnpackOopAt(s: NativeMethodScopes, offset: nat, ghost e: Env, ghost o: int) returns (r: int, next: nat)
    requires Backed(s, e) && At(s, offset, OopBytes(e, o))
    ensures r == o && next == offset + |OopBytes(e, o)|
  {
    hide OopBytes, At, OopIndex, KnownOop, IndexRead;
    OopAt(s, offset, e, o);
    r, next := UnpackOopFromIndex(s, s.codes[offset], offset + 1, e, o);
  }

  // ---- names ----------------------------------------------------------------------------------------------------

  datatype NameDescriptor =
    | IllegalNameDescriptor
    | LocationNameDescriptor(location: int)
    | ValueNameDescriptor(oop: int)
    | BlockValueNameDescriptor(blockMethod: int, parentScope: int)
    | MemoizedBlockNameDescriptor(location: int, blockMethod: int, parentScope: int)

  function OffsetOf(e: Env, scope: Option<nat>): int {
    if scope.Some? && scope.value in e.offsets then e.offsets[scope.value] else 0
  }

  /** What a name should read as. */
  function Describe(e: Env, n: Name): NameDescriptor {
    match n
    case IllegalName => IllegalNameDescriptor
    case LocationName(l) => LocationNameDescriptor(l)
    case ValueName(o) => ValueNameDescriptor(o)
    case BlockValueName(m, p) => BlockValueNameDescriptor(m, OffsetOf(e, p))
    case MemoizedName(l, m, p) => MemoizedBlockNameDescriptor(l, m, OffsetOf(e, p))
  }

  /** The index of a name, from the header byte or from the bytes after it. */
  method ReadIndex(s: NativeMethodScopes, offset: nat, ghost code: nat, ghost last: bool, ghost i: nat)
    returns (index: Byte, next: nat)
    requires code < 4 && At(s, offset, IndexedBytes(code, last, i))
    ensures offset < |s.codes| && IndexRead(s, index, next, i)
    ensures AfterIndex(index, next) == offset + |IndexedBytes(code, last, i)|
    ensures s.codes[offset] % 4 == code && (s.codes[offset] >= 0x80 <==> last) && s.codes[offset] / 4 % 32 <= NO_INDEX
    ensures index == EXTENDED_INDEX <==> i >= EXTENDED_INDEX
  {
    AtFirst(s, offset, IndexedBytes(code, last, i));
    var raw := s.codes[offset] / 4 % 32;
    if raw <= MAX_INDEX {
      index, next := raw, offset + 1;
    } else {
      AtSplit(s, offset, [NameHeader(code, last, NO_INDEX)], IndexBytes(i));
      IndexAt(s, offset + 1, i);
      index, next := s.codes[offset + 1], offset + 2;
    }
  }

  /** The code and the index with which a name starts. */
  function NameCode(n: Name): nat {
    match n
    case IllegalName => 0
    case LocationName(_) => LOCATION_CODE
    case ValueName(_) => VALUE_CODE
    case BlockValueName(_, _) => BLOCKVALUE_CODE
    case MemoizedName(_, _, _) => MEMOIZEDBLOCK_CODE
  }

  predicate Knows(e: Env, n: Name) {
    match n
    case IllegalName => true
    case LocationName(l) => KnownValue(e, l)
    case ValueName(o) => KnownOop(e, o)
    case BlockValueName(m, _) => KnownOop(e, m)
    case MemoizedName(l, _, _) => KnownValue(e, l)
  }

  function NameIndex(e: Env, n: Name): nat {
    match n
    case IllegalName => 0
    case LocationName(l) => ValueIndex(e, l)
    case ValueName(o) => OopIndex(e, o)
    case BlockValueName(m, _) => OopIndex(e, m)
    case MemoizedName(l, _, _) => ValueIndex(e, l)
  }

  /** What follows the index of a name. */
  function NameRest(e: Env, n: Name): seq<int> {
    match n
    case BlockValueName(_, p) => ScopeOffsetBytes(e, p)
    case MemoizedName(_, m, p) => OopBytes(e, m) + ScopeOffsetBytes(e, p)
    case _ => []
  }

  lemma NameParts(s: NativeMethodScopes, offset: nat, e: Env, n: Name, last: bool)
    requires At(s, offset, NameBytes(e, n, last)) && n != IllegalName
    ensures Knows(e, n) && At(s, offset, IndexedBytes(NameCode(n), last, NameIndex(e, n)))
    ensures At(s, offset + |IndexedBytes(NameCode(n), last, NameIndex(e, n))|, NameRest(e, n))
    ensures |NameBytes(e, n, last)| == |IndexedBytes(NameCode(n), last, NameIndex(e, n))| + |NameRest(e, n)|
  {
    hide IndexedBytes, OopBytes, ScopeOffsetBytes, KnownValue, KnownOop, ValueIndex, OopIndex, At;
    var rest := NameRest(e, n);
    if !Knows(e, n) {
      assert NameBytes(e, n, last) == [MISSING] + rest;
      NeverMissing(s, offset, rest);
    } else {
      var i := IndexedBytes(NameCode(n), last, NameIndex(e, n));
      assert NameBytes(e, n, last) == i + rest;
      AtSplit(s, offset, i, rest);
    }
  }

  method UnpackScopeOffset(s: NativeMethodScopes, offset: nat, ghost e: Env, ghost p: Option<nat>)
    returns (r: int, next: nat)
    requires Backed(s, e) && At(s, offset, ScopeOffsetBytes(e, p))
    ensures r == OffsetOf(e, p) && next == offset + |ScopeOffsetBytes(e, p)|
  {
    if p.Some? && p.value !in e.offsets {
      assert [MISSING] + [] == [MISSING];
      NeverMissing(s, offset, []);
    }
    r, next := UnpackValueAt(s, offset, e, if p == None then 0 else e.offsets[p.value]);
  }

  /** One name, or the end of a list of names. */
  ghost predicate NameOrEnd(s: NativeMethodScopes, offset: nat, e: Env, n: Option<Name>, last: bool) {
    At(s, offset, if n.Some? then NameBytes(e, n.value, last) else [TERMINATION])
  }

  method UnpackName(s: NativeMethodScopes, offset: nat, ghost e: Env, ghost n: Option<Name>, ghost last: bool)
    returns (nd: Option<NameDescriptor>, isLast: bool, next: nat)
    requires Backed(s, e) && NameOrEnd(s, offset, e, n, last)
    ensures n == None ==> nd == None && isLast && next == offset + 1
    ensures n.Some? ==>
      nd == Some(Describe(e, n.value)) && isLast == last && next == offset + |NameBytes(e, n.value, last)|
  {
    hide IndexedBytes, OopBytes, ScopeOffsetBytes, KnownValue, KnownOop, ValueIndex, OopIndex, At, IndexRead,
      ValueBytes, NameBytes;
    HeaderOfName(s, offset, e, n, last);
    var b := s.codes[offset];
    isLast := b >= 0x80;
    if b / 4 % 32 == ILLEGAL_INDEX {
      return Some(IllegalNameDescriptor), isLast, offset + 1;
    }
    if b / 4 % 32 == TERMINATION_INDEX {
      return None, isLast, offset + 1;
    }
    NameParts(s, offset, e, n.value, last);
    var index, at := ReadIndex(s, offset, NameCode(n.value), last, NameIndex(e, n.value));
    nd, next := UnpackByCode(s, b % 4, index, at, e, n.value);
    nd := nd;
  }

  /** What a header byte tells about the name it starts. */
  lemma HeaderOfName(s: NativeMethodScopes, offset: nat, e: Env, n: Option<Name>, last: bool)
    requires NameOrEnd(s, offset, e, n, last)
    ensures offset < |s.codes|
    ensures n == None ==> s.codes[offset] / 4 % 32 == TERMINATION_INDEX && s.codes[offset] >= 0x80
    ensures n == Some(IllegalName) ==> s.codes[offset] / 4 % 32 == ILLEGAL_INDEX && |NameBytes(e, n.value, last)| == 1
    ensures n.Some? ==> (s.codes[offset] >= 0x80 <==> last)
    ensures n.Some? && n.value != IllegalName ==>
      s.codes[offset] / 4 % 32 <= NO_INDEX && s.codes[offset] % 4 == NameCode(n.value)
  {
    hide OopBytes, ScopeOffsetBytes, KnownValue, KnownOop, ValueIndex, OopIndex, IndexBytes;
    if n == None {
      TerminationIs();
      AtFirst(s, offset, [TERMINATION]);
    } else if n.value == IllegalName {
      AtFirst(s, offset, NameBytes(e, n.value, last));
    } else {
      NameParts(s, offset, e, n.value, last);
      AtFirst(s, offset, IndexedBytes(NameCode(n.value), last, NameIndex(e, n.value)));
    }
  }

  method UnpackByCode(s: NativeMethodScopes, code: nat, index: Byte, at: nat, ghost e: Env, ghost n: Name)
    returns (nd: Option<NameDescriptor>, next: nat)
    requires Backed(s, e) && n != IllegalName && code == NameCode(n) && Knows(e, n)
    requires IndexRead(s, index, at, NameIndex(e, n))
    requires index == EXTENDED_INDEX <==> NameIndex(e, n) >= EXTENDED_INDEX
    requires At(s, AfterIndex(index, at), NameRest(e, n))
    ensures nd == Some(Describe(e, n)) && next == AfterIndex(index, at) + |NameRest(e, n)|
  {
    hide OopBytes, ScopeOffsetBytes, At, IndexRead, ValueBytes, Backed;
    match code {
      case 0 =>
        var l;
        l, next := UnpackValueFromIndex(s, index, at, e, n.location);
        nd := Some(LocationNameDescriptor(l));
      case 1 =>
        var o;
        o, next := UnpackOopFromIndex(s, index, at, e, n.oop);
        nd := Some(ValueNameDescriptor(o));
      case 2 =>
        var m, p;
        m, next := UnpackOopFromIndex(s, index, at, e, n.blockMethod);
        p, next := UnpackScopeOffset(s, next, e, n.parentScope);
        nd := Some(BlockValueNameDescriptor(m, p));
      case _ =>
        var l, m, p;
        l, next := UnpackValueFromIndex(s, index, at, e, n.location);
        AtSplit(s, next, OopBytes(e, n.blockMethod), ScopeOffsetBytes(e, n.parentScope));
        m, next := UnpackOopAt(s, next, e, n.blockMethod);
        p, next := UnpackScopeOffset(s, next, e, n.parentScope);
        nd := Some(MemoizedBlockNameDescriptor(l, m, p));
    }
  }

  // ---- names that depend on the position in the code --------------------------------------------------------------

  /** The name that holds at pc among the first k. */
  function NameAmong(a: Address, k: nat, pc: int): Name
    requires 0 < k <= |a|
  {
    if k == 1 || a[k - 1].pc <= pc then a[k - 1].name else NameAmong(a, k - 1, pc)
  }

  function NameAt(a: Address, pc: int): Name {
    NameAmong(a, |a|, pc)
  }

  /** It is the last one whose position is at or before pc, or the first. */
  lemma NameAtIs(a: Address, pc: int) returns (j: nat)
    ensures j < |a| && NameAt(a, pc) == a[j].name && (j == 0 || a[j].pc <= pc)
    ensures forall i :: j < i < |a| ==> pc < a[i].pc
  {
    j := NameAmongIs(a, |a|, pc);
  }

  lemma {:induction false} NameAmongIs(a: Address, k: nat, pc: int) returns (j: nat)
    requires 0 < k <= |a|
    ensures j < k && NameAmong(a, k, pc) == a[j].name && (j == 0 || a[j].pc <= pc)
    ensures forall i :: j < i < k ==> pc < a[i].pc
    decreases k
  {
    if k == 1 || a[k - 1].pc <= pc {
      j := k - 1;
    } else {
      j := NameAmongIs(a, k - 1, pc);
    }
  }

  /** `unpackNameDescAt`: reads the names of one entity to the end and returns the one for pc; nothing
      at the end of a list. */
  method UnpackNameDescAt(s: NativeMethodScopes, offset: nat, pc: int, ghost e: Env, ghost a: Option<Address>)
    returns (result: Option<NameDescriptor>, next: nat)
    requires Backed(s, e) && At(s, offset, if a.Some? then AddressBytes(e, a.value) else [TERMINATION])
    ensures a == None ==> result == None && next == offset + 1
    ensures a.Some? ==> result == Some(Describe(e, NameAt(a.value, pc))) && next == offset + |AddressBytes(e, a.value)|
  {
    hide At, NameBytes, ValueBytes, Backed, Describe, RestBytes;
    if a.Some? {
      AtSplit(s, offset, NameBytes(e, a.value[0].name, |a.value| == 1), RestBytes(e, a.value, 1, 0));
    }
    var isLast;
    result, isLast, next := UnpackName(s, offset, e, if a.Some? then Some(a.value[0].name)
      else None, a.Some? && |a.value| == 1);
    if result == None {
      return;
    }
    var currentPc := 0;
    ghost var k := 1;
    while !isLast
      invariant 1 <= k <= |a.value| && (isLast <==> k == |a.value|) && At(s, next, RestBytes(e, a.value, k, currentPc))
      invariant next + |RestBytes(e, a.value, k, currentPc)| == offset + |AddressBytes(e, a.value)|
      invariant result == Some(Describe(e, NameAmong(a.value, k, pc)))
      decreases |a.value| - k
    {
      RestParts(s, next, e, a.value, k, currentPc);
      var current, delta;
      current, isLast, next := UnpackName(s, next, e, Some(a.value[k].name), k == |a.value| - 1);
      delta, next := UnpackValueAt(s, next, e, a.value[k].pc - currentPc);
      currentPc := currentPc + delta;
      if currentPc <= pc {
        result := current;
      }
      k := k + 1;
    }
    NoRest(e, a.value, currentPc);
  }

  lemma NoRest(e: Env, a: Address, lastPc: int)
    ensures RestBytes(e, a, |a|, lastPc) == []
  {}

  lemma RestParts(s: NativeMethodScopes, offset: nat, e: Env, a: Address, k: nat, lastPc: int)
    requires 0 < k < |a| && At(s, offset, RestBytes(e, a, k, lastPc))
    ensures var n, v := NameBytes(e, a[k].name, k == |a| - 1), ValueBytes(e, a[k].pc - lastPc);
      && At(s, offset, n) && At(s, offset + |n|, v) && At(s, offset + |n| + |v|, RestBytes(e, a, k + 1, a[k].pc))
      && |RestBytes(e, a, k, lastPc)| == |n| + |v| + |RestBytes(e, a, k + 1, a[k].pc)|
  {
    hide At, NameBytes, ValueBytes;
    var n, v, r := NameBytes(e, a[k].name, k == |a| - 1), ValueBytes(e, a[k].pc - lastPc),
      RestBytes(e, a, k + 1, a[k].pc);
    AtSplit(s, offset, n + v, r);
    AtSplit(s, offset, n, v);
  }

  // ---- scopes -----------------------------------------------------------------------------------------------------

  const ILLEGAL_BYTE_CODE := -1

  /** A scope as it is read, for a position in the code. */
  datatype ScopeDescriptor = ScopeDescriptor(
    offset: nat, code: nat, lite: bool, hasTemps: bool, hasContextTemps: bool, hasExprStack: bool,
    methodOop: int, scopeId: int, context: bool, senderScopeOffset: int, senderByteCode: int,
    klass: int, selector: int, selfName: Option<NameDescriptor>, parentScopeOffset: int,
    namesOffset: nat, next: int)

  function Short(i: int): int {
    var u := i % 0x10000;
    if u >= 0x8000 then u - 0x10000 else u
  }

  /** The byte code of a sender comes back if and only if it fits into 16 bits with a sign. */
  lemma ShortReads(i: int)
    ensures Short(i) == i <==> -0x8000 <= i < 0x8000
  {}

  datatype NonInlinedBlockDescriptor = NonInlinedBlockDescriptor(offset: nat, methodOop: int, parentScopeOffset: int)

  /** `noninlined_block_scope_at`: the method of a block and how far back its parent is. It fails where there
      is no such block. */
  method NonInlinedBlockScopeAt(s: NativeMethodScopes, offset: nat, ghost e: Env, ghost b: NonInlinedBlock)
    returns (d: Option<NonInlinedBlockDescriptor>)
    requires Backed(s, e) && BlockAt(s.codes, e, b, offset)
    ensures b.parent in e.offsets
    ensures d == Some(NonInlinedBlockDescriptor(offset, b.methodOop, offset - e.offsets[b.parent]))
  {
    hide OopBytes, ValueBytes, At;
    BlockParts(s, e, b, offset);
    if s.codes[offset] % 4 != NON_INLINED_BLOCK_CODE {
      return None;
    }
    var methodOop, next := UnpackOopAt(s, offset + 1, e, b.methodOop);
    var parentScopeOffset;
    parentScopeOffset, next := UnpackValueAt(s, next, e, offset - e.offsets[b.parent]);
    d := Some(NonInlinedBlockDescriptor(offset, methodOop, parentScopeOffset));
  }

  lemma BlockParts(s: NativeMethodScopes, e: Env, b: NonInlinedBlock, offset: nat)
    requires BlockAt(s.codes, e, b, offset)
    ensures b.parent in e.offsets && offset < |s.codes| && s.codes[offset] == NON_INLINED_BLOCK_CODE
    ensures At(s, offset + 1, OopBytes(e, b.methodOop))
    ensures At(s, offset + 1 + |OopBytes(e, b.methodOop)|, ValueBytes(e, offset - e.offsets[b.parent]))
  {
    hide OopBytes, ValueBytes;
    var h, o := [NON_INLINED_BLOCK_CODE], OopBytes(e, b.methodOop);
    var v := if b.parent in e.offsets then ValueBytes(e, offset - e.offsets[b.parent]) else [MISSING];
    assert At(s, offset, h + o + v);
    AtSplit(s, offset, h + o, v);
    AtSplit(s, offset, h, o);
    AtFirst(s, offset, h);
    if b.parent !in e.offsets {
      assert [MISSING] + [] == [MISSING];
      NeverMissing(s, offset + |h + o|, []);
    }
  }

  /** All that was recorded of the scope, and where the next one starts. */
  ghost predicate Shows(d: ScopeDescriptor, e: Env, p: Placed, pc: int) {
    var n := p.node;
    && d.offset == p.at && d.code == Code(n.kind) && d.lite == n.lite && d.context == n.context
    && d.hasTemps == n.HasTemps() && d.hasContextTemps == n.HasContextTemps() && d.hasExprStack == n.HasExprStack()
    && d.methodOop == n.methodOop && d.scopeId == n.scopeId
    && d.senderScopeOffset == (if p.at == 0 then 0 else p.at - p.sender)
    && d.senderByteCode == (if p.at == 0 then ILLEGAL_BYTE_CODE else Short(n.senderByteCode))
    && ShowsKind(d, e, n, pc)
    && d.namesOffset + |NameListBytes(e, n)| == p.at + |ScopeBytes(e, n, p.at, p.sender)| == d.next
  }

  ghost predicate ShowsKind(d: ScopeDescriptor, e: Env, n: ScopeNode, pc: int) {
    match n.kind
    case MethodScope(k, s, r) => d.klass == k && d.selector == s && d.selfName == Some(Describe(e, NameAt(r, pc)))
    case BlockScope(q) => q in e.offsets && d.parentScopeOffset == d.offset - e.offsets[q]
    case TopLevelBlockScope(r, k) => d.klass == k && d.selfName == Some(Describe(e, NameAt(r, pc)))
  }

  /** The parts of a scope and where they are. */
  lemma ScopeParts(s: NativeMethodScopes, e: Env, p: Placed)
    requires p.at >= 0 && At(s, p.at, ScopeBytes(e, p.node, p.at, p.sender))
    ensures p.at < |s.codes| && s.codes[p.at] == HeaderByte(p.node)
    ensures p.node.HasNames() ==>
      At(s, p.at + 1, NextBytes(e, |FixedBytes(e, p.node, p.at, p.sender)| + |NameListBytes(e, p.node)|))
    ensures var h := 1 + if p.node.HasNames() then |NextBytes(e,
      |FixedBytes(e, p.node, p.at, p.sender)| + |NameListBytes(e, p.node)|)| else 0;
      && At(s, p.at + h, FixedBytes(e, p.node, p.at, p.sender))
      && |ScopeBytes(e, p.node, p.at, p.sender)| ==
           h + |FixedBytes(e, p.node, p.at, p.sender)| + |NameListBytes(e, p.node)|
      && At(s, p.at + h + |FixedBytes(e, p.node, p.at, p.sender)|, NameListBytes(e, p.node))
  {
    hide FixedBytes, NameListBytes, NextBytes, HeaderByte, At;
    var f, l := FixedBytes(e, p.node, p.at, p.sender), NameListBytes(e, p.node);
    var x := if p.node.HasNames() then NextBytes(e, |f + l|) else [];
    var h := [HeaderByte(p.node)];
    AtFirst(s, p.at, h + x + (f + l));
    AtSplit(s, p.at, h + x, f + l);
    AtSplit(s, p.at, h, x);
    AtSplit(s, p.at + |h + x|, f, l);
  }

  /** The distance to the next scope, from a small header or a big one. */
  method UnpackNext(s: NativeMethodScopes, offset: nat, ghost e: Env, ghost rest: nat)
    returns (distance: int, next: nat)
    requires Backed(s, e) && At(s, offset, NextBytes(e, rest))
    ensures next == offset + |NextBytes(e, rest)| && distance == 1 + |NextBytes(e, rest)| + rest
  {
    NextRead(s, offset, e, rest);
    distance, next := UnpackValueFromIndex(s, s.codes[offset], offset + 1, e, 1 + |NextBytes(e, rest)| + rest);
  }

  /** A big header was chosen because the small distance was no inline value; so the big one is none either. */
  lemma NextRead(s: NativeMethodScopes, offset: nat, e: Env, rest: nat)
    requires At(s, offset, NextBytes(e, rest))
    ensures var v := 1 + |NextBytes(e, rest)| + rest;
      && offset < |s.codes| && KnownValue(e, v) && IndexRead(s, s.codes[offset], offset + 1, ValueIndex(e, v))
      && (s.codes[offset] == EXTENDED_INDEX ==> !(0 <= v <= MAX_INLINE_VALUE))
      && AfterIndex(s.codes[offset], offset + 1) == offset + |NextBytes(e, rest)|
  {
    hide HalfBytes, IndexOf;
    AtFirst(s, offset, NextBytes(e, rest));
    assert [MISSING] + [] == [MISSING];
    NeverMissing(s, offset, []);
    if ValueIndex(e, rest + 2) >= EXTENDED_INDEX {
      AtSplit(s, offset, [EXTENDED_INDEX], HalfBytes(ValueIndex(e, rest + 4)));
    }
  }

  lemma FixedParts(s: NativeMethodScopes, offset: nat, e: Env, n: ScopeNode, at: int, sender: int)
    requires At(s, offset, FixedBytes(e, n, at, sender))
    ensures var a, b, c := SenderBytes(e, n, at, sender), OopBytes(e, n.methodOop), ValueBytes(e, n.scopeId);
      && At(s, offset, a) && At(s, offset + |a|, b) && At(s, offset + |a| + |b|, c)
      && At(s, offset + |a| + |b| + |c|, KindBytes(e, n, at))
      && |FixedBytes(e, n, at, sender)| == |a| + |b| + |c| + |KindBytes(e, n, at)|
  {
    hide SenderBytes, OopBytes, ValueBytes, KindBytes, At;
    var a, b, c, k := SenderBytes(e, n, at, sender), OopBytes(e, n.methodOop), ValueBytes(e, n.scopeId),
      KindBytes(e, n, at);
    AtSplit(s, offset, a + b + c, k);
    AtSplit(s, offset, a + b, c);
    AtSplit(s, offset, a, b);
  }

  method UnpackSender(s: NativeMethodScopes, offset: nat, at: nat, ghost e: Env, ghost n: ScopeNode, ghost sender: int)
    returns (senderOffset: int, byteCode: int, next: nat)
    requires Backed(s, e) && At(s, offset, SenderBytes(e, n, at, sender))
    ensures next == offset + |SenderBytes(e, n, at, sender)|
    ensures senderOffset == (if at == 0 then 0 else at - sender)
    ensures byteCode == if at == 0 then ILLEGAL_BYTE_CODE else Short(n.senderByteCode)
  {
    hide ValueBytes, At;
    if at == 0 {
      senderOffset, byteCode, next := 0, ILLEGAL_BYTE_CODE, offset;
    } else {
      AtSplit(s, offset, ValueBytes(e, at - sender), ValueBytes(e, n.senderByteCode));
      var b;
      senderOffset, next := UnpackValueAt(s, offset, e, at - sender);
      b, next := UnpackValueAt(s, next, e, n.senderByteCode);
      byteCode := Short(b);
    }
  }

  method UnpackKind(s: NativeMethodScopes, offset: nat, at: nat, code: nat, pc: int, ghost e: Env, ghost n: ScopeNode)
    returns (klass: int, selector: int, selfName: Option<NameDescriptor>, parent: int, next: nat)
    requires Backed(s, e) && At(s, offset, KindBytes(e, n, at)) && code == Code(n.kind)
    ensures next == offset + |KindBytes(e, n, at)|
    ensures n.kind.MethodScope? ==>
      klass == n.kind.klass && selector == n.kind.selector && selfName == Some(Describe(e, NameAt(n.kind.receiver, pc)))
    ensures n.kind.BlockScope? ==> n.kind.parent in e.offsets && parent == at - e.offsets[n.kind.parent]
    ensures n.kind.TopLevelBlockScope? ==>
      klass == n.kind.receiverKlass && selfName == Some(Describe(e, NameAt(n.kind.receiver, pc)))
  {
    hide ValueBytes, OopBytes, AddressBytes, At, Describe, NameAt;
    klass, selector, selfName, parent := 0, 0, None, 0;
    match code {
      case 0 =>
        var k, t, r := OopBytes(e, n.kind.klass), OopBytes(e, n.kind.selector), AddressBytes(e, n.kind.receiver);
        AtSplit(s, offset, k + t, r);
        AtSplit(s, offset, k, t);
        klass, next := UnpackOopAt(s, offset, e, n.kind.klass);
        selector, next := UnpackOopAt(s, next, e, n.kind.selector);
        selfName, next := UnpackNameDescAt(s, next, pc, e, Some(n.kind.receiver));
      case 1 =>
        ghost var q := n.kind.parent;
        if q !in e.offsets {
          assert [MISSING] + [] == [MISSING];
          NeverMissing(s, offset, []);
        }
        parent, next := UnpackValueAt(s, offset, e, at - e.offsets[q]);
      case _ =>
        AtSplit(s, offset, AddressBytes(e, n.kind.receiver), OopBytes(e, n.kind.receiverKlass));
        selfName, next := UnpackNameDescAt(s, offset, pc, e, Some(n.kind.receiver));
        klass, next := UnpackOopAt(s, next, e, n.kind.receiverKlass);
    }
  }

  /** `at`: the scope at an offset, whichever header was chosen for it; nothing where there is a block
      that was not inlined. */
  method ScopeAt(s: NativeMethodScopes, offset: nat, pc: int, ghost e: Env, ghost p: Option<Placed>)
    returns (d: Option<ScopeDescriptor>)
    requires Backed(s, e) && ScopeOrBlock(s, offset, e, p)
    ensures p.Some? ==> d.Some? && Shows(d.value, e, p.value, pc)
    ensures p == None ==> d == None
  {
    hide At, ScopeBytes, HasBit, PackHeader, Backed, Shows, Describe;
    if p.Some? {
      CodeRead(s, e, p.value);
    }
    if s.codes[offset] % 4 == NON_INLINED_BLOCK_CODE {
      return None;
    }
    var scope := InlinedScopeAt(s, offset, pc, e, p.value);
    d := Some(scope);
  }

  ghost predicate ScopeOrBlock(s: NativeMethodScopes, offset: nat, e: Env, p: Option<Placed>) {
    match p
    case Some(q) => offset == q.at && At(s, q.at, ScopeBytes(e, q.node, q.at, q.sender))
    case None => offset < |s.codes| && s.codes[offset] == NON_INLINED_BLOCK_CODE
  }

  lemma CodeRead(s: NativeMethodScopes, e: Env, p: Placed)
    requires p.at >= 0 && At(s, p.at, ScopeBytes(e, p.node, p.at, p.sender))
    ensures p.at < |s.codes| && s.codes[p.at] % 4 == Code(p.node.kind) < NON_INLINED_BLOCK_CODE
  {
    var n := p.node;
    ScopeParts(s, e, p);
    HeaderUnpacks(Code(n.kind), n.lite, n.HasArgs(), n.HasTemps(), n.HasContextTemps(), n.HasExprStack(), n.context);
  }

  method InlinedScopeAt(s: NativeMethodScopes, offset: nat, pc: int, ghost e: Env, ghost p: Placed)
    returns (d: ScopeDescriptor)
    requires Backed(s, e) && offset == p.at && At(s, p.at, ScopeBytes(e, p.node, p.at, p.sender))
    ensures Shows(d, e, p, pc)
  {
    hide At, ScopeBytes, FixedBytes, NameListBytes, NextBytes, SenderBytes, KindBytes, OopBytes, ValueBytes, HasBit,
      PackHeader, Backed, Describe, NameAt;
    ghost var n := p.node;
    ScopeParts(s, e, p);
    HeaderUnpacks(Code(n.kind), n.lite, n.HasArgs(), n.HasTemps(), n.HasContextTemps(), n.HasExprStack(), n.context);
    var b := s.codes[offset];
    var position := offset + 1;
    var next := -1;
    if HasBit(b, 8) || HasBit(b, 16) || HasBit(b, 32) || HasBit(b, 64) {
      next, position := UnpackNext(s, position, e, |FixedBytes(e, n, p.at, p.sender)| + |NameListBytes(e, n)|);
      next := next + offset;
    }
    FixedParts(s, position, e, n, p.at, p.sender);
    var senderOffset, byteCode, methodOop, scopeId, klass, selector, selfName, parent;
    senderOffset, byteCode, position := UnpackSender(s, position, offset, e, n, p.sender);
    methodOop, position := UnpackOopAt(s, position, e, n.methodOop);
    scopeId, position := UnpackValueAt(s, position, e, n.scopeId);
    klass, selector, selfName, parent, position := UnpackKind(s, position, offset, b % 4, pc, e, n);
    if next == -1 {
      next := position;
      NoLists(e, n);
    }
    d := ScopeDescriptor(offset, b % 4, HasBit(b, 4), HasBit(b, 16), HasBit(b, 32), HasBit(b, 64),
                         methodOop, scopeId, HasBit(b, 128), senderOffset, byteCode,
                         klass, selector, selfName, parent, position, next);
  }

  lemma NoLists(e: Env, n: ScopeNode)
    ensures !n.HasNames() ==> NameListBytes(e, n) == []
  {}

  // ---- all scopes ---------------------------------------------------------------------------------------------------

  function Aligned(offset: int): int {
    offset + (4 - offset % 4) % 4
  }

  /** The scopes follow one another from `at` to `end`, each where it says it is. */
  ghost predicate Consecutive(s: NativeMethodScopes, e: Env, ps: seq<Placed>, at: int, end: int)
    requires ps != []
  {
    && ps[0].at == at && ps[|ps| - 1].at + |ScopeOf(e, ps, |ps| - 1)| == end
    && (forall i :: 0 <= i < |ps| ==> ps[i].at >= 0 && At(s, ps[i].at, ScopeOf(e, ps, i)))
    && (forall i :: 0 < i < |ps| ==> ps[i].at == ps[i - 1].at + |ScopeOf(e, ps, i - 1)|)
  }

  function ScopeOf(e: Env, ps: seq<Placed>, i: nat): (b: seq<int>)
    requires i < |ps|
    ensures |b| > 0
  {
    ScopeBytes(e, ps[i].node, ps[i].at, ps[i].sender)
  }

  /** Where the scopes of a tree are. */
  ghost predicate InPlace(e: Env, ps: seq<Placed>, at: int) {
    ps == [] || (ps[0].at == at && InPlace(e, ps[1..], at + |ScopeBytes(e, ps[0].node, ps[0].at, ps[0].sender)|))
  }

  lemma {:induction false} LaidInPlace(e: Env, n: ScopeNode, at: int, sender: int)
    ensures InPlace(e, Laid(e, n, at, sender), at)
    decreases n, 1
  {
    hide ScopeBytes, LaidAll;
    var l := Laid(e, n, at, sender);
    LaidAllInPlace(e, n, n.nested, at + |ScopeBytes(e, n, at, sender)|, at);
    assert l[1..] == LaidAll(e, n, n.nested, at + |ScopeBytes(e, n, at, sender)|, at);
  }

  lemma {:induction false} LaidAllInPlace(e: Env, parent: ScopeNode, ns: seq<ScopeNode>, at: int, sender: int)
    requires forall i :: 0 <= i < |ns| ==> ns[i] < parent
    ensures InPlace(e, LaidAll(e, parent, ns, at, sender), at)
    decreases parent, 0, |ns|
  {
    hide ScopeBytes, InPlace, Laid, Flat;
    if ns == [] {
      NothingInPlace(e, at);
    } else {
      if ns[0].visible {
        var first := Laid(e, ns[0], at, sender);
        LaidInPlace(e, ns[0], at, sender);
        LaidAllInPlace(e, parent, ns[1..], at + |Flat(e, first)|, sender);
        InPlaceConcat(e, first, LaidAll(e, parent, ns[1..], at + |Flat(e, first)|, sender), at);
      } else {
        LaidAllInPlace(e, parent, ns[1..], at, sender);
      }
    }
  }

  lemma NothingInPlace(e: Env, at: int)
    ensures InPlace(e, [], at)
  {}

  lemma {:induction false} InPlaceConcat(e: Env, a: seq<Placed>, b: seq<Placed>, at: int)
    requires InPlace(e, a, at) && InPlace(e, b, at + |Flat(e, a)|)
    ensures InPlace(e, a + b, at)
    decreases |a|
  {
    hide ScopeBytes;
    if a == [] {
      assert a + b == b;
    } else {
      assert (a + b)[1..] == a[1..] + b;
      InPlaceConcat(e, a[1..], b, at + |ScopeBytes(e, a[0].node, a[0].at, a[0].sender)|);
    }
  }

  lemma {:induction false} PlacesConsecutive(s: NativeMethodScopes, e: Env, ps: seq<Placed>, at: nat)
    requires ps != [] && InPlace(e, ps, at) && At(s, at, Flat(e, ps))
    ensures Consecutive(s, e, ps, at, at + |Flat(e, ps)|)
    decreases |ps|
  {
    hide ScopeBytes, At;
    var b, rest := ScopeBytes(e, ps[0].node, ps[0].at, ps[0].sender), ps[1..];
    AtSplit(s, at, b, Flat(e, rest));
    if rest == [] {
      assert Flat(e, rest) == [];
    } else {
      PlacesConsecutive(s, e, rest, at + |b|);
      forall i | 0 < i < |ps|
        ensures ps[i].at >= 0 && At(s, ps[i].at, ScopeOf(e, ps, i))
        ensures ps[i].at == ps[i - 1].at + |ScopeOf(e, ps, i - 1)|
      {
        assert ps[i] == rest[i - 1] && ScopeOf(e, ps, i) == ScopeOf(e, rest, i - 1);
        if i > 1 { assert ps[i - 1] == rest[i - 2] && ScopeOf(e, ps, i - 1) == ScopeOf(e, rest, i - 2); }
      }
      assert ScopeOf(e, ps, |ps| - 1) == ScopeOf(e, rest, |rest| - 1) && ps[|ps| - 1] == rest[|rest| - 1];
    }
  }

  /** A scope that is not the first takes up more than a word. */
  lemma ScopeLength(e: Env, p: Placed)
    requires p.at != 0
    ensures |ScopeBytes(e, p.node, p.at, p.sender)| >= 5
  {
    hide ValueBytes, OopBytes, NameListBytes, NextBytes, HeaderByte, KindBytes;
    var n := p.node;
    assert |SenderBytes(e, n, p.at, p.sender)| >= 2;
    assert |FixedBytes(e, n, p.at, p.sender)| >= 4;
  }

  /** What is at the offset that a scope gives for its successor. */
  ghost predicate SuccessorAt(s: NativeMethodScopes, e: Env, ps: seq<Placed>, i: nat, offset: nat) {
    if i < |ps| then offset == ps[i].at && At(s, offset, ScopeOf(e, ps, i)) && Aligned(offset) < |s.codes|
    else Aligned(offset) >= |s.codes| || (offset < |s.codes| && s.codes[offset] == NON_INLINED_BLOCK_CODE)
  }

  lemma SuccessorIs(s: NativeMethodScopes, e: Env, ps: seq<Placed>, at: nat, end: nat, i: nat)
    requires ps != [] && Consecutive(s, e, ps, at, end) && 0 < i <= |ps| && |s.codes| % 4 == 0
    requires end <= |s.codes| && (|s.codes| - end < 4 || s.codes[end] == NON_INLINED_BLOCK_CODE)
    ensures ps[i - 1].at + |ScopeOf(e, ps, i - 1)| >= 0
    ensures SuccessorAt(s, e, ps, i, ps[i - 1].at + |ScopeOf(e, ps, i - 1)|)
  {
    hide ScopeBytes, At;
    assert ps[i - 1].at >= 0;
    if i < |ps| {
      assert ps[i].at == ps[i - 1].at + |ScopeOf(e, ps, i - 1)|;
      ScopeLength(e, ps[i]);
      InsideCodes(s, ps[i].at, ScopeOf(e, ps, i));
    }
  }

  lemma InsideCodes(s: NativeMethodScopes, offset: nat, bytes: seq<int>)
    requires At(s, offset, bytes)
    ensures offset + |bytes| <= |s.codes|
  {}

  /** `getNext`: the root, or the scope after the given one, or nothing at the end. */
  method GetNext(s: NativeMethodScopes, d: Option<ScopeDescriptor>, pc: int, ghost e: Env, ghost ps: seq<Placed>,
                 ghost i: nat)
    returns (r: Option<ScopeDescriptor>)
    requires d.Some? ==> d.value.next >= 0
    requires Backed(s, e) && (d == None ==> i == 0) && SuccessorAt(s, e, ps, i, if d == None then 0 else d.value.next)
    requires d == None ==> ps != []
    ensures i < |ps| ==> r.Some? && Shows(r.value, e, ps[i], pc)
    ensures i >= |ps| ==> r == None
  {
    hide At, Shows, Backed, ScopeBytes;
    if d == None {
      r := ScopeAt(s, 0, pc, e, Some(ps[0]));
    } else {
      var offset := d.value.next;
      if Aligned(offset) >= |s.codes| {
        return None;
      }
      r := ScopeAt(s, offset, pc, e, if i < |ps| then Some(ps[i]) else None);
    }
  }

  /** All scopes, as a loop over them sees them. */
  method AllScopes(s: NativeMethodScopes, pc: int, ghost e: Env, ghost ps: seq<Placed>, ghost end: nat)
    returns (ds: seq<ScopeDescriptor>)
    requires Backed(s, e) && ps != [] && Consecutive(s, e, ps, 0, end) && |s.codes| % 4 == 0
    requires end <= |s.codes| && (|s.codes| - end < 4 || s.codes[end] == NON_INLINED_BLOCK_CODE)
    ensures |ds| == |ps| && forall i :: 0 <= i < |ps| ==> Shows(ds[i], e, ps[i], pc)
  {
    hide At, Backed, ScopeBytes, SuccessorAt, Shows, Consecutive, ScopeOf;
    ds := [];
    RootAt(s, e, ps, end);
    var d := GetNext(s, None, pc, e, ps, 0);
    while d != None
      invariant |ds| <= |ps| && (d == None <==> |ds| == |ps|) && (d.Some? ==> Shows(d.value, e, ps[|ds|], pc))
      invariant forall i :: 0 <= i < |ds| ==> Shows(ds[i], e, ps[i], pc)
      decreases |ps| - |ds|
    {
      NextShown(s, e, ps, end, |ds|, d.value, pc);
      ds := ds + [d.value];
      d := GetNext(s, d, pc, e, ps, |ds|);
    }
  }

  lemma NextShown(s: NativeMethodScopes, e: Env, ps: seq<Placed>, end: nat, i: nat, d: ScopeDescriptor, pc: int)
    requires ps != [] && Consecutive(s, e, ps, 0, end) && |s.codes| % 4 == 0 && i < |ps| && Shows(d, e, ps[i], pc)
    requires end <= |s.codes| && (|s.codes| - end < 4 || s.codes[end] == NON_INLINED_BLOCK_CODE)
    ensures d.next >= 0 && SuccessorAt(s, e, ps, i + 1, d.next)
  {
    hide ScopeBytes, At, Consecutive, ShowsKind, SuccessorAt, NameListBytes;
    SuccessorIs(s, e, ps, 0, end, i + 1);
  }

  lemma RootAt(s: NativeMethodScopes, e: Env, ps: seq<Placed>, end: nat)
    requires ps != [] && Consecutive(s, e, ps, 0, end) && |s.codes| % 4 == 0
    ensures SuccessorAt(s, e, ps, 0, 0)
  {
    assert At(s, 0, ScopeOf(e, ps, 0));
  }
}
