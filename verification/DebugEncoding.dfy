/** The encoding of debugging information: scopes and the names in them as bytes, with large values and
    objects kept in two tables on the side. */
module DebugEncoding {
  import opened Basics
  import opened Division

  const EXTENDED_INDEX: Byte := 0xff
  const MAX_INLINE_VALUE := 0x7f

  /** The tables, and the offsets that scopes have been given. */
  datatype Env = Env(oops: seq<int>, values: seq<int>, offsets: map<nat, int>)

  ghost predicate Extends(e: Env, f: Env) {
    && e.oops <= f.oops && e.values <= f.values
    && forall id :: id in e.offsets ==> id in f.offsets && f.offsets[id] == e.offsets[id]
  }

  lemma ExtendsThrough(e: Env, f: Env, g: Env)
    requires Extends(e, f) && Extends(f, g)
    ensures Extends(e, g)
  {
    forall i | 0 <= i < |e.oops| ensures e.oops[i] == g.oops[i] { assert e.oops[i] == f.oops[i]; }
    forall i | 0 <= i < |e.values| ensures e.values[i] == g.values[i] { assert e.values[i] == f.values[i]; }
  }

  /** Stands for something that is in no table; it is no byte, so it is never written. */
  const MISSING := -1

  // ---- tables ----------------------------------------------------------------------------------------------

  function IndexOf(s: seq<int>, v: int): (i: nat)
    ensures i <= |s| && (i < |s| ==> s[i] == v) && (i == |s| <==> v !in s)
  {
    if s == [] || s[0] == v then 0 else 1 + IndexOf(s[1..], v)
  }

  lemma {:induction false} IndexKept(s: seq<int>, t: seq<int>, v: int)
    requires s <= t && v in s
    ensures IndexOf(t, v) == IndexOf(s, v)
    decreases |s|
  {
    assert t[0] == s[0];
    if s[0] != v {
      assert s[1..] <= t[1..];
      IndexKept(s[1..], t[1..], v);
    }
  }

  lemma {:induction false} IndexIs(s: seq<int>, v: int, i: nat)
    requires i <= |s| && (forall k :: 0 <= k < i ==> s[k] != v) && (i < |s| ==> s[i] == v)
    ensures IndexOf(s, v) == i
    decreases |s|
  {
    if i > 0 {
      assert s[0] != v;
      IndexIs(s[1..], v, i - 1);
    }
  }

  // ---- indices, values and objects ----------------------------------------------------------------------------

  /** A 16-bit number, high byte first. */
  function HalfBytes(i: int): (s: seq<Byte>)
    ensures |s| == 2
  {
    [i / 0x100 % 0x100, i % 0x100]
  }

  /** Two bytes as a signed 16-bit number. */
  function HalfOf(high: Byte, low: Byte): int {
    var u := high * 0x100 + low;
    if u >= 0x8000 then u - 0x10000 else u
  }

  /** An index comes back if and only if it fits into 15 bits. */
  lemma HalfReads(i: nat)
    ensures HalfOf(HalfBytes(i)[0], HalfBytes(i)[1]) == i <==> i < 0x8000
  {
    var q := i / 0x100;
    assert i == q * 0x100 + i % 0x100;
  }

  function IndexBytes(i: nat): (s: seq<Byte>)
    ensures |s| > 0
  {
    if i < EXTENDED_INDEX then [i] else [EXTENDED_INDEX] + HalfBytes(i)
  }

  function ValueIndex(e: Env, v: int): nat {
    if 0 <= v <= MAX_INLINE_VALUE then v else MAX_INLINE_VALUE + 1 + IndexOf(e.values, v)
  }

  function OopIndex(e: Env, o: int): nat {
    if o == 0 then 0 else IndexOf(e.oops, o) + 1
  }

  predicate KnownValue(e: Env, v: int) {
    0 <= v <= MAX_INLINE_VALUE || v in e.values
  }

  predicate KnownOop(e: Env, o: int) {
    o == 0 || o in e.oops
  }

  function ValueBytes(e: Env, v: int): (s: seq<int>)
    ensures |s| > 0
  {
    if KnownValue(e, v) then IndexBytes(ValueIndex(e, v)) else [MISSING]
  }

  function OopBytes(e: Env, o: int): (s: seq<int>)
    ensures |s| > 0
  {
    if KnownOop(e, o) then IndexBytes(OopIndex(e, o)) else [MISSING]
  }

  // ---- names ----------------------------------------------------------------------------------------------------

  /** Where a name of the source is to be found. Blocks that exist only as code name the scope they are in. */
  datatype Name =
    | IllegalName
    | LocationName(location: int)
    | ValueName(oop: int)
    | BlockValueName(blockMethod: int, parentScope: Option<nat>)
    | MemoizedName(location: int, blockMethod: int, parentScope: Option<nat>)

  const LOCATION_CODE := 0
  const VALUE_CODE := 1
  const BLOCKVALUE_CODE := 2
  const MEMOIZEDBLOCK_CODE := 3

  const MAX_INDEX := 28
  const NO_INDEX := 29
  const TERMINATION_INDEX := 30
  const ILLEGAL_INDEX := 31

  function NameHeader(code: nat, last: bool, index: nat): (b: Byte)
    requires code < 4 && index < 32
    ensures b % 4 == code && b / 4 % 32 == index && (b >= 0x80 <==> last)
  {
    index * 4 + code + if last then 0x80 else 0
  }

  const TERMINATION: Byte := 248

  lemma TerminationIs()
    ensures TERMINATION == NameHeader(0, true, TERMINATION_INDEX)
  {}

  /** The header byte holds a small index itself. */
  function IndexedBytes(code: nat, last: bool, index: nat): (s: seq<Byte>)
    requires code < 4
    ensures |s| > 0
  {
    if index <= MAX_INDEX then [NameHeader(code, last, index)]
      else [NameHeader(code, last, NO_INDEX)] + IndexBytes(index)
  }

  function ScopeOffsetBytes(e: Env, scope: Option<nat>): (s: seq<int>)
    ensures |s| > 0
  {
    match scope
    case None => ValueBytes(e, 0)
    case Some(id) => if id in e.offsets then ValueBytes(e, e.offsets[id]) else [MISSING]
  }

  function NameBytes(e: Env, n: Name, last: bool): (s: seq<int>)
    ensures |s| > 0
  {
    match n
    case IllegalName => [NameHeader(0, last, ILLEGAL_INDEX)]
    case LocationName(l) => if KnownValue(e, l) then IndexedBytes(LOCATION_CODE, last, ValueIndex(e, l)) else [MISSING]
    case ValueName(o) => if KnownOop(e, o) then IndexedBytes(VALUE_CODE, last, OopIndex(e, o)) else [MISSING]
    case BlockValueName(m, p) =>
      (if KnownOop(e, m) then IndexedBytes(BLOCKVALUE_CODE, last, OopIndex(e, m)) else [MISSING])
        + ScopeOffsetBytes(e, p)
    case MemoizedName(l, m, p) =>
      (if KnownValue(e, l) then IndexedBytes(MEMOIZEDBLOCK_CODE, last, ValueIndex(e, l)) else [MISSING])
        + OopBytes(e, m) + ScopeOffsetBytes(e, p)
  }

  // ---- names that depend on the position in the code --------------------------------------------------------------

  datatype Physical = Physical(name: Name, pc: int)

  /** The names of one source entity, each valid from its position on until the next; the first one from
      the beginning. */
  type Address = a: seq<Physical> | a != [] && forall i :: 0 < i < |a| - 1 ==> a[i].pc <= a[i + 1].pc
    witness [Physical(IllegalName, 0)]

  function RestBytes(e: Env, a: Address, k: nat, lastPc: int): seq<int>
    requires 0 < k <= |a|
    decreases |a| - k
  {
    if k == |a| then []
    else NameBytes(e, a[k].name, k == |a| - 1) + ValueBytes(e, a[k].pc - lastPc) + RestBytes(e, a, k + 1, a[k].pc)
  }

  function AddressBytes(e: Env, a: Address): (s: seq<int>)
    ensures |s| > 0
  {
    NameBytes(e, a[0].name, |a| == 1) + RestBytes(e, a, 1, 0)
  }

  function SolidBytes(e: Env, list: seq<Address>, k: nat): seq<int>
    requires k <= |list|
    decreases |list| - k
  {
    if k == |list| then [TERMINATION] else AddressBytes(e, list[k]) + SolidBytes(e, list, k + 1)
  }

  function SparseBytes(e: Env, list: seq<Option<Address>>, k: nat): seq<int>
    requires k <= |list|
    decreases |list| - k
  {
    if k == |list| then [TERMINATION]
    else (if list[k].Some? then AddressBytes(e, list[k].value) + ValueBytes(e, k) else []) + SparseBytes(e, list, k + 1)
  }

  // ---- scopes -----------------------------------------------------------------------------------------------------

  datatype Kind =
    | MethodScope(klass: int, selector: int, receiver: Address)
    | BlockScope(parent: nat)
    | TopLevelBlockScope(receiver: Address, receiverKlass: int)

  datatype ScopeNode = ScopeNode(
    id: nat, kind: Kind, methodOop: int, context: bool, scopeId: int, lite: bool, senderByteCode: int, visible: bool,
    args: seq<Address>, temps: seq<Address>, contextTemps: seq<Address>, exprStack: seq<Option<Address>>,
    nested: seq<ScopeNode>)
  {
    predicate HasArgs() { !lite && args != [] }
    predicate HasTemps() { !lite && temps != [] }
    predicate HasContextTemps() { !lite && contextTemps != [] }
    predicate HasExprStack() { !lite && exprStack != [] }
    predicate HasNames() { HasArgs() || HasTemps() || HasContextTemps() || HasExprStack() }
  }

  const METHOD_CODE := 0
  const BLOCK_CODE := 1
  const TOP_LEVEL_BLOCK_CODE := 2
  const NON_INLINED_BLOCK_CODE := 3

  function Code(k: Kind): nat {
    match k
    case MethodScope(_, _, _) => METHOD_CODE
    case BlockScope(_) => BLOCK_CODE
    case TopLevelBlockScope(_, _) => TOP_LEVEL_BLOCK_CODE
  }

  function Bit(b: bool, weight: nat): nat { if b then weight else 0 }

  predicate HasBit(b: Byte, weight: nat)
    requires weight > 0
  {
    b / weight % 2 == 1
  }

  function PackHeader(code: nat, lite: bool, args: bool, temps: bool, contextTemps: bool, exprStack: bool,
                      context: bool): (b: Byte)
    requires code < 4
  {
    code + Bit(lite, 4) + Bit(args, 8) + Bit(temps, 16) + Bit(contextTemps, 32) + Bit(exprStack, 64) + Bit(context, 128)
  }

  lemma BitIs(b: Byte, low: nat, weight: nat, bit: bool, high: nat)
    requires weight > 0 && low < weight && b == (Bit(bit, 1) + 2 * high) * weight + low
    ensures HasBit(b, weight) <==> bit
  {
    DivisionIs(b, Bit(bit, 1) + 2 * high, low, weight);
  }

  lemma HeaderSum(code: nat, lite: bool, args: bool, temps: bool, contextTemps: bool, exprStack: bool, context: bool)
    requires code < 4
    ensures PackHeader(code, lite, args, temps, contextTemps, exprStack, context)
      == code + 4 * Bit(lite, 1) + 8 * Bit(args, 1) + 16 * Bit(temps, 1) + 32 * Bit(contextTemps, 1)
        + 64 * Bit(exprStack, 1) + 128 * Bit(context, 1)
  {}

  lemma LowBits(b: Byte, code: nat, rest: nat)
    requires code < 4 && b == code + 4 * rest
    ensures b % 4 == code
  {
    DivisionIs(b, rest, code, 4);
  }

  /** Every part of a header byte can be read back. */
  lemma HeaderUnpacks(code: nat, lite: bool, args: bool, temps: bool, contextTemps: bool, exprStack: bool,
                      context: bool)
    requires code < 4
    ensures var b := PackHeader(code, lite, args, temps, contextTemps, exprStack, context);
      && b % 4 == code && (HasBit(b, 4) <==> lite) && (HasBit(b, 8) <==> args) && (HasBit(b, 16) <==> temps)
      && (HasBit(b, 32) <==> contextTemps) && (HasBit(b, 64) <==> exprStack) && (HasBit(b, 128) <==> context)
  {
    hide HasBit, PackHeader;
    HeaderSum(code, lite, args, temps, contextTemps, exprStack, context);
    var b := PackHeader(code, lite, args, temps, contextTemps, exprStack, context);
    var b0, b1, b2, b3, b4, b5 := Bit(lite, 1), Bit(args, 1), Bit(temps, 1), Bit(contextTemps, 1), Bit(exprStack, 1),
      Bit(context, 1);
    LowBits(b, code, b0 + 2 * b1 + 4 * b2 + 8 * b3 + 16 * b4 + 32 * b5);
    BitIs(b, code, 4, lite, b1 + 2 * b2 + 4 * b3 + 8 * b4 + 16 * b5);
    BitIs(b, code + 4 * b0, 8, args, b2 + 2 * b3 + 4 * b4 + 8 * b5);
    BitIs(b, code + 4 * b0 + 8 * b1, 16, temps, b3 + 2 * b4 + 4 * b5);
    BitIs(b, code + 4 * b0 + 8 * b1 + 16 * b2, 32, contextTemps, b4 + 2 * b5);
    BitIs(b, code + 4 * b0 + 8 * b1 + 16 * b2 + 32 * b3, 64, exprStack, b5);
    BitIs(b, b - 128 * b5, 128, context, 0);
  }

  function HeaderByte(n: ScopeNode): Byte {
    PackHeader(Code(n.kind), n.lite, n.HasArgs(), n.HasTemps(), n.HasContextTemps(), n.HasExprStack(), n.context)
  }

  function KindBytes(e: Env, n: ScopeNode, at: int): seq<int> {
    match n.kind
    case MethodScope(k, s, r) => OopBytes(e, k) + OopBytes(e, s) + AddressBytes(e, r)
    case BlockScope(p) => if p in e.offsets then ValueBytes(e, at - e.offsets[p]) else [MISSING]
    case TopLevelBlockScope(r, k) => AddressBytes(e, r) + OopBytes(e, k)
  }

  function SenderBytes(e: Env, n: ScopeNode, at: int, sender: int): seq<int> {
    if at != 0 then ValueBytes(e, at - sender) + ValueBytes(e, n.senderByteCode) else []
  }

  /** The part of a scope that follows its header. */
  function FixedBytes(e: Env, n: ScopeNode, at: int, sender: int): seq<int> {
    SenderBytes(e, n, at, sender) + OopBytes(e, n.methodOop) + ValueBytes(e, n.scopeId) + KindBytes(e, n, at)
  }

  function NameListBytes(e: Env, n: ScopeNode): seq<int> {
    (if n.HasArgs() then SolidBytes(e, n.args, 0) else [])
      + (if n.HasTemps() then SolidBytes(e, n.temps, 0) else [])
      + (if n.HasContextTemps() then SolidBytes(e, n.contextTemps, 0) else [])
      + (if n.HasExprStack() then SparseBytes(e, n.exprStack, 0) else [])
  }

  /** How far the next scope is, in a small header or a big one: the big one is chosen just when the
      index of the small distance does not fit into its byte. */
  function NextBytes(e: Env, rest: nat): (s: seq<int>)
    ensures |s| == 1 || |s| == 3
  {
    if !KnownValue(e, rest + 2) then [MISSING]
    else if ValueIndex(e, rest + 2) < EXTENDED_INDEX then [ValueIndex(e, rest + 2)]
    else if !KnownValue(e, rest + 4) then [MISSING]
    else [EXTENDED_INDEX] + HalfBytes(ValueIndex(e, rest + 4))
  }

  /** A scope, not counting those nested in it. */
  function ScopeBytes(e: Env, n: ScopeNode, at: int, sender: int): (s: seq<int>)
    ensures |s| > 0
  {
    var rest := FixedBytes(e, n, at, sender) + NameListBytes(e, n);
    [HeaderByte(n)] + (if n.HasNames() then NextBytes(e, |rest|) else []) + rest
  }

  // ---- the tree -----------------------------------------------------------------------------------------------------

  datatype Placed = Placed(node: ScopeNode, at: int, sender: int)

  /** The visible scopes of a tree in preorder, with their places. */
  function Laid(e: Env, n: ScopeNode, at: int, sender: int): (s: seq<Placed>)
    ensures |s| > 0 && s[0] == Placed(n, at, sender)
    decreases n, 1
  {
    [Placed(n, at, sender)] + LaidAll(e, n, n.nested, at + |ScopeBytes(e, n, at, sender)|, at)
  }

  function LaidAll(e: Env, ghost parent: ScopeNode, ns: seq<ScopeNode>, at: int, sender: int): seq<Placed>
    requires forall i :: 0 <= i < |ns| ==> ns[i] < parent
    decreases parent, 0, |ns|
  {
    if ns == [] then []
    else if !ns[0].visible then LaidAll(e, parent, ns[1..], at, sender)
    else
      var first := Laid(e, ns[0], at, sender);
      first + LaidAll(e, parent, ns[1..], at + |Flat(e, first)|, sender)
  }

  function Flat(e: Env, ps: seq<Placed>): seq<int> {
    if ps == [] then [] else ScopeBytes(e, ps[0].node, ps[0].at, ps[0].sender) + Flat(e, ps[1..])
  }

  lemma {:induction false} FlatConcat(e: Env, a: seq<Placed>, b: seq<Placed>)
    ensures Flat(e, a + b) == Flat(e, a) + Flat(e, b)
    decreases |a|
  {
    hide ScopeBytes;
    if a == [] {
      assert a + b == b;
    } else {
      assert (a + b)[1..] == a[1..] + b;
      FlatConcat(e, a[1..], b);
    }
  }

  // ---- blocks that were not inlined -----------------------------------------------------------------------------

  datatype NonInlinedBlock = NonInlinedBlock(methodOop: int, parent: nat)

  function NonInlinedBytes(e: Env, b: NonInlinedBlock, at: int): seq<int> {
    [NON_INLINED_BLOCK_CODE] + OopBytes(e, b.methodOop)
      + if b.parent in e.offsets then ValueBytes(e, at - e.offsets[b.parent]) else [MISSING]
  }

  /** The block has been written at an offset. */
  ghost predicate BlockAt(codes: seq<int>, e: Env, b: NonInlinedBlock, at: nat) {
    && at + |NonInlinedBytes(e, b, at)| <= |codes|
    && codes[at..at + |NonInlinedBytes(e, b, at)|] == NonInlinedBytes(e, b, at)
  }
}
