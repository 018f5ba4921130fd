/** The recorder that writes the encoding: it appends to the byte array, fills the tables as it goes,
    and patches scope headers once it knows how long the scope has become. */
module DebugRecorder {
  import opened Basics
  import opened DebugEncoding

  lemma ValueIndexKept(e: Env, f: Env, v: int)
    requires Extends(e, f) && KnownValue(e, v)
    ensures KnownValue(f, v) && ValueIndex(f, v) == ValueIndex(e, v)
  {
    if v in e.values {
      IndexKept(e.values, f.values, v);
      assert f.values[IndexOf(e.values, v)] == v;
    }
  }

  lemma OopIndexKept(e: Env, f: Env, o: int)
    requires Extends(e, f) && KnownOop(e, o)
    ensures KnownOop(f, o) && OopIndex(f, o) == OopIndex(e, o)
  {
    if o in e.oops {
      IndexKept(e.oops, f.oops, o);
      assert f.oops[IndexOf(e.oops, o)] == o;
    }
  }

  /** `insertIfAbsent`: the index of the value, which is added if it is not there. */
  method InsertIfAbsent(s: seq<int>, v: int) returns (t: seq<int>, i: nat)
    ensures s <= t && v in t && i == IndexOf(t, v) && t == if v in s then s else s + [v]
  {
    t, i := s, 0;
    while i < |s|
      invariant i <= |s| && forall k :: 0 <= k < i ==> s[k] != v
    {
      if s[i] == v {
        IndexIs(s, v, i);
        return;
      }
      i := i + 1;
    }
    t := s + [v];
    IndexIs(t, v, i);
  }

  lemma Inserted(before: seq<int>, oops: seq<int>, dependents: seq<int>, v: int, n: nat)
    requires v in dependents && n <= |dependents| && oops == if v in before then before else before + [v]
    requires (forall i :: 0 <= i < n ==> dependents[i] in before)
    requires forall k :: 0 <= k < |before| ==> before[k] in dependents
    requires forall i, j :: 0 <= i < j < |before| ==> before[i] != before[j]
    ensures (forall i :: 0 <= i < n ==> dependents[i] in oops) && forall k :: 0 <= k < |oops| ==> oops[k] in dependents
    ensures (forall i, j :: 0 <= i < j < |oops| ==> oops[i] != oops[j]) && v in oops && oops[IndexOf(oops, v)] == v
  {}

  lemma Then(c: seq<int>, a: seq<int>, b: seq<int>)
    ensures c + a + b == c + (a + b)
  {}

  class ScopeDescriptorRecorder {
    var codes: seq<Byte>
    var oops: seq<int>
    var values: seq<int>
    var offsets: map<nat, int>

    function Now(): Env
      reads this`oops, this`values, this`offsets
    {
      Env(oops, values, offsets)
    }

    constructor ()
      ensures codes == [] && Now() == Env([], [], map[])
    {
      codes, oops, values, offsets := [], [], [], map[];
    }

    // ---- indices, values and objects ---------------------------------------------------------------------------

    method GetValueIndex(v: int) returns (i: nat)
      modifies this`values
      ensures Extends(old(Now()), Now())
      ensures forall e :: Extends(Now(), e) ==> KnownValue(e, v) && ValueIndex(e, v) == i
    {
      if 0 <= v <= MAX_INLINE_VALUE {
        i := v;
      } else {
        values, i := InsertIfAbsent(values, v);
        i := MAX_INLINE_VALUE + 1 + i;
      }
      forall e | Extends(Now(), e)
        ensures KnownValue(e, v) && ValueIndex(e, v) == i
      {
        ValueIndexKept(Now(), e, v);
      }
    }

    method GetOopIndex(o: int) returns (i: nat)
      modifies this`oops
      ensures Extends(old(Now()), Now())
      ensures forall e :: Extends(Now(), e) ==> KnownOop(e, o) && OopIndex(e, o) == i
    {
      if o == 0 {
        i := 0;
      } else {
        oops, i := InsertIfAbsent(oops, o);
        i := i + 1;
      }
      forall e | Extends(Now(), e)
        ensures KnownOop(e, o) && OopIndex(e, o) == i
      {
        OopIndexKept(Now(), e, o);
      }
    }

    method GenIndex(i: nat)
      modifies this`codes
      ensures codes == old(codes) + IndexBytes(i)
    {
      if i < EXTENDED_INDEX {
        codes := codes + [i];
      } else {
        codes := codes + [EXTENDED_INDEX];
        codes := codes + HalfBytes(i);
      }
    }

    method GenValue(v: int)
      modifies this`codes, this`values
      ensures Extends(old(Now()), Now())
      ensures forall e :: Extends(Now(), e) ==> codes == old(codes) + ValueBytes(e, v)
    {
      var i := GetValueIndex(v);
      GenIndex(i);
    }

    method GenOop(o: int)
      modifies this`codes, this`oops
      ensures Extends(old(Now()), Now())
      ensures forall e :: Extends(Now(), e) ==> codes == old(codes) + OopBytes(e, o)
    {
      var i := GetOopIndex(o);
      GenIndex(i);
    }

    // ---- names -----------------------------------------------------------------------------------------------------

    /** Whether the index fits into the header byte. */
    method GenHeaderByte(code: nat, last: bool, index: nat) returns (inlined: bool)
      requires code < 4
      modifies this`codes
      ensures inlined <==> index <= MAX_INDEX
      ensures codes == old(codes) + [NameHeader(code, last, if inlined then index else NO_INDEX)]
    {
      inlined := index <= MAX_INDEX;
      codes := codes + [NameHeader(code, last, if inlined then index else NO_INDEX)];
    }

    method GenIndexed(code: nat, last: bool, index: nat)
      requires code < 4
      modifies this`codes
      ensures codes == old(codes) + IndexedBytes(code, last, index)
    {
      var inlined := GenHeaderByte(code, last, index);
      if !inlined {
        GenIndex(index);
      }
    }

    method GenScopeOffset(scope: Option<nat>)
      requires scope.Some? ==> scope.value in offsets
      modifies this`codes, this`values
      ensures Extends(old(Now()), Now())
      ensures forall e :: Extends(Now(), e) ==> codes == old(codes) + ScopeOffsetBytes(e, scope)
    {
      GenValue(if scope == None then 0 else offsets[scope.value]);
    }

    method GenName(n: Name, last: bool)
      requires ScopesOf(n) <= offsets.Keys
      modifies this`codes, this`values, this`oops
      ensures Extends(old(Now()), Now())
      ensures forall e :: Extends(Now(), e) ==> codes == old(codes) + NameBytes(e, n, last)
    {
      hide IndexedBytes, ValueBytes, OopBytes, ScopeOffsetBytes, KnownValue, KnownOop, ValueIndex, OopIndex, NameHeader;
      match n {
        case IllegalName =>
          codes := codes + [NameHeader(0, last, ILLEGAL_INDEX)];
        case LocationName(l) =>
          var i := GetValueIndex(l);
          GenIndexed(LOCATION_CODE, last, i);
        case ValueName(o) =>
          var i := GetOopIndex(o);
          GenIndexed(VALUE_CODE, last, i);
        case BlockValueName(m, p) =>
          GenBlockValue(m, p, last);
        case MemoizedName(l, m, p) =>
          GenMemoized(l, m, p, last);
      }
    }

    method GenBlockValue(m: int, p: Option<nat>, last: bool)
      requires p.Some? ==> p.value in offsets
      modifies this`codes, this`values, this`oops
      ensures Extends(old(Now()), Now())
      ensures forall e :: Extends(Now(), e) ==> codes == old(codes) + NameBytes(e, BlockValueName(m, p), last)
    {
      hide IndexedBytes, ValueBytes, OopBytes, ScopeOffsetBytes, KnownValue, KnownOop, ValueIndex, OopIndex, Extends;
      ghost var c0, e0 := codes, Now();
      var i := GetOopIndex(m);
      ghost var e1 := Now();
      GenIndexed(BLOCKVALUE_CODE, last, i);
      ghost var c1 := codes;
      GenScopeOffset(p);
      ExtendsThrough(e0, e1, Now());
      forall e | Extends(Now(), e)
        ensures codes == c0 + NameBytes(e, BlockValueName(m, p), last)
      {
        ExtendsThrough(e1, Now(), e);
        Then(c0, IndexedBytes(BLOCKVALUE_CODE, last, i), ScopeOffsetBytes(e, p));
      }
    }

    method GenMemoized(l: int, m: int, p: Option<nat>, last: bool)
      requires p.Some? ==> p.value in offsets
      modifies this`codes, this`values, this`oops
      ensures Extends(old(Now()), Now())
      ensures forall e :: Extends(Now(), e) ==> codes == old(codes) + NameBytes(e, MemoizedName(l, m, p), last)
    {
      hide IndexedBytes, ValueBytes, OopBytes, ScopeOffsetBytes, KnownValue, KnownOop, ValueIndex, OopIndex, Extends;
      ghost var c0, e0 := codes, Now();
      var i := GetValueIndex(l);
      ghost var e1 := Now();
      GenIndexed(MEMOIZEDBLOCK_CODE, last, i);
      ghost var c1 := codes;
      GenOop(m);
      ghost var e2, c2 := Now(), codes;
      GenScopeOffset(p);
      ExtendsThrough(e0, e1, e2);
      ExtendsThrough(e0, e2, Now());
      forall e | Extends(Now(), e)
        ensures codes == c0 + NameBytes(e, MemoizedName(l, m, p), last)
      {
        ExtendsThrough(e2, Now(), e);
        ExtendsThrough(e1, e2, e);
        Then(c0, IndexedBytes(MEMOIZEDBLOCK_CODE, last, i), OopBytes(e, m));
        Then(c0, IndexedBytes(MEMOIZEDBLOCK_CODE, last, i) + OopBytes(e, m), ScopeOffsetBytes(e, p));
      }
    }

    /** `LogicalAddress::generate`: the first name, then every further one with the distance of its
        position from that of the one before it. */
    method GenAddress(a: Address)
      requires ScopesOfAddress(a) <= offsets.Keys
      modifies this`codes, this`values, this`oops
      ensures Extends(old(Now()), Now())
      ensures forall e :: Extends(Now(), e) ==> codes == old(codes) + AddressBytes(e, a)
    {
      hide NameBytes, ValueBytes, Extends, RestBytes;
      ghost var c0, e0 := codes, Now();
      NamesIn(a, 0);
      GenName(a[0].name, |a| == 1);
      var k, lastPc := 1, 0;
      NothingDone(c0, codes, Now(), a);
      while k < |a|
        invariant 1 <= k <= |a| && Extends(e0, Now()) && offsets == old(offsets)
        invariant forall e :: Extends(Now(), e) ==> codes + RestBytes(e, a, k, lastPc) == c0 + AddressBytes(e, a)
      {
        ghost var c1, e1 := codes, Now();
        NamesIn(a, k);
        GenName(a[k].name, k == |a| - 1);
        ghost var c2, e2 := codes, Now();
        GenValue(a[k].pc - lastPc);
        ExtendsThrough(e0, e1, e2);
        ExtendsThrough(e0, e2, Now());
        forall e | Extends(Now(), e)
          ensures codes + RestBytes(e, a, k + 1, a[k].pc) == c0 + AddressBytes(e, a)
        {
          ExtendsThrough(e2, Now(), e);
          ExtendsThrough(e1, e2, e);
          RestStep(e, a, k, lastPc, c1, codes);
        }
        lastPc := a[k].pc;
        k := k + 1;
      }
      RestEnds(a, lastPc);
    }

    // ---- lists of names ------------------------------------------------------------------------------------------

    method EmitTerminationNode()
      modifies this`codes
      ensures codes == old(codes) + [TERMINATION]
    {
      codes := codes + [TERMINATION];
    }

    /** `generate_solid`: all elements and a termination byte. */
    method GenerateSolid(list: seq<Address>)
      requires forall i :: 0 <= i < |list| ==> ScopesOfAddress(list[i]) <= offsets.Keys
      modifies this`codes, this`values, this`oops
      ensures Extends(old(Now()), Now())
      ensures forall e :: Extends(Now(), e) ==> codes == old(codes) + SolidBytes(e, list, 0)
    {
      hide AddressBytes, Extends;
      ghost var c0, e0 := codes, Now();
      SelfExtends(e0);
      var i := 0;
      while i < |list|
        invariant i <= |list| && Extends(e0, Now()) && offsets == old(offsets)
        invariant forall e :: Extends(Now(), e) ==> codes + SolidBytes(e, list, i) == c0 + SolidBytes(e, list, 0)
      {
        ghost var c1, e1 := codes, Now();
        GenAddress(list[i]);
        ExtendsThrough(e0, e1, Now());
        forall e | Extends(Now(), e)
          ensures codes + SolidBytes(e, list, i + 1) == c0 + SolidBytes(e, list, 0)
        {
          ExtendsThrough(e1, Now(), e);
          Then(c1, AddressBytes(e, list[i]), SolidBytes(e, list, i + 1));
        }
        i := i + 1;
      }
      EmitTerminationNode();
    }

    /** `generate_sparse`: the elements that are there, each with its index, and a termination byte. */
    method GenerateSparse(list: seq<Option<Address>>)
      requires forall i :: 0 <= i < |list| && list[i].Some? ==> ScopesOfAddress(list[i].value) <= offsets.Keys
      modifies this`codes, this`values, this`oops
      ensures Extends(old(Now()), Now())
      ensures forall e :: Extends(Now(), e) ==> codes == old(codes) + SparseBytes(e, list, 0)
    {
      hide AddressBytes, Extends, ValueBytes;
      ghost var c0, e0 := codes, Now();
      SelfExtends(e0);
      var i := 0;
      while i < |list|
        invariant i <= |list| && Extends(e0, Now()) && offsets == old(offsets)
        invariant forall e :: Extends(Now(), e) ==> codes + SparseBytes(e, list, i) == c0 + SparseBytes(e, list, 0)
      {
        if list[i].Some? {
          ghost var c1, e1 := codes, Now();
          GenAddress(list[i].value);
          ghost var c2, e2 := codes, Now();
          GenValue(i);
          ExtendsThrough(e0, e1, e2);
          ExtendsThrough(e0, e2, Now());
          forall e | Extends(Now(), e)
            ensures codes + SparseBytes(e, list, i + 1) == c0 + SparseBytes(e, list, 0)
          {
            ExtendsThrough(e2, Now(), e);
            ExtendsThrough(e1, e2, e);
            SparseStep(e, list, i, c1, codes);
          }
        } else {
          forall e | Extends(Now(), e)
            ensures codes + SparseBytes(e, list, i + 1) == c0 + SparseBytes(e, list, 0)
          {
            assert SparseBytes(e, list, i) == [] + SparseBytes(e, list, i + 1);
          }
        }
        i := i + 1;
      }
      EmitTerminationNode();
    }

    // ---- scopes ----------------------------------------------------------------------------------------------------

    /** `genScopeDescHeader`: the header byte and, if there are names, room for the distance to the next scope. */
    method GenScopeDescHeader(n: ScopeNode, bigHeader: bool)
      modifies this`codes
      ensures codes == old(codes) + [HeaderByte(n)] + Placeholder(n, bigHeader)
    {
      codes := codes + [HeaderByte(n)];
      if n.HasNames() {
        codes := codes + [0];
        if bigHeader {
          codes := codes + HalfBytes(0);
        }
      }
    }

    /** What depends on the kind of the scope. */
    method GenKind(n: ScopeNode)
      requires n.id in offsets && KindRefs(n) <= offsets.Keys
      modifies this`codes, this`values, this`oops
      ensures Extends(old(Now()), Now())
      ensures forall e :: Extends(Now(), e) ==> codes == old(codes) + KindBytes(e, n, offsets[n.id])
    {
      match n.kind {
        case MethodScope(k, s, r) =>
          GenMethodKind(n, k, s, r);
        case BlockScope(p) =>
          GenValue(offsets[n.id] - offsets[p]);
        case TopLevelBlockScope(r, k) =>
          GenTopLevelKind(n, r, k);
      }
    }

    method GenMethodKind(n: ScopeNode, klass: int, selector: int, receiver: Address)
      requires n.kind == MethodScope(klass, selector, receiver) && ScopesOfAddress(receiver) <= offsets.Keys
      modifies this`codes, this`values, this`oops
      ensures Extends(old(Now()), Now())
      ensures forall e, at :: Extends(Now(), e) ==> codes == old(codes) + KindBytes(e, n, at)
    {
      hide AddressBytes, OopBytes, Extends;
      ghost var c0, e0 := codes, Now();
      GenOop(klass);
      ghost var e1 := Now();
      GenOop(selector);
      ghost var e2 := Now();
      GenAddress(receiver);
      ExtendsThrough(e0, e1, e2);
      ExtendsThrough(e0, e2, Now());
      forall e, at | Extends(Now(), e)
        ensures codes == c0 + KindBytes(e, n, at)
      {
        ExtendsThrough(e2, Now(), e);
        ExtendsThrough(e1, e2, e);
        Then(c0, OopBytes(e, klass), OopBytes(e, selector));
        Then(c0, OopBytes(e, klass) + OopBytes(e, selector), AddressBytes(e, receiver));
      }
    }

    method GenTopLevelKind(n: ScopeNode, receiver: Address, klass: int)
      requires n.kind == TopLevelBlockScope(receiver, klass) && ScopesOfAddress(receiver) <= offsets.Keys
      modifies this`codes, this`values, this`oops
      ensures Extends(old(Now()), Now())
      ensures forall e, at :: Extends(Now(), e) ==> codes == old(codes) + KindBytes(e, n, at)
    {
      hide AddressBytes, OopBytes, Extends;
      ghost var c0, e0 := codes, Now();
      GenAddress(receiver);
      ghost var e1 := Now();
      GenOop(klass);
      ExtendsThrough(e0, e1, Now());
      forall e, at | Extends(Now(), e)
        ensures codes == c0 + KindBytes(e, n, at)
      {
        ExtendsThrough(e1, Now(), e);
        Then(c0, AddressBytes(e, receiver), OopBytes(e, klass));
      }
    }

    method GenSender(n: ScopeNode, at: int, sender: int)
      modifies this`codes, this`values
      ensures Extends(old(Now()), Now())
      ensures forall e :: Extends(Now(), e) ==> codes == old(codes) + SenderBytes(e, n, at, sender)
    {
      hide ValueBytes, Extends;
      ghost var c0, e0 := codes, Now();
      SelfExtends(e0);
      if at != 0 {
        GenValue(at - sender);
        ghost var e1 := Now();
        GenValue(n.senderByteCode);
        ExtendsThrough(e0, e1, Now());
        forall e | Extends(Now(), e)
          ensures codes == c0 + SenderBytes(e, n, at, sender)
        {
          ExtendsThrough(e1, Now(), e);
          Then(c0, ValueBytes(e, at - sender), ValueBytes(e, n.senderByteCode));
        }
      }
    }

    method GenFixed(n: ScopeNode, sender: int)
      requires n.id in offsets && KindRefs(n) <= offsets.Keys
      modifies this`codes, this`values, this`oops
      ensures Extends(old(Now()), Now())
      ensures forall e :: Extends(Now(), e) ==> codes == old(codes) + FixedBytes(e, n, offsets[n.id], sender)
    {
      hide ValueBytes, OopBytes, SenderBytes, KindBytes, Extends;
      ghost var c0, e0, at := codes, Now(), offsets[n.id];
      GenSender(n, offsets[n.id], sender);
      ghost var e1 := Now();
      GenOop(n.methodOop);
      ghost var e2 := Now();
      GenValue(n.scopeId);
      ghost var e3 := Now();
      GenKind(n);
      ExtendsThrough(e0, e1, e2);
      ExtendsThrough(e0, e2, e3);
      ExtendsThrough(e0, e3, Now());
      forall e | Extends(Now(), e)
        ensures codes == c0 + FixedBytes(e, n, at, sender)
      {
        ExtendsThrough(e3, Now(), e);
        ExtendsThrough(e2, e3, e);
        ExtendsThrough(e1, e2, e);
        var s := SenderBytes(e, n, at, sender);
        Then(c0, s, OopBytes(e, n.methodOop));
        Then(c0, s + OopBytes(e, n.methodOop), ValueBytes(e, n.scopeId));
        Then(c0, s + OopBytes(e, n.methodOop) + ValueBytes(e, n.scopeId), KindBytes(e, n, at));
      }
    }

    /** `generate`: the scope but for its names; its offset is known from now on. */
    method Generate(n: ScopeNode, sender: int, bigHeader: bool)
      requires n.id in offsets ==> offsets[n.id] == |codes|
      requires KindRefs(n) <= offsets.Keys + {n.id}
      modifies this
      ensures Extends(old(Now()), Now()) && offsets == old(offsets)[n.id := |old(codes)|]
      ensures HeadWritten(codes, Now(), old(codes), n, sender, bigHeader)
    {
      hide FixedBytes, HeaderByte, Placeholder, Extends;
      ghost var c0, e0 := codes, Now();
      offsets := offsets[n.id := |codes|];
      ghost var e1 := Now();
      ExtendsAt(e0, n.id, |codes|);
      GenScopeDescHeader(n, bigHeader);
      GenFixed(n, sender);
      ExtendsThrough(e0, e1, Now());
    }

    /** `generateNameDescs`: all lists that are not empty. */
    method GenerateNameDescs(n: ScopeNode)
      requires ListRefs(n) <= offsets.Keys
      modifies this`codes, this`values, this`oops
      ensures Extends(old(Now()), Now())
      ensures forall e :: Extends(Now(), e) ==> codes == old(codes) + NameListBytes(e, n)
    {
      hide SolidBytes, SparseBytes, Extends, ScopesOfAddress;
      ghost var c0, e0 := codes, Now();
      RefsInLists(n);
      GenListIf(n.HasArgs(), n.args);
      ghost var e1 := Now();
      GenListIf(n.HasTemps(), n.temps);
      ghost var e2 := Now();
      GenListIf(n.HasContextTemps(), n.contextTemps);
      ghost var e3 := Now();
      SelfExtends(e3);
      if n.HasExprStack() {
        GenerateSparse(n.exprStack);
      }
      ExtendsThrough(e0, e1, e2);
      ExtendsThrough(e0, e2, e3);
      ExtendsThrough(e0, e3, Now());
      forall e | Extends(Now(), e)
        ensures codes == c0 + NameListBytes(e, n)
      {
        ExtendsThrough(e3, Now(), e);
        ExtendsThrough(e2, e3, e);
        ExtendsThrough(e1, e2, e);
        var a := if n.HasArgs() then SolidBytes(e, n.args, 0) else [];
        var t := if n.HasTemps() then SolidBytes(e, n.temps, 0) else [];
        var x := if n.HasContextTemps() then SolidBytes(e, n.contextTemps, 0) else [];
        Then(c0, a, t);
        Then(c0, a + t, x);
        Then(c0, a + t + x, if n.HasExprStack() then SparseBytes(e, n.exprStack, 0) else []);
      }
    }

    method GenListIf(present: bool, list: seq<Address>)
      requires present ==> forall i :: 0 <= i < |list| ==> ScopesOfAddress(list[i]) <= offsets.Keys
      modifies this`codes, this`values, this`oops
      ensures Extends(old(Now()), Now())
      ensures forall e :: Extends(Now(), e) ==> codes == old(codes) + if present then SolidBytes(e, list, 0) else []
    {
      SelfExtends(Now());
      if present {
        GenerateSolid(list);
      }
    }

    /** `updateScopeDescHeader`: writes the distance into the one byte there is room for, if it fits. */
    method UpdateScopeDescHeader(offset: nat, next: nat) returns (done: bool)
      requires offset + 1 < |codes|
      modifies this`codes, this`values
      ensures Extends(old(Now()), Now())
      ensures forall e ::
        Extends(Now(), e) ==> KnownValue(e, next - offset) && (done <==> ValueIndex(e, next - offset) < EXTENDED_INDEX)
      ensures forall e ::
        Extends(Now(), e) && done ==>
          codes == old(codes)[..offset + 1] + [ValueIndex(e, next - offset)] + old(codes)[offset + 2..]
      ensures !done ==> codes == old(codes)
    {
      var nextIndex := GetValueIndex(next - offset);
      if nextIndex < EXTENDED_INDEX {
        codes := codes[offset + 1 := nextIndex];
        assert codes == old(codes)[..offset + 1] + [nextIndex] + old(codes)[offset + 2..];
        return true;
      }
      return false;
    }

    /** `updateExtScopeDescHeader`: writes the distance into the three bytes of a big header. */
    method UpdateExtScopeDescHeader(offset: nat, next: nat)
      requires offset + 3 < |codes|
      modifies this`codes, this`values
      ensures Extends(old(Now()), Now())
      ensures forall e :: Extends(Now(), e) ==> KnownValue(e, next - offset)
      ensures forall e :: Extends(Now(), e) ==>
        codes == old(codes)[..offset + 1] + ([EXTENDED_INDEX] + HalfBytes(ValueIndex(e, next - offset)))
          + old(codes)[offset + 4..]
    {
      var nextIndex := GetValueIndex(next - offset);
      ghost var h := HalfBytes(nextIndex);
      codes := codes[offset + 1 := EXTENDED_INDEX];
      codes := codes[offset + 2 := HalfBytes(nextIndex)[0]][offset + 3 := HalfBytes(nextIndex)[1]];
      assert codes == old(codes)[..offset + 1] + ([EXTENDED_INDEX] + h) + old(codes)[offset + 4..];
    }

    /** The first half of `generateBody`: the names of the scope, and its header made right. When the
        distance to the next scope does not fit, the scope is written once more with a big header. */
    method FinishScope(n: ScopeNode, sender: int, ghost pre: seq<Byte>)
      requires n.id in offsets && offsets[n.id] == |pre| && HeadWritten(codes, Now(), pre, n, sender, false)
      requires pre <= codes
      requires KindRefs(n) <= offsets.Keys && ListRefs(n) <= offsets.Keys
      modifies this
      ensures Extends(old(Now()), Now()) && offsets == old(offsets)
      ensures forall e :: Extends(Now(), e) ==> codes == pre + ScopeBytes(e, n, |pre|, sender)
    {
      hide FixedBytes, NameListBytes, HeaderByte, Extends, NextBytes, HalfBytes, KindRefs, ListRefs, KnownValue,
        ValueIndex;
      ghost var e0, at := Now(), |pre|;
      SelfExtends(e0);
      if n.HasNames() {
        GenerateNameDescs(n);
        ghost var c1, e1 := codes, Now();
        HeadAndNames(old(codes), e0, c1, e1, pre, n, sender, false);
        ghost var len := |codes| - |pre|;
        var done := UpdateScopeDescHeader(offsets[n.id], |codes|);
        ghost var e2 := Now();
        ExtendsThrough(e0, e1, e2);
        if done {
          SmallHeaderDone(c1, e1, codes, e2, pre, n, sender);
        } else {
          codes := codes[..offsets[n.id]];
          BackAt(c1, e1, codes, pre, n, sender);
          Generate(n, sender, true);
          ghost var c3, e3 := codes, Now();
          SameOffset(offsets, n.id, at);
          GenerateNameDescs(n);
          ghost var c4, e4 := codes, Now();
          HeadAndNames(c3, e3, c4, e4, pre, n, sender, true);
          UpdateExtScopeDescHeader(offsets[n.id], |codes|);
          ExtendsThrough(e0, e2, e3);
          ExtendsThrough(e0, e3, e4);
          ExtendsThrough(e0, e4, Now());
          ExtendsThrough(e2, e3, e4);
          BigHeaderDone(c1, e1, e2, len, c4, e4, codes, Now(), pre, n, sender);
        }
      } else {
        NoNames(codes, e0, pre, n, sender);
      }
    }

    /** `generateBody`: the names of the scope and then the visible scopes nested in it. */
    method GenerateBody(n: ScopeNode, sender: int, ghost pre: seq<Byte>)
      requires n.id in offsets && offsets[n.id] == |pre| && HeadWritten(codes, Now(), pre, n, sender, false)
      requires pre <= codes
      requires KindRefs(n) <= offsets.Keys && ListRefs(n) <= offsets.Keys && ClosedAll(n, n.nested, offsets.Keys)
      modifies this
      ensures Extends(old(Now()), Now()) && offsets.Keys == old(offsets.Keys) + IdsAll(n, n.nested)
      ensures forall e :: Extends(Now(), e) ==> codes == pre + Flat(e, Laid(e, n, |pre|, sender))
      ensures forall e :: Extends(Now(), e) ==> Registered(e, Laid(e, n, |pre|, sender))
      decreases n, 0
    {
      hide ScopeBytes, Extends, KindRefs, ListRefs, HeadWritten, Flat, Laid, LaidAll, ClosedAll, IdsAll, Closed, Ids,
        Registered;
      ghost var e0, keys := Now(), offsets.Keys;
      FinishScope(n, sender, pre);
      ghost var e1 := Now();
      LaidStarts(codes, e1, pre, n, sender);
      RootRegistered(codes, e1, pre, n, sender);
      AllAhead(n, offsets.Keys);
      var i := 0;
      while i < |n.nested|
        invariant i <= |n.nested| && Extends(e0, Now()) && n.id in offsets && offsets[n.id] == |pre| && |pre| <= |codes|
        invariant ClosedAll(n, n.nested[i..], offsets.Keys)
        invariant offsets.Keys + IdsAll(n, n.nested[i..]) == keys + IdsAll(n, n.nested)
        invariant forall e ::
          Extends(Now(), e) ==>
            codes + Flat(e, LaidAll(e, n, n.nested[i..], |codes|, |pre|)) == pre + Flat(e, Laid(e, n, |pre|, sender))
        invariant forall e ::
          Extends(Now(), e) && Registered(e, LaidAll(e, n, n.nested[i..], |codes|, |pre|)) ==>
            Registered(e, Laid(e, n, |pre|, sender))
      {
        ghost var c2, e2 := codes, Now();
        ClosedStep(n, i, offsets.Keys);
        if n.nested[i].visible {
          GenerateNested(n.nested[i], offsets[n.id]);
          ExtendsThrough(e0, e2, Now());
          LaidMore(c2, e2, codes, Now(), pre, n, sender, i);
          MoreRegistered(c2, e2, codes, Now(), pre, n, sender, i);
          SameOffsets(e2, Now(), n.id);
        } else {
          LaidPast(c2, e2, pre, n, sender, i);
          PastRegistered(c2, e2, pre, n, sender, i);
        }
        i := i + 1;
      }
      LaidEnds(codes, Now(), pre, n, sender);
      AllRegistered(codes, Now(), pre, n, sender);
    }

    /** One nested scope: first its own part, then its body. */
    method GenerateNested(p: ScopeNode, sender: int)
      requires Closed(p, offsets.Keys)
      modifies this
      ensures Extends(old(Now()), Now()) && offsets.Keys == old(offsets.Keys) + Ids(p)
      ensures forall e :: Extends(Now(), e) ==> codes == old(codes) + Flat(e, Laid(e, p, |old(codes)|, sender))
      ensures forall e :: Extends(Now(), e) ==> Registered(e, Laid(e, p, |old(codes)|, sender))
      decreases p, 1
    {
      hide ScopeBytes, Extends, KindRefs, ListRefs, HeadWritten, Flat, Laid, LaidAll, ClosedAll, IdsAll, Registered;
      ghost var c0, e0 := codes, Now();
      Generate(p, sender, false);
      ghost var e1 := Now();
      HeadKeeps(codes, e1, c0, p, sender);
      assert offsets.Keys == e0.offsets.Keys + {p.id};
      GenerateBody(p, sender, c0);
      ExtendsThrough(e0, e1, Now());
    }

    // ---- everything ------------------------------------------------------------------------------------------------

    /** The scope of a block that was not inlined: the method and how far back its parent is. */
    method GenNonInlined(b: NonInlinedBlock) returns (offset: nat)
      requires b.parent in offsets
      modifies this
      ensures offset == |old(codes)|
      ensures Extends(old(Now()), Now()) && offsets.Keys == old(offsets.Keys) && |codes| > |old(codes)|
      ensures old(codes) <= codes && codes[|old(codes)|] == NON_INLINED_BLOCK_CODE
      ensures forall e :: Extends(Now(), e) ==> codes == old(codes) + NonInlinedBytes(e, b, |old(codes)|)
    {
      hide Extends, ValueBytes, OopBytes, NonInlinedBytes, KnownValue, KnownOop, ValueIndex, OopIndex, HasBit;
      ghost var c0, e0 := codes, Now();
      offset := |codes|;
      GenNonInlinedHeader();
      GenOop(b.methodOop);
      ghost var c1, e1 := codes, Now();
      GenValue(offset - offsets[b.parent]);
      ExtendsThrough(e0, e1, Now());
      NonInlinedDone(c0, c1, e1, codes, Now(), b);
    }

    method GenNonInlinedHeader()
      modifies this`codes
      ensures codes == old(codes) + [NON_INLINED_BLOCK_CODE]
    {
      codes := codes + [PackHeader(NON_INLINED_BLOCK_CODE, false, false, false, false, false, false)];
    }

    /** `alignToWord`: zero bytes up to a multiple of four. */
    method AlignToWord()
      modifies this`codes
      ensures |codes| % 4 == 0 && old(codes) <= codes && |codes| < |old(codes)| + 4
    {
      var fill := (4 - |codes| % 4) % 4;
      var i := 0;
      while i < fill
        invariant i <= fill && |codes| == |old(codes)| + i && old(codes) <= codes
      {
        codes := codes + [0];
        i := i + 1;
      }
    }

    /** Every class the method depends on comes to be in the table of objects, once; the end mark is the
        index of the last one. */
    method GenerateDependencies(dependents: seq<int>) returns (end: nat)
      requires oops == []
      modifies this`oops
      ensures (forall i :: 0 <= i < |dependents| ==> dependents[i] in oops)
      ensures forall k :: 0 <= k < |oops| ==> oops[k] in dependents
      ensures forall i, j :: 0 <= i < j < |oops| ==> oops[i] != oops[j]
      ensures end == if dependents == [] then 0 else |oops| - 1
    {
      end := 0;
      var index := 0;
      while index < |dependents|
        invariant index <= |dependents| && end == if index == 0 then 0 else |oops| - 1
        invariant index > 0 <==> oops != []
        invariant forall i :: 0 <= i < index ==> dependents[i] in oops
        invariant forall k :: 0 <= k < |oops| ==> oops[k] in dependents
        invariant forall i, j :: 0 <= i < j < |oops| ==> oops[i] != oops[j]
      {
        ghost var before := oops;
        var i;
        oops, i := InsertIfAbsent(oops, dependents[index]);
        Inserted(before, oops, dependents, dependents[index], index);
        if i > end {
          end := i;
        }
        index := index + 1;
      }
    }

    /** `generate`: the bytes are the visible scopes in preorder, followed by the blocks that were not
        inlined, at the offsets returned, and padding. */
    method GenerateAll(root: ScopeNode, nonInlined: seq<NonInlinedBlock>) returns (blockOffsets: seq<nat>)
      requires codes == [] && offsets == map[] && Closed(root, {})
      requires forall i :: 0 <= i < |nonInlined| ==> nonInlined[i].parent in Ids(root)
      modifies this
      ensures Extends(old(Now()), Now()) && |codes| % 4 == 0
      ensures Recorded(codes, Now(), root) && Registered(Now(), Laid(Now(), root, 0, 0))
      ensures BlocksAt(codes, Now(), nonInlined, blockOffsets) && offsets.Keys == Ids(root)
    {
      hide Extends, Flat, Laid, Closed, ScopeBytes, Registered, BlocksAt, NonInlinedBytes;
      ghost var e0 := Now();
      assert offsets.Keys == {};
      GenerateNested(root, 0);
      ghost var c1, e1 := codes, Now();
      assert offsets.Keys == Ids(root);
      SelfExtends(e1);
      blockOffsets := [];
      NoBlocks(codes, nonInlined);
      var i := 0;
      while i < |nonInlined|
        invariant i <= |nonInlined| && Extends(e0, Now()) && Extends(e1, Now()) && offsets.Keys == Ids(root)
        invariant c1 <= codes && (|codes| > |c1| ==> codes[|c1|] == NON_INLINED_BLOCK_CODE)
        invariant forall e :: Extends(Now(), e) ==> BlocksAt(codes, e, nonInlined[..i], blockOffsets)
      {
        ghost var c2, e2 := codes, Now();
        var offset := GenNonInlined(nonInlined[i]);
        ExtendsThrough(e0, e2, Now());
        ExtendsThrough(e1, e2, Now());
        MoreBlocks(c2, e2, codes, Now(), nonInlined, blockOffsets, i);
        blockOffsets := blockOffsets + [offset];
        i := i + 1;
      }
      ghost var c3 := codes;
      AlignToWord();
      AllBlocks(c3, codes, Now(), nonInlined, blockOffsets);
      AllRecorded(c1, e1, c3, codes, Now(), root);
    }
  }

  lemma SelfExtends(e: Env)
    ensures Extends(e, e)
  {}

  /** The scopes that names refer to. */
  function ScopesOf(n: Name): set<nat> {
    match n
    case BlockValueName(_, Some(p)) => {p}
    case MemoizedName(_, _, Some(p)) => {p}
    case _ => {}
  }

  function ScopesOfAddress(a: Address): set<nat> {
    set i, p | 0 <= i < |a| && p in ScopesOf(a[i].name) :: p
  }

  lemma NamesIn(a: Address, k: nat)
    requires k < |a|
    ensures ScopesOf(a[k].name) <= ScopesOfAddress(a)
  {}

  lemma NothingDone(c0: seq<int>, c1: seq<int>, now: Env, a: Address)
    requires forall e :: Extends(now, e) ==> c1 == c0 + NameBytes(e, a[0].name, |a| == 1)
    ensures forall e :: Extends(now, e) ==> c1 + RestBytes(e, a, 1, 0) == c0 + AddressBytes(e, a)
  {
    hide Extends;
    forall e | Extends(now, e)
      ensures c1 + RestBytes(e, a, 1, 0) == c0 + AddressBytes(e, a)
    {
      Then(c0, NameBytes(e, a[0].name, |a| == 1), RestBytes(e, a, 1, 0));
    }
  }

  lemma RestStep(e: Env, a: Address, k: nat, lastPc: int, c1: seq<int>, c: seq<int>)
    requires 0 < k < |a| && c == c1 + NameBytes(e, a[k].name, k == |a| - 1) + ValueBytes(e, a[k].pc - lastPc)
    ensures c + RestBytes(e, a, k + 1, a[k].pc) == c1 + RestBytes(e, a, k, lastPc)
  {
    hide NameBytes, ValueBytes;
    var n, v, r := NameBytes(e, a[k].name, k == |a| - 1), ValueBytes(e, a[k].pc - lastPc),
      RestBytes(e, a, k + 1, a[k].pc);
    Then(c1, n, v);
    Then(c1, n + v, r);
  }

  lemma RestEnds(a: Address, lastPc: int)
    ensures forall e :: RestBytes(e, a, |a|, lastPc) == []
  {}

  lemma SparseStep(e: Env, list: seq<Option<Address>>, i: nat, c1: seq<int>, c: seq<int>)
    requires i < |list| && list[i].Some? && c == c1 + AddressBytes(e, list[i].value) + ValueBytes(e, i)
    ensures c + SparseBytes(e, list, i + 1) == c1 + SparseBytes(e, list, i)
  {
    hide AddressBytes, ValueBytes;
    Then(c1, AddressBytes(e, list[i].value), ValueBytes(e, i));
    Then(c1, AddressBytes(e, list[i].value) + ValueBytes(e, i), SparseBytes(e, list, i + 1));
  }

  // ---- scopes -----------------------------------------------------------------------------------------------------

  function Placeholder(n: ScopeNode, bigHeader: bool): seq<Byte> {
    if !n.HasNames() then [] else if bigHeader then [0] + HalfBytes(0) else [0]
  }

  lemma ExtendsAt(e: Env, id: nat, at: int)
    requires id in e.offsets ==> e.offsets[id] == at
    ensures Extends(e, e.(offsets := e.offsets[id := at]))
  {}

  /** The scopes that have to have offsets when this one is written. */
  function KindRefs(n: ScopeNode): set<nat> {
    match n.kind
    case MethodScope(_, _, r) => ScopesOfAddress(r)
    case BlockScope(p) => {p}
    case TopLevelBlockScope(r, _) => ScopesOfAddress(r)
  }

  predicate IsBlockName(n: Name) {
    n.BlockValueName? || n.MemoizedName?
  }

  /** The names that the receiver has at one position or other. */
  function ReceiverNames(n: ScopeNode): set<Name> {
    match n.kind
    case MethodScope(_, _, r) => NamesOf(r)
    case BlockScope(_) => {}
    case TopLevelBlockScope(r, _) => NamesOf(r)
  }

  function NamesOf(a: Address): set<Name> {
    set i | 0 <= i < |a| :: a[i].name
  }

  function AddressRefs(list: seq<Address>): set<nat> {
    set i, p | 0 <= i < |list| && p in ScopesOfAddress(list[i]) :: p
  }

  function SparseRefs(list: seq<Option<Address>>): set<nat> {
    set i, p | 0 <= i < |list| && list[i].Some? && p in ScopesOfAddress(list[i].value) :: p
  }

  function ListRefs(n: ScopeNode): set<nat> {
    AddressRefs(n.args) + AddressRefs(n.temps) + AddressRefs(n.contextTemps) + SparseRefs(n.exprStack)
  }

  lemma RefsInLists(n: ScopeNode)
    ensures forall i :: 0 <= i < |n.args| ==> ScopesOfAddress(n.args[i]) <= ListRefs(n)
    ensures forall i :: 0 <= i < |n.temps| ==> ScopesOfAddress(n.temps[i]) <= ListRefs(n)
    ensures forall i :: 0 <= i < |n.contextTemps| ==> ScopesOfAddress(n.contextTemps[i]) <= ListRefs(n)
    ensures forall i ::
      0 <= i < |n.exprStack| && n.exprStack[i].Some? ==> ScopesOfAddress(n.exprStack[i].value) <= ListRefs(n)
  {
    hide ScopesOfAddress;
    forall i | 0 <= i < |n.args| ensures ScopesOfAddress(n.args[i]) <= AddressRefs(n.args) {}
    forall i | 0 <= i < |n.temps| ensures ScopesOfAddress(n.temps[i]) <= AddressRefs(n.temps) {}
    forall i | 0 <= i < |n.contextTemps| ensures ScopesOfAddress(n.contextTemps[i]) <= AddressRefs(n.contextTemps) {}
    forall i | 0 <= i < |n.exprStack| && n.exprStack[i].Some?
      ensures ScopesOfAddress(n.exprStack[i].value) <= SparseRefs(n.exprStack)
    {}
  }

  /** A scope has been written up to its names, with room for the distance to the next. */
  ghost predicate HeadWritten(c: seq<int>, now: Env, pre: seq<int>, n: ScopeNode, sender: int, bigHeader: bool) {
    forall e :: Extends(now, e) ==>
      c == pre + [HeaderByte(n)] + Placeholder(n, bigHeader) + FixedBytes(e, n, |pre|, sender)
  }

  /** A scope has been written but for the distance to the next. */
  ghost predicate NamesWritten(c: seq<int>, now: Env, pre: seq<int>, n: ScopeNode, sender: int, bigHeader: bool) {
    forall e :: Extends(now, e) ==>
      c == pre + [HeaderByte(n)] + Placeholder(n, bigHeader) + (FixedBytes(e, n, |pre|, sender) + NameListBytes(e, n))
  }

  lemma HeadAndNames(c0: seq<int>, e0: Env, c: seq<int>, now: Env, pre: seq<int>, n: ScopeNode, sender: int,
                     bigHeader: bool)
    requires HeadWritten(c0, e0, pre, n, sender, bigHeader) && Extends(e0, now) && n.HasNames()
    requires forall e :: Extends(now, e) ==> c == c0 + NameListBytes(e, n)
    ensures NamesWritten(c, now, pre, n, sender, bigHeader)
    ensures |c| >= |pre| + if bigHeader then 4 else 2
  {
    hide FixedBytes, NameListBytes, HeaderByte, Extends;
    forall e | Extends(now, e)
      ensures c == pre + [HeaderByte(n)] + Placeholder(n, bigHeader)
        + (FixedBytes(e, n, |pre|, sender) + NameListBytes(e, n))
    {
      ExtendsThrough(e0, now, e);
      Then(pre + [HeaderByte(n)] + Placeholder(n, bigHeader), FixedBytes(e, n, |pre|, sender), NameListBytes(e, n));
    }
    SelfExtends(now);
    assert c == pre + [HeaderByte(n)] + Placeholder(n, bigHeader)
      + (FixedBytes(now, n, |pre|, sender) + NameListBytes(now, n));
  }

  lemma BackAt(c1: seq<int>, e1: Env, c: seq<int>, pre: seq<int>, n: ScopeNode, sender: int)
    requires NamesWritten(c1, e1, pre, n, sender, false) && |pre| <= |c1| && c == c1[..|pre|]
    ensures c == pre
  {
    hide FixedBytes, NameListBytes, HeaderByte, Extends;
    SelfExtends(e1);
    var rest := FixedBytes(e1, n, |pre|, sender) + NameListBytes(e1, n);
    assert c1 == pre + ([HeaderByte(n)] + Placeholder(n, false) + rest);
  }

  lemma SameOffset(offsets: map<nat, int>, id: nat, at: int)
    requires id in offsets && offsets[id] == at
    ensures offsets[id := at] == offsets
  {}

  lemma NoNames(c: seq<int>, e0: Env, pre: seq<int>, n: ScopeNode, sender: int)
    requires HeadWritten(c, e0, pre, n, sender, false) && !n.HasNames()
    ensures forall e :: Extends(e0, e) ==> c == pre + ScopeBytes(e, n, |pre|, sender)
  {
    hide FixedBytes, HeaderByte, Extends;
    forall e | Extends(e0, e)
      ensures c == pre + ScopeBytes(e, n, |pre|, sender)
    {
      assert NameListBytes(e, n) == [];
      var f := FixedBytes(e, n, |pre|, sender);
      assert pre + [HeaderByte(n)] + [] + f == pre + ([HeaderByte(n)] + [] + (f + []));
    }
  }

  lemma SmallHeaderDone(c1: seq<int>, e1: Env, c: seq<int>, now: Env, pre: seq<int>, n: ScopeNode, sender: int)
    requires NamesWritten(c1, e1, pre, n, sender, false) && Extends(e1, now) && n.HasNames() && |pre| + 2 <= |c1|
    requires forall e :: Extends(now, e) ==> KnownValue(e, |c1| - |pre|) && ValueIndex(e, |c1| - |pre|) < EXTENDED_INDEX
    requires forall e :: Extends(now, e) ==> c == c1[..|pre| + 1] + [ValueIndex(e, |c1| - |pre|)] + c1[|pre| + 2..]
    ensures forall e :: Extends(now, e) ==> c == pre + ScopeBytes(e, n, |pre|, sender)
  {
    hide FixedBytes, NameListBytes, HeaderByte, Extends, KnownValue, ValueIndex;
    forall e | Extends(now, e)
      ensures c == pre + ScopeBytes(e, n, |pre|, sender)
    {
      ExtendsThrough(e1, now, e);
      var rest := FixedBytes(e, n, |pre|, sender) + NameListBytes(e, n);
      assert c1 == pre + [HeaderByte(n)] + [0] + rest;
      assert |c1| - |pre| == |rest| + 2;
      assert c1[..|pre| + 1] == pre + [HeaderByte(n)] && c1[|pre| + 2..] == rest;
      assert pre + [HeaderByte(n)] + [ValueIndex(e, |rest| + 2)] + rest ==
        pre + ([HeaderByte(n)] + [ValueIndex(e, |rest| + 2)] + rest);
    }
  }

  /** The second pass wrote the same bytes two places further on, and the distance, which is no inline
      value, fits into a big header. */
  lemma BigHeaderDone(c1: seq<int>, e1: Env, e2: Env, len: nat, c4: seq<int>, e4: Env, c: seq<int>, now: Env,
                      pre: seq<int>, n: ScopeNode, sender: int)
    requires n.HasNames() && NamesWritten(c1, e1, pre, n, sender, false) && Extends(e1, e2) && len == |c1| - |pre|
    requires forall e :: Extends(e2, e) ==> KnownValue(e, len) && !(ValueIndex(e, len) < EXTENDED_INDEX)
    requires NamesWritten(c4, e4, pre, n, sender, true) && Extends(e2, e4) && Extends(e4, now) && |pre| + 4 <= |c4|
    requires forall e :: Extends(now, e) ==> KnownValue(e, |c4| - |pre|)
    requires forall e :: Extends(now, e) ==>
      c == c4[..|pre| + 1] + ([EXTENDED_INDEX] + HalfBytes(ValueIndex(e, |c4| - |pre|))) + c4[|pre| + 4..]
    ensures forall e :: Extends(now, e) ==> c == pre + ScopeBytes(e, n, |pre|, sender)
  {
    hide FixedBytes, NameListBytes, HeaderByte, Extends, KnownValue, ValueIndex, HalfBytes;
    forall e | Extends(now, e)
      ensures c == pre + ScopeBytes(e, n, |pre|, sender)
    {
      ExtendsThrough(e4, now, e);
      ExtendsThrough(e2, e4, e);
      ExtendsThrough(e1, e2, e);
      var rest := FixedBytes(e, n, |pre|, sender) + NameListBytes(e, n);
      var h := [HeaderByte(n)];
      assert c1 == pre + h + [0] + rest && len == |rest| + 2;
      var z := [0] + HalfBytes(0);
      assert c4 == pre + h + z + rest && |z| == 3;
      assert |c4| - |pre| == |rest| + 4;
      assert c4[..|pre| + 1] == pre + h && c4[|pre| + 4..] == rest;
      var x := [EXTENDED_INDEX] + HalfBytes(ValueIndex(e, |rest| + 4));
      assert pre + h + x + rest == pre + (h + x + rest);
    }
  }

  // ---- the tree -----------------------------------------------------------------------------------------------------

  /** The visible scopes of a tree. */
  function Ids(n: ScopeNode): set<nat>
    decreases n, 1
  {
    {n.id} + IdsAll(n, n.nested)
  }

  function IdsAll(ghost parent: ScopeNode, ns: seq<ScopeNode>): set<nat>
    requires forall i :: 0 <= i < |ns| ==> ns[i] < parent
    decreases parent, 0, |ns|
  {
    if ns == [] then {} else (if ns[0].visible then Ids(ns[0]) else {}) + IdsAll(parent, ns[1..])
  }

  /** Every scope has an identity of its own and refers only to scopes that come before it in preorder;
      names in its lists may also refer to the scope itself. The receiver is read while the scope itself is
      being read, so it must not lead back there: it refers to scopes before, and that of the root, which
      comes first, is no block. */
  predicate Closed(n: ScopeNode, seen: set<nat>)
    decreases n, 1
  {
    && n.id !in seen && KindRefs(n) <= seen && (seen == {} ==> forall k :: k in ReceiverNames(n) ==> !IsBlockName(k))
    && ListRefs(n) <= seen + {n.id} && ClosedAll(n, n.nested, seen + {n.id})
  }

  predicate ClosedAll(ghost parent: ScopeNode, ns: seq<ScopeNode>, seen: set<nat>)
    requires forall i :: 0 <= i < |ns| ==> ns[i] < parent
    decreases parent, 0, |ns|
  {
    ns == [] ||
    if ns[0].visible then Closed(ns[0], seen) && ClosedAll(parent, ns[1..], seen + Ids(ns[0]))
    else ClosedAll(parent, ns[1..], seen)
  }

  lemma ClosedStep(n: ScopeNode, i: nat, seen: set<nat>)
    requires i < |n.nested| && ClosedAll(n, n.nested[i..], seen)
    ensures n.nested[i..][1..] == n.nested[i + 1..]
    ensures n.nested[i].visible ==>
      Closed(n.nested[i], seen) && ClosedAll(n, n.nested[i + 1..], seen + Ids(n.nested[i]))
    ensures !n.nested[i].visible ==> ClosedAll(n, n.nested[i + 1..], seen)
    ensures IdsAll(n, n.nested[i..]) ==
      (if n.nested[i].visible then Ids(n.nested[i]) else {}) + IdsAll(n, n.nested[i + 1..])
  {
    assert n.nested[i..][0] == n.nested[i];
    assert n.nested[i..][1..] == n.nested[i + 1..];
  }

  lemma AllAhead(n: ScopeNode, seen: set<nat>)
    requires ClosedAll(n, n.nested, seen)
    ensures n.nested[0..] == n.nested && ClosedAll(n, n.nested[0..], seen)
  {
    assert n.nested[0..] == n.nested;
  }

  lemma HeadKeeps(c: seq<int>, e: Env, pre: seq<int>, n: ScopeNode, sender: int)
    requires HeadWritten(c, e, pre, n, sender, false)
    ensures pre <= c
  {
    hide FixedBytes, HeaderByte, Extends, Placeholder;
    SelfExtends(e);
    var x := [HeaderByte(n)] + Placeholder(n, false) + FixedBytes(e, n, |pre|, sender);
    assert c == pre + x;
  }

  lemma SameOffsets(e: Env, f: Env, id: nat)
    requires Extends(e, f) && id in e.offsets
    ensures id in f.offsets && f.offsets[id] == e.offsets[id]
  {}

  lemma LaidStarts(c: seq<int>, now: Env, pre: seq<int>, n: ScopeNode, sender: int)
    requires forall e :: Extends(now, e) ==> c == pre + ScopeBytes(e, n, |pre|, sender)
    ensures forall e ::
      Extends(now, e) ==> c + Flat(e, LaidAll(e, n, n.nested, |c|, |pre|)) == pre + Flat(e, Laid(e, n, |pre|, sender))
    ensures |pre| <= |c|
  {
    hide Extends, ScopeBytes, LaidAll;
    SelfExtends(now);
    forall e | Extends(now, e)
      ensures c + Flat(e, LaidAll(e, n, n.nested, |c|, |pre|)) == pre + Flat(e, Laid(e, n, |pre|, sender))
    {
      var b, rest := ScopeBytes(e, n, |pre|, sender), LaidAll(e, n, n.nested, |c|, |pre|);
      var l := Laid(e, n, |pre|, sender);
      assert l == [Placed(n, |pre|, sender)] + rest && l[1..] == rest;
      Then(pre, b, Flat(e, rest));
    }
  }

  lemma LaidMore(c2: seq<int>, e2: Env, c: seq<int>, now: Env, pre: seq<int>, n: ScopeNode, sender: int, i: nat)
    requires i < |n.nested| && n.nested[i].visible && Extends(e2, now)
    requires forall e ::
      Extends(e2, e) ==>
        c2 + Flat(e, LaidAll(e, n, n.nested[i..], |c2|, |pre|)) == pre + Flat(e, Laid(e, n, |pre|, sender))
    requires forall e :: Extends(now, e) ==> c == c2 + Flat(e, Laid(e, n.nested[i], |c2|, |pre|))
    ensures forall e ::
      Extends(now, e) ==>
        c + Flat(e, LaidAll(e, n, n.nested[i + 1..], |c|, |pre|)) == pre + Flat(e, Laid(e, n, |pre|, sender))
    ensures |c2| <= |c|
  {
    hide Extends, Laid, Flat;
    SelfExtends(now);
    assert n.nested[i..][0] == n.nested[i] && n.nested[i..][1..] == n.nested[i + 1..];
    forall e | Extends(now, e)
      ensures c + Flat(e, LaidAll(e, n, n.nested[i + 1..], |c|, |pre|)) == pre + Flat(e, Laid(e, n, |pre|, sender))
    {
      ExtendsThrough(e2, now, e);
      var first, rest := Laid(e, n.nested[i], |c2|, |pre|), LaidAll(e, n, n.nested[i + 1..], |c|, |pre|);
      FlatConcat(e, first, rest);
      Then(c2, Flat(e, first), Flat(e, rest));
    }
  }

  lemma LaidPast(c: seq<int>, now: Env, pre: seq<int>, n: ScopeNode, sender: int, i: nat)
    requires i < |n.nested| && !n.nested[i].visible
    requires forall e ::
      Extends(now, e) ==>
        c + Flat(e, LaidAll(e, n, n.nested[i..], |c|, |pre|)) == pre + Flat(e, Laid(e, n, |pre|, sender))
    ensures forall e ::
      Extends(now, e) ==>
        c + Flat(e, LaidAll(e, n, n.nested[i + 1..], |c|, |pre|)) == pre + Flat(e, Laid(e, n, |pre|, sender))
  {
    hide Extends, Laid, Flat;
    assert n.nested[i..][0] == n.nested[i] && n.nested[i..][1..] == n.nested[i + 1..];
  }

  lemma LaidEnds(c: seq<int>, now: Env, pre: seq<int>, n: ScopeNode, sender: int)
    requires forall e ::
      Extends(now, e) ==>
        c + Flat(e, LaidAll(e, n, n.nested[|n.nested|..], |c|, |pre|)) == pre + Flat(e, Laid(e, n, |pre|, sender))
    ensures forall e :: Extends(now, e) ==> c == pre + Flat(e, Laid(e, n, |pre|, sender))
    ensures IdsAll(n, n.nested[|n.nested|..]) == {}
  {
    hide Extends, Laid;
    assert n.nested[|n.nested|..] == [];
  }

  /** Every one of these scopes has the offset at which it is. */
  ghost predicate Registered(e: Env, ps: seq<Placed>) {
    forall i :: 0 <= i < |ps| ==> ps[i].node.id in e.offsets && e.offsets[ps[i].node.id] == ps[i].at
  }

  lemma RootRegistered(c: seq<int>, now: Env, pre: seq<int>, n: ScopeNode, sender: int)
    requires n.id in now.offsets && now.offsets[n.id] == |pre|
    requires forall e :: Extends(now, e) ==> c == pre + ScopeBytes(e, n, |pre|, sender)
    ensures forall e ::
      Extends(now, e) && Registered(e, LaidAll(e, n, n.nested, |c|, |pre|)) ==> Registered(e, Laid(e, n, |pre|, sender))
  {
    hide ScopeBytes, LaidAll, Extends;
    forall e | Extends(now, e) && Registered(e, LaidAll(e, n, n.nested, |c|, |pre|))
      ensures Registered(e, Laid(e, n, |pre|, sender))
    {
      SameOffsets(now, e, n.id);
      assert Laid(e, n, |pre|, sender) == [Placed(n, |pre|, sender)] + LaidAll(e, n, n.nested, |c|, |pre|);
    }
  }

  lemma MoreRegistered(c2: seq<int>, e2: Env, c: seq<int>, now: Env, pre: seq<int>, n: ScopeNode, sender: int, i: nat)
    requires i < |n.nested| && n.nested[i].visible && Extends(e2, now)
    requires forall e ::
      Extends(e2, e) && Registered(e, LaidAll(e, n, n.nested[i..], |c2|, |pre|)) ==>
        Registered(e, Laid(e, n, |pre|, sender))
    requires forall e :: Extends(now, e) ==> c == c2 + Flat(e, Laid(e, n.nested[i], |c2|, |pre|))
    requires forall e :: Extends(now, e) ==> Registered(e, Laid(e, n.nested[i], |c2|, |pre|))
    ensures forall e ::
      Extends(now, e) && Registered(e, LaidAll(e, n, n.nested[i + 1..], |c|, |pre|)) ==>
        Registered(e, Laid(e, n, |pre|, sender))
  {
    hide Extends, Laid, Flat;
    assert n.nested[i..][0] == n.nested[i] && n.nested[i..][1..] == n.nested[i + 1..];
    forall e | Extends(now, e) && Registered(e, LaidAll(e, n, n.nested[i + 1..], |c|, |pre|))
      ensures Registered(e, Laid(e, n, |pre|, sender))
    {
      ExtendsThrough(e2, now, e);
      var first, rest := Laid(e, n.nested[i], |c2|, |pre|), LaidAll(e, n, n.nested[i + 1..], |c|, |pre|);
      assert LaidAll(e, n, n.nested[i..], |c2|, |pre|) == first + rest;
      BothRegistered(e, first, rest);
    }
  }

  lemma BothRegistered(e: Env, a: seq<Placed>, b: seq<Placed>)
    requires Registered(e, a) && Registered(e, b)
    ensures Registered(e, a + b)
  {}

  lemma PastRegistered(c: seq<int>, now: Env, pre: seq<int>, n: ScopeNode, sender: int, i: nat)
    requires i < |n.nested| && !n.nested[i].visible
    requires forall e ::
      Extends(now, e) && Registered(e, LaidAll(e, n, n.nested[i..], |c|, |pre|)) ==>
        Registered(e, Laid(e, n, |pre|, sender))
    ensures forall e ::
      Extends(now, e) && Registered(e, LaidAll(e, n, n.nested[i + 1..], |c|, |pre|)) ==>
        Registered(e, Laid(e, n, |pre|, sender))
  {
    hide Extends, Laid, Registered;
    assert n.nested[i..][0] == n.nested[i] && n.nested[i..][1..] == n.nested[i + 1..];
  }

  lemma AllRegistered(c: seq<int>, now: Env, pre: seq<int>, n: ScopeNode, sender: int)
    requires forall e ::
      Extends(now, e) && Registered(e, LaidAll(e, n, n.nested[|n.nested|..], |c|, |pre|)) ==>
        Registered(e, Laid(e, n, |pre|, sender))
    ensures forall e :: Extends(now, e) ==> Registered(e, Laid(e, n, |pre|, sender))
  {
    hide Extends, Laid;
    assert n.nested[|n.nested|..] == [];
  }

  // ---- everything -------------------------------------------------------------------------------------------------

  ghost predicate BlocksAt(codes: seq<int>, e: Env, blocks: seq<NonInlinedBlock>, at: seq<nat>) {
    |at| == |blocks| && forall i :: 0 <= i < |at| ==> BlockAt(codes, e, blocks[i], at[i])
  }

  lemma NoBlocks(c: seq<int>, blocks: seq<NonInlinedBlock>)
    ensures forall e :: BlocksAt(c, e, blocks[..0], [])
  {}

  lemma BlockStays(c: seq<int>, d: seq<int>, e: Env, b: NonInlinedBlock, at: nat)
    requires BlockAt(c, e, b, at) && c <= d
    ensures BlockAt(d, e, b, at)
  {
    hide NonInlinedBytes;
    var n := |NonInlinedBytes(e, b, at)|;
    assert d[at..at + n] == c[at..at + n];
  }

  lemma MoreBlocks(c2: seq<int>, e2: Env, c: seq<int>, now: Env, blocks: seq<NonInlinedBlock>, at: seq<nat>, i: nat)
    requires i < |blocks| && Extends(e2, now)
    requires forall e :: Extends(e2, e) ==> BlocksAt(c2, e, blocks[..i], at)
    requires forall e :: Extends(now, e) ==> c == c2 + NonInlinedBytes(e, blocks[i], |c2|)
    ensures forall e :: Extends(now, e) ==> BlocksAt(c, e, blocks[..i + 1], at + [|c2|])
  {
    hide NonInlinedBytes, Extends, BlockAt;
    forall e | Extends(now, e)
      ensures BlocksAt(c, e, blocks[..i + 1], at + [|c2|])
    {
      ExtendsThrough(e2, now, e);
      assert BlocksAt(c2, e, blocks[..i], at);
      forall k | 0 <= k < |at| + 1
        ensures BlockAt(c, e, blocks[..i + 1][k], (at + [|c2|])[k])
      {
        if k < |at| {
          assert blocks[..i + 1][k] == blocks[..i][k];
          BlockStays(c2, c, e, blocks[k], at[k]);
        } else {
          BlockLast(c2, c, e, blocks[i]);
        }
      }
    }
  }

  lemma BlockLast(c2: seq<int>, c: seq<int>, e: Env, b: NonInlinedBlock)
    requires c == c2 + NonInlinedBytes(e, b, |c2|)
    ensures BlockAt(c, e, b, |c2|)
  {
    hide NonInlinedBytes;
  }

  lemma AllBlocks(c3: seq<int>, c: seq<int>, now: Env, blocks: seq<NonInlinedBlock>, at: seq<nat>)
    requires c3 <= c && forall e :: Extends(now, e) ==> BlocksAt(c3, e, blocks[..|blocks|], at)
    ensures BlocksAt(c, now, blocks, at)
  {
    hide BlockAt, Extends;
    SelfExtends(now);
    assert BlocksAt(c3, now, blocks[..|blocks|], at);
    assert blocks[..|blocks|] == blocks;
    forall i | 0 <= i < |at|
      ensures BlockAt(c, now, blocks[i], at[i])
    {
      BlockStays(c3, c, now, blocks[i], at[i]);
    }
  }

  lemma NonInlinedDone(c0: seq<int>, c1: seq<int>, e1: Env, c: seq<int>, now: Env, b: NonInlinedBlock)
    requires Extends(e1, now) && b.parent in now.offsets
    requires forall e :: Extends(e1, e) ==> c1 == c0 + [NON_INLINED_BLOCK_CODE] + OopBytes(e, b.methodOop)
    requires forall e :: Extends(now, e) ==> c == c1 + ValueBytes(e, |c0| - now.offsets[b.parent])
    ensures forall e :: Extends(now, e) ==> c == c0 + NonInlinedBytes(e, b, |c0|)
    ensures c0 <= c && |c| > |c0| && c[|c0|] == NON_INLINED_BLOCK_CODE
  {
    hide OopBytes, ValueBytes, Extends;
    SelfExtends(now);
    forall e | Extends(now, e)
      ensures c == c0 + NonInlinedBytes(e, b, |c0|)
    {
      ExtendsThrough(e1, now, e);
      SameOffsets(now, e, b.parent);
      var o, v := OopBytes(e, b.methodOop), ValueBytes(e, |c0| - now.offsets[b.parent]);
      assert c0 + [NON_INLINED_BLOCK_CODE] + o + v == c0 + ([NON_INLINED_BLOCK_CODE] + o + v);
    }
    assert c == c0 + NonInlinedBytes(now, b, |c0|);
  }

  /** The bytes start with the visible scopes in preorder; what follows, if anything, is a block that was
      not inlined or less than a word. */
  ghost predicate Recorded(codes: seq<int>, e: Env, root: ScopeNode) {
    var scopes := Flat(e, Laid(e, root, 0, 0));
    && scopes <= codes && |codes| % 4 == 0
    && (|codes| - |scopes| < 4 || codes[|scopes|] == NON_INLINED_BLOCK_CODE)
  }

  lemma AllRecorded(c1: seq<int>, e1: Env, c3: seq<int>, c: seq<int>, now: Env, root: ScopeNode)
    requires Extends(e1, now) && forall e :: Extends(e1, e) ==> c1 == [] + Flat(e, Laid(e, root, 0, 0))
    requires c1 <= c3 && (|c3| > |c1| ==> c3[|c1|] == NON_INLINED_BLOCK_CODE)
    requires c3 <= c && |c| % 4 == 0 && |c| < |c3| + 4
    ensures Recorded(c, now, root)
  {
    hide Flat, Laid, Extends;
    assert c1 == Flat(now, Laid(now, root, 0, 0));
    if |c3| > |c1| {
      assert c[|c1|] == c3[|c1|];
    } else {
      assert c3 == c1;
    }
  }
}
