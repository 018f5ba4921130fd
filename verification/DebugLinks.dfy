/** From one scope to others in what has been read: senders, parents, and the scopes of blocks that are
    receivers. All of them come before, so that following them ends. */
module DebugLinks {
  import opened Basics
  import opened DebugEncoding
  import opened DebugRecorder
  import opened DebugReader
  import opened DebugRoundTrip

  // ---- scopes refer to scopes before them -----------------------------------------------------------------------

  ghost predicate Before(ps: seq<Placed>, i: int, id: nat) {
    exists j :: 0 <= j < i && j < |ps| && ps[j].node.id == id
  }

  /** The kind of every scope refers only to scopes before it, or to those in `seen`. */
  ghost predicate RefersBack(ps: seq<Placed>, seen: set<nat>) {
    forall i, id :: 0 <= i < |ps| && id in KindRefs(ps[i].node) ==> id in seen || Before(ps, i, id)
  }

  /** Only the very first scope is without anything before it, and its receiver is no block. */
  ghost predicate StartsPlain(ps: seq<Placed>, seen: set<nat>) {
    ps != [] && seen == {} ==> forall k :: k in ReceiverNames(ps[0].node) ==> !IsBlockName(k)
  }

  lemma {:induction false} LaidRefersBack(e: Env, n: ScopeNode, at: int, sender: int, seen: set<nat>)
    requires Closed(n, seen)
    ensures RefersBack(Laid(e, n, at, sender), seen) && StartsPlain(Laid(e, n, at, sender), seen)
    ensures forall id :: id in Ids(n) ==> Before(Laid(e, n, at, sender), |Laid(e, n, at, sender)|, id)
    decreases n, 1
  {
    hide ScopeBytes, KindRefs, ReceiverNames, ListRefs;
    var ps := Laid(e, n, at, sender);
    var rest := LaidAll(e, n, n.nested, at + |ScopeBytes(e, n, at, sender)|, at);
    LaidAllRefersBack(e, n, n.nested, at + |ScopeBytes(e, n, at, sender)|, at, seen + {n.id});
    assert ps == [ps[0]] + rest && ps[0].node.id == n.id;
    Joined([ps[0]], rest, seen, {n.id});
  }

  lemma {:induction false} LaidAllRefersBack(e: Env, parent: ScopeNode, ns: seq<ScopeNode>, at: int, sender: int,
                                             seen: set<nat>)
    requires (forall k :: 0 <= k < |ns| ==> ns[k] < parent) && ClosedAll(parent, ns, seen)
    ensures RefersBack(LaidAll(e, parent, ns, at, sender), seen)
    ensures forall id ::
      id in IdsAll(parent, ns) ==> Before(LaidAll(e, parent, ns, at, sender), |LaidAll(e, parent, ns, at, sender)|, id)
    decreases parent, 0, |ns|
  {
    hide Laid, Flat, Closed, Ids, KindRefs, ReceiverNames;
    if ns == [] {
    } else if ns[0].visible {
      var first := Laid(e, ns[0], at, sender);
      LaidRefersBack(e, ns[0], at, sender, seen);
      LaidAllRefersBack(e, parent, ns[1..], at + |Flat(e, first)|, sender, seen + Ids(ns[0]));
      Joined(first, LaidAll(e, parent, ns[1..], at + |Flat(e, first)|, sender), seen, Ids(ns[0]));
    } else {
      LaidAllRefersBack(e, parent, ns[1..], at, sender, seen);
    }
  }

  lemma Joined(a: seq<Placed>, b: seq<Placed>, seen: set<nat>, ids: set<nat>)
    requires RefersBack(a, seen) && RefersBack(b, seen + ids) && forall id :: id in ids ==> Before(a, |a|, id)
    ensures RefersBack(a + b, seen)
    ensures forall id :: Before(a, |a|, id) || Before(b, |b|, id) ==> Before(a + b, |a + b|, id)
  {
    hide KindRefs;
    var c := a + b;
    forall id, i: int | (Before(a, i, id) && 0 <= i <= |a|)
      ensures Before(c, i, id)
    {
      var j :| 0 <= j < i && j < |a| && a[j].node.id == id;
      assert c[j].node.id == id;
    }
    forall id, i: int | Before(b, i, id) && 0 <= i <= |b|
      ensures Before(c, |a| + i, id)
    {
      var j :| 0 <= j < i && j < |b| && b[j].node.id == id;
      assert c[|a| + j].node.id == id;
    }
    forall i, id | 0 <= i < |c| && id in KindRefs(c[i].node)
      ensures id in seen || Before(c, i, id)
    {
      if i < |a| {
        assert c[i] == a[i];
      } else {
        assert c[i] == b[i - |a|];
        if id in ids {
          var j :| 0 <= j < |a| && a[j].node.id == id;
          assert c[j].node.id == id;
        } else if id !in seen {
          assert Before(b, i - |a|, id);
        }
      }
    }
  }

  /** Scopes follow one another without gaps, so their offsets increase. */
  lemma {:induction false} OffsetsIncrease(s: NativeMethodScopes, e: Env, ps: seq<Placed>, end: int, i: nat, j: nat)
    requires ps != [] && Consecutive(s, e, ps, 0, end) && i < j < |ps|
    ensures 0 <= ps[i].at < ps[j].at
    decreases j
  {
    hide At, ScopeOf;
    if i < j - 1 {
      OffsetsIncrease(s, e, ps, end, i, j - 1);
    }
  }

  /** All scopes of a recorded tree, with what is needed to follow references between them. */
  ghost predicate Linked(s: NativeMethodScopes, e: Env, ps: seq<Placed>, end: int) {
    && ps != [] && Backed(s, e) && Registered(e, ps) && Consecutive(s, e, ps, 0, end)
    && RefersBack(ps, {}) && StartsPlain(ps, {})
  }

  /** A scope that a kind refers to is at a lower offset, where it has been registered. */
  lemma ReferenceLeadsBack(s: NativeMethodScopes, e: Env, ps: seq<Placed>, end: int, i: nat, id: nat) returns (j: nat)
    requires Linked(s, e, ps, end) && i < |ps| && id in KindRefs(ps[i].node)
    ensures j < i && ps[j].node.id == id && OffsetOf(e, Some(id)) == ps[j].at < ps[i].at
  {
    hide Backed, Consecutive, KindRefs;
    assert Before(ps, i, id);
    var k :| 0 <= k < i && k < |ps| && ps[k].node.id == id;
    j := k;
    OffsetsIncrease(s, e, ps, end, j, i);
  }

  /** A block that is a receiver leads to a scope at a lower offset. */
  lemma ReceiverLeadsBack(s: NativeMethodScopes, e: Env, ps: seq<Placed>, end: int, i: nat, n: Name) returns (j: nat)
    requires Linked(s, e, ps, end) && i < |ps| && n in ReceiverNames(ps[i].node) && IsBlockName(n)
    ensures j < i && OffsetOf(e, n.parentScope) == ps[j].at < ps[i].at
  {
    hide Backed, Consecutive;
    if n.parentScope.Some? {
      NameRefs(ps[i].node, n);
      j := ReferenceLeadsBack(s, e, ps, end, i, n.parentScope.value);
    } else {
      assert i > 0;
      j := 0;
      OffsetsIncrease(s, e, ps, end, 0, i);
      RootOffset(s, e, ps, end);
    }
  }

  lemma RootOffset(s: NativeMethodScopes, e: Env, ps: seq<Placed>, end: int)
    requires ps != [] && Consecutive(s, e, ps, 0, end)
    ensures ps[0].at == 0
  {}

  lemma NameRefs(n: ScopeNode, k: Name)
    requires k in ReceiverNames(n) && IsBlockName(k) && k.parentScope.Some?
    ensures k.parentScope.value in KindRefs(n)
  {
    var a := n.kind.receiver;
    var i :| 0 <= i < |a| && a[i].name == k;
    NamesIn(a, i);
  }

  lemma PlaceAt(s: NativeMethodScopes, e: Env, ps: seq<Placed>, end: int, j: nat)
    requires Linked(s, e, ps, end) && j < |ps|
    ensures ps[j].at >= 0 && ScopeOrBlock(s, ps[j].at, e, Some(ps[j]))
  {
    hide At, ScopeBytes, Registered, RefersBack;
    assert At(s, ps[j].at, ScopeOf(e, ps, j));
  }

  // ---- following receivers --------------------------------------------------------------------------------------

  function ScopeOffset(n: NameDescriptor): Option<int> {
    match n
    case BlockValueNameDescriptor(_, p) => Some(p)
    case MemoizedBlockNameDescriptor(_, _, p) => Some(p)
    case _ => None
  }

  /** The offset of the scope that a descriptor's receiver, if that is a block, belongs to. */
  function ReceiverScope(d: ScopeDescriptor): Option<int> {
    if d.code == BLOCK_CODE || d.selfName == None then None else ScopeOffset(d.selfName.value)
  }

  /** A scope read together with the scope of the block that is its receiver, and so on: the source reads
      them all at once. It ends, since each is at a lower offset than the one before. */
  method WithReceivers(s: NativeMethodScopes, offset: nat, pc: int, ghost e: Env, ghost ps: seq<Placed>, ghost end: int,
                       ghost i: nat)
    returns (chain: seq<ScopeDescriptor>)
    requires Linked(s, e, ps, end) && i < |ps| && offset == ps[i].at
    ensures chain != [] && Shows(chain[0], e, ps[i], pc) && ReceiverScope(chain[|chain| - 1]) == None
    ensures forall k :: 0 <= k < |chain| ==> exists j :: 0 <= j < |ps| && Shows(chain[k], e, ps[j], pc)
    ensures forall k :: 0 < k < |chain| ==> chain[k].offset < chain[k - 1].offset
    ensures forall k :: 0 < k < |chain| ==> ReceiverScope(chain[k - 1]) == Some(chain[k].offset)
    decreases offset
  {
    hide Linked, Shows, Describe, NameAt, ScopeOrBlock;
    PlaceAt(s, e, ps, end, i);
    LinkedBacked(s, e, ps, end);
    var r := ScopeAt(s, offset, pc, e, Some(ps[i]));
    var d := r.value;
    ghost var j := NextReceiver(s, e, ps, end, i, d, pc);
    chain := [d];
    match ReceiverScope(d) {
      case None =>
      case Some(p) =>
        var more := WithReceivers(s, p, pc, e, ps, end, j);
        ShownAt(more[0], e, ps[j], pc);
        ShownAt(d, e, ps[i], pc);
        chain := [d] + more;
        Chained(d, more, e, ps, pc);
    }
  }

  lemma LinkedBacked(s: NativeMethodScopes, e: Env, ps: seq<Placed>, end: int)
    requires Linked(s, e, ps, end)
    ensures Backed(s, e)
  {}

  lemma ShownAt(d: ScopeDescriptor, e: Env, p: Placed, pc: int)
    requires Shows(d, e, p, pc)
    ensures d.offset == p.at
  {
    hide ShowsKind;
  }

  lemma Chained(d: ScopeDescriptor, more: seq<ScopeDescriptor>, e: Env, ps: seq<Placed>, pc: int)
    requires more != [] && (exists j :: 0 <= j < |ps| && Shows(d, e, ps[j], pc)) && more[0].offset < d.offset
    requires ReceiverScope(d) == Some(more[0].offset)
    requires forall k :: 0 <= k < |more| ==> exists j :: 0 <= j < |ps| && Shows(more[k], e, ps[j], pc)
    requires forall k :: 0 < k < |more| ==> more[k].offset < more[k - 1].offset
    requires forall k :: 0 < k < |more| ==> ReceiverScope(more[k - 1]) == Some(more[k].offset)
    ensures var chain := [d] + more;
      && (forall k :: 0 <= k < |chain| ==> exists j :: 0 <= j < |ps| && Shows(chain[k], e, ps[j], pc))
      && (forall k :: 0 < k < |chain| ==> chain[k].offset < chain[k - 1].offset)
      && (forall k :: 0 < k < |chain| ==> ReceiverScope(chain[k - 1]) == Some(chain[k].offset))
  {
    hide Shows, ReceiverScope;
  }

  /** Where a receiver that is a block leads. */
  lemma NextReceiver(s: NativeMethodScopes, e: Env, ps: seq<Placed>, end: int, i: nat, d: ScopeDescriptor, pc: int)
    returns (j: nat)
    requires Linked(s, e, ps, end) && i < |ps| && Shows(d, e, ps[i], pc)
    ensures ReceiverScope(d).Some? ==> j < i && ReceiverScope(d).value == ps[j].at && 0 <= ps[j].at < ps[i].at
  {
    hide Linked, Shows, ReceiverScope, ReceiverNames, IsBlockName;
    j := 0;
    if ReceiverScope(d).Some? {
      var n := ReceiverName(d, e, ps[i], pc);
      j := ReceiverLeadsBack(s, e, ps, end, i, n);
      PlaceAt(s, e, ps, end, j);
    }
  }

  /** The name that a receiver has at pc. */
  lemma ReceiverName(d: ScopeDescriptor, e: Env, p: Placed, pc: int) returns (n: Name)
    requires Shows(d, e, p, pc) && ReceiverScope(d).Some?
    ensures n in ReceiverNames(p.node) && IsBlockName(n) && ReceiverScope(d).value == OffsetOf(e, n.parentScope)
  {
    hide NameAt, NameListBytes, ScopeBytes, Short;
    var a := p.node.kind.receiver;
    var k := NameAtIs(a, pc);
    n := NameAt(a, pc);
    assert a[k].name in NamesOf(a);
  }

  // ---- blocks that were not inlined --------------------------------------------------------------------------------

  /** What `parent` of such a block asks for: the scope independent of a position. */
  const INVALID_PC := -1

  /** `parent` of a block that was not inlined: the scope it was recorded in. */
  method BlockParent(s: NativeMethodScopes, offset: nat, ghost e: Env, ghost ps: seq<Placed>, ghost end: int,
                     ghost b: NonInlinedBlock, ghost j: nat)
    returns (r: Option<ScopeDescriptor>)
    requires Linked(s, e, ps, end) && BlockAt(s.codes, e, b, offset) && j < |ps| && ps[j].node.id == b.parent
    ensures r.Some? && Shows(r.value, e, ps[j], INVALID_PC)
  {
    hide Linked, Shows, ScopeOrBlock, BlockAt;
    LinkedBacked(s, e, ps, end);
    PlaceAt(s, e, ps, end, j);
    BlockApart(s, e, ps, end, b, offset, j);
    var d := NonInlinedBlockScopeAt(s, offset, e, b);
    if d.value.parentScopeOffset == 0 {
      return None;
    }
    r := ScopeAt(s, d.value.offset - d.value.parentScopeOffset, INVALID_PC, e, Some(ps[j]));
  }

  /** A block is not where its parent is. */
  lemma BlockApart(s: NativeMethodScopes, e: Env, ps: seq<Placed>, end: int, b: NonInlinedBlock, offset: nat, j: nat)
    requires Linked(s, e, ps, end) && BlockAt(s.codes, e, b, offset) && j < |ps| && ps[j].node.id == b.parent
    ensures b.parent in e.offsets && e.offsets[b.parent] == ps[j].at != offset
  {
    hide At, BlockAt, ScopeBytes, RefersBack, StartsPlain, Consecutive;
    PlaceAt(s, e, ps, end, j);
    CodeRead(s, e, ps[j]);
    BlockParts(s, e, b, offset);
  }

  // ---- senders and parents of all scopes ----------------------------------------------------------------------------

  /** The sender read for scope i is the scope around it; the root has none. */
  ghost predicate SenderRight(r: Option<ScopeDescriptor>, e: Env, ps: seq<Placed>, i: nat, pc: int) {
    if i == 0 then r == None
    else r.Some? && exists j :: SentBy(ps, i, j) && Shows(r.value, e, ps[j], pc)
  }

  /** The parent read for an inlined block is the scope recorded as its parent. */
  ghost predicate ParentRight(r: Option<ScopeDescriptor>, e: Env, ps: seq<Placed>, i: nat, pc: int)
    requires i < |ps|
  {
    if !ps[i].node.kind.BlockScope? then r == None
    else r.Some? && exists j :: 0 <= j < i && ps[j].node.id == ps[i].node.kind.parent && Shows(r.value, e, ps[j], pc)
  }

  /** Recording a tree, reading all its scopes, and the sender and the parent of each. */
  method RecordAndReadLinks(tree: ScopeNode, used: set<nat>, generateLite: bool, nonInlined: seq<NonInlinedBlock>,
                            dependents: seq<int>, pc: int)
    returns (ds: seq<ScopeDescriptor>, senders: seq<Option<ScopeDescriptor>>, parents: seq<Option<ScopeDescriptor>>,
             s: NativeMethodScopes, e: Env)
    requires var root := ComputeVisibility(tree, used, generateLite);
      Closed(root, {}) && forall i :: 0 <= i < |nonInlined| ==> nonInlined[i].parent in Ids(root)
    ensures s.oops == e.oops && s.values == e.values
    ensures var root := ComputeVisibility(tree, used, generateLite);
      var ps := Laid(e, root, 0, 0);
      && Recorded(s.codes, e, root) && NodesOf(ps) == Preorder(root)
      && (|s.oops| + 1 <= 0x8000 && |s.values| + MAX_INLINE_VALUE + 1 <= 0x8000 ==>
            && |ds| == |senders| == |parents| == |ps|
            && forall i :: 0 <= i < |ps| ==>
                 && Shows(ds[i], e, ps[i], pc)
                 && SenderRight(senders[i], e, ps, i, pc) && ParentRight(parents[i], e, ps, i, pc))
  {
    hide Shows, Laid, Recorded, Registered, Consecutive, Preorder, Closed, ComputeVisibility, NeededIds, Ids, Linked,
      SenderRight, ParentRight, RefersBack, StartsPlain;
    var dependentsEnd, blocks;
    ds, s, e, dependentsEnd, blocks := RecordAndRead(tree, used, generateLite, nonInlined, dependents, pc);
    senders, parents := [], [];
    if |s.oops| + 1 <= 0x8000 && |s.values| + MAX_INLINE_VALUE + 1 <= 0x8000 {
      ghost var root := ComputeVisibility(tree, used, generateLite);
      ghost var ps := Laid(e, root, 0, 0);
      ghost var end := RecordedConsecutive(s, e, root);
      LaidRefersBack(e, root, 0, 0, {});
      IsLinked(s, e, ps, end);
      var i := 0;
      while i < |ds|
        invariant i <= |ds| && |senders| == |parents| == i
        invariant forall k :: 0 <= k < i ==> SenderRight(senders[k], e, ps, k, pc)
        invariant forall k :: 0 <= k < i ==> ParentRight(parents[k], e, ps, k, pc)
      {
        ghost var j := LaidSenders(e, root, 0, 0, i);
        var sender := SenderIn(s, ds[i], pc, e, ps, end, i, j);
        var parent := ParentIn(s, ds[i], pc, e, ps, end, i);
        senders, parents := senders + [sender], parents + [parent];
        i := i + 1;
      }
    }
  }

  lemma IsLinked(s: NativeMethodScopes, e: Env, ps: seq<Placed>, end: int)
    requires s.oops == e.oops && s.values == e.values
    requires |s.oops| + 1 <= 0x8000 && |s.values| + MAX_INLINE_VALUE + 1 <= 0x8000
    requires ps != [] && Registered(e, ps) && Consecutive(s, e, ps, 0, end) && RefersBack(ps, {}) && StartsPlain(ps, {})
    ensures Linked(s, e, ps, end)
  {
    hide Registered, Consecutive, RefersBack, StartsPlain;
  }

  lemma AllAt(s: NativeMethodScopes, e: Env, ps: seq<Placed>, end: int)
    requires Linked(s, e, ps, end)
    ensures ps != [] && Backed(s, e) && Registered(e, ps) && ps[0].at == 0
    ensures forall k :: 0 <= k < |ps| ==> ps[k].at >= 0 && At(s, ps[k].at, ScopeOf(e, ps, k))
  {
    hide At, ScopeOf, RefersBack, StartsPlain;
  }

  method SenderIn(s: NativeMethodScopes, d: ScopeDescriptor, pc: int, ghost e: Env, ghost ps: seq<Placed>,
                  ghost end: int, ghost i: nat, ghost j: int)
    returns (r: Option<ScopeDescriptor>)
    requires Linked(s, e, ps, end) && i < |ps| && Shows(d, e, ps[i], pc) && (i > 0 ==> SentBy(ps, i, j))
    ensures SenderRight(r, e, ps, i, pc)
  {
    hide Linked, Shows, At, ScopeOf, Backed, Registered;
    AllAt(s, e, ps, end);
    if i > 0 {
      Increasing(s, e, ps, end, j, i);
    }
    r := SenderOf(s, d, pc, e, ps, i, if i > 0 then j else 0);
  }

  lemma Increasing(s: NativeMethodScopes, e: Env, ps: seq<Placed>, end: int, i: nat, j: nat)
    requires Linked(s, e, ps, end) && i < j < |ps|
    ensures ps[i].at < ps[j].at
  {
    hide At, Backed, Registered, RefersBack, StartsPlain, Consecutive;
    OffsetsIncrease(s, e, ps, end, i, j);
  }

  method ParentIn(s: NativeMethodScopes, d: ScopeDescriptor, pc: int, ghost e: Env, ghost ps: seq<Placed>,
                  ghost end: int, ghost i: nat)
    returns (r: Option<ScopeDescriptor>)
    requires Linked(s, e, ps, end) && i < |ps| && Shows(d, e, ps[i], pc)
    ensures ParentRight(r, e, ps, i, pc)
  {
    hide Linked, Shows, At, ScopeOf, Backed, Registered;
    AllAt(s, e, ps, end);
    KindShown(d, e, ps[i], pc);
    if d.code == BLOCK_CODE {
      ghost var j := ReferenceLeadsBack(s, e, ps, end, i, ps[i].node.kind.parent);
      r := ParentOf(s, d, pc, e, ps, i, j);
    } else {
      r := None;
    }
  }

  lemma KindShown(d: ScopeDescriptor, e: Env, p: Placed, pc: int)
    requires Shows(d, e, p, pc)
    ensures d.code == BLOCK_CODE <==> p.node.kind.BlockScope?
  {
    hide ShowsKind, ScopeBytes, NameListBytes;
  }
}
