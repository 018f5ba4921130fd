/** The iterator over the entries of a polymorphic inline cache: it knows the layouts and the code only,
    and finds the entries one by one. It can also replace the target of an entry in the code. */
module PicIterator {
  import opened Basics
  import opened Displacements
  import opened PicCode
  import opened PicIteration

  datatype State = AtSmiNative | AtNative | AtMethod | AtTheEnd

  /** The state in which the iterator has come to entry j. */
  function StateOf(c: Contents, j: nat): State {
    if j >= c.Targets() then AtTheEnd
    else if j < SmiNatives(c) then AtSmiNative
    else if j < c.CompiledTargets() then AtNative
    else AtMethod
  }

  function PositionOf(c: Contents, j: nat): int {
    if j < SmiNatives(c) then 0
    else if j < c.CompiledTargets() then NATIVE_ENTRY_OFFSET + (j - SmiNatives(c)) * NATIVE_ENTRY_SIZE
    else TailAt(c) + METHODS_ONLY_OFFSET + (j - c.CompiledTargets()) * METHOD_ENTRY_SIZE
  }

  class PolymorphicInlineCacheIterator {
    const pic: PolymorphicInlineCache
    var pos: nat
    var state: State
    var methodCounter: int

    /** The iterator is at entry j. */
    ghost predicate At(j: nat)
      reads this, pic, pic.code
    {
      && pic.Valid() && !pic.IsMegamorphic() && j <= pic.contents.Targets() && state == StateOf(pic.contents, j)
      && (state != AtTheEnd ==> pos == PositionOf(pic.contents, j))
      && (state == AtMethod ==> methodCounter == pic.contents.Targets() - j)
    }

    predicate AtEnd()
      reads this
    {
      state == AtTheEnd
    }

    constructor (p: PolymorphicInlineCache)
      requires p.Valid()
      ensures pic == p && (p.IsMegamorphic() ==> AtEnd()) && (!p.IsMegamorphic() ==> At(0))
    {
      hide WordAt, Code, Entries, Unsigned;
      pic := p;
      pos := 0;
      methodCounter := 0;
      state := AtTheEnd;
      new;
      if !pic.IsMegamorphic() {
        Started(pic.code[..], pic.contents, pic.system, pic.entry);
        if pic.code[0] == CALL_OPCODE {
          state := AtMethod;
          methodCounter := NofEntries(TargetOf(WordAt(pic.code[..], 1), pic.entry + 1),
            pic.contents.InterpretedTargets());
          pos := METHODS_ONLY_OFFSET;
        } else {
          var dest := TargetOf(WordAt(pic.code[..], SMI_NATIVE_OFFSET), pic.entry + SMI_NATIVE_OFFSET);
          if dest == pic.system.normalLookup || pic.Contains(dest) {
            state := AtNative;
            pos := NATIVE_ENTRY_OFFSET;
          } else {
            state := AtSmiNative;
          }
        }
      }
    }

    /** `nof_entries`: the number of methods that a stub serves. */
    method NofEntries(stub: Word, ghost n: nat) returns (i: nat)
      requires pic.system.Valid() && 1 <= n <= MAX_ENTRIES && stub == pic.system.stubs[n]
      ensures i == n
    {
      i := 1;
      while stub != pic.system.stubs[i]
        invariant 1 <= i <= n
        decreases n - i
      {
        i := i + 1;
      }
    }

    method ComputeNextState(ghost j: nat)
      requires pic.Valid() && !pic.IsMegamorphic() && pic.contents.HasNatives()
      requires SmiNatives(pic.contents) <= j <= pic.contents.CompiledTargets()
      requires pos == NATIVE_ENTRY_OFFSET + (j - SmiNatives(pic.contents)) * NATIVE_ENTRY_SIZE && state == AtNative
      modifies this
      ensures At(j)
    {
      hide WordAt, Code, Entries, Unsigned;
      ghost var c := pic.contents;
      if j < c.CompiledTargets() {
        NativeParts(pic.code[..], c, pic.system, pic.entry, j - SmiNatives(c));
      } else {
        TailParts(pic.code[..], c, pic.system, pic.entry);
      }
      if pic.code[pos] == 0x81 && pic.code[pos + 1] == 0xfa {
      } else if pic.code[pos] == CALL_OPCODE {
        state := AtMethod;
        methodCounter := NofEntries(TargetOf(WordAt(pic.code[..], pos + 1), pic.entry + pos + 1),
          c.InterpretedTargets());
        pos := pos + METHOD_ENTRY_OFFSET - NATIVE_ENTRY_OFFSET;
      } else {
        state := AtTheEnd;
      }
    }

    /** `advance`: on to the next entry. */
    method Advance(ghost j: nat)
      requires At(j) && !AtEnd()
      modifies this
      ensures At(j + 1)
    {
      hide Code, Entries;
      match state {
        case AtSmiNative =>
          pos := pos + NATIVE_ENTRY_OFFSET;
          state := AtNative;
          ComputeNextState(j + 1);
        case AtNative =>
          pos := pos + NATIVE_ENTRY_SIZE;
          ComputeNextState(j + 1);
        case AtMethod =>
          methodCounter := methodCounter - 1;
          if methodCounter > 0 {
            pos := pos + METHOD_ENTRY_SIZE;
          } else {
            state := AtTheEnd;
          }
      }
    }

    predicate IsCompiled()
      reads this
    {
      state == AtSmiNative || state == AtNative
    }

    method GetKlass(ghost j: nat) returns (klass: Word)
      requires At(j) && !AtEnd()
      ensures klass == Entries(pic.contents, pic.system)[j].klass
    {
      hide Code, WordAt, Entries;
      EntryIs(pic.contents, pic.system, j);
      if state == AtSmiNative {
        klass := pic.system.smiKlass;
      } else {
        EntryParts(pic.code[..], pic.contents, pic.system, pic.entry, j);
        klass := WordAt(pic.code[..], pos + if state == AtNative then 2 else 0);
      }
    }

    method GetCallAddr(ghost j: nat) returns (target: Word)
      requires At(j) && IsCompiled()
      ensures Entries(pic.contents, pic.system)[j] == Compiled(Entries(pic.contents, pic.system)[j].klass, target)
    {
      hide Code, WordAt, Entries, Unsigned;
      EntryIs(pic.contents, pic.system, j);
      EntryParts(pic.code[..], pic.contents, pic.system, pic.entry, j);
      var at := pos + if state == AtSmiNative then SMI_NATIVE_OFFSET else 8;
      target := TargetOf(WordAt(pic.code[..], at), pic.entry + at);
    }

    method InterpretedMethod(ghost j: nat) returns (m: Word)
      requires At(j) && !AtEnd() && !IsCompiled()
      ensures Entries(pic.contents, pic.system)[j] == Entry.Interpreted(Entries(pic.contents, pic.system)[j].klass, m)
    {
      hide Code, WordAt, Entries;
      EntryIs(pic.contents, pic.system, j);
      EntryParts(pic.code[..], pic.contents, pic.system, pic.entry, j);
      m := WordAt(pic.code[..], pos + 4);
    }

    /** The entry, whichever kind it is. */
    method Current(ghost j: nat) returns (e: Entry)
      requires At(j) && !AtEnd()
      ensures e == Entries(pic.contents, pic.system)[j] && (e.Compiled? <==> IsCompiled())
    {
      hide Code, WordAt, Entries, StateOf, PositionOf;
      var klass := GetKlass(j);
      if IsCompiled() {
        var t := GetCallAddr(j);
        e := Compiled(klass, t);
      } else {
        var m := InterpretedMethod(j);
        e := Entry.Interpreted(klass, m);
      }
    }

    // ---- patching ------------------------------------------------------------------------------------------------

    /** `set_nativeMethod`: another compiled target for the entry, in the code. */
    method SetNativeMethod(ghost j: nat, target: Word)
      requires At(j) && IsCompiled()
      requires state == AtSmiNative ==> target != 0 && target != pic.system.normalLookup && !pic.Contains(target)
      modifies pic, pic.code
      ensures At(j) && pic.numberOfTargets == old(pic.numberOfTargets)
      ensures Entries(pic.contents, pic.system) ==
        old(Entries(pic.contents, pic.system))[j := Compiled(old(Entries(pic.contents, pic.system))[j].klass, target)]
    {
      hide Code, DispBytes, Entries, Contents.Valid, Contents.CodeSize, Contents.Targets, Unsigned;
      ghost var c, before := pic.contents, pic.code[..];
      NativeSet(before, c, pic.system, pic.entry, j, target);
      var q := pic.PutDisp(pos + if state == AtSmiNative then SMI_NATIVE_OFFSET else 8, target);
      pic.contents := WithNative(c, j, target);
      assert pic.code[..] == before[..q - 4] + DispBytes(target, pic.entry + q - 4) + before[q..];
    }

    /** `set_methodOop`: another interpreted method for the entry, in the code. */
    method SetMethodOop(ghost j: nat, m: Word)
      requires At(j) && state == AtMethod && m != 0
      modifies pic, pic.code
      ensures At(j) && pic.numberOfTargets == old(pic.numberOfTargets)
      ensures Entries(pic.contents, pic.system) == old(Entries(pic.contents, pic.system))[j :=
        Entry.Interpreted(old(Entries(pic.contents, pic.system))[j].klass, m)]
    {
      hide Code, WordBytes, Entries, Contents.Valid, Contents.CodeSize;
      ghost var c, before := pic.contents, pic.code[..];
      MethodSet(before, c, pic.system, pic.entry, j, m);
      var q := pic.PutWord(pos + 4, m);
      pic.contents := WithMethod(c, j - c.CompiledTargets(), m);
      assert pic.code[..] == before[..pos + 4] + WordBytes(m) + before[pos + 8..];
    }
  }

  // ---- facts --------------------------------------------------------------------------------------------------------

  /** What the code starts with. */
  lemma Started(code: seq<Byte>, c: Contents, s: System, entry: Word)
    requires c.Valid(s) && code == Code(c, s, entry)
    ensures |code| >= METHODS_ONLY_OFFSET
    ensures !c.HasNatives() ==>
      code[0] == CALL_OPCODE && c.InterpretedTargets() > 0 && TargetOf(WordAt(code, 1), entry + 1) ==
        s.stubs[c.InterpretedTargets()]
    ensures c.HasNatives() ==> |code| >= NATIVE_ENTRY_OFFSET && code[0] == TEST_OPCODE
    ensures c.HasNatives() ==>
      TargetOf(WordAt(code, SMI_NATIVE_OFFSET), entry + SMI_NATIVE_OFFSET) == SmiTarget(c, s, entry)
    ensures c.HasNatives() && c.smiNative == 0 && c.smiMethod != 0 && entry + |code| <= WORD ==>
      entry <= SmiTarget(c, s, entry) < entry + |code|
  {
    hide Code, WordAt;
    if c.HasNatives() {
      SmiParts(code, c, s, entry);
      TailParts(code, c, s, entry);
    } else {
      TailParts(code, c, s, entry);
    }
  }

  lemma EntryParts(code: seq<Byte>, c: Contents, s: System, entry: Word, j: nat)
    requires c.Valid(s) && code == Code(c, s, entry) && j < c.Targets()
    ensures var pos := PositionOf(c, j);
      && 0 <= pos && pos + 8 <= |code|
      && (StateOf(c, j) == AtSmiNative ==> TargetOf(WordAt(code, 4), entry + 4) == c.smiNative)
      && (StateOf(c, j) == AtNative ==>
            var p := c.natives[j - SmiNatives(c)];
            pos + 12 <= |code| && WordAt(code, pos + 2) ==
              p.klass && TargetOf(WordAt(code, pos + 8), entry + pos + 8) == p.target)
      && (StateOf(c, j) == AtMethod ==>
            var p := PicCode.Interpreted(c, s)[j - c.CompiledTargets()];
            WordAt(code, pos) == p.klass && WordAt(code, pos + 4) == p.target)
  {
    hide Code, WordAt, PicCode.Interpreted, Unsigned;
    match StateOf(c, j) {
      case AtSmiNative => SmiParts(code, c, s, entry);
      case AtNative => NativeParts(code, c, s, entry, j - SmiNatives(c));
      case AtMethod => MethodParts(code, c, s, entry, j - c.CompiledTargets());
    }
  }

  /** A part of the code replaced by another of the same length. */
  lemma Patched(before: seq<Byte>, a: seq<Byte>, x: seq<Byte>, b: seq<Byte>, y: seq<Byte>)
    requires before == a + x + b && |y| == |x|
    ensures before[..|a|] + y + before[|a| + |x|..] == a + y + b
  {}

  lemma SmiPatched(before: seq<Byte>, c: Contents, s: System, entry: Word, target: Word)
    requires c.Valid(s) && before == Code(c, s, entry) && c.smiNative != 0 && target != 0
    ensures var c' := c.(smiNative := target);
      && before[..4] + DispBytes(target, entry + 4) + before[8..] == Code(c', s, entry) && c'.Valid(s)
      && Entries(c', s) == Entries(c, s)[0 := Compiled(s.smiKlass, target)]
  {
    hide DispBytes, ShortBytes, NativeEntries, MethodSection;
    var c' := c.(smiNative := target);
    var a := [TEST_OPCODE, MEMOOP_TAG] + ShortBytes(JZ_OPCODE);
    var b := ShortBytes(MOV_OPCODE) + [KLASS_OFFSET];
    var n, t := NativeEntries(c.natives, entry + NATIVE_ENTRY_OFFSET), Tail(c, s, entry + TailAt(c));
    var x, y := DispBytes(c.smiNative, entry + 4), DispBytes(target, entry + 4);
    assert |a| == 4 by { ShortLength(JZ_OPCODE); }
    assert before == a + x + (b + n + t) && Code(c', s, entry) == a + y + (b + n + t) by {
      assert a + x + ShortBytes(MOV_OPCODE) + [KLASS_OFFSET] + n + t == a + x + (b + n + t);
      assert a + y + ShortBytes(MOV_OPCODE) + [KLASS_OFFSET] + n + t == a + y + (b + n + t);
      SameTail(c, c', s, entry + TailAt(c));
    }
    Patched(before, a, x, b + n + t, y);
  }

  lemma ShortLength(w: Word)
    ensures |ShortBytes(w)| == 2
  {}

  lemma SameTail(c: Contents, c': Contents, s: System, at: int)
    requires s.Valid() && c.InterpretedTargets() <= MAX_ENTRIES && c'.smiMethod == c.smiMethod
    requires c'.methods == c.methods
    ensures Tail(c', s, at) == Tail(c, s, at) && PicCode.Interpreted(c', s) == PicCode.Interpreted(c, s)
  {}

  lemma NativePatched(before: seq<Byte>, c: Contents, s: System, entry: Word, k: nat, target: Word)
    requires c.Valid(s) && before == Code(c, s, entry) && k < |c.natives|
    ensures var pos, c' := NATIVE_ENTRY_OFFSET + k * NATIVE_ENTRY_SIZE,
      c.(natives := c.natives[k := Pair(c.natives[k].klass, target)]);
      && pos + 12 <= |before|
      && before[..pos + 8] + DispBytes(target, entry + pos + 8) + before[pos + 12..] == Code(c', s, entry)
      && c'.Valid(s)
      && Entries(c', s) == Entries(c, s)[k + SmiNatives(c) := Compiled(c.natives[k].klass, target)]
  {
    hide DispBytes, Before, Behind, Code, Entries;
    NativeReplaced(c, s, k, target);
    var pos, q := NATIVE_ENTRY_OFFSET + k * NATIVE_ENTRY_SIZE, Pair(c.natives[k].klass, target);
    var c' := c.(natives := c.natives[k := q]);
    NativeWithin(c, s, entry, k);
    NativeWithin(c', s, entry, k);
    SameAround(c, s, entry, k, q);
    Patched(before, Before(c, s, entry, k), DispBytes(c.natives[k].target, entry + pos + 8), Behind(c, s, entry, k),
      DispBytes(target, entry + pos + 8));
  }

  /** The code up to the target of compiled entry k, and from there on. */
  function Before(c: Contents, s: System, entry: Word, k: nat): seq<Byte>
    requires k < |c.natives|
  {
    SmiTest(c, s, entry) + NativeEntries(c.natives[..k], entry + NATIVE_ENTRY_OFFSET)
      + (ShortBytes(CMP_OPCODE) + WordBytes(c.natives[k].klass) + ShortBytes(JZ_OPCODE))
  }

  function Behind(c: Contents, s: System, entry: Word, k: nat): seq<Byte>
    requires k < |c.natives| && s.Valid() && c.InterpretedTargets() <= MAX_ENTRIES
  {
    NativeEntries(c.natives[k + 1..], entry + NATIVE_ENTRY_OFFSET + (k + 1) * NATIVE_ENTRY_SIZE)
      + Tail(c, s, entry + TailAt(c))
  }

  lemma NativeWithin(c: Contents, s: System, entry: Word, k: nat)
    requires c.Valid(s) && k < |c.natives|
    ensures var pos := NATIVE_ENTRY_OFFSET + k * NATIVE_ENTRY_SIZE;
      && |Before(c, s, entry, k)| == pos + 8
      && Code(c, s, entry) ==
           Before(c, s, entry, k) + DispBytes(c.natives[k].target, entry + pos + 8) + Behind(c, s, entry, k)
  {
    hide DispBytes, ShortBytes, NativeEntries, Tail, SmiTest, WordBytes;
    var p, pos := c.natives[k], NATIVE_ENTRY_OFFSET + k * NATIVE_ENTRY_SIZE;
    var l, r := NativeEntries(c.natives[..k], entry + NATIVE_ENTRY_OFFSET),
      NativeEntries(c.natives[k + 1..], entry + pos + NATIVE_ENTRY_SIZE);
    var h := ShortBytes(CMP_OPCODE) + WordBytes(p.klass) + ShortBytes(JZ_OPCODE);
    var x := DispBytes(p.target, entry + pos + 8);
    NativesAround(c.natives, entry + NATIVE_ENTRY_OFFSET, k);
    ShortLength(CMP_OPCODE);
    ShortLength(JZ_OPCODE);
    var t0, t := SmiTest(c, s, entry), Tail(c, s, entry + TailAt(c));
    assert t0 + (l + (h + x) + r) + t == (t0 + l + h) + x + (r + t);
  }

  lemma SameAround(c: Contents, s: System, entry: Word, k: nat, q: Pair)
    requires c.Valid(s) && k < |c.natives| && q.klass == c.natives[k].klass
    ensures var c' := c.(natives := c.natives[k := q]);
      Before(c', s, entry, k) == Before(c, s, entry, k) && Behind(c', s, entry, k) == Behind(c, s, entry, k)
  {
    hide ShortBytes, NativeEntries, Tail, SmiTest, WordBytes;
    var c' := c.(natives := c.natives[k := q]);
    assert c'.natives[..k] == c.natives[..k] && c'.natives[k + 1..] == c.natives[k + 1..];
    SameTail(c, c', s, entry + TailAt(c));
    SameSmiTest(c, c', s, entry);
  }

  lemma NativeReplaced(c: Contents, s: System, k: nat, target: Word)
    requires c.Valid(s) && k < |c.natives|
    ensures var c' := c.(natives := c.natives[k := Pair(c.natives[k].klass, target)]);
      && c'.Valid(s)
      && Entries(c', s) == Entries(c, s)[k + SmiNatives(c) := Compiled(c.natives[k].klass, target)]
  {}

  lemma SameSmiTest(c: Contents, c': Contents, s: System, entry: Word)
    requires c'.smiNative == c.smiNative && c'.smiMethod == c.smiMethod && |c'.natives| == |c.natives|
    ensures SmiTest(c', s, entry) == SmiTest(c, s, entry)
  {}

  lemma NativesAround(ns: seq<Pair>, at: int, k: nat)
    requires k < |ns|
    ensures NativeEntries(ns, at) ==
      NativeEntries(ns[..k], at) + NativeEntry(ns[k], at + k * NATIVE_ENTRY_SIZE)
        + NativeEntries(ns[k + 1..], at + (k + 1) * NATIVE_ENTRY_SIZE)
  {
    hide NativeEntry;
    assert ns == ns[..k + 1] + ns[k + 1..];
    NativesConcat(ns[..k + 1], ns[k + 1..], at);
    NativesSnoc(ns, at, k);
  }

  function WithMethod(c: Contents, k: nat, m: Word): Contents
    requires k < c.InterpretedTargets()
  {
    if c.smiMethod == 0 then c.(methods := c.methods[k := Pair(c.methods[k].klass, m)])
    else if k == 0 then c.(smiMethod := m)
    else c.(methods := c.methods[k - 1 := Pair(c.methods[k - 1].klass, m)])
  }

  /** The code up to the first interpreted method. */
  function Head(c: Contents, s: System, entry: Word): seq<Byte>
    requires s.Valid() && 0 < c.InterpretedTargets() <= MAX_ENTRIES
  {
    (if c.HasNatives() then SmiTest(c, s, entry) + NativeEntries(c.natives, entry + NATIVE_ENTRY_OFFSET) else [])
      + ([CALL_OPCODE] + DispBytes(s.stubs[c.InterpretedTargets()], entry + TailAt(c) + 1))
  }

  lemma HeadAndMethods(c: Contents, s: System, entry: Word)
    requires c.Valid(s) && 0 < c.InterpretedTargets()
    ensures Code(c, s, entry) == Head(c, s, entry) + MethodEntries(PicCode.Interpreted(c, s))
    ensures |Head(c, s, entry)| == TailAt(c) + METHODS_ONLY_OFFSET
  {
    hide DispBytes, NativeEntries, SmiTest, MethodEntries;
    var n := if c.HasNatives() then SmiTest(c, s, entry) + NativeEntries(c.natives, entry + NATIVE_ENTRY_OFFSET)
      else [];
    var h, ms := [CALL_OPCODE] + DispBytes(s.stubs[c.InterpretedTargets()], entry + TailAt(c) + 1),
      MethodEntries(PicCode.Interpreted(c, s));
    assert n + (h + ms) == (n + h) + ms;
  }

  lemma SameHead(c: Contents, c': Contents, s: System, entry: Word)
    requires s.Valid() && 0 < c.InterpretedTargets() <= MAX_ENTRIES
    requires c'.smiNative == c.smiNative && (c'.smiMethod == 0 <==> c.smiMethod == 0) && c'.natives == c.natives
    requires |c'.methods| == |c.methods|
    ensures Head(c', s, entry) == Head(c, s, entry)
  {
    hide DispBytes, NativeEntries, SmiTest;
    MethodsSmi(c, c', s, entry);
  }

  lemma MethodPatched(before: seq<Byte>, c: Contents, s: System, entry: Word, k: nat, m: Word)
    requires c.Valid(s) && before == Code(c, s, entry) && k < c.InterpretedTargets() && m != 0
    ensures var pos, c' := TailAt(c) + METHODS_ONLY_OFFSET + k * METHOD_ENTRY_SIZE, WithMethod(c, k, m);
      && pos + 8 <= |before| && c'.Valid(s)
      && before[..pos + 4] + WordBytes(m) + before[pos + 8..] == Code(c', s, entry)
  {
    hide Head, WordBytes, MethodEntries, Code, Contents.Valid, PicCode.Interpreted, Contents.CodeSize;
    var c', ms := WithMethod(c, k, m), PicCode.Interpreted(c, s);
    MethodReplaced(c, s, k, m);
    HeadAndMethods(c, s, entry);
    HeadAndMethods(c', s, entry);
    SameHead(c, c', s, entry);
    MethodsAround(ms, k);
    MethodsAround(PicCode.Interpreted(c', s), k);
    var h, l, r, w := Head(c, s, entry), MethodEntries(ms[..k]), MethodEntries(ms[k + 1..]), WordBytes(ms[k].klass);
    Regroup(h, l, w, WordBytes(ms[k].target), r);
    Regroup(h, l, w, WordBytes(m), r);
    Patched(before, h + l + w, WordBytes(ms[k].target), r, WordBytes(m));
  }

  lemma Regroup(h: seq<Byte>, l: seq<Byte>, w: seq<Byte>, x: seq<Byte>, r: seq<Byte>)
    ensures h + (l + (w + x) + r) == (h + l + w) + x + r
  {}

  lemma MethodReplaced(c: Contents, s: System, k: nat, m: Word)
    requires c.Valid(s) && k < c.InterpretedTargets() && m != 0
    ensures var c', ms := WithMethod(c, k, m), PicCode.Interpreted(c, s);
      && c'.Valid(s) && SameShape(c, c', s) && c'.smiNative == c.smiNative && c'.natives == c.natives
      && (c'.smiMethod == 0 <==> c.smiMethod == 0) && |c'.methods| == |c.methods|
      && c'.InterpretedTargets() == c.InterpretedTargets()
      && PicCode.Interpreted(c', s) == ms[k := Pair(ms[k].klass, m)]
      && PicCode.Interpreted(c', s)[..k] == ms[..k] && PicCode.Interpreted(c', s)[k + 1..] == ms[k + 1..]
  {
    assert PicCode.Interpreted(WithMethod(c, k, m), s) ==
      PicCode.Interpreted(c, s)[k := Pair(PicCode.Interpreted(c, s)[k].klass, m)];
  }

  lemma MethodSet(before: seq<Byte>, c: Contents, s: System, entry: Word, j: nat, m: Word)
    requires c.Valid(s) && before == Code(c, s, entry) && j < c.Targets() && StateOf(c, j) == AtMethod && m != 0
    ensures var pos, c' := PositionOf(c, j), WithMethod(c, j - c.CompiledTargets(), m);
      && 0 <= pos && pos + 8 <= |before| && before[..pos + 4] + WordBytes(m) + before[pos + 8..] == Code(c', s, entry)
      && SameShape(c, c', s) && c'.smiNative == c.smiNative
      && Entries(c', s) == Entries(c, s)[j := Entry.Interpreted(Entries(c, s)[j].klass, m)]
  {
    hide Code, WordBytes, Contents.Valid, SameShape, Contents.CodeSize;
    var k := j - c.CompiledTargets();
    MethodPatched(before, c, s, entry, k, m);
    MethodReplaced(c, s, k, m);
    EntriesReplaced(c, WithMethod(c, k, m), s, k, m);
  }

  lemma EntriesReplaced(c: Contents, c': Contents, s: System, k: nat, m: Word)
    requires k < c.InterpretedTargets() && c'.smiNative == c.smiNative && c'.natives == c.natives
    requires PicCode.Interpreted(c', s) == PicCode.Interpreted(c, s)[k := Pair(PicCode.Interpreted(c, s)[k].klass, m)]
    ensures var j := k + c.CompiledTargets();
      Entries(c', s) == Entries(c, s)[j := Entry.Interpreted(Entries(c, s)[j].klass, m)]
  {
    hide PicCode.Interpreted;
    EntryIs(c, s, k + c.CompiledTargets());
  }

  function WithNative(c: Contents, j: nat, target: Word): Contents
    requires j < c.CompiledTargets()
  {
    if j < SmiNatives(c) then c.(smiNative := target)
    else c.(natives := c.natives[j - SmiNatives(c) := Pair(c.natives[j - SmiNatives(c)].klass, target)])
  }

  /** The same number of entries of the same kinds. */
  ghost predicate SameShape(c: Contents, c': Contents, s: System) {
    && c'.Valid(s) && c'.Targets() == c.Targets() && c'.CodeSize() == c.CodeSize()
    && forall j :: 0 <= j <= c.Targets() ==> StateOf(c', j) == StateOf(c, j) && PositionOf(c', j) == PositionOf(c, j)
  }

  lemma NativeSet(before: seq<Byte>, c: Contents, s: System, entry: Word, j: nat, target: Word)
    requires c.Valid(s) && before == Code(c, s, entry) && j < c.CompiledTargets() && (j < SmiNatives(c) ==> target != 0)
    ensures var pos, c' := PositionOf(c, j) + (if j < SmiNatives(c) then SMI_NATIVE_OFFSET else 8),
      WithNative(c, j, target);
      && 0 <= pos && pos + 4 <= |before|
      && before[..pos] + DispBytes(target, entry + pos) + before[pos + 4..] == Code(c', s, entry)
      && SameShape(c, c', s) && c'.smiNative == (if j < SmiNatives(c) then target else c.smiNative)
      && Entries(c', s) == Entries(c, s)[j := Compiled(Entries(c, s)[j].klass, target)]
  {
    hide Code, DispBytes, CompiledEntries, MethodOopEntries, PicCode.Interpreted, SmiTarget;
    EntryIs(c, s, j);
    if j < SmiNatives(c) {
      SmiParts(before, c, s, entry);
      SmiPatched(before, c, s, entry, target);
    } else {
      NativePatched(before, c, s, entry, j - SmiNatives(c), target);
    }
  }

  lemma MethodsSmi(c: Contents, c': Contents, s: System, entry: Word)
    requires c'.smiNative == c.smiNative && (c'.smiMethod == 0 <==> c.smiMethod == 0) && c'.natives == c.natives
    ensures SmiTest(c', s, entry) == SmiTest(c, s, entry)
  {}

  lemma MethodsAround(ms: seq<Pair>, k: nat)
    requires k < |ms|
    ensures MethodEntries(ms) == MethodEntries(ms[..k]) + MethodEntry(ms[k]) + MethodEntries(ms[k + 1..])
  {
    hide MethodEntry;
    MethodsFrom(ms, k + 1);
    MethodsSnoc(ms, k);
  }
}
