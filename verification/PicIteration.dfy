/** Generating the code of a polymorphic inline cache in place, and reading its entries back from the code. */
module PicIteration {
  import opened Basics
  import opened Displacements
  import opened PicCode

  /** An entry of a cache: a class, and the compiled code or the method that its receivers get. */
  datatype Entry = Compiled(klass: Word, target: Word) | Interpreted(klass: Word, methodOop: Word)

  function CompiledEntries(ns: seq<Pair>): (es: seq<Entry>)
    ensures |es| == |ns| && forall i :: 0 <= i < |ns| ==> es[i] == Compiled(ns[i].klass, ns[i].target)
  {
    seq(|ns|, i requires 0 <= i < |ns| => Compiled(ns[i].klass, ns[i].target))
  }

  function MethodOopEntries(ms: seq<Pair>): (es: seq<Entry>)
    ensures |es| == |ms| && forall i :: 0 <= i < |ms| ==> es[i] == Entry.Interpreted(ms[i].klass, ms[i].target)
  {
    seq(|ms|, i requires 0 <= i < |ms| => Entry.Interpreted(ms[i].klass, ms[i].target))
  }

  function SmiNatives(c: Contents): nat { if c.smiNative != 0 then 1 else 0 }

  /** The entries in the order of the code. */
  function Entries(c: Contents, s: System): (es: seq<Entry>)
    ensures |es| == c.Targets()
  {
    (if c.smiNative != 0 then [Compiled(s.smiKlass, c.smiNative)] else []) + CompiledEntries(c.natives)
      + MethodOopEntries(PicCode.Interpreted(c, s))
  }

  lemma EntryIs(c: Contents, s: System, j: nat)
    requires j < c.Targets()
    ensures var k := j - SmiNatives(c);
      Entries(c, s)[j] ==
        if k < 0 then Compiled(s.smiKlass, c.smiNative)
        else if k < |c.natives| then Compiled(c.natives[k].klass, c.natives[k].target)
        else Entry.Interpreted(PicCode.Interpreted(c, s)[k - |c.natives|].klass,
          PicCode.Interpreted(c, s)[k - |c.natives|].target)
  {}

  class PolymorphicInlineCache {
    const system: System
    const entry: Word
    const selector: Word
    const code: array<Byte>
    var numberOfTargets: nat
    ghost var contents: Contents

    /** The code is that of the contents. No compiled target for small integers can be mistaken for the
        lookup or for a place in the code itself. */
    ghost predicate Valid()
      reads this, code
    {
      if numberOfTargets == 0 then code[..] == MegamorphicCode(system, entry, selector)
      else
        && contents.Valid(system) && numberOfTargets == contents.Targets() && code.Length == contents.CodeSize()
        && code[..] == Code(contents, system, entry) && Distinguishable(contents)
    }

    predicate IsMegamorphic()
      reads this`numberOfTargets
    {
      numberOfTargets == 0
    }

    ghost predicate Distinguishable(c: Contents)
    {
      && entry + code.Length <= WORD
      && c.smiNative != system.normalLookup && !(entry <= c.smiNative < entry + code.Length)
      && !(entry <= system.normalLookup < entry + code.Length)
    }

    predicate Contains(address: Word) { entry <= address < entry + code.Length }

    // ---- generating --------------------------------------------------------------------------------------------

    method PutByte(p: nat, b: Byte) returns (q: nat)
      requires p + 1 <= code.Length
      modifies code
      ensures q == p + 1 && code[..q] == old(code[..p]) + [b]
    {
      code[p] := b;
      q := p + 1;
    }

    method PutShort(p: nat, w: Word) returns (q: nat)
      requires p + 2 <= code.Length
      modifies code
      ensures q == p + 2 && code[..q] == old(code[..p]) + ShortBytes(w)
    {
      code[p], code[p + 1] := w % 0x100, w / 0x100 % 0x100;
      q := p + 2;
    }

    method PutWord(p: nat, w: Word) returns (q: nat)
      requires p + 4 <= code.Length
      modifies code
      ensures q == p + 4 && code[..q] == old(code[..p]) + WordBytes(w)
      ensures code[q..] == old(code[q..])
    {
      var b := WordBytes(w);
      code[p], code[p + 1], code[p + 2], code[p + 3] := b[0], b[1], b[2], b[3];
      q := p + 4;
    }

    method PutDisp(p: nat, target: Word) returns (q: nat)
      requires p + 4 <= code.Length
      modifies code
      ensures q == p + 4 && code[..q] == old(code[..p]) + DispBytes(target, entry + p)
      ensures code[q..] == old(code[q..])
    {
      q := PutWord(p, Unsigned(target - (entry + p) - 4));
    }

    method PutMethod(p: nat, m: Pair) returns (q: nat)
      requires p + METHOD_ENTRY_SIZE <= code.Length
      modifies code
      ensures q == p + METHOD_ENTRY_SIZE && code[..q] == old(code[..p]) + MethodEntry(m)
    {
      hide WordBytes;
      q := PutWord(p, m.klass);
      q := PutWord(q, m.target);
    }

    /** `code_for_methodOops_only`: the call of the stub and the methods, small integers first. */
    method CodeForMethods(p0: nat, c: Contents) returns (p: nat)
      requires system.Valid() && 0 < c.InterpretedTargets() <= MAX_ENTRIES
      requires p0 + METHODS_ONLY_OFFSET + c.InterpretedTargets() * METHOD_ENTRY_SIZE <= code.Length
      modifies code
      ensures p == p0 + METHODS_ONLY_OFFSET + c.InterpretedTargets() * METHOD_ENTRY_SIZE
      ensures code[..p] == old(code[..p0]) + MethodSection(c, system, entry + p0)
    {
      hide MethodEntry, DispBytes, MethodEntries;
      p := PutByte(p0, CALL_OPCODE);
      if c.smiMethod == 0 {
        p := PutDisp(p, system.stubs[|c.methods|]);
      } else {
        p := PutDisp(p, system.stubs[1 + |c.methods|]);
        p := PutMethod(p, Pair(system.smiKlass, c.smiMethod));
      }
      ghost var head := code[..p];
      ghost var k := if c.smiMethod == 0 then 0 else 1;
      MethodsFrom(PicCode.Interpreted(c, system), k);
      p := PutMethods(p, c.methods);
      assert PicCode.Interpreted(c, system)[k..] == c.methods;
      assert head == old(code[..p0]) + [CALL_OPCODE] + DispBytes(system.stubs[c.InterpretedTargets()], entry + p0 + 1)
        + MethodEntries(PicCode.Interpreted(c, system)[..k]) by { FirstMethod(c, system, k); }
      SectionIs(old(code[..p0]), head, code[..p], c, system, entry + p0, k);
    }

    method PutMethods(p0: nat, ms: seq<Pair>) returns (p: nat)
      requires p0 + |ms| * METHOD_ENTRY_SIZE <= code.Length
      modifies code
      ensures p == p0 + |ms| * METHOD_ENTRY_SIZE && code[..p] == old(code[..p0]) + MethodEntries(ms)
    {
      hide MethodEntry;
      p := p0;
      var i := 0;
      NoMethods(ms);
      while i < |ms|
        invariant i <= |ms| && p == p0 + i * METHOD_ENTRY_SIZE && code[..p] == old(code[..p0]) + MethodEntries(ms[..i])
      {
        MethodsSnoc(ms, i);
        p := PutMethod(p, ms[i]);
        i := i + 1;
      }
      assert ms[..|ms|] == ms;
    }

    method PutNative(p: nat, n: Pair) returns (q: nat)
      requires p + NATIVE_ENTRY_SIZE <= code.Length
      modifies code
      ensures q == p + NATIVE_ENTRY_SIZE && code[..q] == old(code[..p]) + NativeEntry(n, entry + p)
    {
      hide WordBytes, DispBytes, ShortBytes;
      q := PutShort(p, CMP_OPCODE);
      q := PutWord(q, n.klass);
      q := PutShort(q, JZ_OPCODE);
      q := PutDisp(q, n.target);
    }

    method PutNatives(p0: nat, ns: seq<Pair>) returns (p: nat)
      requires p0 + |ns| * NATIVE_ENTRY_SIZE <= code.Length
      modifies code
      ensures p == p0 + |ns| * NATIVE_ENTRY_SIZE && code[..p] == old(code[..p0]) + NativeEntries(ns, entry + p0)
    {
      hide NativeEntry;
      p := p0;
      var i := 0;
      NoNatives(ns, entry + p0);
      while i < |ns|
        invariant i <= |ns| && p == p0 + i * NATIVE_ENTRY_SIZE
        invariant code[..p] == old(code[..p0]) + NativeEntries(ns[..i], entry + p0)
      {
        NativesSnoc(ns, entry + p0, i);
        p := PutNative(p, ns[i]);
        i := i + 1;
      }
      assert ns[..|ns|] == ns;
    }

    /** The test for small integers; their target is filled in later when it is behind the compiled methods. */
    method PutSmiTest(c: Contents) returns (p: nat, fixup: nat)
      requires NATIVE_ENTRY_OFFSET <= code.Length
      modifies code
      ensures p == NATIVE_ENTRY_OFFSET && fixup == if c.smiNative == 0 && c.smiMethod != 0 then SMI_NATIVE_OFFSET else 0
      ensures code[..p] == SmiTestWith(if c.smiNative != 0 then c.smiNative else if c.smiMethod != 0 then 0
        else system.normalLookup, entry)
    {
      hide DispBytes, ShortBytes;
      fixup := 0;
      p := PutByte(0, TEST_OPCODE);
      p := PutByte(p, MEMOOP_TAG);
      p := PutShort(p, JZ_OPCODE);
      if c.smiNative != 0 {
        p := PutDisp(p, c.smiNative);
      } else if c.smiMethod != 0 {
        fixup := p;
        p := PutDisp(p, 0);
      } else {
        p := PutDisp(p, system.normalLookup);
      }
      p := PutShort(p, MOV_OPCODE);
      p := PutByte(p, KLASS_OFFSET);
    }

    /** `code_for_polymorphic_case`: all of the code. */
    method CodeForPolymorphicCase(c: Contents) returns (size: nat)
      requires c.Valid(system) && code.Length == c.CodeSize()
      modifies code
      ensures size == code.Length && code[..] == Code(c, system, entry)
    {
      hide SmiTestWith, NativeEntries, MethodSection, DispBytes;
      if c.HasNatives() {
        var p, fixup := PutSmiTest(c);
        ghost var t := code[..p];
        p := PutNatives(p, c.natives);
        ghost var n := NativeEntries(c.natives, entry + NATIVE_ENTRY_OFFSET);
        if c.smiMethod != 0 || |c.methods| > 0 {
          if fixup != 0 {
            ghost var before := code[..];
            var q := PutDisp(fixup, Unsigned(entry + p));
            FixedUp(before, code[..], t, n, c, system, entry, p);
          }
          SmiTestIs(c, system, entry);
          p := CodeForMethods(p, c);
        } else {
          SmiTestIs(c, system, entry);
          p := PutByte(p, JMP_OPCODE);
          p := PutDisp(p, system.normalLookup);
        }
        size := p;
      } else {
        size := CodeForMethods(0, c);
      }
      assert code[..] == code[..size];
    }

    /** `code_for_megamorphic_case`: only the selector is kept, for a lookup. */
    constructor Megamorphic(s: System, at: Word, sel: Word)
      ensures Valid() && IsMegamorphic() && system == s && entry == at && selector == sel && fresh(code)
    {
      system, entry, selector := s, at, sel;
      code := new Byte[MEGAMORPHIC_CODE_SIZE](_ => 0);
      numberOfTargets := 0;
      contents := Contents(0, 0, [], []);
      new;
      hide DispBytes, WordBytes;
      var p := PutByte(0, CALL_OPCODE);
      p := PutDisp(p, system.megamorphic);
      p := PutWord(p, selector);
      assert code[..] == code[..p];
    }

    constructor (s: System, at: Word, sel: Word, c: Contents)
      requires c.Valid(s) && at + c.CodeSize() <= WORD
      requires c.smiNative != s.normalLookup && !(at <= c.smiNative < at + c.CodeSize())
      requires !(at <= s.normalLookup < at + c.CodeSize())
      ensures Valid() && !IsMegamorphic() && contents == c && system == s && fresh(code) && entry == at
      ensures selector == sel
    {
      system, entry, selector := s, at, sel;
      code := new Byte[c.CodeSize()](_ => 0);
      numberOfTargets := c.Targets();
      contents := c;
      new;
      var size := CodeForPolymorphicCase(c);
    }
  }

  function MegamorphicCode(s: System, entry: Word, selector: Word): (b: seq<Byte>)
    ensures |b| == MEGAMORPHIC_CODE_SIZE
  {
    [CALL_OPCODE] + DispBytes(s.megamorphic, entry + 1) + WordBytes(selector)
  }

  // ---- facts about the parts ---------------------------------------------------------------------------------------

  function SmiTestWith(target: Word, entry: Word): (b: seq<Byte>)
    ensures |b| == NATIVE_ENTRY_OFFSET
  {
    [TEST_OPCODE] + [MEMOOP_TAG] + ShortBytes(JZ_OPCODE) + DispBytes(target, entry + SMI_NATIVE_OFFSET)
      + ShortBytes(MOV_OPCODE) + [KLASS_OFFSET]
  }

  lemma SmiTestIs(c: Contents, s: System, entry: Word)
    ensures SmiTestWith(SmiTarget(c, s, entry), entry) == SmiTest(c, s, entry)
  {
    hide DispBytes, ShortBytes, SmiTarget;
    assert [TEST_OPCODE] + [MEMOOP_TAG] == [TEST_OPCODE, MEMOOP_TAG];
  }

  /** Filling in the target of small integers afterwards gives the same code as knowing it before. */
  lemma FixedUp(before: seq<Byte>, after: seq<Byte>, t: seq<Byte>, n: seq<Byte>, c: Contents, s: System, entry: Word,
                p: nat)
    requires c.smiNative == 0 && c.smiMethod != 0 && p == NATIVE_ENTRY_OFFSET + |c.natives| * NATIVE_ENTRY_SIZE
    requires t == SmiTestWith(0, entry) && |n| == p - NATIVE_ENTRY_OFFSET && p <= |before| == |after|
    requires before[..p] == t + n
    requires after[..8] == before[..4] + DispBytes(Unsigned(entry + p), entry + SMI_NATIVE_OFFSET)
    requires after[8..] == before[8..]
    ensures after[..p] == SmiTestWith(SmiTarget(c, s, entry), entry) + n
  {
    hide DispBytes;
    var d := DispBytes(Unsigned(entry + p), entry + SMI_NATIVE_OFFSET);
    assert before[..4] == before[..p][..4] && t[..4] == [TEST_OPCODE] + [MEMOOP_TAG] + ShortBytes(JZ_OPCODE);
    assert before[8..p] == (t + n)[8..p] == t[8..] + n;
    assert t[8..] == ShortBytes(MOV_OPCODE) + [KLASS_OFFSET];
    assert after[..p] == after[..8] + before[8..p];
  }

  lemma NoMethods(ms: seq<Pair>)
    ensures MethodEntries(ms[..0]) == []
  {}

  lemma NoNatives(ns: seq<Pair>, at: int)
    ensures NativeEntries(ns[..0], at) == []
  {}

  lemma {:induction false} MethodsConcat(a: seq<Pair>, b: seq<Pair>)
    ensures MethodEntries(a + b) == MethodEntries(a) + MethodEntries(b)
    decreases |a|
  {
    hide MethodEntry;
    if a == [] {
      assert a + b == b;
    } else {
      assert (a + b)[1..] == a[1..] + b;
      MethodsConcat(a[1..], b);
    }
  }

  lemma MethodsSnoc(ms: seq<Pair>, i: nat)
    requires i < |ms|
    ensures MethodEntries(ms[..i + 1]) == MethodEntries(ms[..i]) + MethodEntry(ms[i])
  {
    hide MethodEntry;
    assert ms[..i + 1] == ms[..i] + [ms[i]];
    MethodsConcat(ms[..i], [ms[i]]);
    assert [ms[i]][1..] == [];
  }

  lemma MethodsFrom(ms: seq<Pair>, k: nat)
    requires k <= |ms|
    ensures MethodEntries(ms) == MethodEntries(ms[..k]) + MethodEntries(ms[k..])
  {
    assert ms == ms[..k] + ms[k..];
    MethodsConcat(ms[..k], ms[k..]);
  }

  lemma FirstMethod(c: Contents, s: System, k: nat)
    requires k == (if c.smiMethod == 0 then 0 else 1)
    ensures MethodEntries(PicCode.Interpreted(c, s)[..k]) == if c.smiMethod == 0 then []
      else MethodEntry(Pair(s.smiKlass, c.smiMethod))
  {
    hide MethodEntry;
    var ms := PicCode.Interpreted(c, s);
    if c.smiMethod != 0 {
      assert ms[..1] == [Pair(s.smiKlass, c.smiMethod)] && ms[..1][1..] == [];
    }
  }

  lemma SectionIs(pre: seq<Byte>, head: seq<Byte>, all: seq<Byte>, c: Contents, s: System, at: int, k: nat)
    requires s.Valid() && c.InterpretedTargets() <= MAX_ENTRIES && k <= c.InterpretedTargets()
    requires head == pre + [CALL_OPCODE] + DispBytes(s.stubs[c.InterpretedTargets()], at + 1)
      + MethodEntries(PicCode.Interpreted(c, s)[..k])
    requires all == head + MethodEntries(PicCode.Interpreted(c, s)[k..])
    ensures all == pre + MethodSection(c, s, at)
  {
    hide MethodEntries, DispBytes;
    MethodsFrom(PicCode.Interpreted(c, s), k);
    var d := DispBytes(s.stubs[c.InterpretedTargets()], at + 1);
    var a, b := MethodEntries(PicCode.Interpreted(c, s)[..k]), MethodEntries(PicCode.Interpreted(c, s)[k..]);
    assert pre + [CALL_OPCODE] + d + a + b == pre + ([CALL_OPCODE] + d + (a + b));
  }

  lemma {:induction false} NativesConcat(a: seq<Pair>, b: seq<Pair>, at: int)
    ensures NativeEntries(a + b, at) == NativeEntries(a, at) + NativeEntries(b, at + |a| * NATIVE_ENTRY_SIZE)
    decreases |a|
  {
    hide NativeEntry;
    if a == [] {
      assert a + b == b;
    } else {
      assert (a + b)[1..] == a[1..] + b;
      NativesConcat(a[1..], b, at + NATIVE_ENTRY_SIZE);
    }
  }

  lemma NativesSnoc(ns: seq<Pair>, at: int, i: nat)
    requires i < |ns|
    ensures NativeEntries(ns[..i + 1], at) ==
      NativeEntries(ns[..i], at) + NativeEntry(ns[i], at + i * NATIVE_ENTRY_SIZE)
  {
    hide NativeEntry;
    assert ns[..i + 1] == ns[..i] + [ns[i]];
    NativesConcat(ns[..i], [ns[i]], at);
    assert [ns[i]][1..] == [];
  }
}
