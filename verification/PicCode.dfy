/** Polymorphic inline caches as code: what is generated for a list of receiver classes with their
    targets, in its two layouts. Positions count from the start of the code, addresses are 32-bit words. */
module PicCode {
  import opened Basics
  import opened Displacements

  type Word = w: nat | w < WORD

  const MAX_ENTRIES := 4
  const METHODS_ONLY_OFFSET := 5
  const SMI_NATIVE_OFFSET := 4
  const NATIVE_ENTRY_OFFSET := 11
  const NATIVE_ENTRY_SIZE := 12
  const METHOD_ENTRY_OFFSET := 16
  const METHOD_ENTRY_SIZE := 8
  const MEGAMORPHIC_CODE_SIZE := 9

  const MEMOOP_TAG: Byte := 1
  const KLASS_OFFSET: Byte := 3

  const TEST_OPCODE: Byte := 0xa8
  const CALL_OPCODE: Byte := 0xe8
  const JMP_OPCODE: Byte := 0xe9
  const JZ_OPCODE: Word := 0x840f
  const MOV_OPCODE: Word := 0x508b
  const CMP_OPCODE: Word := 0xfa81

  /** Addresses and objects that the code refers to. Stub i serves i interpreted methods. */
  datatype System = System(normalLookup: Word, stubs: seq<Word>, megamorphic: Word, smiKlass: Word) {
    ghost predicate Valid() {
      && |stubs| == MAX_ENTRIES + 1
      && (forall i, j :: 1 <= i < j <= MAX_ENTRIES ==> stubs[i] != stubs[j])
      && forall i :: 1 <= i <= MAX_ENTRIES ==> stubs[i] != megamorphic
    }
  }

  datatype Pair = Pair(klass: Word, target: Word)

  /** The entries of a cache by kind; 0 stands for no target for small integers. */
  datatype Contents = Contents(smiNative: Word, smiMethod: Word, natives: seq<Pair>, methods: seq<Pair>) {
    function CompiledTargets(): nat { (if smiNative != 0 then 1 else 0) + |natives| }
    function InterpretedTargets(): nat { (if smiMethod != 0 then 1 else 0) + |methods| }
    function Targets(): nat { CompiledTargets() + InterpretedTargets() }
    predicate HasNatives() { |natives| > 0 || smiNative != 0 }
    predicate HasSmiCase() { smiMethod != 0 || smiNative != 0 }

    function CodeSize(): nat {
      var methodSize := InterpretedTargets() * METHOD_ENTRY_SIZE;
      if HasNatives() then METHOD_ENTRY_OFFSET + |natives| * NATIVE_ENTRY_SIZE + methodSize
      else METHODS_ONLY_OFFSET + methodSize
    }

    /** What the code generator counts on. */
    ghost predicate Valid(s: System) {
      && s.Valid() && 1 <= Targets() && InterpretedTargets() <= MAX_ENTRIES && (smiNative == 0 || smiMethod == 0)
      && (forall i :: 0 <= i < |natives| ==> natives[i].klass != s.smiKlass)
      && (forall i :: 0 <= i < |methods| ==> methods[i].klass != s.smiKlass)
    }
  }

  // ---- encoding ------------------------------------------------------------------------------------------------

  function ShortBytes(w: Word): seq<Byte> {
    [w % 0x100, w / 0x100 % 0x100]
  }

  /** An address relative to the end of the operand at address `at`. */
  function DispBytes(target: Word, at: int): (b: seq<Byte>)
    ensures |b| == 4
  {
    WordBytes(Unsigned(target - at - 4))
  }

  function TargetOf(w: Word, at: int): Word {
    Unsigned(w + at + 4)
  }

  lemma DispReads(target: Word, at: int)
    ensures TargetOf(Unsigned(target - at - 4), at) == target
  {
    var w := Unsigned(target - at - 4);
    var q := (target - at - 4) / WORD;
    assert w == target - at - 4 - q * WORD;
    assert w + at + 4 == target - q * WORD;
    assert (target - q * WORD) % WORD == target;
  }

  function MethodEntry(p: Pair): (b: seq<Byte>)
    ensures |b| == METHOD_ENTRY_SIZE
  {
    WordBytes(p.klass) + WordBytes(p.target)
  }

  function MethodEntries(ms: seq<Pair>): (b: seq<Byte>)
    ensures |b| == |ms| * METHOD_ENTRY_SIZE
  {
    if ms == [] then [] else MethodEntry(ms[0]) + MethodEntries(ms[1..])
  }

  /** The interpreted methods in the order in which the stub goes through them. */
  function Interpreted(c: Contents, s: System): (ms: seq<Pair>)
    ensures |ms| == c.InterpretedTargets()
  {
    (if c.smiMethod != 0 then [Pair(s.smiKlass, c.smiMethod)] else []) + c.methods
  }

  /** A call of the stub for so many methods, and the methods. `at` is the address of the call. */
  function MethodSection(c: Contents, s: System, at: int): (b: seq<Byte>)
    requires s.Valid() && c.InterpretedTargets() <= MAX_ENTRIES
    ensures |b| == METHODS_ONLY_OFFSET + c.InterpretedTargets() * METHOD_ENTRY_SIZE
  {
    [CALL_OPCODE] + DispBytes(s.stubs[c.InterpretedTargets()], at + 1) + MethodEntries(Interpreted(c, s))
  }

  /** Compare the class and jump if it is the one. */
  function NativeEntry(p: Pair, at: int): (b: seq<Byte>)
    ensures |b| == NATIVE_ENTRY_SIZE
  {
    ShortBytes(CMP_OPCODE) + WordBytes(p.klass) + ShortBytes(JZ_OPCODE) + DispBytes(p.target, at + 8)
  }

  function NativeEntries(ns: seq<Pair>, at: int): (b: seq<Byte>)
    ensures |b| == |ns| * NATIVE_ENTRY_SIZE
  {
    if ns == [] then [] else NativeEntry(ns[0], at) + NativeEntries(ns[1..], at + NATIVE_ENTRY_SIZE)
  }

  /** Where small integers go: to their compiled method, to the interpreted methods, or to a lookup. */
  function SmiTarget(c: Contents, s: System, entry: Word): Word {
    if c.smiNative != 0 then c.smiNative
    else if c.smiMethod != 0 then Unsigned(entry + NATIVE_ENTRY_OFFSET + |c.natives| * NATIVE_ENTRY_SIZE)
    else s.normalLookup
  }

  function SmiTest(c: Contents, s: System, entry: Word): (b: seq<Byte>)
    ensures |b| == NATIVE_ENTRY_OFFSET
  {
    [TEST_OPCODE, MEMOOP_TAG] + ShortBytes(JZ_OPCODE) + DispBytes(SmiTarget(c, s, entry), entry + SMI_NATIVE_OFFSET)
      + ShortBytes(MOV_OPCODE) + [KLASS_OFFSET]
  }

  /** After the compiled methods come the interpreted ones, or a jump to the lookup if there are none. */
  function Tail(c: Contents, s: System, at: int): (b: seq<Byte>)
    requires s.Valid() && c.InterpretedTargets() <= MAX_ENTRIES
    ensures |b| == METHODS_ONLY_OFFSET + c.InterpretedTargets() * METHOD_ENTRY_SIZE
  {
    if c.InterpretedTargets() > 0 then MethodSection(c, s, at) else [JMP_OPCODE] + DispBytes(s.normalLookup, at + 1)
  }

  function Code(c: Contents, s: System, entry: Word): (b: seq<Byte>)
    requires s.Valid() && c.InterpretedTargets() <= MAX_ENTRIES
    ensures |b| == c.CodeSize()
  {
    if c.HasNatives() then
      SmiTest(c, s, entry) + NativeEntries(c.natives, entry + NATIVE_ENTRY_OFFSET)
        + Tail(c, s, entry + NATIVE_ENTRY_OFFSET + |c.natives| * NATIVE_ENTRY_SIZE)
    else MethodSection(c, s, entry)
  }

  // ---- parts ---------------------------------------------------------------------------------------------------

  ghost predicate Has(code: seq<Byte>, pos: int, part: seq<Byte>) {
    0 <= pos && pos + |part| <= |code| && code[pos..pos + |part|] == part
  }

  lemma HasSplit(code: seq<Byte>, pos: int, a: seq<Byte>, b: seq<Byte>)
    requires Has(code, pos, a + b)
    ensures Has(code, pos, a) && Has(code, pos + |a|, b)
  {
    var c := code[pos..pos + |a + b|];
    assert c[..|a|] == a && c[|a|..] == b;
    assert code[pos..pos + |a|] == c[..|a|];
    assert code[pos + |a|..pos + |a| + |b|] == c[|a|..];
  }

  lemma HasByte(code: seq<Byte>, pos: int, b: Byte)
    requires Has(code, pos, [b])
    ensures 0 <= pos < |code| && code[pos] == b
  {
    assert code[pos..pos + 1][0] == b;
  }

  lemma HasShort(code: seq<Byte>, pos: int, w: Word)
    requires Has(code, pos, ShortBytes(w))
    ensures 0 <= pos && pos + 2 <= |code| && code[pos] == w % 0x100 && code[pos + 1] == w / 0x100 % 0x100
  {
    assert code[pos..pos + 2][0] == code[pos] && code[pos..pos + 2][1] == code[pos + 1];
  }

  lemma HasWord(code: seq<Byte>, pos: int, w: Word)
    requires Has(code, pos, WordBytes(w))
    ensures 0 <= pos && pos + 4 <= |code| && WordAt(code, pos) == w
  {
    WordBytesAt(code, pos, w);
  }

  lemma HasDisp(code: seq<Byte>, pos: int, entry: Word, target: Word)
    requires Has(code, pos, DispBytes(target, entry + pos))
    ensures 0 <= pos && pos + 4 <= |code| && TargetOf(WordAt(code, pos), entry + pos) == target
  {
    HasWord(code, pos, Unsigned(target - (entry + pos) - 4));
    DispReads(target, entry + pos);
  }

  lemma {:induction false} NativeAt(code: seq<Byte>, pos: int, ns: seq<Pair>, at: int, i: nat)
    requires Has(code, pos, NativeEntries(ns, at)) && i < |ns|
    ensures Has(code, pos + i * NATIVE_ENTRY_SIZE, NativeEntry(ns[i], at + i * NATIVE_ENTRY_SIZE))
    decreases i
  {
    HasSplit(code, pos, NativeEntry(ns[0], at), NativeEntries(ns[1..], at + NATIVE_ENTRY_SIZE));
    if i > 0 {
      NativeAt(code, pos + NATIVE_ENTRY_SIZE, ns[1..], at + NATIVE_ENTRY_SIZE, i - 1);
    }
  }

  lemma {:induction false} MethodAt(code: seq<Byte>, pos: int, ms: seq<Pair>, i: nat)
    requires Has(code, pos, MethodEntries(ms)) && i < |ms|
    ensures Has(code, pos + i * METHOD_ENTRY_SIZE, MethodEntry(ms[i]))
    decreases i
  {
    HasSplit(code, pos, MethodEntry(ms[0]), MethodEntries(ms[1..]));
    if i > 0 {
      MethodAt(code, pos + METHOD_ENTRY_SIZE, ms[1..], i - 1);
    }
  }

  /** Where what follows the compiled methods starts. */
  function TailAt(c: Contents): nat {
    if c.HasNatives() then NATIVE_ENTRY_OFFSET + |c.natives| * NATIVE_ENTRY_SIZE else 0
  }

  lemma CodeParts(code: seq<Byte>, c: Contents, s: System, entry: Word)
    requires c.Valid(s) && code == Code(c, s, entry)
    ensures c.HasNatives() ==>
      Has(code, 0, SmiTest(c, s, entry))
        && Has(code, NATIVE_ENTRY_OFFSET, NativeEntries(c.natives, entry + NATIVE_ENTRY_OFFSET))
    ensures Has(code, TailAt(c), Tail(c, s, entry + TailAt(c))) && (!c.HasNatives() ==> c.InterpretedTargets() > 0)
  {
    hide SmiTest, NativeEntries, MethodSection;
    assert Has(code, 0, code);
    if c.HasNatives() {
      var t, n := SmiTest(c, s, entry), NativeEntries(c.natives, entry + NATIVE_ENTRY_OFFSET);
      HasSplit(code, 0, t + n, Tail(c, s, entry + TailAt(c)));
      HasSplit(code, 0, t, n);
    }
  }

  lemma NativeParts(code: seq<Byte>, c: Contents, s: System, entry: Word, i: nat)
    requires c.Valid(s) && code == Code(c, s, entry) && i < |c.natives|
    ensures var pos := NATIVE_ENTRY_OFFSET + i * NATIVE_ENTRY_SIZE;
      && pos + NATIVE_ENTRY_SIZE <= |code| && code[pos] == 0x81 && code[pos + 1] == 0xfa
      && WordAt(code, pos + 2) == c.natives[i].klass
      && code[pos + 6] == 0x0f && code[pos + 7] == 0x84
      && TargetOf(WordAt(code, pos + 8), entry + pos + 8) == c.natives[i].target
  {
    hide SmiTest, NativeEntries, Tail, Code, WordAt, WordBytes;
    CodeParts(code, c, s, entry);
    NativeAt(code, NATIVE_ENTRY_OFFSET, c.natives, entry + NATIVE_ENTRY_OFFSET, i);
    var pos, p := NATIVE_ENTRY_OFFSET + i * NATIVE_ENTRY_SIZE, c.natives[i];
    var a, b, x, d := ShortBytes(CMP_OPCODE), WordBytes(p.klass), ShortBytes(JZ_OPCODE),
      DispBytes(p.target, entry + pos + 8);
    assert NativeEntry(p, entry + pos) == a + b + x + d;
    HasSplit(code, pos, a + b + x, d);
    HasSplit(code, pos, a + b, x);
    HasSplit(code, pos, a, b);
    HasShort(code, pos, CMP_OPCODE);
    HasWord(code, pos + 2, p.klass);
    HasShort(code, pos + 6, JZ_OPCODE);
    HasDisp(code, pos + 8, entry, p.target);
  }

  lemma SmiParts(code: seq<Byte>, c: Contents, s: System, entry: Word)
    requires c.Valid(s) && code == Code(c, s, entry) && c.HasNatives()
    ensures NATIVE_ENTRY_OFFSET <= |code| && code[0] == TEST_OPCODE && code[1] == MEMOOP_TAG && code[2] == 0x0f
    ensures code[3] == 0x84
    ensures TargetOf(WordAt(code, SMI_NATIVE_OFFSET), entry + SMI_NATIVE_OFFSET) == SmiTarget(c, s, entry)
    ensures code[8] == 0x8b && code[9] == 0x50 && code[10] == KLASS_OFFSET
  {
    hide NativeEntries, Tail, Code, WordAt, WordBytes, SmiTarget;
    CodeParts(code, c, s, entry);
    var a, b, d, x, y := [TEST_OPCODE, MEMOOP_TAG], ShortBytes(JZ_OPCODE),
      DispBytes(SmiTarget(c, s, entry), entry + SMI_NATIVE_OFFSET), ShortBytes(MOV_OPCODE), [KLASS_OFFSET];
    HasSplit(code, 0, a + b + d + x, y);
    HasSplit(code, 0, a + b + d, x);
    HasSplit(code, 0, a + b, d);
    HasSplit(code, 0, a, b);
    assert code[0..2] == a && code[0..2][0] == code[0] && code[0..2][1] == code[1];
    HasShort(code, 2, JZ_OPCODE);
    HasDisp(code, 4, entry, SmiTarget(c, s, entry));
    HasShort(code, 8, MOV_OPCODE);
    HasByte(code, 10, KLASS_OFFSET);
  }

  lemma TailParts(code: seq<Byte>, c: Contents, s: System, entry: Word)
    requires c.Valid(s) && code == Code(c, s, entry)
    ensures var pos := TailAt(c);
      && pos + METHODS_ONLY_OFFSET <= |code|
      && code[pos] == (if c.InterpretedTargets() > 0 then CALL_OPCODE else JMP_OPCODE)
      && TargetOf(WordAt(code, pos + 1), entry + pos + 1) ==
           (if c.InterpretedTargets() > 0 then s.stubs[c.InterpretedTargets()] else s.normalLookup)
      && (c.InterpretedTargets() > 0 ==> Has(code, pos + METHODS_ONLY_OFFSET, MethodEntries(Interpreted(c, s))))
  {
    hide Code, WordAt, WordBytes, MethodEntries, Interpreted, DispBytes, Has;
    CodeParts(code, c, s, entry);
    var pos, n := TailAt(c), c.InterpretedTargets();
    if n > 0 {
      var m := MethodEntries(Interpreted(c, s));
      HasSplit(code, pos, [CALL_OPCODE] + DispBytes(s.stubs[n], entry + pos + 1), m);
      BranchParts(code, pos, CALL_OPCODE, entry, s.stubs[n]);
    } else {
      BranchParts(code, pos, JMP_OPCODE, entry, s.normalLookup);
    }
  }

  /** A call or jump in the code. */
  lemma BranchParts(code: seq<Byte>, pos: nat, opcode: Byte, entry: Word, target: Word)
    requires Has(code, pos, [opcode] + DispBytes(target, entry + pos + 1))
    ensures pos + METHODS_ONLY_OFFSET <= |code| && code[pos] == opcode
    ensures TargetOf(WordAt(code, pos + 1), entry + pos + 1) == target
  {
    hide WordAt, DispBytes;
    HasSplit(code, pos, [opcode], DispBytes(target, entry + pos + 1));
    HasByte(code, pos, opcode);
    HasDisp(code, pos + 1, entry, target);
  }

  lemma MethodParts(code: seq<Byte>, c: Contents, s: System, entry: Word, i: nat)
    requires c.Valid(s) && code == Code(c, s, entry) && i < c.InterpretedTargets()
    ensures var pos, p := TailAt(c) + METHODS_ONLY_OFFSET + i * METHOD_ENTRY_SIZE, Interpreted(c, s)[i];
      pos + METHOD_ENTRY_SIZE <= |code| && WordAt(code, pos) == p.klass && WordAt(code, pos + 4) == p.target
  {
    hide Code, WordAt, WordBytes, MethodEntries, Interpreted;
    TailParts(code, c, s, entry);
    var start, ms := TailAt(c) + METHODS_ONLY_OFFSET, Interpreted(c, s);
    MethodAt(code, start, ms, i);
    HasSplit(code, start + i * METHOD_ENTRY_SIZE, WordBytes(ms[i].klass), WordBytes(ms[i].target));
    HasWord(code, start + i * METHOD_ENTRY_SIZE, ms[i].klass);
    HasWord(code, start + i * METHOD_ENTRY_SIZE + 4, ms[i].target);
  }
}
