/** Bytes of emitted code, and the 32-bit operand field that an unresolved label use keeps its place
    in the label's chain in: 22 bits of position, 2 bits of kind and 8 bits of further information. */
module Displacements {
  import opened Basics

  const WORD := 0x1_0000_0000
  const MAX_CODE := 0x40_0000

  function Unsigned(x: int): (w: nat)
    ensures w < WORD
  {
    x % WORD
  }

  /** A word read as a signed 32-bit integer. */
  function Signed(w: nat): int {
    if w < 0x8000_0000 then w else w - WORD
  }

  lemma SignedUnsigned(x: int)
    requires -0x8000_0000 <= x < 0x8000_0000
    ensures Signed(Unsigned(x)) == x
  {}

  /** The four bytes of a word, lowest first. */
  function WordBytes(w: nat): (b: seq<Byte>)
    requires w < WORD
    ensures |b| == 4
  {
    [w % 0x100, w / 0x100 % 0x100, w / 0x1_0000 % 0x100, w / 0x100_0000]
  }

  function WordAt(code: seq<Byte>, pos: nat): (w: nat)
    requires pos + 4 <= |code|
    ensures w < WORD
  {
    code[pos] as int + 0x100 * (code[pos + 1] as int) + 0x1_0000 * (code[pos + 2] as int)
      + 0x100_0000 * (code[pos + 3] as int)
  }

  lemma WordSplit(w: nat)
    requires w < WORD
    ensures WordAt(WordBytes(w), 0) == w
  {
    var q, r, s := w / 0x100, w / 0x1_0000, w / 0x100_0000;
    assert w == 0x100 * q + w % 0x100;
    assert r == q / 0x100 && s == r / 0x100;
  }

  lemma WordBytesAt(code: seq<Byte>, pos: nat, w: nat)
    requires pos + 4 <= |code| && w < WORD && code[pos..pos + 4] == WordBytes(w)
    ensures WordAt(code, pos) == w
  {
    WordSplit(w);
    assert WordAt(code, pos) == WordAt(code[pos..pos + 4], 0);
  }

  datatype Kind = Call | AbsoluteJump | ConditionalJump | IcInfo

  function Number(k: Kind): nat {
    match k
    case Call => 0
    case AbsoluteJump => 1
    case ConditionalJump => 2
    case IcInfo => 3
  }

  datatype Displacement = Displacement(data: nat)
  {
    function Info(): nat { data % 0x100 }

    function Type(): Kind {
      match data / 0x100 % 4
      case 0 => Call
      case 1 => AbsoluteJump
      case 2 => ConditionalJump
      case _ => IcInfo
    }

    /** The position of the next use in the chain, or 0 at its end. */
    function Next(): nat { data / 0x400 % MAX_CODE }
  }

  function Displace(next: nat, kind: Kind, info: nat): (d: Displacement)
    requires next < MAX_CODE && info < 0x100
    ensures d.data < WORD
  {
    Displacement(next * 0x400 + Number(kind) * 0x100 + info)
  }

  /** Nothing is lost in the packing. */
  lemma DisplaceFields(next: nat, kind: Kind, info: nat)
    requires next < MAX_CODE && info < 0x100
    ensures Displace(next, kind, info).Next() == next
    ensures Displace(next, kind, info).Type() == kind
    ensures Displace(next, kind, info).Info() == info
  {
    var d := next * 0x400 + Number(kind) * 0x100 + info;
    assert d / 0x100 == next * 4 + Number(kind);
    assert d / 0x400 == next;
  }

  // ---- instructions with a label ----------------------------------------------------------------------

  function Opcode(kind: Kind, info: nat): (op: seq<Byte>)
    requires kind == ConditionalJump ==> info < 16
    ensures |op| == if kind == ConditionalJump then 2 else 1
  {
    match kind
    case Call => [0xE8]
    case AbsoluteJump => [0xE9]
    case ConditionalJump => [0x0F, 0x80 + info]
    case IcInfo => [0xA9]
  }

  /** Where the operand field starts within the instruction. */
  function OpcodeSize(kind: Kind): nat {
    if kind == ConditionalJump then 2 else 1
  }

  /** The operand of an instruction at `at` that refers to position `to`: relative to the next
      instruction, or for inline cache information relative to the instruction itself. */
  function Operand(kind: Kind, info: nat, at: int, to: int): (w: nat)
    ensures w < WORD
  {
    if kind == IcInfo then Unsigned((to - at) * 0x100 + info)
    else Unsigned(to - (at + OpcodeSize(kind) + 4))
  }

  /** The kind, further information and target that the processor, or the reader of inline cache
      information, sees in the bytes of an instruction at position `at`. */
  datatype Reference = Reference(kind: Kind, info: nat, to: int) | NoReference

  function Decode(piece: seq<Byte>, at: int): Reference {
    if |piece| >= 5 && piece[0] == 0xE8 then Reference(Call, 0, at + 5 + Signed(WordAt(piece, 1)))
    else if |piece| >= 5 && piece[0] == 0xE9 then Reference(AbsoluteJump, 0, at + 5 + Signed(WordAt(piece, 1)))
    else if |piece| >= 6 && piece[0] == 0x0F && 0x80 <= piece[1] < 0x90 then
      Reference(ConditionalJump, piece[1] - 0x80, at + 6 + Signed(WordAt(piece, 2)))
    else if |piece| >= 5 && piece[0] == 0xA9 then
      Reference(IcInfo, WordAt(piece, 1) % 0x100, at + Signed(WordAt(piece, 1)) / 0x100)
    else NoReference
  }

  /** What follows the instruction does not matter. */
  lemma DecodePrefix(piece: seq<Byte>, rest: seq<Byte>, at: int)
    requires Decode(piece, at) != NoReference
    ensures Decode(piece + rest, at) == Decode(piece, at)
  {}

  predicate WellFormedUse(kind: Kind, info: nat) {
    info < (match kind case Call => 1 case AbsoluteJump => 1 case ConditionalJump => 16 case IcInfo => 0x100)
  }

  /** A resolved operand decodes to the position it was resolved to. */
  lemma DecodeOperand(kind: Kind, info: nat, at: int, to: int)
    requires WellFormedUse(kind, info) && 0 <= at <= MAX_CODE && 0 <= to <= MAX_CODE
    ensures Decode(Opcode(kind, info) + WordBytes(Operand(kind, info, at, to)), at) == Reference(kind, info, to)
  {
    var w := Operand(kind, info, at, to);
    var piece := Opcode(kind, info) + WordBytes(w);
    assert piece[|Opcode(kind, info)|..] == WordBytes(w);
    WordBytesAt(piece, OpcodeSize(kind), w);
    if kind == IcInfo {
      IcOperand(info, to - at);
    } else {
      SignedUnsigned(to - (at + OpcodeSize(kind) + 4));
    }
  }

  lemma IcOperand(info: nat, offs: int)
    requires info < 0x100 && -MAX_CODE <= offs <= MAX_CODE
    ensures var w := Unsigned(offs * 0x100 + info);
      w % 0x100 == info && Signed(w) / 0x100 == offs
  {
    SignedUnsigned(offs * 0x100 + info);
    var w := Unsigned(offs * 0x100 + info);
    assert w == offs * 0x100 + info || w == offs * 0x100 + info + WORD;
    assert (offs * 0x100 + info) / 0x100 == offs;
  }
}
