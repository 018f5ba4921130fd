/** The byte map of the code heap: one byte for every block. The first and last bytes of a chunk say
    how long it is and whether it is used; the bytes in between lead back to its start. */
module ChunkMap {
  import opened Basics

  const MAX_DISTANCE := 128
  const UNUSED := 128
  const UNUSED_OVFL := 190
  const USED := 192
  const USED_OVFL := 254
  const INVALID: Byte := 255

  const MIN_HEADER_SIZE := 1
  const MAX_HEADER_SIZE := 4
  const MAX_ONE_BYTE_LEN := USED_OVFL - USED
  const DISTANCES := 128
  const MAX_CHUNK := DISTANCES * DISTANCES * DISTANCES

  // ---- encoding ------------------------------------------------------------------------------------------

  function FirstByte(n: nat, used: bool): (b: Byte)
    requires 0 < n
    ensures MAX_DISTANCE <= b < INVALID && (b >= USED <==> used)
  {
    if n < MAX_ONE_BYTE_LEN then (if used then USED else UNUSED) + n - 1
    else if used then USED_OVFL else UNUSED_OVFL
  }

  function Digit(n: nat, k: nat): (b: Byte)
    requires n < MAX_CHUNK && k < 3
    ensures MAX_DISTANCE <= b
  {
    UNUSED + (if k == 0 then n / (DISTANCES * DISTANCES) else if k == 1 then n / DISTANCES % DISTANCES
      else n % DISTANCES)
  }

  function HeaderLength(n: nat): nat {
    if n < MAX_ONE_BYTE_LEN then MIN_HEADER_SIZE else MAX_HEADER_SIZE
  }

  /** The distance byte i of a used chunk of n blocks. */
  function Distance(n: nat, i: nat): (b: nat)
    requires HeaderLength(n) <= i < n - HeaderLength(n)
    ensures 0 < b < MAX_DISTANCE && b <= i
  {
    if n < MAX_ONE_BYTE_LEN || i < MAX_DISTANCE then i else MAX_DISTANCE - MAX_HEADER_SIZE
  }

  /** Both ends of a chunk carry its size and state. */
  ghost predicate Header(m: seq<Byte>, s: nat, n: nat, used: bool) {
    && 0 < n < MAX_CHUNK && s + n <= |m|
    && m[s] == m[s + n - 1] == FirstByte(n, used)
    && (n >= MAX_ONE_BYTE_LEN ==>
          && m[s + 1] == m[s + n - 4] == Digit(n, 0) && m[s + 2] == m[s + n - 3] == Digit(n, 1)
          && m[s + 3] == m[s + n - 2] == Digit(n, 2))
  }

  /** A used chunk leads back to its start from everywhere; of an unused one only the first byte after
      the header is set. */
  ghost predicate Marked(m: seq<Byte>, s: nat, n: nat, used: bool) {
    && Header(m, s, n, used)
    && (used ==> forall i :: HeaderLength(n) <= i < n - HeaderLength(n) ==> m[s + i] == Distance(n, i))
    && (!used && n > 2 * MIN_HEADER_SIZE ==> m[s + HeaderLength(n)] == HeaderLength(n))
  }

  // ---- decoding ------------------------------------------------------------------------------------------

  predicate IsUsedByte(b: Byte) { b >= USED }

  function Low(b: Byte): nat { (b + UNUSED) % 0x100 }

  /** The size of the chunk that starts at p. */
  function SizeAt(m: seq<Byte>, p: nat): int
    requires p < |m| && (p + 3 < |m| || (m[p] != USED_OVFL && m[p] != UNUSED_OVFL))
  {
    var used := IsUsedByte(m[p]);
    if m[p] != (if used then USED_OVFL else UNUSED_OVFL) then m[p] + 1 - if used then USED else UNUSED
    else (Low(m[p + 1]) * DISTANCES + Low(m[p + 2])) * DISTANCES + Low(m[p + 3])
  }

  /** The size of the chunk that ends before p. */
  function SizeBefore(m: seq<Byte>, p: nat): int
    requires 0 < p <= |m| && (4 <= p || (m[p - 1] != USED_OVFL && m[p - 1] != UNUSED_OVFL))
  {
    var used := IsUsedByte(m[p - 1]);
    if m[p - 1] != (if used then USED_OVFL else UNUSED_OVFL) then m[p - 1] + 1 - if used then USED else UNUSED
    else (Low(m[p - 4]) * DISTANCES + Low(m[p - 3])) * DISTANCES + Low(m[p - 2])
  }

  lemma Digits(n: nat)
    requires n < MAX_CHUNK
    ensures (Low(Digit(n, 0)) * DISTANCES + Low(Digit(n, 1))) * DISTANCES + Low(Digit(n, 2)) == n
  {
    var q := n / DISTANCES;
    assert n == q * DISTANCES + n % DISTANCES;
    assert q == q / DISTANCES * DISTANCES + q % DISTANCES;
    assert q / DISTANCES == n / (DISTANCES * DISTANCES);
  }

  /** Reading either end of a chunk gives its size and state. */
  lemma HeaderReads(m: seq<Byte>, s: nat, n: nat, used: bool)
    requires Header(m, s, n, used)
    ensures s + 3 < |m| || (m[s] != USED_OVFL && m[s] != UNUSED_OVFL)
    ensures 4 <= s + n || (m[s + n - 1] != USED_OVFL && m[s + n - 1] != UNUSED_OVFL)
    ensures IsUsedByte(m[s]) <==> used
    ensures IsUsedByte(m[s + n - 1]) <==> used
    ensures SizeAt(m, s) == n && SizeBefore(m, s + n) == n
  {
    if n >= MAX_ONE_BYTE_LEN {
      Digits(n);
    }
  }

  /** What a mark says depends only on the chunk's own bytes. */
  lemma MarkedElsewhere(m: seq<Byte>, m': seq<Byte>, s: nat, n: nat, used: bool)
    requires Marked(m, s, n, used) && |m'| == |m| && forall i :: s <= i < s + n ==> m'[i] == m[i]
    ensures Marked(m', s, n, used)
  {}

  lemma HeaderElsewhere(m: seq<Byte>, m': seq<Byte>, s: nat, n: nat, used: bool)
    requires Header(m, s, n, used) && |m'| == |m| && forall i :: s <= i < s + n ==> m'[i] == m[i]
    ensures Header(m', s, n, used)
  {}

  /** Writes the marks of a chunk of n blocks. */
  method MarkSize(bytes: array<Byte>, p: nat, n: nat, used: bool)
    requires 0 < n < MAX_CHUNK && p + n <= bytes.Length
    modifies bytes
    ensures Marked(bytes[..], p, n, used)
    ensures forall i :: 0 <= i < bytes.Length && !(p <= i < p + n) ==> bytes[i] == old(bytes[i])
  {
    WriteHeader(bytes, p, n, used);
    if !used {
      if n > 2 * MIN_HEADER_SIZE {
        bytes[p + HeaderLength(n)] := HeaderLength(n);
      }
    } else {
      WriteDistances(bytes, p, n);
    }
  }

  method WriteHeader(bytes: array<Byte>, p: nat, n: nat, used: bool)
    requires 0 < n < MAX_CHUNK && p + n <= bytes.Length
    modifies bytes
    ensures Header(bytes[..], p, n, used)
    ensures forall i :: 0 <= i < bytes.Length && !(p <= i < p + n) ==> bytes[i] == old(bytes[i])
  {
    var e := p + n - 1;
    bytes[p], bytes[e] := FirstByte(n, used), FirstByte(n, used);
    if n >= MAX_ONE_BYTE_LEN {
      bytes[p + 1], bytes[e - 3] := Digit(n, 0), Digit(n, 0);
      bytes[p + 2], bytes[e - 2] := Digit(n, 1), Digit(n, 1);
      bytes[p + 3], bytes[e - 1] := Digit(n, 2), Digit(n, 2);
    }
  }

  method WriteDistances(bytes: array<Byte>, p: nat, n: nat)
    requires p + n <= bytes.Length && Header(bytes[..], p, n, true)
    modifies bytes
    ensures Marked(bytes[..], p, n, true)
    ensures forall i :: 0 <= i < bytes.Length && !(p <= i < p + n) ==> bytes[i] == old(bytes[i])
  {
    ghost var m0, h := bytes[..], HeaderLength(n);
    var i: nat;
    if n < MAX_ONE_BYTE_LEN {
      i := MIN_HEADER_SIZE;
      while i < n - MIN_HEADER_SIZE
        invariant MIN_HEADER_SIZE <= i && (n <= 2 ==> i == 1) && (n > 2 ==> i <= n - 1)
        invariant forall k :: h <= k < i && k < n - h ==> bytes[p + k] == Distance(n, k)
        invariant forall k :: 0 <= k < bytes.Length && !(p + h <= k < p + n - h) ==> bytes[k] == m0[k]
      {
        bytes[p + i] := i;
        i := i + 1;
      }
    } else {
      var max := if n - 4 < MAX_DISTANCE then n - 4 else MAX_DISTANCE;
      i := MAX_HEADER_SIZE;
      while i < max
        invariant h <= i <= max
        invariant forall k :: h <= k < i ==> bytes[p + k] == Distance(n, k)
        invariant forall k :: 0 <= k < bytes.Length && !(p + h <= k < p + n - h) ==> bytes[k] == m0[k]
      {
        bytes[p + i] := i;
        i := i + 1;
      }
      while i < n - MAX_HEADER_SIZE
        invariant max <= i <= n - h
        invariant forall k :: h <= k < i ==> bytes[p + k] == Distance(n, k)
        invariant forall k :: 0 <= k < bytes.Length && !(p + h <= k < p + n - h) ==> bytes[k] == m0[k]
      {
        bytes[p + i] := MAX_DISTANCE - MAX_HEADER_SIZE;
        i := i + 1;
      }
    }
    HeaderSame(m0, bytes[..], p, n);
  }

  /** The bytes between the two ends do not matter for the header. */
  lemma HeaderSame(m: seq<Byte>, m': seq<Byte>, s: nat, n: nat)
    requires Header(m, s, n, true) && |m'| == |m|
    requires forall k :: 0 <= k < |m| && !(s + HeaderLength(n) <= k < s + n - HeaderLength(n)) ==> m'[k] == m[k]
    ensures Header(m', s, n, true)
  {}
}
