/**
 Bytes, words and bits as the Modbus server takes them apart and puts them together.
 */
module Bytes {

  /** The byte whose value is n */
  function ByteOf(n: nat): (b: bv8)
    requires n < 256
    ensures b as nat == n
  {
    if n == 0 then 0 else ByteOf(n - 1) + 1
  }

  function HighByte(n: nat): bv8
    requires n < 0x10000
  {
    ByteOf(n / 256)
  }

  function LowByte(n: nat): bv8 {
    ByteOf(n % 256)
  }

  /** word(): two bytes as a number */
  function Number(hi: bv8, lo: bv8): (n: nat)
    ensures n < 0x10000
  {
    (hi as nat) * 256 + (lo as nat)
  }

  lemma NumberOfBytes(n: nat)
    requires n < 0x10000
    ensures Number(HighByte(n), LowByte(n)) == n
  {
  }

  lemma NumberInjective(a: bv8, b: bv8, c: bv8, d: bv8)
    requires Number(a, b) == Number(c, d)
    ensures a == c && b == d
  {
    assert a as nat == c as nat && b as nat == d as nat;
    SameByte(a, c);
    SameByte(b, d);
  }

  lemma SameByte(a: bv8, b: bv8)
    requires a as nat == b as nat
    ensures a == b
  {
    ByteBack(a);
    ByteBack(b);
  }

  lemma ByteBack(a: bv8)
    ensures (a as nat) as bv8 == a
  {
  }

  // --------------------------------------------------------------------------
  // Two bytes and a 16-bit word
  // --------------------------------------------------------------------------

  function Join(hi: bv8, lo: bv8): bv16 {
    ((hi as bv16) << 8) | (lo as bv16)
  }

  function High(w: bv16): bv8 {
    ((w >> 8) & 0xFF) as bv8
  }

  function Low(w: bv16): bv8 {
    (w & 0xFF) as bv8
  }

  lemma JoinSplits(hi: bv8, lo: bv8)
    ensures High(Join(hi, lo)) == hi && Low(Join(hi, lo)) == lo
  {
  }

  lemma SplitJoins(w: bv16)
    ensures Join(High(w), Low(w)) == w
  {
  }

  lemma WordInBytes(w: bv16)
    ensures w as nat == (w >> 8) as nat * 256 + (w & 0xFF) as nat
  {
  }

  lemma HighByteNumber(w: bv16)
    ensures High(w) as nat == (w >> 8) as nat
  {
  }

  lemma LowByteNumber(w: bv16)
    ensures Low(w) as nat == (w & 0xFF) as nat
  {
  }

  /** The number of a word, by its bytes */
  lemma WordNumber(w: bv16)
    ensures w as nat == Number(High(w), Low(w))
  {
    hide High, Low;
    WordInBytes(w);
    HighByteNumber(w);
    LowByteNumber(w);
  }

  /** Two bytes are joined into the word that has their number. */
  lemma JoinNumber(hi: bv8, lo: bv8)
    ensures Join(hi, lo) as nat == Number(hi, lo)
  {
    hide High, Low, Join;
    WordNumber(Join(hi, lo));
    JoinSplits(hi, lo);
  }

  // --------------------------------------------------------------------------
  // bitRead and bitWrite
  // --------------------------------------------------------------------------

  function Mask(j: nat): bv8
    requires j < 8
  {
    match j
    case 0 => 1
    case 1 => 2
    case 2 => 4
    case 3 => 8
    case 4 => 0x10
    case 5 => 0x20
    case 6 => 0x40
    case _ => 0x80
  }

  function BitRead(b: bv8, j: nat): bool
    requires j < 8
  {
    b & Mask(j) != 0
  }

  function BitWrite(b: bv8, j: nat, v: bool): bv8
    requires j < 8
  {
    if v then b | Mask(j) else b & !Mask(j)
  }

  lemma MaskOneBit(j: nat, k: nat)
    requires j < 8 && k < 8
    ensures Mask(j) & Mask(k) == if j == k then Mask(k) else 0
    ensures Mask(j) != 0
  {
  }

  lemma OrMasked(b: bv8, m: bv8, k: bv8)
    ensures m & k == 0 ==> (b | m) & k == b & k && (b & !m) & k == b & k
    ensures m == k ==> (b | m) & k == k && (b & !m) & k == 0
  {
  }

  lemma ReadWrittenBit(b: bv8, j: nat, v: bool, k: nat)
    requires j < 8 && k < 8
    ensures BitRead(BitWrite(b, j, v), k) == if k == j then v else BitRead(b, k)
  {
    MaskOneBit(j, k);
    OrMasked(b, Mask(j), Mask(k));
  }

  lemma BitsDetermineByte(a: bv8, b: bv8)
    requires forall j :: 0 <= j < 8 ==> BitRead(a, j) == BitRead(b, j)
    ensures a == b
  {
    assert BitRead(a, 0) == BitRead(b, 0) && BitRead(a, 1) == BitRead(b, 1);
    assert BitRead(a, 2) == BitRead(b, 2) && BitRead(a, 3) == BitRead(b, 3);
    assert BitRead(a, 4) == BitRead(b, 4) && BitRead(a, 5) == BitRead(b, 5);
    assert BitRead(a, 6) == BitRead(b, 6) && BitRead(a, 7) == BitRead(b, 7);
    EightBits(a, b);
  }

  lemma EightBits(a: bv8, b: bv8)
    requires (a & 1 != 0) == (b & 1 != 0) && (a & 2 != 0) == (b & 2 != 0)
    requires (a & 4 != 0) == (b & 4 != 0) && (a & 8 != 0) == (b & 8 != 0)
    requires (a & 0x10 != 0) == (b & 0x10 != 0) && (a & 0x20 != 0) == (b & 0x20 != 0)
    requires (a & 0x40 != 0) == (b & 0x40 != 0) && (a & 0x80 != 0) == (b & 0x80 != 0)
    ensures a == b
  {
  }

  // --------------------------------------------------------------------------
  // 16-bit words of wide cells
  // --------------------------------------------------------------------------

  function ShiftLeft32(x: bv32, bitOffset: nat): bv32
    requires bitOffset == 0 || bitOffset == 16
  {
    if bitOffset == 0 then x else x << 16
  }

  function ShiftLeft64(x: bv64, bitOffset: nat): bv64
    requires bitOffset == 0 || bitOffset == 16 || bitOffset == 32 || bitOffset == 48
  {
    if bitOffset == 0 then x else if bitOffset == 16 then x << 16 else if bitOffset == 32 then x << 32 else x << 48
  }

  /** Mask out one word of a 32-bit cell and put another one in its place. */
  function Overwrite32(cell: bv32, bitOffset: nat, v: bv16): bv32
    requires bitOffset == 0 || bitOffset == 16
  {
    (cell & !ShiftLeft32(0xFFFF, bitOffset)) | ShiftLeft32(v as bv32, bitOffset)
  }

  function Overwrite64(cell: bv64, bitOffset: nat, v: bv16): bv64
    requires bitOffset == 0 || bitOffset == 16 || bitOffset == 32 || bitOffset == 48
  {
    (cell & !ShiftLeft64(0xFFFF, bitOffset)) | ShiftLeft64(v as bv64, bitOffset)
  }

  /** Word number k of a 32-bit cell, counted from the most significant */
  function Word32(cell: bv32, k: nat): bv16
    requires k < 2
  {
    if k == 0 then ((cell >> 16) & 0xFFFF) as bv16 else (cell & 0xFFFF) as bv16
  }

  function Word64(cell: bv64, k: nat): bv16
    requires k < 4
  {
    if k == 0 then ((cell >> 48) & 0xFFFF) as bv16
    else if k == 1 then ((cell >> 32) & 0xFFFF) as bv16
    else if k == 2 then ((cell >> 16) & 0xFFFF) as bv16
    else (cell & 0xFFFF) as bv16
  }

  lemma Overwrite32Words(cell: bv32, k: nat, v: bv16, j: nat)
    requires k < 2 && j < 2
    ensures Word32(Overwrite32(cell, (1 - k) * 16, v), j) == if j == k then v else Word32(cell, j)
  {
    if k == 0 {
    } else {
    }
  }

  lemma Overwrite64At48(cell: bv64, v: bv16)
    ensures Word64(Overwrite64(cell, 48, v), 0) == v && Word64(Overwrite64(cell, 48, v), 1) == Word64(cell, 1)
    ensures Word64(Overwrite64(cell, 48, v), 2) == Word64(cell, 2) && Word64(Overwrite64(cell, 48, v), 3) == Word64(cell, 3)
  {
  }

  lemma Overwrite64At32(cell: bv64, v: bv16)
    ensures Word64(Overwrite64(cell, 32, v), 0) == Word64(cell, 0) && Word64(Overwrite64(cell, 32, v), 1) == v
    ensures Word64(Overwrite64(cell, 32, v), 2) == Word64(cell, 2) && Word64(Overwrite64(cell, 32, v), 3) == Word64(cell, 3)
  {
  }

  lemma Overwrite64At16(cell: bv64, v: bv16)
    ensures Word64(Overwrite64(cell, 16, v), 0) == Word64(cell, 0) && Word64(Overwrite64(cell, 16, v), 1) == Word64(cell, 1)
    ensures Word64(Overwrite64(cell, 16, v), 2) == v && Word64(Overwrite64(cell, 16, v), 3) == Word64(cell, 3)
  {
    hide Word64, Overwrite64;
    Overwrite64At16Upper(cell, v);
    Overwrite64At16Lower(cell, v);
  }

  lemma Overwrite64At16Upper(cell: bv64, v: bv16)
    ensures Word64(Overwrite64(cell, 16, v), 0) == Word64(cell, 0) && Word64(Overwrite64(cell, 16, v), 1) == Word64(cell, 1)
  {
  }

  lemma Overwrite64At16Lower(cell: bv64, v: bv16)
    ensures Word64(Overwrite64(cell, 16, v), 2) == v && Word64(Overwrite64(cell, 16, v), 3) == Word64(cell, 3)
  {
  }

  lemma Overwrite64At0(cell: bv64, v: bv16)
    ensures Word64(Overwrite64(cell, 0, v), 0) == Word64(cell, 0) && Word64(Overwrite64(cell, 0, v), 1) == Word64(cell, 1)
    ensures Word64(Overwrite64(cell, 0, v), 2) == Word64(cell, 2) && Word64(Overwrite64(cell, 0, v), 3) == v
  {
  }

  lemma Overwrite64Words(cell: bv64, k: nat, v: bv16, j: nat)
    requires k < 4 && j < 4
    ensures Word64(Overwrite64(cell, (3 - k) * 16, v), j) == if j == k then v else Word64(cell, j)
  {
    hide Word64, Overwrite64;
    if k == 0 {
      Overwrite64At48(cell, v);
    } else if k == 1 {
      Overwrite64At32(cell, v);
    } else if k == 2 {
      Overwrite64At16(cell, v);
    } else {
      Overwrite64At0(cell, v);
    }
  }

  // --------------------------------------------------------------------------
  // Wide values from their words
  // --------------------------------------------------------------------------

  function Low32(v: bv64): bv32 { (v & 0xFFFF_FFFF) as bv32 }
  function High32(v: bv64): bv32 { ((v >> 32) & 0xFFFF_FFFF) as bv32 }

  function JoinWords(hi: bv16, lo: bv16): bv32 { (hi as bv32 << 16) | (lo as bv32) }
  function JoinHalves(hi: bv32, lo: bv32): bv64 { (hi as bv64 << 32) | (lo as bv64) }

  lemma WordsJoin(v: bv32)
    ensures JoinWords(Word32(v, 0), Word32(v, 1)) == v
  {
  }

  /** Words are joined as digits to the base 65536, the first one most significant. */
  lemma JoinedWords(hi: bv16, lo: bv16)
    ensures JoinWords(hi, lo) == (hi as bv32) * 0x10000 + (lo as bv32)
  {
  }

  lemma JoinedHalves(hi: bv32, lo: bv32)
    ensures JoinHalves(hi, lo) == (hi as bv64) * 0x1_0000_0000 + (lo as bv64)
  {
  }

  lemma HalvesJoin(v: bv64)
    ensures JoinHalves(High32(v), Low32(v)) == v
  {
  }

  /** The four words of a 64-bit value, the most significant first */
  lemma QuartersJoin(v: bv64)
    ensures JoinHalves(JoinWords(Word64(v, 0), Word64(v, 1)), JoinWords(Word64(v, 2), Word64(v, 3))) == v
  {
  }
}
