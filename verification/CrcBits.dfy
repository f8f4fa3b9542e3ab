/**
 The Modbus CRC seen one bit at a time, in the order in which a serial line sends the bits:
 two different windows of at most sixteen bits never lead to the same state, and the state's
 parity follows the parity of the bits.
 */
module CrcBits {
  import opened Crc

  function BitStep(c: bv16, bit: bool): bv16 {
    Shift(if bit then c ^ 1 else c)
  }

  function RunBits(c: bv16, s: seq<bool>): bv16
    decreases |s|
  {
    if |s| == 0 then c else RunBits(BitStep(c, s[0]), s[1..])
  }

  lemma {:induction false} RunBitsAppend(c: bv16, s: seq<bool>, t: seq<bool>)
    ensures RunBits(c, s + t) == RunBits(RunBits(c, s), t)
    decreases |s|
  {
    if |s| == 0 {
      assert s + t == t;
    } else {
      assert (s + t)[1..] == s[1..] + t;
      RunBitsAppend(BitStep(c, s[0]), s[1..], t);
    }
  }

  // --------------------------------------------------------------------------
  // Bytes as bits, least significant bit first
  // --------------------------------------------------------------------------

  function LowBits(w: bv16, n: nat): (s: seq<bool>)
    ensures |s| == n
    decreases n
  {
    if n == 0 then [] else [w & 1 == 1] + LowBits(w >> 1, n - 1)
  }

  function Rest(w: bv16, n: nat): bv16
    decreases n
  {
    if n == 0 then w else Rest(w >> 1, n - 1)
  }

  function Shifts(c: bv16, n: nat): bv16
    decreases n
  {
    if n == 0 then c else Shifts(Shift(c), n - 1)
  }

  function Bits(s: seq<bv8>): (r: seq<bool>)
    ensures |r| == 8 * |s|
  {
    if |s| == 0 then [] else Bits(s[..|s|-1]) + LowBits(s[|s|-1] as bv16, 8)
  }

  lemma Absorb(c: bv16, w: bv16)
    ensures Shift(c ^ w) == BitStep(c, w & 1 == 1) ^ (w >> 1)
  {
    if w & 1 == 1 {
      AbsorbOne(c, w);
    } else {
      AbsorbZero(c, w);
    }
  }

  lemma AbsorbOne(c: bv16, w: bv16)
    requires w & 1 == 1
    ensures Shift(c ^ w) == Shift(c ^ 1) ^ (w >> 1)
  {
    if c & 1 == 1 {
    } else {
    }
  }

  lemma AbsorbZero(c: bv16, w: bv16)
    requires w & 1 != 1
    ensures Shift(c ^ w) == Shift(c) ^ (w >> 1)
  {
    if c & 1 == 1 {
    } else {
    }
  }

  lemma {:induction false} AbsorbRun(c: bv16, w: bv16, x: bv16, n: nat)
    requires x == c ^ w
    ensures Shifts(x, n) == RunBits(c, LowBits(w, n)) ^ Rest(w, n)
    decreases n
  {
    hide Shift, BitStep, RunBits, LowBits;
    if n == 0 {
      RunNothing(c, w);
    } else {
      Absorb(c, w);
      AbsorbRun(BitStep(c, w & 1 == 1), w >> 1, Shift(x), n - 1);
      RunLowBits(c, w, n);
    }
  }

  lemma RunNothing(c: bv16, w: bv16)
    ensures RunBits(c, LowBits(w, 0)) == c
  {
  }

  lemma RunLowBits(c: bv16, w: bv16, n: nat)
    requires n > 0
    ensures RunBits(c, LowBits(w, n)) == RunBits(BitStep(c, w & 1 == 1), LowBits(w >> 1, n - 1))
  {
    assert LowBits(w, n)[1..] == LowBits(w >> 1, n - 1);
  }

  lemma AbsorbAll(c: bv16, w: bv16, n: nat)
    requires Rest(w, n) == 0
    ensures Shifts(c ^ w, n) == RunBits(c, LowBits(w, n))
  {
    AbsorbRun(c, w, c ^ w, n);
  }

  lemma ByteRest(b: bv8)
    ensures Rest(b as bv16, 8) == 0
  {
  }

  lemma EightShifts(c: bv16)
    ensures Shifts(c, 8) == Shift8(c)
  {
  }

  /** A byte of the bit-serial CRC is eight bit steps. */
  lemma ByteAsBits(c: bv16, b: bv8)
    ensures ByteStep(c, b) == RunBits(c, LowBits(b as bv16, 8))
  {
    ByteRest(b);
    AbsorbAll(c, b as bv16, 8);
    EightShifts(c ^ (b as bv16));
  }

  /** Reassembles the word that LowBits and Rest took apart */
  function FromBits(s: seq<bool>, rest: bv16): bv16
    decreases |s|
  {
    if |s| == 0 then rest else (FromBits(s[1..], rest) << 1) | (if s[0] then 1 else 0)
  }

  lemma {:induction false} FromBitsRebuilds(w: bv16, n: nat)
    ensures FromBits(LowBits(w, n), Rest(w, n)) == w
    decreases n
  {
    if n > 0 {
      FromBitsRebuilds(w >> 1, n - 1);
      assert LowBits(w, n)[1..] == LowBits(w >> 1, n - 1);
      Rejoin(w);
    }
  }

  lemma Rejoin(w: bv16)
    ensures ((w >> 1) << 1) | (if w & 1 == 1 then 1 else 0) == w
  {
    if w & 1 == 1 {
    } else {
    }
  }

  lemma ByteBitsInjective(a: bv8, b: bv8)
    requires LowBits(a as bv16, 8) == LowBits(b as bv16, 8)
    ensures a == b
  {
    ByteRest(a);
    ByteRest(b);
    FromBitsRebuilds(a as bv16, 8);
    FromBitsRebuilds(b as bv16, 8);
  }

  /** The register over whole messages, byte by byte and bit by bit */
  lemma {:induction false} BitRunAsBits(c: bv16, s: seq<bv8>)
    ensures BitRun(c, s) == RunBits(c, Bits(s))
    decreases |s|
  {
    if |s| > 0 {
      BitRunAsBits(c, s[..|s|-1]);
      ByteAsBits(BitRun(c, s[..|s|-1]), s[|s|-1]);
      RunBitsAppend(c, Bits(s[..|s|-1]), LowBits(s[|s|-1] as bv16, 8));
    }
  }

  lemma {:induction false} BitsAppend(s: seq<bv8>, t: seq<bv8>)
    ensures Bits(s + t) == Bits(s) + Bits(t)
    decreases |t|
  {
    if |t| == 0 {
      assert s + t == s;
    } else {
      assert (s + t)[..|s + t| - 1] == s + t[..|t|-1];
      BitsAppend(s, t[..|t|-1]);
      AppendAssociative(Bits(s), Bits(t[..|t|-1]), LowBits(t[|t|-1] as bv16, 8));
    }
  }

  lemma AppendAssociative(a: seq<bool>, b: seq<bool>, c: seq<bool>)
    ensures (a + b) + c == a + (b + c)
  {
  }

  lemma {:induction false} BitsInjective(s: seq<bv8>, t: seq<bv8>)
    requires |s| == |t| && Bits(s) == Bits(t)
    ensures s == t
    decreases |s|
  {
    if |s| > 0 {
      LastByteInjective(s, t);
      BitsInjective(s[..|s|-1], t[..|t|-1]);
      SnocEqual(s, t);
    }
  }

  lemma LastByteInjective(s: seq<bv8>, t: seq<bv8>)
    requires |s| == |t| > 0 && Bits(s) == Bits(t)
    ensures Bits(s[..|s|-1]) == Bits(t[..|t|-1]) && s[|s|-1] == t[|t|-1]
  {
    hide LowBits;
    SnocInjective(Bits(s[..|s|-1]), s[|s|-1], Bits(t[..|t|-1]), t[|t|-1]);
  }

  lemma SnocInjective(p: seq<bool>, a: bv8, q: seq<bool>, b: bv8)
    requires |p| == |q| && p + LowBits(a as bv16, 8) == q + LowBits(b as bv16, 8)
    ensures p == q && a == b
  {
    AppendInjective(p, LowBits(a as bv16, 8), q, LowBits(b as bv16, 8));
    ByteBitsInjective(a, b);
  }

  lemma AppendInjective(a: seq<bool>, b: seq<bool>, c: seq<bool>, d: seq<bool>)
    requires a + b == c + d && |a| == |c|
    ensures a == c && b == d
  {
    assert (a + b)[..|a|] == a && (c + d)[..|a|] == c;
    assert (a + b)[|a|..] == b && (c + d)[|a|..] == d;
  }

  lemma SnocEqual(s: seq<bv8>, t: seq<bv8>)
    requires |s| == |t| > 0 && s[..|s|-1] == t[..|t|-1] && s[|s|-1] == t[|t|-1]
    ensures s == t
  {
    assert s == s[..|s|-1] + [s[|s|-1]];
    assert t == t[..|t|-1] + [t[|t|-1]];
  }

  // --------------------------------------------------------------------------
  // Residue: a message followed by its own CRC drives the register to zero
  // --------------------------------------------------------------------------

  lemma ShiftZero(c: bv16)
    ensures Shift(c) == 0 <==> c == 0
  {
  }

  lemma {:induction false} ShiftsZero(c: bv16, n: nat)
    ensures Shifts(c, n) == 0 <==> c == 0
    decreases n
  {
    if n > 0 {
      ShiftZero(c);
      ShiftsZero(Shift(c), n - 1);
    }
  }

  lemma AbsorbToZero(c: bv16, w: bv16, n: nat)
    requires Rest(w, n) == 0
    ensures RunBits(c, LowBits(w, n)) == 0 <==> c == w
  {
    AbsorbAll(c, w, n);
    ShiftsZero(c ^ w, n);
    XorZero(c, w);
  }

  lemma XorZero(c: bv16, w: bv16)
    ensures c ^ w == 0 <==> c == w
  {
  }

  lemma {:induction false} LowBitsSplit(w: bv16, m: nat, n: nat)
    ensures LowBits(w, m + n) == LowBits(w, m) + LowBits(Rest(w, m), n)
    ensures Rest(w, m + n) == Rest(Rest(w, m), n)
    decreases m
  {
    if m > 0 {
      LowBitsSplit(w >> 1, m - 1, n);
    }
  }

  lemma JoinedRest(hi: bv8, lo: bv8)
    ensures Rest(((lo as bv16) << 8) | (hi as bv16), 8) == lo as bv16
  {
  }

  lemma JoinedLowBits(hi: bv8, lo: bv8)
    ensures LowBits(((lo as bv16) << 8) | (hi as bv16), 8) == LowBits(hi as bv16, 8)
  {
  }

  lemma WordBits(hi: bv8, lo: bv8, w: bv16)
    requires w == ((lo as bv16) << 8) | (hi as bv16)
    ensures Bits([hi, lo]) == LowBits(w, 16) && Rest(w, 16) == 0
  {
    LowBitsSplit(w, 8, 8);
    JoinedRest(hi, lo);
    JoinedLowBits(hi, lo);
    ByteRest(lo);
    BitsAppend([hi], [lo]);
    assert [hi] + [lo] == [hi, lo];
    OneByteBits(hi);
    OneByteBits(lo);
  }

  lemma OneByteBits(b: bv8)
    ensures Bits([b]) == LowBits(b as bv16, 8)
  {
    assert [b][..0] == [];
  }

  /** Two more bytes bring the register to zero exactly when they are the register itself. */
  lemma ResidueZero(s: seq<bv8>, hi: bv8, lo: bv8, w: bv16)
    requires w == ((lo as bv16) << 8) | (hi as bv16)
    ensures BitCrc(s + [hi, lo]) == 0 <==> BitCrc(s) == w
  {
    BitRunAsBits(0xFFFF, s + [hi, lo]);
    BitRunAsBits(0xFFFF, s);
    BitsAppend(s, [hi, lo]);
    RunBitsAppend(0xFFFF, Bits(s), Bits([hi, lo]));
    WordBits(hi, lo, w);
    AbsorbToZero(BitCrc(s), w, 16);
  }

  // --------------------------------------------------------------------------
  // Burst errors
  // --------------------------------------------------------------------------

  lemma ShiftInjective(x: bv16, y: bv16)
    requires Shift(x) == Shift(y)
    ensures x == y
  {
    ShiftTopBit(x);
    ShiftTopBit(y);
    if x & 1 == 1 {
    } else {
    }
  }

  lemma ShiftTopBit(x: bv16)
    ensures Shift(x) >> 15 == 1 <==> x & 1 == 1
  {
  }

  lemma BitStepInjective(x: bv16, y: bv16, bit: bool)
    requires BitStep(x, bit) == BitStep(y, bit)
    ensures x == y
  {
    if bit {
      ToggledShiftInjective(x, y);
    } else {
      ShiftInjective(x, y);
    }
  }

  lemma ToggledShiftInjective(x: bv16, y: bv16)
    requires Shift(x ^ 1) == Shift(y ^ 1)
    ensures x == y
  {
    ToggledTopBit(x);
    ToggledTopBit(y);
    if x & 1 == 1 {
    } else {
    }
  }

  lemma ToggledTopBit(x: bv16)
    ensures Shift(x ^ 1) >> 15 == 1 <==> x & 1 == 0
  {
  }

  /** A common suffix maps different states to different states: an error once in never cancels. */
  lemma {:induction false} SuffixInjective(x: bv16, y: bv16, s: seq<bool>)
    requires RunBits(x, s) == RunBits(y, s)
    ensures x == y
    decreases |s|
  {
    if |s| > 0 {
      SuffixInjective(BitStep(x, s[0]), BitStep(y, s[0]), s[1..]);
      BitStepInjective(x, y, s[0]);
    }
  }

  /** A mask of leading bits that can move down n times and still has its lowest bit clear before each move */
  predicate Room(m: bv16, n: nat)
    decreases n
  {
    n == 0 || (m & 1 == 0 && Room((m >> 1) | 0x8000, n - 1))
  }

  lemma ShiftDiverged(x: bv16, y: bv16, m: bv16)
    requires (x ^ y) & m != 0 && m & 1 == 0
    ensures (Shift(x) ^ Shift(y)) & ((m >> 1) | 0x8000) != 0
  {
    if x & 1 == 1 {
      if y & 1 == 1 {
      } else {
      }
    } else {
    }
  }

  lemma BitStepDiverged(x: bv16, y: bv16, p: bool, q: bool, m: bv16)
    requires (x ^ y) & m != 0 && m & 1 == 0
    ensures (BitStep(x, p) ^ BitStep(y, q)) & ((m >> 1) | 0x8000) != 0
  {
    var u, v := if p then x ^ 1 else x, if q then y ^ 1 else y;
    LowBitIrrelevant(x, y, u, v, m);
    ShiftDiverged(u, v, m);
  }

  lemma LowBitIrrelevant(x: bv16, y: bv16, u: bv16, v: bv16, m: bv16)
    requires (x ^ y) & m != 0 && m & 1 == 0
    requires (u == x || u == x ^ 1) && (v == y || v == y ^ 1)
    ensures (u ^ v) & m != 0
  {
  }

  /** States that differ under such a mask stay different through n more bits, whatever they are. */
  lemma {:induction false} StayDiverged(x: bv16, y: bv16, u: seq<bool>, v: seq<bool>, m: bv16)
    requires |u| == |v| && Room(m, |u|) && (x ^ y) & m != 0
    ensures RunBits(x, u) != RunBits(y, v)
    decreases |u|
  {
    hide BitStep;
    if |u| == 0 {
      SameXorZero(x, y, m);
    } else {
      BitStepDiverged(x, y, u[0], v[0], m);
      StayDiverged(BitStep(x, u[0]), BitStep(y, v[0]), u[1..], v[1..], (m >> 1) | 0x8000);
    }
  }

  lemma {:induction false} RoomMonotone(m: bv16, n: nat, k: nat)
    requires Room(m, n) && k <= n
    ensures Room(m, k)
    decreases k
  {
    if k > 0 {
      RoomMonotone((m >> 1) | 0x8000, n - 1, k - 1);
    }
  }

  lemma FifteenMoves()
    ensures Room(0x8000, 15)
  {
  }

  lemma SameXorZero(x: bv16, y: bv16, m: bv16)
    requires (x ^ y) & m != 0
    ensures x != y
  {
  }

  lemma FirstDifference(x: bv16, p: bool, q: bool)
    requires p != q
    ensures (BitStep(x, p) ^ BitStep(x, q)) & 0x8000 != 0
  {
    if x & 1 == 1 {
    } else {
    }
  }

  /** From one state, two windows of at most sixteen bits reach the same state only if they are equal. */
  lemma {:induction false} WindowInjective(x: bv16, u: seq<bool>, v: seq<bool>)
    requires |u| == |v| <= 16 && RunBits(x, u) == RunBits(x, v)
    ensures u == v
    decreases |u|
  {
    if |u| > 0 {
      if u[0] == v[0] {
        WindowInjective(BitStep(x, u[0]), u[1..], v[1..]);
        assert u == [u[0]] + u[1..] && v == [v[0]] + v[1..];
      } else {
        FirstDifference(x, u[0], v[0]);
        FifteenMoves();
        RoomMonotone(0x8000, 15, |u| - 1);
        StayDiverged(BitStep(x, u[0]), BitStep(x, v[0]), u[1..], v[1..], 0x8000);
      }
    }
  }

  /** Two messages whose bits differ only inside one window of sixteen bits have different registers. */
  lemma BurstChangesRegister(s: seq<bool>, t: seq<bool>, i: nat, c: bv16)
    requires |s| == |t|
    requires forall p :: 0 <= p < |s| && !(i <= p < i + 16) ==> s[p] == t[p]
    requires RunBits(c, s) == RunBits(c, t)
    ensures s == t
  {
    var a := if i < |s| then i else |s|;
    var b := if i + 16 < |s| then i + 16 else |s|;
    Cut(s, a, b);
    Cut(t, a, b);
    assert s[..a] == t[..a] && s[b..] == t[b..];
    WindowBetween(c, s[..a], s[a..b], t[a..b], s[b..]);
  }

  lemma Cut(s: seq<bool>, a: nat, b: nat)
    requires a <= b <= |s|
    ensures s == s[..a] + (s[a..b] + s[b..])
  {
  }

  lemma WindowBetween(c: bv16, p: seq<bool>, u: seq<bool>, v: seq<bool>, q: seq<bool>)
    requires |u| == |v| <= 16
    requires RunBits(c, p + (u + q)) == RunBits(c, p + (v + q))
    ensures u == v
  {
    var x := RunBits(c, p);
    RunBitsAppend(c, p, u + q);
    RunBitsAppend(c, p, v + q);
    RunBitsAppend(x, u, q);
    RunBitsAppend(x, v, q);
    SuffixInjective(RunBits(x, u), RunBits(x, v), q);
    WindowInjective(x, u, v);
  }

  // --------------------------------------------------------------------------
  // Parity
  // --------------------------------------------------------------------------

  /** Whether an odd number of the bits are set */
  function Odd(s: seq<bool>): bool
    decreases |s|
  {
    |s| > 0 && (s[0] != Odd(s[1..]))
  }

  /** The same for the n lowest bits of a word */
  function OddLow(w: bv16, n: nat): bool
    decreases n
  {
    n > 0 && ((w & 1 == 1) != OddLow(w >> 1, n - 1))
  }

  /** The number of positions at which two bit strings differ */
  function Flips(s: seq<bool>, t: seq<bool>): nat
    requires |s| == |t|
    decreases |s|
  {
    if |s| == 0 then 0 else (if s[0] != t[0] then 1 else 0) + Flips(s[1..], t[1..])
  }

  lemma {:induction false} FlipsParity(s: seq<bool>, t: seq<bool>)
    requires |s| == |t|
    ensures Flips(s, t) % 2 == 1 <==> Odd(s) != Odd(t)
    decreases |s|
  {
    if |s| > 0 {
      FlipsParity(s[1..], t[1..]);
    }
  }

  /** The bitwise form of z == x ^ y */
  predicate XorBits(x: bv16, y: bv16, z: bv16, n: nat)
    decreases n
  {
    n == 0 || ((z & 1 == 1) == ((x & 1 == 1) != (y & 1 == 1)) && XorBits(x >> 1, y >> 1, z >> 1, n - 1))
  }

  lemma {:induction false} XorIsBitwise(x: bv16, y: bv16, z: bv16, n: nat)
    requires z == x ^ y
    ensures XorBits(x, y, z, n)
    decreases n
  {
    if n > 0 {
      XorHalves(x, y, z);
      XorIsBitwise(x >> 1, y >> 1, z >> 1, n - 1);
    }
  }

  lemma {:induction false} OddXor(x: bv16, y: bv16, z: bv16, n: nat)
    requires XorBits(x, y, z, n)
    ensures OddLow(z, n) == (OddLow(x, n) != OddLow(y, n))
    decreases n
  {
    if n > 0 {
      OddXor(x >> 1, y >> 1, z >> 1, n - 1);
    }
  }

  lemma XorHalves(x: bv16, y: bv16, z: bv16)
    requires z == x ^ y
    ensures z >> 1 == (x >> 1) ^ (y >> 1)
    ensures (z & 1 == 1) == ((x & 1 == 1) != (y & 1 == 1))
  {
  }

  lemma {:induction false} OddTop(w: bv16, n: nat)
    requires Rest(w, n) & 1 == 0
    ensures OddLow(w, n + 1) == OddLow(w, n)
    decreases n
  {
    if n > 0 {
      OddTop(w >> 1, n - 1);
    }
  }

  lemma RestShifts(w: bv16)
    ensures Rest(w, 8) == w >> 8 && Rest(w, 7) == w >> 7
  {
  }

  lemma TopClear(w: bv16)
    requires w >> 15 == 0
    ensures Rest(w, 15) == 0
  {
    LowBitsSplit(w, 8, 7);
    RestShifts(w);
    RestShifts(w >> 8);
  }

  lemma OddClear(w: bv16)
    requires w >> 15 == 0
    ensures OddLow(w, 16) == OddLow(w, 15)
  {
    TopClear(w);
    OddTop(w, 15);
  }

  lemma HalfTop(c: bv16)
    ensures (c >> 1) >> 15 == 0
  {
  }

  lemma OddHalf(c: bv16)
    ensures OddLow(c, 16) == ((c & 1 == 1) != OddLow(c >> 1, 16))
  {
    HalfTop(c);
    OddClear(c >> 1);
  }

  /** Adding an odd word changes the parity. */
  lemma OddFlip(x: bv16, y: bv16, z: bv16, n: nat)
    requires z == x ^ y && OddLow(y, n)
    ensures OddLow(z, n) == !OddLow(x, n)
  {
    XorIsBitwise(x, y, z, n);
    OddXor(x, y, z, n);
  }

  lemma {:induction false} OddZero(n: nat)
    ensures !OddLow(0, n)
    decreases n
  {
    if n > 0 {
      assert (0 as bv16) >> 1 == 0;
      OddZero(n - 1);
    }
  }

  lemma OddConstants()
    ensures OddLow(0xA001, 16) && OddLow(1, 16)
  {
    OddZero(15);
    OddZero(0);
    assert (1 as bv16) >> 1 == 0;
    assert OddLow(1, 1) && OddLow(2, 2) && !OddLow(5, 3) && !OddLow(0xA, 4) && !OddLow(0x14, 5) && !OddLow(0x28, 6);
    assert !OddLow(0x50, 7) && !OddLow(0xA0, 8) && !OddLow(0x140, 9) && !OddLow(0x280, 10) && !OddLow(0x500, 11);
    assert !OddLow(0xA00, 12) && !OddLow(0x1400, 13) && !OddLow(0x2800, 14) && !OddLow(0x5000, 15);
  }

  lemma OddShift(c: bv16)
    ensures OddLow(Shift(c), 16) == OddLow(c, 16)
  {
    OddHalf(c);
    if c & 1 == 1 {
      OddConstants();
      OddFlip(c >> 1, 0xA001, Shift(c), 16);
    }
  }

  lemma OddToggle(c: bv16, d: bv16)
    requires d == c ^ 1
    ensures OddLow(d, 16) == !OddLow(c, 16)
  {
    hide OddLow;
    OddConstants();
    OddFlip(c, 1, d, 16);
  }

  lemma OddBitStep(c: bv16, bit: bool)
    ensures OddLow(BitStep(c, bit), 16) == (OddLow(c, 16) != bit)
  {
    if bit {
      var d := c ^ 1;
      OddToggle(c, d);
      OddShift(d);
    } else {
      OddShift(c);
    }
  }

  /** The polynomial has x + 1 as a factor, so the register carries the parity of all bits seen. */
  lemma {:induction false} OddRun(c: bv16, s: seq<bool>)
    ensures OddLow(RunBits(c, s), 16) == (OddLow(c, 16) != Odd(s))
    decreases |s|
  {
    if |s| > 0 {
      OddBitStep(c, s[0]);
      OddRun(BitStep(c, s[0]), s[1..]);
    }
  }

  /** Two bit strings with the same register differ in an even number of places. */
  lemma OddFlipsChangeRegister(s: seq<bool>, t: seq<bool>, c: bv16)
    requires |s| == |t| && RunBits(c, s) == RunBits(c, t)
    ensures Flips(s, t) % 2 == 0
  {
    OddRun(c, s);
    OddRun(c, t);
    FlipsParity(s, t);
  }
}
