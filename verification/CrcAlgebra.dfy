/**
 The algebra of the Modbus CRC: eight bit steps in closed form, and with it the table routine equal to
 the bit-serial one.
 */
module CrcAlgebra {
  import opened Crc

  // --------------------------------------------------------------------------
  // Eight bit steps in closed form
  // --------------------------------------------------------------------------

  function Linear(c: bv16): bv16 {
    (c >> 1) ^ ((c & 1) << 15) ^ ((c & 1) << 13) ^ (c & 1)
  }

  function Fold(c: bv16): bv16 {
    var a := c & 0xFF;
    var nibbles := a ^ (a >> 4);
    var pairs := nibbles ^ (nibbles >> 2);
    var p := (pairs ^ (pairs >> 1)) & 1;
    (c >> 8) ^ (a << 6) ^ (a << 7) ^ p ^ (p << 14) ^ (p << 15)
  }

  lemma ShiftIsLinear(c: bv16)
    ensures Shift(c) == Linear(c)
  {
    if c & 1 == 1 {
    } else {
      assert c & 1 == 0;
    }
  }

  lemma EightLinearSteps(c0: bv16, c1: bv16, c2: bv16, c3: bv16, c4: bv16, c5: bv16, c6: bv16, c7: bv16, c8: bv16)
    requires c1 == Linear(c0) && c2 == Linear(c1) && c3 == Linear(c2) && c4 == Linear(c3)
    requires c5 == Linear(c4) && c6 == Linear(c5) && c7 == Linear(c6) && c8 == Linear(c7)
    ensures c8 == Fold(c0)
  {
    FourLinearSteps(c0, c1, c2, c3, c4);
    FourLinearSteps(c4, c5, c6, c7, c8);
    HalfFolds(c0, c4);
  }

  function HalfFold(c: bv16): bv16 {
    var a := c & 0xF;
    var pairs := a ^ (a << 1);
    var p := (pairs ^ (pairs << 2)) & 0xF;
    (c >> 4) ^ (p << 12) ^ (p << 10) ^ (p >> 3)
  }

  lemma FourLinearSteps(c0: bv16, c1: bv16, c2: bv16, c3: bv16, c4: bv16)
    requires c1 == Linear(c0) && c2 == Linear(c1) && c3 == Linear(c2) && c4 == Linear(c3)
    ensures c4 == HalfFold(c0)
  {
  }

  lemma HalfFolds(c: bv16, d: bv16)
    requires d == HalfFold(c)
    ensures HalfFold(d) == Fold(c)
  {
  }

  lemma Shift8IsFold(c: bv16)
    ensures Shift8(c) == Fold(c)
  {
    var c1 := Shift(c);
    var c2 := Shift(c1);
    var c3 := Shift(c2);
    var c4 := Shift(c3);
    var c5 := Shift(c4);
    var c6 := Shift(c5);
    var c7 := Shift(c6);
    ShiftIsLinear(c);
    ShiftIsLinear(c1);
    ShiftIsLinear(c2);
    ShiftIsLinear(c3);
    ShiftIsLinear(c4);
    ShiftIsLinear(c5);
    ShiftIsLinear(c6);
    ShiftIsLinear(c7);
    EightLinearSteps(c, c1, c2, c3, c4, c5, c6, c7, Shift(c7));
  }

  // --------------------------------------------------------------------------
  // One turn of the table loop is one byte
  // --------------------------------------------------------------------------

  lemma FoldJoined(lo: bv8, i: bv8, f: bv16)
    requires Fold(i as bv16) == f
    ensures Fold(((lo as bv16) << 8) | (i as bv16)) == (lo as bv16) ^ f
  {
  }

  lemma Shift8Joined(lo: bv8, i: bv8, f: bv16)
    requires Shift8(i as bv16) == f
    ensures Shift8(((lo as bv16) << 8) | (i as bv16)) == (lo as bv16) ^ f
  {
    Shift8IsFold(i as bv16);
    FoldJoined(lo, i, f);
    Shift8IsFold(((lo as bv16) << 8) | (i as bv16));
  }

  lemma CombineXor(lo: bv8, e: Registers)
    ensures Combine(lo, e).Reflected() == (lo as bv16) ^ e.Reflected()
  {
  }

  lemma JoinedXor(lo: bv8, i: bv8, e: Registers)
    requires e.Reflected() == Shift8(i as bv16)
    ensures Shift8(Registers(i, lo).Reflected()) == (lo as bv16) ^ e.Reflected()
  {
    Shift8Joined(lo, i, e.Reflected());
  }

  lemma CombineCorrect(lo: bv8, i: bv8, e: Registers)
    requires e.Reflected() == Shift8(i as bv16)
    ensures Combine(lo, e).Reflected() == Shift8(Registers(i, lo).Reflected())
  {
    JoinedXor(lo, i, e);
    CombineXor(lo, e);
  }

  lemma XorIntoLow(r: Registers, b: bv8)
    ensures r.Reflected() ^ (b as bv16) == Registers(r.hi ^ b, r.lo).Reflected()
  {
  }

  lemma StepCorrect(r: Registers, b: bv8)
    ensures TableStep(r, b).Reflected() == ByteStep(r.Reflected(), b)
  {
    TableCorrect(r.hi ^ b);
    CombineCorrect(r.lo, r.hi ^ b, Entries(r.hi ^ b));
    XorIntoLow(r, b);
  }

  /** Over every byte sequence, crc16 computes the bit-serial CRC with its two bytes swapped. */
  lemma {:induction false} TableRunCorrect(r: Registers, s: seq<bv8>)
    ensures TableRun(r, s).Reflected() == BitRun(r.Reflected(), s)
  {
    if |s| > 0 {
      TableRunCorrect(r, s[..|s|-1]);
      StepCorrect(TableRun(r, s[..|s|-1]), s[|s|-1]);
    }
  }
}
