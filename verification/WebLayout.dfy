/**
 The address ranges that the web page prints for the slave devices, and the slots of the image
 tables that the polling thread and the scan cycle use for them.
 */
module WebLayout {
  import opened Options
  import opened SlavePolling
  import opened PollThread

  /** %IX and %QX addresses have a byte and a bit, %IW and %QW a word number. */
  datatype BitAddress = BitAddress(byte: nat, bit: nat)

  /** "-", or "first to last" */
  datatype Range<A> = Dash | FromTo(first: A, last: A)

  datatype Row = Row(di: Range<BitAddress>, do: Range<BitAddress>, ai: Range<nat>, ao: Range<nat>)

  function BitAddressOf(counter: nat): BitAddress {
    BitAddress(FIRST + counter / 8, counter % 8)
  }

  /** Entry [byte][bit] of a bool table */
  function EntryAt(a: BitAddress): nat {
    8 * a.byte + a.bit
  }

  /** The addresses from the first to the last one of a range, in the order of bytes and bits */
  predicate InBits(r: Range<BitAddress>, a: BitAddress) {
    a.bit < 8 && r.FromTo? && NotAfter(r.first, a) && NotAfter(a, r.last)
  }

  predicate NotAfter(a: BitAddress, b: BitAddress) {
    a.byte < b.byte || (a.byte == b.byte && a.bit <= b.bit)
  }

  predicate InWords(r: Range<nat>, a: nat) {
    r.FromTo? && r.first <= a <= r.last
  }

  /** What the page prints for device i, told by the slots it stands for */
  function BitRange(sizes: seq<nat>, i: nat): Range<BitAddress>
    requires i < |sizes|
  {
    if sizes[i] == 0 then Dash
    else FromTo(BitAddressOf(Offset(sizes, i)), BitAddressOf(Offset(sizes, i) + sizes[i] - 1))
  }

  function WordRange(sizes: seq<nat>, i: nat): Range<nat>
    requires i < |sizes|
  {
    if sizes[i] == 0 then Dash
    else FromTo(FIRST + Offset(sizes, i), FIRST + Offset(sizes, i) + sizes[i] - 1)
  }

  /** The loop over the table rows, with its four counters */
  method ListDevices(devs: seq<Device>) returns (rows: seq<Row>)
    ensures |rows| == |devs|
    ensures forall i :: 0 <= i < |devs| ==>
              rows[i] == Row(BitRange(BoolInSizes(devs), i), BitRange(BoolOutSizes(devs), i),
                             WordRange(IntInSizes(devs), i), WordRange(IntOutSizes(devs), i))
  {
    assert Offset(BoolInSizes(devs), 0) == 0 && Offset(BoolOutSizes(devs), 0) == 0;
    assert Offset(IntInSizes(devs), 0) == 0 && Offset(IntOutSizes(devs), 0) == 0;
    hide Offset, BitAddressOf;
    rows := [];
    var counterDi, counterDo, counterAi, counterAo := 0, 0, 0, 0;
    for i := 0 to |devs|
      invariant |rows| == i
      invariant counterDi == Offset(BoolInSizes(devs), i) && counterDo == Offset(BoolOutSizes(devs), i)
      invariant counterAi == Offset(IntInSizes(devs), i) && counterAo == Offset(IntOutSizes(devs), i)
      invariant forall k :: 0 <= k < i ==>
                  rows[k] == Row(BitRange(BoolInSizes(devs), k), BitRange(BoolOutSizes(devs), k),
                                 WordRange(IntInSizes(devs), k), WordRange(IntOutSizes(devs), k))
    {
      OffsetNext(BoolInSizes(devs), i);
      OffsetNext(BoolOutSizes(devs), i);
      OffsetNext(IntInSizes(devs), i);
      OffsetNext(IntOutSizes(devs), i);
      var d := devs[i];
      var di, do: Range<BitAddress> := Dash, Dash;
      var ai, ao: Range<nat> := Dash, Dash;
      if d.discreteInputs != 0 {
        var first := BitAddressOf(counterDi);
        counterDi := counterDi + d.discreteInputs;
        di := FromTo(first, BitAddressOf(counterDi - 1));
      }
      if d.coils != 0 {
        var first := BitAddressOf(counterDo);
        counterDo := counterDo + d.coils;
        do := FromTo(first, BitAddressOf(counterDo - 1));
      }
      if d.inputRegisters + d.holdingRead != 0 {
        var first := FIRST + counterAi;
        counterAi := counterAi + d.inputRegisters + d.holdingRead;
        ai := FromTo(first, FIRST + (counterAi - 1));
      }
      if d.holdingRegisters != 0 {
        var first := FIRST + counterAo;
        counterAo := counterAo + d.holdingRegisters;
        ao := FromTo(first, FIRST + (counterAo - 1));
      }
      rows := rows + [Row(di, do, ai, ao)];
    }
  }

  // --------------------------------------------------------------------------
  // The printed ranges are the polled slots, and they tile the tables
  // --------------------------------------------------------------------------

  lemma {:induction false} OwnerOf(sizes: seq<nat>, slot: nat) returns (i: nat)
    requires slot < Sum(sizes)
    ensures i < |sizes| && Offset(sizes, i) <= slot < Offset(sizes, i) + sizes[i]
    decreases |sizes|
  {
    var n := |sizes| - 1;
    if slot >= Sum(sizes[..n]) {
      i := n;
    } else {
      i := OwnerOf(sizes[..n], slot);
      assert sizes[..n][..i] == sizes[..i];
    }
  }

  lemma OneOwner(sizes: seq<nat>, i: nat, j: nat, slot: nat)
    requires i < |sizes| && j < |sizes|
    requires Offset(sizes, i) <= slot < Offset(sizes, i) + sizes[i]
    requires Offset(sizes, j) <= slot < Offset(sizes, j) + sizes[j]
    ensures i == j
  {
    Apart(sizes, i, j);
  }

  /** Slot k of an image belongs to device i. */
  predicate Owns(sizes: seq<nat>, i: nat, k: int)
    requires i < |sizes|
  {
    Offset(sizes, i) <= k < Offset(sizes, i) + sizes[i]
  }

  /** An address is in the printed range of device i exactly when it is the entry that the image copy
      uses for a slot that polling uses for device i. */
  lemma PrintedIsPolled(sizes: seq<nat>, i: nat, a: BitAddress, w: nat)
    requires i < |sizes|
    ensures InBits(BitRange(sizes, i), a) <==>
      a.bit < 8 && exists k: nat :: Owns(sizes, i, k) && BoolEntry(k) == EntryAt(a)
    ensures InWords(WordRange(sizes, i), w) <==> exists k: nat :: Owns(sizes, i, k) && WordEntry(k) == w
  {
    hide Offset;
    if InBits(BitRange(sizes, i), a) {
      EntriesInOrder(EntryAt(a) - 8 * FIRST);
      assert Owns(sizes, i, EntryAt(a) - 8 * FIRST);
    }
    if k: nat :| Owns(sizes, i, k) && BoolEntry(k) == EntryAt(a) {
      EntriesInOrder(k);
    }
    if InWords(WordRange(sizes, i), w) {
      assert Owns(sizes, i, w - FIRST) && WordEntry(w - FIRST) == w;
    }
  }

  /** The printed ranges tile a block from address 100 on: each entry of the block is in the range of
      exactly one device, and no other address is in any. */
  lemma RangesTile(sizes: seq<nat>, a: BitAddress, w: nat)
    requires a.bit < 8
    ensures 8 * FIRST <= EntryAt(a) < 8 * FIRST + Sum(sizes)
       <==> exists i :: 0 <= i < |sizes| && InBits(BitRange(sizes, i), a)
    ensures FIRST <= w < FIRST + Sum(sizes) <==> exists i :: 0 <= i < |sizes| && InWords(WordRange(sizes, i), w)
    ensures forall i, j | 0 <= i < |sizes| && 0 <= j < |sizes| ::
              InBits(BitRange(sizes, i), a) && InBits(BitRange(sizes, j), a) ==> i == j
    ensures forall i, j | 0 <= i < |sizes| && 0 <= j < |sizes| ::
              InWords(WordRange(sizes, i), w) && InWords(WordRange(sizes, j), w) ==> i == j
  {
    hide BitRange, WordRange, InBits, InWords, Offset, Sum;
    forall i | 0 <= i < |sizes|
      ensures InBits(BitRange(sizes, i), a) <==> Owns(sizes, i, EntryAt(a) - 8 * FIRST)
      ensures InWords(WordRange(sizes, i), w) <==> Owns(sizes, i, w - FIRST)
      ensures Offset(sizes, i) + sizes[i] <= Sum(sizes)
    {
      PrintedBit(sizes, i, a);
      PrintedWord(sizes, i, w);
      SlotsInside(sizes, i);
    }
    if 8 * FIRST <= EntryAt(a) < 8 * FIRST + Sum(sizes) {
      var i := OwnerOf(sizes, EntryAt(a) - 8 * FIRST);
      assert InBits(BitRange(sizes, i), a);
    }
    if FIRST <= w < FIRST + Sum(sizes) {
      var i := OwnerOf(sizes, w - FIRST);
      assert InWords(WordRange(sizes, i), w);
    }
    forall i, j, k: nat | 0 <= i < |sizes| && 0 <= j < |sizes| && Owns(sizes, i, k) && Owns(sizes, j, k)
      ensures i == j
    {
      OneOwner(sizes, i, j, k);
    }
  }

  lemma PrintedBit(sizes: seq<nat>, i: nat, a: BitAddress)
    requires i < |sizes|
    ensures InBits(BitRange(sizes, i), a) <==> a.bit < 8 && Owns(sizes, i, EntryAt(a) - 8 * FIRST)
  {
    hide Offset;
  }

  lemma PrintedWord(sizes: seq<nat>, i: nat, w: nat)
    requires i < |sizes|
    ensures InWords(WordRange(sizes, i), w) <==> Owns(sizes, i, w - FIRST)
  {
    hide Offset;
  }

  // --------------------------------------------------------------------------
  // The four columns, over every run
  // --------------------------------------------------------------------------

  /** What a PLC program finds at a printed %IX address, after any run and the scan cycle's copy: the value
      last read from the device of that row, at that place in its discrete inputs. */
  lemma PrintedInputBitShows(devs: seq<Device>, steps: seq<Step>, i: nat, a: BitAddress, table: seq<Option<bv8>>)
    requires Fits(devs) && i < |devs| && Inv(devs, Initial(devs)) && |table| == BOOL_ENTRIES
    requires InBits(BitRange(BoolInSizes(devs), i), a)
    ensures var s := Run(devs, Initial(devs), steps);
      var k := EntryAt(a) - BoolEntry(Offset(BoolInSizes(devs), i));
      && 0 <= k < |BitsOf(devs, s, i)| == devs[i].discreteInputs && EntryAt(a) < |table|
      && Taken(table, s.boolIn, 8 * FIRST)[EntryAt(a)]
         == if table[EntryAt(a)].Some? then Some(BitsOf(devs, s, i)[k]) else None
  {
    hide BitRange, InBits, Offset, Sum, Run, Fits, Inv, Initial, BitsOf, InputsOf, HoldingsOf, BoolInSizes;
    var sizes, s := BoolInSizes(devs), Run(devs, Initial(devs), steps);
    EveryRun(devs, steps);
    PrintedBit(sizes, i, a);
    EntriesInOrder(Offset(sizes, i));
    SizesAt(devs, i);
    assert DeviceImage(devs, s, i);
    RunShape(devs, steps);
    var k := EntryAt(a) - 8 * FIRST - Offset(sizes, i);
    assert s.boolIn[Offset(sizes, i) + k] == BitsOf(devs, s, i)[k];
  }

  lemma RunShape(devs: seq<Device>, steps: seq<Step>)
    requires Fits(devs) && Inv(devs, Initial(devs))
    ensures var s := Run(devs, Initial(devs), steps);
      |s.boolIn| == |s.boolOut| == |s.intIn| == |s.intOut| == MAX_MB_IO
  {
    hide Initial, Fits;
  }

  /** At a printed %IW address: its input registers, and behind them the holding registers read from it */
  lemma PrintedInputWordShows(devs: seq<Device>, steps: seq<Step>, i: nat, w: nat, table: seq<Option<bv16>>)
    requires Fits(devs) && i < |devs| && Inv(devs, Initial(devs)) && |table| == WORD_ENTRIES
    requires InWords(WordRange(IntInSizes(devs), i), w)
    ensures var s := Run(devs, Initial(devs), steps);
      var k := w - WordEntry(Offset(IntInSizes(devs), i));
      && 0 <= k < |InputsOf(devs, s, i)| + |HoldingsOf(devs, s, i)| && w < |table|
      && |InputsOf(devs, s, i)| == devs[i].inputRegisters && |HoldingsOf(devs, s, i)| == devs[i].holdingRead
      && Taken(table, s.intIn, FIRST)[w]
         == if table[w].Some? then Some((InputsOf(devs, s, i) + HoldingsOf(devs, s, i))[k]) else None
  {
    hide WordEntry, BoolEntry, WordRange, InWords, Offset, Sum, Run, Fits, Inv, Initial, InputsOf, HoldingsOf,
      IntInSizes, DeviceImage;
    var sizes, s := IntInSizes(devs), Run(devs, Initial(devs), steps);
    EveryRun(devs, steps);
    PrintedWord(sizes, i, w);
    EntriesInOrder(Offset(sizes, i));
    SizesAt(devs, i);
    assert DeviceImage(devs, s, i);
    RunShape(devs, steps);
    WordSlotShows(devs, s, i, w - FIRST - Offset(sizes, i));
  }

  lemma WordSlotShows(devs: seq<Device>, s: State, i: nat, k: nat)
    requires i < |devs| && DeviceImage(devs, s, i) && k < devs[i].inputRegisters + devs[i].holdingRead
    ensures var values := InputsOf(devs, s, i) + HoldingsOf(devs, s, i);
      var slot := Offset(IntInSizes(devs), i) + k;
      && |InputsOf(devs, s, i)| == devs[i].inputRegisters && |HoldingsOf(devs, s, i)| == devs[i].holdingRead
      && slot < |s.intIn| && s.intIn[slot] == values[k]
  {
    hide Offset, InputsOf, HoldingsOf, BitsOf, IntInSizes, BoolInSizes;
    var at, n := Offset(IntInSizes(devs), i), devs[i].inputRegisters;
    if k < n {
      assert s.intIn[at + k] == InputsOf(devs, s, i)[k];
    } else {
      assert s.intIn[at + n + (k - n)] == HoldingsOf(devs, s, i)[k - n];
    }
  }

  /** What the scan cycle last published at an entry of the output tables; 0 before it did */
  function LastBit(steps: seq<Step>, entry: nat): bv8 {
    if |steps| == 0 then 0
    else
      var step := steps[|steps|-1];
      if step.Scan? && entry < |step.bools| && step.bools[entry].Some? then step.bools[entry].value
      else LastBit(steps[..|steps|-1], entry)
  }

  function LastWord(steps: seq<Step>, entry: nat): bv16 {
    if |steps| == 0 then 0
    else
      var step := steps[|steps|-1];
      if step.Scan? && entry < |step.words| && step.words[entry].Some? then step.words[entry].value
      else LastWord(steps[..|steps|-1], entry)
  }

  /** The output images hold what was last published. */
  lemma {:induction false} OutputImages(devs: seq<Device>, steps: seq<Step>, k: nat)
    requires Fits(devs) && Inv(devs, Initial(devs)) && k < MAX_MB_IO
    ensures var s := Run(devs, Initial(devs), steps);
      && |s.boolOut| == |s.intOut| == MAX_MB_IO
      && s.boolOut[k] == LastBit(steps, BoolEntry(k)) && s.intOut[k] == LastWord(steps, WordEntry(k))
    decreases |steps|
  {
    hide Inv, Fits, BoolEntry, WordEntry, PollStep;
    RunShape(devs, steps);
    if |steps| > 0 {
      hide Run;
      var before, step := steps[..|steps|-1], steps[|steps|-1];
      assert before + [step] == steps;
      OutputImages(devs, before, k);
      RunNext(devs, before, step);
      if step.Poll? {
        PollKeepsOutputs(devs, Run(devs, Initial(devs), before), step.outcome);
      }
    }
  }

  lemma PollKeepsOutputs(devs: seq<Device>, s: State, o: Outcome)
    requires Fits(devs) && Inv(devs, s)
    ensures PollStep(devs, s, o).boolOut == s.boolOut && PollStep(devs, s, o).intOut == s.intOut
  {
    DeviceInside(devs, s);
    hide Fits, Inv, PollStep;
    if s.device == |devs| || s.stage.Begin? {
      BeginKeepsReads(devs, s, o);
    } else if s.stage.ReadBits? || s.stage.ReadInputs? || s.stage.ReadHoldings? {
      RequestsKeepReads(devs, s, o);
    } else if s.stage.StoreBits? || s.stage.StoreInputs? || s.stage.StoreHoldings? {
      StoresWriteNothing(devs, s, o);
    } else {
      WritesKeepReads(devs, s, o);
    }
  }

  /** Every value sent to a coil of a device had been published, at one earlier moment for all of them, at
      the address printed for that coil. */
  lemma PrintedOutputBitsSent(devs: seq<Device>, steps: seq<Step>, n: nat) returns (p: nat)
    requires Fits(devs) && Inv(devs, Initial(devs)) && n < |Run(devs, Initial(devs), steps).coilWrites|
    ensures var t := Run(devs, Initial(devs), steps).coilWrites[n];
      && p <= |steps| && t.device < |devs| && |t.values| == devs[t.device].coils
      && forall a | InBits(BitRange(BoolOutSizes(devs), t.device), a) ::
           var k := EntryAt(a) - BoolEntry(Offset(BoolOutSizes(devs), t.device));
           0 <= k < |t.values| && t.values[k] == LastBit(steps[..p], EntryAt(a))
  {
    hide BitRange, InBits, Offset, Sum, Run, Fits, Inv, Initial, BoolOutSizes, LastBit, BoolEntry;
    var s := Run(devs, Initial(devs), steps);
    EveryWrite(devs, steps);
    var t := s.coilWrites[n];
    p :| 0 <= p <= |steps| && CoilsAfter(devs, steps, p, t.device, t.values);
    var sizes, i := BoolOutSizes(devs), t.device;
    SizesAt(devs, i);
    EntriesInOrder(Offset(sizes, i));
    SlotsInTable(devs, i);
    forall a | InBits(BitRange(sizes, i), a)
      ensures var k := EntryAt(a) - BoolEntry(Offset(sizes, i));
        0 <= k < |t.values| && t.values[k] == LastBit(steps[..p], EntryAt(a))
    {
      PrintedBit(sizes, i, a);
      var slot := EntryAt(a) - 8 * FIRST;
      EntriesInOrder(slot);
      OutputImages(devs, steps[..p], slot);
      assert slot == Offset(sizes, i) + (slot - Offset(sizes, i));
    }
  }

  lemma SlotsInTable(devs: seq<Device>, i: nat)
    requires Fits(devs) && i < |devs|
    ensures Offset(BoolOutSizes(devs), i) + BoolOutSizes(devs)[i] <= MAX_MB_IO
    ensures Offset(IntOutSizes(devs), i) + IntOutSizes(devs)[i] <= MAX_MB_IO
  {
    hide Offset, Sum;
    SlotsInside(BoolOutSizes(devs), i);
    SlotsInside(IntOutSizes(devs), i);
  }

  /** The same for the registers written to a device and its printed %QW addresses */
  lemma PrintedOutputWordsSent(devs: seq<Device>, steps: seq<Step>, n: nat) returns (p: nat)
    requires Fits(devs) && Inv(devs, Initial(devs)) && n < |Run(devs, Initial(devs), steps).holdingWrites|
    ensures var t := Run(devs, Initial(devs), steps).holdingWrites[n];
      && p <= |steps| && t.device < |devs| && |t.values| == devs[t.device].holdingRegisters
      && forall w: nat | InWords(WordRange(IntOutSizes(devs), t.device), w) ::
           var k := w - WordEntry(Offset(IntOutSizes(devs), t.device));
           0 <= k < |t.values| && t.values[k] == LastWord(steps[..p], w)
  {
    hide WordEntry, BoolEntry, WordRange, InWords, Offset, Sum, Run, Fits, Inv, Initial, IntOutSizes, LastWord;
    var s := Run(devs, Initial(devs), steps);
    EveryWrite(devs, steps);
    var t := s.holdingWrites[n];
    p :| 0 <= p <= |steps| && HoldingsAfter(devs, steps, p, t.device, t.values);
    var sizes, i := IntOutSizes(devs), t.device;
    SizesAt(devs, i);
    EntriesInOrder(Offset(sizes, i));
    SlotsInTable(devs, i);
    forall w: nat | InWords(WordRange(sizes, i), w)
      ensures var k := w - WordEntry(Offset(sizes, i));
        0 <= k < |t.values| && t.values[k] == LastWord(steps[..p], w)
    {
      PrintedWord(sizes, i, w);
      EntriesInOrder(w - FIRST);
      OutputImages(devs, steps[..p], w - FIRST);
      assert w - FIRST == Offset(sizes, i) + (w - FIRST - Offset(sizes, i));
    }
  }
}
