/**
 The polling thread and the scan cycle's two copies as they are written: loops over the image tables
 with four running indices. Every call into the network library and every section under ioLock is one
 method, proved to take one step of the state machine in SlavePolling; the ghost fields record the
 steps taken and the state they lead to. So whatever holds of every run holds of these buffers.
 */
module PollThread {
  import opened Options
  import opened SlavePolling

  /** What the network reports during the work on one device */
  datatype Outcomes = Outcomes(connect: Outcome, bits: Outcome, coils: Outcome,
                               inputs: Outcome, holdings: Outcome, outputs: Outcome)

  /** The PLC's output tables at one scan */
  datatype Outputs = Outputs(bools: seq<Option<bv8>>, words: seq<Option<bv16>>)

  predicate WholeTables(o: Outputs) {
    |o.bools| == BOOL_ENTRIES && |o.words| == WORD_ENTRIES
  }

  predicate AllWhole(scans: seq<Outputs>) {
    forall k :: 0 <= k < |scans| ==> WholeTables(scans[k])
  }

  /** The places between the parts of the work on a device where the scan cycle may come in */
  const INTERVALS := 11

  // --------------------------------------------------------------------------
  // The steps that the work on a device takes, scan cycles included
  // --------------------------------------------------------------------------

  function ScanSteps(scans: seq<Outputs>): (steps: seq<Step>)
    ensures |steps| == |scans|
  {
    seq(|scans|, k requires 0 <= k < |scans| => Scan(scans[k].bools, scans[k].words))
  }

  /** A read: the request, and the store if it succeeds, with scans before each */
  function ReadWork(size: nat, o: Outcome, read: bool, before: seq<Outputs>, between: seq<Outputs>): seq<Step> {
    ScanSteps(before) + [Poll(o)] + ScanSteps(between) + if size > 0 && read then [Poll(Success)] else []
  }

  /** A write: the load, and the request if there is anything to send, with scans before each */
  function WriteWork(size: nat, o: Outcome, before: seq<Outputs>, between: seq<Outputs>): seq<Step> {
    ScanSteps(before) + [Poll(Success)] + ScanSteps(between) + if size > 0 then [Poll(o)] else []
  }

  function BitsRead(d: Device, o: Outcome): bool {
    o.Bits? && |o.bits| == d.discreteInputs
  }

  function WordsRead(size: nat, o: Outcome): bool {
    o.Words? && |o.words| == size
  }

  /** All that is exchanged with a device */
  function Work(d: Device, net: Outcomes, scans: seq<seq<Outputs>>): seq<Step>
    requires |scans| == INTERVALS
  {
    ReadWork(d.discreteInputs, net.bits, BitsRead(d, net.bits), scans[1], scans[2])
    + WriteWork(d.coils, net.coils, scans[3], scans[4])
    + ReadWork(d.inputRegisters, net.inputs, WordsRead(d.inputRegisters, net.inputs), scans[5], scans[6])
    + ReadWork(d.holdingRead, net.holdings, WordsRead(d.holdingRead, net.holdings), scans[7], scans[8])
    + WriteWork(d.holdingRegisters, net.outputs, scans[9], scans[10])
  }

  // --------------------------------------------------------------------------
  // What is asked of a device, and what is left of its connection
  // --------------------------------------------------------------------------

  function CallFor(i: nat, n: nat, kind: Kind, ok: bool): seq<Call> {
    if n > 0 then [Call(i, kind, ok)] else []
  }

  /** The requests of a visit to a device, one for each kind of register that it has */
  function Asked(i: nat, d: Device, net: Outcomes): seq<Call> {
    CallFor(i, d.discreteInputs, ReadingBits(d.discreteStart, d.discreteInputs), BitsRead(d, net.bits))
    + CallFor(i, d.coils, WritingBits(d.coilStart, d.coils), net.coils != Failure)
    + CallFor(i, d.inputRegisters, ReadingInputs(d.inputStart, d.inputRegisters), WordsRead(d.inputRegisters, net.inputs))
    + CallFor(i, d.holdingRead, ReadingHoldings(d.holdingReadStart, d.holdingRead), WordsRead(d.holdingRead, net.holdings))
    + CallFor(i, d.holdingRegisters, WritingRegisters(d.holdingStart, d.holdingRegisters), net.outputs != Failure)
  }

  /** Every read gave the number of values asked for, and no write failed. */
  predicate AllAnswered(d: Device, net: Outcomes) {
    && (d.discreteInputs > 0 ==> net.bits.Bits? && |net.bits.bits| == d.discreteInputs)
    && (d.coils > 0 ==> net.coils != Failure)
    && (d.inputRegisters > 0 ==> net.inputs.Words? && |net.inputs.words| == d.inputRegisters)
    && (d.holdingRead > 0 ==> net.holdings.Words? && |net.holdings.words| == d.holdingRead)
    && (d.holdingRegisters > 0 ==> net.outputs != Failure)
  }

  /** An input image after a read of n values, for the slots from `at` on */
  function BitsPut(image: seq<bv8>, at: nat, n: nat, o: Outcome): (r: seq<bv8>)
    ensures |r| == |image|
  {
    if at + n <= |image| && n > 0 && o.Bits? && |o.bits| == n then image[..at] + o.bits + image[at + n..] else image
  }

  function WordsPut(image: seq<bv16>, at: nat, n: nat, o: Outcome): (r: seq<bv16>)
    ensures |r| == |image|
  {
    if at + n <= |image| && n > 0 && o.Words? && |o.words| == n then image[..at] + o.words + image[at + n..] else image
  }

  /** The output images after some scans */
  function BitsPublished(image: seq<bv8>, scans: seq<Outputs>): (r: seq<bv8>)
    ensures |r| == |image|
  {
    if |scans| == 0 then image
    else Overlay(BitsPublished(image, scans[..|scans| - 1]), scans[|scans| - 1].bools, BoolEntry)
  }

  function WordsPublished(image: seq<bv16>, scans: seq<Outputs>): (r: seq<bv16>)
    ensures |r| == |image|
  {
    if |scans| == 0 then image
    else Overlay(WordsPublished(image, scans[..|scans| - 1]), scans[|scans| - 1].words, WordEntry)
  }

  /** The output images after the scans of the intervals from one on, before another */
  function BitsThrough(image: seq<bv8>, scans: seq<seq<Outputs>>, first: nat, end: nat): (r: seq<bv8>)
    requires end <= |scans|
    ensures |r| == |image|
  {
    if end <= first then image else BitsPublished(BitsThrough(image, scans, first, end - 1), scans[end - 1])
  }

  function WordsThrough(image: seq<bv16>, scans: seq<seq<Outputs>>, first: nat, end: nat): (r: seq<bv16>)
    requires end <= |scans|
    ensures |r| == |image|
  {
    if end <= first then image else WordsPublished(WordsThrough(image, scans, first, end - 1), scans[end - 1])
  }

  lemma ThroughNext(bits: seq<bv8>, words: seq<bv16>, scans: seq<seq<Outputs>>, first: nat, end: nat)
    requires first <= end < |scans|
    ensures BitsThrough(bits, scans, first, end + 1) == BitsPublished(BitsThrough(bits, scans, first, end), scans[end])
    ensures WordsThrough(words, scans, first, end + 1) == WordsPublished(WordsThrough(words, scans, first, end), scans[end])
  {
  }

  lemma PublishedNext(bits: seq<bv8>, words: seq<bv16>, scans: seq<Outputs>, k: nat)
    requires k < |scans|
    ensures BitsPublished(bits, scans[..k + 1]) == Overlay(BitsPublished(bits, scans[..k]), scans[k].bools, BoolEntry)
    ensures WordsPublished(words, scans[..k + 1]) == Overlay(WordsPublished(words, scans[..k]), scans[k].words, WordEntry)
  {
    hide Overlay;
    assert scans[..k + 1][..k] == scans[..k];
  }

  lemma ThroughAll(bits: seq<bv8>, words: seq<bv16>, scans: seq<seq<Outputs>>)
    requires |scans| == INTERVALS
    ensures BitsThrough(bits, scans, 1, 4) ==
      BitsPublished(BitsPublished(BitsPublished(bits, scans[1]), scans[2]), scans[3])
    ensures var w4 := WordsPublished(WordsPublished(WordsPublished(WordsPublished(words, scans[1]), scans[2]), scans[3]), scans[4]);
      var w8 := WordsPublished(WordsPublished(WordsPublished(WordsPublished(w4, scans[5]), scans[6]), scans[7]), scans[8]);
      WordsThrough(words, scans, 1, 10) == WordsPublished(w8, scans[9])
  {
    hide BitsPublished, WordsPublished;
    assert BitsThrough(bits, scans, 1, 1) == bits && WordsThrough(words, scans, 1, 1) == words;
    hide BitsThrough, WordsThrough;
    ThroughNext(bits, words, scans, 1, 1);
    ThroughNext(bits, words, scans, 1, 2);
    ThroughNext(bits, words, scans, 1, 3);
    ThroughNext(bits, words, scans, 1, 4);
    ThroughNext(bits, words, scans, 1, 5);
    ThroughNext(bits, words, scans, 1, 6);
    ThroughNext(bits, words, scans, 1, 7);
    ThroughNext(bits, words, scans, 1, 8);
    ThroughNext(bits, words, scans, 1, 9);
  }

  /** The input images after a visit to device i */
  function BitsAfter(image: seq<bv8>, devs: seq<Device>, i: nat, net: Outcomes): seq<bv8>
    requires i < |devs|
  {
    BitsPut(image, Offset(BoolInSizes(devs), i), devs[i].discreteInputs, net.bits)
  }

  function WordsAfter(image: seq<bv16>, devs: seq<Device>, i: nat, net: Outcomes): seq<bv16>
    requires i < |devs|
  {
    var at := Offset(IntInSizes(devs), i);
    WordsPut(WordsPut(image, at, devs[i].inputRegisters, net.inputs),
      at + devs[i].inputRegisters, devs[i].holdingRead, net.holdings)
  }

  function WritesOf(s: State): (seq<Transfer<bv8>>, seq<Transfer<bv16>>) {
    (s.coilWrites, s.holdingWrites)
  }

  /** The values for the slots of a device, as one request sends them */
  function Sent<T>(i: nat, image: seq<T>, at: nat, n: nat): seq<Transfer<T>> {
    if n > 0 && at + n <= |image| then [Transfer(i, image[at..at + n])] else []
  }

  /** The indices on reaching a stage of device i */
  lemma IndicesAt(devs: seq<Device>, s: State)
    requires Fits(devs) && Inv(devs, s) && s.device < |devs|
    ensures |s.boolIn| == |s.boolOut| == |s.intIn| == |s.intOut| == MAX_MB_IO
    ensures var i, d := s.device, devs[s.device];
      && Offset(BoolInSizes(devs), i) + d.discreteInputs <= MAX_MB_IO && Offset(BoolOutSizes(devs), i) + d.coils <= MAX_MB_IO
      && Offset(IntInSizes(devs), i) + d.inputRegisters + d.holdingRead <= MAX_MB_IO
      && Offset(IntOutSizes(devs), i) + d.holdingRegisters <= MAX_MB_IO
      && (Rank(s.stage) <= 2 ==> s.ix.boolIn == Offset(BoolInSizes(devs), i))
      && (Rank(s.stage) <= 3 ==> s.ix.boolOut == Offset(BoolOutSizes(devs), i))
      && (Rank(s.stage) <= 6 ==> s.ix.intIn == Offset(IntInSizes(devs), i))
      && (7 <= Rank(s.stage) <= 8 ==> s.ix.intIn == Offset(IntInSizes(devs), i) + d.inputRegisters)
      && (Rank(s.stage) <= 9 ==> s.ix.intOut == Offset(IntOutSizes(devs), i))
  {
    hide Offset;
    SlotsInside(BoolInSizes(devs), s.device);
    SlotsInside(BoolOutSizes(devs), s.device);
    SlotsInside(IntInSizes(devs), s.device);
    SlotsInside(IntOutSizes(devs), s.device);
  }

  /** The connections after requests to device i */
  function Kept(connected: seq<bool>, devs: seq<Device>, i: nat, ok: bool): (r: seq<bool>)
    requires i < |devs| == |connected|
    ensures |r| == |connected|
  {
    if ok || devs[i].protocol == Rtu then connected else connected[i := false]
  }

  lemma FiveJoined<T>(start: seq<T>, a: seq<T>, b: seq<T>, c: seq<T>, d: seq<T>, e: seq<T>)
    ensures start + a + b + c + d + e == start + (a + b + c + d + e)
  {
  }

  lemma KeptJoined(connected: seq<bool>, devs: seq<Device>, i: nat, net: Outcomes)
    requires i < |devs| == |connected|
    ensures var d := devs[i];
      var c1 := Kept(connected, devs, i, d.discreteInputs == 0 || BitsRead(d, net.bits));
      var c2 := Kept(c1, devs, i, d.coils == 0 || net.coils != Failure);
      var c3 := Kept(c2, devs, i, d.inputRegisters == 0 || WordsRead(d.inputRegisters, net.inputs));
      var c4 := Kept(c3, devs, i, d.holdingRead == 0 || WordsRead(d.holdingRead, net.holdings));
      var c5 := Kept(c4, devs, i, d.holdingRegisters == 0 || net.outputs != Failure);
      c5 == Kept(connected, devs, i, AllAnswered(d, net))
  {
  }

  lemma WorkJoined(start: seq<Step>, d: Device, net: Outcomes, scans: seq<seq<Outputs>>)
    requires |scans| == INTERVALS
    ensures start
      + ReadWork(d.discreteInputs, net.bits, BitsRead(d, net.bits), scans[1], scans[2])
      + WriteWork(d.coils, net.coils, scans[3], scans[4])
      + ReadWork(d.inputRegisters, net.inputs, WordsRead(d.inputRegisters, net.inputs), scans[5], scans[6])
      + ReadWork(d.holdingRead, net.holdings, WordsRead(d.holdingRead, net.holdings), scans[7], scans[8])
      + WriteWork(d.holdingRegisters, net.outputs, scans[9], scans[10]) == start + Work(d, net, scans)
  {
    hide ReadWork, WriteWork, BitsRead, WordsRead;
    FiveJoined(start, ReadWork(d.discreteInputs, net.bits, BitsRead(d, net.bits), scans[1], scans[2]),
      WriteWork(d.coils, net.coils, scans[3], scans[4]),
      ReadWork(d.inputRegisters, net.inputs, WordsRead(d.inputRegisters, net.inputs), scans[5], scans[6]),
      ReadWork(d.holdingRead, net.holdings, WordsRead(d.holdingRead, net.holdings), scans[7], scans[8]),
      WriteWork(d.holdingRegisters, net.outputs, scans[9], scans[10]));
  }

  lemma AskedJoined(start: seq<Call>, i: nat, d: Device, net: Outcomes)
    ensures start
      + CallFor(i, d.discreteInputs, d.DiscreteRequest(), BitsRead(d, net.bits))
      + CallFor(i, d.coils, d.CoilRequest(), net.coils != Failure)
      + CallFor(i, d.inputRegisters, d.InputRequest(), WordsRead(d.inputRegisters, net.inputs))
      + CallFor(i, d.holdingRead, d.HoldingReadRequest(), WordsRead(d.holdingRead, net.holdings))
      + CallFor(i, d.holdingRegisters, d.HoldingRequest(), net.outputs != Failure) == start + Asked(i, d, net)
  {
    hide CallFor, BitsRead, WordsRead;
    FiveJoined(start, CallFor(i, d.discreteInputs, d.DiscreteRequest(), BitsRead(d, net.bits)),
      CallFor(i, d.coils, d.CoilRequest(), net.coils != Failure),
      CallFor(i, d.inputRegisters, d.InputRequest(), WordsRead(d.inputRegisters, net.inputs)),
      CallFor(i, d.holdingRead, d.HoldingReadRequest(), WordsRead(d.holdingRead, net.holdings)),
      CallFor(i, d.holdingRegisters, d.HoldingRequest(), net.outputs != Failure));
  }

  // --------------------------------------------------------------------------
  // The scan cycle's copy of the input images
  // --------------------------------------------------------------------------

  /** A table after the copy: the glued entries of the block take their image slots. */
  function Taken<T>(table: seq<Option<T>>, image: seq<T>, first: nat): (r: seq<Option<T>>)
    ensures |r| == |table|
  {
    seq(|table|, p requires 0 <= p < |table| =>
      if first <= p < first + |image| && table[p].Some? then Some(image[p - first]) else table[p])
  }

  lemma TakenNothing<T>(table: seq<Option<T>>, image: seq<T>, first: nat)
    ensures Taken(table, image[..0], first) == table
  {
  }

  lemma TakenNext<T>(table: seq<Option<T>>, image: seq<T>, first: nat, i: nat)
    requires i < |image| && first + i < |table|
    ensures var t := Taken(table, image[..i], first);
      && |t| == |table| && t[first + i] == table[first + i]
      && Taken(table, image[..i + 1], first) == if table[first + i].Some? then t[first + i := Some(image[i])] else t
  {
  }

  lemma TakenEverywhere<T>(table: seq<Option<T>>, image: seq<T>, first: nat)
    ensures |Taken(table, image, first)| == |table|
    ensures forall p :: 0 <= p < |table| ==>
      Taken(table, image, first)[p]
      == if first <= p < first + |image| && table[p].Some? then Some(image[p - first]) else table[p]
  {
  }

  lemma EntriesInOrder(i: nat)
    ensures BoolEntry(i) == 8 * FIRST + i && WordEntry(i) == FIRST + i
  {
  }

  // --------------------------------------------------------------------------
  // The steps of the machine, stage by stage
  // --------------------------------------------------------------------------

  lemma ConnectStep(devs: seq<Device>, s: State, o: Outcome)
    requires Fits(devs) && Inv(devs, s) && s.device < |devs| && s.stage == Begin
    ensures |s.connected| == |devs|
    ensures var d := devs[s.device];
      PollStep(devs, s, o) ==
      if s.connected[s.device] || PortConnected(devs, s.connected, s.device) then s.(stage := ReadBits)
      else if o == Failure then
        Logged(s, Connecting, false).(device := s.device + 1,
           ix := Indices(s.ix.boolIn + d.discreteInputs, s.ix.boolOut + d.coils,
                         s.ix.intIn + d.inputRegisters + d.holdingRead, s.ix.intOut + d.holdingRegisters))
      else Logged(s, Connecting, true).(connected := s.connected[s.device := true], stage := ReadBits)
  {
    hide Fits, ExpectedIndices, PortConnected;
  }

  lemma ReadBitsStep(devs: seq<Device>, s: State, o: Outcome)
    requires Fits(devs) && Inv(devs, s) && s.device < |devs| && s.stage == ReadBits
    ensures |s.connected| == |devs|
    ensures var d := devs[s.device];
      PollStep(devs, s, o) ==
      if d.discreteInputs == 0 then s.(stage := LoadCoils)
      else if BitsRead(d, o) then Logged(s, devs[s.device].DiscreteRequest(), true).(stage := StoreBits(o.bits))
      else Logged(Lose(devs, s), devs[s.device].DiscreteRequest(), false).(
        stage := LoadCoils, ix := s.ix.(boolIn := s.ix.boolIn + d.discreteInputs))
  {
    hide Fits, ExpectedIndices, PortConnected, Lose;
  }

  lemma StoreBitsStep(devs: seq<Device>, s: State, o: Outcome)
    requires Fits(devs) && Inv(devs, s) && s.device < |devs| && s.stage.StoreBits?
    ensures s.ix.boolIn + |s.stage.bits| <= |s.boolIn| == MAX_MB_IO
    ensures PollStep(devs, s, o) ==
      s.(stage := LoadCoils, boolIn := Splice(s.boolIn, s.ix.boolIn, s.stage.bits),
         ix := s.ix.(boolIn := s.ix.boolIn + |s.stage.bits|), bitReads := s.bitReads + [Transfer(s.device, s.stage.bits)])
  {
    Bounds(devs, s);
    hide Fits, ExpectedIndices, PortConnected, Splice;
  }

  lemma LoadCoilsStep(devs: seq<Device>, s: State, o: Outcome)
    requires Fits(devs) && Inv(devs, s) && s.device < |devs| && s.stage == LoadCoils
    ensures s.ix.boolOut + devs[s.device].coils <= |s.boolOut| == MAX_MB_IO
    ensures var n := devs[s.device].coils;
      PollStep(devs, s, o) ==
      if n == 0 then s.(stage := ReadInputs)
      else s.(stage := SendCoils(s.boolOut[s.ix.boolOut..s.ix.boolOut + n]), ix := s.ix.(boolOut := s.ix.boolOut + n))
  {
    Bounds(devs, s);
    hide Fits, ExpectedIndices, PortConnected;
  }

  lemma SendCoilsStep(devs: seq<Device>, s: State, o: Outcome)
    requires Fits(devs) && Inv(devs, s) && s.device < |devs| && s.stage.SendCoils?
    ensures |s.connected| == |devs|
    ensures PollStep(devs, s, o) ==
      Logged(if o == Failure then Lose(devs, s) else s, devs[s.device].CoilRequest(), o != Failure).(
        stage := ReadInputs, coilWrites := s.coilWrites + [Transfer(s.device, s.stage.coils)])
  {
    hide Fits, ExpectedIndices, PortConnected, Lose;
  }

  lemma ReadInputsStep(devs: seq<Device>, s: State, o: Outcome)
    requires Fits(devs) && Inv(devs, s) && s.device < |devs| && s.stage == ReadInputs
    ensures |s.connected| == |devs|
    ensures var n := devs[s.device].inputRegisters;
      PollStep(devs, s, o) ==
      if n == 0 then s.(stage := ReadHoldings)
      else if WordsRead(n, o) then Logged(s, devs[s.device].InputRequest(), true).(stage := StoreInputs(o.words))
      else Logged(Lose(devs, s), devs[s.device].InputRequest(), false).(
        stage := ReadHoldings, ix := s.ix.(intIn := s.ix.intIn + n))
  {
    hide Fits, ExpectedIndices, PortConnected, Lose;
  }

  lemma StoreInputsStep(devs: seq<Device>, s: State, o: Outcome)
    requires Fits(devs) && Inv(devs, s) && s.device < |devs| && s.stage.StoreInputs?
    ensures s.ix.intIn + |s.stage.inputs| <= |s.intIn| == MAX_MB_IO
    ensures PollStep(devs, s, o) ==
      s.(stage := ReadHoldings, intIn := Splice(s.intIn, s.ix.intIn, s.stage.inputs),
         ix := s.ix.(intIn := s.ix.intIn + |s.stage.inputs|),
         inputReads := s.inputReads + [Transfer(s.device, s.stage.inputs)])
  {
    Bounds(devs, s);
    hide Fits, ExpectedIndices, PortConnected, Splice;
  }

  lemma ReadHoldingsStep(devs: seq<Device>, s: State, o: Outcome)
    requires Fits(devs) && Inv(devs, s) && s.device < |devs| && s.stage == ReadHoldings
    ensures |s.connected| == |devs|
    ensures var n := devs[s.device].holdingRead;
      PollStep(devs, s, o) ==
      if n == 0 then s.(stage := LoadHoldings)
      else if WordsRead(n, o) then Logged(s, devs[s.device].HoldingReadRequest(), true).(stage := StoreHoldings(o.words))
      else Logged(Lose(devs, s), devs[s.device].HoldingReadRequest(), false).(
        stage := LoadHoldings, ix := s.ix.(intIn := s.ix.intIn + n))
  {
    hide Fits, ExpectedIndices, PortConnected, Lose;
  }

  lemma StoreHoldingsStep(devs: seq<Device>, s: State, o: Outcome)
    requires Fits(devs) && Inv(devs, s) && s.device < |devs| && s.stage.StoreHoldings?
    ensures s.ix.intIn + |s.stage.holdings| <= |s.intIn| == MAX_MB_IO
    ensures PollStep(devs, s, o) ==
      s.(stage := LoadHoldings, intIn := Splice(s.intIn, s.ix.intIn, s.stage.holdings),
         ix := s.ix.(intIn := s.ix.intIn + |s.stage.holdings|),
         holdingReads := s.holdingReads + [Transfer(s.device, s.stage.holdings)])
  {
    Bounds(devs, s);
    hide Fits, ExpectedIndices, PortConnected, Splice;
  }

  lemma LoadHoldingsStep(devs: seq<Device>, s: State, o: Outcome)
    requires Fits(devs) && Inv(devs, s) && s.device < |devs| && s.stage == LoadHoldings
    ensures s.ix.intOut + devs[s.device].holdingRegisters <= |s.intOut| == MAX_MB_IO
    ensures var n := devs[s.device].holdingRegisters;
      PollStep(devs, s, o) ==
      if n == 0 then NextDevice(s)
      else s.(stage := SendHoldings(s.intOut[s.ix.intOut..s.ix.intOut + n]), ix := s.ix.(intOut := s.ix.intOut + n))
  {
    Bounds(devs, s);
    hide Fits, ExpectedIndices, PortConnected;
  }

  lemma SendHoldingsStep(devs: seq<Device>, s: State, o: Outcome)
    requires Fits(devs) && Inv(devs, s) && s.device < |devs| && s.stage.SendHoldings?
    ensures |s.connected| == |devs|
    ensures PollStep(devs, s, o) ==
      NextDevice(Logged(if o == Failure then Lose(devs, s) else s, devs[s.device].HoldingRequest(), o != Failure).(
        holdingWrites := s.holdingWrites + [Transfer(s.device, s.stage.outputs)]))
  {
    hide Fits, ExpectedIndices, PortConnected, Lose;
  }

  // --------------------------------------------------------------------------
  // The thread
  // --------------------------------------------------------------------------

  class Master {
    const devs: seq<Device>
    var connected: seq<bool>
    const boolInputBuf: array<bv8>
    const boolOutputBuf: array<bv8>
    const intInputBuf: array<bv16>
    const intOutputBuf: array<bv16>
    var boolInputIndex: nat
    var boolOutputIndex: nat
    var intInputIndex: nat
    var intOutputIndex: nat
    ghost var model: State
    ghost var history: seq<Step>

    ghost predicate Valid()
      reads this, boolInputBuf, boolOutputBuf, intInputBuf, intOutputBuf
    {
      && Follows()
      && boolInputBuf != boolOutputBuf && intInputBuf != intOutputBuf
      && connected == model.connected && |connected| == |devs|
      && boolInputBuf[..] == model.boolIn && boolOutputBuf[..] == model.boolOut
      && intInputBuf[..] == model.intIn && intOutputBuf[..] == model.intOut
      && Indices(boolInputIndex, boolOutputIndex, intInputIndex, intOutputIndex) == model.ix
    }

    /** The state is the one that the recorded steps lead to. */
    ghost predicate Follows()
      reads this
    {
      Fits(devs) && Inv(devs, Initial(devs)) && Inv(devs, model) && model == Run(devs, Initial(devs), history)
    }

    constructor (devs: seq<Device>)
      requires Fits(devs)
      ensures Valid() && this.devs == devs && model == Initial(devs) && history == []
      ensures fresh(boolInputBuf) && fresh(boolOutputBuf) && fresh(intInputBuf) && fresh(intOutputBuf)
    {
      this.devs := devs;
      connected := seq(|devs|, i => false);
      boolInputBuf := new bv8[MAX_MB_IO](i => 0);
      boolOutputBuf := new bv8[MAX_MB_IO](i => 0);
      intInputBuf := new bv16[MAX_MB_IO](i => 0);
      intOutputBuf := new bv16[MAX_MB_IO](i => 0);
      boolInputIndex, boolOutputIndex, intInputIndex, intOutputIndex := 0, 0, 0, 0;
      model, history := Initial(devs), [];
      new;
      InitialInv(devs);
    }

    /** One more step of the run */
    ghost method Advance(step: Step)
      requires Follows()
      modifies this`model, this`history
      ensures Follows() && model == Next(devs, old(model), step) && history == old(history) + [step]
    {
      hide Inv, Fits, Next, Run, Initial;
      StepKeepsInv(devs, model, step);
      RunNext(devs, history, step);
      model, history := Next(devs, model, step), history + [step];
    }

    /** Is there a connected RTU device using the same port? */
    method RtuPortConnected(i: nat) returns (found: bool)
      requires i < |devs| == |connected|
      ensures found == PortConnected(devs, connected, i)
    {
      found := false;
      if devs[i].protocol == Rtu {
        for a := 0 to |devs|
          invariant found == exists b :: 0 <= b < a && b != i && devs[b].address == devs[i].address && connected[b]
        {
          if a != i && devs[a].address == devs[i].address && connected[a] {
            found := true;
          }
        }
      }
    }

    /** A failed transfer closes the connection of a device that is not a serial one. */
    method Fail(i: nat)
      requires i < |devs| == |connected|
      modifies this`connected
      ensures connected == if devs[i].protocol != Rtu then old(connected)[i := false] else old(connected)
    {
      if devs[i].protocol != Rtu {
        connected := connected[i := false];
      }
    }

    /** The check of the connection, and the attempt to connect; a device that stays away is skipped. */
    method Connect(i: nat, o: Outcome) returns (reached: bool)
      requires Valid() && i == model.device < |devs| && model.stage == Begin
      modifies this`connected, this`boolInputIndex, this`boolOutputIndex, this`intInputIndex, this`intOutputIndex
      modifies this`model, this`history
      ensures Valid() && model == PollStep(devs, old(model), o)
      ensures history == old(history) + [Poll(o)]
      ensures var linked := old(connected[i]) || PortConnected(devs, old(connected), i);
        && connected == (if !linked && o != Failure then old(connected)[i := true] else old(connected))
        && model.calls == old(model.calls) + (if linked then [] else [Call(i, Connecting, o != Failure)])
      ensures WritesOf(model) == WritesOf(old(model))
      ensures reached == (old(connected[i]) || PortConnected(devs, old(connected), i) || o != Failure)
      ensures if reached then model.device == i && model.stage == ReadBits else model.device == i + 1 && model.stage == Begin
    {
      hide Fits, Inv, PortConnected, Run, PollStep, Initial, BeginStep;
      ConnectStep(devs, model, o);
      var rtuPortConnected := RtuPortConnected(i);
      reached := connected[i] || rtuPortConnected;
      if !reached {
        if o == Failure {
          boolInputIndex := boolInputIndex + devs[i].discreteInputs;
          intInputIndex := intInputIndex + devs[i].inputRegisters;
          intInputIndex := intInputIndex + devs[i].holdingRead;
          boolOutputIndex := boolOutputIndex + devs[i].coils;
          intOutputIndex := intOutputIndex + devs[i].holdingRegisters;
        } else {
          connected := connected[i := true];
          reached := true;
        }
      }
      Advance(Poll(o));
    }

    // The loops under ioLock

    method CopyToBoolInput(tempBuff: seq<bv8>)
      requires boolInputIndex + |tempBuff| <= boolInputBuf.Length
      modifies boolInputBuf, this`boolInputIndex
      ensures boolInputBuf[..] == Splice(old(boolInputBuf[..]), old(boolInputIndex), tempBuff)
      ensures boolInputIndex == old(boolInputIndex) + |tempBuff|
    {
      ghost var before, at := boolInputBuf[..], boolInputIndex;
      for j := 0 to |tempBuff|
        invariant boolInputIndex == at + j
        invariant forall k :: 0 <= k < |before| ==>
                    boolInputBuf[k] == if at <= k < at + j then tempBuff[k - at] else before[k]
      {
        boolInputBuf[boolInputIndex] := tempBuff[j];
        boolInputIndex := boolInputIndex + 1;
      }
    }

    /** Both kinds of registers go to the same image, one behind the other. */
    method CopyToIntInput(tempBuff: seq<bv16>)
      requires intInputIndex + |tempBuff| <= intInputBuf.Length
      modifies intInputBuf, this`intInputIndex
      ensures intInputBuf[..] == Splice(old(intInputBuf[..]), old(intInputIndex), tempBuff)
      ensures intInputIndex == old(intInputIndex) + |tempBuff|
    {
      ghost var before, at := intInputBuf[..], intInputIndex;
      for j := 0 to |tempBuff|
        invariant intInputIndex == at + j
        invariant forall k :: 0 <= k < |before| ==>
                    intInputBuf[k] == if at <= k < at + j then tempBuff[k - at] else before[k]
      {
        intInputBuf[intInputIndex] := tempBuff[j];
        intInputIndex := intInputIndex + 1;
      }
    }

    method CopyFromBoolOutput(n: nat) returns (tempBuff: seq<bv8>)
      requires boolOutputIndex + n <= boolOutputBuf.Length
      modifies this`boolOutputIndex
      ensures tempBuff == boolOutputBuf[old(boolOutputIndex)..old(boolOutputIndex) + n]
      ensures boolOutputIndex == old(boolOutputIndex) + n
    {
      tempBuff := [];
      ghost var at := boolOutputIndex;
      for j := 0 to n
        invariant boolOutputIndex == at + j && tempBuff == boolOutputBuf[at..at + j]
      {
        tempBuff := tempBuff + [boolOutputBuf[boolOutputIndex]];
        boolOutputIndex := boolOutputIndex + 1;
      }
    }

    method CopyFromIntOutput(n: nat) returns (tempBuff: seq<bv16>)
      requires intOutputIndex + n <= intOutputBuf.Length
      modifies this`intOutputIndex
      ensures tempBuff == intOutputBuf[old(intOutputIndex)..old(intOutputIndex) + n]
      ensures intOutputIndex == old(intOutputIndex) + n
    {
      tempBuff := [];
      ghost var at := intOutputIndex;
      for j := 0 to n
        invariant intOutputIndex == at + j && tempBuff == intOutputBuf[at..at + j]
      {
        tempBuff := tempBuff + [intOutputBuf[intOutputIndex]];
        intOutputIndex := intOutputIndex + 1;
      }
    }

    method CopyOutputTables(o: Outputs)
      requires WholeTables(o) && boolOutputBuf.Length == intOutputBuf.Length == MAX_MB_IO
      modifies boolOutputBuf, intOutputBuf
      ensures boolOutputBuf[..] == Overlay(old(boolOutputBuf[..]), o.bools, BoolEntry)
      ensures intOutputBuf[..] == Overlay(old(intOutputBuf[..]), o.words, WordEntry)
      ensures forall k :: 0 <= k < 400 ==>
        boolOutputBuf[k] == if o.bools[800 + k].Some? then o.bools[800 + k].value else old(boolOutputBuf[k])
      ensures forall k :: 0 <= k < 400 ==>
        intOutputBuf[k] == if o.words[100 + k].Some? then o.words[100 + k].value else old(intOutputBuf[k])
    {
      ghost var bools, words := boolOutputBuf[..], intOutputBuf[..];
      for i := 0 to MAX_MB_IO
        invariant forall k :: i <= k < MAX_MB_IO ==> boolOutputBuf[k] == bools[k] && intOutputBuf[k] == words[k]
        invariant forall k :: 0 <= k < i ==>
                    boolOutputBuf[k] == if o.bools[BoolEntry(k)].Some? then o.bools[BoolEntry(k)].value else bools[k]
        invariant forall k :: 0 <= k < i ==>
                    intOutputBuf[k] == if o.words[WordEntry(k)].Some? then o.words[WordEntry(k)].value else words[k]
      {
        if o.bools[8 * (100 + i / 8) + i % 8].Some? {
          boolOutputBuf[i] := o.bools[8 * (100 + i / 8) + i % 8].value;
        }
        if o.words[100 + i].Some? {
          intOutputBuf[i] := o.words[100 + i].value;
        }
      }
    }

    // The two steps of each part: the call into the library, and the section under ioLock

    method RequestBits(i: nat, o: Outcome) returns (tempBuff: seq<bv8>)
      requires Valid() && i == model.device < |devs| && model.stage == ReadBits
      modifies this`connected, this`boolInputIndex, this`model, this`history
      ensures Valid() && model == PollStep(devs, old(model), o)
      ensures history == old(history) + [Poll(o)]
      ensures connected == Kept(old(connected), devs, i, devs[i].discreteInputs == 0 || BitsRead(devs[i], o))
      ensures model.calls == old(model.calls)
        + CallFor(i, devs[i].discreteInputs, devs[i].DiscreteRequest(), BitsRead(devs[i], o))
      ensures model.device == i && WritesOf(model) == WritesOf(old(model))
      ensures model.stage == if devs[i].discreteInputs > 0 && BitsRead(devs[i], o) then StoreBits(tempBuff) else LoadCoils
      ensures devs[i].discreteInputs > 0 && BitsRead(devs[i], o) ==> tempBuff == o.bits
    {
      hide Fits, Inv, Run, PollStep, Initial;
      ReadBitsStep(devs, model, o);
      tempBuff := [];
      if devs[i].discreteInputs != 0 {
        if BitsRead(devs[i], o) {
          tempBuff := o.bits;
        } else {
          Fail(i);
          boolInputIndex := boolInputIndex + devs[i].discreteInputs;
        }
      }
      Advance(Poll(o));
    }

    method CopyBits(tempBuff: seq<bv8>)
      requires Valid() && model.device < |devs| && model.stage == StoreBits(tempBuff)
      modifies boolInputBuf, this`boolInputIndex, this`model, this`history
      ensures Valid() && model == PollStep(devs, old(model), Success)
      ensures history == old(history) + [Poll(Success)]
      ensures model.calls == old(model.calls) && WritesOf(model) == WritesOf(old(model))
      ensures model.device == old(model.device) && model.stage == LoadCoils
      ensures var at := Offset(BoolInSizes(devs), model.device);
        && at + |tempBuff| <= |old(boolInputBuf[..])|
        && boolInputBuf[..] == old(boolInputBuf[..])[..at] + tempBuff + old(boolInputBuf[..])[at + |tempBuff|..]
    {
      hide Fits, Inv, Run, PollStep, Initial, Offset;
      IndicesAt(devs, model);
      StoreBitsStep(devs, model, Success);
      CopyToBoolInput(tempBuff);
      Advance(Poll(Success));
    }

    method CopyCoils(i: nat) returns (tempBuff: seq<bv8>)
      requires Valid() && i == model.device < |devs| && model.stage == LoadCoils
      modifies this`boolOutputIndex, this`model, this`history
      ensures Valid() && model == PollStep(devs, old(model), Success)
      ensures history == old(history) + [Poll(Success)]
      ensures model.calls == old(model.calls) && WritesOf(model) == WritesOf(old(model))
      ensures model.device == i
      ensures model.stage == if devs[i].coils > 0 then SendCoils(tempBuff) else ReadInputs
      ensures var at := Offset(BoolOutSizes(devs), i);
        at + devs[i].coils <= boolOutputBuf.Length && tempBuff == boolOutputBuf[at..at + devs[i].coils]
    {
      hide Fits, Inv, Run, PollStep, Initial, Offset;
      IndicesAt(devs, model);
      LoadCoilsStep(devs, model, Success);
      tempBuff := CopyFromBoolOutput(devs[i].coils);
      Advance(Poll(Success));
    }

    method DeliverCoils(i: nat, tempBuff: seq<bv8>, o: Outcome)
      requires Valid() && i == model.device < |devs| && model.stage == SendCoils(tempBuff)
      modifies this`connected, this`model, this`history
      ensures Valid() && model == PollStep(devs, old(model), o)
      ensures history == old(history) + [Poll(o)]
      ensures connected == Kept(old(connected), devs, i, o != Failure)
      ensures model.calls == old(model.calls) + [Call(i, devs[i].CoilRequest(), o != Failure)]
      ensures WritesOf(model) == (old(model).coilWrites + [Transfer(i, tempBuff)], old(model).holdingWrites)
      ensures model.device == i && model.stage == ReadInputs
    {
      hide Fits, Inv, Run, PollStep, Initial;
      SendCoilsStep(devs, model, o);
      if o == Failure {
        Fail(i);
      }
      Advance(Poll(o));
    }

    method RequestInputs(i: nat, o: Outcome) returns (tempBuff: seq<bv16>)
      requires Valid() && i == model.device < |devs| && model.stage == ReadInputs
      modifies this`connected, this`intInputIndex, this`model, this`history
      ensures Valid() && model == PollStep(devs, old(model), o)
      ensures history == old(history) + [Poll(o)]
      ensures connected == Kept(old(connected), devs, i, devs[i].inputRegisters == 0 || WordsRead(devs[i].inputRegisters, o))
      ensures model.calls == old(model.calls)
        + CallFor(i, devs[i].inputRegisters, devs[i].InputRequest(), WordsRead(devs[i].inputRegisters, o))
      ensures model.device == i && WritesOf(model) == WritesOf(old(model))
      ensures model.stage ==
        if devs[i].inputRegisters > 0 && WordsRead(devs[i].inputRegisters, o) then StoreInputs(tempBuff) else ReadHoldings
      ensures devs[i].inputRegisters > 0 && WordsRead(devs[i].inputRegisters, o) ==> tempBuff == o.words
    {
      hide Fits, Inv, Run, PollStep, Initial;
      ReadInputsStep(devs, model, o);
      tempBuff := [];
      if devs[i].inputRegisters != 0 {
        if WordsRead(devs[i].inputRegisters, o) {
          tempBuff := o.words;
        } else {
          Fail(i);
          intInputIndex := intInputIndex + devs[i].inputRegisters;
        }
      }
      Advance(Poll(o));
    }

    method CopyInputs(tempBuff: seq<bv16>)
      requires Valid() && model.device < |devs| && model.stage == StoreInputs(tempBuff)
      modifies intInputBuf, this`intInputIndex, this`model, this`history
      ensures Valid() && model == PollStep(devs, old(model), Success)
      ensures history == old(history) + [Poll(Success)]
      ensures model.calls == old(model.calls) && WritesOf(model) == WritesOf(old(model))
      ensures model.device == old(model.device) && model.stage == ReadHoldings
      ensures var at := Offset(IntInSizes(devs), model.device);
        && at + |tempBuff| <= |old(intInputBuf[..])|
        && intInputBuf[..] == old(intInputBuf[..])[..at] + tempBuff + old(intInputBuf[..])[at + |tempBuff|..]
    {
      hide Fits, Inv, Run, PollStep, Initial, Offset;
      IndicesAt(devs, model);
      StoreInputsStep(devs, model, Success);
      CopyToIntInput(tempBuff);
      Advance(Poll(Success));
    }

    method RequestHoldings(i: nat, o: Outcome) returns (tempBuff: seq<bv16>)
      requires Valid() && i == model.device < |devs| && model.stage == ReadHoldings
      modifies this`connected, this`intInputIndex, this`model, this`history
      ensures Valid() && model == PollStep(devs, old(model), o)
      ensures history == old(history) + [Poll(o)]
      ensures connected == Kept(old(connected), devs, i, devs[i].holdingRead == 0 || WordsRead(devs[i].holdingRead, o))
      ensures model.calls == old(model.calls)
        + CallFor(i, devs[i].holdingRead, devs[i].HoldingReadRequest(), WordsRead(devs[i].holdingRead, o))
      ensures model.device == i && WritesOf(model) == WritesOf(old(model))
      ensures model.stage ==
        if devs[i].holdingRead > 0 && WordsRead(devs[i].holdingRead, o) then StoreHoldings(tempBuff) else LoadHoldings
      ensures devs[i].holdingRead > 0 && WordsRead(devs[i].holdingRead, o) ==> tempBuff == o.words
    {
      hide Fits, Inv, Run, PollStep, Initial;
      ReadHoldingsStep(devs, model, o);
      tempBuff := [];
      if devs[i].holdingRead != 0 {
        if WordsRead(devs[i].holdingRead, o) {
          tempBuff := o.words;
        } else {
          Fail(i);
          intInputIndex := intInputIndex + devs[i].holdingRead;
        }
      }
      Advance(Poll(o));
    }

    method CopyHoldings(tempBuff: seq<bv16>)
      requires Valid() && model.device < |devs| && model.stage == StoreHoldings(tempBuff)
      modifies intInputBuf, this`intInputIndex, this`model, this`history
      ensures Valid() && model == PollStep(devs, old(model), Success)
      ensures history == old(history) + [Poll(Success)]
      ensures model.calls == old(model.calls) && WritesOf(model) == WritesOf(old(model))
      ensures model.device == old(model.device) && model.stage == LoadHoldings
      ensures var at := Offset(IntInSizes(devs), model.device) + devs[model.device].inputRegisters;
        && at + |tempBuff| <= |old(intInputBuf[..])|
        && intInputBuf[..] == old(intInputBuf[..])[..at] + tempBuff + old(intInputBuf[..])[at + |tempBuff|..]
    {
      hide Fits, Inv, Run, PollStep, Initial, Offset;
      IndicesAt(devs, model);
      StoreHoldingsStep(devs, model, Success);
      CopyToIntInput(tempBuff);
      Advance(Poll(Success));
    }

    method CopyOutputs(i: nat) returns (tempBuff: seq<bv16>)
      requires Valid() && i == model.device < |devs| && model.stage == LoadHoldings
      modifies this`intOutputIndex, this`model, this`history
      ensures Valid() && model == PollStep(devs, old(model), Success)
      ensures history == old(history) + [Poll(Success)]
      ensures model.calls == old(model.calls) && WritesOf(model) == WritesOf(old(model))
      ensures if devs[i].holdingRegisters > 0 then model.device == i && model.stage == SendHoldings(tempBuff)
              else model.device == i + 1 && model.stage == Begin
      ensures var at := Offset(IntOutSizes(devs), i);
        at + devs[i].holdingRegisters <= intOutputBuf.Length && tempBuff == intOutputBuf[at..at + devs[i].holdingRegisters]
    {
      hide Fits, Inv, Run, PollStep, Initial, Offset;
      IndicesAt(devs, model);
      LoadHoldingsStep(devs, model, Success);
      tempBuff := CopyFromIntOutput(devs[i].holdingRegisters);
      Advance(Poll(Success));
    }

    method DeliverOutputs(i: nat, tempBuff: seq<bv16>, o: Outcome)
      requires Valid() && i == model.device < |devs| && model.stage == SendHoldings(tempBuff)
      modifies this`connected, this`model, this`history
      ensures Valid() && model == PollStep(devs, old(model), o)
      ensures history == old(history) + [Poll(o)]
      ensures connected == Kept(old(connected), devs, i, o != Failure)
      ensures model.calls == old(model.calls) + [Call(i, devs[i].HoldingRequest(), o != Failure)]
      ensures WritesOf(model) == (old(model).coilWrites, old(model).holdingWrites + [Transfer(i, tempBuff)])
      ensures model.device == i + 1 && model.stage == Begin
    {
      hide Fits, Inv, Run, PollStep, Initial;
      SendHoldingsStep(devs, model, o);
      if o == Failure {
        Fail(i);
      }
      Advance(Poll(o));
    }

    // The scan cycle

    /** updateBuffersOut_MB: the scan cycle publishes its output tables, at whatever moment. */
    method UpdateBuffersOut(o: Outputs)
      requires Valid() && WholeTables(o)
      modifies boolOutputBuf, intOutputBuf, this`model, this`history
      ensures Valid() && model == Next(devs, old(model), Scan(o.bools, o.words))
      ensures history == old(history) + [Scan(o.bools, o.words)]
      ensures model.calls == old(model.calls) && WritesOf(model) == WritesOf(old(model))
      ensures boolOutputBuf[..] == Overlay(old(boolOutputBuf[..]), o.bools, BoolEntry)
      ensures intOutputBuf[..] == Overlay(old(intOutputBuf[..]), o.words, WordEntry)
      ensures boolOutputBuf.Length == intOutputBuf.Length == 400
      ensures forall k :: 0 <= k < 400 ==>
        boolOutputBuf[k] == if o.bools[800 + k].Some? then o.bools[800 + k].value else old(boolOutputBuf[k])
      ensures forall k :: 0 <= k < 400 ==>
        intOutputBuf[k] == if o.words[100 + k].Some? then o.words[100 + k].value else old(intOutputBuf[k])
      ensures model.device == old(model.device) && model.stage == old(model.stage)
    {
      assert |model.boolOut| == |model.intOut| == MAX_MB_IO;
      hide Fits, Inv, Run, PollStep, Initial, Overlay;
      CopyOutputTables(o);
      Advance(Scan(o.bools, o.words));
    }

    /** updateBuffersIn_MB: the scan cycle takes over the input images; an entry with no variable glued to
        it is skipped, and the entries outside the block stay. */
    method UpdateBuffersIn(boolInput: seq<Option<bv8>>, intInput: seq<Option<bv16>>)
      returns (boolInput': seq<Option<bv8>>, intInput': seq<Option<bv16>>)
      requires Valid() && |boolInput| == BOOL_ENTRIES && |intInput| == WORD_ENTRIES
      ensures boolInput' == Taken(boolInput, model.boolIn, 8 * FIRST) && intInput' == Taken(intInput, model.intIn, FIRST)
      ensures |boolInput'| == BOOL_ENTRIES && forall p :: 0 <= p < BOOL_ENTRIES ==>
        boolInput'[p] == if 800 <= p < 1200 && boolInput[p].Some? then Some(boolInputBuf[p - 800]) else boolInput[p]
      ensures |intInput'| == WORD_ENTRIES && forall p :: 0 <= p < WORD_ENTRIES ==>
        intInput'[p] == if 100 <= p < 500 && intInput[p].Some? then Some(intInputBuf[p - 100]) else intInput[p]
    {
      assert |model.boolIn| == |model.intIn| == MAX_MB_IO;
      hide Follows, Taken;
      boolInput', intInput' := boolInput, intInput;
      TakenNothing(boolInput, model.boolIn, 8 * FIRST);
      TakenNothing(intInput, model.intIn, FIRST);
      for i := 0 to MAX_MB_IO
        invariant boolInput' == Taken(boolInput, model.boolIn[..i], 8 * FIRST)
        invariant intInput' == Taken(intInput, model.intIn[..i], FIRST)
      {
        EntriesInOrder(i);
        TakenNext(boolInput, model.boolIn, 8 * FIRST, i);
        TakenNext(intInput, model.intIn, FIRST, i);
        assert boolInputBuf[..][i] == model.boolIn[i] && intInputBuf[..][i] == model.intIn[i];
        if boolInput'[8 * (100 + i / 8) + i % 8].Some? {
          boolInput' := boolInput'[8 * (100 + i / 8) + i % 8 := Some(boolInputBuf[i])];
        }
        if intInput'[100 + i].Some? {
          intInput' := intInput'[100 + i := Some(intInputBuf[i])];
        }
      }
      assert model.boolIn[..MAX_MB_IO] == model.boolIn && model.intIn[..MAX_MB_IO] == model.intIn;
      TakenEverywhere(boolInput, boolInputBuf[..], 8 * FIRST);
      TakenEverywhere(intInput, intInputBuf[..], FIRST);
    }

    // The parts of the work on a device, with the scan cycle coming in between their steps

    method ScanCycles(scans: seq<Outputs>)
      requires Valid() && AllWhole(scans)
      modifies boolOutputBuf, intOutputBuf, this`model, this`history
      ensures Valid() && history == old(history) + ScanSteps(scans)
      ensures model.calls == old(model.calls) && WritesOf(model) == WritesOf(old(model))
      ensures boolOutputBuf[..] == BitsPublished(old(boolOutputBuf[..]), scans)
      ensures intOutputBuf[..] == WordsPublished(old(intOutputBuf[..]), scans)
      ensures model.device == old(model.device) && model.stage == old(model.stage)
    {
      hide Follows, Overlay;
      for k := 0 to |scans|
        invariant Valid() && history == old(history) + ScanSteps(scans[..k])
        invariant model.calls == old(model.calls) && WritesOf(model) == WritesOf(old(model))
        invariant boolOutputBuf[..] == BitsPublished(old(boolOutputBuf[..]), scans[..k])
        invariant intOutputBuf[..] == WordsPublished(old(intOutputBuf[..]), scans[..k])
        invariant model.device == old(model.device) && model.stage == old(model.stage)
      {
        PublishedNext(old(boolOutputBuf[..]), old(intOutputBuf[..]), scans, k);
        UpdateBuffersOut(scans[k]);
        assert ScanSteps(scans[..k + 1]) == ScanSteps(scans[..k]) + [Scan(scans[k].bools, scans[k].words)];
      }
      assert scans[..|scans|] == scans;
    }

    method ReadDiscreteInputs(i: nat, o: Outcome, before: seq<Outputs>, between: seq<Outputs>)
      requires Valid() && i == model.device < |devs| && model.stage == ReadBits
      requires AllWhole(before) && AllWhole(between)
      modifies this, boolInputBuf, boolOutputBuf, intOutputBuf
      ensures Valid() && model.device == i && model.stage == LoadCoils
      ensures history == old(history) + ReadWork(devs[i].discreteInputs, o, BitsRead(devs[i], o), before, between)
      ensures connected == Kept(old(connected), devs, i, devs[i].discreteInputs == 0 || BitsRead(devs[i], o))
      ensures model.calls == old(model.calls)
        + CallFor(i, devs[i].discreteInputs, devs[i].DiscreteRequest(), BitsRead(devs[i], o))
      ensures boolOutputBuf[..] == BitsPublished(BitsPublished(old(boolOutputBuf[..]), before), between)
      ensures intOutputBuf[..] == WordsPublished(WordsPublished(old(intOutputBuf[..]), before), between)
      ensures WritesOf(model) == WritesOf(old(model))
      ensures boolInputBuf[..] ==
        BitsPut(old(boolInputBuf[..]), Offset(BoolInSizes(devs), i), devs[i].discreteInputs, o)
    {
      hide Follows, PollStep, BitsPublished, WordsPublished, Offset;
      ScanCycles(before);
      var tempBuff := RequestBits(i, o);
      ScanCycles(between);
      if devs[i].discreteInputs != 0 && BitsRead(devs[i], o) {
        CopyBits(tempBuff);
      }
    }

    method WriteCoils(i: nat, o: Outcome, before: seq<Outputs>, between: seq<Outputs>)
      requires Valid() && i == model.device < |devs| && model.stage == LoadCoils
      requires AllWhole(before) && AllWhole(between)
      modifies this, boolOutputBuf, intOutputBuf
      ensures Valid() && model.device == i && model.stage == ReadInputs
      ensures history == old(history) + WriteWork(devs[i].coils, o, before, between)
      ensures connected == Kept(old(connected), devs, i, devs[i].coils == 0 || o != Failure)
      ensures model.calls == old(model.calls) + CallFor(i, devs[i].coils, devs[i].CoilRequest(), o != Failure)
      ensures boolOutputBuf[..] == BitsPublished(BitsPublished(old(boolOutputBuf[..]), before), between)
      ensures intOutputBuf[..] == WordsPublished(WordsPublished(old(intOutputBuf[..]), before), between)
      ensures WritesOf(model) == (old(model).coilWrites
        + Sent(i, BitsPublished(old(boolOutputBuf[..]), before), Offset(BoolOutSizes(devs), i), devs[i].coils),
        old(model).holdingWrites)
    {
      hide Follows, PollStep, BitsPublished, WordsPublished, Offset;
      ScanCycles(before);
      var tempBuff := CopyCoils(i);
      ScanCycles(between);
      assert old(model).coilWrites + [] == old(model).coilWrites;
      if devs[i].coils != 0 {
        DeliverCoils(i, tempBuff, o);
      }
    }

    method ReadInputRegisters(i: nat, o: Outcome, before: seq<Outputs>, between: seq<Outputs>)
      requires Valid() && i == model.device < |devs| && model.stage == ReadInputs
      requires AllWhole(before) && AllWhole(between)
      modifies this, intInputBuf, boolOutputBuf, intOutputBuf
      ensures Valid() && model.device == i && model.stage == ReadHoldings
      ensures history == old(history)
        + ReadWork(devs[i].inputRegisters, o, WordsRead(devs[i].inputRegisters, o), before, between)
      ensures connected == Kept(old(connected), devs, i, devs[i].inputRegisters == 0 || WordsRead(devs[i].inputRegisters, o))
      ensures model.calls == old(model.calls)
        + CallFor(i, devs[i].inputRegisters, devs[i].InputRequest(), WordsRead(devs[i].inputRegisters, o))
      ensures boolOutputBuf[..] == BitsPublished(BitsPublished(old(boolOutputBuf[..]), before), between)
      ensures intOutputBuf[..] == WordsPublished(WordsPublished(old(intOutputBuf[..]), before), between)
      ensures WritesOf(model) == WritesOf(old(model))
      ensures intInputBuf[..] ==
        WordsPut(old(intInputBuf[..]), Offset(IntInSizes(devs), i), devs[i].inputRegisters, o)
    {
      hide Follows, PollStep, BitsPublished, WordsPublished, Offset;
      ScanCycles(before);
      var tempBuff := RequestInputs(i, o);
      ScanCycles(between);
      if devs[i].inputRegisters != 0 && WordsRead(devs[i].inputRegisters, o) {
        CopyInputs(tempBuff);
      }
    }

    method ReadHoldingRegisters(i: nat, o: Outcome, before: seq<Outputs>, between: seq<Outputs>)
      requires Valid() && i == model.device < |devs| && model.stage == ReadHoldings
      requires AllWhole(before) && AllWhole(between)
      modifies this, intInputBuf, boolOutputBuf, intOutputBuf
      ensures Valid() && model.device == i && model.stage == LoadHoldings
      ensures history == old(history) + ReadWork(devs[i].holdingRead, o, WordsRead(devs[i].holdingRead, o), before, between)
      ensures connected == Kept(old(connected), devs, i, devs[i].holdingRead == 0 || WordsRead(devs[i].holdingRead, o))
      ensures model.calls == old(model.calls)
        + CallFor(i, devs[i].holdingRead, devs[i].HoldingReadRequest(), WordsRead(devs[i].holdingRead, o))
      ensures boolOutputBuf[..] == BitsPublished(BitsPublished(old(boolOutputBuf[..]), before), between)
      ensures intOutputBuf[..] == WordsPublished(WordsPublished(old(intOutputBuf[..]), before), between)
      ensures WritesOf(model) == WritesOf(old(model))
      ensures intInputBuf[..] ==
        WordsPut(old(intInputBuf[..]), Offset(IntInSizes(devs), i) + devs[i].inputRegisters, devs[i].holdingRead, o)
    {
      hide Follows, PollStep, BitsPublished, WordsPublished, Offset;
      ScanCycles(before);
      var tempBuff := RequestHoldings(i, o);
      ScanCycles(between);
      if devs[i].holdingRead != 0 && WordsRead(devs[i].holdingRead, o) {
        CopyHoldings(tempBuff);
      }
    }

    method WriteHoldingRegisters(i: nat, o: Outcome, before: seq<Outputs>, between: seq<Outputs>)
      requires Valid() && i == model.device < |devs| && model.stage == LoadHoldings
      requires AllWhole(before) && AllWhole(between)
      modifies this, boolOutputBuf, intOutputBuf
      ensures Valid() && model.device == i + 1 && model.stage == Begin
      ensures history == old(history) + WriteWork(devs[i].holdingRegisters, o, before, between)
      ensures connected == Kept(old(connected), devs, i, devs[i].holdingRegisters == 0 || o != Failure)
      ensures model.calls == old(model.calls)
        + CallFor(i, devs[i].holdingRegisters, devs[i].HoldingRequest(), o != Failure)
      ensures boolOutputBuf[..] == BitsPublished(BitsPublished(old(boolOutputBuf[..]), before), between)
      ensures intOutputBuf[..] == WordsPublished(WordsPublished(old(intOutputBuf[..]), before), between)
      ensures WritesOf(model) == (old(model).coilWrites, old(model).holdingWrites
        + Sent(i, WordsPublished(old(intOutputBuf[..]), before), Offset(IntOutSizes(devs), i), devs[i].holdingRegisters))
    {
      hide Follows, PollStep, BitsPublished, WordsPublished, Offset;
      ScanCycles(before);
      var tempBuff := CopyOutputs(i);
      ScanCycles(between);
      assert old(model).holdingWrites + [] == old(model).holdingWrites;
      if devs[i].holdingRegisters != 0 {
        DeliverOutputs(i, tempBuff, o);
      }
    }

    /** All that is exchanged with a device that is connected */
    method Exchange(i: nat, net: Outcomes, scans: seq<seq<Outputs>>)
      requires Valid() && i == model.device < |devs| && model.stage == ReadBits
      requires |scans| == INTERVALS && forall k :: 0 <= k < INTERVALS ==> AllWhole(scans[k])
      modifies this, boolInputBuf, intInputBuf, boolOutputBuf, intOutputBuf
      ensures Valid() && model.device == i + 1 && model.stage == Begin
      ensures history == old(history) + Work(devs[i], net, scans)
      ensures connected == Kept(old(connected), devs, i, AllAnswered(devs[i], net))
      ensures model.calls == old(model.calls) + Asked(i, devs[i], net)
      ensures boolInputBuf[..] == BitsAfter(old(boolInputBuf[..]), devs, i, net)
      ensures intInputBuf[..] == WordsAfter(old(intInputBuf[..]), devs, i, net)
      ensures WritesOf(model) == (
        old(model).coilWrites
          + Sent(i, BitsThrough(old(boolOutputBuf[..]), scans, 1, 4), Offset(BoolOutSizes(devs), i), devs[i].coils),
        old(model).holdingWrites
          + Sent(i, WordsThrough(old(intOutputBuf[..]), scans, 1, 10), Offset(IntOutSizes(devs), i),
              devs[i].holdingRegisters))
    {
      hide Follows, PollStep, AllWhole, ReadWork, WriteWork, Work, CallFor, Asked, Kept, AllAnswered, BitsRead, WordsRead,
        BitsThrough, WordsThrough, BitsPublished, WordsPublished, BitsPut, WordsPut, Offset, Sent;
      ThroughAll(old(boolOutputBuf[..]), old(intOutputBuf[..]), scans);
      ReadDiscreteInputs(i, net.bits, scans[1], scans[2]);
      WriteCoils(i, net.coils, scans[3], scans[4]);
      ReadInputRegisters(i, net.inputs, scans[5], scans[6]);
      ReadHoldingRegisters(i, net.holdings, scans[7], scans[8]);
      WriteHoldingRegisters(i, net.outputs, scans[9], scans[10]);
      WorkJoined(old(history), devs[i], net, scans);
      AskedJoined(old(model.calls), i, devs[i], net);
      KeptJoined(old(connected), devs, i, net);
    }

    /** The body of the loop over the devices. The scan cycle comes in any number of times before each part
        and between the two steps of each part; the steps taken are exactly these scans and the poll steps
        that the network's reports call for, in this order.
        The device is reached when it is connected, when another device on its serial line is, or when the
        attempt to connect succeeds; it is asked for everything that it has when it is reached, and for
        nothing else. What it answers goes to its slots, and what it is sent is what its slots hold then. A
        device that is not serial is left connected exactly when it was reached and every request to it was
        answered; a serial one stays connected. */
    method PollDevice(i: nat, net: Outcomes, scans: seq<seq<Outputs>>) returns (reached: bool)
      requires Valid() && i == model.device < |devs| && model.stage == Begin
      requires |scans| == INTERVALS && forall k :: 0 <= k < INTERVALS ==> AllWhole(scans[k])
      modifies this, boolInputBuf, intInputBuf, boolOutputBuf, intOutputBuf
      ensures Valid() && model.device == i + 1 && model.stage == Begin
      ensures var onLine := devs[i].protocol == Rtu &&
          exists a :: 0 <= a < |devs| && a != i && devs[a].address == devs[i].address && old(connected)[a];
        && reached == (old(connected[i]) || onLine || net.connect != Failure)
        && |connected| == |devs| && (forall a :: 0 <= a < |devs| && a != i ==> connected[a] == old(connected)[a])
        && connected[i] == (if devs[i].protocol == Rtu then old(connected[i]) || (!onLine && net.connect != Failure)
                            else reached && AllAnswered(devs[i], net))
        && model.calls == old(model.calls)
             + (if old(connected[i]) || onLine then [] else [Call(i, Connecting, net.connect != Failure)])
             + (if reached then Asked(i, devs[i], net) else [])
      ensures boolInputBuf[..] == if reached then BitsAfter(old(boolInputBuf[..]), devs, i, net) else old(boolInputBuf[..])
      ensures intInputBuf[..] == if reached then WordsAfter(old(intInputBuf[..]), devs, i, net) else old(intInputBuf[..])
      ensures WritesOf(model) == if !reached then WritesOf(old(model)) else (
        old(model).coilWrites + Sent(i, BitsThrough(BitsPublished(old(boolOutputBuf[..]), scans[0]), scans, 1, 4),
          Offset(BoolOutSizes(devs), i), devs[i].coils),
        old(model).holdingWrites + Sent(i, WordsThrough(WordsPublished(old(intOutputBuf[..]), scans[0]), scans, 1, 10),
          Offset(IntOutSizes(devs), i), devs[i].holdingRegisters))
      ensures history == old(history) + ScanSteps(scans[0]) + [Poll(net.connect)]
        + if reached then Work(devs[i], net, scans) else []
    {
      hide Follows, PollStep, Work, AllWhole, AllAnswered, Asked, BitsAfter, WordsAfter,
        BitsThrough, WordsThrough, BitsPublished, WordsPublished, Offset, Sent;
      ScanCycles(scans[0]);
      reached := Connect(i, net.connect);
      if reached {
        Exchange(i, net, scans);
      }
    }

    /** The end of a round over all the devices: the indices begin again. */
    method NextRound()
      requires Valid() && model.device == |devs|
      modifies this`boolInputIndex, this`boolOutputIndex, this`intInputIndex, this`intOutputIndex
      modifies this`model, this`history
      ensures Valid() && model.device == 0 && model.stage == Begin && connected == old(connected)
      ensures history == old(history) + [Poll(Success)]
      ensures model.calls == old(model.calls) && WritesOf(model) == WritesOf(old(model))
    {
      hide Run, Fits, Initial, PortConnected, ExpectedIndices;
      boolInputIndex, boolOutputIndex, intInputIndex, intOutputIndex := 0, 0, 0, 0;
      Advance(Poll(Success));
    }
  }

  /** The buffers of the thread show, at every moment and after any interleaving, what was last read from
      each device. */
  lemma BuffersShowDevices(m: Master)
    requires m.Valid()
    ensures ImageHolds(m.devs, m.model)
    ensures m.boolInputBuf[..] == m.model.boolIn && m.intInputBuf[..] == m.model.intIn
  {
    hide Run, ImageHolds, Inv, Fits, Initial;
    EveryRun(m.devs, m.history);
  }
}
