/**
 The thread that polls the slave devices, interleaved with the scan cycle.

 A state is what both threads see between two atomic steps: a step is one call into the network
 library, whose outcome is free, or one section under ioLock. The scan cycle may take its own
 steps anywhere in between.
 */
module SlavePolling {
  import opened Options

  const MAX_MB_IO: nat := 400

  /** Where the slave devices begin in the PLC's own tables, and how long those tables are. The bool
      tables have eight entries to an index and are listed entry by entry. */
  const FIRST: nat := 100
  const BOOL_ENTRIES: nat := 8192
  const WORD_ENTRIES: nat := 1024

  /** The entries that image slot i is copied to or from: [100 + i / 8][i % 8], and [100 + i] */
  function BoolEntry(i: nat): nat { (FIRST + i / 8) * 8 + i % 8 }
  function WordEntry(i: nat): nat { FIRST + i }

  datatype Protocol = Tcp | Rtu

  /** A device, as far as polling goes: how many registers of each kind it has, and its own address of the first */
  datatype Device = Device(protocol: Protocol, address: string, discreteInputs: nat, coils: nat,
                           inputRegisters: nat, holdingRead: nat, holdingRegisters: nat,
                           discreteStart: nat, coilStart: nat, inputStart: nat, holdingReadStart: nat, holdingStart: nat) {
    function DiscreteRequest(): Kind { ReadingBits(discreteStart, discreteInputs) }
    function CoilRequest(): Kind { WritingBits(coilStart, coils) }
    function InputRequest(): Kind { ReadingInputs(inputStart, inputRegisters) }
    function HoldingReadRequest(): Kind { ReadingHoldings(holdingReadStart, holdingRead) }
    function HoldingRequest(): Kind { WritingRegisters(holdingStart, holdingRegisters) }
  }

  // --------------------------------------------------------------------------
  // Layout of the image tables
  // --------------------------------------------------------------------------

  function Sum(sizes: seq<nat>): nat {
    if |sizes| == 0 then 0 else Sum(sizes[..|sizes|-1]) + sizes[|sizes|-1]
  }

  /** Where the slots of entry i begin: the sizes of the entries before it */
  function Offset(sizes: seq<nat>, i: nat): nat
    requires i <= |sizes|
  {
    Sum(sizes[..i])
  }

  function BoolInSizes(devs: seq<Device>): (r: seq<nat>)
    ensures |r| == |devs|
  {
    seq(|devs|, i requires 0 <= i < |devs| => devs[i].discreteInputs)
  }

  function BoolOutSizes(devs: seq<Device>): (r: seq<nat>)
    ensures |r| == |devs|
  {
    seq(|devs|, i requires 0 <= i < |devs| => devs[i].coils)
  }

  function IntInSizes(devs: seq<Device>): (r: seq<nat>)
    ensures |r| == |devs|
  {
    seq(|devs|, i requires 0 <= i < |devs| => devs[i].inputRegisters + devs[i].holdingRead)
  }

  function IntOutSizes(devs: seq<Device>): (r: seq<nat>)
    ensures |r| == |devs|
  {
    seq(|devs|, i requires 0 <= i < |devs| => devs[i].holdingRegisters)
  }

  lemma SizesAt(devs: seq<Device>, i: nat)
    requires i < |devs|
    ensures BoolInSizes(devs)[i] == devs[i].discreteInputs && BoolOutSizes(devs)[i] == devs[i].coils
    ensures IntInSizes(devs)[i] == devs[i].inputRegisters + devs[i].holdingRead
    ensures IntOutSizes(devs)[i] == devs[i].holdingRegisters
  {
  }

  lemma OffsetNext(sizes: seq<nat>, i: nat)
    requires i < |sizes|
    ensures Offset(sizes, i + 1) == Offset(sizes, i) + sizes[i]
  {
    assert sizes[..i + 1][..i] == sizes[..i];
  }

  lemma {:induction false} OffsetMonotone(sizes: seq<nat>, i: nat, j: nat)
    requires i <= j <= |sizes|
    ensures Offset(sizes, i) <= Offset(sizes, j)
    decreases j
  {
    if i < j {
      OffsetNext(sizes, j - 1);
      OffsetMonotone(sizes, i, j - 1);
    }
  }

  /** The tables are large enough for all devices. */
  predicate Fits(devs: seq<Device>) {
    && Sum(BoolInSizes(devs)) <= MAX_MB_IO && Sum(BoolOutSizes(devs)) <= MAX_MB_IO
    && Sum(IntInSizes(devs)) <= MAX_MB_IO && Sum(IntOutSizes(devs)) <= MAX_MB_IO
  }

  /** The slots of entry i lie inside the table and apart from those of every other entry. */
  lemma SlotsDisjoint(sizes: seq<nat>, i: nat, j: nat)
    requires i < j < |sizes|
    ensures Offset(sizes, i) + sizes[i] <= Offset(sizes, j) <= Offset(sizes, j) + sizes[j] <= Sum(sizes)
  {
    OffsetNext(sizes, i);
    OffsetMonotone(sizes, i + 1, j);
    SlotsInside(sizes, j);
  }

  lemma SlotsInside(sizes: seq<nat>, i: nat)
    requires i < |sizes|
    ensures Offset(sizes, i) + sizes[i] == Offset(sizes, i + 1) <= Sum(sizes)
  {
    OffsetNext(sizes, i);
    OffsetMonotone(sizes, i + 1, |sizes|);
    assert sizes[..|sizes|] == sizes;
  }

  // --------------------------------------------------------------------------
  // State
  // --------------------------------------------------------------------------

  /** The four running indices */
  datatype Indices = Indices(boolIn: nat, boolOut: nat, intIn: nat, intOut: nat)

  /** Where the thread stands in the work on the current device. A value that was read from the
      network, or taken from an image table, waits in a temporary buffer for the next step. */
  datatype Stage =
    | Begin
    | ReadBits | StoreBits(bits: seq<bv8>)
    | LoadCoils | SendCoils(coils: seq<bv8>)
    | ReadInputs | StoreInputs(inputs: seq<bv16>)
    | ReadHoldings | StoreHoldings(holdings: seq<bv16>)
    | LoadHoldings | SendHoldings(outputs: seq<bv16>)

  /** A successful read, or an attempted write, of one device */
  datatype Transfer<T> = Transfer(device: nat, values: seq<T>)

  /** A call into the network library, for which device, and whether it succeeded */
  datatype Kind =
    | Connecting
    | ReadingBits(start: nat, count: nat) | WritingBits(start: nat, count: nat) | ReadingInputs(start: nat, count: nat)
    | ReadingHoldings(start: nat, count: nat) | WritingRegisters(start: nat, count: nat)

  datatype Call = Call(device: nat, kind: Kind, ok: bool)

  datatype State = State(
    connected: seq<bool>, device: nat, stage: Stage, ix: Indices,
    boolIn: seq<bv8>, boolOut: seq<bv8>, intIn: seq<bv16>, intOut: seq<bv16>,
    bitReads: seq<Transfer<bv8>>, inputReads: seq<Transfer<bv16>>, holdingReads: seq<Transfer<bv16>>,
    coilWrites: seq<Transfer<bv8>>, holdingWrites: seq<Transfer<bv16>>, calls: seq<Call>)

  function Cells<T>(n: nat, value: T): (r: seq<T>)
    ensures |r| == n && forall i :: 0 <= i < n ==> r[i] == value
  {
    seq(n, i => value)
  }

  function Initial(devs: seq<Device>): State {
    State(seq(|devs|, i => false), 0, Begin, Indices(0, 0, 0, 0),
          Cells(MAX_MB_IO, 0), Cells(MAX_MB_IO, 0), Cells(MAX_MB_IO, 0), Cells(MAX_MB_IO, 0), [], [], [], [], [], [])
  }

  // --------------------------------------------------------------------------
  // Steps
  // --------------------------------------------------------------------------

  /** What the network library may report; a read succeeds with exactly the values asked for */
  datatype Outcome = Failure | Success | Bits(bits: seq<bv8>) | Words(words: seq<bv16>)

  /** A step of the polling thread, or the scan cycle publishing its output tables; an entry that no
      variable is glued to is None. (The scan cycle's other step only reads the images.) */
  datatype Step = Poll(outcome: Outcome) | Scan(bools: seq<Option<bv8>>, words: seq<Option<bv16>>)

  /** The image after the scan cycle's copy: the glued entries replace their slots. */
  function Overlay<T>(image: seq<T>, table: seq<Option<T>>, entry: nat -> nat): (r: seq<T>)
    ensures |r| == |image|
    ensures forall i :: 0 <= i < |image| ==>
              r[i] == if entry(i) < |table| && table[entry(i)].Some? then table[entry(i)].value else image[i]
  {
    seq(|image|, i requires 0 <= i < |image| =>
      if entry(i) < |table| && table[entry(i)].Some? then table[entry(i)].value else image[i])
  }

  /** `values` copied over the image from `at` on */
  function Splice<T>(image: seq<T>, at: nat, values: seq<T>): (r: seq<T>)
    requires at + |values| <= |image|
    ensures |r| == |image|
    ensures forall i :: 0 <= i < |image| ==>
              r[i] == if at <= i < at + |values| then values[i - at] else image[i]
  {
    image[..at] + values + image[at + |values|..]
  }

  /** Another device on the same serial port is connected. */
  predicate PortConnected(devs: seq<Device>, connected: seq<bool>, i: nat)
    requires i < |devs| == |connected|
  {
    && devs[i].protocol == Rtu
    && exists a :: 0 <= a < |devs| && a != i && devs[a].address == devs[i].address && connected[a]
  }

  /** A failed transfer closes the connection, unless it is a serial one. */
  function Lose(devs: seq<Device>, s: State): (s': State)
    requires s.device < |devs| == |s.connected|
  {
    if devs[s.device].protocol != Rtu then s.(connected := s.connected[s.device := false]) else s
  }

  function Logged(s: State, kind: Kind, ok: bool): State {
    s.(calls := s.calls + [Call(s.device, kind, ok)])
  }

  function NextDevice(s: State): State {
    s.(device := s.device + 1, stage := Begin)
  }

  function BeginStep(devs: seq<Device>, s: State, o: Outcome): State
    requires s.device < |devs| == |s.connected|
  {
    var d := devs[s.device];
    if s.connected[s.device] || PortConnected(devs, s.connected, s.device) then s.(stage := ReadBits)
    else if o == Failure then
      NextDevice(Logged(s, Connecting, false).(
        ix := Indices(s.ix.boolIn + d.discreteInputs, s.ix.boolOut + d.coils,
                      s.ix.intIn + d.inputRegisters + d.holdingRead, s.ix.intOut + d.holdingRegisters)))
    else Logged(s, Connecting, true).(connected := s.connected[s.device := true], stage := ReadBits)
  }

  function PollStep(devs: seq<Device>, s: State, o: Outcome): (s': State)
    requires Fits(devs) && Inv(devs, s)
  {
    Bounds(devs, s);
    if s.device == |devs| then s.(device := 0, ix := Indices(0, 0, 0, 0))
    else
      var i, d := s.device, devs[s.device];
      match s.stage
      case Begin => BeginStep(devs, s, o)
      case ReadBits =>
        if d.discreteInputs == 0 then s.(stage := LoadCoils)
        else if o.Bits? && |o.bits| == d.discreteInputs then
          Logged(s, d.DiscreteRequest(), true).(stage := StoreBits(o.bits))
        else Logged(Lose(devs, s), d.DiscreteRequest(), false).(
          stage := LoadCoils, ix := s.ix.(boolIn := s.ix.boolIn + d.discreteInputs))
      case StoreBits(bits) =>
        s.(stage := LoadCoils, boolIn := Splice(s.boolIn, s.ix.boolIn, bits),
           ix := s.ix.(boolIn := s.ix.boolIn + |bits|), bitReads := s.bitReads + [Transfer(i, bits)])
      case LoadCoils =>
        if d.coils == 0 then s.(stage := ReadInputs)
        else s.(stage := SendCoils(s.boolOut[s.ix.boolOut..s.ix.boolOut + d.coils]),
                ix := s.ix.(boolOut := s.ix.boolOut + d.coils))
      case SendCoils(coils) =>
        Logged(if o == Failure then Lose(devs, s) else s, d.CoilRequest(), o != Failure).(
          stage := ReadInputs, coilWrites := s.coilWrites + [Transfer(i, coils)])
      case ReadInputs =>
        if d.inputRegisters == 0 then s.(stage := ReadHoldings)
        else if o.Words? && |o.words| == d.inputRegisters then
          Logged(s, d.InputRequest(), true).(stage := StoreInputs(o.words))
        else Logged(Lose(devs, s), d.InputRequest(), false).(
          stage := ReadHoldings, ix := s.ix.(intIn := s.ix.intIn + d.inputRegisters))
      case StoreInputs(inputs) =>
        s.(stage := ReadHoldings, intIn := Splice(s.intIn, s.ix.intIn, inputs),
           ix := s.ix.(intIn := s.ix.intIn + |inputs|), inputReads := s.inputReads + [Transfer(i, inputs)])
      case ReadHoldings =>
        if d.holdingRead == 0 then s.(stage := LoadHoldings)
        else if o.Words? && |o.words| == d.holdingRead then
          Logged(s, d.HoldingReadRequest(), true).(stage := StoreHoldings(o.words))
        else Logged(Lose(devs, s), d.HoldingReadRequest(), false).(
          stage := LoadHoldings, ix := s.ix.(intIn := s.ix.intIn + d.holdingRead))
      case StoreHoldings(holdings) =>
        s.(stage := LoadHoldings, intIn := Splice(s.intIn, s.ix.intIn, holdings),
           ix := s.ix.(intIn := s.ix.intIn + |holdings|), holdingReads := s.holdingReads + [Transfer(i, holdings)])
      case LoadHoldings =>
        if d.holdingRegisters == 0 then NextDevice(s)
        else s.(stage := SendHoldings(s.intOut[s.ix.intOut..s.ix.intOut + d.holdingRegisters]),
                ix := s.ix.(intOut := s.ix.intOut + d.holdingRegisters))
      case SendHoldings(outputs) =>
        NextDevice(Logged(if o == Failure then Lose(devs, s) else s, d.HoldingRequest(), o != Failure).(
          holdingWrites := s.holdingWrites + [Transfer(i, outputs)]))
  }

  function Next(devs: seq<Device>, s: State, step: Step): (s': State)
    requires Fits(devs) && Inv(devs, s)
  {
    match step
    case Poll(o) => PollStep(devs, s, o)
    case Scan(bools, words) =>
      s.(boolOut := Overlay(s.boolOut, bools, BoolEntry), intOut := Overlay(s.intOut, words, WordEntry))
  }

  // --------------------------------------------------------------------------
  // The invariant
  // --------------------------------------------------------------------------

  /** The stages in the order in which a device goes through them */
  function Rank(st: Stage): nat {
    match st
    case Begin => 0
    case ReadBits => 1
    case StoreBits(_) => 2
    case LoadCoils => 3
    case SendCoils(_) => 4
    case ReadInputs => 5
    case StoreInputs(_) => 6
    case ReadHoldings => 7
    case StoreHoldings(_) => 8
    case LoadHoldings => 9
    case SendHoldings(_) => 10
  }

  /** What the indices are when the work on device i stands at a stage: the sizes of the devices
      before it, plus its own for the tables that are already done. */
  function ExpectedIndices(devs: seq<Device>, i: nat, rank: nat): Indices
    requires i <= |devs|
  {
    var own := i < |devs|;
    Indices(
      Offset(BoolInSizes(devs), i) + (if own && rank > 2 then devs[i].discreteInputs else 0),
      Offset(BoolOutSizes(devs), i) + (if own && rank > 3 then devs[i].coils else 0),
      Offset(IntInSizes(devs), i) + (if own && rank > 6 then devs[i].inputRegisters else 0)
                                  + (if own && rank > 8 then devs[i].holdingRead else 0),
      Offset(IntOutSizes(devs), i) + (if own && rank > 9 then devs[i].holdingRegisters else 0))
  }

  /** The most recent transfer of a device, or its initial values when there was none */
  function Latest<T>(log: seq<Transfer<T>>, device: nat, initial: seq<T>): seq<T> {
    if |log| == 0 then initial
    else if log[|log|-1].device == device then log[|log|-1].values
    else Latest(log[..|log|-1], device, initial)
  }

  predicate Shape(devs: seq<Device>, s: State) {
    && |s.connected| == |devs| && s.device <= |devs|
    && |s.boolIn| == |s.boolOut| == |s.intIn| == |s.intOut| == MAX_MB_IO
    && (s.device == |devs| ==> s.stage == Begin)
    && (s.device < |devs| ==>
          && (s.stage.StoreBits? ==> |s.stage.bits| == devs[s.device].discreteInputs)
          && (s.stage.SendCoils? ==> |s.stage.coils| == devs[s.device].coils)
          && (s.stage.StoreInputs? ==> |s.stage.inputs| == devs[s.device].inputRegisters)
          && (s.stage.StoreHoldings? ==> |s.stage.holdings| == devs[s.device].holdingRead)
          && (s.stage.SendHoldings? ==> |s.stage.outputs| == devs[s.device].holdingRegisters))
  }

  predicate Aligned(devs: seq<Device>, s: State)
    requires Shape(devs, s)
  {
    s.ix == ExpectedIndices(devs, s.device, Rank(s.stage))
  }

  predicate Inv(devs: seq<Device>, s: State) {
    Shape(devs, s) && Aligned(devs, s)
  }

  /** The slots that a step uses lie inside the tables. */
  lemma Bounds(devs: seq<Device>, s: State)
    requires Fits(devs) && Inv(devs, s)
    ensures s.device < |devs| ==>
              && (Rank(s.stage) <= 2 ==> s.ix.boolIn + devs[s.device].discreteInputs <= MAX_MB_IO)
              && (Rank(s.stage) <= 3 ==> s.ix.boolOut + devs[s.device].coils <= MAX_MB_IO)
              && (Rank(s.stage) <= 6 ==> s.ix.intIn + devs[s.device].inputRegisters <= MAX_MB_IO)
              && (7 <= Rank(s.stage) <= 8 ==> s.ix.intIn + devs[s.device].holdingRead <= MAX_MB_IO)
              && (Rank(s.stage) <= 9 ==> s.ix.intOut + devs[s.device].holdingRegisters <= MAX_MB_IO)
  {
    if s.device < |devs| {
      SlotsInside(BoolInSizes(devs), s.device);
      SlotsInside(BoolOutSizes(devs), s.device);
      SlotsInside(IntInSizes(devs), s.device);
      SlotsInside(IntOutSizes(devs), s.device);
    }
  }

  /** Where one device ends, the next one begins. */
  lemma ExpectedNext(devs: seq<Device>, i: nat)
    requires i < |devs|
    ensures ExpectedIndices(devs, i + 1, 0) == ExpectedIndices(devs, i, 11)
    ensures ExpectedIndices(devs, 0, 0) == Indices(0, 0, 0, 0)
  {
    SlotsInside(BoolInSizes(devs), i);
    SlotsInside(BoolOutSizes(devs), i);
    SlotsInside(IntInSizes(devs), i);
    SlotsInside(IntOutSizes(devs), i);
  }

  lemma ExpectedFirst(devs: seq<Device>)
    ensures ExpectedIndices(devs, 0, 0) == Indices(0, 0, 0, 0)
  {
  }

  /** Every step, whatever its outcome, keeps the indices aligned. */
  lemma StepKeepsInv(devs: seq<Device>, s: State, step: Step)
    requires Fits(devs) && Inv(devs, s)
    ensures Inv(devs, Next(devs, s, step))
  {
    Bounds(devs, s);
    if step.Poll? {
      if s.device < |devs| {
        ExpectedNext(devs, s.device);
        PollKeepsInv(devs, s, step.outcome);
      } else {
        ExpectedFirst(devs);
      }
    }
  }

  lemma PollKeepsInv(devs: seq<Device>, s: State, o: Outcome)
    requires Fits(devs) && Inv(devs, s) && s.device < |devs|
    requires ExpectedIndices(devs, s.device + 1, 0) == ExpectedIndices(devs, s.device, 11)
    ensures Inv(devs, PollStep(devs, s, o))
  {
    hide Inv, PollStep, ExpectedIndices, Fits;
    match s.stage
    case Begin => BeginKeepsInv(devs, s, o);
    case ReadBits => BitsKeepInv(devs, s, o);
    case StoreBits(_) => BitsKeepInv(devs, s, o);
    case LoadCoils => CoilsKeepInv(devs, s, o);
    case SendCoils(_) => CoilsKeepInv(devs, s, o);
    case ReadInputs => InputsKeepInv(devs, s, o);
    case StoreInputs(_) => InputsKeepInv(devs, s, o);
    case ReadHoldings => HoldingsKeepInv(devs, s, o);
    case StoreHoldings(_) => HoldingsKeepInv(devs, s, o);
    case LoadHoldings => OutputsKeepInv(devs, s, o);
    case SendHoldings(_) => OutputsKeepInv(devs, s, o);
  }

  lemma BeginKeepsInv(devs: seq<Device>, s: State, o: Outcome)
    requires Fits(devs) && Inv(devs, s) && s.device < |devs|
    requires s.stage.Begin?
    requires ExpectedIndices(devs, s.device + 1, 0) == ExpectedIndices(devs, s.device, 11)
    ensures Inv(devs, PollStep(devs, s, o))
  {
    Bounds(devs, s);
    hide Offset, Sum, BoolInSizes, BoolOutSizes, IntInSizes, IntOutSizes, Splice, Fits, PortConnected;
  }

  lemma BitsKeepInv(devs: seq<Device>, s: State, o: Outcome)
    requires Fits(devs) && Inv(devs, s) && s.device < |devs|
    requires s.stage.ReadBits? || s.stage.StoreBits?
    ensures Inv(devs, PollStep(devs, s, o))
  {
    Bounds(devs, s);
    hide Offset, Sum, BoolInSizes, BoolOutSizes, IntInSizes, IntOutSizes, Splice, Fits, PortConnected;
  }

  lemma CoilsKeepInv(devs: seq<Device>, s: State, o: Outcome)
    requires Fits(devs) && Inv(devs, s) && s.device < |devs|
    requires s.stage.LoadCoils? || s.stage.SendCoils?
    ensures Inv(devs, PollStep(devs, s, o))
  {
    Bounds(devs, s);
    hide Offset, Sum, BoolInSizes, BoolOutSizes, IntInSizes, IntOutSizes, Splice, Fits, PortConnected;
  }

  lemma InputsKeepInv(devs: seq<Device>, s: State, o: Outcome)
    requires Fits(devs) && Inv(devs, s) && s.device < |devs|
    requires s.stage.ReadInputs? || s.stage.StoreInputs?
    ensures Inv(devs, PollStep(devs, s, o))
  {
    Bounds(devs, s);
    hide Offset, Sum, BoolInSizes, BoolOutSizes, IntInSizes, IntOutSizes, Splice, Fits, PortConnected;
  }

  lemma HoldingsKeepInv(devs: seq<Device>, s: State, o: Outcome)
    requires Fits(devs) && Inv(devs, s) && s.device < |devs|
    requires s.stage.ReadHoldings? || s.stage.StoreHoldings?
    ensures Inv(devs, PollStep(devs, s, o))
  {
    Bounds(devs, s);
    hide Offset, Sum, BoolInSizes, BoolOutSizes, IntInSizes, IntOutSizes, Splice, Fits, PortConnected;
  }

  lemma OutputsKeepInv(devs: seq<Device>, s: State, o: Outcome)
    requires Fits(devs) && Inv(devs, s) && s.device < |devs|
    requires s.stage.LoadHoldings? || s.stage.SendHoldings?
    requires ExpectedIndices(devs, s.device + 1, 0) == ExpectedIndices(devs, s.device, 11)
    ensures Inv(devs, PollStep(devs, s, o))
  {
    Bounds(devs, s);
    hide Offset, Sum, BoolInSizes, BoolOutSizes, IntInSizes, IntOutSizes, Splice, Fits, PortConnected;
  }

  // --------------------------------------------------------------------------
  // Runs
  // --------------------------------------------------------------------------

  lemma InitialInv(devs: seq<Device>)
    ensures Inv(devs, Initial(devs))
  {
  }

  function Run(devs: seq<Device>, s: State, steps: seq<Step>): (s': State)
    requires Fits(devs) && Inv(devs, s)
    ensures Inv(devs, s')
    decreases |steps|
  {
    if |steps| == 0 then s
    else
      var s1 := Run(devs, s, steps[..|steps|-1]);
      StepKeepsInv(devs, s1, steps[|steps|-1]);
      Next(devs, s1, steps[|steps|-1])
  }

  // --------------------------------------------------------------------------
  // Input images: every slot belongs to one register of one device
  // --------------------------------------------------------------------------

  predicate Holds<T(==)>(image: seq<T>, at: nat, values: seq<T>) {
    at + |values| <= |image| && forall j :: 0 <= j < |values| ==> image[at + j] == values[j]
  }

  function BitsOf(devs: seq<Device>, s: State, i: nat): seq<bv8>
    requires i < |devs|
  {
    Latest(s.bitReads, i, Cells(devs[i].discreteInputs, 0))
  }

  function InputsOf(devs: seq<Device>, s: State, i: nat): seq<bv16>
    requires i < |devs|
  {
    Latest(s.inputReads, i, Cells(devs[i].inputRegisters, 0))
  }

  function HoldingsOf(devs: seq<Device>, s: State, i: nat): seq<bv16>
    requires i < |devs|
  {
    Latest(s.holdingReads, i, Cells(devs[i].holdingRead, 0))
  }

  /** The slots of device i show what was last read from it. */
  predicate DeviceImage(devs: seq<Device>, s: State, i: nat)
    requires i < |devs|
  {
    && |BitsOf(devs, s, i)| == devs[i].discreteInputs
    && Holds(s.boolIn, Offset(BoolInSizes(devs), i), BitsOf(devs, s, i))
    && |InputsOf(devs, s, i)| == devs[i].inputRegisters
    && Holds(s.intIn, Offset(IntInSizes(devs), i), InputsOf(devs, s, i))
    && |HoldingsOf(devs, s, i)| == devs[i].holdingRead
    && Holds(s.intIn, Offset(IntInSizes(devs), i) + devs[i].inputRegisters, HoldingsOf(devs, s, i))
  }

  /** The slots behind those of the last device stay zero. */
  predicate RestImage(devs: seq<Device>, s: State) {
    && (forall k :: Sum(BoolInSizes(devs)) <= k < |s.boolIn| ==> s.boolIn[k] == 0)
    && (forall k :: Sum(IntInSizes(devs)) <= k < |s.intIn| ==> s.intIn[k] == 0)
  }

  predicate ImageHolds(devs: seq<Device>, s: State) {
    (forall i :: 0 <= i < |devs| ==> DeviceImage(devs, s, i)) && RestImage(devs, s)
  }

  lemma SpliceHolds<T>(image: seq<T>, at: nat, values: seq<T>, at': nat, values': seq<T>)
    requires at + |values| <= |image|
    ensures Holds(Splice(image, at, values), at, values)
    ensures Holds(image, at', values') && (at' + |values'| <= at || at + |values| <= at') ==>
              Holds(Splice(image, at, values), at', values')
  {
  }

  lemma SpliceRest<T>(image: seq<T>, at: nat, values: seq<T>, end: nat)
    requires at + |values| <= |image| && at + |values| <= end
    ensures |Splice(image, at, values)| == |image|
    ensures forall k | end <= k < |image| :: Splice(image, at, values)[k] == image[k]
  {
  }

  lemma LatestAppend<T>(log: seq<Transfer<T>>, t: Transfer<T>, device: nat, initial: seq<T>)
    ensures Latest(log + [t], device, initial) == if t.device == device then t.values else Latest(log, device, initial)
  {
    assert (log + [t])[..|log|] == log;
  }

  /** A step that stores nothing leaves the input images and what was read alone. */
  predicate SameReads(s: State, s': State) {
    && s'.boolIn == s.boolIn && s'.intIn == s.intIn
    && s'.bitReads == s.bitReads && s'.inputReads == s.inputReads && s'.holdingReads == s.holdingReads
  }

  predicate SameOutputs(s: State, s': State) {
    s'.boolOut == s.boolOut && s'.intOut == s.intOut
  }

  lemma BeginKeepsReads(devs: seq<Device>, s: State, o: Outcome)
    requires Fits(devs) && Inv(devs, s)
    requires s.device == |devs| || s.stage.Begin?
    ensures SameReads(s, PollStep(devs, s, o)) && SameOutputs(s, PollStep(devs, s, o))
  {
    hide Inv, Fits, PortConnected;
  }

  lemma RequestsKeepReads(devs: seq<Device>, s: State, o: Outcome)
    requires Fits(devs) && Inv(devs, s) && s.device < |devs|
    requires s.stage.ReadBits? || s.stage.ReadInputs? || s.stage.ReadHoldings?
    ensures SameReads(s, PollStep(devs, s, o)) && SameOutputs(s, PollStep(devs, s, o))
  {
    hide Inv, Fits, PortConnected, Splice;
  }

  lemma WritesKeepReads(devs: seq<Device>, s: State, o: Outcome)
    requires Fits(devs) && Inv(devs, s) && s.device < |devs|
    requires s.stage.LoadCoils? || s.stage.SendCoils? || s.stage.LoadHoldings? || s.stage.SendHoldings?
    ensures SameReads(s, PollStep(devs, s, o)) && SameOutputs(s, PollStep(devs, s, o))
  {
    hide Inv, Fits, PortConnected, Splice;
  }

  lemma OtherStepsKeepImage(devs: seq<Device>, s: State, step: Step)
    requires Fits(devs) && Inv(devs, s)
    requires step.Scan? || s.device == |devs| || !(s.stage.StoreBits? || s.stage.StoreInputs? || s.stage.StoreHoldings?)
    ensures SameReads(s, Next(devs, s, step))
  {
    DeviceInside(devs, s);
    hide Inv, Fits, PollStep, Overlay;
    if step.Poll? {
      if s.device == |devs| || s.stage.Begin? {
        BeginKeepsReads(devs, s, step.outcome);
      } else if s.stage.ReadBits? || s.stage.ReadInputs? || s.stage.ReadHoldings? {
        RequestsKeepReads(devs, s, step.outcome);
      } else {
        WritesKeepReads(devs, s, step.outcome);
      }
    }
  }

  lemma StoreBitsResult(devs: seq<Device>, s: State, o: Outcome)
    requires Fits(devs) && Inv(devs, s) && s.device < |devs| && s.stage.StoreBits?
    ensures var s', values := PollStep(devs, s, o), s.stage.bits;
            && |values| == devs[s.device].discreteInputs
            && s.ix.boolIn == Offset(BoolInSizes(devs), s.device)
            && s.ix.boolIn + |values| <= |s.boolIn| == MAX_MB_IO
            && s'.boolIn == Splice(s.boolIn, s.ix.boolIn, values)
            && s'.bitReads == s.bitReads + [Transfer(s.device, values)]
            && s'.inputReads == s.inputReads && s'.holdingReads == s.holdingReads && s'.intIn == s.intIn
  {
    Bounds(devs, s);
    hide Splice, Fits, Offset;
  }

  lemma StoreBitsKeepsImage(devs: seq<Device>, s: State, o: Outcome, i: nat)
    requires Fits(devs) && Inv(devs, s) && s.device < |devs| && s.stage.StoreBits? && i < |devs|
    requires DeviceImage(devs, s, i) && RestImage(devs, s)
    ensures DeviceImage(devs, PollStep(devs, s, o), i) && RestImage(devs, PollStep(devs, s, o))
  {
    hide Inv, PollStep, Fits, Latest, Offset, Sum, Splice, Holds, Cells, IntInSizes, BoolInSizes;
    StoreBitsResult(devs, s, o);
    SizesAt(devs, s.device);
    SizesAt(devs, i);
    var sizes, d, bits := BoolInSizes(devs), s.device, s.stage.bits;
    SlotsInside(sizes, d);
    Apart(sizes, d, i);
    LatestAppend(s.bitReads, Transfer(d, bits), i, Cells(devs[i].discreteInputs, 0));
    SpliceHolds(s.boolIn, s.ix.boolIn, bits, Offset(sizes, i), BitsOf(devs, s, i));
    SpliceRest(s.boolIn, s.ix.boolIn, bits, Sum(sizes));
  }

  lemma Apart(sizes: seq<nat>, i: nat, j: nat)
    requires i < |sizes| && j < |sizes|
    ensures i == j || Offset(sizes, i) + sizes[i] <= Offset(sizes, j) || Offset(sizes, j) + sizes[j] <= Offset(sizes, i)
  {
    if i < j {
      SlotsDisjoint(sizes, i, j);
    } else if j < i {
      SlotsDisjoint(sizes, j, i);
    }
  }

  lemma StoreInputsResult(devs: seq<Device>, s: State, o: Outcome)
    requires Fits(devs) && Inv(devs, s) && s.device < |devs| && s.stage.StoreInputs?
    ensures var s', values := PollStep(devs, s, o), s.stage.inputs;
            && |values| == devs[s.device].inputRegisters
            && s.ix.intIn == Offset(IntInSizes(devs), s.device)
            && s.ix.intIn + |values| <= |s.intIn| == MAX_MB_IO
            && s'.intIn == Splice(s.intIn, s.ix.intIn, values)
            && s'.inputReads == s.inputReads + [Transfer(s.device, values)]
            && s'.bitReads == s.bitReads && s'.holdingReads == s.holdingReads && s'.boolIn == s.boolIn
  {
    Bounds(devs, s);
    hide Splice, Fits, Offset;
  }

  lemma StoreInputsKeepsImage(devs: seq<Device>, s: State, o: Outcome, i: nat)
    requires Fits(devs) && Inv(devs, s) && s.device < |devs| && s.stage.StoreInputs? && i < |devs|
    requires DeviceImage(devs, s, i) && RestImage(devs, s)
    ensures DeviceImage(devs, PollStep(devs, s, o), i) && RestImage(devs, PollStep(devs, s, o))
  {
    hide Inv, PollStep, Fits, Latest, Offset, Sum, Splice, Holds, Cells, IntInSizes, BoolInSizes;
    StoreInputsResult(devs, s, o);
    SizesAt(devs, s.device);
    SizesAt(devs, i);
    var sizes, d, values := IntInSizes(devs), s.device, s.stage.inputs;
    SlotsInside(sizes, d);
    Apart(sizes, d, i);
    LatestAppend(s.inputReads, Transfer(d, values), i, Cells(devs[i].inputRegisters, 0));
    SpliceHolds(s.intIn, s.ix.intIn, values, Offset(sizes, i), InputsOf(devs, s, i));
    SpliceHolds(s.intIn, s.ix.intIn, values, Offset(sizes, i) + devs[i].inputRegisters, HoldingsOf(devs, s, i));
    SpliceRest(s.intIn, s.ix.intIn, values, Sum(sizes));
  }

  lemma StoreHoldingsResult(devs: seq<Device>, s: State, o: Outcome)
    requires Fits(devs) && Inv(devs, s) && s.device < |devs| && s.stage.StoreHoldings?
    ensures var s', values := PollStep(devs, s, o), s.stage.holdings;
            && |values| == devs[s.device].holdingRead
            && s.ix.intIn == Offset(IntInSizes(devs), s.device) + devs[s.device].inputRegisters
            && s.ix.intIn + |values| <= |s.intIn| == MAX_MB_IO
            && s'.intIn == Splice(s.intIn, s.ix.intIn, values)
            && s'.holdingReads == s.holdingReads + [Transfer(s.device, values)]
            && s'.bitReads == s.bitReads && s'.inputReads == s.inputReads && s'.boolIn == s.boolIn
  {
    Bounds(devs, s);
    hide Splice, Fits, Offset;
  }

  lemma StoreHoldingsKeepsImage(devs: seq<Device>, s: State, o: Outcome, i: nat)
    requires Fits(devs) && Inv(devs, s) && s.device < |devs| && s.stage.StoreHoldings? && i < |devs|
    requires DeviceImage(devs, s, i) && RestImage(devs, s)
    ensures DeviceImage(devs, PollStep(devs, s, o), i) && RestImage(devs, PollStep(devs, s, o))
  {
    hide Inv, PollStep, Fits, Latest, Offset, Sum, Splice, Holds, Cells, IntInSizes, BoolInSizes;
    StoreHoldingsResult(devs, s, o);
    SizesAt(devs, s.device);
    SizesAt(devs, i);
    var sizes, d, values := IntInSizes(devs), s.device, s.stage.holdings;
    SlotsInside(sizes, d);
    Apart(sizes, d, i);
    LatestAppend(s.holdingReads, Transfer(d, values), i, Cells(devs[i].holdingRead, 0));
    SpliceHolds(s.intIn, s.ix.intIn, values, Offset(sizes, i), InputsOf(devs, s, i));
    SpliceHolds(s.intIn, s.ix.intIn, values, Offset(sizes, i) + devs[i].inputRegisters, HoldingsOf(devs, s, i));
    SpliceRest(s.intIn, s.ix.intIn, values, Sum(sizes));
  }

  /** No step shifts or overwrites a slice that is not the one it reports on. */
  lemma StepKeepsImage(devs: seq<Device>, s: State, step: Step)
    requires Fits(devs) && Inv(devs, s) && ImageHolds(devs, s)
    ensures ImageHolds(devs, Next(devs, s, step))
  {
    hide Inv, Fits, PollStep, DeviceImage, RestImage;
    var s' := Next(devs, s, step);
    if step.Poll? && s.device < |devs| && (s.stage.StoreBits? || s.stage.StoreInputs? || s.stage.StoreHoldings?) {
      forall i | 0 <= i < |devs|
        ensures DeviceImage(devs, s', i) && RestImage(devs, s')
      {
        if s.stage.StoreBits? {
          StoreBitsKeepsImage(devs, s, step.outcome, i);
        } else if s.stage.StoreInputs? {
          StoreInputsKeepsImage(devs, s, step.outcome, i);
        } else {
          StoreHoldingsKeepsImage(devs, s, step.outcome, i);
        }
      }
      assert DeviceImage(devs, s', s.device);
    } else {
      DeviceInside(devs, s);
      OtherStepsKeepImage(devs, s, step);
      SameImage(devs, s, s');
    }
  }

  lemma DeviceInside(devs: seq<Device>, s: State)
    requires Inv(devs, s)
    ensures s.device <= |devs|
  {
  }

  lemma SameImage(devs: seq<Device>, s: State, s': State)
    requires ImageHolds(devs, s)
    requires s'.boolIn == s.boolIn && s'.intIn == s.intIn
    requires s'.bitReads == s.bitReads && s'.inputReads == s.inputReads && s'.holdingReads == s.holdingReads
    ensures ImageHolds(devs, s')
  {
    forall i | 0 <= i < |devs|
      ensures DeviceImage(devs, s', i)
    {
      assert DeviceImage(devs, s, i);
    }
  }

  lemma InitialImage(devs: seq<Device>)
    requires Fits(devs)
    ensures ImageHolds(devs, Initial(devs))
  {
    forall i | 0 <= i < |devs|
      ensures DeviceImage(devs, Initial(devs), i)
    {
      SlotsInside(BoolInSizes(devs), i);
      SlotsInside(IntInSizes(devs), i);
    }
  }

  /** Over every run, with whatever outcomes and interleaving: when the thread comes to a device, its
      indices are the sums of the sizes of the devices before it, and every slot of the input images
      shows the value last read from its own register, or zero if there was none. */
  lemma {:induction false} EveryRun(devs: seq<Device>, steps: seq<Step>)
    requires Fits(devs)
    ensures Inv(devs, Initial(devs))
    ensures var s := Run(devs, Initial(devs), steps);
            && ImageHolds(devs, s)
            && (s.stage == Begin ==>
                  && s.ix.boolIn == Offset(BoolInSizes(devs), s.device)
                  && s.ix.boolOut == Offset(BoolOutSizes(devs), s.device)
                  && s.ix.intIn == Offset(IntInSizes(devs), s.device)
                  && s.ix.intOut == Offset(IntOutSizes(devs), s.device))
    decreases |steps|
  {
    InitialInv(devs);
    hide Next, ImageHolds, Fits;
    if |steps| == 0 {
      InitialImage(devs);
    } else {
      EveryRun(devs, steps[..|steps|-1]);
      StepKeepsImage(devs, Run(devs, Initial(devs), steps[..|steps|-1]), steps[|steps|-1]);
    }
  }

  // --------------------------------------------------------------------------
  // Outputs: what is sent to a device was in its slots of the output image
  // --------------------------------------------------------------------------

  /** The slots of device i in the output images after the first p steps of a run */
  predicate CoilsAfter(devs: seq<Device>, steps: seq<Step>, p: nat, i: nat, values: seq<bv8>)
    requires Fits(devs) && Inv(devs, Initial(devs)) && p <= |steps| && i < |devs|
  {
    |values| == devs[i].coils && Holds(Run(devs, Initial(devs), steps[..p]).boolOut, Offset(BoolOutSizes(devs), i), values)
  }

  predicate CoilsPublished(devs: seq<Device>, steps: seq<Step>, i: nat, values: seq<bv8>)
    requires Fits(devs) && Inv(devs, Initial(devs)) && i < |devs|
  {
    exists p :: 0 <= p <= |steps| && CoilsAfter(devs, steps, p, i, values)
  }

  predicate HoldingsAfter(devs: seq<Device>, steps: seq<Step>, p: nat, i: nat, values: seq<bv16>)
    requires Fits(devs) && Inv(devs, Initial(devs)) && p <= |steps| && i < |devs|
  {
    |values| == devs[i].holdingRegisters
    && Holds(Run(devs, Initial(devs), steps[..p]).intOut, Offset(IntOutSizes(devs), i), values)
  }

  predicate HoldingsPublished(devs: seq<Device>, steps: seq<Step>, i: nat, values: seq<bv16>)
    requires Fits(devs) && Inv(devs, Initial(devs)) && i < |devs|
  {
    exists p :: 0 <= p <= |steps| && HoldingsAfter(devs, steps, p, i, values)
  }

  /** Everything that was sent or is about to be sent was published for that very device. */
  predicate WritesGenuine(devs: seq<Device>, steps: seq<Step>, s: State)
    requires Fits(devs) && Inv(devs, Initial(devs)) && Inv(devs, s)
  {
    && (forall k :: 0 <= k < |s.coilWrites| ==>
          s.coilWrites[k].device < |devs| && CoilsPublished(devs, steps, s.coilWrites[k].device, s.coilWrites[k].values))
    && (forall k :: 0 <= k < |s.holdingWrites| ==>
          s.holdingWrites[k].device < |devs|
          && HoldingsPublished(devs, steps, s.holdingWrites[k].device, s.holdingWrites[k].values))
    && (s.device < |devs| && s.stage.SendCoils? ==> CoilsPublished(devs, steps, s.device, s.stage.coils))
    && (s.device < |devs| && s.stage.SendHoldings? ==> HoldingsPublished(devs, steps, s.device, s.stage.outputs))
  }

  lemma StillPublished(devs: seq<Device>, steps: seq<Step>, step: Step, i: nat, coils: seq<bv8>, words: seq<bv16>)
    requires Fits(devs) && Inv(devs, Initial(devs)) && i < |devs|
    ensures CoilsPublished(devs, steps, i, coils) ==> CoilsPublished(devs, steps + [step], i, coils)
    ensures HoldingsPublished(devs, steps, i, words) ==> HoldingsPublished(devs, steps + [step], i, words)
  {
    hide Run, Holds, Inv;
    if CoilsPublished(devs, steps, i, coils) {
      var p :| 0 <= p <= |steps| && CoilsAfter(devs, steps, p, i, coils);
      assert (steps + [step])[..p] == steps[..p];
      assert CoilsAfter(devs, steps + [step], p, i, coils);
    }
    if HoldingsPublished(devs, steps, i, words) {
      var p :| 0 <= p <= |steps| && HoldingsAfter(devs, steps, p, i, words);
      assert (steps + [step])[..p] == steps[..p];
      assert HoldingsAfter(devs, steps + [step], p, i, words);
    }
  }

  lemma NowPublished(devs: seq<Device>, steps: seq<Step>, s: State)
    requires Fits(devs) && Inv(devs, Initial(devs)) && s == Run(devs, Initial(devs), steps) && s.device < |devs|
    ensures Inv(devs, s)
    ensures s.stage == LoadCoils ==>
              && s.ix.boolOut + devs[s.device].coils <= |s.boolOut|
              && CoilsPublished(devs, steps, s.device, s.boolOut[s.ix.boolOut..s.ix.boolOut + devs[s.device].coils])
    ensures s.stage == LoadHoldings ==>
              && s.ix.intOut + devs[s.device].holdingRegisters <= |s.intOut|
              && HoldingsPublished(devs, steps, s.device, s.intOut[s.ix.intOut..s.ix.intOut + devs[s.device].holdingRegisters])
  {
    Bounds(devs, s);
    assert steps[..|steps|] == steps;
    if s.stage == LoadCoils {
      assert CoilsAfter(devs, steps, |steps|, s.device, s.boolOut[s.ix.boolOut..s.ix.boolOut + devs[s.device].coils]);
    }
    if s.stage == LoadHoldings {
      assert HoldingsAfter(devs, steps, |steps|, s.device, s.intOut[s.ix.intOut..s.ix.intOut + devs[s.device].holdingRegisters]);
    }
  }

  /** One step may add the write that was waiting. */
  predicate WriteAdded(devs: seq<Device>, s: State, s': State) {
    && (s'.coilWrites == s.coilWrites
        || (s.device < |devs| && s.stage.SendCoils?
            && s'.coilWrites == s.coilWrites + [Transfer(s.device, s.stage.coils)]))
    && (s'.holdingWrites == s.holdingWrites
        || (s.device < |devs| && s.stage.SendHoldings?
            && s'.holdingWrites == s.holdingWrites + [Transfer(s.device, s.stage.outputs)]))
  }

  /** What waits to be written was waiting before, or has just been taken from the device's slots. */
  predicate WriteLoaded(devs: seq<Device>, s: State, s': State) {
    && (s'.device < |devs| && s'.stage.SendCoils? ==>
          && s.device == s'.device
          && (s.stage == s'.stage || (s.stage == LoadCoils
            && s.ix.boolOut + devs[s.device].coils <= |s.boolOut|
            && s'.stage.coils == s.boolOut[s.ix.boolOut..s.ix.boolOut + devs[s.device].coils])))
    && (s'.device < |devs| && s'.stage.SendHoldings? ==>
          && s.device == s'.device
          && (s.stage == s'.stage || (s.stage == LoadHoldings
            && s.ix.intOut + devs[s.device].holdingRegisters <= |s.intOut|
            && s'.stage.outputs == s.intOut[s.ix.intOut..s.ix.intOut + devs[s.device].holdingRegisters])))
  }

  lemma ReadsWriteNothing(devs: seq<Device>, s: State, o: Outcome)
    requires Fits(devs) && Inv(devs, s)
    requires s.device == |devs| || s.stage.Begin? || s.stage.ReadBits? || s.stage.ReadInputs? || s.stage.ReadHoldings?
    ensures WriteAdded(devs, s, PollStep(devs, s, o)) && WriteLoaded(devs, s, PollStep(devs, s, o))
  {
    hide ExpectedIndices, Fits, PortConnected, Splice;
  }

  lemma StoresWriteNothing(devs: seq<Device>, s: State, o: Outcome)
    requires Fits(devs) && Inv(devs, s) && s.device < |devs|
    requires s.stage.StoreBits? || s.stage.StoreInputs? || s.stage.StoreHoldings?
    ensures WriteAdded(devs, s, PollStep(devs, s, o)) && WriteLoaded(devs, s, PollStep(devs, s, o))
    ensures SameOutputs(s, PollStep(devs, s, o))
  {
    hide ExpectedIndices, Fits, PortConnected, Splice;
  }

  lemma LoadsAndSends(devs: seq<Device>, s: State, o: Outcome)
    requires Fits(devs) && Inv(devs, s) && s.device < |devs|
    requires s.stage.LoadCoils? || s.stage.SendCoils? || s.stage.LoadHoldings? || s.stage.SendHoldings?
    ensures WriteAdded(devs, s, PollStep(devs, s, o)) && WriteLoaded(devs, s, PollStep(devs, s, o))
  {
    Bounds(devs, s);
    hide ExpectedIndices, Fits, PortConnected, Splice;
  }

  /** What one step does to the writes */
  lemma WritesOfStep(devs: seq<Device>, s: State, step: Step)
    requires Fits(devs) && Inv(devs, s)
    ensures WriteAdded(devs, s, Next(devs, s, step)) && WriteLoaded(devs, s, Next(devs, s, step))
  {
    DeviceInside(devs, s);
    hide Inv, Fits, PollStep, Overlay;
    if step.Poll? {
      if s.device == |devs| || s.stage.Begin? || s.stage.ReadBits? || s.stage.ReadInputs? || s.stage.ReadHoldings? {
        ReadsWriteNothing(devs, s, step.outcome);
      } else if s.stage.StoreBits? || s.stage.StoreInputs? || s.stage.StoreHoldings? {
        StoresWriteNothing(devs, s, step.outcome);
      } else {
        LoadsAndSends(devs, s, step.outcome);
      }
    }
  }

  /** Over every run, the values that were sent to a device stood in that device's slots of the output
      image at some moment of the run: they are never another device's. */
  lemma {:induction false} EveryWrite(devs: seq<Device>, steps: seq<Step>)
    requires Fits(devs) && Inv(devs, Initial(devs))
    ensures WritesGenuine(devs, steps, Run(devs, Initial(devs), steps))
    decreases |steps|
  {
    if |steps| > 0 {
      var before, step := steps[..|steps|-1], steps[|steps|-1];
      assert steps == before + [step];
      EveryWrite(devs, before);
      WritesGenuineNext(devs, before, step);
    }
  }

  lemma WritesGenuineNext(devs: seq<Device>, before: seq<Step>, step: Step)
    requires Fits(devs) && Inv(devs, Initial(devs))
    requires WritesGenuine(devs, before, Run(devs, Initial(devs), before))
    ensures WritesGenuine(devs, before + [step], Run(devs, Initial(devs), before + [step]))
  {
    hide Run, Next, Initial, CoilsPublished, HoldingsPublished, Inv, Fits;
    var s := Run(devs, Initial(devs), before);
    var s' := Run(devs, Initial(devs), before + [step]);
    RunNext(devs, before, step);
    WritesOfStep(devs, s, step);
    forall i: nat, coils: seq<bv8> | i < |devs| && CoilsPublished(devs, before, i, coils)
      ensures CoilsPublished(devs, before + [step], i, coils)
    {
      StillPublished(devs, before, step, i, coils, []);
    }
    forall i: nat, words: seq<bv16> | i < |devs| && HoldingsPublished(devs, before, i, words)
      ensures HoldingsPublished(devs, before + [step], i, words)
    {
      StillPublished(devs, before, step, i, [], words);
    }
    if s.device < |devs| {
      NowPublished(devs, before, s);
    }
  }

  lemma RunNext(devs: seq<Device>, before: seq<Step>, step: Step)
    requires Fits(devs) && Inv(devs, Initial(devs))
    ensures Run(devs, Initial(devs), before + [step]) == Next(devs, Run(devs, Initial(devs), before), step)
  {
    assert (before + [step])[..|before|] == before;
  }
}
