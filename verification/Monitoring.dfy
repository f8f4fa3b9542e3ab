/**
 What the monitor asks the Modbus server for, and that it is the variable the glue generator bound.
 */
module Monitoring {
  import opened Options
  import opened Text
  import opened Bytes
  import opened RegisterFile
  import opened ModbusReply
  import opened Addressing

  datatype Request =
    | ReadDiscreteInputs(start: nat) | ReadCoils(start: nat) | ReadInputRegister(start: nat)
    | ReadHoldingRegisters(start: nat, count: nat)

  /** No request for this location, one request, or an exception */
  datatype Asks = Nothing | Asks(request: Request) | Raises

  /** The address behind a prefix */
  function AddressBehind(location: string, prefix: string): Option<int> {
    match SecondPart(location, prefix)
    case None => None
    case Some(text) => ParseInt(text)
  }

  /** %IX and %QX addresses: eight bits to an index; only a %QX may go without its bit number */
  function BitAddress(location: string, prefix: string, bitOptional: bool): Option<int> {
    match SecondPart(location, prefix)
    case None => None
    case Some(text) =>
      var point := IndexOf(text, '.');
      if point == |text| then
        (match ParseInt(text)
         case None => None
         case Some(a) => if bitOptional then Some(a * 8) else None)
      else
        var behind := text[point + 1..];
        match (ParseInt(text[..point]), ParseInt(behind[..IndexOf(behind, '.')]))
        case (Some(a), Some(b)) => Some(a * 8 + b)
        case _ => None
  }

  /** A request goes out with its address in 16 bits; another address cannot be packed. */
  predicate Packable(p: int) {
    0 <= p < 0x10000
  }

  function BitRequest(address: Option<int>, coil: bool): Asks {
    match address
    case None => Raises
    case Some(p) =>
      if !Packable(p) then Raises
      else Asks(if coil then ReadCoils(p) else ReadDiscreteInputs(p))
  }

  function InputRequest(address: Option<int>): Asks {
    match address
    case None => Raises
    case Some(a) => if Packable(a) then Asks(ReadInputRegister(a)) else Raises
  }

  function WordRequest(address: Option<int>, factor: nat, base: nat): Asks {
    match address
    case None => Raises
    case Some(a) => if Packable(a * factor + base) then Asks(ReadHoldingRegisters(a * factor + base, factor)) else Raises
  }

  function MonitorRequest(location: string): Asks {
    if Find(location, "IX") > 0 then BitRequest(BitAddress(location, "%IX", false), false)
    else if Find(location, "QX") > 0 then BitRequest(BitAddress(location, "%QX", true), true)
    else if Find(location, "IW") > 0 then InputRequest(AddressBehind(location, "%IW"))
    else if Find(location, "QW") > 0 then WordRequest(AddressBehind(location, "%QW"), 1, 0)
    else if Find(location, "MW") > 0 then WordRequest(AddressBehind(location, "%MW"), 1, 1024)
    else if Find(location, "MD") > 0 then WordRequest(AddressBehind(location, "%MD"), 2, 2048)
    else if Find(location, "ML") > 0 then WordRequest(AddressBehind(location, "%ML"), 4, 4096)
    else Nothing
  }

  // --------------------------------------------------------------------------
  // Taking a location apart
  // --------------------------------------------------------------------------

  lemma NumbersHaveNoLetters(v: Located, k: nat)
    requires k < |Numbers(v, '.')|
    ensures !IsLetter(Numbers(v, '.')[k]) && Numbers(v, '.')[k] != '%'
  {
    assert IsDigit(Decimal(v.a)[0]);
  }

  lemma LocationParts(v: Located)
    ensures var s := Location(v);
      |s| > 3 && s[0] == '%' && s[1] == v.area && s[2] == v.width && s[3..] == Numbers(v, '.')
  {
  }

  /** A pair of letters is found only behind the percent sign. */
  lemma FindArea(v: Located, area: char, width: char)
    requires WellNamed(v) && IsLetter(area) && IsLetter(width)
    ensures Find(Location(v), [area, width]) > 0 <==> v.area == area && v.width == width
    ensures v.area == area && v.width == width ==> Find(Location(v), [area, width]) == 1
  {
    hide Find, Location, Numbers;
    var s, p := Location(v), [area, width];
    LocationParts(v);
    var r := Find(s, p);
    assert MatchesAt(s, 1, p) <==> s[1..3] == p;
    assert s[1..3] == [v.area, v.width];
    if r >= 0 {
      assert s[r..r + 2][0] == s[r] && s[r..r + 2][1] == s[r + 1];
      if r >= 2 {
        assert s[r + 1] == s[3..][r + 1 - 3];
        NumbersHaveNoLetters(v, r + 1 - 3);
      }
    }
  }

  lemma NumbersBehind(v: Located)
    requires WellNamed(v)
    ensures SecondPart(Location(v), "%" + [v.area, v.width]) == Some(Numbers(v, '.'))
  {
    hide Find, Location, Numbers;
    var s, p := Location(v), "%" + [v.area, v.width];
    LocationParts(v);
    assert MatchesAt(s, 0, p) by {
      assert s[0..3] == p;
    }
    var tail := s[3..];
    var j := Find(tail, p);
    if j >= 0 {
      assert tail[j..j + 3][0] == tail[j];
      NumbersHaveNoLetters(v, j);
    }
  }

  lemma AddressOf(v: Located)
    requires WellNamed(v) && v.b == None
    ensures AddressBehind(Location(v), "%" + [v.area, v.width]) == Some(v.a)
  {
    hide ParseInt, Decimal, SecondPart, Location;
    NumbersBehind(v);
    ParseIntOfDecimal(v.a);
    assert Numbers(v, '.') == Decimal(v.a) + "" == Decimal(v.a);
  }

  lemma BitAddressOf(v: Located, bitOptional: bool)
    requires WellNamed(v) && (v.b.Some? || bitOptional)
    ensures BitAddress(Location(v), "%" + [v.area, v.width], bitOptional)
         == Some(v.a * 8 + match v.b case None => 0 case Some(b) => b)
  {
    hide ParseInt, Decimal, SecondPart, Location, IndexOf;
    NumbersBehind(v);
    ParseIntOfDecimal(v.a);
    var text := Numbers(v, '.');
    match v.b {
      case None =>
        assert text == Decimal(v.a);
        IndexIs(text, '.', |text|);
      case Some(b) =>
        ParseIntOfDecimal(b);
        var behind := Decimal(b);
        assert text == Decimal(v.a) + ['.'] + behind;
        IndexOfJoined(Decimal(v.a), '.', behind);
        IndexIs(behind, '.', |behind|);
        assert text[..|Decimal(v.a)|] == Decimal(v.a) && text[|Decimal(v.a)| + 1..] == behind;
        assert behind[..|behind|] == behind;
    }
  }

  lemma NoAddressWithPoint(v: Located)
    requires WellNamed(v) && v.b.Some?
    ensures AddressBehind(Location(v), "%" + [v.area, v.width]) == None
  {
    hide SecondPart, Location, Decimal, ParseInt;
    NumbersBehind(v);
    var text := Numbers(v, '.');
    assert text[0] == Decimal(v.a)[0] && text[|text| - 1] == Decimal(v.b.value)[|Decimal(v.b.value)| - 1];
    NoIntWithPoint(text, |Decimal(v.a)|);
  }

  lemma NoBitAddress(v: Located)
    requires WellNamed(v) && v.b == None
    ensures BitAddress(Location(v), "%" + [v.area, v.width], false) == None
  {
    hide SecondPart, Location, Decimal, ParseInt, IndexOf;
    NumbersBehind(v);
    assert Numbers(v, '.') == Decimal(v.a) + "" == Decimal(v.a);
    IndexIs(Decimal(v.a), '.', |Decimal(v.a)|);
  }

  function BitPosition(v: Located): nat {
    8 * v.a + match v.b case None => 0 case Some(b) => b
  }

  /** What the monitor asks for, by area, width and numbers */
  function Expected(v: Located): Asks {
    if v.width == 'X' && v.area == 'I' then
      if v.b.Some? && Packable(BitPosition(v)) then Asks(ReadDiscreteInputs(BitPosition(v))) else Raises
    else if v.width == 'X' && v.area == 'Q' then
      if Packable(BitPosition(v)) then Asks(ReadCoils(BitPosition(v))) else Raises
    else
      match (v.area, v.width)
      case ('I', 'W') => if v.b == None && Packable(v.a) then Asks(ReadInputRegister(v.a)) else Raises
      case ('Q', 'W') => Holding(v, v.a, 1)
      case ('M', 'W') => Holding(v, 1024 + v.a, 1)
      case ('M', 'D') => Holding(v, 2048 + 2 * v.a, 2)
      case ('M', 'L') => Holding(v, 4096 + 4 * v.a, 4)
      case _ => Nothing
  }

  function Holding(v: Located, start: nat, count: nat): Asks {
    if v.b == None && Packable(start) then Asks(ReadHoldingRegisters(start, count)) else Raises
  }

  /** The request for a location is the one its parts call for. */
  lemma MonitorAsks(v: Located)
    requires WellNamed(v)
    ensures MonitorRequest(Location(v)) == Expected(v)
  {
    hide Find, Location, AddressBehind, BitAddress;
    FindArea(v, 'I', 'X');
    FindArea(v, 'Q', 'X');
    FindArea(v, 'I', 'W');
    FindArea(v, 'Q', 'W');
    FindArea(v, 'M', 'W');
    FindArea(v, 'M', 'D');
    FindArea(v, 'M', 'L');
    var prefix := "%" + [v.area, v.width];
    PrefixText(v.area, v.width);
    if v.b.Some? {
      NoAddressWithPoint(v);
      BitAddressOf(v, true);
      BitAddressOf(v, false);
    } else {
      AddressOf(v);
      BitAddressOf(v, true);
      NoBitAddress(v);
    }
  }

  lemma PrefixText(area: char, width: char)
    ensures area == 'I' && width == 'X' ==> "%" + [area, width] == "%IX"
    ensures area == 'Q' && width == 'X' ==> "%" + [area, width] == "%QX"
    ensures area == 'I' && width == 'W' ==> "%" + [area, width] == "%IW"
    ensures area == 'Q' && width == 'W' ==> "%" + [area, width] == "%QW"
    ensures area == 'M' && width == 'W' ==> "%" + [area, width] == "%MW"
    ensures area == 'M' && width == 'D' ==> "%" + [area, width] == "%MD"
    ensures area == 'M' && width == 'L' ==> "%" + [area, width] == "%ML"
  {
  }

  // --------------------------------------------------------------------------
  // The same cell
  // --------------------------------------------------------------------------

  /** A variable of a kind that the monitor can ask for, in the range of its table */
  predicate Accessible(v: Located) {
    && v.a < BUFFER_SIZE
    && ((v.width == 'X' && (v.area == 'Q' || (v.area == 'I' && v.b.Some?)) && (v.b.Some? ==> v.b.value < 8))
        || (v.b == None && (v.area, v.width) in {('I', 'W'), ('Q', 'W'), ('M', 'W'), ('M', 'D'), ('M', 'L')}))
  }

  /** The pointer that an assignment sets, for the tables that the server uses */
  function PointerAt(t: Tables, slot: Slot): Option<Pointer>
    requires TableShape(t)
  {
    match slot
    case BoolInput(i, j) => if 0 <= i < BUFFER_SIZE && 0 <= j < 8 then Some(t.boolInput[8 * i + j]) else None
    case BoolOutput(i, j) => if 0 <= i < BUFFER_SIZE && 0 <= j < 8 then Some(t.boolOutput[8 * i + j]) else None
    case IntInput(i) => if 0 <= i < BUFFER_SIZE then Some(t.intInput[i]) else None
    case IntOutput(i) => if 0 <= i < BUFFER_SIZE then Some(t.intOutput[i]) else None
    case IntMemory(i) => if 0 <= i < BUFFER_SIZE then Some(t.intMemory[i]) else None
    case DintMemory(i) => if 0 <= i < BUFFER_SIZE then Some(t.dintMemory[i]) else None
    case LintMemory(i) => if 0 <= i < BUFFER_SIZE then Some(t.lintMemory[i]) else None
    case _ => None
  }

  /** What the server reads for a request is this cell, all of it and in order. A bit is read with the seven
      behind it, which must exist too. */
  predicate Reads(t: Tables, request: Request, p: Pointer)
    requires TableShape(t) && p.To?
  {
    match request
    case ReadDiscreteInputs(start) => start + 8 <= MAX_DISCRETE_INPUT && t.boolInput[start] == p
    case ReadCoils(start) => start + 8 <= MAX_COILS && t.boolOutput[start] == p
    case ReadInputRegister(start) => start < MAX_INP_REGS && t.intInput[start] == p
    case ReadHoldingRegisters(start, count) =>
      && start + count <= ADDRESSES
      && match count
         case 1 => PlaceOf(t, start) == Word(p.cell)
         case 2 => PlaceOf(t, start) == Half(p.cell, 0) && PlaceOf(t, start + 1) == Half(p.cell, 1)
         case 4 =>
           && PlaceOf(t, start) == Quarter(p.cell, 0) && PlaceOf(t, start + 1) == Quarter(p.cell, 1)
           && PlaceOf(t, start + 2) == Quarter(p.cell, 2) && PlaceOf(t, start + 3) == Quarter(p.cell, 3)
         case _ => false
  }

  /** Registers 1024 and up: the server takes 1024 itself for an output. */
  lemma MemoryPlaces(t: Tables, a: nat)
    requires TableShape(t) && a < BUFFER_SIZE
    ensures PlaceOf(t, 1024 + a) == WordAt(if a == 0 then t.afterIntOutput else t.intMemory[a])
    ensures t.dintMemory[a].To? ==>
      Reads(t, ReadHoldingRegisters(2048 + 2 * a, 2), t.dintMemory[a])
    ensures t.lintMemory[a].To? ==>
      Reads(t, ReadHoldingRegisters(4096 + 4 * a, 4), t.lintMemory[a])
  {
  }

  /** The slot that the assignment for an accessible variable sets */
  lemma GluedSlot(v: Located)
    requires Accessible(v)
    ensures Glued(VarName(v)) == match (v.area, v.width)
      case ('I', 'X') => Some(BoolInput(v.a, v.b.value))
      case ('Q', 'X') => Some(BoolOutput(v.a, if v.b.Some? then v.b.value else 0))
      case ('I', _) => Some(IntInput(v.a))
      case ('Q', _) => Some(IntOutput(v.a))
      case (_, 'W') => Some(IntMemory(v.a))
      case (_, 'D') => Some(DintMemory(v.a))
      case (_, _) => Some(LintMemory(v.a))
  {
    hide Positions;
    PositionsOfName(v);
    assert VarName(v)[2] == v.area && VarName(v)[3] == v.width;
  }

  /** The pointer that the program's glue code binds to a variable */
  function GluedPointer(v: Located, t: Tables): Option<Pointer>
    requires TableShape(t)
  {
    match Glued(VarName(v))
    case None => None
    case Some(slot) => PointerAt(t, slot)
  }

  /** The table entry that belongs to an accessible variable */
  function Entry(v: Located, t: Tables): Pointer
    requires Accessible(v) && TableShape(t)
  {
    match (v.area, v.width)
    case ('I', 'X') => t.boolInput[BitPosition(v)]
    case ('Q', 'X') => t.boolOutput[BitPosition(v)]
    case ('I', _) => t.intInput[v.a]
    case ('Q', _) => t.intOutput[v.a]
    case (_, 'W') => t.intMemory[v.a]
    case (_, 'D') => t.dintMemory[v.a]
    case (_, _) => t.lintMemory[v.a]
  }

  lemma GluedEntry(v: Located, t: Tables)
    requires Accessible(v) && TableShape(t)
    ensures GluedPointer(v, t) == Some(Entry(v, t))
  {
    hide Glued, VarName;
    GluedSlot(v);
  }

  /** The variables whose request the server answers from another place or not at all: %MW0, for which the
      monitor asks for register 1024 and the server takes an output, unless both are the same cell; and the
      last seven bits of each bit table, behind which there are not seven more */
  predicate OutOfReach(v: Located, t: Tables, p: Pointer) {
    || ((v.area, v.width, v.a) == ('M', 'W', 0) && t.afterIntOutput != p)
    || (v.width == 'X' && BitPosition(v) > MAX_COILS - 8)
  }

  /** The monitor reads the very cell that the glue generator bound the variable to, with these exceptions. */
  lemma MonitorReadsGluedCell(v: Located, t: Tables, p: Pointer)
    requires Accessible(v) && TableShape(t) && GluedPointer(v, t) == Some(p) && p.To?
    ensures var asks := MonitorRequest(Location(v));
      asks.Asks? && (Reads(t, asks.request, p) <==> !OutOfReach(v, t, p))
  {
    hide GluedPointer, Location, MonitorRequest, PlaceOf;
    MonitorAsks(v);
    GluedEntry(v, t);
    MemoryPlaces(t, v.a);
    OutputPlace(t, v.a);
  }

  /** What the monitor shows for %MW0 is not the program's %MW0: an output that the server admits behind the
      last one answers for it. */
  lemma FirstMemoryWordOutOfReach(t: Tables)
    requires TableShape(t) && t.intMemory[0].To? && t.afterIntOutput != t.intMemory[0]
    ensures var v := Located('M', 'W', 0, None);
      && GluedPointer(v, t) == Some(t.intMemory[0])
      && MonitorRequest(Location(v)) == Asks(ReadHoldingRegisters(1024, 1))
      && !Reads(t, ReadHoldingRegisters(1024, 1), t.intMemory[0])
  {
    hide GluedPointer, Location, MonitorRequest;
    MonitorAsks(Located('M', 'W', 0, None));
    GluedEntry(Located('M', 'W', 0, None), t);
  }

  /** Nor can the monitor show the last seven bits of an input table. */
  lemma LastBitsOutOfReach(t: Tables, b: nat)
    requires TableShape(t) && 0 < b < 8 && t.boolInput[8184 + b].To?
    ensures var v := Located('I', 'X', 1023, Some(b));
      && GluedPointer(v, t) == Some(t.boolInput[8184 + b])
      && MonitorRequest(Location(v)) == Asks(ReadDiscreteInputs(8184 + b))
      && !Reads(t, ReadDiscreteInputs(8184 + b), t.boolInput[8184 + b])
  {
    hide GluedPointer, Location, MonitorRequest;
    MonitorAsks(Located('I', 'X', 1023, Some(b)));
    GluedEntry(Located('I', 'X', 1023, Some(b)), t);
  }

  lemma OutputPlace(t: Tables, a: nat)
    requires TableShape(t) && a < BUFFER_SIZE
    ensures PlaceOf(t, a) == WordAt(t.intOutput[a])
  {
  }

  // --------------------------------------------------------------------------
  // Writing
  // --------------------------------------------------------------------------

  /** write_value(): the coil that it writes for a location, if it writes one */
  function WriteAddress(location: string): Option<int> {
    if Find(location, "QX") > 0 then BitAddress(location, "%QX", true) else None
  }

  /** The request for a value: 0xFF00 for any number but 0 */
  predicate WriteFrame(b: Buffer, address: int, value: int) {
    b[7] == MB_FC_WRITE_COIL && Start(b) == address && Count(b) == if value != 0 then 0xFF00 else 0
  }

  lemma WriteAddressOf(v: Located)
    requires Accessible(v)
    ensures WriteAddress(Location(v)) == if v.area == 'Q' && v.width == 'X' then Some(BitPosition(v)) else None
  {
    hide Find, Location, BitAddress;
    FindArea(v, 'Q', 'X');
    PrefixText(v.area, v.width);
    BitAddressOf(v, true);
  }

  /** For a bit output, and for no other variable, the monitor writes. The write reaches the cell that the glue
      generator bound, sets it to 1 or 0, is confirmed, and changes nothing else in the PLC. */
  lemma WriteHitsGluedCell(v: Located, t: Tables, s: Store, b: Buffer, size: nat, value: int, p: Pointer)
    requires Accessible(v) && Valid(t, s) && 12 <= size <= NET_BUFFER_SIZE
    requires GluedPointer(v, t) == Some(p) && p.To?
    ensures WriteAddress(Location(v)).Some? <==> v.area == 'Q' && v.width == 'X'
    ensures WriteAddress(Location(v)).Some? && WriteFrame(b, WriteAddress(Location(v)).value, value) ==>
      && Reply(b, size, t, s) == EchoReply(b)
      && p.cell < |s.bools|
      && After(b, size, t, s) == s.(bools := s.bools[p.cell := if value != 0 then 1 else 0])
  {
    hide GluedPointer, Location, WriteAddress, Number, EchoReply;
    GluedEntry(v, t);
    WriteAddressOf(v);
  }

  // --------------------------------------------------------------------------
  // The value shown
  // --------------------------------------------------------------------------

  /** A bit pattern read as a signed integer, in two's complement */
  function Signed(n: nat, limit: nat): int {
    if 2 * n >= limit then (n as int) - limit else n
  }

  /** The integer that unpack() makes of the number of 32 bits for a type, or None to keep the old value.
      (Floating point is not modelled.) */
  function DoubleValue(varType: string, pattern: nat): Option<int> {
    if varType in {"SINT", "INT", "DINT"} then Some(Signed(pattern, 0x1_0000_0000))
    else if varType in {"USINT", "UINT", "UDINT"} then Some(pattern)
    else None
  }

  function LongValue(varType: string, pattern: nat): Option<int> {
    if varType in {"SINT", "INT", "DINT", "LINT"} then Some(Signed(pattern, 0x1_0000_0000_0000_0000))
    else if varType in {"USINT", "UINT", "UDINT", "ULINT"} then Some(pattern)
    else None
  }

  function ShownDouble(varType: string, r: seq<bv16>): Option<int>
    requires |r| == 2
  {
    DoubleValue(varType, JoinWords(r[0], r[1]) as nat)
  }

  function ShownLong(varType: string, r: seq<bv16>): Option<int>
    requires |r| == 4
  {
    LongValue(varType, JoinHalves(JoinWords(r[0], r[1]), JoinWords(r[2], r[3])) as nat)
  }

  /** The request frame for a request: function code, start and count */
  predicate RequestFrame(b: Buffer, request: Request) {
    match request
    case ReadDiscreteInputs(start) => b[7] == MB_FC_READ_INPUTS && Start(b) == start && Count(b) == 1
    case ReadCoils(start) => b[7] == MB_FC_READ_COILS && Start(b) == start && Count(b) == 1
    case ReadInputRegister(start) => b[7] == MB_FC_READ_INPUT_REGISTERS && Start(b) == start && Count(b) == 1
    case ReadHoldingRegisters(start, count) =>
      b[7] == MB_FC_READ_HOLDING_REGISTERS && Start(b) == start && Count(b) == count
  }

  /** What the monitor makes of a reply: None for an exception, a short reply, or a type that it skips */
  function Decoded(request: Request, varType: string, r: seq<bv8>): Option<int> {
    if |r| < 9 || r[7] >= 0x80 then None
    else
      match request
      case ReadDiscreteInputs(_) => if |r| < 10 then None else Some(if BitRead(r[9], 0) then 1 else 0)
      case ReadCoils(_) => if |r| < 10 then None else Some(if BitRead(r[9], 0) then 1 else 0)
      case ReadInputRegister(_) => if |r| < 11 then None else Some(Words(r[9..11])[0] as nat)
      case ReadHoldingRegisters(_, count) =>
        if |r| < 9 + 2 * count then None
        else
          match count
          case 1 => Some(Words(r[9..11])[0] as nat)
          case 2 => ShownDouble(varType, Words(r[9..13]))
          case 4 => ShownLong(varType, Words(r[9..17]))
          case _ => None
  }

  /** The value of the variable in the PLC's memory, read at its type */
  function CellShown(v: Located, varType: string, s: Store, cell: nat): Option<int> {
    match v.width
    case 'X' => if cell < |s.bools| then Some(if s.bools[cell] != 0 then 1 else 0) else None
    case 'W' => if cell < |s.words| then Some(s.words[cell] as nat) else None
    case 'D' => if cell < |s.dwords| then DoubleValue(varType, s.dwords[cell] as nat) else None
    case _ => if cell < |s.lwords| then LongValue(varType, s.lwords[cell] as nat) else None
  }

  /** Where the monitor shows the variable's own value: for all but the last seven bits of a bit table, and for
      %MW0 only if the word that the server answers from is the same */
  predicate OwnValueServed(v: Located, t: Tables, s: Store, cell: nat)
    requires Accessible(v) && Valid(t, s)
  {
    if v.width == 'X' then BitPosition(v) <= MAX_COILS - 8
    else if (v.area, v.width, v.a) == ('M', 'W', 0) then
      cell < |s.words| && s.words[cell] == if t.afterIntOutput == Null then 0 else s.words[t.afterIntOutput.cell]
    else true
  }

  /** A register that is glued comes back whole. */
  lemma RegisterInReply(t: Tables, s: Store, start: nat, n: nat, k: nat, place: Place)
    requires Valid(t, s) && start + n <= ADDRESSES && k < n && !Unglued(t, start + k)
    requires PlaceOf(t, start + k) == place && PlaceIn(place, s)
    ensures Words(RegisterData(t, s, start, n))[k] == Peek(s, place)
  {
    hide Unglued, Join, High, Low, PlaceOf;
    RegisterDataAt(t, s, start, n, k);
    SplitJoins(Register(t, s, start + k));
  }

  /** A data reply is decoded from its data. */
  lemma DataDecoded(request: Request, varType: string, b: Buffer, data: seq<bv8>)
    requires |data| < 256 && b[7] < 0x80
    ensures var r := DataReply(b, data); |r| == 9 + |data| && r[7] == b[7] && r[9..] == data
  {
    hide HighByte, LowByte;
  }

  /** A bit: the low bit of the byte that the server packs, if there is a whole byte */
  lemma BitShown(request: Request, b: Buffer, size: nat, table: seq<Pointer>, s: Store, t: Tables, start: nat)
    requires Valid(t, s) && size >= 12 && RequestFrame(b, request) && start < MAX_COILS
    requires || (request == ReadDiscreteInputs(start) && table == t.boolInput)
             || (request == ReadCoils(start) && table == t.boolOutput)
    ensures Decoded(request, "BOOL", Reply(b, size, t, s)) ==
      if start + 8 <= MAX_COILS then Some(if BoolAt(table, s.bools, start) then 1 else 0) else None
    ensures forall varType ::
      Decoded(request, varType, Reply(b, size, t, s)) == Decoded(request, "BOOL", Reply(b, size, t, s))
  {
    hide PackedByte, BitRead, BoolAt, Number, HighByte, LowByte;
    if start + 8 <= MAX_COILS {
      PackedBits(table, s.bools, start, 8, 0);
      DataDecoded(request, "BOOL", b, BitData(table, s.bools, start, 1));
    } else {
      TopBitSet(b[7]);
    }
  }

  lemma TopBitSet(f: bv8)
    ensures f | 0x80 >= 0x80
  {
  }

  lemma InputShown(b: Buffer, size: nat, t: Tables, s: Store, start: nat, varType: string)
    requires Valid(t, s) && size >= 12 && RequestFrame(b, ReadInputRegister(start)) && start < MAX_INP_REGS
    ensures Decoded(ReadInputRegister(start), varType, Reply(b, size, t, s)) == Some(InputRegister(t, s, start) as nat)
  {
    hide InputRegister, Join, High, Low, Number, HighByte, LowByte;
    var data := InputData(t, s, start, 1);
    InputDataAt(t, s, start, 1, 0);
    SplitJoins(InputRegister(t, s, start));
    DataDecoded(ReadInputRegister(start), varType, b, data);
    assert DataReply(b, data)[9..11] == data;
  }

  /** Holding registers are decoded from the words of the map. */
  lemma HoldingDecoded(b: Buffer, size: nat, t: Tables, s: Store, start: nat, count: nat, varType: string)
    requires Valid(t, s) && size >= 12 && RequestFrame(b, ReadHoldingRegisters(start, count))
    requires count in {1, 2, 4} && start + count <= ADDRESSES
    ensures var ws := Words(RegisterData(t, s, start, count));
      |ws| == count && Decoded(ReadHoldingRegisters(start, count), varType, Reply(b, size, t, s)) ==
      if count == 1 then Some(ws[0] as nat) else if count == 2 then ShownDouble(varType, ws) else ShownLong(varType, ws)
  {
    hide RegisterData, Words, ShownDouble, ShownLong, Number, HighByte, LowByte;
    var data := RegisterData(t, s, start, count);
    DataDecoded(ReadHoldingRegisters(start, count), varType, b, data);
    assert DataReply(b, data)[9..9 + 2 * count] == data;
  }

  lemma WordShown(b: Buffer, size: nat, t: Tables, s: Store, start: nat, varType: string)
    requires Valid(t, s) && size >= 12 && RequestFrame(b, ReadHoldingRegisters(start, 1))
    requires start < 2048
    ensures Decoded(ReadHoldingRegisters(start, 1), varType, Reply(b, size, t, s)) == Some(Register(t, s, start) as nat)
  {
    hide Decoded, Reply, RequestFrame, RegisterData, Words, PlaceOf, Peek;
    HoldingDecoded(b, size, t, s, start, 1, varType);
    PlaceValid(t, s, start);
    RegisterInReply(t, s, start, 1, 0, PlaceOf(t, start));
  }

  lemma DoubleShown(b: Buffer, size: nat, t: Tables, s: Store, a: nat, varType: string)
    requires Valid(t, s) && size >= 12 && a < BUFFER_SIZE && t.dintMemory[a].To?
    requires RequestFrame(b, ReadHoldingRegisters(2048 + 2 * a, 2))
    ensures Decoded(ReadHoldingRegisters(2048 + 2 * a, 2), varType, Reply(b, size, t, s))
         == DoubleValue(varType, s.dwords[t.dintMemory[a].cell] as nat)
  {
    hide Decoded, Reply, RequestFrame, RegisterData, Words, JoinWords, Word32, PlaceOf, DoubleValue;
    var start, cell := 2048 + 2 * a, t.dintMemory[a].cell;
    MemoryPlaces(t, a);
    HoldingDecoded(b, size, t, s, start, 2, varType);
    RegisterInReply(t, s, start, 2, 0, Half(cell, 0));
    RegisterInReply(t, s, start, 2, 1, Half(cell, 1));
    WordsJoin(s.dwords[cell]);
  }

  lemma LongShown(b: Buffer, size: nat, t: Tables, s: Store, a: nat, varType: string)
    requires Valid(t, s) && size >= 12 && a < BUFFER_SIZE && t.lintMemory[a].To?
    requires RequestFrame(b, ReadHoldingRegisters(4096 + 4 * a, 4))
    ensures Decoded(ReadHoldingRegisters(4096 + 4 * a, 4), varType, Reply(b, size, t, s))
         == LongValue(varType, s.lwords[t.lintMemory[a].cell] as nat)
  {
    hide Decoded, Reply, RequestFrame, RegisterData, Words, JoinWords, JoinHalves, Word64, PlaceOf, LongValue;
    var start, cell := 4096 + 4 * a, t.lintMemory[a].cell;
    MemoryPlaces(t, a);
    HoldingDecoded(b, size, t, s, start, 4, varType);
    RegisterInReply(t, s, start, 4, 0, Quarter(cell, 0));
    RegisterInReply(t, s, start, 4, 1, Quarter(cell, 1));
    RegisterInReply(t, s, start, 4, 2, Quarter(cell, 2));
    RegisterInReply(t, s, start, 4, 3, Quarter(cell, 3));
    QuartersJoin(s.lwords[cell]);
  }

  lemma BitVariableShown(v: Located, varType: string, t: Tables, s: Store, b: Buffer, size: nat, cell: nat)
    requires Accessible(v) && Valid(t, s) && size >= 12 && Entry(v, t) == To(cell) && v.width == 'X'
    requires Expected(v).Asks? && RequestFrame(b, Expected(v).request)
    ensures Decoded(Expected(v).request, varType, Reply(b, size, t, s)) == CellShown(v, varType, s, cell)
       <==> OwnValueServed(v, t, s, cell)
  {
    hide Decoded, Reply, RequestFrame;
    var request := Expected(v).request;
    if v.area == 'I' {
      BitShown(request, b, size, t.boolInput, s, t, BitPosition(v));
    } else {
      BitShown(request, b, size, t.boolOutput, s, t, BitPosition(v));
    }
  }

  lemma WordVariableShown(v: Located, varType: string, t: Tables, s: Store, b: Buffer, size: nat, cell: nat)
    requires Accessible(v) && Valid(t, s) && size >= 12 && Entry(v, t) == To(cell) && v.width == 'W'
    requires Expected(v).Asks? && RequestFrame(b, Expected(v).request)
    ensures Decoded(Expected(v).request, varType, Reply(b, size, t, s)) == CellShown(v, varType, s, cell)
       <==> OwnValueServed(v, t, s, cell)
  {
    hide Decoded, Reply, RequestFrame, Register;
    if v.area == 'I' {
      InputShown(b, size, t, s, v.a, varType);
    } else {
      var start := Expected(v).request.start;
      WordShown(b, size, t, s, start, varType);
      var w := WordServed(v, t, s, cell);
      SameNumber(w, s.words[cell]);
    }
  }

  /** The word that the server answers for a word variable */
  lemma WordServed(v: Located, t: Tables, s: Store, cell: nat) returns (w: bv16)
    requires Accessible(v) && Valid(t, s) && Entry(v, t) == To(cell) && v.width == 'W' && v.area != 'I'
    requires Expected(v).Asks?
    ensures cell < |s.words| && Expected(v).request.start < 2048 && w == Register(t, s, Expected(v).request.start)
    ensures w == s.words[cell] <==> OwnValueServed(v, t, s, cell)
  {
    hide PlaceOf;
    MemoryPlaces(t, v.a);
    OutputPlace(t, v.a);
    w := Register(t, s, Expected(v).request.start);
  }

  lemma SameNumber(a: bv16, b: bv16)
    ensures a as nat == b as nat <==> a == b
  {
    WordBack(a);
    WordBack(b);
  }

  lemma WordBack(a: bv16)
    ensures (a as nat) as bv16 == a
  {
  }

  /** The whole way round: for a variable that the glue generator binds and the monitor asks for, decoding the
      server's reply to that request gives the value of the bound cell, exactly when that value is served. */
  lemma MonitorShowsGluedCell(v: Located, varType: string, t: Tables, s: Store, request: Request,
                              b: Buffer, size: nat, cell: nat)
    requires Accessible(v) && Valid(t, s) && size >= 12 && GluedPointer(v, t) == Some(To(cell))
    requires MonitorRequest(Location(v)) == Asks(request) && RequestFrame(b, request)
    ensures Decoded(request, varType, Reply(b, size, t, s)) == CellShown(v, varType, s, cell)
       <==> OwnValueServed(v, t, s, cell)
  {
    hide GluedPointer, Location, MonitorRequest, Decoded, Reply, RequestFrame, DoubleValue, LongValue, Register;
    MonitorAsks(v);
    GluedEntry(v, t);
    match v.width
    case 'X' => BitVariableShown(v, varType, t, s, b, size, cell);
    case 'W' => WordVariableShown(v, varType, t, s, b, size, cell);
    case 'D' => DoubleShown(b, size, t, s, v.a, varType);
    case _ => LongShown(b, size, t, s, v.a, varType);
  }

  // --------------------------------------------------------------------------
  // Which value that is
  // --------------------------------------------------------------------------

  lemma DoubleBound(w: bv32)
    ensures w as nat < 0x1_0000_0000
  {
  }

  lemma LongBound(w: bv64)
    ensures w as nat < 0x1_0000_0000_0000_0000
  {
  }

  lemma SignedMeaning(n: nat, limit: nat)
    requires n < limit && limit % 2 == 0
    ensures var i := Signed(n, limit);
      -(limit / 2) <= i < limit / 2 && (i == n || i == n - limit)
  {
  }

  lemma DoubleMeaning(varType: string, n: nat)
    requires n < 0x1_0000_0000
    ensures var shown := DoubleValue(varType, n);
      && (varType in {"SINT", "INT", "DINT"} ==>
            shown.Some? && -0x8000_0000 <= shown.value < 0x8000_0000 && (shown.value == n || shown.value == n - 0x1_0000_0000))
      && (varType in {"USINT", "UINT", "UDINT"} ==> shown == Some(n))
      && (varType !in {"SINT", "INT", "DINT", "USINT", "UINT", "UDINT"} ==> shown == None)
  {
    hide Signed;
    SignedMeaning(n, 0x1_0000_0000);
  }

  lemma LongMeaning(varType: string, n: nat)
    requires n < 0x1_0000_0000_0000_0000
    ensures var shown := LongValue(varType, n);
      && (varType in {"SINT", "INT", "DINT", "LINT"} ==>
            && shown.Some? && -0x8000_0000_0000_0000 <= shown.value < 0x8000_0000_0000_0000
            && (shown.value == n || shown.value == n - 0x1_0000_0000_0000_0000))
      && (varType in {"USINT", "UINT", "UDINT", "ULINT"} ==> shown == Some(n))
      && (varType !in {"SINT", "INT", "DINT", "LINT", "USINT", "UINT", "UDINT", "ULINT"} ==> shown == None)
  {
    hide Signed;
    SignedMeaning(n, 0x1_0000_0000_0000_0000);
  }

  /** A 32-bit cell is shown as the number in the range of its type that is congruent to the cell's; for types that
      are not integers there is no value. */
  lemma DoubleIsInteger(v: Located, varType: string, t: Tables, s: Store, request: Request,
                        b: Buffer, size: nat, cell: nat, shown: Option<int>)
    requires Accessible(v) && v.width == 'D' && Valid(t, s) && size >= 12 && GluedPointer(v, t) == Some(To(cell))
    requires MonitorRequest(Location(v)) == Asks(request) && RequestFrame(b, request)
    requires shown == Decoded(request, varType, Reply(b, size, t, s))
    ensures cell < |s.dwords|
    ensures varType in {"SINT", "INT", "DINT"} ==>
      && shown.Some? && -0x8000_0000 <= shown.value < 0x8000_0000
      && (shown.value == s.dwords[cell] as nat || shown.value == s.dwords[cell] as nat - 0x1_0000_0000)
    ensures varType in {"USINT", "UINT", "UDINT"} ==> shown == Some(s.dwords[cell] as nat)
    ensures varType !in {"SINT", "INT", "DINT", "USINT", "UINT", "UDINT"} ==> shown == None
  {
    hide GluedPointer, Location, MonitorRequest, Decoded, Reply, RequestFrame, DoubleValue;
    MonitorShowsGluedCell(v, varType, t, s, request, b, size, cell);
    GluedEntry(v, t);
    DoubleBound(s.dwords[cell]);
    DoubleMeaning(varType, s.dwords[cell] as nat);
  }

  lemma LongIsInteger(v: Located, varType: string, t: Tables, s: Store, request: Request,
                      b: Buffer, size: nat, cell: nat, shown: Option<int>)
    requires Accessible(v) && v.width == 'L' && Valid(t, s) && size >= 12 && GluedPointer(v, t) == Some(To(cell))
    requires MonitorRequest(Location(v)) == Asks(request) && RequestFrame(b, request)
    requires shown == Decoded(request, varType, Reply(b, size, t, s))
    ensures cell < |s.lwords|
    ensures varType in {"SINT", "INT", "DINT", "LINT"} ==>
      && shown.Some? && -0x8000_0000_0000_0000 <= shown.value < 0x8000_0000_0000_0000
      && (shown.value == s.lwords[cell] as nat || shown.value == s.lwords[cell] as nat - 0x1_0000_0000_0000_0000)
    ensures varType in {"USINT", "UINT", "UDINT", "ULINT"} ==> shown == Some(s.lwords[cell] as nat)
    ensures varType !in {"SINT", "INT", "DINT", "LINT", "USINT", "UINT", "UDINT", "ULINT"} ==> shown == None
  {
    hide GluedPointer, Location, MonitorRequest, Decoded, Reply, RequestFrame, LongValue;
    MonitorShowsGluedCell(v, varType, t, s, request, b, size, cell);
    GluedEntry(v, t);
    LongBound(s.lwords[cell]);
    LongMeaning(varType, s.lwords[cell] as nat);
  }

  /** A bit is shown as 1 or 0, and a word as its number, whatever the type; %MW0 and the last bits of a table are
      the exceptions. */
  lemma BitOrWordIsCell(v: Located, varType: string, t: Tables, s: Store, request: Request,
                        b: Buffer, size: nat, cell: nat, shown: Option<int>)
    requires Accessible(v) && (v.width == 'X' || v.width == 'W') && Valid(t, s) && size >= 12
    requires GluedPointer(v, t) == Some(To(cell))
    requires MonitorRequest(Location(v)) == Asks(request) && RequestFrame(b, request)
    requires shown == Decoded(request, varType, Reply(b, size, t, s))
    ensures v.width == 'X' && 8 * v.a + (match v.b case None => 0 case Some(k) => k) <= 8184 ==>
      cell < |s.bools| && shown == Some(if s.bools[cell] != 0 then 1 else 0)
    ensures v.width == 'W' && (v.area, v.a) != ('M', 0) ==>
      cell < |s.words| && shown == Some(s.words[cell] as nat)
  {
    hide GluedPointer, Location, MonitorRequest, Decoded, Reply, RequestFrame;
    MonitorShowsGluedCell(v, varType, t, s, request, b, size, cell);
    GluedEntry(v, t);
  }
}
