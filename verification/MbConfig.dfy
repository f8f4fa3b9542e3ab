/**
 The slave device configuration: the file that the web server writes from its database, in UTF-8, and
 the parser that the polling thread reads its bytes with. Where the parser would run off a line, off the
 device table, over the end of a buffer or into unset memory, the result is None.
 */
module MbConfig {
  import opened Options
  import opened Text
  import opened Utf8

  // --------------------------------------------------------------------------
  // The database
  // --------------------------------------------------------------------------

  /** A row of the device table */
  datatype Row = Row(name: string, devType: string, slaveId: nat, comPort: string, baudRate: nat, parity: string,
    dataBits: nat, stopBits: nat, ip: string, ipPort: nat, diStart: nat, diSize: nat, coilStart: nat, coilSize: nat,
    irStart: nat, irSize: nat, hrReadStart: nat, hrReadSize: nat, hrStart: nat, hrSize: nat, txPause: nat)

  datatype Settings = Settings(rows: seq<Row>, polling: nat, timeout: nat)

  /** The lines of a device, in the order in which they are printed */
  datatype Key =
    | Name | SlaveId | Protocol | Address | IpPort | BaudRate | Parity | DataBits | StopBits | TxPause
    | DiStart | DiSize | CoilStart | CoilSize | IrStart | IrSize | HrReadStart | HrReadSize | HrStart | HrSize

  const KEYS: seq<Key> :=
    [Name, SlaveId, Protocol, Address, IpPort, BaudRate, Parity, DataBits, StopBits, TxPause,
     DiStart, DiSize, CoilStart, CoilSize, IrStart, IrSize, HrReadStart, HrReadSize, HrStart, HrSize]

  function Keyword(k: Key): string {
    match k
    case Name => "name"
    case SlaveId => "slave_id"
    case Protocol => "protocol"
    case Address => "address"
    case IpPort => "IP_Port"
    case BaudRate => "RTU_Baud_Rate"
    case Parity => "RTU_Parity"
    case DataBits => "RTU_Data_Bits"
    case StopBits => "RTU_Stop_Bits"
    case TxPause => "RTU_TX_Pause"
    case DiStart => "Discrete_Inputs_Start"
    case DiSize => "Discrete_Inputs_Size"
    case CoilStart => "Coils_Start"
    case CoilSize => "Coils_Size"
    case IrStart => "Input_Registers_Start"
    case IrSize => "Input_Registers_Size"
    case HrReadStart => "Holding_Registers_Read_Start"
    case HrReadSize => "Holding_Registers_Read_Size"
    case HrStart => "Holding_Registers_Start"
    case HrSize => "Holding_Registers_Size"
  }

  // --------------------------------------------------------------------------
  // Printing
  // --------------------------------------------------------------------------

  predicate IsTcp(row: Row) {
    row.devType in {"ESP32", "ESP8266", "TCP"}
  }

  /** COM ports count from 1, serial devices from 0; a COM port without a number raises an exception. */
  function PortName(comPort: string): Option<string> {
    if "COM" <= comPort then
      match SecondPart(comPort, "COM")
      case None => None
      case Some(text) =>
        match ParseInt(text)
        case None => None
        case Some(n) => Some("/dev/ttyS" + Printed(n - 1))
    else Some(comPort)
  }

  function AddressText(row: Row): Option<string> {
    if IsTcp(row) then Some(row.ip) else PortName(row.comPort)
  }

  function ValueText(row: Row, k: Key): string
    requires AddressText(row).Some?
  {
    match k
    case Name => row.name
    case SlaveId => Decimal(row.slaveId)
    case Protocol => if IsTcp(row) then "TCP" else "RTU"
    case Address => AddressText(row).value
    case IpPort => Decimal(row.ipPort)
    case BaudRate => Decimal(row.baudRate)
    case Parity => row.parity
    case DataBits => Decimal(row.dataBits)
    case StopBits => Decimal(row.stopBits)
    case TxPause => Decimal(row.txPause)
    case DiStart => Decimal(row.diStart)
    case DiSize => Decimal(row.diSize)
    case CoilStart => Decimal(row.coilStart)
    case CoilSize => Decimal(row.coilSize)
    case IrStart => Decimal(row.irStart)
    case IrSize => Decimal(row.irSize)
    case HrReadStart => Decimal(row.hrReadStart)
    case HrReadSize => Decimal(row.hrReadSize)
    case HrStart => Decimal(row.hrStart)
    case HrSize => Decimal(row.hrSize)
  }

  /** A key, and what follows the opening quotation mark */
  function Opened(key: string, rest: string): string {
    key + (" = \"" + rest)
  }

  function Quoted(key: string, value: string): string {
    Opened(key, value + "\"")
  }

  function DeviceText(i: nat, k: Key, rest: string): string {
    "device" + (Decimal(i) + ("." + Opened(Keyword(k), rest)))
  }

  function DeviceLine(i: nat, k: Key, value: string): string {
    DeviceText(i, k, value + "\"")
  }

  const RULE := "# ------------"

  /** The lines for the keys before position k, with an empty one behind the tenth and the last */
  function KeyLines(row: Row, i: nat, k: nat): seq<string>
    requires k <= |KEYS| && AddressText(row).Some?
  {
    if k == 0 then []
    else KeyLines(row, i, k - 1) + [DeviceLine(i, KEYS[k - 1], ValueText(row, KEYS[k - 1]))]
         + if k == 10 || k == |KEYS| then [""] else []
  }

  function DeviceLines(row: Row, i: nat): seq<string>
    requires AddressText(row).Some?
  {
    [RULE, "#   DEVICE " + Decimal(i), RULE] + KeyLines(row, i, |KEYS|)
  }

  function HeadLines(s: Settings): seq<string> {
    [Quoted("Num_Devices", Decimal(|s.rows|)),
     Quoted("Polling_Period", Decimal(s.polling)),
     Quoted("Timeout", Decimal(s.timeout))]
  }

  predicate Printable(s: Settings) {
    forall i :: 0 <= i < |s.rows| ==> AddressText(s.rows[i]).Some?
  }

  /** The lines of the file for the first n devices */
  function ConfigLines(s: Settings, n: nat): seq<string>
    requires Printable(s) && n <= |s.rows|
  {
    if n == 0 then HeadLines(s) else ConfigLines(s, n - 1) + DeviceLines(s.rows[n - 1], n - 1)
  }

  /** Lines with a newline between them */
  function Joined(lines: seq<string>): string {
    if |lines| == 0 then ""
    else if |lines| == 1 then lines[0]
    else Joined(lines[..|lines| - 1]) + "\n" + lines[|lines| - 1]
  }

  lemma JoinedSnoc(lines: seq<string>, line: string)
    requires |lines| > 0
    ensures Joined(lines + [line]) == Joined(lines) + "\n" + line
  {
    assert (lines + [line])[..|lines|] == lines;
  }

  /** The bytes of the file */
  function FileOf(s: Settings): string
    requires Printable(s)
  {
    Encoded(Joined(ConfigLines(s, |s.rows|)))
  }

  /** generate_mbconfig(): printed is false when an exception leaves the file unwritten. */
  method GenerateMbconfig(s: Settings) returns (printed: bool, file: string)
    ensures printed == Printable(s)
    ensures printed ==> file == FileOf(s)
  {
    hide AddressText, DeviceLine, Quoted, ValueText, Encoded;
    file := "";
    var mbconfig := Quoted("Num_Devices", Decimal(|s.rows|));
    mbconfig := mbconfig + "\n" + Quoted("Polling_Period", Decimal(s.polling));
    mbconfig := mbconfig + "\n" + Quoted("Timeout", Decimal(s.timeout));
    ghost var lines := HeadLines(s);
    HeadJoined(s);
    var deviceCounter := 0;
    while deviceCounter < |s.rows|
      invariant 0 <= deviceCounter <= |s.rows|
      invariant forall i :: 0 <= i < deviceCounter ==> AddressText(s.rows[i]).Some?
      invariant |lines| > 0 && mbconfig == Joined(lines)
      invariant Printable(s) ==> lines == ConfigLines(s, deviceCounter)
    {
      hide Joined, HeadLines;
      var row := s.rows[deviceCounter];
      if AddressText(row) == None {
        printed := false;
        return;
      }
      mbconfig := PrintDevice(row, deviceCounter, mbconfig, lines);
      lines := lines + DeviceLines(row, deviceCounter);
      deviceCounter := deviceCounter + 1;
    }
    printed, file := true, Encoded(mbconfig);
  }

  lemma HeadJoined(s: Settings)
    ensures var h := HeadLines(s);
      Joined(h) == h[0] + "\n" + h[1] + "\n" + h[2]
  {
    hide Quoted;
    var h := HeadLines(s);
    assert h == [h[0]] + [h[1]] + [h[2]];
    JoinedSnoc([h[0]], h[1]);
    JoinedSnoc([h[0]] + [h[1]], h[2]);
  }

  method PrintDevice(row: Row, i: nat, before: string, ghost lines: seq<string>) returns (mbconfig: string)
    requires AddressText(row).Some? && |lines| > 0 && before == Joined(lines)
    ensures mbconfig == Joined(lines + DeviceLines(row, i))
  {
    hide AddressText, DeviceLine, Quoted, ValueText, Joined;
    ghost var head := [RULE, "#   DEVICE " + Decimal(i), RULE];
    mbconfig := before + "\n" + RULE + "\n" + ("#   DEVICE " + Decimal(i)) + "\n" + RULE;
    JoinedSnoc(lines, RULE);
    JoinedSnoc(lines + [RULE], "#   DEVICE " + Decimal(i));
    JoinedSnoc(lines + [RULE] + ["#   DEVICE " + Decimal(i)], RULE);
    assert lines + [RULE] + ["#   DEVICE " + Decimal(i)] + [RULE] == lines + head + [];
    var k := 0;
    while k < |KEYS|
      invariant 0 <= k <= |KEYS| && mbconfig == Joined(lines + head + KeyLines(row, i, k))
    {
      var line := DeviceLine(i, KEYS[k], ValueText(row, KEYS[k]));
      ghost var printed := lines + head + KeyLines(row, i, k);
      mbconfig := mbconfig + "\n" + line;
      JoinedSnoc(printed, line);
      k := k + 1;
      if k == 10 || k == |KEYS| {
        mbconfig := mbconfig + "\n" + "";
        JoinedSnoc(printed + [line], "");
        assert printed + [line] + [""] == lines + head + KeyLines(row, i, k);
      } else {
        assert printed + [line] == lines + head + KeyLines(row, i, k);
      }
    }
    assert lines + head + KeyLines(row, i, k) == lines + DeviceLines(row, i);
  }

  // --------------------------------------------------------------------------
  // Parsing
  // --------------------------------------------------------------------------

  const MB_TCP := 1
  const MB_RTU := 2

  /** struct MB_device, as calloc leaves it: a protocol of 0 is neither TCP nor RTU */
  datatype Device = Device(name: string, protocol: nat, address: string, ipPort: nat, baudRate: int, parity: char,
    dataBits: int, stopBits: int, txPause: int, id: nat, diStart: nat, diSize: nat, coilStart: nat, coilSize: nat,
    irStart: nat, irSize: nat, hrReadStart: nat, hrReadSize: nat, hrStart: nat, hrSize: nat)

  const CLEARED := Device("", 0, "", 0, 0, '\0', 0, 0, 0, 0, 0, 0, 0, 0, 0, 0, 0, 0, 0, 0)

  datatype Config = Config(devices: seq<Device>, pollingPeriod: nat, timeout: nat)

  const DEFAULTS := Config([], 100, 1000)

  // The buffers of the parser
  const LINE_BUFFER := 1024
  const NUMBER_BUFFER := 5
  const KEYWORD_BUFFER := 100
  const COUNT_BUFFER := 5
  const SETTING_BUFFER := 10

  /** The buffer, or the field itself, that the text of a key is copied to, terminator included */
  function Capacity(k: Key): (n: nat)
    ensures n > 0
  {
    match k
    case Name | Address => 100
    case SlaveId | Protocol => 5
    case IpPort | DataBits => 6
    case Parity => 3
    case StopBits => 20
    case _ => 10
  }

  predicate IsText(k: Key) {
    k.Name? || k.Address? || k.Parity? || k.Protocol?
  }

  /** The text fits its buffer, and a number in it fits an int. */
  predicate Storable(k: Key, data: string) {
    |data| < Capacity(k) && (IsText(k) || -0x8000_0000 <= Atoi(data) < 0x8000_0000)
  }

  /** Conversion to uint16_t and uint8_t */
  function Word(n: int): nat { n % 0x10000 }
  function Byte(n: int): nat { n % 0x100 }

  /** The text between two separators: behind the first one, up to the second one or the end */
  function Data(line: string, separator: char): string {
    var i := IndexOf(line, separator);
    if i == |line| then ""
    else
      var tail := line[i + 1..];
      tail[..IndexOf(tail, separator)]
  }

  /** The text goes to a buffer of a given size, terminator included; inside is false when it does not fit. */
  method GetData(line: string, separator: char, capacity: nat) returns (inside: bool, buf: string)
    requires capacity > 0
    ensures inside == (|Data(line, separator)| < capacity)
    ensures inside ==> buf == Data(line, separator)
  {
    hide IndexOf;
    var i := 0;
    inside, buf := true, "";
    while i < |line| && line[i] != separator
      invariant 0 <= i <= |line| && forall k :: 0 <= k < i ==> line[k] != separator
    {
      i := i + 1;
    }
    IndexIs(line, separator, i);
    i := i + 1;
    if i > |line| {
      return;
    }
    ghost var tail := line[i..];
    ghost var from := i;
    while i < |line| && line[i] != separator
      invariant from <= i <= |line| && buf == tail[..i - from] && i - from < capacity
      invariant forall k :: 0 <= k < i - from ==> tail[k] != separator
    {
      if |buf| + 1 == capacity {
        inside := false;
        NotBefore(tail, separator, i - from);
        return;
      }
      buf := buf + [line[i]];
      i := i + 1;
    }
    IndexIs(tail, separator, i - from);
  }

  /** The digits between "device" and the point */
  function DeviceNumber(line: string): Option<int> {
    if |line| < 6 then None
    else
      var tail := line[6..];
      var i := IndexOf(tail, '.');
      if i == 0 || i == |tail| || i >= NUMBER_BUFFER then None else Some(Atoi(tail[..i]))
  }

  predicate EndsKeyword(c: char) {
    c == ' ' || c == '=' || c == '('
  }

  function KeywordLength(s: string): (n: nat)
    ensures n <= |s| && (n < |s| ==> EndsKeyword(s[n])) && forall k :: 0 <= k < n ==> !EndsKeyword(s[k])
  {
    if |s| == 0 || EndsKeyword(s[0]) then 0 else 1 + KeywordLength(s[1..])
  }

  /** The keyword behind the first point of the line */
  function Function(line: string): Option<string> {
    var i := IndexOf(line, '.');
    if i == |line| then None
    else
      var tail := line[i + 1..];
      var n := KeywordLength(tail);
      if n == 0 || n == |tail| || n >= KEYWORD_BUFFER then None else Some(tail[..n])
  }

  /** The chain of prefix tests */
  function KeyOf(f: string): Option<Key> {
    if Keyword(Name) <= f then Some(Name)
    else if Keyword(Protocol) <= f then Some(Protocol)
    else if Keyword(SlaveId) <= f then Some(SlaveId)
    else if Keyword(Address) <= f then Some(Address)
    else if Keyword(IpPort) <= f then Some(IpPort)
    else if Keyword(BaudRate) <= f then Some(BaudRate)
    else if Keyword(Parity) <= f then Some(Parity)
    else if Keyword(DataBits) <= f then Some(DataBits)
    else if Keyword(StopBits) <= f then Some(StopBits)
    else if Keyword(TxPause) <= f then Some(TxPause)
    else if Keyword(DiStart) <= f then Some(DiStart)
    else if Keyword(DiSize) <= f then Some(DiSize)
    else if Keyword(CoilStart) <= f then Some(CoilStart)
    else if Keyword(CoilSize) <= f then Some(CoilSize)
    else if Keyword(IrStart) <= f then Some(IrStart)
    else if Keyword(IrSize) <= f then Some(IrSize)
    else if Keyword(HrReadStart) <= f then Some(HrReadStart)
    else if Keyword(HrReadSize) <= f then Some(HrReadSize)
    else if Keyword(HrStart) <= f then Some(HrStart)
    else if Keyword(HrSize) <= f then Some(HrSize)
    else None
  }

  /** A device after a line with this key and this text */
  function Set(d: Device, k: Key, data: string): Device {
    var n := Atoi(data);
    match k
    case Name => d.(name := data)
    case SlaveId => d.(id := Byte(n))
    case Protocol => if "TCP" <= data then d.(protocol := MB_TCP) else if "RTU" <= data then d.(protocol := MB_RTU) else d
    case Address => d.(address := data)
    case IpPort => d.(ipPort := Word(n))
    case BaudRate => d.(baudRate := n)
    case Parity => d.(parity := if data == "" then '\0' else data[0])
    case DataBits => d.(dataBits := n)
    case StopBits => d.(stopBits := n)
    case TxPause => d.(txPause := n)
    case DiStart => d.(diStart := Word(n))
    case DiSize => d.(diSize := Word(n))
    case CoilStart => d.(coilStart := Word(n))
    case CoilSize => d.(coilSize := Word(n))
    case IrStart => d.(irStart := Word(n))
    case IrSize => d.(irSize := Word(n))
    case HrReadStart => d.(hrReadStart := Word(n))
    case HrReadSize => d.(hrReadSize := Word(n))
    case HrStart => d.(hrStart := Word(n))
    case HrSize => d.(hrSize := Word(n))
  }

  function ParseDevice(line: string, c: Config): Option<Config> {
    match (DeviceNumber(line), Function(line))
    case (Some(i), Some(f)) =>
      (match KeyOf(f)
       case None => Some(c)
       case Some(k) =>
         if 0 <= i < |c.devices| && Storable(k, Data(line, '"')) then
           Some(c.(devices := c.devices[i := Set(c.devices[i], k, Data(line, '"'))]))
         else None)
    case _ => None
  }

  function ParseLine(line: string, c: Config): Option<Config> {
    ParseText(CString(line), c)
  }

  function ParseText(line: string, c: Config): Option<Config> {
    var data := Data(line, '"');
    if line != "" && line[0] == '#' then Some(c)
    else if |line| >= LINE_BUFFER then None
    else if |line| <= 1 then Some(c)
    else if "Num_Devices" <= line then
      if |data| < COUNT_BUFFER then Some(c.(devices := seq(Byte(Atoi(data)), _ => CLEARED))) else None
    else if "Polling_Period" <= line then
      if |data| < SETTING_BUFFER then Some(c.(pollingPeriod := Word(Atoi(data)))) else None
    else if "Timeout" <= line then
      if |data| < SETTING_BUFFER then Some(c.(timeout := Word(Atoi(data)))) else None
    else if "device" <= line then ParseDevice(line, c)
    else Some(c)
  }

  function ParseLines(lines: seq<string>, c: Config): Option<Config> {
    if |lines| == 0 then Some(c)
    else
      match ParseLine(lines[0], c)
      case None => None
      case Some(c') => ParseLines(lines[1..], c')
  }

  /** getline() to the end of a text; a last line that is empty is not one */
  function GetLines(text: string): seq<string>
    decreases |text|
  {
    if |text| == 0 then []
    else
      var i := IndexOf(text, '\n');
      if i == |text| then [text] else [text[..i]] + GetLines(text[i + 1..])
  }

  function Parsed(text: string): Option<Config> {
    ParseLines(GetLines(text), DEFAULTS)
  }

  method GetDeviceNumber(line: string) returns (inside: bool, n: int)
    ensures DeviceNumber(line) == if inside then Some(n) else None
  {
    hide IndexOf, Atoi;
    inside, n := false, 0;
    if |line| < 6 {
      return;
    }
    ghost var tail := line[6..];
    var j, temp := 6, "";
    while j < |line| && line[j] != '.'
      invariant 6 <= j <= |line| && temp == tail[..j - 6] && forall k :: 0 <= k < j - 6 ==> tail[k] != '.'
      invariant |temp| < NUMBER_BUFFER
    {
      if |temp| + 1 == NUMBER_BUFFER {
        NotBefore(tail, '.', j - 6);
        return;
      }
      temp := temp + [line[j]];
      j := j + 1;
    }
    IndexIs(tail, '.', j - 6);
    if temp != "" && j < |line| {
      inside, n := true, Atoi(temp);
    }
  }

  method GetFunction(line: string) returns (inside: bool, parameter: string)
    ensures Function(line) == if inside then Some(parameter) else None
  {
    hide IndexOf;
    inside, parameter := false, "";
    var j := 0;
    while j < |line| && line[j] != '.'
      invariant 0 <= j <= |line| && forall k :: 0 <= k < j ==> line[k] != '.'
    {
      j := j + 1;
    }
    IndexIs(line, '.', j);
    if j == |line| {
      return;
    }
    j := j + 1;
    ghost var from, tail := j, line[j..];
    while j < |line| && !EndsKeyword(line[j])
      invariant from <= j <= |line| && parameter == tail[..j - from]
      invariant |parameter| < KEYWORD_BUFFER && forall k :: 0 <= k < j - from ==> !EndsKeyword(tail[k])
    {
      if |parameter| + 1 == KEYWORD_BUFFER {
        return;
      }
      parameter := parameter + [line[j]];
      j := j + 1;
    }
    inside := parameter != "" && j < |line|;
  }

  /** What parseConfig does with one line */
  method HandleLine(line: string, c: Config) returns (inside: bool, c': Config)
    ensures ParseLine(line, c) == if inside then Some(c') else None
  {
    hide Data, ParseDevice, Atoi, CString;
    inside, c' := true, c;
    var data;
    var lineStr := CString(line);
    if lineStr == "" || lineStr[0] == '#' {
      return;
    }
    if |lineStr| >= LINE_BUFFER {
      inside := false;
    } else if |lineStr| > 1 {
      if "Num_Devices" <= lineStr {
        inside, data := GetData(lineStr, '"', COUNT_BUFFER);
        if inside {
          c' := c.(devices := seq(Byte(Atoi(data)), _ => CLEARED));
        }
      } else if "Polling_Period" <= lineStr {
        inside, data := GetData(lineStr, '"', SETTING_BUFFER);
        if inside {
          c' := c.(pollingPeriod := Word(Atoi(data)));
        }
      } else if "Timeout" <= lineStr {
        inside, data := GetData(lineStr, '"', SETTING_BUFFER);
        if inside {
          c' := c.(timeout := Word(Atoi(data)));
        }
      } else if "device" <= lineStr {
        inside, c' := HandleDevice(lineStr, c);
      }
    }
  }

  /** A line of a device: the number, the keyword, and the text into the buffer of its field */
  method HandleDevice(line: string, c: Config) returns (inside: bool, c': Config)
    ensures ParseDevice(line, c) == if inside then Some(c') else None
  {
    hide Data, DeviceNumber, Function, KeyOf, Set, Atoi;
    c' := c;
    var i, f, data;
    inside, i := GetDeviceNumber(line);
    if !inside {
      return;
    }
    inside, f := GetFunction(line);
    if !inside || KeyOf(f) == None {
      return;
    }
    var k := KeyOf(f).value;
    inside := 0 <= i < |c.devices|;
    if inside {
      inside, data := GetData(line, '"', Capacity(k));
      inside := inside && Storable(k, data);
      if inside {
        c' := c.(devices := c.devices[i := Set(c.devices[i], k, data)]);
      }
    }
  }

  lemma GetLinesStep(text: string)
    requires text != ""
    ensures var i := IndexOf(text, '\n');
      GetLines(text) == [text[..i]] + GetLines(if i == |text| then "" else text[i + 1..])
  {
    hide IndexOf;
    assert text[..|text|] == text;
  }

  lemma ParseLinesStep(line: string, more: seq<string>, c: Config)
    ensures ParseLines([line] + more, c)
         == match ParseLine(line, c) case None => None case Some(c') => ParseLines(more, c')
  {
    hide ParseLine;
    assert ([line] + more)[1..] == more;
  }

  /** parseConfig(): line by line */
  method ParseConfig(text: string) returns (inside: bool, c: Config)
    ensures Parsed(text) == if inside then Some(c) else None
  {
    hide ParseLine, IndexOf, GetLines, ParseLines;
    inside, c := true, DEFAULTS;
    var rest := text;
    while rest != ""
      invariant inside && Parsed(text) == ParseLines(GetLines(rest), c)
      decreases |rest|
    {
      var i := 0;
      while i < |rest| && rest[i] != '\n'
        invariant 0 <= i <= |rest| && forall k :: 0 <= k < i ==> rest[k] != '\n'
      {
        i := i + 1;
      }
      IndexIs(rest, '\n', i);
      GetLinesStep(rest);
      var line := rest[..i];
      rest := if i == |rest| then "" else rest[i + 1..];
      ParseLinesStep(line, GetLines(rest), c);
      inside, c := HandleLine(line, c);
      if !inside {
        return;
      }
    }
    NoLines(c);
  }

  lemma NoLines(c: Config)
    ensures ParseLines(GetLines(""), c) == Some(c)
  {
  }
}
