/**
 From the database to the parsed configuration, through the bytes of the file: exactly when all of it
 comes back.
 */
module MbConfigFile {
  import opened Options
  import opened Text
  import opened Utf8
  import opened MbConfig
  import opened MbConfigLaws

  /** A row with its texts in UTF-8; a COM port is a number to the printer. */
  function RowInBytes(row: Row): Row {
    row.(name := Encoded(row.name), parity := Encoded(row.parity), ip := Encoded(row.ip),
         comPort := if "COM" <= row.comPort then row.comPort else Encoded(row.comPort))
  }

  function InBytes(s: Settings): Settings {
    s.(rows := seq(|s.rows|, i requires 0 <= i < |s.rows| => RowInBytes(s.rows[i])))
  }

  function EncodedLines(lines: seq<string>): seq<string> {
    seq(|lines|, k requires 0 <= k < |lines| => Encoded(lines[k]))
  }

  lemma EncodedPort(port: string)
    requires "COM" <= Encoded(port)
    ensures "COM" <= port
  {
    hide Encoding;
    var bytes := Encoded(port);
    assert bytes[0] == 'C' && bytes[1] == 'O' && bytes[2] == 'M';
    EncodedFirst(port);
    EncodedFirst(port[1..]);
    EncodedFirst(port[2..]);
    assert port[1..][1..] == port[2..];
  }

  lemma EncodedFirst(s: string)
    requires |Encoded(s)| > 0 && Encoded(s)[0] as int < 0x80
    ensures |s| > 0 && s[0] == Encoded(s)[0] && Encoded(s) == [s[0]] + Encoded(s[1..])
  {
  }

  lemma DecimalAscii(n: nat)
    ensures IsAscii(Decimal(n)) && Encoded(Decimal(n)) == Decimal(n)
  {
    hide Decimal;
    EncodedAscii(Decimal(n));
  }

  lemma AddressInBytes(row: Row)
    requires AddressText(row).Some?
    ensures AddressText(RowInBytes(row)) == Some(Encoded(AddressText(row).value))
  {
    hide Encoded, SecondPart, ParseInt, Decimal;
    if !IsTcp(row) {
      if "COM" <= row.comPort {
        EncodedAscii(AddressText(row).value);
      } else if "COM" <= Encoded(row.comPort) {
        EncodedPort(row.comPort);
      }
    }
  }

  lemma ValueInBytes(row: Row, k: Key)
    requires AddressText(row).Some?
    ensures AddressText(RowInBytes(row)).Some?
    ensures ValueText(RowInBytes(row), k) == Encoded(ValueText(row, k))
  {
    hide Encoded, AddressText, Decimal;
    AddressInBytes(row);
    forall n: nat
      ensures Encoded(Decimal(n)) == Decimal(n)
    {
      DecimalAscii(n);
    }
    EncodedAscii("TCP");
    EncodedAscii("RTU");
  }

  lemma WordAscii(w: string)
    requires IsWord(w)
    ensures IsAscii(w)
  {
  }

  lemma OpenedInBytes(key: string, rest: string)
    requires IsAscii(key)
    ensures Encoded(Opened(key, rest)) == Opened(key, Encoded(rest))
  {
    hide Encoded;
    EncodedJoined(key, " = \"" + rest);
    EncodedJoined(" = \"", rest);
    EncodedAscii(key);
    EncodedAscii(" = \"");
  }

  lemma DeviceLineInBytes(i: nat, k: Key, value: string)
    ensures Encoded(DeviceLine(i, k, value)) == DeviceLine(i, k, Encoded(value))
  {
    hide Encoded, Decimal, Keyword, IsWord;
    KeywordIsWord(k);
    WordAscii(Keyword(k));
    DecimalAscii(i);
    var key := "device" + Decimal(i) + "." + Keyword(k);
    assert DeviceLine(i, k, value) == Opened(key, value + "\"");
    assert DeviceLine(i, k, Encoded(value)) == Opened(key, Encoded(value) + "\"");
    OpenedInBytes(key, value + "\"");
    EncodedJoined(value, "\"");
    EncodedAscii("\"");
  }

  lemma {:induction false} KeyLinesInBytes(row: Row, i: nat, k: nat)
    requires AddressText(row).Some? && k <= |KEYS|
    ensures AddressText(RowInBytes(row)).Some?
    ensures EncodedLines(KeyLines(row, i, k)) == KeyLines(RowInBytes(row), i, k)
    decreases k
  {
    hide DeviceLine, ValueText, AddressText, Encoded, RowInBytes;
    AddressInBytes(row);
    if k > 0 {
      KeyLinesInBytes(row, i, k - 1);
      ValueInBytes(row, KEYS[k - 1]);
      DeviceLineInBytes(i, KEYS[k - 1], ValueText(row, KEYS[k - 1]));
      EncodedAscii("");
    }
  }

  lemma HeadInBytes(s: Settings, i: nat)
    ensures EncodedLines(HeadLines(s)) == HeadLines(InBytes(s))
    ensures EncodedLines([RULE, "#   DEVICE " + Decimal(i), RULE]) == [RULE, "#   DEVICE " + Decimal(i), RULE]
  {
    hide Encoded, Decimal;
    forall n: nat
      ensures IsAscii(Decimal(n))
    {
      DecimalAscii(n);
    }
    EncodedAscii(HeadLines(s)[0]);
    EncodedAscii(HeadLines(s)[1]);
    EncodedAscii(HeadLines(s)[2]);
    EncodedAscii(RULE);
    EncodedAscii("#   DEVICE " + Decimal(i));
  }

  lemma {:induction false} ConfigInBytes(s: Settings, n: nat)
    requires Printable(s) && n <= |s.rows|
    ensures Printable(InBytes(s)) && EncodedLines(ConfigLines(s, n)) == ConfigLines(InBytes(s), n)
    decreases n
  {
    hide HeadLines, DeviceLines, AddressText, EncodedLines, RowInBytes;
    PrintableInBytes(s);
    if n == 0 {
      HeadInBytes(s, 0);
    } else {
      ConfigInBytes(s, n - 1);
      DeviceLinesInBytes(s, n - 1);
      LinesInBytes(ConfigLines(s, n - 1), DeviceLines(s.rows[n - 1], n - 1));
    }
  }

  lemma PrintableInBytes(s: Settings)
    requires Printable(s)
    ensures Printable(InBytes(s))
  {
    hide AddressText, RowInBytes;
    forall i | 0 <= i < |s.rows|
      ensures AddressText(RowInBytes(s.rows[i])).Some?
    {
      AddressInBytes(s.rows[i]);
    }
  }

  lemma LinesInBytes(a: seq<string>, b: seq<string>)
    ensures EncodedLines(a + b) == EncodedLines(a) + EncodedLines(b)
  {
  }

  lemma DeviceLinesInBytes(s: Settings, i: nat)
    requires Printable(s) && Printable(InBytes(s)) && i < |s.rows|
    ensures EncodedLines(DeviceLines(s.rows[i], i)) == DeviceLines(InBytes(s).rows[i], i)
  {
    hide HeadLines, KeyLines, AddressText, EncodedLines, RowInBytes, RULE;
    HeadInBytes(s, i);
    KeyLinesInBytes(s.rows[i], i, |KEYS|);
    LinesInBytes([RULE, "#   DEVICE " + Decimal(i), RULE], KeyLines(s.rows[i], i, |KEYS|));
  }

  lemma {:induction false} JoinedInBytes(lines: seq<string>)
    ensures Encoded(Joined(lines)) == Joined(EncodedLines(lines))
    decreases |lines|
  {
    hide Encoded;
    if |lines| == 0 {
      EncodedAscii("");
    } else if |lines| > 1 {
      var n := |lines| - 1;
      assert EncodedLines(lines)[..n] == EncodedLines(lines[..n]);
      JoinedInBytes(lines[..n]);
      EncodedAscii("\n");
      EncodedJoined(Joined(lines[..n]), "\n");
      EncodedJoined(Joined(lines[..n]) + "\n", lines[n]);
    }
  }

  lemma FileInBytes(s: Settings)
    requires Printable(s)
    ensures Printable(InBytes(s)) && FileOf(s) == Joined(ConfigLines(InBytes(s), |s.rows|))
  {
    hide Printable, Joined, ConfigLines, Encoded, EncodedLines;
    ConfigInBytes(s, |s.rows|);
    JoinedInBytes(ConfigLines(s, |s.rows|));
  }

  lemma CleanInBytes(text: string)
    requires Clean(text)
    ensures Clean(Encoded(text))
  {
    hide Encoded;
    EncodedHas(text, '"');
    EncodedHas(text, '\n');
    assert '"' !in text && '\n' !in text;
  }

  lemma RowsInBytes(s: Settings)
    requires CleanRows(s)
    ensures CleanRows(InBytes(s))
  {
    hide Clean, AddressText, Encoded;
    forall i | 0 <= i < |s.rows|
      ensures CleanRow(RowInBytes(s.rows[i]))
    {
      var row := s.rows[i];
      assert CleanRow(row);
      AddressInBytes(row);
      CleanInBytes(row.name);
      CleanInBytes(row.parity);
      CleanInBytes(AddressText(row).value);
    }
  }

  /** What the web server writes, the parser reads back, every device with every field and in order, if and
      only if there are fewer than 256 devices, the bytes of every text fit its buffer and every number its
      field. */
  lemma PrintedIsParsedIff(s: Settings)
    requires CleanRows(s)
    ensures CleanRows(InBytes(s))
    ensures Parsed(FileOf(s)) == Some(ReadAll(InBytes(s))) <==> SettingsFit(InBytes(s))
  {
    hide Parsed, FileOf, Joined, ConfigLines, AddressText, RowInBytes, SettingsFit, ReadAll;
    RowsInBytes(s);
    FileInBytes(s);
    BytesParsedIff(InBytes(s));
  }

  /** A COM port is found by its number, which counts from 0 for a serial device. */
  lemma PortOfNumber(port: string, n: nat)
    requires port == "COM" + Decimal(n) && n >= 1
    ensures PortName(port) == Some("/dev/ttyS" + Decimal(n - 1))
  {
    hide ParseInt, Decimal, Find;
    ParseIntOfDecimal(n);
    var digits := Decimal(n);
    assert MatchesAt(port, 0, "COM") by {
      assert port[0..3] == "COM";
    }
    assert port[3..] == digits;
    forall k: nat
      ensures !MatchesAt(digits, k, "COM")
    {
      if k + 3 <= |digits| {
        assert digits[k..k + 3][0] == digits[k];
      }
    }
  }

  /** A port that begins with COM and has no number behind it raises an exception, and nothing else does. */
  lemma PrintableMeans(s: Settings)
    ensures Printable(s) <==> forall i :: 0 <= i < |s.rows| ==>
      || s.rows[i].devType in ["TCP", "ESP32", "ESP8266"]
      || !("COM" <= s.rows[i].comPort)
      || (SecondPart(s.rows[i].comPort, "COM").Some? && ParseInt(SecondPart(s.rows[i].comPort, "COM").value).Some?)
  {
    hide ParseInt, SecondPart, Decimal;
    assert forall i :: 0 <= i < |s.rows| ==>
      (AddressText(s.rows[i]).Some? <==>
       || s.rows[i].devType in ["TCP", "ESP32", "ESP8266"] || !("COM" <= s.rows[i].comPort)
       || (SecondPart(s.rows[i].comPort, "COM").Some? && ParseInt(SecondPart(s.rows[i].comPort, "COM").value).Some?));
  }

  /** What the parsed device has of a row, field by field */
  ghost predicate Comes(row: Row, d: Device) {
    && d.name == Encoded(row.name) && d.id == row.slaveId
    && (row.devType in ["TCP", "ESP32", "ESP8266"] ==> d.protocol == 1 && d.address == Encoded(row.ip))
    && (row.devType !in ["TCP", "ESP32", "ESP8266"] ==>
          && d.protocol == 2
          && (forall n: nat :: n >= 1 && row.comPort == "COM" + Decimal(n) ==> d.address == "/dev/ttyS" + Decimal(n - 1))
          && (!("COM" <= row.comPort) ==> d.address == Encoded(row.comPort)))
    && d.ipPort == row.ipPort && d.baudRate == row.baudRate && d.dataBits == row.dataBits && d.stopBits == row.stopBits
    && d.parity == (if row.parity == "" then '\0' else Encoded(row.parity)[0]) && d.txPause == row.txPause
    && d.diStart == row.diStart && d.diSize == row.diSize && d.coilStart == row.coilStart && d.coilSize == row.coilSize
    && d.irStart == row.irStart && d.irSize == row.irSize
    && d.hrReadStart == row.hrReadStart && d.hrReadSize == row.hrReadSize
    && d.hrStart == row.hrStart && d.hrSize == row.hrSize
  }

  /** Of a configuration that fits, the parsed file has every row, in order and field by field: among them the
      protocol by the type, the IP address or the serial device by it, and COM ports counted from 0. */
  lemma RowsComeBack(s: Settings)
    requires CleanRows(s) && CleanRows(InBytes(s)) && SettingsFit(InBytes(s))
    ensures Parsed(FileOf(s)).Some?
    ensures var c := Parsed(FileOf(s)).value;
      && |c.devices| == |s.rows| && c.pollingPeriod == s.polling && c.timeout == s.timeout
      && forall i :: 0 <= i < |s.rows| ==> Comes(s.rows[i], c.devices[i])
  {
    hide Parsed, FileOf, SettingsFit, AddressText, RowInBytes, Read, Comes;
    PrintedIsParsedIff(s);
    forall i | 0 <= i < |s.rows|
      ensures AddressText(RowInBytes(s.rows[i])).Some? && Comes(s.rows[i], Read(RowInBytes(s.rows[i])))
    {
      RowComes(s.rows[i]);
    }
  }

  lemma RowComes(row: Row)
    requires AddressText(row).Some?
    ensures AddressText(RowInBytes(row)).Some? && Comes(row, Read(RowInBytes(row)))
  {
    hide Encoded, SecondPart, ParseInt, Decimal;
    AddressInBytes(row);
    NothingEncoded(row.parity);
    forall n: nat | n >= 1 && row.comPort == "COM" + Decimal(n)
      ensures PortName(row.comPort) == Some("/dev/ttyS" + Decimal(n - 1))
      ensures Encoded("/dev/ttyS" + Decimal(n - 1)) == "/dev/ttyS" + Decimal(n - 1)
    {
      PortOfNumber(row.comPort, n);
      DecimalAscii(n - 1);
      EncodedAscii("/dev/ttyS" + Decimal(n - 1));
    }
  }

  lemma NothingEncoded(text: string)
    ensures Encoded(text) == "" <==> text == ""
  {
  }

  function Written(i: nat, field: string, value: string): string {
    "device" + Decimal(i) + "." + field + " = \"" + value + "\""
  }

  lemma HeadWritten(s: Settings)
    ensures HeadLines(s) == ["Num_Devices = \"" + Decimal(|s.rows|) + "\"",
                             "Polling_Period = \"" + Decimal(s.polling) + "\"",
                             "Timeout = \"" + Decimal(s.timeout) + "\""]
  {
    hide Decimal;
    assert "Num_Devices" + " = \"" == "Num_Devices = \"" && "Timeout" + " = \"" == "Timeout = \"";
    assert "Polling_Period" + " = \"" == "Polling_Period = \"";
    QuotedText("Num_Devices", Decimal(|s.rows|));
    QuotedText("Polling_Period", Decimal(s.polling));
    QuotedText("Timeout", Decimal(s.timeout));
  }

  lemma QuotedText(key: string, value: string)
    ensures Quoted(key, value) == key + " = \"" + value + "\""
  {
  }

  /** The lines of a device: its heading and a line for every field, with an empty one behind the tenth and the last */
  lemma HeadingWritten(row: Row, i: nat)
    requires AddressText(row).Some?
    ensures var lines := DeviceLines(row, i);
      && |lines| == 25 && lines[..3] == ["# ------------", "#   DEVICE " + Decimal(i), "# ------------"]
      && lines[13] == lines[24] == ""
  {
    hide AddressText, KeyLines, Decimal;
    KeyLinesAt(row, i, |KEYS|);
  }

  lemma AddressLinesWritten(row: Row, i: nat, lines: seq<string>)
    requires AddressText(row).Some? && lines == DeviceLines(row, i)
    ensures |lines| == 25
    ensures lines[3] == Written(i, "name", row.name)
    ensures lines[4] == Written(i, "slave_id", Decimal(row.slaveId))
    ensures lines[5] == Written(i, "protocol", (if row.devType in ["TCP", "ESP32", "ESP8266"] then "TCP" else "RTU"))
    ensures lines[6] == Written(i, "address", AddressText(row).value)
  {
    hide Decimal, AddressText, DeviceLines, Written;
    HeadingWritten(row, i);
    KeyLine(row, i, 0, Name);
    KeyLine(row, i, 1, SlaveId);
    KeyLine(row, i, 2, Protocol);
    KeyLine(row, i, 3, Address);
  }

  lemma SerialLinesWritten(row: Row, i: nat, lines: seq<string>)
    requires AddressText(row).Some? && lines == DeviceLines(row, i)
    ensures |lines| == 25
    ensures lines[7] == Written(i, "IP_Port", Decimal(row.ipPort))
    ensures lines[8] == Written(i, "RTU_Baud_Rate", Decimal(row.baudRate))
    ensures lines[9] == Written(i, "RTU_Parity", row.parity)
    ensures lines[10] == Written(i, "RTU_Data_Bits", Decimal(row.dataBits))
    ensures lines[11] == Written(i, "RTU_Stop_Bits", Decimal(row.stopBits))
    ensures lines[12] == Written(i, "RTU_TX_Pause", Decimal(row.txPause))
  {
    hide Decimal, AddressText, DeviceLines, Written, IsTcp;
    HeadingWritten(row, i);
    KeyLine(row, i, 4, IpPort);
    KeyLine(row, i, 5, BaudRate);
    KeyLine(row, i, 6, Parity);
    KeyLine(row, i, 7, DataBits);
    KeyLine(row, i, 8, StopBits);
    KeyLine(row, i, 9, TxPause);
  }

  lemma RegisterLinesWritten(row: Row, i: nat, lines: seq<string>)
    requires AddressText(row).Some? && lines == DeviceLines(row, i)
    ensures |lines| == 25
    ensures lines[14] == Written(i, "Discrete_Inputs_Start", Decimal(row.diStart))
    ensures lines[15] == Written(i, "Discrete_Inputs_Size", Decimal(row.diSize))
    ensures lines[16] == Written(i, "Coils_Start", Decimal(row.coilStart))
    ensures lines[17] == Written(i, "Coils_Size", Decimal(row.coilSize))
    ensures lines[18] == Written(i, "Input_Registers_Start", Decimal(row.irStart))
    ensures lines[19] == Written(i, "Input_Registers_Size", Decimal(row.irSize))
    ensures lines[20] == Written(i, "Holding_Registers_Read_Start", Decimal(row.hrReadStart))
    ensures lines[21] == Written(i, "Holding_Registers_Read_Size", Decimal(row.hrReadSize))
    ensures lines[22] == Written(i, "Holding_Registers_Start", Decimal(row.hrStart))
    ensures lines[23] == Written(i, "Holding_Registers_Size", Decimal(row.hrSize))
  {
    hide Decimal, AddressText, DeviceLines, Written, IsTcp;
    HeadingWritten(row, i);
    KeyLine(row, i, 10, DiStart);
    KeyLine(row, i, 11, DiSize);
    KeyLine(row, i, 12, CoilStart);
    KeyLine(row, i, 13, CoilSize);
    KeyLine(row, i, 14, IrStart);
    KeyLine(row, i, 15, IrSize);
    KeyLine(row, i, 16, HrReadStart);
    KeyLine(row, i, 17, HrReadSize);
    KeyLine(row, i, 18, HrStart);
    KeyLine(row, i, 19, HrSize);
  }

  lemma KeyLine(row: Row, i: nat, k: nat, key: Key)
    requires AddressText(row).Some? && k < |KEYS| && KEYS[k] == key
    ensures |DeviceLines(row, i)| == 25
    ensures DeviceLines(row, i)[if k < 10 then k + 3 else k + 4] == Written(i, Keyword(key), ValueText(row, key))
  {
    hide AddressText, KeyLines, DeviceLine, ValueText, Decimal, Written, Keyword;
    KeyLinesAt(row, i, |KEYS|);
    LineWritten(i, key, ValueText(row, key));
  }

  lemma {:induction false} KeyLinesAt(row: Row, i: nat, n: nat)
    requires AddressText(row).Some? && n <= |KEYS|
    ensures var lines := KeyLines(row, i, n);
      && |lines| == n + (if n >= 10 then 1 else 0) + (if n == |KEYS| then 1 else 0)
      && (forall k :: 0 <= k < n ==>
            lines[if k < 10 then k else k + 1] == DeviceLine(i, KEYS[k], ValueText(row, KEYS[k])))
      && (n >= 10 ==> lines[10] == "") && (n == |KEYS| ==> lines[21] == "")
    decreases n
  {
    hide AddressText, DeviceLine, ValueText;
    if n > 0 {
      KeyLinesAt(row, i, n - 1);
    }
  }

  lemma LineWritten(i: nat, k: Key, value: string)
    ensures DeviceLine(i, k, value) == Written(i, Keyword(k), value)
  {
    hide Decimal, Keyword;
  }

  /** No two configurations that come back have the same file: the bytes determine the texts too. */
  lemma FileDeterminesTexts(a: Settings, b: Settings, i: nat)
    requires CleanRows(a) && CleanRows(b) && CleanRows(InBytes(a)) && CleanRows(InBytes(b))
    requires SettingsFit(InBytes(a)) && SettingsFit(InBytes(b)) && FileOf(a) == FileOf(b)
    ensures |a.rows| == |b.rows|
    ensures i < |a.rows| ==> a.rows[i].name == b.rows[i].name && AddressText(a.rows[i]) == AddressText(b.rows[i])
  {
    hide Parsed, FileOf, AddressText, Encoded, SettingsFit;
    PrintedIsParsedIff(a);
    PrintedIsParsedIff(b);
    assert |ReadAll(InBytes(a)).devices| == |ReadAll(InBytes(b)).devices|;
    if i < |a.rows| {
      var d, e := ReadAll(InBytes(a)).devices[i], ReadAll(InBytes(b)).devices[i];
      assert d.name == e.name && d.address == e.address;
      AddressInBytes(a.rows[i]);
      AddressInBytes(b.rows[i]);
      EncodedInjective(a.rows[i].name, b.rows[i].name);
      EncodedInjective(AddressText(a.rows[i]).value, AddressText(b.rows[i]).value);
    }
  }

  /** The parities that the form offers are all too long for the parser. */
  lemma FormParitiesFail(s: Settings, i: nat)
    requires CleanRows(s) && i < |s.rows| && s.rows[i].parity in ["None", "Even", "Odd"]
    ensures Parsed(FileOf(s)) == None
  {
    hide Parsed, FileOf, Joined, ConfigLines, AddressText, Encoded;
    RowsInBytes(s);
    FileInBytes(s);
    EncodedAscii(s.rows[i].parity);
    CStringIs(s.rows[i].parity, s.rows[i].parity);
    LongParityFails(InBytes(s), i);
  }

  lemma {:induction false} WideLength(text: string)
    requires forall k :: 0 <= k < |text| ==> text[k] as int >= 0x80
    ensures |Encoded(text)| >= 2 * |text|
    decreases |text|
  {
    if |text| > 0 {
      WideLength(text[1..]);
    }
  }

  /** Fifty characters outside ASCII are already too long for a name, and a NUL is never read back. */
  lemma NameDoesNotComeBack(s: Settings, i: nat)
    requires CleanRows(s) && i < |s.rows|
    requires var name := s.rows[i].name;
      '\0' in name || (|name| >= 50 && forall k :: 0 <= k < |name| ==> name[k] as int >= 0x80)
    ensures CleanRows(InBytes(s)) && Parsed(FileOf(s)) != Some(ReadAll(InBytes(s)))
  {
    hide Parsed, FileOf, AddressText, Encoded, ReadAll;
    PrintedIsParsedIff(s);
    EncodedHas(s.rows[i].name, '\0');
    if '\0' !in s.rows[i].name {
      WideLength(s.rows[i].name);
    }
    assert InBytes(s).rows[i].name == Encoded(s.rows[i].name);
  }
}
