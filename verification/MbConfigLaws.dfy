/**
 Which configuration files the parser reads back: exactly those whose texts, counted in bytes, fit the
 parser's buffers and whose numbers fit the fields.
 */
module MbConfigLaws {
  import opened Options
  import opened Text
  import opened MbConfig

  // --------------------------------------------------------------------------
  // What may be printed, and what must come back
  // --------------------------------------------------------------------------

  /** Without the characters that end a text or a line */
  predicate Clean(text: string) {
    forall k :: 0 <= k < |text| ==> text[k] != '"' && text[k] != '\n'
  }

  /** What escaping the fields of the form establishes, and a COM port with a number */
  predicate CleanRow(row: Row) {
    Clean(row.name) && Clean(row.parity) && AddressText(row).Some? && Clean(AddressText(row).value)
  }

  /** For a row of bytes: each text fits its buffer, terminator included, and each number its field. A name
      or an address with a NUL in it does not come back; of a parity, only the bytes before a NUL count. */
  predicate Fits(row: Row)
    requires AddressText(row).Some?
  {
    && |row.name| < 100 && '\0' !in row.name
    && |AddressText(row).value| < 100 && '\0' !in AddressText(row).value && |CString(row.parity)| < 3
    && row.slaveId < 0x100 && row.ipPort < 0x10000
    && row.baudRate < 1_000_000_000 && row.dataBits < 100_000 && row.stopBits < 0x8000_0000
    && row.txPause < 1_000_000_000
    && row.diStart < 0x10000 && row.diSize < 0x10000 && row.coilStart < 0x10000 && row.coilSize < 0x10000
    && row.irStart < 0x10000 && row.irSize < 0x10000 && row.hrReadStart < 0x10000 && row.hrReadSize < 0x10000
    && row.hrStart < 0x10000 && row.hrSize < 0x10000
  }

  /** Every field, with the type mapped to a protocol, a COM port to a device name, and the parity to its
      first byte */
  function Read(row: Row): Device
    requires AddressText(row).Some?
  {
    Device(row.name, if IsTcp(row) then MB_TCP else MB_RTU, AddressText(row).value, row.ipPort, row.baudRate,
      if row.parity == "" then '\0' else row.parity[0], row.dataBits, row.stopBits, row.txPause, row.slaveId,
      row.diStart, row.diSize, row.coilStart, row.coilSize, row.irStart, row.irSize,
      row.hrReadStart, row.hrReadSize, row.hrStart, row.hrSize)
  }

  predicate CleanRows(s: Settings) {
    forall i :: 0 <= i < |s.rows| ==> CleanRow(s.rows[i])
  }

  predicate SettingsFit(s: Settings)
    requires CleanRows(s)
  {
    && |s.rows| < 0x100 && s.polling < 0x10000 && s.timeout < 0x10000
    && forall i :: 0 <= i < |s.rows| ==> Fits(s.rows[i])
  }

  function ReadAll(s: Settings): Config
    requires CleanRows(s)
  {
    Config(seq(|s.rows|, i requires 0 <= i < |s.rows| => Read(s.rows[i])), s.polling, s.timeout)
  }

  // --------------------------------------------------------------------------
  // Lines of a text
  // --------------------------------------------------------------------------

  predicate OneLine(line: string) {
    forall k :: 0 <= k < |line| ==> line[k] != '\n'
  }

  lemma {:induction false} JoinedCons(line: string, more: seq<string>)
    requires |more| > 0
    ensures Joined([line] + more) == line + ("\n" + Joined(more))
    decreases |more|
  {
    var n := |more| - 1;
    var lines := [line] + more;
    assert lines[..|lines| - 1] == [line] + more[..n];
    if n == 0 {
      assert [line] + more[..n] == [line];
    } else {
      JoinedCons(line, more[..n]);
    }
  }

  /** Splitting joined lines gives the lines back; an empty last one is dropped, which the parser would
      have skipped. */
  lemma {:induction false} JoinedParses(lines: seq<string>, c: Config)
    requires |lines| > 0 && forall k :: 0 <= k < |lines| ==> OneLine(lines[k])
    ensures ParseLines(GetLines(Joined(lines)), c) == ParseLines(lines, c)
    decreases |lines|
  {
    hide ParseLine, IndexOf, Joined, GetLines, ParseLines;
    var line, more := lines[0], lines[1..];
    assert lines == [line] + more;
    assert OneLine(lines[0]);
    ParseLinesStep(line, more, c);
    if more == [] {
      assert lines == [line];
      SingleLine(line, c);
    } else {
      JoinedCons(line, more);
      IndexOfFirst(line, '\n', Joined(more));
      assert line + ("\n" + Joined(more)) == line + (['\n'] + Joined(more));
      GetLinesStep(Joined(lines));
      ParseLinesStep(line, GetLines(Joined(more)), c);
      if ParseLine(line, c).Some? {
        JoinedParses(more, ParseLine(line, c).value);
      }
    }
  }

  lemma SingleLine(line: string, c: Config)
    requires OneLine(line)
    ensures ParseLines(GetLines(Joined([line])), c) == ParseLines([line], c)
  {
    hide IndexOf;
    IndexIs(line, '\n', |line|);
    assert Joined([line]) == line && [line] + [] == [line];
    ParseLinesStep(line, [], c);
    if line == "" {
      assert ParseLine(line, c) == Some(c);
    } else {
      assert GetLines(line) == [line];
    }
  }

  lemma {:induction false} ParseJoined(a: seq<string>, b: seq<string>, c: Config)
    requires ParseLines(a, c).Some?
    ensures ParseLines(a + b, c) == ParseLines(b, ParseLines(a, c).value)
    decreases |a|
  {
    hide ParseLine;
    if |a| == 0 {
      assert a + b == b;
    } else {
      assert (a + b)[0] == a[0] && (a + b)[1..] == a[1..] + b;
      ParseJoined(a[1..], b, ParseLine(a[0], c).value);
    }
  }

  // --------------------------------------------------------------------------
  // One line
  // --------------------------------------------------------------------------

  /** What the C string of a line has behind the opening quotation mark of a value */
  function Ended(value: string): string {
    if '\0' in value then CString(value) else value + "\""
  }

  /** A line is cut where its value is, or not at all. */
  lemma OpenedCut(key: string, value: string)
    requires '\0' !in key
    ensures CString(Opened(key, value + "\"")) == Opened(key, Ended(value))
  {
    hide CString;
    var line, text := Opened(key, value + "\""), Opened(key, Ended(value));
    assert Ended(value) <= value + "\"";
    assert text <= line && '\0' !in text;
    if '\0' in value {
      var t := CString(value);
      assert t != value;
      assert line[|text|] == (value + "\"")[|t|];
    } else {
      assert text == line;
    }
    CStringIs(line, text);
  }

  lemma DataOfOpened(key: string, value: string)
    requires Clean(key) && Clean(value)
    ensures Data(Opened(key, Ended(value)), '"') == CString(value)
  {
    hide IndexOf, Ended;
    var line, before := Opened(key, Ended(value)), key + " = ";
    assert line == before + (['"'] + Ended(value));
    IndexOfFirst(before, '"', Ended(value));
    EndedAt(value);
  }

  lemma EndedAt(value: string)
    requires Clean(value)
    ensures Ended(value)[..IndexOf(Ended(value), '"')] == CString(value)
  {
    hide IndexOf, CString;
    if '\0' in value {
      IndexIs(CString(value), '"', |CString(value)|);
    } else {
      CStringIs(value, value);
      IndexOfFirst(value, '"', "");
      assert value + "\"" == value + (['"'] + "");
    }
  }

  lemma QuotedIsOneLine(key: string, value: string)
    requires Clean(key) && Clean(value)
    ensures OneLine(Quoted(key, value))
  {
  }

  lemma DecimalClean(n: nat)
    ensures Clean(Decimal(n)) && '\0' !in Decimal(n) && forall k :: 0 <= k < |Decimal(n)| ==> Decimal(n)[k] != '.'
  {
  }

  function At(s: string, i: nat): char {
    if i < |s| then s[i] else ' '
  }

  /** The key of a keyword by a few of its characters */
  function Identified(s: string): Key {
    match At(s, 0)
    case 'n' => Name
    case 's' => SlaveId
    case 'p' => Protocol
    case 'a' => Address
    case 'R' =>
      (match At(s, 4)
       case 'B' => BaudRate
       case 'P' => Parity
       case 'D' => DataBits
       case 'S' => StopBits
       case _ => TxPause)
    case 'D' => if At(s, 17) == 't' then DiStart else DiSize
    case 'C' => if At(s, 7) == 't' then CoilStart else CoilSize
    case 'I' => if At(s, 1) == 'P' then IpPort else if At(s, 17) == 't' then IrStart else IrSize
    case _ =>
      if At(s, 18) == 'R' then (if At(s, 24) == 't' then HrReadStart else HrReadSize)
      else if At(s, 19) == 't' then HrStart else HrSize
  }

  lemma SameFront(x: string, y: string, j: nat)
    requires x <= y && j < |x|
    ensures At(y, j) == x[j]
  {
  }

  /** No keyword starts with another one. */
  lemma PrefixIdentified(k: Key, s: string)
    requires Keyword(k) <= s
    ensures Identified(s) == k
  {
    var w := Keyword(k);
    SameFront(w, s, 0);
    SameFront(w, s, 1);
    match k {
      case BaudRate | Parity | DataBits | StopBits | TxPause => SameFront(w, s, 4);
      case CoilStart | CoilSize => SameFront(w, s, 7);
      case DiStart | DiSize | IrStart | IrSize => SameFront(w, s, 17);
      case HrStart | HrSize =>
        SameFront(w, s, 18);
        SameFront(w, s, 19);
      case HrReadStart | HrReadSize =>
        SameFront(w, s, 18);
        SameFront(w, s, 24);
      case _ =>
    }
  }

  lemma KeyOfKeyword(k: Key)
    ensures KeyOf(Keyword(k)) == Some(k)
  {
    hide Keyword, Identified;
    PrefixIdentified(k, Keyword(k));
    forall a: Key | Keyword(a) <= Keyword(k)
      ensures a == k
    {
      PrefixIdentified(a, Keyword(k));
    }
  }

  predicate IsWord(s: string) {
    |s| > 0 && forall j :: 0 <= j < |s| ==> s[j] == '_' || 'A' <= s[j] <= 'Z' || 'a' <= s[j] <= 'z'
  }

  lemma ShortKeywords(k: Key)
    requires k.Name? || k.SlaveId? || k.Protocol? || k.Address? || k.IpPort? || k.CoilStart? || k.CoilSize? || k.Parity?
    ensures IsWord(Keyword(k))
  {
  }

  lemma SerialKeywords(k: Key)
    requires k.BaudRate? || k.DataBits? || k.StopBits? || k.TxPause? || k.DiStart? || k.DiSize?
    ensures IsWord(Keyword(k))
  {
  }

  lemma RegisterKeywords(k: Key)
    requires k.IrStart? || k.IrSize? || k.HrStart? || k.HrSize?
    ensures IsWord(Keyword(k))
  {
  }

  lemma ReadKeywords(k: Key)
    requires k.HrReadStart? || k.HrReadSize?
    ensures IsWord(Keyword(k))
  {
  }

  lemma KeywordIsWord(k: Key)
    ensures IsWord(Keyword(k))
  {
    hide Keyword, IsWord;
    match k {
      case Name | SlaveId | Protocol | Address | IpPort | CoilStart | CoilSize | Parity => ShortKeywords(k);
      case BaudRate | DataBits | StopBits | TxPause | DiStart | DiSize => SerialKeywords(k);
      case HrReadStart | HrReadSize => ReadKeywords(k);
      case _ => RegisterKeywords(k);
    }
  }

  lemma WordParts(w: string, rest: string)
    requires IsWord(w)
    ensures Clean(w) && '\0' !in w && 0 < |w| < |Opened(w, rest)|
    ensures KeywordLength(Opened(w, rest)) == |w| && Opened(w, rest)[..|w|] == w
  {
    var s := Opened(w, rest);
    var n := KeywordLength(s);
    assert s == w + (" = \"" + rest) && s[|w|] == ' ';
    assert forall j :: 0 <= j < |w| ==> s[j] == w[j];
  }

  lemma DeviceTextNumber(i: nat, k: Key, rest: string)
    ensures DeviceNumber(DeviceText(i, k, rest)) == if i < 10_000 then Some(i) else None
  {
    ShortNumber(i);
    hide Keyword, IndexOf, Atoi, Opened;
    var line, number := DeviceText(i, k, rest), Decimal(i);
    var setting := Opened(Keyword(k), rest);
    AtoiOfDecimal(i);
    assert line[6..] == number + (['.'] + setting);
    IndexOfFirst(number, '.', setting);
  }

  lemma ShortNumber(i: nat)
    ensures |Decimal(i)| < 5 <==> i < 10_000
  {
    DecimalLength(i, 4);
    assert Ten(4) == 10 * (10 * (10 * (10 * Ten(0))));
  }

  lemma KeywordLengths(k: Key)
    ensures 0 < |Keyword(k)| <= 28
  {
  }

  lemma DeviceTextFunction(i: nat, k: Key, rest: string)
    ensures Function(DeviceText(i, k, rest)) == Some(Keyword(k))
  {
    hide Keyword, IndexOf, Decimal, Opened, IsWord, KeywordLength;
    KeywordLengths(k);
    var line, front := DeviceText(i, k, rest), "device" + Decimal(i);
    var setting := Opened(Keyword(k), rest);
    KeywordIsWord(k);
    WordParts(Keyword(k), rest);
    DecimalClean(i);
    assert line == front + (['.'] + setting);
    IndexOfFirst(front, '.', setting);
  }

  lemma DeviceTextStarts(i: nat, k: Key, rest: string)
    ensures var line := DeviceText(i, k, rest);
      "device" <= line && |line| > 6 && line[0] == 'd'
  {
    hide Keyword, Decimal, Opened;
  }

  lemma DeviceTextLength(i: nat, k: Key, value: string)
    requires i < 10_000 && |CString(value)| < 100
    ensures |DeviceText(i, k, Ended(value))| < LINE_BUFFER
  {
    hide Keyword, Decimal, CString;
    ShortNumber(i);
    KeywordLengths(k);
    if '\0' !in value {
      CStringIs(value, value);
    }
  }

  /** A printed line sets its field of its device to the bytes before a NUL, and nothing else, when there is
      such a device and these bytes can be stored; otherwise the parser leaves its bounds. */
  lemma DeviceLineParses(i: nat, k: Key, value: string, c: Config)
    requires Clean(value)
    ensures i < 10_000 && |CString(value)| < 100 ==>
      ParseLine(DeviceLine(i, k, value), c) ==
      if i < |c.devices| && Storable(k, CString(value))
      then Some(c.(devices := c.devices[i := Set(c.devices[i], k, CString(value))])) else None
    ensures !Storable(k, CString(value)) ==> ParseLine(DeviceLine(i, k, value), c) == None
    ensures OneLine(DeviceLine(i, k, value))
  {
    hide Keyword, KeyOf, Set, Data, DeviceLine, DeviceText, DeviceNumber, Function, IsWord, Storable, CString, Ended;
    DeviceLineData(i, k, value);
    var line := DeviceText(i, k, Ended(value));
    DeviceTextStarts(i, k, Ended(value));
    SameFrontOf(line);
    DeviceTextNumber(i, k, Ended(value));
    DeviceTextFunction(i, k, Ended(value));
    KeyOfKeyword(k);
    if i < 10_000 && |CString(value)| < 100 {
      DeviceTextLength(i, k, value);
    }
  }

  lemma SameFrontOf(line: string)
    requires |line| > 0 && line[0] == 'd'
    ensures !("Num_Devices" <= line) && !("Polling_Period" <= line) && !("Timeout" <= line)
  {
  }

  lemma DeviceLineData(i: nat, k: Key, value: string)
    requires Clean(value)
    ensures CString(DeviceLine(i, k, value)) == DeviceText(i, k, Ended(value))
    ensures Data(DeviceText(i, k, Ended(value)), '"') == CString(value) && OneLine(DeviceLine(i, k, value))
  {
    hide Keyword, Decimal, IsWord, Ended, CString, Data;
    KeywordIsWord(k);
    WordParts(Keyword(k), "");
    DecimalClean(i);
    var key := "device" + Decimal(i) + "." + Keyword(k);
    assert Clean(key) && '\0' !in key;
    assert DeviceLine(i, k, value) == Quoted(key, value);
    assert DeviceText(i, k, Ended(value)) == Opened(key, Ended(value));
    OpenedCut(key, value);
    DataOfOpened(key, value);
    QuotedIsOneLine(key, value);
  }

  // --------------------------------------------------------------------------
  // One device
  // --------------------------------------------------------------------------

  /** A device after the lines of the first k keys */
  function Partial(row: Row, k: nat): Device
    requires AddressText(row).Some?
  {
    var d, r := CLEARED, Read(row);
    Device(if k > 0 then r.name else d.name, if k > 2 then r.protocol else d.protocol,
      if k > 3 then r.address else d.address, if k > 4 then r.ipPort else d.ipPort,
      if k > 5 then r.baudRate else d.baudRate, if k > 6 then r.parity else d.parity,
      if k > 7 then r.dataBits else d.dataBits, if k > 8 then r.stopBits else d.stopBits,
      if k > 9 then r.txPause else d.txPause, if k > 1 then r.id else d.id,
      if k > 10 then r.diStart else d.diStart, if k > 11 then r.diSize else d.diSize,
      if k > 12 then r.coilStart else d.coilStart, if k > 13 then r.coilSize else d.coilSize,
      if k > 14 then r.irStart else d.irStart, if k > 15 then r.irSize else d.irSize,
      if k > 16 then r.hrReadStart else d.hrReadStart, if k > 17 then r.hrReadSize else d.hrReadSize,
      if k > 18 then r.hrStart else d.hrStart, if k > 19 then r.hrSize else d.hrSize)
  }

  /** Numbers and the lengths of their texts */
  lemma Numbers()
    ensures forall n: nat :: Atoi(Decimal(n)) == n && Clean(Decimal(n)) && CString(Decimal(n)) == Decimal(n)
    ensures forall n: nat :: (n < 0x100 ==> |Decimal(n)| < 5) && (n < 100_000 ==> |Decimal(n)| < 6)
    ensures forall n: nat :: (n < 1_000_000_000 ==> |Decimal(n)| < 10) && (n < 0x8000_0000 ==> |Decimal(n)| < 20)
  {
    hide Decimal, Atoi, Clean, CString;
    forall n: nat
      ensures Atoi(Decimal(n)) == n && Clean(Decimal(n)) && CString(Decimal(n)) == Decimal(n)
      ensures (n < 0x100 ==> |Decimal(n)| < 5) && (n < 100_000 ==> |Decimal(n)| < 6)
      ensures (n < 1_000_000_000 ==> |Decimal(n)| < 10) && (n < 0x8000_0000 ==> |Decimal(n)| < 20)
    {
      AtoiOfDecimal(n);
      DecimalClean(n);
      CStringIs(Decimal(n), Decimal(n));
      Tens();
      DecimalLength(n, 4);
      DecimalLength(n, 5);
      DecimalLength(n, 9);
      DecimalLength(n, 10);
    }
  }

  lemma Tens()
    ensures Ten(4) == 10_000 && Ten(5) == 100_000 && Ten(9) == 1_000_000_000 && Ten(10) == 10_000_000_000
  {
    assert Ten(4) == 10 * (10 * (10 * (10 * Ten(0))));
    assert Ten(5) == 10 * Ten(4);
    assert Ten(9) == 10 * (10 * (10 * (10 * Ten(5))));
    assert Ten(10) == 10 * Ten(9);
  }

  predicate Step(row: Row, k: nat, key: Key)
    requires AddressText(row).Some?
  {
    var stored := CString(ValueText(row, key));
    && Set(Partial(row, k), key, stored) == Partial(row, k + 1)
    && Storable(key, stored) && |stored| < 100
  }

  lemma TextSteps(row: Row)
    requires CleanRow(row) && Fits(row)
    ensures Step(row, 0, Name) && Step(row, 1, SlaveId) && Step(row, 2, Protocol)
    ensures Step(row, 3, Address) && Step(row, 6, Parity)
  {
    hide Decimal, Atoi, AddressText, Clean, IsTcp, CString;
    Numbers();
    Protocols();
    CStringIs(row.name, row.name);
    CStringIs(AddressText(row).value, AddressText(row).value);
    if row.parity != "" && CString(row.parity) == "" {
      assert row.parity[0] == '\0';
    }
  }

  lemma SerialSteps(row: Row)
    requires CleanRow(row) && Fits(row)
    ensures Step(row, 4, IpPort) && Step(row, 5, BaudRate)
    ensures Step(row, 7, DataBits) && Step(row, 8, StopBits) && Step(row, 9, TxPause)
  {
    hide Decimal, Atoi, AddressText, Clean, IsTcp, CString;
    Numbers();
  }

  lemma InputBitSteps(row: Row)
    requires CleanRow(row) && Fits(row)
    ensures Step(row, 10, DiStart) && Step(row, 11, DiSize)
  {
    hide Decimal, Atoi, AddressText, Clean, IsTcp, CString;
    Numbers();
  }

  lemma CoilSteps(row: Row)
    requires CleanRow(row) && Fits(row)
    ensures Step(row, 12, CoilStart) && Step(row, 13, CoilSize)
  {
    hide Decimal, Atoi, AddressText, Clean, IsTcp, CString;
    Numbers();
  }

  lemma InputSteps(row: Row)
    requires CleanRow(row) && Fits(row)
    ensures Step(row, 14, IrStart) && Step(row, 15, IrSize)
  {
    hide Decimal, Atoi, AddressText, Clean, IsTcp, CString;
    Numbers();
  }

  lemma ReadSteps(row: Row)
    requires CleanRow(row) && Fits(row)
    ensures Step(row, 16, HrReadStart) && Step(row, 17, HrReadSize)
  {
    hide Decimal, Atoi, AddressText, Clean, IsTcp, CString;
    Numbers();
  }

  lemma HoldingSteps(row: Row)
    requires CleanRow(row) && Fits(row)
    ensures Step(row, 18, HrStart) && Step(row, 19, HrSize)
  {
    hide Decimal, Atoi, AddressText, Clean, IsTcp, CString;
    Numbers();
  }

  function KeyAt(k: nat): Key
    requires k < 20
  {
    match k
    case 0 => Name
    case 1 => SlaveId
    case 2 => Protocol
    case 3 => Address
    case 4 => IpPort
    case 5 => BaudRate
    case 6 => Parity
    case 7 => DataBits
    case 8 => StopBits
    case 9 => TxPause
    case 10 => DiStart
    case 11 => DiSize
    case 12 => CoilStart
    case 13 => CoilSize
    case 14 => IrStart
    case 15 => IrSize
    case 16 => HrReadStart
    case 17 => HrReadSize
    case 18 => HrStart
    case _ => HrSize
  }

  lemma KeyList(k: nat)
    requires k < |KEYS|
    ensures KEYS[k] == KeyAt(k)
  {
  }

  lemma NextKey(row: Row, k: nat)
    requires CleanRow(row) && Fits(row) && k < |KEYS|
    ensures var stored := CString(ValueText(row, KEYS[k]));
      Set(Partial(row, k), KEYS[k], stored) == Partial(row, k + 1) && Storable(KEYS[k], stored) && |stored| < 100
  {
    hide Set, Partial, ValueText, Storable, CString;
    KeyList(k);
    assert Step(row, k, KeyAt(k)) by {
      hide Step, Fits;
      TextSteps(row);
      SerialSteps(row);
      InputBitSteps(row);
      CoilSteps(row);
      InputSteps(row);
      ReadSteps(row);
      HoldingSteps(row);
    }
  }

  lemma ValueClean(row: Row, k: Key)
    requires CleanRow(row)
    ensures Clean(ValueText(row, k))
  {
    hide Decimal, AddressText, Clean, IsTcp;
    Numbers();
    Protocols();
  }

  lemma Protocols()
    ensures Clean("TCP") && Clean("RTU") && !("TCP" <= "RTU") && CString("TCP") == "TCP" && CString("RTU") == "RTU"
  {
    assert "TCP"[0] != "RTU"[0];
    CStringIs("TCP", "TCP");
    CStringIs("RTU", "RTU");
  }

  lemma {:induction false} KeyLinesParse(row: Row, i: nat, k: nat, c: Config)
    requires CleanRow(row) && Fits(row) && k <= |KEYS| && i < |c.devices| && i < 10_000 && c.devices[i] == CLEARED
    ensures ParseLines(KeyLines(row, i, k), c) == Some(c.(devices := c.devices[i := Partial(row, k)]))
    decreases k
  {
    hide ParseLine, Set, ValueText, AddressText, Clean, OneLine, DeviceLine, Partial, Fits, Storable, CString;
    if k == 0 {
      ClearedPartial(row);
      assert c.devices[i := Partial(row, 0)] == c.devices;
      NothingParses(c);
    } else {
      var before, line := KeyLines(row, i, k - 1), DeviceLine(i, KEYS[k - 1], ValueText(row, KEYS[k - 1]));
      var blank: seq<string> := if k == 10 || k == |KEYS| then [""] else [];
      assert KeyLines(row, i, k) == before + ([line] + blank);
      KeyLinesParse(row, i, k - 1, c);
      var c' := c.(devices := c.devices[i := Partial(row, k - 1)]);
      NextKey(row, k - 1);
      ValueClean(row, KEYS[k - 1]);
      DeviceLineParses(i, KEYS[k - 1], ValueText(row, KEYS[k - 1]), c');
      ParseJoined(before, [line] + blank, c);
      MoreParses(line, blank, c');
      assert c'.devices[i := Partial(row, k)] == c.devices[i := Partial(row, k)];
    }
  }

  lemma ClearedPartial(row: Row)
    requires AddressText(row).Some?
    ensures Partial(row, 0) == CLEARED && Partial(row, |KEYS|) == Read(row)
  {
  }

  lemma EmptyLine()
    ensures OneLine("")
  {
  }

  /** A line, and an empty one that may follow */
  lemma MoreParses(line: string, more: seq<string>, c: Config)
    requires more == [] || more == [""]
    ensures ParseLines([line] + more, c) == ParseLine(line, c)
  {
    hide ParseLine;
    ParseLinesStep(line, more, c);
    if ParseLine(line, c).Some? && more != [] {
      SkippedLine("", ParseLine(line, c).value);
      ParseLinesStep("", [], ParseLine(line, c).value);
      assert [""] + [] == [""];
    }
  }

  lemma SkippedLine(line: string, c: Config)
    requires line == "" || line[0] == '#'
    ensures ParseLine(line, c) == Some(c)
  {
    hide CString;
    var text := CString(line);
    assert line != "" ==> text != "" && text[0] == line[0];
  }

  lemma DeviceLinesParse(row: Row, i: nat, c: Config)
    requires CleanRow(row) && Fits(row) && i < |c.devices| && i < 10_000 && c.devices[i] == CLEARED
    ensures ParseLines(DeviceLines(row, i), c) == Some(c.(devices := c.devices[i := Read(row)]))
  {
    hide ParseLine, ParseLines, KeyLines, AddressText, Decimal, Partial, Read, Fits;
    var head := "#   DEVICE " + Decimal(i);
    var lines := KeyLines(row, i, |KEYS|);
    assert DeviceLines(row, i) == [RULE] + ([head] + ([RULE] + lines));
    KeyLinesParse(row, i, |KEYS|, c);
    ClearedPartial(row);
    SkippedLine(RULE, c);
    SkippedLine(head, c);
    ParseLinesStep(RULE, [head] + ([RULE] + lines), c);
    ParseLinesStep(head, [RULE] + lines, c);
    ParseLinesStep(RULE, lines, c);
  }

  lemma HeadIsOneLine(i: nat)
    ensures OneLine(RULE) && OneLine("#   DEVICE " + Decimal(i))
  {
    hide Decimal;
    DecimalClean(i);
  }

  // --------------------------------------------------------------------------
  // The file
  // --------------------------------------------------------------------------

  function ReadUpTo(rows: seq<Row>, n: nat): seq<Device>
    requires n <= |rows| && forall i :: 0 <= i < |rows| ==> AddressText(rows[i]).Some?
  {
    seq(|rows|, i requires 0 <= i < |rows| => if i < n then Read(rows[i]) else CLEARED)
  }

  lemma HeadParses(s: Settings)
    requires CleanRows(s) && SettingsFit(s)
    ensures ParseLines(HeadLines(s), DEFAULTS) == Some(Config(ReadUpTo(s.rows, 0), s.polling, s.timeout))
  {
    hide ParseLines, Decimal, Atoi, Quoted, Data, AddressText, Read, CString;
    var h := HeadLines(s);
    assert h == [h[0]] + ([h[1]] + ([h[2]] + []));
    HeadKeys(|s.rows|);
    HeadKeys(s.polling);
    HeadKeys(s.timeout);
    var c0 := Config(seq(|s.rows|, _ => CLEARED), 100, 1000);
    var c1 := c0.(pollingPeriod := s.polling);
    var c2 := c1.(timeout := s.timeout);
    ParseLinesStep(h[0], [h[1]] + ([h[2]] + []), DEFAULTS);
    ParseLinesStep(h[1], [h[2]] + [], c0);
    ParseLinesStep(h[2], [], c1);
    NothingParses(c2);
    assert c0.devices == ReadUpTo(s.rows, 0);
  }

  lemma NothingParses(c: Config)
    ensures ParseLines([], c) == Some(c)
  {
  }

  lemma HeadKeys(n: nat)
    requires n < 0x10000
    ensures var d := Quoted("Num_Devices", Decimal(n));
      var p := Quoted("Polling_Period", Decimal(n));
      var t := Quoted("Timeout", Decimal(n));
      && CString(d) == d && CString(p) == p && CString(t) == t
      && Data(d, '"') == Data(p, '"') == Data(t, '"') == Decimal(n) && Atoi(Decimal(n)) == n
      && (n < 0x100 ==> |Decimal(n)| < 5) && |Decimal(n)| < 6
      && 1 < |d| < 1024 && 1 < |p| < 1024 && 1 < |t| < 1024
      && "Num_Devices" <= d && "Polling_Period" <= p && "Timeout" <= t
      && d[0] == 'N' && p[0] == 'P' && t[0] == 'T'
  {
    hide Decimal, Atoi, Data, CString;
    Numbers();
    NumberLine("Num_Devices", n);
    NumberLine("Polling_Period", n);
    NumberLine("Timeout", n);
  }

  lemma NumberLine(key: string, n: nat)
    requires Clean(key) && '\0' !in key
    ensures var line := Quoted(key, Decimal(n));
      CString(line) == line && Data(line, '"') == Decimal(n) && OneLine(line)
  {
    hide Decimal, Data, CString;
    DecimalClean(n);
    CStringIs(Decimal(n), Decimal(n));
    OpenedCut(key, Decimal(n));
    DataOfOpened(key, Decimal(n));
    QuotedIsOneLine(key, Decimal(n));
  }

  lemma {:induction false} ConfigLinesParse(s: Settings, n: nat)
    requires CleanRows(s) && SettingsFit(s) && n <= |s.rows|
    ensures ParseLines(ConfigLines(s, n), DEFAULTS) == Some(Config(ReadUpTo(s.rows, n), s.polling, s.timeout))
    decreases n
  {
    hide ParseLines, HeadLines, DeviceLines, AddressText, Read, OneLine, Fits;
    if n == 0 {
      HeadParses(s);
    } else {
      var before, more := ConfigLines(s, n - 1), DeviceLines(s.rows[n - 1], n - 1);
      ConfigLinesParse(s, n - 1);
      var c := Config(ReadUpTo(s.rows, n - 1), s.polling, s.timeout);
      ParseJoined(before, more, DEFAULTS);
      assert CleanRow(s.rows[n - 1]);
      DeviceLinesParse(s.rows[n - 1], n - 1, c);
      assert c.devices[n - 1 := Read(s.rows[n - 1])] == ReadUpTo(s.rows, n);
    }
  }

  // --------------------------------------------------------------------------
  // The lines of the file, and the parser on the text
  // --------------------------------------------------------------------------

  predicate AllOneLine(lines: seq<string>) {
    forall k :: 0 <= k < |lines| ==> OneLine(lines[k])
  }

  lemma AllOneLineJoined(a: seq<string>, b: seq<string>)
    requires AllOneLine(a) && AllOneLine(b)
    ensures AllOneLine(a + b)
  {
    hide OneLine;
  }

  lemma {:induction false} KeyLinesAreLines(row: Row, i: nat, k: nat)
    requires CleanRow(row) && k <= |KEYS|
    ensures AllOneLine(KeyLines(row, i, k))
    decreases k
  {
    hide OneLine, DeviceLine, ValueText, Clean, AddressText;
    if k > 0 {
      KeyLinesAreLines(row, i, k - 1);
      ValueClean(row, KEYS[k - 1]);
      DeviceLineParses(i, KEYS[k - 1], ValueText(row, KEYS[k - 1]), DEFAULTS);
      EmptyLine();
    }
  }

  lemma {:induction false} ConfigLinesAreLines(s: Settings, n: nat)
    requires CleanRows(s) && n <= |s.rows|
    ensures |ConfigLines(s, n)| > 0 && AllOneLine(ConfigLines(s, n))
    decreases n
  {
    hide OneLine, HeadLines, KeyLines, AddressText;
    if n == 0 {
      HeadAreLines(s);
    } else {
      ConfigLinesAreLines(s, n - 1);
      assert CleanRow(s.rows[n - 1]);
      KeyLinesAreLines(s.rows[n - 1], n - 1, |KEYS|);
      HeadIsOneLine(n - 1);
      AllOneLineJoined([RULE, "#   DEVICE " + Decimal(n - 1), RULE], KeyLines(s.rows[n - 1], n - 1, |KEYS|));
      AllOneLineJoined(ConfigLines(s, n - 1), DeviceLines(s.rows[n - 1], n - 1));
    }
  }

  lemma HeadAreLines(s: Settings)
    ensures |HeadLines(s)| == 3 && AllOneLine(HeadLines(s))
  {
    hide Decimal, Quoted, OneLine, Data, CString;
    NumberLine("Num_Devices", |s.rows|);
    NumberLine("Polling_Period", s.polling);
    NumberLine("Timeout", s.timeout);
  }

  // --------------------------------------------------------------------------
  // What the parser can produce at all
  // --------------------------------------------------------------------------

  predicate DeviceInRange(d: Device) {
    && |d.name| < 100 && '\0' !in d.name && |d.address| < 100 && '\0' !in d.address && d.id < 0x100 && d.ipPort < 0x10000
    && d.baudRate < 1_000_000_000 && d.dataBits < 100_000 && d.stopBits < 0x8000_0000 && d.txPause < 1_000_000_000
    && d.diStart < 0x10000 && d.diSize < 0x10000 && d.coilStart < 0x10000 && d.coilSize < 0x10000
    && d.irStart < 0x10000 && d.irSize < 0x10000 && d.hrReadStart < 0x10000 && d.hrReadSize < 0x10000
    && d.hrStart < 0x10000 && d.hrSize < 0x10000
  }

  predicate InRange(c: Config) {
    && |c.devices| < 0x100 && c.pollingPeriod < 0x10000 && c.timeout < 0x10000
    && forall i :: 0 <= i < |c.devices| ==> DeviceInRange(c.devices[i])
  }

  lemma SetInRange(d: Device, k: Key, data: string)
    requires DeviceInRange(d) && Storable(k, data) && '\0' !in data
    ensures DeviceInRange(Set(d, k, data))
  {
    hide Atoi;
    AtoiBound(data);
    Tens();
    if |data| < 10 {
      TenGrows(|data|, 9);
    }
    if |data| < 6 {
      TenGrows(|data|, 5);
    }
  }

  lemma LineInRange(line: string, c: Config)
    requires InRange(c) && ParseLine(line, c).Some?
    ensures InRange(ParseLine(line, c).value)
  {
    hide Data, DeviceNumber, Function, KeyOf, Set, Atoi, DeviceInRange, Storable, CString;
    DataOfCString(CString(line));
    assert DeviceInRange(CLEARED) by {
      ClearedInRange();
    }
    forall d: Device, k: Key, data: string | DeviceInRange(d) && Storable(k, data) && '\0' !in data
      ensures DeviceInRange(Set(d, k, data))
    {
      SetInRange(d, k, data);
    }
  }

  lemma DataOfCString(s: string)
    requires '\0' !in s
    ensures '\0' !in Data(s, '"')
  {
    hide IndexOf;
  }

  lemma ClearedInRange()
    ensures DeviceInRange(CLEARED)
  {
  }

  lemma {:induction false} LinesInRange(lines: seq<string>, c: Config)
    requires InRange(c) && ParseLines(lines, c).Some?
    ensures InRange(ParseLines(lines, c).value)
    decreases |lines|
  {
    hide InRange, ParseLine;
    if |lines| > 0 {
      LineInRange(lines[0], c);
      LinesInRange(lines[1..], ParseLine(lines[0], c).value);
    }
  }

  /** A line on which the parser leaves its bounds, whatever it has read before */
  ghost predicate Fatal(line: string) {
    forall c: Config :: ParseLine(line, c) == None
  }

  lemma {:induction false} FatalLine(lines: seq<string>, j: nat, c: Config)
    requires j < |lines| && Fatal(lines[j])
    ensures ParseLines(lines, c) == None
    decreases j
  {
    hide ParseLine;
    if j > 0 && ParseLine(lines[0], c).Some? {
      FatalLine(lines[1..], j - 1, ParseLine(lines[0], c).value);
    }
  }

  /** A parity of more than two bytes overruns its buffer. */
  lemma LongParityFails(s: Settings, i: nat)
    requires CleanRows(s) && i < |s.rows| && |CString(s.rows[i].parity)| >= 3
    ensures Parsed(Joined(ConfigLines(s, |s.rows|))) == None
  {
    hide ParseLine, ParseLines, GetLines, Joined, ConfigLines, OneLine, KeyLines, DeviceLine, CString;
    var lines := ConfigLines(s, |s.rows|);
    assert CleanRow(s.rows[i]);
    var line := DeviceLine(i, Parity, s.rows[i].parity);
    ParityLine(i, s.rows[i].parity, s.rows[i]);
    var j := LineOfParity(s, |s.rows|, i);
    FatalLine(lines, j, DEFAULTS);
    ConfigLinesAreLines(s, |s.rows|);
    JoinedParses(lines, DEFAULTS);
  }

  lemma ParityLine(i: nat, parity: string, row: Row)
    requires CleanRow(row) && row.parity == parity && |CString(parity)| >= 3
    ensures Fatal(DeviceLine(i, Parity, parity))
  {
    hide ParseLine, DeviceLine, CString;
    forall c: Config
      ensures ParseLine(DeviceLine(i, Parity, parity), c) == None
    {
      DeviceLineParses(i, Parity, parity, c);
    }
  }

  /** Where the parity of a device stands in the file */
  lemma {:induction false} LineOfParity(s: Settings, n: nat, i: nat) returns (j: nat)
    requires CleanRows(s) && i < n <= |s.rows|
    ensures j < |ConfigLines(s, n)| && ConfigLines(s, n)[j] == DeviceLine(i, Parity, s.rows[i].parity)
    decreases n
  {
    hide HeadLines, KeyLines, DeviceLine, AddressText;
    assert CleanRow(s.rows[n - 1]);
    if i == n - 1 {
      var k := ParityInKeyLines(s.rows[i], i, |KEYS|);
      j := |ConfigLines(s, n - 1)| + 3 + k;
    } else {
      j := LineOfParity(s, n - 1, i);
    }
  }

  lemma {:induction false} ParityInKeyLines(row: Row, i: nat, k: nat) returns (j: nat)
    requires CleanRow(row) && 7 <= k <= |KEYS|
    ensures j < |KeyLines(row, i, k)| && KeyLines(row, i, k)[j] == DeviceLine(i, Parity, row.parity)
    decreases k
  {
    hide DeviceLine, AddressText;
    if k == 7 {
      KeyList(6);
      j := |KeyLines(row, i, 6)|;
    } else {
      j := ParityInKeyLines(row, i, k - 1);
    }
  }

  // --------------------------------------------------------------------------
  // Exactly when the configuration comes back
  // --------------------------------------------------------------------------

  /** A file of bytes comes back if and only if it fits. */
  lemma BytesParsedIff(s: Settings)
    requires CleanRows(s)
    ensures Parsed(Joined(ConfigLines(s, |s.rows|))) == Some(ReadAll(s)) <==> SettingsFit(s)
  {
    hide ConfigLines, ParseLines, GetLines, Joined, AddressText, OneLine, Read, Fits, InRange;
    var lines := ConfigLines(s, |s.rows|);
    ConfigLinesAreLines(s, |s.rows|);
    JoinedParses(lines, DEFAULTS);
    if SettingsFit(s) {
      ConfigLinesParse(s, |s.rows|);
      assert ReadUpTo(s.rows, |s.rows|) == ReadAll(s).devices;
    }
    if ParseLines(lines, DEFAULTS) == Some(ReadAll(s)) {
      DefaultsInRange();
      LinesInRange(lines, DEFAULTS);
      InRangeFits(s);
    }
  }

  lemma DefaultsInRange()
    ensures InRange(DEFAULTS)
  {
  }

  lemma InRangeFits(s: Settings)
    requires CleanRows(s) && InRange(ReadAll(s)) && Parsed(Joined(ConfigLines(s, |s.rows|))).Some?
    ensures SettingsFit(s)
  {
    hide Parsed, Joined, ConfigLines, AddressText, CString;
    forall i | 0 <= i < |s.rows|
      ensures Fits(s.rows[i])
    {
      assert ReadAll(s).devices[i] == Read(s.rows[i]);
      if |CString(s.rows[i].parity)| >= 3 {
        LongParityFails(s, i);
      }
    }
  }

  // --------------------------------------------------------------------------
  // Other lines, and numbers that are too large
  // --------------------------------------------------------------------------

  /** Comments, lines of at most one character, and lines that start with none of the keywords change nothing. */
  lemma OtherLinesIgnored(line: string, c: Config)
    requires '\0' !in line
    requires line == "" || line[0] == '#' || |line| == 1 ||
      (|line| < 1024 && !("Num_Devices" <= line) && !("Polling_Period" <= line) && !("Timeout" <= line)
       && !("device" <= line))
    ensures ParseLine(line, c) == Some(c)
  {
    hide CString, Data;
    CStringIs(line, line);
  }

  /** A field of 16 bits takes the lowest 16 bits of a number, and the slave's number the lowest 8. */
  lemma NumbersWrap(d: Device, n: nat)
    ensures Set(d, SlaveId, Decimal(n)).id == n % 0x100 && Set(d, IpPort, Decimal(n)).ipPort == n % 0x10000
    ensures Set(d, DiStart, Decimal(n)).diStart == n % 0x10000 && Set(d, DiSize, Decimal(n)).diSize == n % 0x10000
    ensures Set(d, CoilStart, Decimal(n)).coilStart == n % 0x10000 && Set(d, CoilSize, Decimal(n)).coilSize == n % 0x10000
    ensures Set(d, IrStart, Decimal(n)).irStart == n % 0x10000 && Set(d, IrSize, Decimal(n)).irSize == n % 0x10000
    ensures Set(d, HrReadStart, Decimal(n)).hrReadStart == n % 0x10000
    ensures Set(d, HrReadSize, Decimal(n)).hrReadSize == n % 0x10000
    ensures Set(d, HrStart, Decimal(n)).hrStart == n % 0x10000 && Set(d, HrSize, Decimal(n)).hrSize == n % 0x10000
  {
    hide Decimal, Atoi;
    AtoiOfDecimal(n);
  }

  /** So does the number of devices, with 8 bits; each device begins empty. */
  lemma DevicesWrap(n: nat, c: Config)
    requires n < 10_000
    ensures ParseLine(Quoted("Num_Devices", Decimal(n)), c) == Some(c.(devices := seq(n % 0x100, _ => CLEARED)))
  {
    hide Decimal, Atoi, Data, CString, Quoted;
    HeadKeys(n);
    ShortNumber(n);
  }

  /** A device number of five characters or more does not fit its buffer, nor does a keyword of a hundred or more. */
  lemma LongKeysFail(line: string, c: Config)
    requires |line| >= 11 && "device" <= line && '\0' !in line
    requires (forall k :: 6 <= k < 11 ==> line[k] != '.')
          || exists i :: 0 <= i && i + 101 <= |line| && line[i] == '.' && (forall k :: 0 <= k < i ==> line[k] != '.')
                         && forall k :: i < k <= i + 100 ==> !EndsKeyword(line[k])
    ensures ParseLine(line, c) == None
  {
    hide CString, Data, IndexOf, KeyOf;
    CStringIs(line, line);
    if forall k :: 6 <= k < 11 ==> line[k] != '.' {
      NotBefore(line[6..], '.', 4);
    } else {
      var i :| 0 <= i && i + 101 <= |line| && line[i] == '.' && (forall k :: 0 <= k < i ==> line[k] != '.')
               && forall k :: i < k <= i + 100 ==> !EndsKeyword(line[k]);
      IndexIs(line, '.', i);
    }
    assert Function(line) == None || DeviceNumber(line) == None;
  }

  /** Without a line, there is no device, and the periods are 100 and 1000 milliseconds. */
  lemma NothingConfigured()
    ensures Parsed("") == Some(Config([], 100, 1000))
    ensures CLEARED == Device("", 0, "", 0, 0, '\0', 0, 0, 0, 0, 0, 0, 0, 0, 0, 0, 0, 0, 0, 0)
  {
  }
}
