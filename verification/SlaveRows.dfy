/**
 From the rows of the device table to the PLC's addresses: the rows are written to the configuration
 file, parsed, polled and copied, and the page prints addresses from the same rows.
 */
module SlaveRows {
  import opened Options
  import Text
  import opened Utf8
  import opened MbConfigFile
  import Config = MbConfig
  import Laws = MbConfigLaws
  import opened SlavePolling
  import opened PollThread
  import opened WebLayout

  /** What the polling thread takes of a parsed device: whatever is not serial is closed after a failure. */
  function Polled(d: Config.Device): Device {
    Device(if d.protocol == Config.MB_RTU then Rtu else Tcp, d.address,
      d.diSize, d.coilSize, d.irSize, d.hrReadSize, d.hrSize,
      d.diStart, d.coilStart, d.irStart, d.hrReadStart, d.hrStart)
  }

  function PolledDevices(c: Config.Config): (devs: seq<Device>)
    ensures |devs| == |c.devices|
  {
    seq(|c.devices|, i requires 0 <= i < |c.devices| => Polled(c.devices[i]))
  }

  /** A row as the page and the person who filled it in see it */
  function Listed(row: Config.Row): Device
    requires Config.AddressText(row).Some?
  {
    Device(if Config.IsTcp(row) then Tcp else Rtu, Encoded(Config.AddressText(row).value),
      row.diSize, row.coilSize, row.irSize, row.hrReadSize, row.hrSize,
      row.diStart, row.coilStart, row.irStart, row.hrReadStart, row.hrStart)
  }

  function ListedDevices(s: Config.Settings): (devs: seq<Device>)
    requires Config.Printable(s)
    ensures |devs| == |s.rows|
  {
    seq(|s.rows|, i requires 0 <= i < |s.rows| => Listed(s.rows[i]))
  }

  /** The devices that are polled are the rows of the table, in their order. */
  lemma RowsArePolled(s: Config.Settings)
    requires Laws.CleanRows(s) && Laws.CleanRows(InBytes(s)) && Laws.SettingsFit(InBytes(s))
    ensures Config.Parsed(Config.FileOf(s)).Some?
    ensures PolledDevices(Config.Parsed(Config.FileOf(s)).value) == ListedDevices(s)
  {
    hide Config.Parsed, Config.FileOf, Laws.SettingsFit, Config.AddressText, Encoded, RowInBytes, Laws.Read;
    PrintedIsParsedIff(s);
    var c := Laws.ReadAll(InBytes(s));
    forall i | 0 <= i < |s.rows|
      ensures Polled(c.devices[i]) == Listed(s.rows[i])
    {
      RowPolled(s.rows[i]);
    }
  }

  lemma RowPolled(row: Config.Row)
    requires Config.AddressText(row).Some?
    ensures Config.AddressText(RowInBytes(row)).Some? && Polled(Laws.Read(RowInBytes(row))) == Listed(row)
  {
    hide Config.AddressText, Encoded;
    AddressInBytes(row);
  }

  /** These are the devices that the polling thread works with, when the rows fit the parser. */
  predicate PolledFrom(s: Config.Settings, devs: seq<Device>) {
    && Laws.CleanRows(s) && Laws.CleanRows(InBytes(s)) && Laws.SettingsFit(InBytes(s))
    && Config.Parsed(Config.FileOf(s)).Some?
    && devs == PolledDevices(Config.Parsed(Config.FileOf(s)).value)
  }

  lemma PolledAreListed(s: Config.Settings, devs: seq<Device>)
    requires PolledFrom(s, devs)
    ensures Config.Printable(s) && devs == ListedDevices(s)
  {
    hide Config.Parsed, Config.FileOf, Laws.SettingsFit;
    RowsArePolled(s);
  }

  /** Field by field: how many registers of each kind a row asks for and from where, by which protocol, and at which
      address. */
  ghost predicate PolledAs(row: Config.Row, d: Device) {
    && d.discreteInputs == row.diSize && d.discreteStart == row.diStart
    && d.coils == row.coilSize && d.coilStart == row.coilStart
    && d.inputRegisters == row.irSize && d.inputStart == row.irStart
    && d.holdingRead == row.hrReadSize && d.holdingReadStart == row.hrReadStart
    && d.holdingRegisters == row.hrSize && d.holdingStart == row.hrStart
    && (row.devType in ["TCP", "ESP32", "ESP8266"] ==> d.protocol == Tcp && d.address == Encoded(row.ip))
    && (row.devType !in ["TCP", "ESP32", "ESP8266"] ==>
          && d.protocol == Rtu
          && (forall n: nat :: n >= 1 && row.comPort == "COM" + Text.Decimal(n) ==>
                d.address == "/dev/ttyS" + Text.Decimal(n - 1))
          && (!("COM" <= row.comPort) ==> d.address == Encoded(row.comPort)))
  }

  lemma RowsPolledAs(s: Config.Settings, devs: seq<Device>)
    requires PolledFrom(s, devs)
    ensures |devs| == |s.rows| && forall i :: 0 <= i < |s.rows| ==> PolledAs(s.rows[i], devs[i])
  {
    hide Config.Parsed, Config.FileOf, Laws.SettingsFit, Config.AddressText, Encoded, Text.Decimal;
    RowsComeBack(s);
  }

  /** The ranges that the page prints for a row */
  function PrintedBitsIn(s: Config.Settings, i: nat): Range<BitAddress>
    requires Config.Printable(s) && i < |s.rows|
  {
    BitRange(BoolInSizes(ListedDevices(s)), i)
  }

  function PrintedWordsIn(s: Config.Settings, i: nat): Range<nat>
    requires Config.Printable(s) && i < |s.rows|
  {
    WordRange(IntInSizes(ListedDevices(s)), i)
  }

  function PrintedBitsOut(s: Config.Settings, i: nat): Range<BitAddress>
    requires Config.Printable(s) && i < |s.rows|
  {
    BitRange(BoolOutSizes(ListedDevices(s)), i)
  }

  function PrintedWordsOut(s: Config.Settings, i: nat): Range<nat>
    requires Config.Printable(s) && i < |s.rows|
  {
    WordRange(IntOutSizes(ListedDevices(s)), i)
  }

  /** From a row of the table to the PLC, after any run of both threads: at the %IX addresses that the page
      prints for a row stand the discrete inputs last read from the device that the row describes. */
  lemma RowInputBitShows(s: Config.Settings, devs: seq<Device>, steps: seq<Step>, i: nat, a: BitAddress,
    table: seq<Option<bv8>>)
    requires PolledFrom(s, devs) && Fits(devs) && Inv(devs, Initial(devs)) && i < |s.rows| && |table| == BOOL_ENTRIES
    requires InBits(PrintedBitsIn(s, i), a)
    ensures |devs| == |s.rows| && devs[i] == Listed(s.rows[i])
    ensures var r := Run(devs, Initial(devs), steps);
      var k := EntryAt(a) - BoolEntry(Offset(BoolInSizes(devs), i));
      && 0 <= k < |BitsOf(devs, r, i)| == s.rows[i].diSize && EntryAt(a) < |table|
      && Taken(table, r.boolIn, 8 * FIRST)[EntryAt(a)]
         == if table[EntryAt(a)].Some? then Some(BitsOf(devs, r, i)[k]) else None
  {
    hide PolledFrom, Run, Initial, Fits, Inv, BitsOf, InBits, BitRange, Taken, Offset, BoolEntry, EntryAt;
    PolledAreListed(s, devs);
    PrintedInputBitShows(devs, steps, i, a, table);
  }

  /** At its %IW addresses: its input registers, and behind them the holding registers read from it */
  lemma RowInputWordShows(s: Config.Settings, devs: seq<Device>, steps: seq<Step>, i: nat, w: nat,
    table: seq<Option<bv16>>)
    requires PolledFrom(s, devs) && Fits(devs) && Inv(devs, Initial(devs)) && i < |s.rows| && |table| == WORD_ENTRIES
    requires InWords(PrintedWordsIn(s, i), w)
    ensures |devs| == |s.rows| && devs[i] == Listed(s.rows[i])
    ensures var r := Run(devs, Initial(devs), steps);
      var k := w - WordEntry(Offset(IntInSizes(devs), i));
      && |InputsOf(devs, r, i)| == s.rows[i].irSize && |HoldingsOf(devs, r, i)| == s.rows[i].hrReadSize
      && 0 <= k < s.rows[i].irSize + s.rows[i].hrReadSize && w < |table|
      && Taken(table, r.intIn, FIRST)[w]
         == if table[w].Some? then Some((InputsOf(devs, r, i) + HoldingsOf(devs, r, i))[k]) else None
  {
    hide PolledFrom, Run, Initial, Fits, Inv, InputsOf, HoldingsOf, InWords, WordRange, Taken, Offset, WordEntry;
    PolledAreListed(s, devs);
    PrintedInputWordShows(devs, steps, i, w, table);
  }

  /** These coils are for the device of a row, and each of them is what had last been published, after some
      steps, at the %QX address that the page prints for it. */
  ghost predicate CoilsStood(s: Config.Settings, devs: seq<Device>, before: seq<Step>, t: Transfer<bv8>) {
    && Config.Printable(s) && t.device < |s.rows| == |devs| && devs[t.device] == Listed(s.rows[t.device])
    && |t.values| == s.rows[t.device].coilSize
    && forall a | InBits(PrintedBitsOut(s, t.device), a) ::
         var k := EntryAt(a) - BoolEntry(Offset(BoolOutSizes(devs), t.device));
         0 <= k < |t.values| && t.values[k] == LastBit(before, EntryAt(a))
  }

  ghost predicate RegistersStood(s: Config.Settings, devs: seq<Device>, before: seq<Step>, t: Transfer<bv16>) {
    && Config.Printable(s) && t.device < |s.rows| == |devs| && devs[t.device] == Listed(s.rows[t.device])
    && |t.values| == s.rows[t.device].hrSize
    && forall w: nat | InWords(PrintedWordsOut(s, t.device), w) ::
         var k := w - WordEntry(Offset(IntOutSizes(devs), t.device));
         0 <= k < |t.values| && t.values[k] == LastWord(before, w)
  }

  /** The other way: whatever is sent to a device, in any run, had been published at one earlier moment at the
      output addresses that the page prints for its row. */
  lemma RowCoilsSent(s: Config.Settings, devs: seq<Device>, steps: seq<Step>, n: nat) returns (p: nat)
    requires PolledFrom(s, devs) && Fits(devs) && Inv(devs, Initial(devs))
    requires n < |Run(devs, Initial(devs), steps).coilWrites|
    ensures p <= |steps| && CoilsStood(s, devs, steps[..p], Run(devs, Initial(devs), steps).coilWrites[n])
  {
    hide PolledFrom, Run, Initial, Fits, Inv, InBits, BitRange, LastBit, Offset, BoolEntry, EntryAt;
    PolledAreListed(s, devs);
    p := PrintedOutputBitsSent(devs, steps, n);
  }

  lemma RowRegistersSent(s: Config.Settings, devs: seq<Device>, steps: seq<Step>, n: nat) returns (p: nat)
    requires PolledFrom(s, devs) && Fits(devs) && Inv(devs, Initial(devs))
    requires n < |Run(devs, Initial(devs), steps).holdingWrites|
    ensures p <= |steps| && RegistersStood(s, devs, steps[..p], Run(devs, Initial(devs), steps).holdingWrites[n])
  {
    hide PolledFrom, Run, Initial, Fits, Inv, InWords, WordRange, LastWord, Offset, WordEntry;
    PolledAreListed(s, devs);
    p := PrintedOutputWordsSent(devs, steps, n);
  }
}
