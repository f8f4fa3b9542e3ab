/**
 What the Modbus/TCP server answers and what it does to the PLC's memory, told request by request on the
 bytes that come in and the bytes that go out.
 */
module ServerAnswers {
  import opened Bytes
  import opened RegisterFile
  import opened ModbusReply
  import opened ModbusLaws

  // --------------------------------------------------------------------------
  // Which answer
  // --------------------------------------------------------------------------

  /** The nine bytes of an exception */
  predicate IsException(b: Buffer, r: seq<bv8>, code: nat) {
    && |r| == 9 && r[..4] == b[..4] && r[4] == 0 && r[5] == 3
    && r[6] == b[6] && r[7] == b[7] | 0x80 && r[8] as nat == code
  }

  /** The first twelve bytes of the request, with the length of a confirmation */
  predicate IsEcho(b: Buffer, r: seq<bv8>) {
    |r| == 12 && r[..4] == b[..4] && r[4] == 0 && r[5] == 6 && r[6..] == b[6..12]
  }

  /** A header and n bytes of data */
  predicate IsData(b: Buffer, r: seq<bv8>, n: nat) {
    && |r| == 9 + n && r[..4] == b[..4] && Number(r[4], r[5]) == 3 + n
    && r[6] == b[6] && r[7] == b[7] && r[8] as nat == n
  }

  lemma ExceptionFormed(b: Buffer, code: nat)
    requires code < 256
    ensures IsException(b, ErrorReply(b, code), code)
  {
  }

  lemma EchoFormed(b: Buffer)
    ensures IsEcho(b, EchoReply(b))
  {
  }

  lemma DataFormed(b: Buffer, data: seq<bv8>)
    requires |data| < 256
    ensures IsData(b, DataReply(b, data), |data|) && DataReply(b, data)[9..] == data
  {
    hide HighByte, LowByte, Number;
    NumberOfBytes(|data| + 3);
    var r := DataReply(b, data);
    assert r[..4] == b[..4];
  }

  /** Messages that are too short, and function codes that the server does not know. (The debugger's codes are
      taken out before.) */
  lemma ShortOrUnknown(b: Buffer, size: nat, t: Tables, s: Store, r: seq<bv8>)
    requires Valid(t, s) && r == Reply(b, size, t, s)
    ensures size < 8 || !(1 <= b[7] <= 6 || b[7] == 15 || b[7] == 16) ==> IsException(b, r, 1)
    ensures 8 <= size < 12 && (1 <= b[7] <= 6 || b[7] == 15 || b[7] == 16) ==> IsException(b, r, 3)
  {
    hide ErrorReply, Number;
    ExceptionFormed(b, 1);
    ExceptionFormed(b, 3);
  }

  /** Reading bits is answered in whole bytes, all of whose bits must exist. */
  lemma BitsAnswer(b: Buffer, size: nat, t: Tables, s: Store, r: seq<bv8>)
    requires Valid(t, s) && r == Reply(b, size, t, s) && size >= 12 && (b[7] == 1 || b[7] == 2)
    ensures var n := (Count(b) + 7) / 8;
      if n > 255 || (n > 0 && Start(b) + 8 * n > 8192) then IsException(b, r, 2) else IsData(b, r, n)
  {
    hide ErrorReply, DataReply, BitData, Number;
    ExceptionFormed(b, 2);
    var table := if b[7] == 1 then t.boolOutput else t.boolInput;
    var n := (Count(b) + 7) / 8;
    if n == 0 {
      DataFormed(b, []);
    } else if n <= 255 && Start(b) + 8 * n <= 8192 {
      DataFormed(b, BitData(table, s.bools, Start(b), n));
    }
  }

  /** Reading registers */
  lemma RegistersAnswer(b: Buffer, size: nat, t: Tables, s: Store, r: seq<bv8>)
    requires Valid(t, s) && r == Reply(b, size, t, s) && size >= 12 && (b[7] == 3 || b[7] == 4)
    ensures var n, last := Count(b), if b[7] == 3 then 8192 else 1024;
      if n > 127 || (n > 0 && Start(b) + n > last) then IsException(b, r, 2) else IsData(b, r, 2 * n)
  {
    hide ErrorReply, DataReply, RegisterData, InputData, Number;
    ExceptionFormed(b, 2);
    var n := Count(b);
    if n == 0 {
      DataFormed(b, []);
    } else if n <= 127 && b[7] == 3 && Start(b) + n <= 8192 {
      DataFormed(b, RegisterData(t, s, Start(b), n));
    } else if n <= 127 && b[7] == 4 && Start(b) + n <= 1024 {
      DataFormed(b, InputData(t, s, Start(b), n));
    }
  }

  /** Single writes */
  lemma WriteAnswer(b: Buffer, size: nat, t: Tables, s: Store, r: seq<bv8>)
    requires Valid(t, s) && r == Reply(b, size, t, s) && size >= 12 && (b[7] == 5 || b[7] == 6)
    ensures if Start(b) < 8192 then IsEcho(b, r) else IsException(b, r, 2)
  {
    hide ErrorReply, EchoReply, Number;
    ExceptionFormed(b, 2);
    EchoFormed(b);
  }

  /** Writes of several values: first the byte count and the size of the message, then the addresses */
  lemma WritesAnswer(b: Buffer, size: nat, t: Tables, s: Store, r: seq<bv8>)
    requires Valid(t, s) && r == Reply(b, size, t, s) && size >= 12 && (b[7] == 15 || b[7] == 16)
    ensures var bytes, last := if b[7] == 15 then (Count(b) + 7) / 8 else 2 * Count(b), Start(b) + Count(b);
      if b[12] as nat != bytes || size < 13 + bytes then IsException(b, r, 3)
      else if Count(b) == 0 || (if b[7] == 15 then Start(b) + 8 * bytes <= 8192 else last <= 8192) then IsEcho(b, r)
      else IsException(b, r, 2)
  {
    hide ErrorReply, EchoReply, Number;
    ExceptionFormed(b, 2);
    ExceptionFormed(b, 3);
    EchoFormed(b);
  }

  // --------------------------------------------------------------------------
  // What is read
  // --------------------------------------------------------------------------

  /** Bit k of the data is the bool k places on; one that nothing is mapped to reads 0. */
  lemma BitsRead(b: Buffer, size: nat, t: Tables, s: Store, r: seq<bv8>, k: nat)
    requires Valid(t, s) && r == Reply(b, size, t, s) && size >= 12 && (b[7] == 1 || b[7] == 2)
    requires var n := (Count(b) + 7) / 8; k < 8 * n && n <= 255 && Start(b) + 8 * n <= 8192
    ensures |r| == 9 + (Count(b) + 7) / 8
    ensures var p := if b[7] == 1 then t.boolOutput[Start(b) + k] else t.boolInput[Start(b) + k];
      BitRead(r[9 + k / 8], k % 8) <==> p.To? && p.cell < |s.bools| && s.bools[p.cell] != 0
  {
    hide DataReply, BitRead, PackedByte, Number, ErrorReply;
    var table, n := if b[7] == 1 then t.boolOutput else t.boolInput, (Count(b) + 7) / 8;
    var data := BitData(table, s.bools, Start(b), n);
    DataFormed(b, data);
    assert r[9..][k / 8] == data[k / 8];
    PackedBits(table, s.bools, Start(b) + 8 * (k / 8), 8, k % 8);
  }

  /** A register in a reply of bytes from position 9 on */
  lemma RegisterBytes(b: Buffer, data: seq<bv8>, i: nat, w: bv16, unglued: bool)
    requires |data| < 256 && 2 * i + 1 < |data| && [data[2 * i], data[2 * i + 1]] == Shown(w, unglued)
    ensures |DataReply(b, data)| == 9 + |data|
    ensures var r := DataReply(b, data);
      if unglued then r[9 + 2 * i] == r[10 + 2 * i] == Low(w) else Number(r[9 + 2 * i], r[10 + 2 * i]) == w as nat
  {
    hide High, Low, DataHeader, Number;
    var r := DataReply(b, data);
    DataFormed(b, data);
    assert r[9..][2 * i] == data[2 * i] && r[9..][2 * i + 1] == data[2 * i + 1];
    assert [data[2 * i], data[2 * i + 1]][0] == Shown(w, unglued)[0];
    assert [data[2 * i], data[2 * i + 1]][1] == Shown(w, unglued)[1];
    WordNumber(w);
  }

  /** The cell behind a 16-bit register: outputs up to address 1024, memory words above */
  function WordCell(t: Tables, p: nat): Pointer
    requires TableShape(t) && p < 2048
  {
    if p < 1024 then t.intOutput[p] else if p == 1024 then t.afterIntOutput else t.intMemory[p - 1024]
  }

  /** Holding registers below 2048 show the number of their cell, or 0. */
  lemma WordsRead(b: Buffer, size: nat, t: Tables, s: Store, r: seq<bv8>, i: nat)
    requires Valid(t, s) && r == Reply(b, size, t, s) && size >= 12 && b[7] == 3
    requires i < Count(b) <= 127 && Start(b) + Count(b) <= 8192 && Start(b) + i < 2048
    ensures |r| == 9 + 2 * Count(b)
    ensures var cell := WordCell(t, Start(b) + i);
      Number(r[9 + 2 * i], r[10 + 2 * i]) ==
        match cell case Null => 0 case To(c) => if c < |s.words| then s.words[c] as nat else 0
  {
    hide DataReply, Shown, Number, ErrorReply, RegisterData;
    RegisterDataAt(t, s, Start(b), Count(b), i);
    RegisterBytes(b, RegisterData(t, s, Start(b), Count(b)), i, Register(t, s, Start(b) + i), false);
  }

  /** From 2048 on they show a half of a 32-bit cell, the high one first, and from 4096 on a quarter of a 64-bit
      cell; where nothing is glued, the low byte of a word of mb_holding_regs, twice. */
  lemma WideRead(b: Buffer, size: nat, t: Tables, s: Store, r: seq<bv8>, i: nat)
    requires Valid(t, s) && r == Reply(b, size, t, s) && size >= 12 && b[7] == 3
    requires i < Count(b) <= 127 && Start(b) + Count(b) <= 8192 && 2048 <= Start(b) + i
    ensures |r| == 9 + 2 * Count(b)
    ensures var p := Start(b) + i;
      var cell := if p < 4096 then t.dintMemory[(p - 2048) / 2] else t.lintMemory[(p - 4096) / 4];
      match cell
      case Null => p < |s.words| && r[9 + 2 * i] == r[10 + 2 * i] == Low(s.words[p])
      case To(c) =>
        if p < 4096 then c < |s.dwords| && Number(r[9 + 2 * i], r[10 + 2 * i]) == Word32(s.dwords[c], (p - 2048) % 2) as nat
        else c < |s.lwords| && Number(r[9 + 2 * i], r[10 + 2 * i]) == Word64(s.lwords[c], (p - 4096) % 4) as nat
  {
    hide DataReply, Shown, Number, ErrorReply, RegisterData, Word32, Word64, Low;
    RegisterDataAt(t, s, Start(b), Count(b), i);
    RegisterBytes(b, RegisterData(t, s, Start(b), Count(b)), i, Register(t, s, Start(b) + i), Unglued(t, Start(b) + i));
  }

  /** Input registers */
  lemma InputsRead(b: Buffer, size: nat, t: Tables, s: Store, r: seq<bv8>, i: nat)
    requires Valid(t, s) && r == Reply(b, size, t, s) && size >= 12 && b[7] == 4
    requires i < Count(b) <= 127 && Start(b) + Count(b) <= 1024
    ensures |r| == 9 + 2 * Count(b)
    ensures Number(r[9 + 2 * i], r[10 + 2 * i]) ==
      match t.intInput[Start(b) + i] case Null => 0 case To(c) => if c < |s.words| then s.words[c] as nat else 0
  {
    hide DataReply, Shown, Number, ErrorReply, InputData;
    InputDataAt(t, s, Start(b), Count(b), i);
    RegisterBytes(b, InputData(t, s, Start(b), Count(b)), i, InputRegister(t, s, Start(b) + i), false);
  }

  // --------------------------------------------------------------------------
  // What is written
  // --------------------------------------------------------------------------

  lemma OnlyWritesWrite(b: Buffer, size: nat, t: Tables, s: Store)
    requires Valid(t, s) && size <= NET_BUFFER_SIZE
    requires size < 12 || !(b[7] == 5 || b[7] == 6 || b[7] == 15 || b[7] == 16)
    ensures After(b, size, t, s) == s
  {
    hide Number;
  }

  /** A single coil is set to 1 for any number but 0, where one is mapped. */
  lemma CoilWritten(b: Buffer, size: nat, t: Tables, s: Store)
    requires Valid(t, s) && 12 <= size <= NET_BUFFER_SIZE && b[7] == 5
    ensures var p := if Start(b) < 8192 then t.boolOutput[Start(b)] else Null;
      match p
      case Null => After(b, size, t, s) == s
      case To(c) => c < |s.bools| && After(b, size, t, s) == s.(bools := s.bools[c := if Count(b) != 0 then 1 else 0])
  {
    hide Number;
  }

  /** A single register takes the number that the tenth and eleventh byte make, and no other register changes. */
  lemma RegisterWritten(b: Buffer, size: nat, t: Tables, s: Store, s': Store, q: nat)
    requires Valid(t, s) && Distinct(Places(t)) && 12 <= size <= NET_BUFFER_SIZE && b[7] == 6 && q < 8192
    requires s' == After(b, size, t, s)
    ensures Valid(t, s') && s'.bools == s.bools
    ensures Register(t, s', q) as nat ==
      if q == Start(b) && PlaceOf(t, q) != Nowhere then Number(b[10], b[11]) else Register(t, s, q) as nat
  {
    hide Number, Register, PlaceOf, Join, Poke;
    JoinNumber(b[10], b[11]);
    AssignRegister(t, s, Start(b), Join(b[10], b[11]), q);
    if Start(b) < 8192 && q != Start(b) && PlaceOf(t, q) == PlaceOf(t, Start(b)) && PlaceOf(t, q) != Nowhere {
      SamePlace(t, q, Start(b));
    }
  }

  lemma SamePlace(t: Tables, p: nat, q: nat)
    requires TableShape(t) && Distinct(Places(t)) && p < 8192 && q < 8192 && p != q
    ensures PlaceOf(t, p) == PlaceOf(t, q) ==> PlaceOf(t, p) == Nowhere
  {
    hide PlaceOf;
    assert Places(t)[p] == PlaceOf(t, p) && Places(t)[q] == PlaceOf(t, q);
  }

  /** Writing a register and reading it back gives the two bytes, exactly at a faithful address. */
  lemma RegisterReadBack(b: Buffer, size: nat, read: Buffer, t: Tables, s: Store, r: seq<bv8>)
    requires Valid(t, s) && Distinct(Places(t)) && 12 <= size <= NET_BUFFER_SIZE && b[7] == 6 && Start(b) < 8192
    requires read[7] == 3 && Start(read) == Start(b) && Count(read) == 1
    requires r == Reply(read, size, t, After(b, size, t, s))
    ensures |r| == 11 && (r[9..] == [b[10], b[11]] <==> Faithful(t, Start(b), Join(b[10], b[11])))
  {
    hide Number, Register, PlaceOf, Join, High, Low, DataReply, ErrorReply, Faithful, Shown, Unglued;
    var w, p := Join(b[10], b[11]), Start(b);
    var s' := After(b, size, t, s);
    AssignRegister(t, s, p, w, p);
    UnwrittenIsZero(t, s', p);
    var data := RegisterData(t, s', p, 1);
    RegisterDataAt(t, s', p, 1, 0);
    DataFormed(read, data);
    assert data == [data[0], data[1]];
    ShownFaithful(t, p, b[10], b[11], w, Register(t, s', p));
  }

  /** Of a block of registers each takes the number of its two bytes. */
  lemma RegistersWritten(b: Buffer, size: nat, t: Tables, s: Store, s': Store, q: nat)
    requires Valid(t, s) && Distinct(Places(t)) && size <= NET_BUFFER_SIZE && b[7] == 16 && q < 8192
    requires size >= 13 + 2 * Count(b) && b[12] as nat == 2 * Count(b) && s' == After(b, size, t, s)
    ensures Valid(t, s') && s'.bools == s.bools
    ensures var k := q - Start(b);
      Register(t, s', q) as nat ==
        if 0 <= k < Count(b) && PlaceOf(t, q) != Nowhere then Number(b[13 + 2 * k], b[14 + 2 * k])
        else Register(t, s, q) as nat
  {
    hide Number, Register, PlaceOf, Join, AssignAll, Words, After;
    var n := Count(b);
    var data := b[13..13 + 2 * n];
    EvenData(data, n);
    var ws := Words(data);
    BlockAssigned(b, size, t, s, n, data, ws);
    BlockWritten(t, s, Start(b), ws, q);
    if Start(b) <= q < Start(b) + n {
      WordWritten(data, q - Start(b));
    }
  }

  lemma EvenData(data: seq<bv8>, n: nat)
    requires |data| == 2 * n
    ensures |data| % 2 == 0
  {
  }

  lemma BlockAssigned(b: Buffer, size: nat, t: Tables, s: Store, n: nat, data: seq<bv8>, ws: seq<bv16>)
    requires |data| == 2 * n && |data| % 2 == 0 && ws == Words(data)
    requires 13 + 2 * n <= size <= NET_BUFFER_SIZE && data == b[13..13 + 2 * n]
    requires Valid(t, s) && b[7] == 16 && n == Count(b) && b[12] as nat == 2 * n
    ensures After(b, size, t, s) == AssignAll(t, s, Start(b), ws)
  {
    hide Number, AssignAll, Words;
  }

  lemma WordWritten(data: seq<bv8>, k: nat)
    requires |data| % 2 == 0 && 2 * k + 1 < |data|
    ensures Words(data)[k] as nat == Number(data[2 * k], data[2 * k + 1])
  {
    hide Number, Join;
    JoinNumber(data[2 * k], data[2 * k + 1]);
  }

  /** Of a block of coils each takes its bit, the padding of the last byte included. */
  lemma CoilsWrittenByRequest(b: Buffer, size: nat, t: Tables, s: Store, s': Store, q: nat)
    requires Valid(t, s) && NoAlias(t.boolOutput) && size <= NET_BUFFER_SIZE && b[7] == 15 && q < 8192
    requires var n := (Count(b) + 7) / 8; size >= 13 + n && b[12] as nat == n
    requires s' == After(b, size, t, s)
    ensures |s'.bools| == |s.bools| && s'.(bools := s.bools) == s
    ensures var k := q - Start(b);
      BoolAt(t.boolOutput, s'.bools, q) ==
        if 0 <= k < 8 * ((Count(b) + 7) / 8) && t.boolOutput[q].To? then BitRead(b[13 + k / 8], k % 8)
        else BoolAt(t.boolOutput, s.bools, q)
  {
    hide Number, BitRead, NoAlias, WriteAllBits, BoolAt;
    CoilsWritten(t, s.bools, Start(b), WrittenBytes(b, (Count(b) + 7) / 8), q);
  }
}
