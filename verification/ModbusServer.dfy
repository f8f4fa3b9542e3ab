/**
 The Modbus/TCP server: request handlers that parse a frame, answer it in the same buffer and
 read or update the glued memories. Each handler runs with bufferLock held.
 */
module ModbusServer {
  import opened Bytes
  import opened RegisterFile
  import opened ModbusReply

  class Server {
    var tables: Tables
    var store: Store
    var messageLength: nat

    predicate Ready()
      reads this
    {
      RegisterFile.Valid(tables, store)
    }

    constructor (tables: Tables, store: Store)
      requires RegisterFile.Valid(tables, store)
      ensures Ready() && this.tables == tables && this.store == store && messageLength == 0
    {
      this.tables := tables;
      this.store := store;
      messageLength := 0;
    }

    /** Give the empty slots of one pointer table cells of a Modbus array. */
    method MapSlots(table: seq<Pointer>, base: nat) returns (r: seq<Pointer>)
      ensures r == MapTable(table, base)
    {
      r := table;
      for i := 0 to |table|
        invariant |r| == |table|
        invariant forall j :: 0 <= j < i ==> r[j] == if table[j] == Null then To(base + j) else table[j]
        invariant forall j :: i <= j < |table| ==> r[j] == table[j]
      {
        if r[i] == Null {
          r := r[i := To(base + i)];
        }
      }
    }

    method MapUnusedIO()
      requires Ready()
      modifies this`tables
      ensures Ready() && tables == MapUnused(old(tables))
    {
      var t := tables;
      MapUnusedFills(t, store);
      var boolInput := MapSlots(t.boolInput, DISCRETE_INPUTS);
      var boolOutput := MapSlots(t.boolOutput, COILS);
      var intInput := MapSlots(t.intInput, INPUT_REGS);
      var intOutput := MapSlots(t.intOutput, HOLDING_REGS);
      var intMemory := MapSlots(t.intMemory, HOLDING_REGS + MIN_16B_RANGE);
      tables := t.(boolInput := boolInput, boolOutput := boolOutput,
                   intInput := intInput, intOutput := intOutput, intMemory := intMemory);
    }

    method ModbusError(buffer: array<bv8>, mbError: nat)
      requires buffer.Length == NET_BUFFER_SIZE && mbError < 256
      modifies buffer, this`messageLength
      ensures messageLength == 9
      ensures buffer[..9] == ErrorReply(old(buffer[..]), mbError)
      ensures forall k :: 9 <= k < buffer.Length ==> buffer[k] == old(buffer[k])
    {
      buffer[4] := 0;
      buffer[5] := 3;
      buffer[7] := buffer[7] | 0x80;
      buffer[8] := ByteOf(mbError);
      messageLength := 9;
    }

    /** The first nine bytes of a reply that carries data */
    method BeginData(buffer: array<bv8>, byteDataLength: nat)
      requires buffer.Length == NET_BUFFER_SIZE && byteDataLength < 256
      modifies buffer
      ensures buffer[..9] == DataHeader(old(buffer[..]), byteDataLength)
      ensures forall k :: 9 <= k < buffer.Length ==> buffer[k] == old(buffer[k])
    {
      buffer[4] := HighByte(byteDataLength + 3);
      buffer[5] := LowByte(byteDataLength + 3);
      buffer[8] := ByteOf(byteDataLength);
    }

    /** The end of every read: an error found on the way replaces the whole reply. */
    method EndData(buffer: array<bv8>, byteDataLength: nat, mbError: nat, ghost b: Buffer, ghost data: seq<bv8>)
      requires buffer.Length == NET_BUFFER_SIZE && byteDataLength < 256 && mbError < 256
      requires buffer[..9] == DataHeader(b, byteDataLength) && buffer[9..9 + byteDataLength] == data
      modifies buffer, this`messageLength
      ensures messageLength <= buffer.Length
      ensures buffer[..messageLength] == if mbError == ERR_NONE then DataReply(b, data) else ErrorReply(b, mbError)
    {
      hide HighByte, LowByte, ByteOf;
      if mbError != ERR_NONE {
        ghost var c: Buffer := buffer[..];
        HeaderKeeps(b, c, byteDataLength, mbError);
        ModbusError(buffer, mbError);
      } else {
        messageLength := 9 + byteDataLength;
        assert buffer[..messageLength] == DataHeader(b, byteDataLength) + data;
      }
    }

    // ------------------------------------------------------------------------
    // Reading bits
    // ------------------------------------------------------------------------

    /** Copy eight bits of a bool table to one byte of the buffer; bits past the table are an error. */
    method CopyBits(buffer: array<bv8>, k: nat, table: seq<Pointer>, start: nat) returns (ok: bool)
      requires Ready() && |table| == MAX_COILS && PointsInto(table, |store.bools|) && k < buffer.Length
      modifies buffer
      ensures ok <==> start + 8 <= MAX_COILS
      ensures ok ==> buffer[k] == PackedByte(table, store.bools, start, 8)
      ensures forall m :: 0 <= m < buffer.Length && m != k ==> buffer[m] == old(buffer[m])
    {
      ok := true;
      for j := 0 to 8
        invariant ok <==> start + j <= MAX_COILS || j == 0
        invariant ok ==> forall i :: 0 <= i < j ==> BitRead(buffer[k], i) == BoolAt(table, store.bools, start + i)
        invariant forall m :: 0 <= m < buffer.Length && m != k ==> buffer[m] == old(buffer[m])
      {
        var position := start + j;
        if position < MAX_COILS {
          var bit := table[position].To? && store.bools[table[position].cell] != 0;
          ghost var before := buffer[k];
          buffer[k] := BitWrite(buffer[k], j, bit);
          forall i | 0 <= i <= j
            ensures BitRead(buffer[k], i) == if i == j then bit else BitRead(before, i)
          {
            ReadWrittenBit(before, j, bit, i);
          }
        } else {
          ok := false;
        }
      }
      if ok {
        forall i | 0 <= i < 8
          ensures BitRead(buffer[k], i) == BitRead(PackedByte(table, store.bools, start, 8), i)
        {
          PackedBits(table, store.bools, start, 8, i);
        }
        BitsDetermineByte(buffer[k], PackedByte(table, store.bools, start, 8));
      }
    }

    /** The common text of ReadCoils and ReadDiscreteInputs, which differ only in the table */
    method ReadBits(buffer: array<bv8>, bufferSize: nat, table: seq<Pointer>)
      requires Ready() && buffer.Length == NET_BUFFER_SIZE
      requires |table| == MAX_COILS && PointsInto(table, |store.bools|)
      modifies buffer, this`messageLength
      ensures messageLength <= buffer.Length
      ensures buffer[..messageLength] == ReadBitsReply(old(buffer[..]), bufferSize, table, store.bools)
    {
      hide ErrorReply, EchoReply, ByteOf;
      if bufferSize < 12 {
        ModbusError(buffer, ERR_ILLEGAL_DATA_VALUE);
        return;
      }
      var start := Number(buffer[8], buffer[9]);
      var coilDataLength := Number(buffer[10], buffer[11]);
      var byteDataLength := coilDataLength / 8;
      if byteDataLength * 8 < coilDataLength {
        byteDataLength := byteDataLength + 1;
      }
      assert byteDataLength == BytesFor(coilDataLength);
      if byteDataLength > 255 {
        ModbusError(buffer, ERR_ILLEGAL_DATA_ADDRESS);
        return;
      }
      AnswerBits(buffer, table, start, byteDataLength);
    }

    /** The answer to a request for a number of bytes that fits one reply */
    method AnswerBits(buffer: array<bv8>, table: seq<Pointer>, start: nat, byteDataLength: nat)
      requires Ready() && buffer.Length == NET_BUFFER_SIZE && byteDataLength < 256
      requires |table| == MAX_COILS && PointsInto(table, |store.bools|)
      modifies buffer, this`messageLength
      ensures messageLength <= buffer.Length
      ensures buffer[..messageLength] == BitsReply(old(buffer[..]), table, store.bools, start, byteDataLength)
    {
      hide DataHeader, PackedByte, BoolAt, ByteOf;
      ghost var b := buffer[..];
      BeginData(buffer, byteDataLength);
      var mbError := FillBits(buffer, table, start, byteDataLength);
      EndData(buffer, byteDataLength, mbError, b, buffer[9..9 + byteDataLength]);
    }

    /** The loop over the bytes of the answer */
    method FillBits(buffer: array<bv8>, table: seq<Pointer>, start: nat, byteDataLength: nat) returns (mbError: nat)
      requires Ready() && buffer.Length == NET_BUFFER_SIZE && byteDataLength < 256
      requires |table| == MAX_COILS && PointsInto(table, |store.bools|)
      modifies buffer
      ensures buffer[..9] == old(buffer[..9])
      ensures mbError ==
        if byteDataLength == 0 || start + 8 * byteDataLength <= MAX_COILS then ERR_NONE else ERR_ILLEGAL_DATA_ADDRESS
      ensures mbError == ERR_NONE && byteDataLength > 0 ==>
                buffer[9..9 + byteDataLength] == BitData(table, store.bools, start, byteDataLength)
    {
      mbError := ERR_NONE;
      for i := 0 to byteDataLength
        invariant mbError == if i == 0 || start + 8 * i <= MAX_COILS then ERR_NONE else ERR_ILLEGAL_DATA_ADDRESS
        invariant forall k :: 0 <= k < 9 ==> buffer[k] == old(buffer[k])
        invariant start + 8 * i <= MAX_COILS ==>
                    forall k :: 0 <= k < i ==> buffer[9 + k] == PackedByte(table, store.bools, start + 8 * k, 8)
      {
        var ok := CopyBits(buffer, 9 + i, table, start + i * 8);
        if !ok {
          mbError := ERR_ILLEGAL_DATA_ADDRESS;
        }
      }
    }

    method ReadCoils(buffer: array<bv8>, bufferSize: nat)
      requires Ready() && buffer.Length == NET_BUFFER_SIZE
      modifies buffer, this`messageLength
      ensures messageLength <= buffer.Length
      ensures buffer[..messageLength] == ReadBitsReply(old(buffer[..]), bufferSize, tables.boolOutput, store.bools)
    {
      ReadBits(buffer, bufferSize, tables.boolOutput);
    }

    method ReadDiscreteInputs(buffer: array<bv8>, bufferSize: nat)
      requires Ready() && buffer.Length == NET_BUFFER_SIZE
      modifies buffer, this`messageLength
      ensures messageLength <= buffer.Length
      ensures buffer[..messageLength] == ReadBitsReply(old(buffer[..]), bufferSize, tables.boolInput, store.bools)
    {
      ReadBits(buffer, bufferSize, tables.boolInput);
    }

    // ------------------------------------------------------------------------
    // Reading registers
    // ------------------------------------------------------------------------

    /** The body of the loop of ReadHoldingRegisters: one register to two bytes of the buffer */
    method ShowRegister(buffer: array<bv8>, k: nat, position: nat) returns (mbError: nat)
      requires Ready() && k + 2 <= buffer.Length
      modifies buffer
      ensures mbError == if position < ADDRESSES then ERR_NONE else ERR_ILLEGAL_DATA_ADDRESS
      ensures position < ADDRESSES ==>
                [buffer[k], buffer[k + 1]] == Shown(Register(tables, store, position), Unglued(tables, position))
      ensures forall m :: 0 <= m < buffer.Length && m != k && m != k + 1 ==> buffer[m] == old(buffer[m])
    {
      mbError := ERR_NONE;
      if position <= MIN_16B_RANGE {
        var slot := if position < BUFFER_SIZE then tables.intOutput[position] else tables.afterIntOutput;
        ShowWord(buffer, k, slot);
      } else if position <= MAX_16B_RANGE {
        ShowWord(buffer, k, tables.intMemory[position - MIN_16B_RANGE]);
      } else if position <= MAX_32B_RANGE {
        ShowHalf(buffer, k, position);
      } else if position <= MAX_64B_RANGE {
        ShowQuarter(buffer, k, position);
      } else {
        mbError := ERR_ILLEGAL_DATA_ADDRESS;
      }
    }

    method ShowHalf(buffer: array<bv8>, k: nat, position: nat)
      requires Ready() && k + 2 <= buffer.Length && MIN_32B_RANGE <= position <= MAX_32B_RANGE
      modifies buffer
      ensures [buffer[k], buffer[k + 1]] == Shown(Register(tables, store, position), Unglued(tables, position))
      ensures forall m :: 0 <= m < buffer.Length && m != k && m != k + 1 ==> buffer[m] == old(buffer[m])
    {
      var slot := tables.dintMemory[(position - MIN_32B_RANGE) / 2];
      if slot != Null {
        Put(buffer, k, Word32(store.dwords[slot.cell], (position - MIN_32B_RANGE) % 2));
      } else {
        buffer[k] := Low(store.words[HOLDING_REGS + position]);
        buffer[k + 1] := Low(store.words[HOLDING_REGS + position]);
      }
    }

    method ShowQuarter(buffer: array<bv8>, k: nat, position: nat)
      requires Ready() && k + 2 <= buffer.Length && MIN_64B_RANGE <= position <= MAX_64B_RANGE
      modifies buffer
      ensures [buffer[k], buffer[k + 1]] == Shown(Register(tables, store, position), Unglued(tables, position))
      ensures forall m :: 0 <= m < buffer.Length && m != k && m != k + 1 ==> buffer[m] == old(buffer[m])
    {
      var slot := tables.lintMemory[(position - MIN_64B_RANGE) / 4];
      if slot != Null {
        Put(buffer, k, Word64(store.lwords[slot.cell], (position - MIN_64B_RANGE) % 4));
      } else {
        buffer[k] := Low(store.words[HOLDING_REGS + position]);
        buffer[k + 1] := Low(store.words[HOLDING_REGS + position]);
      }
    }

    /** A word to two bytes, most significant first */
    method Put(buffer: array<bv8>, k: nat, w: bv16)
      requires k + 2 <= buffer.Length
      modifies buffer
      ensures buffer[k] == High(w) && buffer[k + 1] == Low(w)
      ensures forall m :: 0 <= m < buffer.Length && m != k && m != k + 1 ==> buffer[m] == old(buffer[m])
    {
      buffer[k] := High(w);
      buffer[k + 1] := Low(w);
    }

    /** The cell behind a 16-bit slot, or zero, to two bytes */
    method ShowWord(buffer: array<bv8>, k: nat, slot: Pointer)
      requires k + 2 <= buffer.Length && (slot.To? ==> slot.cell < |store.words|)
      modifies buffer
      ensures [buffer[k], buffer[k + 1]] == Shown(if slot.To? then store.words[slot.cell] else 0, false)
      ensures forall m :: 0 <= m < buffer.Length && m != k && m != k + 1 ==> buffer[m] == old(buffer[m])
    {
      if slot != Null {
        Put(buffer, k, store.words[slot.cell]);
      } else {
        buffer[k] := 0;
        buffer[k + 1] := 0;
      }
    }

    method FillRegisters(buffer: array<bv8>, start: nat, wordDataLength: nat) returns (mbError: nat)
      requires Ready() && buffer.Length == NET_BUFFER_SIZE && wordDataLength <= 127
      modifies buffer
      ensures forall k :: 0 <= k < 9 ==> buffer[k] == old(buffer[k])
      ensures mbError ==
        if wordDataLength == 0 || start + wordDataLength <= ADDRESSES then ERR_NONE else ERR_ILLEGAL_DATA_ADDRESS
      ensures mbError == ERR_NONE && wordDataLength > 0 ==>
                buffer[9..9 + 2 * wordDataLength] == RegisterData(tables, store, start, wordDataLength)
    {
      hide Register, RegisterData, Unglued, Shown, PlaceOf, Valid;
      mbError := ERR_NONE;
      ghost var data :=
        if start + wordDataLength <= ADDRESSES then RegisterData(tables, store, start, wordDataLength) else [];
      for i := 0 to wordDataLength
        invariant mbError == if i == 0 || start + i <= ADDRESSES then ERR_NONE else ERR_ILLEGAL_DATA_ADDRESS
        invariant forall k :: 0 <= k < 9 ==> buffer[k] == old(buffer[k])
        invariant start + wordDataLength <= ADDRESSES ==> forall k :: 0 <= k < 2 * i ==> buffer[9 + k] == data[k]
      {
        var error := ShowRegister(buffer, 9 + i * 2, start + i);
        if start + wordDataLength <= ADDRESSES {
          RegisterDataAt(tables, store, start, wordDataLength, i);
        }
        if error != ERR_NONE {
          mbError := error;
        }
      }
    }

    method AnswerRegisters(buffer: array<bv8>, start: nat, wordDataLength: nat)
      requires Ready() && buffer.Length == NET_BUFFER_SIZE && wordDataLength <= 127
      modifies buffer, this`messageLength
      ensures messageLength <= buffer.Length
      ensures buffer[..messageLength] == RegistersReply(old(buffer[..]), tables, store, start, wordDataLength)
    {
      hide DataHeader, Register, Shown, Unglued, ByteOf;
      ghost var b := buffer[..];
      BeginData(buffer, wordDataLength * 2);
      ghost var header := buffer[..9];
      var mbError := FillRegisters(buffer, start, wordDataLength);
      assert buffer[..9] == header;
      EndData(buffer, wordDataLength * 2, mbError, b, buffer[9..9 + wordDataLength * 2]);
    }

    method ReadHoldingRegisters(buffer: array<bv8>, bufferSize: nat)
      requires Ready() && buffer.Length == NET_BUFFER_SIZE
      modifies buffer, this`messageLength
      ensures messageLength <= buffer.Length
      ensures buffer[..messageLength] == ReadRegistersReply(old(buffer[..]), bufferSize, tables, store)
    {
      hide ErrorReply, EchoReply, ByteOf;
      if bufferSize < 12 {
        ModbusError(buffer, ERR_ILLEGAL_DATA_VALUE);
        return;
      }
      var start := Number(buffer[8], buffer[9]);
      var wordDataLength := Number(buffer[10], buffer[11]);
      if wordDataLength * 2 > 255 {
        ModbusError(buffer, ERR_ILLEGAL_DATA_ADDRESS);
        return;
      }
      AnswerRegisters(buffer, start, wordDataLength);
    }

    method ShowInput(buffer: array<bv8>, k: nat, position: nat)
      requires Ready() && k + 2 <= buffer.Length && position < MAX_INP_REGS
      modifies buffer
      ensures [buffer[k], buffer[k + 1]] == Shown(InputRegister(tables, store, position), false)
      ensures forall m :: 0 <= m < buffer.Length && m != k && m != k + 1 ==> buffer[m] == old(buffer[m])
    {
      ShowWord(buffer, k, tables.intInput[position]);
    }

    method FillInputs(buffer: array<bv8>, start: nat, wordDataLength: nat) returns (mbError: nat)
      requires Ready() && buffer.Length == NET_BUFFER_SIZE && wordDataLength <= 127
      modifies buffer
      ensures forall k :: 0 <= k < 9 ==> buffer[k] == old(buffer[k])
      ensures mbError ==
        if wordDataLength == 0 || start + wordDataLength <= MAX_INP_REGS then ERR_NONE else ERR_ILLEGAL_DATA_ADDRESS
      ensures mbError == ERR_NONE && wordDataLength > 0 ==>
                buffer[9..9 + 2 * wordDataLength] == InputData(tables, store, start, wordDataLength)
    {
      hide InputRegister, Shown;
      mbError := ERR_NONE;
      ghost var data :=
        if start + wordDataLength <= MAX_INP_REGS then InputData(tables, store, start, wordDataLength) else [];
      for i := 0 to wordDataLength
        invariant mbError == if i == 0 || start + i <= MAX_INP_REGS then ERR_NONE else ERR_ILLEGAL_DATA_ADDRESS
        invariant forall k :: 0 <= k < 9 ==> buffer[k] == old(buffer[k])
        invariant start + wordDataLength <= MAX_INP_REGS ==> forall k :: 0 <= k < 2 * i ==> buffer[9 + k] == data[k]
      {
        var position := start + i;
        if position < MAX_INP_REGS {
          ShowInput(buffer, 9 + i * 2, position);
          if start + wordDataLength <= MAX_INP_REGS {
            InputDataAt(tables, store, start, wordDataLength, i);
          }
        } else {
          mbError := ERR_ILLEGAL_DATA_ADDRESS;
        }
      }
    }

    method AnswerInputs(buffer: array<bv8>, start: nat, wordDataLength: nat)
      requires Ready() && buffer.Length == NET_BUFFER_SIZE && wordDataLength <= 127
      modifies buffer, this`messageLength
      ensures messageLength <= buffer.Length
      ensures buffer[..messageLength] == InputsReply(old(buffer[..]), tables, store, start, wordDataLength)
    {
      hide DataHeader, InputRegister, Shown, ByteOf;
      ghost var b := buffer[..];
      BeginData(buffer, wordDataLength * 2);
      ghost var header := buffer[..9];
      var mbError := FillInputs(buffer, start, wordDataLength);
      assert buffer[..9] == header;
      EndData(buffer, wordDataLength * 2, mbError, b, buffer[9..9 + wordDataLength * 2]);
    }

    method ReadInputRegisters(buffer: array<bv8>, bufferSize: nat)
      requires Ready() && buffer.Length == NET_BUFFER_SIZE
      modifies buffer, this`messageLength
      ensures messageLength <= buffer.Length
      ensures buffer[..messageLength] == ReadInputsReply(old(buffer[..]), bufferSize, tables, store)
    {
      hide ErrorReply, EchoReply, ByteOf;
      if bufferSize < 12 {
        ModbusError(buffer, ERR_ILLEGAL_DATA_VALUE);
        return;
      }
      var start := Number(buffer[8], buffer[9]);
      var wordDataLength := Number(buffer[10], buffer[11]);
      if wordDataLength * 2 > 255 {
        ModbusError(buffer, ERR_ILLEGAL_DATA_ADDRESS);
        return;
      }
      AnswerInputs(buffer, start, wordDataLength);
    }

    // ------------------------------------------------------------------------
    // Writing
    // ------------------------------------------------------------------------

    /** writeToRegisterWithoutLocking: one word to the cell that an address denotes */
    method WriteToRegister(position: nat, value: bv16) returns (mbError: nat)
      requires Ready()
      modifies this`store
      ensures Ready() && store == Assign(tables, old(store), position, value)
      ensures mbError == if position < ADDRESSES then ERR_NONE else ERR_ILLEGAL_DATA_ADDRESS
    {
      mbError := ERR_NONE;
      if position <= MIN_16B_RANGE {
        var slot := if position < BUFFER_SIZE then tables.intOutput[position] else tables.afterIntOutput;
        if slot != Null {
          store := store.(words := store.words[slot.cell := value]);
        }
      } else if position <= MAX_16B_RANGE {
        var slot := tables.intMemory[position - MIN_16B_RANGE];
        if slot != Null {
          store := store.(words := store.words[slot.cell := value]);
        }
      } else if position <= MAX_32B_RANGE {
        WriteHalf(position, value);
      } else if position <= MAX_64B_RANGE {
        WriteQuarter(position, value);
      } else {
        mbError := ERR_ILLEGAL_DATA_ADDRESS;
      }
    }

    method WriteHalf(position: nat, value: bv16)
      requires Ready() && MIN_32B_RANGE <= position <= MAX_32B_RANGE
      modifies this`store
      ensures store == Assign(tables, old(store), position, value)
    {
      var slot := tables.dintMemory[(position - MIN_32B_RANGE) / 2];
      if slot == Null {
        store := store.(words := store.words[HOLDING_REGS + position := value]);
      } else {
        var bitOffset := (1 - (position - MIN_32B_RANGE) % 2) * 16;
        store := store.(dwords := store.dwords[slot.cell := Overwrite32(store.dwords[slot.cell], bitOffset, value)]);
      }
    }

    method WriteQuarter(position: nat, value: bv16)
      requires Ready() && MIN_64B_RANGE <= position <= MAX_64B_RANGE
      modifies this`store
      ensures store == Assign(tables, old(store), position, value)
    {
      var slot := tables.lintMemory[(position - MIN_64B_RANGE) / 4];
      if slot == Null {
        store := store.(words := store.words[HOLDING_REGS + position := value]);
      } else {
        var bitOffset := (3 - (position - MIN_64B_RANGE) % 4) * 16;
        store := store.(lwords := store.lwords[slot.cell := Overwrite64(store.lwords[slot.cell], bitOffset, value)]);
      }
    }

    /** The end of every write: the request is echoed, or answered with the error found. */
    method EndWrite(buffer: array<bv8>, mbError: nat)
      requires buffer.Length == NET_BUFFER_SIZE && mbError < 256
      modifies buffer, this`messageLength
      ensures messageLength <= buffer.Length
      requires mbError == ERR_NONE || mbError == ERR_ILLEGAL_DATA_ADDRESS
      ensures buffer[..messageLength] == WriteReply(old(buffer[..]), mbError == ERR_NONE)
    {
      if mbError != ERR_NONE {
        ModbusError(buffer, mbError);
      } else {
        buffer[4] := 0;
        buffer[5] := 6;
        messageLength := 12;
      }
    }

    method WriteCoil(buffer: array<bv8>, bufferSize: nat)
      requires Ready() && buffer.Length == NET_BUFFER_SIZE
      modifies buffer, this`messageLength, this`store
      ensures Ready() && messageLength <= buffer.Length
      ensures store == old(store).(bools := AfterWriteCoil(old(buffer[..]), bufferSize, tables, old(store).bools))
      ensures buffer[..messageLength] == WriteCoilReply(old(buffer[..]), bufferSize)
    {
      hide ErrorReply, EchoReply, ByteOf;
      if bufferSize < 12 {
        ModbusError(buffer, ERR_ILLEGAL_DATA_VALUE);
        return;
      }
      var mbError := ERR_NONE;
      var start := Number(buffer[8], buffer[9]);
      if start < MAX_COILS {
        var value: bv8 := if Number(buffer[10], buffer[11]) > 0 then 1 else 0;
        if tables.boolOutput[start] != Null {
          store := store.(bools := store.bools[tables.boolOutput[start].cell := value]);
        }
      } else {
        mbError := ERR_ILLEGAL_DATA_ADDRESS;
      }
      EndWrite(buffer, mbError);
    }

    method WriteRegister(buffer: array<bv8>, bufferSize: nat)
      requires Ready() && buffer.Length == NET_BUFFER_SIZE
      modifies buffer, this`messageLength, this`store
      ensures Ready() && messageLength <= buffer.Length
      ensures store == AfterWriteRegister(old(buffer[..]), bufferSize, tables, old(store))
      ensures buffer[..messageLength] == WriteRegisterReply(old(buffer[..]), bufferSize)
    {
      if bufferSize < 12 {
        ModbusError(buffer, ERR_ILLEGAL_DATA_VALUE);
        return;
      }
      var start := Number(buffer[8], buffer[9]);
      var mbError := WriteToRegister(start, Join(buffer[10], buffer[11]));
      EndWrite(buffer, mbError);
    }

    /** The bits of one byte of a coil write */
    method StoreBits(start: nat, v: bv8) returns (mbError: nat)
      requires Ready()
      modifies this`store
      ensures Ready() && store == old(store).(bools := WriteBits(tables, old(store).bools, start, v, 8))
      ensures mbError == if start + 8 <= MAX_COILS then ERR_NONE else ERR_ILLEGAL_DATA_ADDRESS
    {
      mbError := ERR_NONE;
      for j := 0 to 8
        invariant Ready() && store == old(store).(bools := WriteBits(tables, old(store).bools, start, v, j))
        invariant mbError == if j == 0 || start + j <= MAX_COILS then ERR_NONE else ERR_ILLEGAL_DATA_ADDRESS
      {
        var position := start + j;
        if position < MAX_COILS {
          if tables.boolOutput[position] != Null {
            store := store.(bools := store.bools[tables.boolOutput[position].cell := if BitRead(v, j) then 1 else 0]);
          }
        } else {
          mbError := ERR_ILLEGAL_DATA_ADDRESS;
        }
      }
    }

    method StoreAllBits(buffer: array<bv8>, start: nat, byteDataLength: nat) returns (mbError: nat)
      requires Ready() && 13 + byteDataLength <= buffer.Length
      modifies this`store
      ensures Ready()
      ensures store == old(store).(bools := WriteAllBits(tables, old(store).bools, start, buffer[13..13 + byteDataLength]))
      ensures mbError ==
        if byteDataLength == 0 || start + 8 * byteDataLength <= MAX_COILS then ERR_NONE else ERR_ILLEGAL_DATA_ADDRESS
    {
      mbError := ERR_NONE;
      for i := 0 to byteDataLength
        invariant Ready()
        invariant store == old(store).(bools := WriteAllBits(tables, old(store).bools, start, buffer[13..13 + i]))
        invariant mbError == if i == 0 || start + 8 * i <= MAX_COILS then ERR_NONE else ERR_ILLEGAL_DATA_ADDRESS
      {
        ghost var data := buffer[13..13 + i + 1];
        assert data[..i] == buffer[13..13 + i] && data[i] == buffer[13 + i];
        var error := StoreBits(start + i * 8, buffer[13 + i]);
        if error != ERR_NONE {
          mbError := error;
        }
      }
    }

    method WriteMultipleCoils(buffer: array<bv8>, bufferSize: nat)
      requires Ready() && buffer.Length == NET_BUFFER_SIZE && bufferSize <= buffer.Length
      modifies buffer, this`messageLength, this`store
      ensures Ready() && messageLength <= buffer.Length
      ensures store == old(store).(bools := AfterWriteCoils(old(buffer[..]), bufferSize, tables, old(store).bools))
      ensures buffer[..messageLength] == WriteCoilsReply(old(buffer[..]), bufferSize)
    {
      hide ErrorReply, EchoReply, ByteOf;
      if bufferSize < 12 {
        ModbusError(buffer, ERR_ILLEGAL_DATA_VALUE);
        return;
      }
      var coilDataLength := Number(buffer[10], buffer[11]);
      var byteDataLength := coilDataLength / 8;
      if byteDataLength * 8 < coilDataLength {
        byteDataLength := byteDataLength + 1;
      }
      assert byteDataLength == BytesFor(coilDataLength);
      CheckCoilWrite(buffer, bufferSize, byteDataLength);
    }

    /** Whether the message is as long as its byte count says, and the count what the request calls for */
    method HasData(buffer: array<bv8>, bufferSize: nat, bytes: nat) returns (wellFormed: bool)
      requires buffer.Length == NET_BUFFER_SIZE && 12 <= bufferSize <= buffer.Length
      ensures wellFormed <==> WellFormedWrite(buffer[..], bufferSize, bytes)
      ensures wellFormed ==> 13 + bytes <= bufferSize
    {
      wellFormed := !(bufferSize < 13 + bytes || buffer[12] as nat != bytes);
    }

    /** Writes the coils when the size covers the data that the byte count announces. */
    method CheckCoilWrite(buffer: array<bv8>, bufferSize: nat, byteDataLength: nat)
      requires Ready() && buffer.Length == NET_BUFFER_SIZE && 12 <= bufferSize <= buffer.Length
      requires byteDataLength == BytesFor(Count(buffer[..]))
      modifies buffer, this`messageLength, this`store
      ensures Ready() && messageLength <= buffer.Length
      ensures store == old(store).(bools := AfterWriteCoils(old(buffer[..]), bufferSize, tables, old(store).bools))
      ensures buffer[..messageLength] == WriteCoilsReply(old(buffer[..]), bufferSize)
    {
      hide ErrorReply, EchoReply, ByteOf, WellFormedWrite;
      var wellFormed := HasData(buffer, bufferSize, byteDataLength);
      if !wellFormed {
        ModbusError(buffer, ERR_ILLEGAL_DATA_VALUE);
      } else {
        AnswerCoilWrite(buffer, Number(buffer[8], buffer[9]), byteDataLength);
      }
    }

    method AnswerCoilWrite(buffer: array<bv8>, start: nat, byteDataLength: nat)
      requires Ready() && buffer.Length == NET_BUFFER_SIZE && 13 + byteDataLength <= buffer.Length
      modifies buffer, this`messageLength, this`store
      ensures Ready() && messageLength <= buffer.Length
      ensures store == old(store).(bools :=
                WriteAllBits(tables, old(store).bools, start, WrittenBytes(old(buffer[..]), byteDataLength)))
      ensures buffer[..messageLength] ==
                WriteReply(old(buffer[..]), byteDataLength == 0 || start + 8 * byteDataLength <= MAX_COILS)
    {
      hide WriteReply, WriteAllBits;
      ghost var b := buffer[..];
      var mbError := StoreAllBits(buffer, start, byteDataLength);
      assert buffer[13..13 + byteDataLength] == WrittenBytes(b, byteDataLength);
      EndWrite(buffer, mbError);
    }

    /** The loop over the words of a register write; ws names the words in the buffer */
    method StoreWords(buffer: array<bv8>, start: nat, wordDataLength: nat, ghost ws: seq<bv16>) returns (mbError: nat)
      requires Ready() && 13 + 2 * wordDataLength <= buffer.Length && |ws| == wordDataLength
      requires forall i :: 0 <= i < wordDataLength ==> ws[i] == Join(buffer[13 + i * 2], buffer[14 + i * 2])
      modifies this`store
      ensures Ready() && store == AssignAll(tables, old(store), start, ws)
      ensures mbError ==
        if wordDataLength == 0 || start + wordDataLength <= ADDRESSES then ERR_NONE else ERR_ILLEGAL_DATA_ADDRESS
    {
      hide Assign, Join, PlaceOf;
      mbError := ERR_NONE;
      for i := 0 to wordDataLength
        invariant Ready() && store == AssignAll(tables, old(store), start, ws[..i])
        invariant mbError == if i == 0 || start + i <= ADDRESSES then ERR_NONE else ERR_ILLEGAL_DATA_ADDRESS
      {
        AssignAllNext(tables, old(store), start, ws, i);
        var value := Join(buffer[13 + i * 2], buffer[14 + i * 2]);
        var error := WriteToRegister(start + i, value);
        if error != ERR_NONE {
          mbError := error;
        }
      }
      assert ws[..wordDataLength] == ws;
    }

    method WriteMultipleRegisters(buffer: array<bv8>, bufferSize: nat)
      requires Ready() && buffer.Length == NET_BUFFER_SIZE && bufferSize <= buffer.Length
      modifies buffer, this`messageLength, this`store
      ensures Ready() && messageLength <= buffer.Length
      ensures store == AfterWriteRegisters(old(buffer[..]), bufferSize, tables, old(store))
      ensures buffer[..messageLength] == WriteRegistersReply(old(buffer[..]), bufferSize)
    {
      hide ErrorReply, EchoReply, ByteOf;
      if bufferSize < 12 {
        ModbusError(buffer, ERR_ILLEGAL_DATA_VALUE);
        return;
      }
      CheckRegisterWrite(buffer, bufferSize, Number(buffer[10], buffer[11]));
    }

    method CheckRegisterWrite(buffer: array<bv8>, bufferSize: nat, wordDataLength: nat)
      requires Ready() && buffer.Length == NET_BUFFER_SIZE && 12 <= bufferSize <= buffer.Length
      requires wordDataLength == Count(buffer[..])
      modifies buffer, this`messageLength, this`store
      ensures Ready() && messageLength <= buffer.Length
      ensures store == AfterWriteRegisters(old(buffer[..]), bufferSize, tables, old(store))
      ensures buffer[..messageLength] == WriteRegistersReply(old(buffer[..]), bufferSize)
    {
      hide ErrorReply, EchoReply, ByteOf, Words, WrittenBytes, AssignAll, Number, WriteReply, Valid, WellFormedWrite;
      var wellFormed := HasData(buffer, bufferSize, wordDataLength * 2);
      if !wellFormed {
        ModbusError(buffer, ERR_ILLEGAL_DATA_VALUE);
      } else {
        AnswerRegisterWrite(buffer, Number(buffer[8], buffer[9]), wordDataLength);
      }
    }

    method AnswerRegisterWrite(buffer: array<bv8>, start: nat, wordDataLength: nat)
      requires Ready() && buffer.Length == NET_BUFFER_SIZE && 13 + 2 * wordDataLength <= buffer.Length
      modifies buffer, this`messageLength, this`store
      ensures Ready() && messageLength <= buffer.Length
      ensures store == AssignAll(tables, old(store), start, Words(WrittenBytes(old(buffer[..]), 2 * wordDataLength)))
      ensures buffer[..messageLength] ==
                WriteReply(old(buffer[..]), wordDataLength == 0 || start + wordDataLength <= ADDRESSES)
    {
      hide WriteReply, AssignAll;
      ghost var b := buffer[..];
      var mbError := StoreWords(buffer, start, wordDataLength, Words(WrittenBytes(b, 2 * wordDataLength)));
      EndWrite(buffer, mbError);
    }

    // ------------------------------------------------------------------------
    // Dispatch
    // ------------------------------------------------------------------------

    /** The request is answered in place; the debugger's own function codes are left to it. */
    method ProcessModbusMessage(buffer: array<bv8>, bufferSize: nat) returns (handled: bool)
      requires Ready() && buffer.Length == NET_BUFFER_SIZE && bufferSize <= buffer.Length
      modifies buffer, this`messageLength, this`store
      ensures handled <==> !IsDebugRequest(old(buffer[..]), bufferSize)
      ensures handled <==> !(bufferSize >= 8 && 0x41 <= old(buffer[7]) <= 0x45)
      ensures Ready()
      ensures !handled ==> buffer[..] == old(buffer[..]) && store == old(store)
      ensures handled ==>
                && messageLength <= buffer.Length
                && buffer[..messageLength] == Reply(old(buffer[..]), bufferSize, tables, old(store))
                && store == After(old(buffer[..]), bufferSize, tables, old(store))
    {
      hide ErrorReply, ReadBitsReply, ReadRegistersReply, ReadInputsReply, WriteCoilReply, WriteRegisterReply,
        WriteCoilsReply, WriteRegistersReply, AfterWriteCoil, AfterWriteCoils, AfterWriteRegister, AfterWriteRegisters;
      messageLength := 0;
      handled := true;
      if bufferSize < 8 {
        ModbusError(buffer, ERR_ILLEGAL_FUNCTION);
      } else if buffer[7] == MB_FC_READ_COILS {
        ReadCoils(buffer, bufferSize);
      } else if buffer[7] == MB_FC_READ_INPUTS {
        ReadDiscreteInputs(buffer, bufferSize);
      } else if buffer[7] == MB_FC_READ_HOLDING_REGISTERS {
        ReadHoldingRegisters(buffer, bufferSize);
      } else if buffer[7] == MB_FC_READ_INPUT_REGISTERS {
        ReadInputRegisters(buffer, bufferSize);
      } else if buffer[7] == MB_FC_WRITE_COIL {
        WriteCoil(buffer, bufferSize);
      } else if buffer[7] == MB_FC_WRITE_REGISTER {
        WriteRegister(buffer, bufferSize);
      } else if buffer[7] == MB_FC_WRITE_MULTIPLE_COILS {
        WriteMultipleCoils(buffer, bufferSize);
      } else if buffer[7] == MB_FC_WRITE_MULTIPLE_REGISTERS {
        WriteMultipleRegisters(buffer, bufferSize);
      } else if MB_FC_DEBUG_INFO <= buffer[7] <= MB_FC_DEBUG_GET_MD5 {
        handled := false;
      } else {
        ModbusError(buffer, ERR_ILLEGAL_FUNCTION);
      }
    }
  }

  /** An error found after the header of a data reply was written is answered as if it had not been. */
  lemma HeaderKeeps(b: Buffer, c: Buffer, n: nat, code: nat)
    requires n < 256 && code < 256
    requires c[..9] == DataHeader(b, n)
    ensures ErrorReply(c, code) == ErrorReply(b, code)
  {
    var r := DataHeader(b, n);
    assert r[..4] == b[..4] && r[6] == b[6] && r[7] == b[7];
    assert c[..9][..4] == c[..4] && c[..9][6] == c[6] && c[..9][7] == c[7];
  }
}
