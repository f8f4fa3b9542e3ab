/**
 The reply that the Modbus/TCP server owes to a request frame, as a function of the frame and of
 the memory it finds. The server's handlers write these bytes over the request in its own buffer.
 */
module ModbusReply {
  import opened Bytes
  import opened RegisterFile

  const NET_BUFFER_SIZE: nat := 10000

  const MB_FC_READ_COILS: bv8 := 1
  const MB_FC_READ_INPUTS: bv8 := 2
  const MB_FC_READ_HOLDING_REGISTERS: bv8 := 3
  const MB_FC_READ_INPUT_REGISTERS: bv8 := 4
  const MB_FC_WRITE_COIL: bv8 := 5
  const MB_FC_WRITE_REGISTER: bv8 := 6
  const MB_FC_WRITE_MULTIPLE_COILS: bv8 := 15
  const MB_FC_WRITE_MULTIPLE_REGISTERS: bv8 := 16

  const MB_FC_DEBUG_INFO: bv8 := 0x41
  const MB_FC_DEBUG_GET_MD5: bv8 := 0x45

  const ERR_NONE: nat := 0
  const ERR_ILLEGAL_FUNCTION: nat := 1
  const ERR_ILLEGAL_DATA_ADDRESS: nat := 2
  const ERR_ILLEGAL_DATA_VALUE: nat := 3

  /** The receive buffer, zeroed before every read: the request and what lies behind it */
  type Buffer = b: seq<bv8> | |b| == NET_BUFFER_SIZE witness seq(NET_BUFFER_SIZE, i => 0)

  function Start(b: Buffer): nat { Number(b[8], b[9]) }

  function Count(b: Buffer): nat { Number(b[10], b[11]) }

  /** Number of bytes that hold `bits` bits */
  function BytesFor(bits: nat): nat {
    (bits + 7) / 8
  }

  // --------------------------------------------------------------------------
  // Frames
  // --------------------------------------------------------------------------

  function ErrorReply(b: Buffer, code: nat): (r: seq<bv8>)
    requires code < 256
    ensures |r| == 9
  {
    b[..4] + [0, 3, b[6], b[7] | 0x80, ByteOf(code)]
  }

  function DataHeader(b: Buffer, bytes: nat): (r: seq<bv8>)
    requires bytes < 256
    ensures |r| == 9
  {
    b[..4] + [HighByte(bytes + 3), LowByte(bytes + 3), b[6], b[7], ByteOf(bytes)]
  }

  function DataReply(b: Buffer, data: seq<bv8>): (r: seq<bv8>)
    requires |data| < 256
    ensures |r| == 9 + |data|
  {
    DataHeader(b, |data|) + data
  }

  /** Writes are confirmed with the first twelve bytes of the request. */
  function EchoReply(b: Buffer): (r: seq<bv8>)
    ensures |r| == 12
  {
    b[..4] + [0, 6] + b[6..12]
  }

  /** The answer to a well-formed write, by whether every address exists */
  function WriteReply(b: Buffer, inRange: bool): seq<bv8> {
    if inRange then EchoReply(b) else ErrorReply(b, ERR_ILLEGAL_DATA_ADDRESS)
  }

  // --------------------------------------------------------------------------
  // Bits
  // --------------------------------------------------------------------------

  /** The byte whose bit j is the bool at position start + j */
  function PackedByte(table: seq<Pointer>, bools: seq<bv8>, start: nat, n: nat): (b: bv8)
    requires PointsInto(table, |bools|) && start + n <= |table| && n <= 8
  {
    if n == 0 then 0
    else BitWrite(PackedByte(table, bools, start, n - 1), n - 1, BoolAt(table, bools, start + n - 1))
  }

  lemma {:induction false} PackedBits(table: seq<Pointer>, bools: seq<bv8>, start: nat, n: nat, j: nat)
    requires PointsInto(table, |bools|) && start + n <= |table| && n <= 8 && j < n
    ensures BitRead(PackedByte(table, bools, start, n), j) == BoolAt(table, bools, start + j)
  {
    ReadWrittenBit(PackedByte(table, bools, start, n - 1), n - 1, BoolAt(table, bools, start + n - 1), j);
    if j < n - 1 {
      PackedBits(table, bools, start, n - 1, j);
    }
  }

  function BitData(table: seq<Pointer>, bools: seq<bv8>, start: nat, bytes: nat): (data: seq<bv8>)
    requires PointsInto(table, |bools|) && start + 8 * bytes <= |table|
    ensures |data| == bytes
  {
    seq(bytes, i requires 0 <= i < bytes => PackedByte(table, bools, start + 8 * i, 8))
  }

  function BitsReply(b: Buffer, table: seq<Pointer>, bools: seq<bv8>, start: nat, bytes: nat): seq<bv8>
    requires PointsInto(table, |bools|) && |table| == MAX_COILS && bytes < 256
  {
    if bytes == 0 then DataReply(b, [])
    else if start + 8 * bytes > MAX_COILS then ErrorReply(b, ERR_ILLEGAL_DATA_ADDRESS)
    else DataReply(b, BitData(table, bools, start, bytes))
  }

  /** Reading coils and discrete inputs: whole bytes of bits */
  function ReadBitsReply(b: Buffer, size: nat, table: seq<Pointer>, bools: seq<bv8>): seq<bv8>
    requires PointsInto(table, |bools|) && |table| == MAX_COILS
  {
    if size < 12 then ErrorReply(b, ERR_ILLEGAL_DATA_VALUE)
    else if BytesFor(Count(b)) > 255 then ErrorReply(b, ERR_ILLEGAL_DATA_ADDRESS)
    else BitsReply(b, table, bools, Start(b), BytesFor(Count(b)))
  }

  /** The bools after a byte of bits was written to the coils from position start on */
  function WriteBits(t: Tables, bools: seq<bv8>, start: nat, v: bv8, n: nat): (r: seq<bv8>)
    requires TableShape(t) && PointsInto(t.boolOutput, |bools|) && n <= 8
    ensures |r| == |bools|
  {
    if n == 0 then bools
    else WriteBit(t, WriteBits(t, bools, start, v, n - 1), start + n - 1, BitRead(v, n - 1))
  }

  function WriteBit(t: Tables, bools: seq<bv8>, position: nat, v: bool): (r: seq<bv8>)
    requires TableShape(t) && PointsInto(t.boolOutput, |bools|)
    ensures |r| == |bools|
  {
    if position < MAX_COILS && t.boolOutput[position].To? then
      bools[t.boolOutput[position].cell := if v then 1 else 0]
    else bools
  }

  function WriteAllBits(t: Tables, bools: seq<bv8>, start: nat, data: seq<bv8>): (r: seq<bv8>)
    requires TableShape(t) && PointsInto(t.boolOutput, |bools|)
    ensures |r| == |bools|
  {
    if |data| == 0 then bools
    else WriteBits(t, WriteAllBits(t, bools, start, data[..|data|-1]), start + 8 * (|data| - 1), data[|data|-1], 8)
  }

  // --------------------------------------------------------------------------
  // Registers
  // --------------------------------------------------------------------------

  /** The two bytes in which a register is shown; an address served from mb_holding_regs shows its
      low byte twice. */
  function Shown(w: bv16, unglued: bool): (r: seq<bv8>)
    ensures |r| == 2
  {
    if unglued then [Low(w), Low(w)] else [High(w), Low(w)]
  }

  function RegisterData(t: Tables, s: Store, start: nat, n: nat): (data: seq<bv8>)
    requires Valid(t, s) && start + n <= ADDRESSES
    ensures |data| == 2 * n
  {
    if n == 0 then []
    else RegisterData(t, s, start, n - 1)
         + Shown(Register(t, s, start + n - 1), Unglued(t, start + n - 1))
  }

  lemma {:induction false} RegisterDataAt(t: Tables, s: Store, start: nat, n: nat, i: nat)
    requires Valid(t, s) && start + n <= ADDRESSES && i < n
    ensures [RegisterData(t, s, start, n)[2 * i], RegisterData(t, s, start, n)[2 * i + 1]]
         == Shown(Register(t, s, start + i), Unglued(t, start + i))
  {
    hide Register, Unglued, Shown;
    if i < n - 1 {
      RegisterDataAt(t, s, start, n - 1, i);
    }
  }

  function InputData(t: Tables, s: Store, start: nat, n: nat): (data: seq<bv8>)
    requires Valid(t, s) && start + n <= MAX_INP_REGS
    ensures |data| == 2 * n
  {
    if n == 0 then []
    else InputData(t, s, start, n - 1) + Shown(InputRegister(t, s, start + n - 1), false)
  }

  lemma {:induction false} InputDataAt(t: Tables, s: Store, start: nat, n: nat, i: nat)
    requires Valid(t, s) && start + n <= MAX_INP_REGS && i < n
    ensures [InputData(t, s, start, n)[2 * i], InputData(t, s, start, n)[2 * i + 1]]
         == Shown(InputRegister(t, s, start + i), false)
  {
    if i < n - 1 {
      InputDataAt(t, s, start, n - 1, i);
    }
  }

  function RegistersReply(b: Buffer, t: Tables, s: Store, start: nat, n: nat): seq<bv8>
    requires Valid(t, s) && n <= 127
  {
    if n == 0 then DataReply(b, [])
    else if start + n > ADDRESSES then ErrorReply(b, ERR_ILLEGAL_DATA_ADDRESS)
    else DataReply(b, RegisterData(t, s, start, n))
  }

  function ReadRegistersReply(b: Buffer, size: nat, t: Tables, s: Store): seq<bv8>
    requires Valid(t, s)
  {
    if size < 12 then ErrorReply(b, ERR_ILLEGAL_DATA_VALUE)
    else if Count(b) > 127 then ErrorReply(b, ERR_ILLEGAL_DATA_ADDRESS)
    else RegistersReply(b, t, s, Start(b), Count(b))
  }

  function InputsReply(b: Buffer, t: Tables, s: Store, start: nat, n: nat): seq<bv8>
    requires Valid(t, s) && n <= 127
  {
    if n == 0 then DataReply(b, [])
    else if start + n > MAX_INP_REGS then ErrorReply(b, ERR_ILLEGAL_DATA_ADDRESS)
    else DataReply(b, InputData(t, s, start, n))
  }

  function ReadInputsReply(b: Buffer, size: nat, t: Tables, s: Store): seq<bv8>
    requires Valid(t, s)
  {
    if size < 12 then ErrorReply(b, ERR_ILLEGAL_DATA_VALUE)
    else if Count(b) > 127 then ErrorReply(b, ERR_ILLEGAL_DATA_ADDRESS)
    else InputsReply(b, t, s, Start(b), Count(b))
  }

  /** The words that a data field holds, two bytes each, most significant first */
  function Words(data: seq<bv8>): (ws: seq<bv16>)
    requires |data| % 2 == 0
    ensures |ws| == |data| / 2
  {
    seq(|data| / 2, i requires 0 <= i < |data| / 2 => Join(data[2 * i], data[2 * i + 1]))
  }

  // --------------------------------------------------------------------------
  // Writes: when they are accepted, what they leave behind and what they answer
  // --------------------------------------------------------------------------

  predicate WellFormedWrite(b: Buffer, size: nat, bytes: nat) {
    12 <= size && 13 + bytes <= size && b[12] as nat == bytes
  }

  function WrittenBytes(b: Buffer, bytes: nat): seq<bv8>
    requires 13 + bytes <= NET_BUFFER_SIZE
  {
    b[13..13 + bytes]
  }

  function AfterWriteRegisters(b: Buffer, size: nat, t: Tables, s: Store): Store
    requires Valid(t, s) && size <= NET_BUFFER_SIZE
  {
    if WellFormedWrite(b, size, 2 * Count(b)) then
      AssignAll(t, s, Start(b), Words(WrittenBytes(b, 2 * Count(b))))
    else s
  }

  function WriteRegistersReply(b: Buffer, size: nat): seq<bv8> {
    if !WellFormedWrite(b, size, 2 * Count(b)) then ErrorReply(b, ERR_ILLEGAL_DATA_VALUE)
    else WriteReply(b, Count(b) == 0 || Start(b) + Count(b) <= ADDRESSES)
  }

  function AfterWriteRegister(b: Buffer, size: nat, t: Tables, s: Store): Store
    requires Valid(t, s)
  {
    if size < 12 then s else Assign(t, s, Start(b), Join(b[10], b[11]))
  }

  function WriteRegisterReply(b: Buffer, size: nat): seq<bv8> {
    if size < 12 then ErrorReply(b, ERR_ILLEGAL_DATA_VALUE)
    else WriteReply(b, Start(b) < ADDRESSES)
  }

  function AfterWriteCoil(b: Buffer, size: nat, t: Tables, bools: seq<bv8>): seq<bv8>
    requires TableShape(t) && PointsInto(t.boolOutput, |bools|)
  {
    if size < 12 then bools else WriteBit(t, bools, Start(b), Count(b) > 0)
  }

  function WriteCoilReply(b: Buffer, size: nat): seq<bv8> {
    if size < 12 then ErrorReply(b, ERR_ILLEGAL_DATA_VALUE)
    else WriteReply(b, Start(b) < MAX_COILS)
  }

  function AfterWriteCoils(b: Buffer, size: nat, t: Tables, bools: seq<bv8>): seq<bv8>
    requires TableShape(t) && PointsInto(t.boolOutput, |bools|) && size <= NET_BUFFER_SIZE
  {
    if WellFormedWrite(b, size, BytesFor(Count(b))) then
      WriteAllBits(t, bools, Start(b), WrittenBytes(b, BytesFor(Count(b))))
    else bools
  }

  function WriteCoilsReply(b: Buffer, size: nat): seq<bv8> {
    var bytes := BytesFor(Count(b));
    if !WellFormedWrite(b, size, bytes) then ErrorReply(b, ERR_ILLEGAL_DATA_VALUE)
    else WriteReply(b, bytes == 0 || Start(b) + 8 * bytes <= MAX_COILS)
  }

  // --------------------------------------------------------------------------
  // Whole requests
  // --------------------------------------------------------------------------

  predicate IsDebugRequest(b: Buffer, size: nat) {
    size >= 8 && MB_FC_DEBUG_INFO <= b[7] <= MB_FC_DEBUG_GET_MD5
  }

  function Reply(b: Buffer, size: nat, t: Tables, s: Store): seq<bv8>
    requires Valid(t, s)
  {
    if size < 8 then ErrorReply(b, ERR_ILLEGAL_FUNCTION)
    else if b[7] == MB_FC_READ_COILS then ReadBitsReply(b, size, t.boolOutput, s.bools)
    else if b[7] == MB_FC_READ_INPUTS then ReadBitsReply(b, size, t.boolInput, s.bools)
    else if b[7] == MB_FC_READ_HOLDING_REGISTERS then ReadRegistersReply(b, size, t, s)
    else if b[7] == MB_FC_READ_INPUT_REGISTERS then ReadInputsReply(b, size, t, s)
    else if b[7] == MB_FC_WRITE_COIL then WriteCoilReply(b, size)
    else if b[7] == MB_FC_WRITE_REGISTER then WriteRegisterReply(b, size)
    else if b[7] == MB_FC_WRITE_MULTIPLE_COILS then WriteCoilsReply(b, size)
    else if b[7] == MB_FC_WRITE_MULTIPLE_REGISTERS then WriteRegistersReply(b, size)
    else ErrorReply(b, ERR_ILLEGAL_FUNCTION)
  }

  function After(b: Buffer, size: nat, t: Tables, s: Store): Store
    requires Valid(t, s) && size <= NET_BUFFER_SIZE
  {
    if size < 8 then s
    else if b[7] == MB_FC_WRITE_COIL then s.(bools := AfterWriteCoil(b, size, t, s.bools))
    else if b[7] == MB_FC_WRITE_REGISTER then AfterWriteRegister(b, size, t, s)
    else if b[7] == MB_FC_WRITE_MULTIPLE_COILS then s.(bools := AfterWriteCoils(b, size, t, s.bools))
    else if b[7] == MB_FC_WRITE_MULTIPLE_REGISTERS then AfterWriteRegisters(b, size, t, s)
    else s
  }
}
