/**
 The requests of the Modbus/TCP client of libmodbus: their bytes, their data and their numbering.
 */
module TcpRequest {
  import opened Bytes
  import opened ModbusReply

  const TRANSACTIONS: nat := 0x10000
  const MAX_MESSAGE_LENGTH: nat := 260
  const MODBUS_MAX_READ_BITS: nat := 2000
  const MODBUS_MAX_WRITE_BITS: nat := 1968
  const MODBUS_MAX_READ_REGISTERS: nat := 125
  const MODBUS_MAX_WRITE_REGISTERS: nat := 123

  // --------------------------------------------------------------------------
  // What is asked for, and what must be sent
  // --------------------------------------------------------------------------

  /** A call of the library */
  datatype Ask =
    | ReadBits(addr: nat, nb: nat) | ReadInputBits(addr: nat, nb: nat)
    | ReadRegisters(addr: nat, nb: nat) | ReadInputRegisters(addr: nat, nb: nat)
    | WriteBit(addr: nat, status: bool) | WriteRegister(addr: nat, value: nat)
    | WriteBits(addr: nat, bits: seq<bv8>) | WriteRegisters(addr: nat, words: seq<bv16>)

  function FunctionOf(ask: Ask): bv8 {
    match ask
    case ReadBits(_, _) => MB_FC_READ_COILS
    case ReadInputBits(_, _) => MB_FC_READ_INPUTS
    case ReadRegisters(_, _) => MB_FC_READ_HOLDING_REGISTERS
    case ReadInputRegisters(_, _) => MB_FC_READ_INPUT_REGISTERS
    case WriteBit(_, _) => MB_FC_WRITE_COIL
    case WriteRegister(_, _) => MB_FC_WRITE_REGISTER
    case WriteBits(_, _) => MB_FC_WRITE_MULTIPLE_COILS
    case WriteRegisters(_, _) => MB_FC_WRITE_MULTIPLE_REGISTERS
  }

  /** The number in the tenth and eleventh byte: a count, or the value of a single write */
  function NumberOf(ask: Ask): nat {
    match ask
    case WriteBit(_, status) => if status then 0xFF00 else 0
    case WriteRegister(_, value) => value
    case WriteBits(_, bits) => |bits|
    case WriteRegisters(_, words) => |words|
    case _ => ask.nb
  }

  /** Calls for too many values end before anything is sent. */
  predicate TooMany(ask: Ask) {
    match ask
    case WriteBits(_, bits) => |bits| > MODBUS_MAX_WRITE_BITS
    case WriteRegisters(_, words) => |words| > MODBUS_MAX_WRITE_REGISTERS
    case WriteBit(_, _) => false
    case WriteRegister(_, _) => false
    case ReadBits(_, nb) => nb > MODBUS_MAX_READ_BITS
    case ReadInputBits(_, nb) => nb > MODBUS_MAX_READ_BITS
    case _ => ask.nb > MODBUS_MAX_READ_REGISTERS
  }

  /** Addresses and values are 16 bits wide. */
  predicate Askable(ask: Ask) {
    ask.addr < 0x10000 && (ask.WriteRegister? ==> ask.value < 0x10000)
  }

  /** The byte with the next n bits, the first one lowest */
  function BitsByte(bits: seq<bv8>, from: nat, n: nat): bv8
    requires from + n <= |bits| && n <= 8
  {
    if n == 0 then 0 else BitWrite(BitsByte(bits, from, n - 1), n - 1, bits[from + n - 1] != 0)
  }

  /** How many bits there are for a byte */
  function BitsFrom(bits: seq<bv8>, from: nat): nat {
    if from >= |bits| then 0 else if |bits| - from < 8 then |bits| - from else 8
  }

  function BitBytes(bits: seq<bv8>, bytes: nat): (data: seq<bv8>)
    ensures |data| == bytes
  {
    seq(bytes, i requires 0 <= i < bytes =>
      if 8 * i < |bits| then BitsByte(bits, 8 * i, BitsFrom(bits, 8 * i)) else 0)
  }

  function WordBytes(words: seq<bv16>): (data: seq<bv8>)
    ensures |data| == 2 * |words|
  {
    seq(2 * |words|, k requires 0 <= k < 2 * |words| => if k % 2 == 0 then High(words[k / 2]) else Low(words[k / 2]))
  }

  /** The data behind the twelfth byte, without the byte count */
  function Data(ask: Ask): seq<bv8> {
    match ask
    case WriteBits(_, bits) => BitBytes(bits, BytesFor(|bits|))
    case WriteRegisters(_, words) => WordBytes(words)
    case _ => []
  }

  /** Everything behind the twelfth byte */
  function Payload(ask: Ask): (p: seq<bv8>)
    requires !TooMany(ask)
    ensures |p| <= 247
  {
    if ask.WriteBits? || ask.WriteRegisters? then [ByteOf(|Data(ask)|)] + Data(ask) else []
  }

  /** The request for a call: the twelve bytes, the length of what follows the sixth, and the data */
  predicate RequestFor(ask: Ask, slave: bv8, frame: seq<bv8>)
    requires !TooMany(ask)
  {
    && |frame| == 12 + |Payload(ask)| && frame[2] == 0 && frame[3] == 0
    && Number(frame[4], frame[5]) == 6 + |Payload(ask)|
    && frame[6] == slave && frame[7] == FunctionOf(ask)
    && Number(frame[8], frame[9]) == ask.addr && Number(frame[10], frame[11]) == NumberOf(ask)
    && frame[12..] == Payload(ask)
  }

  /** The calls for which a request is sent */
  function Sent(asks: seq<Ask>): (sent: seq<Ask>)
    ensures |sent| <= |asks|
    ensures forall k :: 0 <= k < |sent| ==> !TooMany(sent[k])
  {
    if |asks| == 0 then []
    else Sent(asks[..|asks| - 1]) + if TooMany(asks[|asks| - 1]) then [] else [asks[|asks| - 1]]
  }

  /** Bit k of the data is the k-th one to write, and behind the last one there are zeros. */
  lemma {:induction false} ByteBits(bits: seq<bv8>, from: nat, n: nat, j: nat)
    requires from + n <= |bits| && n <= 8 && j < 8
    ensures BitRead(BitsByte(bits, from, n), j) == (j < n && bits[from + j] != 0)
    decreases n
  {
    if n > 0 {
      ByteBits(bits, from, n - 1, j);
      ReadWrittenBit(BitsByte(bits, from, n - 1), n - 1, bits[from + n - 1] != 0, j);
    } else {
      NoBits(j);
    }
  }

  lemma NoBits(j: nat)
    requires j < 8
    ensures !BitRead(0, j)
  {
  }

  lemma WordsOfBytes(words: seq<bv16>)
    ensures Words(WordBytes(words)) == words
  {
    hide Join, High, Low;
    forall i | 0 <= i < |words|
      ensures Words(WordBytes(words))[i] == words[i]
    {
      SplitJoins(words[i]);
    }
  }

  // --------------------------------------------------------------------------
  // Numbering
  // --------------------------------------------------------------------------

  /** The identifier of the n-th request after one that had identifier t */
  function Later(t: nat, n: nat): (r: nat)
    ensures r < TRANSACTIONS
  {
    (t + n) % TRANSACTIONS
  }

  /** Building one more request moves on to the next identifier. */
  lemma LaterNext(t: nat, n: nat)
    ensures Later(t, n + 1) == (Later(t, n) + 1) % TRANSACTIONS
  {
  }

  lemma LaterNone(t: nat)
    requires t < TRANSACTIONS
    ensures Later(t, 0) == t
  {
  }

  /** Requests under consecutive transaction identifiers, the first one after t */
  predicate Numbered(frames: seq<seq<bv8>>, t: nat) {
    forall k :: 0 <= k < |frames| ==> |frames[k]| >= 12 && Number(frames[k][0], frames[k][1]) == Later(t, k + 1)
  }

  // --------------------------------------------------------------------------
  // The client
  // --------------------------------------------------------------------------

  /** A 16-bit number in two bytes, most significant first */
  method PutNumber(req: array<bv8>, k: nat, n: nat)
    requires k + 2 <= req.Length && n < 0x10000
    modifies req
    ensures Number(req[k], req[k + 1]) == n
    ensures forall m :: 0 <= m < req.Length && m != k && m != k + 1 ==> req[m] == old(req[m])
  {
    NumberOfBytes(n);
    req[k] := HighByte(n);
    req[k + 1] := LowByte(n);
  }

  /** The bits of one byte, until it is full or there are no more */
  method PutBits(req: array<bv8>, at: nat, bits: seq<bv8>, from: nat)
    requires at < req.Length && from < |bits|
    modifies req
    ensures req[at] == BitsByte(bits, from, BitsFrom(bits, from))
    ensures forall m :: 0 <= m < req.Length && m != at ==> req[m] == old(req[m])
  {
    hide BitWrite;
    req[at] := 0;
    var j := 0;
    while j < 8 && from + j < |bits|
      invariant j <= 8 && from + j <= |bits| && req[at] == BitsByte(bits, from, j)
      invariant forall m :: 0 <= m < req.Length && m != at ==> req[m] == old(req[m])
    {
      req[at] := BitWrite(req[at], j, bits[from + j] != 0);
      j := j + 1;
    }
  }

  method PutAllBits(req: array<bv8>, bits: seq<bv8>, byteCount: nat)
    requires byteCount == BytesFor(|bits|) <= 246 && req.Length == MAX_MESSAGE_LENGTH
    modifies req
    ensures req[13..13 + byteCount] == BitBytes(bits, byteCount)
    ensures forall m :: 0 <= m < 13 ==> req[m] == old(req[m])
  {
    ghost var data := BitBytes(bits, byteCount);
    assert forall k :: 0 <= k < byteCount ==> 8 * k < |bits| && data[k] == BitsByte(bits, 8 * k, BitsFrom(bits, 8 * k));
    hide BitsByte, BitBytes, BitsFrom;
    for i := 0 to byteCount
      invariant forall k :: 0 <= k < i ==> req[13 + k] == data[k]
      invariant forall m :: 0 <= m < 13 ==> req[m] == old(req[m])
    {
      PutBits(req, 13 + i, bits, 8 * i);
    }
  }

  method PutWords(req: array<bv8>, words: seq<bv16>)
    requires |words| <= MODBUS_MAX_WRITE_REGISTERS && req.Length == MAX_MESSAGE_LENGTH
    modifies req
    ensures req[13..13 + 2 * |words|] == WordBytes(words)
    ensures forall m :: 0 <= m < 13 ==> req[m] == old(req[m])
  {
    ghost var data := WordBytes(words);
    hide High, Low, WordBytes;
    var at := 13;
    for i := 0 to |words|
      invariant at == 13 + 2 * i
      invariant forall k :: 13 <= k < at ==> req[k] == data[k - 13]
      invariant forall m :: 0 <= m < 13 ==> req[m] == old(req[m])
    {
      PutWord(req, at, words[i]);
      BytesOfWord(words, i);
      at := at + 2;
    }
  }

  method PutWord(req: array<bv8>, at: nat, w: bv16)
    requires at + 2 <= req.Length
    modifies req
    ensures req[at] == High(w) && req[at + 1] == Low(w)
    ensures forall m :: 0 <= m < req.Length && m != at && m != at + 1 ==> req[m] == old(req[m])
  {
    hide High, Low;
    req[at] := High(w);
    req[at + 1] := Low(w);
  }

  lemma BytesOfWord(words: seq<bv16>, i: nat)
    requires i < |words|
    ensures WordBytes(words)[2 * i] == High(words[i]) && WordBytes(words)[2 * i + 1] == Low(words[i])
  {
  }

  /** The byte count and the data of a write */
  method PutPayload(ask: Ask, req: array<bv8>) returns (length: nat)
    requires !TooMany(ask) && req.Length == MAX_MESSAGE_LENGTH
    modifies req
    ensures length == 12 + |Payload(ask)| <= req.Length && req[12..length] == Payload(ask)
    ensures forall m :: 0 <= m < 12 ==> req[m] == old(req[m])
  {
    hide ByteOf, BitBytes, WordBytes;
    length := 12;
    if ask.WriteBits? || ask.WriteRegisters? {
      length := PutCountAndData(ask, req);
    }
  }

  method PutCountAndData(ask: Ask, req: array<bv8>) returns (length: nat)
    requires !TooMany(ask) && (ask.WriteBits? || ask.WriteRegisters?) && req.Length == MAX_MESSAGE_LENGTH
    modifies req
    ensures length == 13 + |Data(ask)| <= req.Length && req[12..length] == [ByteOf(|Data(ask)|)] + Data(ask)
    ensures forall m :: 0 <= m < 12 ==> req[m] == old(req[m])
  {
    hide ByteOf, BitBytes, WordBytes;
    var byteCount := if ask.WriteBits? then |ask.bits| / 8 + (if |ask.bits| % 8 != 0 then 1 else 0) else |ask.words| * 2;
    assert byteCount == |Data(ask)| <= 246;
    length := 13 + byteCount;
    req[12] := ByteOf(byteCount);
    ghost var count, data := req[12], Data(ask);
    PutData(ask, req, byteCount);
    hide Data, TooMany;
    CountAndData(req[..length], count, data);
  }

  method PutData(ask: Ask, req: array<bv8>, byteCount: nat)
    requires !TooMany(ask) && (ask.WriteBits? || ask.WriteRegisters?) && req.Length == MAX_MESSAGE_LENGTH
    requires byteCount == |Data(ask)|
    modifies req
    ensures 13 + |Data(ask)| <= req.Length && req[13..13 + |Data(ask)|] == Data(ask)
    ensures forall m :: 0 <= m < 13 ==> req[m] == old(req[m])
  {
    hide BitBytes, WordBytes;
    if ask.WriteBits? {
      PutAllBits(req, ask.bits, byteCount);
    } else {
      PutWords(req, ask.words);
    }
  }

  lemma CountAndData(frame: seq<bv8>, count: bv8, data: seq<bv8>)
    requires |frame| == 13 + |data| && frame[12] == count && frame[13..] == data
    ensures frame[12..] == [count] + data
  {
  }

  /** The length field counts the bytes that follow it. */
  method SendMsgPre(req: array<bv8>, reqLength: nat) returns (length: nat)
    requires 6 <= reqLength <= req.Length && reqLength < 0x10000 + 6
    modifies req
    ensures length == reqLength && Number(req[4], req[5]) == reqLength - 6
    ensures forall k :: 0 <= k < req.Length && k != 4 && k != 5 ==> req[k] == old(req[k])
  {
    PutNumber(req, 4, reqLength - 6);
    length := reqLength;
  }

  class Context {
    var tId: nat
    const slave: bv8

    predicate Valid()
      reads this
    {
      tId < TRANSACTIONS
    }

    constructor (slave: bv8)
      ensures Valid() && tId == 0 && this.slave == slave
    {
      tId := 0;
      this.slave := slave;
    }

    /** Each request takes the next transaction identifier. The length field, at 4 and 5, is left alone. */
    method BuildRequestBasis(functionCode: bv8, addr: nat, nb: nat, req: array<bv8>) returns (length: nat)
      requires Valid() && req.Length >= 12 && addr < 0x10000 && nb < 0x10000
      modifies this`tId, req
      ensures Valid() && tId == (old(tId) + 1) % 0x10000 && length == 12
      ensures Number(req[0], req[1]) == tId && req[2] == 0 && req[3] == 0
      ensures req[6] == slave && req[7] == functionCode
      ensures Number(req[8], req[9]) == addr && Number(req[10], req[11]) == nb
      ensures forall k :: 0 <= k < req.Length && (4 <= k < 6 || 12 <= k) ==> req[k] == old(req[k])
    {
      hide Number, HighByte, LowByte;
      TakeTransaction();
      req[2], req[3], req[6], req[7] := 0, 0, slave, functionCode;
      PutNumber(req, 0, tId);
      PutNumber(req, 8, addr);
      PutNumber(req, 10, nb);
      length := 12;
    }

    method TakeTransaction()
      requires Valid()
      modifies this`tId
      ensures Valid() && tId == (old(tId) + 1) % 0x10000
    {
      if tId < 0xFFFF {
        tId := tId + 1;
      } else {
        tId := 0;
      }
    }

    /** The bytes that are sent for a call */
    method Request(ask: Ask, req: array<bv8>) returns (length: nat)
      requires Valid() && Askable(ask) && !TooMany(ask) && req.Length == MAX_MESSAGE_LENGTH
      modifies this`tId, req
      ensures Valid() && tId == (old(tId) + 1) % 0x10000
      ensures 12 <= length <= req.Length && RequestFor(ask, slave, req[..length])
      ensures Number(req[0], req[1]) == tId
    {
      hide Number, Payload, FunctionOf;
      length := BuildRequestBasis(FunctionOf(ask), ask.addr, NumberOf(ask), req);
      length := PutPayload(ask, req);
      ghost var payload := req[12..length];
      length := SendMsgPre(req, length);
      SameTail(req[..length], payload);
    }

    /** Any number of calls, one after the other: what was sent for those that were not for too much */
    method Requests(asks: seq<Ask>) returns (frames: seq<seq<bv8>>)
      requires Valid() && forall k :: 0 <= k < |asks| ==> Askable(asks[k])
      modifies this`tId
      ensures Valid() && tId == Later(old(tId), |frames|)
      ensures |frames| == |Sent(asks)| && Numbered(frames, old(tId))
      ensures forall k :: 0 <= k < |frames| ==> RequestFor(Sent(asks)[k], slave, frames[k])
    {
      hide Number, Later, Sent, RequestFor, TooMany;
      frames := [];
      LaterNone(tId);
      NothingSent();
      for i := 0 to |asks|
        invariant Valid() && tId == Later(old(tId), |frames|) && |frames| == |Sent(asks[..i])|
        invariant Numbered(frames, old(tId))
        invariant forall k :: 0 <= k < |frames| ==> RequestFor(Sent(asks[..i])[k], slave, frames[k])
      {
        SentNext(asks, i);
        if !TooMany(asks[i]) {
          var req := new bv8[MAX_MESSAGE_LENGTH];
          var length := Request(asks[i], req);
          LaterNext(old(tId), |frames|);
          frames := frames + [req[..length]];
        }
      }
      assert asks[..|asks|] == asks;
    }
  }

  lemma SameTail(frame: seq<bv8>, payload: seq<bv8>)
    requires |frame| == 12 + |payload| && forall k :: 0 <= k < |payload| ==> frame[12 + k] == payload[k]
    ensures frame[12..] == payload
  {
  }

  lemma NothingSent()
    ensures Sent([]) == []
  {
  }

  lemma SentNext(asks: seq<Ask>, i: nat)
    requires i < |asks|
    ensures Sent(asks[..i + 1]) == Sent(asks[..i]) + if TooMany(asks[i]) then [] else [asks[i]]
  {
    assert asks[..i + 1][..i] == asks[..i];
  }

  /** No request is sent for more than 2000 bits or 125 registers to read, and 1968 bits or 123 registers to write;
      those that are fit a message of 260 bytes. */
  lemma LimitsOfRequests(ask: Ask)
    ensures TooMany(ask) <==>
      || ((ask.ReadBits? || ask.ReadInputBits?) && ask.nb > 2000)
      || ((ask.ReadRegisters? || ask.ReadInputRegisters?) && ask.nb > 125)
      || (ask.WriteBits? && |ask.bits| > 1968) || (ask.WriteRegisters? && |ask.words| > 123)
    ensures !TooMany(ask) ==> 12 + |Payload(ask)| <= 260
  {
    hide ByteOf, BitBytes, WordBytes;
  }
}
