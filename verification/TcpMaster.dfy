/**
 The Modbus/TCP client of libmodbus against the server: checking that a reply belongs to the request,
 what the check says about the replies of the server, and what arrives on either side.
 */
module TcpMaster {
  import opened Bytes
  import opened RegisterFile
  import opened ModbusReply
  import opened ModbusLaws
  import opened ServerAnswers
  import opened TcpRequest

  const HEADER_LENGTH: nat := 7
  const EXCEPTION_MAX: nat := 12

  // --------------------------------------------------------------------------
  // Checking replies
  // --------------------------------------------------------------------------

  /** What the check reports: a number of values, the server's exception, or a broken reply */
  datatype Confirmation = Values(n: nat) | Exception(code: nat) | BadException | BadData

  predicate PreCheckConfirmation(req: seq<bv8>, rsp: seq<bv8>)
    requires |req| >= 4 && |rsp| >= 4
  {
    req[0] == rsp[0] && req[1] == rsp[1] && !(rsp[2] != 0 && rsp[3] != 0)
  }

  /** The length that a reply must have */
  function ResponseLength(req: seq<bv8>): nat
    requires |req| >= 12
  {
    if req[7] == MB_FC_READ_COILS || req[7] == MB_FC_READ_INPUTS then HEADER_LENGTH + 2 + BytesFor(Number(req[10], req[11]))
    else if req[7] == MB_FC_READ_HOLDING_REGISTERS || req[7] == MB_FC_READ_INPUT_REGISTERS then
      HEADER_LENGTH + 2 + 2 * Number(req[10], req[11])
    else HEADER_LENGTH + 5
  }

  predicate Standard(functionCode: bv8) {
    1 <= functionCode <= 6 || functionCode == 15 || functionCode == 16
  }

  /** check_confirmation, for the function codes that the client uses here */
  function CheckConfirmation(req: seq<bv8>, rsp: seq<bv8>): Confirmation
    requires |req| >= 12 && |rsp| >= 9 && Standard(req[7])
  {
    if !PreCheckConfirmation(req, rsp) then BadData
    else if rsp[7] >= 0x80 then
      if |rsp| == HEADER_LENGTH + 2 && req[7] == rsp[7] - 0x80 && rsp[8] as nat < EXCEPTION_MAX then Exception(rsp[8] as nat)
      else BadException
    else if |rsp| != ResponseLength(req) || rsp[7] != req[7] then BadData
    else if req[7] == MB_FC_READ_COILS || req[7] == MB_FC_READ_INPUTS then
      if rsp[8] as nat == BytesFor(Number(req[10], req[11])) then Values(rsp[8] as nat) else BadData
    else if req[7] == MB_FC_READ_HOLDING_REGISTERS || req[7] == MB_FC_READ_INPUT_REGISTERS then
      if rsp[8] as nat / 2 == Number(req[10], req[11]) then Values(rsp[8] as nat / 2) else BadData
    else if req[7] == MB_FC_WRITE_MULTIPLE_COILS || req[7] == MB_FC_WRITE_MULTIPLE_REGISTERS then
      if Number(rsp[10], rsp[11]) == Number(req[10], req[11]) then Values(Number(rsp[10], rsp[11])) else BadData
    else Values(1)
  }

  // --------------------------------------------------------------------------
  // The client accepts every reply of the server
  // --------------------------------------------------------------------------

  /** The number of values that a request asks to be confirmed */
  function Asked(b: Buffer): nat
    requires Standard(b[7])
  {
    if b[7] == MB_FC_READ_COILS || b[7] == MB_FC_READ_INPUTS then BytesFor(Count(b))
    else if b[7] == MB_FC_WRITE_COIL || b[7] == MB_FC_WRITE_REGISTER then 1
    else Count(b)
  }

  lemma TopBit(f: bv8)
    requires Standard(f)
    ensures f | 0x80 >= 0x80 && (f | 0x80) - 0x80 == f && f < 0x80
  {
  }

  lemma ErrorConfirmed(b: Buffer, code: nat)
    requires Standard(b[7]) && b[2] == 0 && b[3] == 0 && code < EXCEPTION_MAX
    ensures CheckConfirmation(b, ErrorReply(b, code)) == Exception(code)
  {
    TopBit(b[7]);
    var r := ErrorReply(b, code);
    assert r[..4] == b[..4];
    assert r[0] == b[0] && r[1] == b[1] && r[2] == b[2];
  }

  lemma DataConfirmed(b: Buffer, data: seq<bv8>)
    requires 1 <= b[7] <= 4 && b[2] == 0 && b[3] == 0
    requires |data| < 256 && |data| == if b[7] <= 2 then BytesFor(Count(b)) else 2 * Count(b)
    ensures CheckConfirmation(b, DataReply(b, data)) == Values(Asked(b))
  {
    hide HighByte, LowByte;
    TopBit(b[7]);
    var r := DataReply(b, data);
    assert r[0] == b[0] && r[1] == b[1] && r[2] == b[2];
    assert r[7] == b[7] && r[8] as nat == |data|;
  }

  lemma EchoConfirmed(b: Buffer)
    requires Standard(b[7]) && b[7] >= 5 && b[2] == 0 && b[3] == 0
    ensures CheckConfirmation(b, EchoReply(b)) == Values(Asked(b))
  {
    TopBit(b[7]);
    var r := EchoReply(b);
    assert r[0] == b[0] && r[1] == b[1] && r[2] == b[2];
    assert r[7] == b[7] && r[10] == b[10] && r[11] == b[11];
  }

  /** For every standard request, the server's reply is confirmed with exactly the number of values
      asked for, or reported as the server's own exception; it is never taken for a broken frame. */
  lemma ServerConfirmed(b: Buffer, size: nat, t: Tables, s: Store)
    requires Valid(t, s) && size >= 12 && Standard(b[7]) && b[2] == 0 && b[3] == 0
    ensures var c := CheckConfirmation(b, Reply(b, size, t, s));
            c == Values(Asked(b)) || c == Exception(ERR_ILLEGAL_DATA_ADDRESS) || c == Exception(ERR_ILLEGAL_DATA_VALUE)
  {
    hide CheckConfirmation, ErrorReply, DataReply, EchoReply, BitData, RegisterData, InputData, BoolAt, Number;
    ErrorConfirmed(b, ERR_ILLEGAL_DATA_ADDRESS);
    ErrorConfirmed(b, ERR_ILLEGAL_DATA_VALUE);
    if b[7] >= 5 {
      EchoConfirmed(b);
    } else {
      forall data: seq<bv8> | |data| < 256 && |data| == if b[7] <= 2 then BytesFor(Count(b)) else 2 * Count(b)
        ensures CheckConfirmation(b, DataReply(b, data)) == Values(Asked(b))
      {
        DataConfirmed(b, data);
      }
    }
  }

  // --------------------------------------------------------------------------
  // A late reply is not taken for the reply to a later request
  // --------------------------------------------------------------------------

  lemma LaterDiffers(t: nat, j: nat, k: nat)
    requires j <= k
    ensures Later(t, j) == Later(t, k) <==> (k - j) % 0x10000 == 0
  {
  }

  /** Over a history of requests: the reply to request j, checked against request k, passes exactly when
      k - j is a multiple of 65536. So the own reply passes, and none of the next 65535 requests takes it. */
  lemma LateReplyAcceptedIff(frames: seq<seq<bv8>>, t: nat, j: nat, k: nat, b: Buffer, r: seq<bv8>)
    requires Numbered(frames, t) && j <= k < |frames| && b[..12] == frames[j][..12] && b[2] == 0
    requires WellFormedReply(b, r)
    ensures PreCheckConfirmation(frames[k], r) <==> (k - j) % 0x10000 == 0
  {
    hide Number, Later;
    var earlier, later := frames[j], frames[k];
    LaterDiffers(t, j + 1, k + 1);
    assert b[0] == b[..12][0] == earlier[0] && b[1] == b[..12][1] == earlier[1];
    assert r[0] == r[..4][0] && r[1] == r[..4][1] && r[2] == r[..4][2];
    if Number(later[0], later[1]) == Number(earlier[0], earlier[1]) {
      NumberInjective(later[0], later[1], earlier[0], earlier[1]);
    }
  }

  /** What every request has in common */
  predicate IsRequest(frame: seq<bv8>) {
    |frame| >= 12 && frame[2] == 0 && frame[3] == 0 && Standard(frame[7])
  }

  lemma RequestsAre(ask: Ask, slave: bv8, frame: seq<bv8>)
    requires !TooMany(ask) && RequestFor(ask, slave, frame)
    ensures IsRequest(frame)
  {
    hide TooMany, Payload, NumberOf, Number;
  }

  /** The exchange as a whole, over any history of reads and writes: the server's reply to a request is confirmed
      by that request and by none of the 65535 that follow it. */
  lemma OnlyOwnReplyConfirmed(frames: seq<seq<bv8>>, id: nat, j: nat, k: nat, b: Buffer, size: nat, t: Tables, s: Store)
    requires Numbered(frames, id) && j <= k < |frames| && k - j < 0x10000
    requires IsRequest(frames[j]) && IsRequest(frames[k])
    requires Valid(t, s) && size >= 12 && b[..12] == frames[j][..12]
    ensures var c := CheckConfirmation(frames[k], Reply(b, size, t, s));
      if k == j
      then c == Values(Asked(b)) || c == Exception(ERR_ILLEGAL_DATA_ADDRESS) || c == Exception(ERR_ILLEGAL_DATA_VALUE)
      else c == BadData
  {
    hide Reply, Number, Later, WellFormedReply, Numbered, Asked;
    assert b[2] == b[..12][2] && b[3] == b[..12][3] && b[7] == b[..12][7];
    RepliesFormed(b, size, t, s);
    LateReplyAcceptedIff(frames, id, j, k, b, Reply(b, size, t, s));
    ServerConfirmed(b, size, t, s);
    SameConfirmation(frames[j], b, Reply(b, size, t, s));
  }

  lemma SameConfirmation(req: seq<bv8>, b: Buffer, rsp: seq<bv8>)
    requires |req| >= 12 && b[..12] == req[..12] && |rsp| >= 9 && Standard(req[7])
    ensures Standard(b[7]) && CheckConfirmation(req, rsp) == CheckConfirmation(b, rsp)
  {
    hide Number, BytesFor;
    SameTwelve(req, b);
  }

  lemma SameTwelve(req: seq<bv8>, b: Buffer)
    requires |req| >= 12 && b[..12] == req[..12]
    ensures req[0] == b[0] && req[1] == b[1] && req[2] == b[2] && req[3] == b[3] && req[6] == b[6] && req[7] == b[7]
    ensures req[8] == b[8] && req[9] == b[9] && req[10] == b[10] && req[11] == b[11]
  {
    forall i | 0 <= i < 12
      ensures req[i] == b[i]
    {
      assert b[..12][i] == req[..12][i];
    }
  }

  // --------------------------------------------------------------------------
  // Reading and writing registers end to end
  // --------------------------------------------------------------------------

  /** A confirmed read of holding registers delivers the words of the register map. */
  lemma ReadDeliversRegisters(b: Buffer, size: nat, t: Tables, s: Store, i: nat)
    requires Valid(t, s) && size >= 12 && b[7] == MB_FC_READ_HOLDING_REGISTERS && b[2] == 0 && b[3] == 0
    requires Start(b) + Count(b) <= ADDRESSES && i < Count(b) <= 127
    requires !Unglued(t, Start(b) + i)
    ensures var r := Reply(b, size, t, s);
            |r| == 9 + 2 * Count(b) && CheckConfirmation(b, r) == Values(Count(b))
            && Words(r[9..])[i] == Register(t, s, Start(b) + i)
  {
    hide CheckConfirmation, Register, Unglued, Shown, Join, DataHeader;
    var data := RegisterData(t, s, Start(b), Count(b));
    DataConfirmed(b, data);
    RegisterDataAt(t, s, Start(b), Count(b), i);
    ShownJoins(Register(t, s, Start(b) + i), data[2 * i], data[2 * i + 1]);
    var r := DataReply(b, data);
    assert r[9..] == data;
  }

  lemma ShownJoins(w: bv16, hi: bv8, lo: bv8)
    requires [hi, lo] == Shown(w, false)
    ensures Join(hi, lo) == w
  {
    hide High, Low, Join;
    PairEqual(hi, lo, High(w), Low(w));
    SplitJoins(w);
  }

  /** The request for a write of several values, in the server's buffer */
  predicate Arrived(ask: Ask, slave: bv8, frame: seq<bv8>, b: Buffer, size: nat) {
    && (ask.WriteBits? || ask.WriteRegisters?) && !TooMany(ask) && RequestFor(ask, slave, frame)
    && |frame| == size <= NET_BUFFER_SIZE && b[..size] == frame
  }

  lemma ArrivedWhole(ask: Ask, slave: bv8, frame: seq<bv8>, b: Buffer, size: nat)
    requires Arrived(ask, slave, frame, b, size)
    ensures var n := |Data(ask)|;
      && b[7] == FunctionOf(ask) && b[2] == 0 && b[3] == 0 && Start(b) == ask.addr && Count(b) == NumberOf(ask)
      && |frame| == 13 + n && b[12] as nat == n && b[13..13 + n] == Data(ask) && b[..12] == frame[..12]
  {
    hide Number, TooMany, Data, NumberOf;
    var n := |Data(ask)|;
    assert b[..12] == frame[..12];
    SameTwelve(frame, b);
    assert b[12] == frame[12] == frame[12..][0];
    assert b[13..13 + n] == frame[13..] == frame[12..][1..];
  }

  /** Words written by the client are stored at their addresses, all of them that exist. */
  lemma WritesRegisters(ask: Ask, slave: bv8, frame: seq<bv8>, b: Buffer, size: nat, t: Tables, s: Store)
    requires ask.WriteRegisters? && Arrived(ask, slave, frame, b, size) && Valid(t, s)
    ensures After(b, size, t, s) == AssignAll(t, s, ask.addr, ask.words)
  {
    hide AssignAll, Words, WordBytes, Number;
    ArrivedWhole(ask, slave, frame, b, size);
    WordsOfBytes(ask.words);
  }

  /** Bits written by the client are stored at their addresses; the coils that fill up the last byte are
      cleared with them, and no other coil changes. */
  lemma WritesBits(ask: Ask, slave: bv8, frame: seq<bv8>, b: Buffer, size: nat, t: Tables, s: Store, q: nat)
    requires ask.WriteBits? && Arrived(ask, slave, frame, b, size) && Valid(t, s)
    requires NoAlias(t.boolOutput) && q < MAX_COILS
    ensures BoolAt(t.boolOutput, After(b, size, t, s).bools, q) ==
      if ask.addr <= q < ask.addr + 8 * BytesFor(|ask.bits|) && t.boolOutput[q].To?
      then q - ask.addr < |ask.bits| && ask.bits[q - ask.addr] != 0
      else BoolAt(t.boolOutput, s.bools, q)
  {
    hide WriteAllBits, BitBytes, Number, BoolAt, NoAlias, DataBit;
    var n := BytesFor(|ask.bits|);
    ArrivedWhole(ask, slave, frame, b, size);
    CoilsWritten(t, s.bools, ask.addr, BitBytes(ask.bits, n), q);
    if ask.addr <= q < ask.addr + 8 * n {
      BitInBytes(ask.bits, q - ask.addr);
    }
  }

  lemma BitInBytes(bits: seq<bv8>, k: nat)
    requires k < 8 * BytesFor(|bits|)
    ensures DataBit(BitBytes(bits, BytesFor(|bits|)), k) == (k < |bits| && bits[k] != 0)
  {
    hide BitRead, BitsByte;
    var from := 8 * (k / 8);
    ByteBits(bits, from, BitsFrom(bits, from), k % 8);
  }

  /** Whether all that a write touches exists: for coils, the last byte included */
  predicate InReach(ask: Ask) {
    NumberOf(ask) == 0
    || if ask.WriteBits? then ask.addr + 8 * BytesFor(NumberOf(ask)) <= MAX_COILS
       else ask.addr + NumberOf(ask) <= ADDRESSES
  }

  /** The client is told whether it does. */
  lemma WriteConfirmed(ask: Ask, slave: bv8, frame: seq<bv8>, b: Buffer, size: nat, t: Tables, s: Store, r: seq<bv8>)
    requires Arrived(ask, slave, frame, b, size) && Valid(t, s) && r == Reply(b, size, t, s)
    ensures IsRequest(frame) && |r| >= 9
    ensures CheckConfirmation(frame, r) ==
      if InReach(ask) then Values(NumberOf(ask)) else Exception(ERR_ILLEGAL_DATA_ADDRESS)
  {
    hide CheckConfirmation, ErrorReply, EchoReply, BitBytes, WordBytes, Number, RequestFor, Payload;
    RequestsAre(ask, slave, frame);
    ArrivedWhole(ask, slave, frame, b, size);
    ErrorConfirmed(b, ERR_ILLEGAL_DATA_ADDRESS);
    EchoConfirmed(b);
    SameConfirmation(frame, b, r);
  }

  /** The request for a single write, in the server's buffer */
  predicate SingleArrived(ask: Ask, slave: bv8, frame: seq<bv8>, b: Buffer) {
    && (ask.WriteBit? || ask.WriteRegister?) && Askable(ask) && RequestFor(ask, slave, frame)
    && b[..12] == frame
  }

  lemma SingleArrivedWhole(ask: Ask, slave: bv8, frame: seq<bv8>, b: Buffer)
    requires SingleArrived(ask, slave, frame, b)
    ensures b[7] == FunctionOf(ask) && Start(b) == ask.addr && Number(b[10], b[11]) == NumberOf(ask)
    ensures b[2] == 0 && b[3] == 0 && frame[..12] == b[..12] && IsRequest(frame)
  {
    hide Number;
    assert frame[..12] == frame;
    SameTwelve(frame, b);
  }

  /** A value written to one register is the value that the server's register holds then; no other changes, and
      the client is told whether there is such a register. */
  lemma WritesRegister(ask: Ask, slave: bv8, frame: seq<bv8>, b: Buffer, size: nat, t: Tables, s: Store, s': Store, q: nat)
    requires ask.WriteRegister? && SingleArrived(ask, slave, frame, b) && 12 <= size <= NET_BUFFER_SIZE
    requires Valid(t, s) && Distinct(Places(t)) && q < 8192 && s' == After(b, size, t, s)
    ensures Valid(t, s')
    ensures Register(t, s', q) as nat ==
      if q == ask.addr && PlaceOf(t, q) != Nowhere then ask.value else Register(t, s, q) as nat
  {
    hide Number, Register, PlaceOf, After, RequestFor;
    SingleArrivedWhole(ask, slave, frame, b);
    RegisterWritten(b, size, t, s, s', q);
  }

  /** A status written to one bit is what its coil is set to; on is sent as FF 00. */
  lemma WritesBit(ask: Ask, slave: bv8, frame: seq<bv8>, b: Buffer, size: nat, t: Tables, s: Store)
    requires ask.WriteBit? && SingleArrived(ask, slave, frame, b) && 12 <= size <= NET_BUFFER_SIZE && Valid(t, s)
    ensures Number(b[10], b[11]) == if ask.status then 0xFF00 else 0
    ensures var p := if ask.addr < 8192 then t.boolOutput[ask.addr] else Null;
      match p
      case Null => After(b, size, t, s) == s
      case To(c) => c < |s.bools| && After(b, size, t, s) == s.(bools := s.bools[c := if ask.status then 1 else 0])
  {
    hide Number, After, RequestFor;
    SingleArrivedWhole(ask, slave, frame, b);
    CoilWritten(b, size, t, s);
  }

  lemma SingleWriteConfirmed(ask: Ask, slave: bv8, frame: seq<bv8>, b: Buffer, size: nat, t: Tables, s: Store, r: seq<bv8>)
    requires SingleArrived(ask, slave, frame, b) && size >= 12 && Valid(t, s) && r == Reply(b, size, t, s)
    ensures IsRequest(frame) && |r| >= 9
    ensures CheckConfirmation(frame, r) ==
      if ask.addr < 8192 then Values(1) else Exception(ERR_ILLEGAL_DATA_ADDRESS)
  {
    hide CheckConfirmation, ErrorReply, EchoReply, Number, RequestFor;
    SingleArrivedWhole(ask, slave, frame, b);
    ErrorConfirmed(b, ERR_ILLEGAL_DATA_ADDRESS);
    EchoConfirmed(b);
    SameConfirmation(frame, b, r);
  }

  /** The request for a read, in the server's buffer */
  predicate ReadArrived(ask: Ask, slave: bv8, frame: seq<bv8>, b: Buffer) {
    && (ask.ReadBits? || ask.ReadInputBits? || ask.ReadRegisters? || ask.ReadInputRegisters?)
    && Askable(ask) && !TooMany(ask) && RequestFor(ask, slave, frame) && b[..12] == frame
  }

  lemma ReadArrivedWhole(ask: Ask, slave: bv8, frame: seq<bv8>, b: Buffer)
    requires ReadArrived(ask, slave, frame, b)
    ensures b[7] == FunctionOf(ask) && Start(b) == ask.addr && Count(b) == ask.nb
    ensures b[2] == 0 && b[3] == 0 && frame[..12] == b[..12] && IsRequest(frame)
  {
    hide Number;
    assert frame[..12] == frame;
    SameTwelve(frame, b);
  }

  /** What the client reads is what it asked for: coils or discrete inputs, from the first on */
  lemma ReadsBits(ask: Ask, slave: bv8, frame: seq<bv8>, b: Buffer, size: nat, t: Tables, s: Store, r: seq<bv8>, k: nat)
    requires (ask.ReadBits? || ask.ReadInputBits?) && ReadArrived(ask, slave, frame, b) && size >= 12
    requires Valid(t, s) && r == Reply(b, size, t, s) && k < ask.nb && ask.addr + 8 * ((ask.nb + 7) / 8) <= 8192
    ensures |r| == 9 + (ask.nb + 7) / 8
    ensures var p := if ask.ReadBits? then t.boolOutput[ask.addr + k] else t.boolInput[ask.addr + k];
      BitRead(r[9 + k / 8], k % 8) <==> p.To? && p.cell < |s.bools| && s.bools[p.cell] != 0
  {
    hide Number, BitRead, RequestFor, Reply;
    ReadArrivedWhole(ask, slave, frame, b);
    BitsRead(b, size, t, s, r, k);
  }

  /** Holding registers below 2048, outputs and memory words, and input registers */
  lemma ReadsWords(ask: Ask, slave: bv8, frame: seq<bv8>, b: Buffer, size: nat, t: Tables, s: Store, r: seq<bv8>, i: nat)
    requires (ask.ReadRegisters? || ask.ReadInputRegisters?) && ReadArrived(ask, slave, frame, b) && size >= 12
    requires Valid(t, s) && r == Reply(b, size, t, s) && i < ask.nb
    requires if ask.ReadRegisters? then ask.addr + ask.nb <= 8192 && ask.addr + i < 2048 else ask.addr + ask.nb <= 1024
    ensures |r| == 9 + 2 * ask.nb
    ensures var cell := if ask.ReadInputRegisters? then t.intInput[ask.addr + i] else WordCell(t, ask.addr + i);
      Number(r[9 + 2 * i], r[10 + 2 * i]) ==
        match cell case Null => 0 case To(c) => if c < |s.words| then s.words[c] as nat else 0
  {
    hide Number, RequestFor, Reply, WordCell;
    ReadArrivedWhole(ask, slave, frame, b);
    if ask.ReadRegisters? {
      WordsRead(b, size, t, s, r, i);
    } else {
      InputsRead(b, size, t, s, r, i);
    }
  }

  /** The check reports the bytes or registers that go with the number asked for, or that there is no such address. */
  lemma ReadConfirmed(ask: Ask, slave: bv8, frame: seq<bv8>, b: Buffer, size: nat, t: Tables, s: Store, r: seq<bv8>)
    requires ReadArrived(ask, slave, frame, b) && size >= 12 && Valid(t, s) && r == Reply(b, size, t, s)
    ensures IsRequest(frame) && |r| >= 9
    ensures var last :=
        if ask.ReadBits? || ask.ReadInputBits? then 8192 - 8 * ((ask.nb + 7) / 8)
        else if ask.ReadRegisters? then 8192 - ask.nb else 1024 - ask.nb;
      CheckConfirmation(frame, r) ==
        if ask.nb == 0 || ask.addr <= last
        then Values(if ask.ReadBits? || ask.ReadInputBits? then (ask.nb + 7) / 8 else ask.nb)
        else Exception(ERR_ILLEGAL_DATA_ADDRESS)
  {
    hide CheckConfirmation, Number, RequestFor, Reply;
    ReadArrivedWhole(ask, slave, frame, b);
    ReadReplied(b, size, t, s, r);
    SameConfirmation(frame, b, r);
  }

  lemma ReadReplied(b: Buffer, size: nat, t: Tables, s: Store, r: seq<bv8>)
    requires 1 <= b[7] <= 4 && b[2] == 0 && b[3] == 0 && size >= 12 && Valid(t, s) && r == Reply(b, size, t, s)
    requires Count(b) <= if b[7] <= 2 then 2000 else 127
    ensures |r| >= 9
    ensures var n := Count(b);
      var last := if b[7] <= 2 then 8192 - 8 * ((n + 7) / 8) else if b[7] == 3 then 8192 - n else 1024 - n;
      CheckConfirmation(b, r) ==
        if n == 0 || Start(b) <= last then Values(if b[7] <= 2 then (n + 7) / 8 else n)
        else Exception(ERR_ILLEGAL_DATA_ADDRESS)
  {
    hide CheckConfirmation, ErrorReply, DataReply, RegisterData, InputData, BitData, Number;
    ErrorConfirmed(b, ERR_ILLEGAL_DATA_ADDRESS);
    ExceptionFormed(b, ERR_ILLEGAL_DATA_ADDRESS);
    var n, bytes := Count(b), (Count(b) + 7) / 8;
    var data := [];
    if n > 0 && b[7] <= 2 && Start(b) + 8 * bytes <= 8192 {
      data := BitData(if b[7] == 1 then t.boolOutput else t.boolInput, s.bools, Start(b), bytes);
    } else if n > 0 && b[7] == 3 && Start(b) + n <= 8192 {
      data := RegisterData(t, s, Start(b), n);
    } else if n > 0 && b[7] == 4 && Start(b) + n <= 1024 {
      data := InputData(t, s, Start(b), n);
    }
    if n == 0 || data != [] {
      assert r == DataReply(b, data);
      DataFormed(b, data);
      DataConfirmed(b, data);
    } else {
      assert r == ErrorReply(b, ERR_ILLEGAL_DATA_ADDRESS);
    }
  }

  // --------------------------------------------------------------------------
  // Whatever bytes come in
  // --------------------------------------------------------------------------

  /** The bytes of any reply that is taken for a confirmation: the request's number and function, the length that
      goes with it, and as many values as were asked for. */
  lemma ConfirmedMeans(req: seq<bv8>, rsp: seq<bv8>, n: nat)
    requires |req| >= 12 && |rsp| >= 9 && Standard(req[7])
    ensures CheckConfirmation(req, rsp) == Values(n) <==>
      && rsp[0] == req[0] && rsp[1] == req[1] && (rsp[2] == 0 || rsp[3] == 0) && rsp[7] == req[7]
      && var count := Number(req[10], req[11]);
      && (req[7] <= 2 ==> |rsp| == 9 + (count + 7) / 8 && rsp[8] as nat == (count + 7) / 8 == n)
      && (3 <= req[7] <= 4 ==> |rsp| == 9 + 2 * count && rsp[8] as nat / 2 == count == n)
      && (5 <= req[7] <= 6 ==> |rsp| == 12 && n == 1)
      && (req[7] >= 15 ==> |rsp| == 12 && Number(rsp[10], rsp[11]) == count == n)
  {
    hide Number;
    TopBit(req[7]);
  }

  /** And of any reply that is taken for an exception */
  lemma ExceptionMeans(req: seq<bv8>, rsp: seq<bv8>, code: nat)
    requires |req| >= 12 && |rsp| >= 9 && Standard(req[7])
    ensures CheckConfirmation(req, rsp) == Exception(code) <==>
      && rsp[0] == req[0] && rsp[1] == req[1] && (rsp[2] == 0 || rsp[3] == 0)
      && |rsp| == 9 && rsp[7] == req[7] | 0x80 && rsp[8] as nat == code < 12
  {
    hide Number;
    TopBit(req[7]);
  }
}
