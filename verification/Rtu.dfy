/**
 Modbus RTU framing of libmodbus: computing the CRC of a buffer, appending it to a request
 and checking it on reception, and the corruptions that the check is certain to reject.
 */
module Rtu {
  import opened Bytes
  import opened Crc
  import opened CrcAlgebra
  import opened CrcBits

  const BROADCAST_ADDRESS: int := 0
  const UINT16_RANGE: nat := 0x10000

  function SwapBytes(c: bv16): bv16 {
    (c << 8) | (c >> 8)
  }

  /** What crc16 returns: the bit-serial CRC with its bytes swapped */
  function MessageCrc(s: seq<bv8>): bv16 {
    SwapBytes(BitCrc(s))
  }

  lemma ValueIsSwapped(hi: bv8, lo: bv8)
    ensures Join(hi, lo) == SwapBytes(Registers(hi, lo).Reflected())
  {
  }

  /** The two table lookups of one turn of the loop of crc16 */
  method Turn(lo: bv8, i: bv8) returns (hi': bv8, lo': bv8)
    ensures Registers(hi', lo') == Combine(lo, Entries(i))
  {
    TablesComplete();
    hi' := lo ^ Entry(TABLE_CRC_HI, i);
    lo' := Entry(TABLE_CRC_LO, i);
  }

  method Crc16(buffer: array<bv8>, bufferLength: nat) returns (crc: bv16)
    requires bufferLength <= buffer.Length && bufferLength < UINT16_RANGE
    ensures crc == MessageCrc(buffer[..bufferLength])
  {
    hide Entries, Combine, MessageCrc, BitCrc;
    var crcHi: bv8, crcLo: bv8 := 0xFF, 0xFF;
    var n := 0;
    while n < bufferLength
      invariant n <= bufferLength
      invariant Registers(crcHi, crcLo) == TableRun(INITIAL, buffer[..n])
    {
      ghost var s := buffer[..n + 1];
      assert s[..n] == buffer[..n] && s[n] == buffer[n];
      var i := crcHi ^ buffer[n];
      crcHi, crcLo := Turn(crcLo, i);
      n := n + 1;
    }
    crc := Join(crcHi, crcLo);
    FinalValue(buffer[..bufferLength]);
  }

  lemma FinalValue(s: seq<bv8>)
    ensures var r := TableRun(INITIAL, s); Join(r.hi, r.lo) == MessageCrc(s)
  {
    var r := TableRun(INITIAL, s);
    TableRunCorrect(INITIAL, s);
    InitialReflected();
    ValueIsSwapped(r.hi, r.lo);
  }

  lemma InitialReflected()
    ensures INITIAL.Reflected() == 0xFFFF
  {
  }

  // --------------------------------------------------------------------------
  // Sending and checking
  // --------------------------------------------------------------------------

  /** The 16-bit length parameter of crc16 keeps only this much of a longer message. */
  function Covered(s: seq<bv8>): seq<bv8> {
    s[..|s| % UINT16_RANGE]
  }

  function Trailer(crc: bv16): seq<bv8> {
    [((crc >> 8) & 0xFF) as bv8, (crc & 0xFF) as bv8]
  }

  function Frame(payload: seq<bv8>): (f: seq<bv8>)
    ensures |f| == |payload| + 2
  {
    payload + Trailer(MessageCrc(Covered(payload)))
  }

  method SendMsgPre(req: array<bv8>, reqLength: nat) returns (newLength: nat)
    requires reqLength + 2 <= req.Length
    modifies req
    ensures newLength == reqLength + 2
    ensures req[..newLength] == Frame(old(req[..reqLength]))
    ensures req[newLength..] == old(req[reqLength + 2..])
  {
    var crc := Crc16(req, reqLength % UINT16_RANGE);
    assert req[..reqLength % UINT16_RANGE] == Covered(req[..reqLength]);
    newLength := reqLength;
    req[newLength] := ((crc >> 8) & 0xFF) as bv8;
    newLength := newLength + 1;
    req[newLength] := (crc & 0xFF) as bv8;
    newLength := newLength + 1;
  }

  predicate Addressed(slave: int, f: seq<bv8>)
    requires |f| > 0
  {
    f[0] as int == slave || f[0] as int == BROADCAST_ADDRESS
  }

  predicate CrcMatches(f: seq<bv8>)
    requires |f| >= 2
  {
    MessageCrc(Covered(f[..|f|-2])) == Join(f[|f|-2], f[|f|-1])
  }

  /** 0 when the frame is for another unit, its length when it is accepted, -1 when it is rejected */
  function Integrity(slave: int, f: seq<bv8>): int
    requires |f| >= 2
  {
    if !Addressed(slave, f) then 0 else if CrcMatches(f) then |f| else -1
  }

  method CheckIntegrity(slave: int, msg: array<bv8>, msgLength: nat) returns (rc: int)
    requires 2 <= msgLength <= msg.Length
    ensures rc == Integrity(slave, msg[..msgLength])
    ensures var f := msg[..msgLength];
      var addressed := f[0] as int == slave || f[0] as int == 0;
      && (rc == 0 <==> !addressed)
      && (addressed ==> rc == if BitCrc(f[..(|f| - 2) % 0x10000]) == Join(f[|f| - 1], f[|f| - 2]) then |f| else -1)
      && (addressed && |f| < 0x10002 ==> rc == if BitCrc(f) == 0 then |f| else -1)
  {
    ghost var f := msg[..msgLength];
    hide BitCrc, Join;
    IntegrityMeaning(slave, f);
    if msgLength < 0x10002 {
      IntegrityByResidue(slave, f);
    }
    if msg[0] as int != slave && msg[0] as int != BROADCAST_ADDRESS {
      return 0;
    }
    var crcCalculated := Crc16(msg, (msgLength - 2) % UINT16_RANGE);
    assert msg[..msgLength][..msgLength - 2] == msg[..msgLength - 2];
    assert msg[..(msgLength - 2) % UINT16_RANGE] == Covered(msg[..msgLength - 2]);
    var crcReceived := Join(msg[msgLength - 2], msg[msgLength - 1]);
    if crcCalculated == crcReceived {
      return msgLength;
    }
    rc := -1;
  }

  // --------------------------------------------------------------------------
  // Acceptance is a zero residue
  // --------------------------------------------------------------------------

  lemma SwapInvolution(c: bv16)
    ensures SwapBytes(SwapBytes(c)) == c
  {
  }

  lemma SwapJoin(hi: bv8, lo: bv8)
    ensures SwapBytes(Join(hi, lo)) == Join(lo, hi) && SwapBytes(Join(lo, hi)) == Join(hi, lo)
  {
  }

  lemma SwapMatches(c: bv16, hi: bv8, lo: bv8)
    ensures SwapBytes(c) == Join(hi, lo) <==> c == Join(lo, hi)
  {
    SwapInvolution(c);
    SwapJoin(hi, lo);
  }

  lemma TrailerMatches(crc: bv16)
    ensures var t := Trailer(crc); Join(t[0], t[1]) == crc
  {
  }

  /** As long as the length fits 16 bits, the check passes exactly when the register, run over the
      whole frame with its two CRC bytes, ends at zero. */
  lemma MatchesIffZeroResidue(f: seq<bv8>)
    requires 2 <= |f| < UINT16_RANGE + 2
    ensures CrcMatches(f) <==> BitCrc(f) == 0
  {
    var s, hi, lo := f[..|f|-2], f[|f|-2], f[|f|-1];
    assert f == s + [hi, lo] && Covered(s) == s;
    ResidueZero(s, hi, lo, Join(lo, hi));
    SwapMatches(BitCrc(s), hi, lo);
  }

  /** The whole check, told by the bytes: a frame for another unit is ignored; one for this unit, or for all
      units, is accepted exactly when the CRC of what it covers stands behind it, low byte first. */
  lemma IntegrityMeaning(slave: int, f: seq<bv8>)
    requires |f| >= 2
    ensures var rc, n := Integrity(slave, f), |f|;
      if f[0] as int != slave && f[0] as int != 0 then rc == 0
      else rc == if BitCrc(f[..(n - 2) % 0x10000]) == Join(f[n - 1], f[n - 2]) then n else -1
  {
    hide BitCrc, Join;
    var n := |f|;
    assert Covered(f[..n - 2]) == f[..(n - 2) % 0x10000];
    SwapMatches(BitCrc(f[..(n - 2) % 0x10000]), f[n - 2], f[n - 1]);
  }

  /** In a frame of less than 65538 bytes, that is when the register ends at zero behind all of it. */
  lemma IntegrityByResidue(slave: int, f: seq<bv8>)
    requires 2 <= |f| < 0x10002
    ensures Integrity(slave, f) == 0 <==> f[0] as int != slave && f[0] as int != 0
    ensures f[0] as int == slave || f[0] as int == 0 ==> Integrity(slave, f) == if BitCrc(f) == 0 then |f| else -1
  {
    hide BitCrc, CrcMatches;
    MatchesIffZeroResidue(f);
  }

  /** A request as it is found in the Modbus manuals: read ten holding registers of unit 1 */
  lemma KnownFrame()
    ensures BitCrc([1, 3, 0, 0, 0, 10]) == 0xCDC5
    ensures Frame([1, 3, 0, 0, 0, 10]) == [1, 3, 0, 0, 0, 10, 0xC5, 0xCD]
  {
    KnownSteps();
    hide ByteStep, BitRun;
    NoBytes();
    var none: seq<bv8> := [];
    var s1 := OneMore(none, 0xFFFF, 1, 0x807E);
    var s2 := OneMore(s1, 0x807E, 3, 0x2140);
    var s3 := OneMore(s2, 0x2140, 0, 0xF020);
    var s4 := OneMore(s3, 0xF020, 0, 0xD8F1);
    var s5 := OneMore(s4, 0xD8F1, 0, 0x8419);
    var s6 := OneMore(s5, 0x8419, 10, 0xCDC5);
    assert s6 == [1, 3, 0, 0, 0, 10];
    assert Covered([1, 3, 0, 0, 0, 10]) == [1, 3, 0, 0, 0, 10];
    KnownTrailer();
  }

  lemma KnownTrailer()
    ensures Trailer(SwapBytes(0xCDC5)) == [0xC5, 0xCD]
  {
  }

  lemma NoBytes()
    ensures BitRun(0xFFFF, []) == 0xFFFF
  {
  }

  lemma OneMore(s: seq<bv8>, c: bv16, b: bv8, d: bv16) returns (t: seq<bv8>)
    requires BitRun(0xFFFF, s) == c && ByteStep(c, b) == d
    ensures t == s + [b] && BitRun(0xFFFF, t) == d
  {
    hide ByteStep;
    t := s + [b];
    assert t[..|s|] == s;
  }

  lemma KnownSteps()
    ensures ByteStep(0xFFFF, 1) == 0x807E && ByteStep(0x807E, 3) == 0x2140 && ByteStep(0x2140, 0) == 0xF020
    ensures ByteStep(0xF020, 0) == 0xD8F1 && ByteStep(0xD8F1, 0) == 0x8419 && ByteStep(0x8419, 10) == 0xCDC5
  {
  }

  /** Every frame that is sent passes the check at the unit it addresses, whatever its length. */
  lemma SentFrameAccepted(payload: seq<bv8>, slave: int)
    requires |payload| > 0 && (payload[0] as int == slave || payload[0] as int == BROADCAST_ADDRESS)
    ensures Integrity(slave, Frame(payload)) == |payload| + 2
  {
    var f := Frame(payload);
    assert f[..|f|-2] == payload;
    TrailerMatches(MessageCrc(Covered(payload)));
  }

  lemma FrameMatches(payload: seq<bv8>)
    ensures CrcMatches(Frame(payload))
  {
    var f := Frame(payload);
    assert f[..|f|-2] == payload;
    TrailerMatches(MessageCrc(Covered(payload)));
  }

  // --------------------------------------------------------------------------
  // Corruptions that are never accepted
  // --------------------------------------------------------------------------

  /** The bits of two frames agree outside one window of sixteen consecutive bits. */
  ghost predicate BurstAt(f: seq<bv8>, g: seq<bv8>, i: nat) {
    |f| == |g| && forall p :: 0 <= p < 8 * |f| && !(i <= p < i + 16) ==> Bits(f)[p] == Bits(g)[p]
  }

  /** A burst of at most sixteen bits anywhere in a sent frame, the CRC included, is never accepted. */
  lemma BurstRejected(payload: seq<bv8>, g: seq<bv8>, i: nat, slave: int)
    requires |payload| < UINT16_RANGE
    requires BurstAt(Frame(payload), g, i) && g != Frame(payload)
    ensures Integrity(slave, g) != |g|
  {
    var f := Frame(payload);
    FrameMatches(payload);
    MatchesIffZeroResidue(f);
    MatchesIffZeroResidue(g);
    if CrcMatches(g) {
      BitRunAsBits(0xFFFF, f);
      BitRunAsBits(0xFFFF, g);
      BurstChangesRegister(Bits(f), Bits(g), i, 0xFFFF);
      BitsInjective(f, g);
    }
  }

  /** A corruption of an odd number of bits, wherever they are, is never accepted. */
  lemma OddFlipsRejected(payload: seq<bv8>, g: seq<bv8>, slave: int)
    requires |payload| < UINT16_RANGE && |g| == |payload| + 2
    requires Flips(Bits(Frame(payload)), Bits(g)) % 2 == 1
    ensures Integrity(slave, g) != |g|
  {
    var f := Frame(payload);
    FrameMatches(payload);
    MatchesIffZeroResidue(f);
    MatchesIffZeroResidue(g);
    if CrcMatches(g) {
      BitRunAsBits(0xFFFF, f);
      BitRunAsBits(0xFFFF, g);
      OddFlipsChangeRegister(Bits(f), Bits(g), 0xFFFF);
    }
  }

  /** The frames differ at most in the two adjacent bytes k and k + 1. */
  ghost predicate AgreeExcept(f: seq<bv8>, g: seq<bv8>, k: nat) {
    |f| == |g| && forall p :: 0 <= p < |f| && p != k && p != k + 1 ==> f[p] == g[p]
  }

  lemma {:induction false} BitsOfPrefix(f: seq<bv8>, n: nat)
    requires n <= |f|
    ensures Bits(f)[..8 * n] == Bits(f[..n]) && Bits(f)[8 * n..] == Bits(f[n..])
  {
    assert f == f[..n] + f[n..];
    BitsAppend(f[..n], f[n..]);
  }

  /** Two adjacent bytes are one window of sixteen bits. */
  lemma AdjacentBytesAreBurst(f: seq<bv8>, g: seq<bv8>, k: nat)
    requires AgreeExcept(f, g, k)
    ensures BurstAt(f, g, 8 * k)
  {
    hide Bits;
    var a := if k < |f| then k else |f|;
    var b := if k + 2 < |f| then k + 2 else |f|;
    assert f[..a] == g[..a] && f[b..] == g[b..];
    BitsOfPrefix(f, a);
    BitsOfPrefix(g, a);
    BitsOfPrefix(f, b);
    BitsOfPrefix(g, b);
    forall p | 0 <= p < 8 * |f| && !(8 * k <= p < 8 * k + 16)
      ensures Bits(f)[p] == Bits(g)[p]
    {
      if p < 8 * k {
        assert Bits(f)[p] == Bits(f)[..8 * a][p] && Bits(g)[p] == Bits(g)[..8 * a][p];
      } else {
        assert Bits(f)[p] == Bits(f)[8 * b..][p - 8 * b] && Bits(g)[p] == Bits(g)[8 * b..][p - 8 * b];
      }
    }
  }

  /** No frame that differs from the sent one in two adjacent bytes only is accepted by any unit. */
  ghost predicate DetectsAdjacentErrors(payload: seq<bv8>) {
    forall g: seq<bv8>, k: nat, slave: int {:trigger AgreeExcept(Frame(payload), g, k), Integrity(slave, g)} ::
      AgreeExcept(Frame(payload), g, k) && g != Frame(payload) ==> Integrity(slave, g) != |g|
  }

  /** The promise holds exactly for the messages whose length fits the 16-bit parameter of crc16;
      a longer message has bytes that the CRC does not cover. */
  lemma AdjacentErrorsDetectedIff(payload: seq<bv8>)
    ensures DetectsAdjacentErrors(payload) <==> |payload| < UINT16_RANGE
  {
    if |payload| < UINT16_RANGE {
      forall g: seq<bv8>, k: nat, slave: int | AgreeExcept(Frame(payload), g, k) && g != Frame(payload)
        ensures Integrity(slave, g) != |g|
      {
        AdjacentBytesAreBurst(Frame(payload), g, k);
        BurstRejected(payload, g, 8 * k, slave);
      }
    } else {
      UncoveredByteAccepted(payload);
    }
  }

  lemma UncoveredByteAccepted(payload: seq<bv8>)
    requires |payload| >= UINT16_RANGE
    ensures !DetectsAdjacentErrors(payload)
  {
    var n := |payload| - 1;
    var f := Frame(payload);
    var g := f[n := if f[n] == 0 then 1 else 0];
    assert Covered(g[..|g|-2]) == Covered(payload) == Covered(f[..|f|-2]);
    FrameMatches(payload);
    assert AgreeExcept(f, g, n);
    assert Integrity(g[0] as int, g) == |g|;
  }
}
