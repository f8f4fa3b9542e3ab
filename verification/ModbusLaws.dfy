/**
 What a Modbus/TCP client can rely on: a write followed by a read of the same range returns the
 written bytes, writes reach nothing else, and every reply is a well-formed frame.
 */
module ModbusLaws {
  import opened Bytes
  import opened RegisterFile
  import opened ModbusReply

  // --------------------------------------------------------------------------
  // Registers
  // --------------------------------------------------------------------------

  /** The register map after a block of writes */
  lemma BlockWritten(t: Tables, s: Store, start: nat, ws: seq<bv16>, q: nat)
    requires Valid(t, s) && Distinct(Places(t)) && q < ADDRESSES
    ensures Register(t, AssignAll(t, s, start, ws), q)
         == if start <= q < start + |ws| && PlaceOf(t, q) != Nowhere then ws[q - start] else Register(t, s, q)
  {
    hide PlaceOf, Register, MapAssign, Distinct;
    AssignAllRefines(t, s, start, ws);
    MapAssignAllAt(Places(t), Flat(t, s), start, ws, q);
    assert Flat(t, AssignAll(t, s, start, ws))[q] == Register(t, AssignAll(t, s, start, ws), q);
  }

  /** Addresses that show a word as it was written: with a cell behind them, and two bytes wide.
      An address without a cell shows zero; one served from mb_holding_regs its low byte twice. */
  predicate Faithful(t: Tables, position: nat, w: bv16)
    requires TableShape(t) && position < ADDRESSES
  {
    (PlaceOf(t, position) == Nowhere ==> w == 0) && (Unglued(t, position) ==> High(w) == Low(w))
  }

  predicate FaithfulBlock(t: Tables, start: nat, ws: seq<bv16>)
    requires TableShape(t) && start + |ws| <= ADDRESSES
  {
    forall i :: 0 <= i < |ws| ==> Faithful(t, start + i, ws[i])
  }

  /** Writing a block of registers and reading it back gives the written bytes exactly when every
      address of the block is faithful to its word; the block may cross the 16, 32 and 64-bit
      regions and begin or end inside a wide cell. */
  lemma RoundTripIff(t: Tables, s: Store, start: nat, data: seq<bv8>, n: nat)
    requires Valid(t, s) && Distinct(Places(t))
    requires |data| == 2 * n && start + n <= ADDRESSES
    ensures RegisterData(t, AssignAll(t, s, start, Words(data)), start, n) == data
       <==> FaithfulBlock(t, start, Words(data))
  {
    hide Register, PlaceOf, Unglued, Shown, Faithful, Distinct, AssignAll;
    var back := RegisterData(t, AssignAll(t, s, start, Words(data)), start, n);
    forall i | 0 <= i < n
      ensures [back[2 * i], back[2 * i + 1]] == [data[2 * i], data[2 * i + 1]] <==> Faithful(t, start + i, Words(data)[i])
    {
      RoundTripOne(t, s, start, data, n, i);
    }
    if FaithfulBlock(t, start, Words(data)) {
      forall k | 0 <= k < 2 * n
        ensures back[k] == data[k]
      {
        var i := k / 2;
        assert Faithful(t, start + i, Words(data)[i]);
        assert [back[2 * i], back[2 * i + 1]] == [data[2 * i], data[2 * i + 1]];
        PairEqual(back[2 * i], back[2 * i + 1], data[2 * i], data[2 * i + 1]);
        assert k == 2 * i || k == 2 * i + 1;
      }
    }
  }

  lemma PairEqual(a: bv8, b: bv8, c: bv8, d: bv8)
    ensures [a, b] == [c, d] <==> a == c && b == d
  {
    assert [a, b][0] == a && [a, b][1] == b && [c, d][0] == c && [c, d][1] == d;
  }

  lemma RoundTripOne(t: Tables, s: Store, start: nat, data: seq<bv8>, n: nat, i: nat)
    requires Valid(t, s) && Distinct(Places(t))
    requires |data| == 2 * n && start + n <= ADDRESSES && i < n
    ensures var back := RegisterData(t, AssignAll(t, s, start, Words(data)), start, n);
            [back[2 * i], back[2 * i + 1]] == [data[2 * i], data[2 * i + 1]] <==> Faithful(t, start + i, Words(data)[i])
  {
    hide Register, PlaceOf, Unglued, Shown, Faithful, Distinct, AssignAll, Join;
    var s' := AssignAll(t, s, start, Words(data));
    RegisterDataAt(t, s', start, n, i);
    BlockWritten(t, s, start, Words(data), start + i);
    UnwrittenIsZero(t, s', start + i);
    ShownFaithful(t, start + i, data[2 * i], data[2 * i + 1], Words(data)[i], Register(t, s', start + i));
  }

  lemma UnwrittenIsZero(t: Tables, s: Store, p: nat)
    requires Valid(t, s) && p < ADDRESSES
    ensures PlaceOf(t, p) == Nowhere ==> Register(t, s, p) == 0
    ensures PlaceOf(t, p) == Nowhere ==> !Unglued(t, p)
  {
  }

  lemma ShownFaithful(t: Tables, p: nat, hi: bv8, lo: bv8, w: bv16, r: bv16)
    requires TableShape(t) && p < ADDRESSES && w == Join(hi, lo)
    requires r == if PlaceOf(t, p) == Nowhere then 0 else w
    requires PlaceOf(t, p) == Nowhere ==> !Unglued(t, p)
    ensures Shown(r, Unglued(t, p)) == [hi, lo] <==> Faithful(t, p, w)
  {
    hide PlaceOf, Unglued, Join, High, Low;
    JoinSplits(hi, lo);
    SplitJoins(r);
    ZeroSplits();
    PairEqual(High(r), Low(r), hi, lo);
    PairEqual(Low(r), Low(r), hi, lo);
  }

  lemma ZeroSplits()
    ensures High(0) == 0 && Low(0) == 0 && Join(0, 0) == 0
  {
  }

  /** The whole exchange: the write is confirmed, and the data field of the reply to a read request
      for the same addresses is the data field of the write, exactly when they are all faithful. */
  lemma WriteThenRead(w: Buffer, wSize: nat, r: Buffer, rSize: nat, t: Tables, s: Store)
    requires Valid(t, s) && Distinct(Places(t)) && wSize <= NET_BUFFER_SIZE && 12 <= rSize
    requires w[7] == MB_FC_WRITE_MULTIPLE_REGISTERS && r[7] == MB_FC_READ_HOLDING_REGISTERS
    requires Start(r) == Start(w) && Count(r) == Count(w) && 0 < Count(w) && Start(w) + Count(w) <= ADDRESSES
    requires WellFormedWrite(w, wSize, 2 * Count(w))
    ensures Reply(w, wSize, t, s) == EchoReply(w)
    ensures Reply(r, rSize, t, After(w, wSize, t, s)) == DataReply(r, WrittenBytes(w, 2 * Count(w)))
       <==> FaithfulBlock(t, Start(w), Words(WrittenBytes(w, 2 * Count(w))))
  {
    hide Faithful, FaithfulBlock, Distinct, EchoReply, DataReply, AssignAll, Words, RegisterData;
    var data := WrittenBytes(w, 2 * Count(w));
    RoundTripIff(t, s, Start(w), data, Count(w));
    DataReplyInjective(r, RegisterData(t, After(w, wSize, t, s), Start(w), Count(w)), data);
  }

  lemma DataReplyInjective(b: Buffer, x: seq<bv8>, y: seq<bv8>)
    requires |x| == |y| < 256
    ensures DataReply(b, x) == DataReply(b, y) <==> x == y
  {
    hide DataHeader;
    assert DataReply(b, x)[9..] == x && DataReply(b, y)[9..] == y;
  }

  /** A multi-register write that runs past the last address still applies exactly its words up to
      that address, and then answers exception 2. */
  lemma OverrunningWrite(w: Buffer, wSize: nat, t: Tables, s: Store, q: nat)
    requires Valid(t, s) && Distinct(Places(t)) && wSize <= NET_BUFFER_SIZE && q < ADDRESSES
    requires w[7] == MB_FC_WRITE_MULTIPLE_REGISTERS && WellFormedWrite(w, wSize, 2 * Count(w))
    requires 0 < Count(w) && Start(w) + Count(w) > ADDRESSES
    ensures Reply(w, wSize, t, s) == ErrorReply(w, ERR_ILLEGAL_DATA_ADDRESS)
    ensures Register(t, After(w, wSize, t, s), q)
         == if Start(w) <= q && PlaceOf(t, q) != Nowhere then Words(WrittenBytes(w, 2 * Count(w)))[q - Start(w)]
            else Register(t, s, q)
    ensures Start(w) < ADDRESSES ==>
              After(w, wSize, t, s) == AssignAll(t, s, Start(w), Words(WrittenBytes(w, 2 * Count(w)))[..ADDRESSES - Start(w)])
  {
    hide Register, PlaceOf, Distinct, ErrorReply, AssignAll, Words;
    var ws := Words(WrittenBytes(w, 2 * Count(w)));
    BlockWritten(t, s, Start(w), ws, q);
    if Start(w) < ADDRESSES {
      AssignAllClipped(t, s, Start(w), ws, ADDRESSES - Start(w));
    }
  }

  /** After initialisation every block is faithful that keeps clear of address 1024 and whose
      addresses in the wide ranges have a cell glued to them. */
  lemma InitialisedFaithful(t: Tables, s: Store, position: nat, w: bv16)
    requires Valid(t, s) && WellGlued(t) && position < ADDRESSES
    requires position != MIN_16B_RANGE || t.afterIntOutput != Null
    requires !Unglued(t, position)
    ensures Faithful(MapUnused(t), position, w)
  {
    hide PlaceOf, Distinct;
    InitialMapDistinct(t);
    assert Places(MapUnused(t))[position] == PlaceOf(MapUnused(t), position);
  }

  // --------------------------------------------------------------------------
  // Coils
  // --------------------------------------------------------------------------

  lemma BitWritten(t: Tables, bools: seq<bv8>, p: nat, v: bool, q: nat)
    requires TableShape(t) && PointsInto(t.boolOutput, |bools|) && NoAlias(t.boolOutput) && q < MAX_COILS
    ensures BoolAt(t.boolOutput, WriteBit(t, bools, p, v), q)
         == if p == q && t.boolOutput[q].To? then v else BoolAt(t.boolOutput, bools, q)
  {
    if p < MAX_COILS && p != q {
      var i, j := if p < q then p else q, if p < q then q else p;
      assert t.boolOutput[i] != Null ==> t.boolOutput[i] != t.boolOutput[j];
    }
  }

  lemma {:induction false} ByteWritten(t: Tables, bools: seq<bv8>, start: nat, v: bv8, n: nat, q: nat)
    requires TableShape(t) && PointsInto(t.boolOutput, |bools|) && NoAlias(t.boolOutput) && q < MAX_COILS && n <= 8
    ensures BoolAt(t.boolOutput, WriteBits(t, bools, start, v, n), q)
         == if start <= q < start + n && t.boolOutput[q].To? then BitRead(v, q - start) else BoolAt(t.boolOutput, bools, q)
  {
    hide BoolAt, WriteBit, BitRead, NoAlias;
    if n > 0 {
      ByteWritten(t, bools, start, v, n - 1, q);
      BitWritten(t, WriteBits(t, bools, start, v, n - 1), start + n - 1, BitRead(v, n - 1), q);
    }
  }

  /** The bit of a data field at a given offset */
  predicate DataBit(data: seq<bv8>, k: nat)
    requires k < 8 * |data|
  {
    BitRead(data[k / 8], k % 8)
  }

  /** The coils after a block of writes: nothing outside the byte-rounded range changes. */
  lemma {:induction false} CoilsWritten(t: Tables, bools: seq<bv8>, start: nat, data: seq<bv8>, q: nat)
    requires TableShape(t) && PointsInto(t.boolOutput, |bools|) && NoAlias(t.boolOutput) && q < MAX_COILS
    ensures BoolAt(t.boolOutput, WriteAllBits(t, bools, start, data), q)
         == if start <= q < start + 8 * |data| && t.boolOutput[q].To? then DataBit(data, q - start)
            else BoolAt(t.boolOutput, bools, q)
    decreases |data|
  {
    hide BoolAt, WriteBits, BitRead, NoAlias;
    if |data| > 0 {
      var n := |data| - 1;
      CoilsWritten(t, bools, start, data[..n], q);
      ByteWritten(t, WriteAllBits(t, bools, start, data[..n]), start + 8 * n, data[n], 8, q);
      if start <= q < start + 8 * n {
        assert data[..n][(q - start) / 8] == data[(q - start) / 8];
      }
    }
  }

  /** Writing a block of coils and reading it back gives the written bytes exactly when no bit is
      set that has no cell behind it. */
  lemma CoilRoundTripIff(t: Tables, bools: seq<bv8>, start: nat, data: seq<bv8>)
    requires TableShape(t) && PointsInto(t.boolOutput, |bools|) && NoAlias(t.boolOutput)
    requires start + 8 * |data| <= MAX_COILS
    ensures BitData(t.boolOutput, WriteAllBits(t, bools, start, data), start, |data|) == data
       <==> forall k :: 0 <= k < 8 * |data| && DataBit(data, k) ==> t.boolOutput[start + k].To?
  {
    hide BitRead, NoAlias, WriteAllBits, PackedByte;
    var bools' := WriteAllBits(t, bools, start, data);
    var back := BitData(t.boolOutput, bools', start, |data|);
    forall k | 0 <= k < 8 * |data|
      ensures DataBit(back, k) == (DataBit(data, k) && t.boolOutput[start + k].To?)
    {
      PackedBits(t.boolOutput, bools', start + 8 * (k / 8), 8, k % 8);
      CoilsWritten(t, bools, start, data, start + k);
    }
    if forall k :: 0 <= k < 8 * |data| && DataBit(data, k) ==> t.boolOutput[start + k].To? {
      forall i | 0 <= i < |data|
        ensures back[i] == data[i]
      {
        forall j | 0 <= j < 8
          ensures BitRead(back[i], j) == BitRead(data[i], j)
        {
          assert DataBit(back, 8 * i + j) == DataBit(data, 8 * i + j);
        }
        BitsDetermineByte(back[i], data[i]);
      }
    }
  }

  /** The whole exchange for coils */
  lemma CoilsWriteThenRead(w: Buffer, wSize: nat, r: Buffer, rSize: nat, t: Tables, s: Store)
    requires Valid(t, s) && NoAlias(t.boolOutput) && wSize <= NET_BUFFER_SIZE && 12 <= rSize
    requires w[7] == MB_FC_WRITE_MULTIPLE_COILS && r[7] == MB_FC_READ_COILS
    requires Start(r) == Start(w) && Count(r) == Count(w) && 0 < Count(w)
    requires Start(w) + 8 * BytesFor(Count(w)) <= MAX_COILS
    requires WellFormedWrite(w, wSize, BytesFor(Count(w)))
    ensures Reply(w, wSize, t, s) == EchoReply(w)
    ensures Reply(r, rSize, t, After(w, wSize, t, s)) == DataReply(r, WrittenBytes(w, BytesFor(Count(w))))
       <==> forall k :: 0 <= k < 8 * BytesFor(Count(w)) && DataBit(WrittenBytes(w, BytesFor(Count(w))), k) ==>
              t.boolOutput[Start(w) + k].To?
  {
    hide NoAlias, EchoReply, DataReply, WriteAllBits, BitData, DataBit, BitRead;
    var n := BytesFor(Count(w));
    var data := WrittenBytes(w, n);
    CoilRoundTripIff(t, s.bools, Start(w), data);
    DataReplyInjective(r, BitData(t.boolOutput, After(w, wSize, t, s).bools, Start(w), n), data);
  }

  /** After initialisation every coil has a cell of its own. */
  lemma InitialisedCoils(t: Tables)
    requires TableShape(t) && WellGlued(t)
    ensures NoAlias(MapUnused(t).boolOutput) && forall p :: 0 <= p < MAX_COILS ==> MapUnused(t).boolOutput[p].To?
  {
    MapUnusedNoAlias(t);
    var m := MapUnused(t);
    var all := BoolPointers(m);
    forall i, j | 0 <= i < j < MAX_COILS
      ensures m.boolOutput[i] != m.boolOutput[j]
    {
      assert all[MAX_COILS + i] == m.boolOutput[i] && all[MAX_COILS + j] == m.boolOutput[j];
    }
  }

  // --------------------------------------------------------------------------
  // Reply frames
  // --------------------------------------------------------------------------

  /** A frame of the Modbus/TCP kind: the length field counts the bytes that follow it, the transaction,
      protocol and unit identifiers are those of the request, and the function code is the request's,
      with the top bit set for an exception. */
  predicate WellFormedReply(b: Buffer, r: seq<bv8>) {
    && 9 <= |r| == 6 + Number(r[4], r[5])
    && r[..4] == b[..4] && r[6] == b[6]
    && (r[7] == b[7] || (r[7] == b[7] | 0x80 && |r| == 9))
  }

  lemma ErrorReplyFormed(b: Buffer, code: nat)
    requires code < 256
    ensures WellFormedReply(b, ErrorReply(b, code))
  {
    assert (0 as bv8) as nat == 0 && (3 as bv8) as nat == 3;
  }

  lemma DataReplyFormed(b: Buffer, data: seq<bv8>)
    requires |data| < 256
    ensures WellFormedReply(b, DataReply(b, data))
  {
    hide HighByte, LowByte, ByteOf;
    NumberOfBytes(|data| + 3);
    var r := DataReply(b, data);
    assert r[..4] == b[..4];
  }

  lemma EchoReplyFormed(b: Buffer)
    ensures WellFormedReply(b, EchoReply(b))
  {
    assert (0 as bv8) as nat == 0 && (6 as bv8) as nat == 6;
    var r := EchoReply(b);
    assert r[..4] == b[..4] && r[6] == b[6] && r[7] == b[7];
  }

  /** Every request that is not the debugger's, however short or wrong, is answered with such a frame. */
  lemma RepliesFormed(b: Buffer, size: nat, t: Tables, s: Store)
    requires Valid(t, s)
    ensures WellFormedReply(b, Reply(b, size, t, s))
  {
    hide ErrorReply, DataReply, EchoReply, WellFormedReply, BitData, RegisterData, InputData;
    forall code: nat | code < 256
      ensures WellFormedReply(b, ErrorReply(b, code))
    {
      ErrorReplyFormed(b, code);
    }
    forall data: seq<bv8> | |data| < 256
      ensures WellFormedReply(b, DataReply(b, data))
    {
      DataReplyFormed(b, data);
    }
    EchoReplyFormed(b);
  }

  // --------------------------------------------------------------------------
  // An address that is not faithful
  // --------------------------------------------------------------------------

  /** No variable glued anywhere */
  function Bare(): (t: Tables)
    ensures TableShape(t) && WellGlued(t)
    ensures NoAlias(t.boolOutput) && (forall bools: nat :: PointsInto(t.boolOutput, bools)) && t.boolOutput[0] == Null
  {
    var bits, words := seq(8 * BUFFER_SIZE, _ => Null), seq(BUFFER_SIZE, _ => Null);
    Tables(bits, bits, words, words, Null, words, words, words)
  }

  /** A coil that is written where nothing is mapped does not read back. */
  lemma UnmappedCoilLost(bools: seq<bv8>)
    ensures var t := Bare();
      BitData(t.boolOutput, WriteAllBits(t, bools, 0, [1]), 0, 1) != [1]
  {
    hide WriteAllBits, BitData;
    CoilRoundTripIff(Bare(), bools, 0, [1]);
    assert DataBit([1], 0);
  }

  /** Of a word that is written to an address of the wide ranges with no variable glued to it, the high byte
      is not read back. */
  lemma UngluedHighByteLost(s: Store, hi: bv8, lo: bv8)
    requires Valid(MapUnused(Bare()), s) && hi != lo
    ensures var t := MapUnused(Bare());
      RegisterData(t, AssignAll(t, s, MIN_32B_RANGE, Words([hi, lo])), MIN_32B_RANGE, 1) != [hi, lo]
  {
    hide AssignAll, RegisterData, Distinct, Join, High, Low;
    var t := MapUnused(Bare());
    InitialMapDistinct(Bare());
    RoundTripIff(t, s, MIN_32B_RANGE, [hi, lo], 1);
    assert Words([hi, lo])[0] == Join(hi, lo);
    JoinSplits(hi, lo);
    assert Unglued(t, MIN_32B_RANGE + 0);
    assert !Faithful(t, MIN_32B_RANGE + 0, Words([hi, lo])[0]);
  }
}
