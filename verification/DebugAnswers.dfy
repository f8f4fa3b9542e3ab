/**
 The two trace requests told on the bytes of the frame: which values a reply carries, where they stand, and
 what is left of the frame otherwise.
 */
module DebugAnswers {
  import opened Bytes
  import opened DebugTrace

  /** Only the code and the error change. */
  predicate IsError(b: seq<bv8>, r: seq<bv8>, code: bv8, error: bv8)
    requires |b| >= 260
  {
    |r| == |b| && r[7] == code && r[8] == error && r[..7] == b[..7] && r[9..] == b[9..]
  }

  /** A success: the last index, the tick and the number of bytes, each with its high byte first, and the bytes */
  predicate IsTrace(b: seq<bv8>, r: seq<bv8>, code: bv8, last: nat, tick: bv32, data: seq<bv8>)
    requires |b| >= 260 && |data| <= 243
  {
    && |r| == |b| && r[..7] == b[..7] && r[7] == code && r[8] == 0x7E && Number(r[9], r[10]) == last
    && JoinWords(Join(r[11], r[12]), Join(r[13], r[14])) == tick
    && Number(r[15], r[16]) == |data| && r[17..17 + |data|] == data && r[17 + |data|..] == b[17 + |data|..]
  }

  lemma ErrorFormed(b: seq<bv8>, code: bv8, error: bv8)
    requires |b| >= 260
    ensures IsError(b, ErrorReply(b, code, error), code, error)
  {
  }

  lemma TickJoins(tick: bv32)
    ensures JoinWords(Join(TickByte(tick, 0), TickByte(tick, 1)), Join(TickByte(tick, 2), TickByte(tick, 3))) == tick
  {
  }

  lemma TraceFormed(b: seq<bv8>, code: bv8, last: nat, tick: bv32, data: seq<bv8>)
    requires |b| >= 260 && last < 0x10000 && |data| <= 243
    ensures IsTrace(b, Reply(b, code, last, tick, data), code, last, tick, data)
  {
    hide HighByte, LowByte, Number, TickByte, Join, JoinWords;
    var r, h := Reply(b, code, last, tick, data), Header(code, last, tick, |data|);
    HeaderBytes(code, last, tick, |data|);
    assert r == b[..7] + h + data + b[17 + |data|..];
    assert r[7] == h[0] && r[8] == h[1] && r[9] == h[2] && r[10] == h[3] && r[11] == h[4] && r[12] == h[5];
    assert r[13] == h[6] && r[14] == h[7] && r[15] == h[8] && r[16] == h[9];
    NumberOfBytes(last);
    NumberOfBytes(|data|);
    TickJoins(tick);
  }

  /** The values of a range, one after the other */
  function Joined(vars: Table, start: nat, n: nat): seq<bv8>
    requires start + n <= |vars|
  {
    if n == 0 then [] else Joined(vars, start, n - 1) + vars[start + n - 1]
  }

  lemma {:induction false} JoinedIsData(vars: Table, start: nat, n: nat)
    requires start + n <= |vars|
    ensures Joined(vars, start, n) == Data(vars[start..start + n])
    decreases n
  {
    if n > 0 {
      JoinedIsData(vars, start, n - 1);
      assert vars[start..start + n][..n - 1] == vars[start..start + n - 1];
    }
  }

  /** A request for a range: an error when the range is not one of the table, and otherwise as many values from its
      start on as fit, reported with the last of their indices. */
  lemma TraceAnswer(b: seq<bv8>, vars: Table, start: nat, end: nat, tick: bv32, r: seq<bv8>) returns (n: nat)
    requires |b| >= 260 && r == TraceReply(b, vars, start, end, tick)
    ensures !(start <= end < |vars|) ==> IsError(b, r, 0x43, 0x81)
    ensures start <= end < |vars| ==>
      && start + n <= end + 1 && |Joined(vars, start, n)| <= 243
      && (start + n <= end ==> |Joined(vars, start, n + 1)| > 243)
      && IsTrace(b, r, 0x43, if n == 0 then start else start + n - 1, tick, Joined(vars, start, n))
      && n == |PageValues(vars, start, end)|
  {
    hide ErrorReply, IsTrace, IsError, Reply, Data, Joined;
    ErrorFormed(b, 0x43, 0x81);
    n := 0;
    if start <= end < |vars| {
      var values := vars[start..end + 1];
      n := PageLength(values, 0);
      JoinedIsData(vars, start, n);
      PageFits(vars, start, end);
      assert values[..n] == vars[start..start + n];
      if start + n <= end {
        JoinedIsData(vars, start, n + 1);
        PageIsLongest(values, 0, n + 1);
        assert values[..n + 1] == vars[start..start + n + 1];
      }
      TraceFormed(b, 0x43, if n == 0 then start else start + n - 1, tick, Joined(vars, start, n));
    }
  }

  /** The reported length of that reply */
  lemma TraceLength(vars: Table, start: nat, end: nat, n: nat)
    requires InRange(vars, start, end) && n == |PageValues(vars, start, end)|
    ensures start + n <= |vars| && |Data(PageValues(vars, start, end))| == |Joined(vars, start, n)|
  {
    hide Data, Joined;
    JoinedIsData(vars, start, n);
  }

  // --------------------------------------------------------------------------
  // Lists
  // --------------------------------------------------------------------------

  /** Index k of the list in a request */
  function Index(b: seq<bv8>, k: nat): nat
    requires k < 60 && |b| >= 260
  {
    Number(b[10 + 2 * k], b[11 + 2 * k])
  }

  /** The values of the first n indices, one after the other */
  function Listed(b: seq<bv8>, vars: Table, n: nat): seq<bv8>
    requires n <= 60 && |b| >= 260 && forall k :: 0 <= k < n ==> Index(b, k) < |vars|
  {
    if n == 0 then [] else Listed(b, vars, n - 1) + vars[Index(b, n - 1)]
  }

  lemma {:induction false} ListedIsData(b: seq<bv8>, vars: Table, numIndexes: nat, n: nat)
    requires numIndexes <= 60 && |b| >= 260 && n <= |ListValues(vars, Requested(b, numIndexes))|
    ensures n <= numIndexes && forall k :: 0 <= k < n ==> Index(b, k) < |vars|
    ensures Listed(b, vars, n) == Data(ListValues(vars, Requested(b, numIndexes))[..n])
    decreases n
  {
    hide Number, Data;
    var values := ListValues(vars, Requested(b, numIndexes));
    NothingListed(values);
    if n > 0 {
      ListedIsData(b, vars, numIndexes, n - 1);
      assert Requested(b, numIndexes)[n - 1] == Index(b, n - 1);
      DataSnoc(values, n - 1);
    }
  }

  lemma NothingListed(values: seq<seq<bv8>>)
    ensures Data(values[..0]) == []
  {
  }

  lemma DataSnoc(values: seq<seq<bv8>>, n: nat)
    requires n < |values|
    ensures Data(values[..n + 1]) == Data(values[..n]) + values[n]
  {
    assert values[..n + 1][..n] == values[..n];
  }

  /** The frame where values were put in before an error was found */
  predicate IsLateError(b: seq<bv8>, r: seq<bv8>, data: seq<bv8>)
    requires |b| >= 260 && |data| <= 243
  {
    && |r| == |b| && r[..7] == b[..7] && r[7] == 0x44 && r[8] == 0x81 && r[9..17] == b[9..17]
    && r[17..17 + |data|] == data && r[17 + |data|..] == b[17 + |data|..]
  }

  lemma LateErrorFormed(b: seq<bv8>, data: seq<bv8>)
    requires |b| >= 260 && |data| <= 243
    ensures IsLateError(b, ErrorReply(Filled(b, data), 0x44, 0x81), data)
  {
  }

  /** A request for a list of at most sixty indices: n of them are taken, each in range, as many as fit. An index out
      of range that comes next is an error; if what comes next does not fit, or nothing comes, the reply has the
      values of the n indices and the last of them. */
  lemma ListAnswer(b: seq<bv8>, vars: Table, numIndexes: nat, tick: bv32, r: seq<bv8>, length: nat) returns (n: nat)
    requires |b| >= 260 && r == ListReply(b, vars, numIndexes, tick) && length == ListLength(b, vars, numIndexes)
    ensures numIndexes > 60 ==> IsError(b, r, 0x44, 0x82) && length == 9
    ensures numIndexes <= 60 ==>
      && n <= numIndexes && (forall k :: 0 <= k < n ==> Index(b, k) < |vars|) && |Listed(b, vars, n)| <= 243
      && if n < numIndexes && Index(b, n) >= |vars| then IsLateError(b, r, Listed(b, vars, n)) && length == 3
         else
           && (n < numIndexes ==> |Listed(b, vars, n)| + |vars[Index(b, n)]| > 243)
           && length == 17 + |Listed(b, vars, n)|
           && IsTrace(b, r, 0x44, if n == 0 then 0 else Index(b, n - 1), tick, Listed(b, vars, n))
  {
    hide ErrorReply, IsTrace, IsError, IsLateError, Reply, Filled, Data, Number, Taken, OutOfBounds, Listed,
      Requested, Index;
    ErrorFormed(b, 0x44, 0x82);
    n := 0;
    if numIndexes <= 60 {
      n := ListTaken(b, vars, numIndexes);
      LateErrorFormed(b, Listed(b, vars, n));
      TraceFormed(b, 0x44, if n == 0 then 0 else Index(b, n - 1), tick, Listed(b, vars, n));
    }
  }

  /** What the loop over the indices takes */
  lemma ListTaken(b: seq<bv8>, vars: Table, numIndexes: nat) returns (n: nat)
    requires |b| >= 260 && numIndexes <= 60
    ensures var indices := Requested(b, numIndexes);
      && n == |Taken(vars, indices)| <= numIndexes && (forall k :: 0 <= k < n ==> Index(b, k) < |vars|)
      && Data(Taken(vars, indices)) == Listed(b, vars, n) && |Listed(b, vars, n)| <= 243
      && (OutOfBounds(vars, indices) <==> n < numIndexes && Index(b, n) >= |vars|)
      && (n < numIndexes && Index(b, n) < |vars| ==> |Listed(b, vars, n)| + |vars[Index(b, n)]| > 243)
      && (n > 0 ==> indices[n - 1] == Index(b, n - 1))
  {
    hide Data, Number, PageLength;
    var indices := Requested(b, numIndexes);
    var values := ListValues(vars, indices);
    n := PageLength(values, 0);
    TakenFits(vars, indices);
    ListedIsData(b, vars, numIndexes, n);
    assert forall k :: 0 <= k < numIndexes ==> indices[k] == Index(b, k);
    if n < |values| {
      ListedIsData(b, vars, numIndexes, n + 1);
      PageIsLongest(values, 0, n + 1);
      assert Listed(b, vars, n + 1) == Listed(b, vars, n) + vars[Index(b, n)];
    }
  }
}
