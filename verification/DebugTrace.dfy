/**
 The debug extension of the Modbus server: variable values read in pages that fit one frame, by index
 range or by a list of indices.
 */
module DebugTrace {
  import opened Bytes

  const MAX_MB_FRAME := 260
  const VARIDX_SIZE := 60
  const MB_FC_DEBUG_GET: bv8 := 0x43
  const MB_FC_DEBUG_GET_LIST: bv8 := 0x44
  const MB_DEBUG_SUCCESS: bv8 := 0x7E
  const MB_DEBUG_ERROR_OUT_OF_BOUNDS: bv8 := 0x81
  const MB_DEBUG_ERROR_OUT_OF_MEMORY: bv8 := 0x82

  /** Where the values start in a reply, and how many of their bytes fit */
  const DATA := 17
  const ROOM := MAX_MB_FRAME - DATA

  /** The bytes of every variable, in the order of the debug table */
  type Table = vars: seq<seq<bv8>> | |vars| < 0x10000

  function Data(values: seq<seq<bv8>>): seq<bv8> {
    if |values| == 0 then [] else Data(values[..|values| - 1]) + values[|values| - 1]
  }

  lemma {:induction false} DataJoined(a: seq<seq<bv8>>, b: seq<seq<bv8>>)
    ensures Data(a + b) == Data(a) + Data(b)
    decreases |b|
  {
    if |b| == 0 {
      assert a + b == a;
    } else {
      var n := |b| - 1;
      assert (a + b)[..|a + b| - 1] == a + b[..n];
      DataJoined(a, b[..n]);
      assert Data(b) == Data(b[..n]) + b[n] && Data(a + b) == Data(a + b[..n]) + b[n];
    }
  }

  // --------------------------------------------------------------------------
  // One page
  // --------------------------------------------------------------------------

  /** How many values the loop takes when `used` bytes are taken */
  function PageLength(values: seq<seq<bv8>>, used: nat): (n: nat)
    ensures n <= |values|
  {
    if |values| == 0 || used + |values[0]| > ROOM then 0 else 1 + PageLength(values[1..], used + |values[0]|)
  }

  /** A page is the longest run of values that fits. */
  lemma {:induction false} PageIsLongest(values: seq<seq<bv8>>, used: nat, k: nat)
    requires used <= ROOM && k <= |values|
    ensures used + |Data(values[..k])| <= ROOM <==> k <= PageLength(values, used)
    decreases |values|
  {
    if k > 0 {
      assert values[..k] == [values[0]] + values[1..][..k - 1];
      DataJoined([values[0]], values[1..][..k - 1]);
      assert Data([values[0]]) == values[0];
      if used + |values[0]| <= ROOM {
        PageIsLongest(values[1..], used + |values[0]|, k - 1);
      }
    }
  }

  /** The bytes of the tick counter, the most significant first */
  function TickByte(tick: bv32, k: nat): bv8
    requires k < 4
  {
    if k == 0 then ((tick >> 24) & 0xFF) as bv8
    else if k == 1 then ((tick >> 16) & 0xFF) as bv8
    else if k == 2 then ((tick >> 8) & 0xFF) as bv8
    else (tick & 0xFF) as bv8
  }

  /** The ten bytes before the values */
  function Header(code: bv8, last: nat, tick: bv32, size: nat): (h: seq<bv8>)
    requires last < 0x10000 && size < 0x10000
    ensures |h| == 10
  {
    [code, MB_DEBUG_SUCCESS, HighByte(last), LowByte(last),
     TickByte(tick, 0), TickByte(tick, 1), TickByte(tick, 2), TickByte(tick, 3), HighByte(size), LowByte(size)]
  }

  /** A frame after a successful reply with these values */
  function Reply(b: seq<bv8>, code: bv8, last: nat, tick: bv32, data: seq<bv8>): (r: seq<bv8>)
    requires |b| >= MAX_MB_FRAME && last < 0x10000 && |data| <= ROOM
    ensures |r| == |b|
  {
    b[..7] + Header(code, last, tick, |data|) + data + b[DATA + |data|..]
  }

  function ErrorReply(b: seq<bv8>, code: bv8, error: bv8): seq<bv8>
    requires |b| >= MAX_MB_FRAME
  {
    b[7 := code][8 := error]
  }

  /** The index that the loop reports: the first one when not even its value fits */
  function LastIndex(start: nat, n: nat): nat {
    if n == 0 then start else start + n - 1
  }

  predicate InRange(vars: Table, start: nat, end: nat) {
    start <= end < |vars|
  }

  function PageValues(vars: Table, start: nat, end: nat): seq<seq<bv8>>
    requires InRange(vars, start, end)
  {
    vars[start..start + PageLength(vars[start..end + 1], 0)]
  }

  lemma PageFits(vars: Table, start: nat, end: nat)
    requires InRange(vars, start, end)
    ensures |Data(PageValues(vars, start, end))| <= ROOM
  {
    var values := vars[start..end + 1];
    var n := PageLength(values, 0);
    PageIsLongest(values, 0, n);
    assert values[..n] == PageValues(vars, start, end);
  }

  function TraceReply(b: seq<bv8>, vars: Table, start: nat, end: nat, tick: bv32): seq<bv8>
    requires |b| >= MAX_MB_FRAME
  {
    if !InRange(vars, start, end) then ErrorReply(b, MB_FC_DEBUG_GET, MB_DEBUG_ERROR_OUT_OF_BOUNDS)
    else
      var values := PageValues(vars, start, end);
      PageFits(vars, start, end);
      Reply(b, MB_FC_DEBUG_GET, LastIndex(start, |values|), tick, Data(values))
  }

  // --------------------------------------------------------------------------
  // The handler
  // --------------------------------------------------------------------------

  /** memcpy into the frame */
  method Copy(frame: array<bv8>, at: nat, data: seq<bv8>)
    requires at + |data| <= frame.Length
    modifies frame
    ensures frame[..] == old(frame[..at]) + data + old(frame[at + |data|..])
  {
    var i := 0;
    while i < |data|
      invariant 0 <= i <= |data|
      invariant frame[..at] == old(frame[..at]) && frame[at..at + i] == data[..i]
      invariant frame[at + i..] == old(frame[at + i..])
    {
      frame[at + i] := data[i];
      i := i + 1;
    }
    assert frame[..] == frame[..at] + frame[at..at + i] + frame[at + i..];
  }

  lemma HeaderBytes(code: bv8, last: nat, tick: bv32, size: nat)
    requires last < 0x10000 && size < 0x10000
    ensures var h := Header(code, last, tick, size);
      && h[0] == code && h[1] == MB_DEBUG_SUCCESS && h[2] == HighByte(last) && h[3] == LowByte(last)
      && h[4] == TickByte(tick, 0) && h[5] == TickByte(tick, 1) && h[6] == TickByte(tick, 2) && h[7] == TickByte(tick, 3)
      && h[8] == HighByte(size) && h[9] == LowByte(size)
  {
    hide HighByte, LowByte, TickByte;
  }

  lemma HeaderPut(f: seq<bv8>, b: seq<bv8>, h: seq<bv8>)
    requires |f| == |b| >= DATA && |h| == 10
    requires f[7] == h[0] && f[8] == h[1] && f[9] == h[2] && f[10] == h[3] && f[11] == h[4]
    requires f[12] == h[5] && f[13] == h[6] && f[14] == h[7] && f[15] == h[8] && f[16] == h[9]
    requires forall k :: 0 <= k < |b| && !(7 <= k < DATA) ==> f[k] == b[k]
    ensures f == b[..7] + h + b[DATA..]
  {
  }

  /** The header of a successful reply, written after the values */
  method PutHeader(frame: array<bv8>, code: bv8, last: nat, tick: bv32, size: nat)
    requires frame.Length >= MAX_MB_FRAME && last < 0x10000 && size <= ROOM
    modifies frame
    ensures frame[..] == old(frame[..7]) + Header(code, last, tick, size) + old(frame[DATA..])
  {
    hide HighByte, LowByte, TickByte, Header;
    ghost var before, h := frame[..], Header(code, last, tick, size);
    HeaderBytes(code, last, tick, size);
    frame[7] := code;
    frame[8] := MB_DEBUG_SUCCESS;
    PutTwo(frame, 9, last);
    frame[11] := TickByte(tick, 0);
    frame[12] := TickByte(tick, 1);
    frame[13] := TickByte(tick, 2);
    frame[14] := TickByte(tick, 3);
    PutTwo(frame, 15, size);
    HeaderPut(frame[..], before, h);
    assert before[..7] == old(frame[..7]) && before[DATA..] == old(frame[DATA..]);
  }

  /** A 16-bit number, high byte first */
  method PutTwo(frame: array<bv8>, at: nat, n: nat)
    requires at + 1 < frame.Length && n < 0x10000
    modifies frame
    ensures frame[at] == HighByte(n) && frame[at + 1] == LowByte(n)
    ensures forall k :: 0 <= k < frame.Length && k != at && k != at + 1 ==> frame[k] == old(frame[k])
  {
    hide HighByte, LowByte;
    frame[at] := HighByte(n);
    frame[at + 1] := LowByte(n);
  }

  /** A frame with some values in it */
  function Filled(b: seq<bv8>, data: seq<bv8>): seq<bv8>
    requires |b| >= MAX_MB_FRAME && |data| <= ROOM
  {
    b[..DATA] + data + b[DATA + |data|..]
  }

  lemma FilledMore(b: seq<bv8>, data: seq<bv8>, value: seq<bv8>)
    requires |b| >= MAX_MB_FRAME && |data| + |value| <= ROOM
    ensures var f := Filled(b, data);
      var at := DATA + |data|;
      f[..at] + value + f[at + |value|..] == Filled(b, data + value)
  {
  }

  lemma FilledReply(b: seq<bv8>, code: bv8, last: nat, tick: bv32, data: seq<bv8>)
    requires |b| >= MAX_MB_FRAME && last < 0x10000 && |data| <= ROOM
    ensures var f := Filled(b, data);
      f[..7] + Header(code, last, tick, |data|) + f[DATA..] == Reply(b, code, last, tick, data)
  {
    hide Header;
  }

  /** The next value of a page: it is taken if it fits, and otherwise the page is complete. */
  lemma PageStep(values: seq<seq<bv8>>, i: nat, used: nat)
    requires i <= |values|
    ensures i == |values| ==> PageLength(values[i..], used) == 0
    ensures i < |values| ==> PageLength(values[i..], used)
                             == if used + |values[i]| > ROOM then 0 else 1 + PageLength(values[i + 1..], used + |values[i]|)
    ensures i < |values| ==> Data(values[..i + 1]) == Data(values[..i]) + values[i]
  {
    if i < |values| {
      assert values[i..][0] == values[i] && values[i..][1..] == values[i + 1..];
      assert values[..i + 1][..i] == values[..i];
    }
  }

  lemma PageIs(vars: Table, start: nat, end: nat, n: nat)
    requires InRange(vars, start, end) && n == PageLength(vars[start..end + 1], 0)
    ensures vars[start..end + 1][..n] == PageValues(vars, start, end)
  {
  }

  method PutError(frame: array<bv8>, code: bv8, error: bv8)
    requires frame.Length >= MAX_MB_FRAME
    modifies frame
    ensures frame[..] == ErrorReply(old(frame[..]), code, error)
  {
    frame[7] := code;
    frame[8] := error;
  }

  /** The loop over the range: fills in values until one does not fit */
  method FillRange(frame: array<bv8>, vars: Table, startIdx: nat, endIdx: nat) returns (responseSize: nat, lastVarIdx: nat)
    requires frame.Length >= MAX_MB_FRAME && InRange(vars, startIdx, endIdx)
    modifies frame
    ensures var values := PageValues(vars, startIdx, endIdx);
      && responseSize == |Data(values)| <= ROOM && frame[..] == Filled(old(frame[..]), Data(values))
      && lastVarIdx == LastIndex(startIdx, |values|) < 0x10000
  {
    hide Data, PageLength, Filled;
    ghost var values := vars[startIdx..endIdx + 1];
    ghost var before := frame[..];
    responseSize, lastVarIdx := 0, startIdx;
    var varIdx := startIdx;
    assert values[0..] == values && values[..0] == [];
    NoData();
    NothingFilled(before);
    while varIdx <= endIdx
      invariant startIdx <= varIdx <= endIdx + 1
      invariant responseSize == |Data(values[..varIdx - startIdx])| <= ROOM
      invariant lastVarIdx == LastIndex(startIdx, varIdx - startIdx)
      invariant PageLength(values, 0) == varIdx - startIdx + PageLength(values[varIdx - startIdx..], responseSize)
      invariant frame[..] == Filled(before, Data(values[..varIdx - startIdx]))
    {
      ghost var i := varIdx - startIdx;
      var value := vars[varIdx];
      PageStep(values, i, responseSize);
      if responseSize + DATA + |value| > MAX_MB_FRAME {
        break;
      }
      FilledMore(before, Data(values[..i]), value);
      Copy(frame, DATA + responseSize, value);
      responseSize := responseSize + |value|;
      lastVarIdx := varIdx;
      varIdx := varIdx + 1;
    }
    ghost var n := varIdx - startIdx;
    PageStep(values, n, responseSize);
    PageIs(vars, startIdx, endIdx, n);
  }

  /** The reply to a request for a range of variables. Its size is reported 4 bytes too short. */
  method DebugGetTrace(frame: array<bv8>, vars: Table, startIdx: nat, endIdx: nat, tick: bv32) returns (messageLength: nat)
    requires frame.Length >= MAX_MB_FRAME
    modifies frame
    ensures frame[..] == TraceReply(old(frame[..]), vars, startIdx, endIdx, tick)
    ensures messageLength ==
      if InRange(vars, startIdx, endIdx) then 13 + |Data(PageValues(vars, startIdx, endIdx))| else 9
  {
    hide Data, PageValues, Filled, Reply, Header, ErrorReply;
    if startIdx >= |vars| || endIdx >= |vars| || startIdx > endIdx {
      messageLength := 9;
      PutError(frame, MB_FC_DEBUG_GET, MB_DEBUG_ERROR_OUT_OF_BOUNDS);
      return;
    }
    ghost var before := frame[..];
    var responseSize, lastVarIdx := FillRange(frame, vars, startIdx, endIdx);
    messageLength := 13 + responseSize;
    FilledReply(before, MB_FC_DEBUG_GET, lastVarIdx, tick, Data(PageValues(vars, startIdx, endIdx)));
    PutHeader(frame, MB_FC_DEBUG_GET, lastVarIdx, tick, responseSize);
  }

  lemma NoData()
    ensures Data([]) == []
  {
  }

  lemma NothingFilled(b: seq<bv8>)
    requires |b| >= MAX_MB_FRAME
    ensures Filled(b, []) == b
  {
  }

  // --------------------------------------------------------------------------
  // Lists of indices
  // --------------------------------------------------------------------------

  /** The requested indices, which stand in the frame itself where the reply's values go */
  function Requested(b: seq<bv8>, n: nat): seq<nat>
    requires n <= VARIDX_SIZE && |b| >= MAX_MB_FRAME
  {
    seq(n, i requires 0 <= i < n => Number(b[10 + 2 * i], b[11 + 2 * i]))
  }

  /** How many indices are in range before the first one that is not */
  function Valid(vars: Table, indices: seq<nat>): (n: nat)
    ensures n <= |indices|
    ensures forall k :: 0 <= k < n ==> indices[k] < |vars|
    ensures n < |indices| ==> indices[n] >= |vars|
  {
    if |indices| == 0 || indices[0] >= |vars| then 0 else 1 + Valid(vars, indices[1..])
  }

  function ListValues(vars: Table, indices: seq<nat>): (values: seq<seq<bv8>>)
    ensures |values| == Valid(vars, indices)
    ensures forall k :: 0 <= k < |values| ==> values[k] == vars[indices[k]]
  {
    seq(Valid(vars, indices), i requires 0 <= i < Valid(vars, indices) => vars[indices[i]])
  }

  /** The values that a list reply carries: the longest run of valid ones that fits */
  function Taken(vars: Table, indices: seq<nat>): seq<seq<bv8>> {
    ListValues(vars, indices)[..PageLength(ListValues(vars, indices), 0)]
  }

  lemma TakenFits(vars: Table, indices: seq<nat>)
    ensures |Data(Taken(vars, indices))| <= ROOM
  {
    PageIsLongest(ListValues(vars, indices), 0, PageLength(ListValues(vars, indices), 0));
  }

  /** An index out of range is an error only when every value before it fits. */
  predicate OutOfBounds(vars: Table, indices: seq<nat>) {
    |Taken(vars, indices)| == Valid(vars, indices) < |indices|
  }

  function ListReply(b: seq<bv8>, vars: Table, numIndexes: nat, tick: bv32): seq<bv8>
    requires |b| >= MAX_MB_FRAME
  {
    if numIndexes > VARIDX_SIZE then ErrorReply(b, MB_FC_DEBUG_GET_LIST, MB_DEBUG_ERROR_OUT_OF_MEMORY)
    else
      var indices := Requested(b, numIndexes);
      var values := Taken(vars, indices);
      TakenFits(vars, indices);
      if OutOfBounds(vars, indices) then
        ErrorReply(Filled(b, Data(values)), MB_FC_DEBUG_GET_LIST, MB_DEBUG_ERROR_OUT_OF_BOUNDS)
      else
        Reply(b, MB_FC_DEBUG_GET_LIST, if values == [] then 0 else indices[|values| - 1], tick, Data(values))
  }

  function ListLength(b: seq<bv8>, vars: Table, numIndexes: nat): nat
    requires |b| >= MAX_MB_FRAME
  {
    if numIndexes > VARIDX_SIZE then 9
    else if OutOfBounds(vars, Requested(b, numIndexes)) then 3
    else DATA + |Data(Taken(vars, Requested(b, numIndexes)))|
  }

  method CopyIndexes(frame: array<bv8>, numIndexes: nat) returns (indices: seq<nat>)
    requires frame.Length >= MAX_MB_FRAME && numIndexes <= VARIDX_SIZE
    ensures indices == Requested(frame[..], numIndexes)
  {
    indices := [];
    while |indices| < numIndexes
      invariant |indices| <= numIndexes && indices == Requested(frame[..], |indices|)
    {
      indices := indices + [Number(frame[10 + |indices| * 2], frame[11 + |indices| * 2])];
    }
  }

  /** The loop over the indices: fills in values until one does not fit, and stops at an index out of range */
  method FillList(frame: array<bv8>, vars: Table, indices: seq<nat>)
    returns (inBounds: bool, responseIdx: nat, lastVarIdx: nat)
    requires frame.Length >= MAX_MB_FRAME
    modifies frame
    ensures inBounds == !OutOfBounds(vars, indices)
    ensures var taken := Taken(vars, indices);
      && responseIdx == DATA + |Data(taken)| <= MAX_MB_FRAME && frame[..] == Filled(old(frame[..]), Data(taken))
      && |taken| <= |indices| && lastVarIdx == (if taken == [] then 0 else indices[|taken| - 1]) < 0x10000
  {
    hide Data, PageLength, Filled;
    ghost var values := ListValues(vars, indices);
    ghost var before := frame[..];
    inBounds, responseIdx, lastVarIdx := true, DATA, 0;
    var i := 0;
    assert values[0..] == values && values[..0] == [];
    NoData();
    NothingFilled(before);
    while i < |indices|
      invariant 0 <= i <= |values| && inBounds
      invariant responseIdx == DATA + |Data(values[..i])| <= MAX_MB_FRAME
      invariant lastVarIdx == (if i == 0 then 0 else indices[i - 1]) < 0x10000
      invariant PageLength(values, 0) == i + PageLength(values[i..], responseIdx - DATA)
      invariant frame[..] == Filled(before, Data(values[..i]))
    {
      PageStep(values, i, responseIdx - DATA);
      if indices[i] >= |vars| {
        inBounds := false;
        return;
      }
      var value := vars[indices[i]];
      assert values[i] == value;
      if responseIdx + |value| > MAX_MB_FRAME {
        break;
      }
      FilledMore(before, Data(values[..i]), value);
      Copy(frame, responseIdx, value);
      responseIdx := responseIdx + |value|;
      lastVarIdx := indices[i];
      i := i + 1;
    }
    PageStep(values, i, responseIdx - DATA);
  }

  /** The reply to a list of indices. They are copied before the values overwrite them. */
  method DebugGetTraceList(frame: array<bv8>, vars: Table, numIndexes: nat, tick: bv32) returns (messageLength: nat)
    requires frame.Length >= MAX_MB_FRAME
    modifies frame
    ensures frame[..] == ListReply(old(frame[..]), vars, numIndexes, tick)
    ensures messageLength == ListLength(old(frame[..]), vars, numIndexes)
  {
    hide Data, Taken, OutOfBounds, Filled, Reply, Header, Requested, ErrorReply;
    if numIndexes > VARIDX_SIZE {
      messageLength := 9;
      PutError(frame, MB_FC_DEBUG_GET_LIST, MB_DEBUG_ERROR_OUT_OF_MEMORY);
      return;
    }
    var indices := CopyIndexes(frame, numIndexes);
    ghost var before := frame[..];
    var inBounds, responseIdx, lastVarIdx := FillList(frame, vars, indices);
    if !inBounds {
      messageLength := 3;
      PutError(frame, MB_FC_DEBUG_GET_LIST, MB_DEBUG_ERROR_OUT_OF_BOUNDS);
      return;
    }
    messageLength := responseIdx;
    FilledReply(before, MB_FC_DEBUG_GET_LIST, lastVarIdx, tick, Data(Taken(vars, indices)));
    PutHeader(frame, MB_FC_DEBUG_GET_LIST, lastVarIdx, tick, responseIdx - DATA);
  }

  // --------------------------------------------------------------------------
  // Paging through a range
  // --------------------------------------------------------------------------

  /** What a client takes from a reply */
  datatype Page = Page(last: nat, data: seq<bv8>)

  function ReadPage(b: seq<bv8>): Page
    requires |b| >= MAX_MB_FRAME
  {
    var size := Number(b[15], b[16]);
    Page(Number(b[9], b[10]), if DATA + size <= |b| then b[DATA..DATA + size] else b[DATA..])
  }

  function PageOf(vars: Table, start: nat, end: nat): (p: Page)
    requires InRange(vars, start, end)
    ensures start <= p.last <= end
  {
    var values := PageValues(vars, start, end);
    Page(LastIndex(start, |values|), Data(values))
  }

  /** Whatever the frame held before and whatever the tick, the reply carries the page: the index
      reached, and a size field that is the number of value bytes behind it. */
  lemma ReplyCarriesPage(b: seq<bv8>, vars: Table, start: nat, end: nat, tick: bv32)
    requires |b| >= MAX_MB_FRAME && InRange(vars, start, end)
    ensures ReadPage(TraceReply(b, vars, start, end, tick)) == PageOf(vars, start, end)
  {
    hide Data, PageValues, HighByte, LowByte, Number, TickByte;
    var values := PageValues(vars, start, end);
    var last := LastIndex(start, |values|);
    var data := Data(values);
    PageFits(vars, start, end);
    assert PageOf(vars, start, end) == Page(last, data);
    var r := TraceReply(b, vars, start, end, tick);
    HeaderBytes(MB_FC_DEBUG_GET, last, tick, |data|);
    var h := Header(MB_FC_DEBUG_GET, last, tick, |data|);
    assert r[9] == h[2] && r[10] == h[3] && r[15] == h[8] && r[16] == h[9];
    NumberOfBytes(last);
    NumberOfBytes(|data|);
    assert r[DATA..DATA + |data|] == data;
  }

  /** All the bytes a client gets that asks again from the index behind the last one it was told */
  function AllPages(vars: Table, start: nat, end: nat): seq<bv8>
    requires InRange(vars, start, end)
    decreases end - start
  {
    var page := PageOf(vars, start, end);
    page.data + if page.last < end then AllPages(vars, page.last + 1, end) else []
  }

  predicate AllFit(values: seq<seq<bv8>>) {
    forall k :: 0 <= k < |values| ==> |values[k]| <= ROOM
  }

  lemma {:induction false} ValueInData(values: seq<seq<bv8>>, k: nat)
    requires k < |values|
    ensures |values[k]| <= |Data(values)|
    decreases |values|
  {
    if k < |values| - 1 {
      ValueInData(values[..|values| - 1], k);
    }
  }

  lemma {:induction false} PagesAgainstData(vars: Table, start: nat, end: nat)
    requires InRange(vars, start, end)
    ensures AllFit(vars[start..end + 1]) ==> AllPages(vars, start, end) == Data(vars[start..end + 1])
    ensures !AllFit(vars[start..end + 1]) ==> |AllPages(vars, start, end)| < |Data(vars[start..end + 1])|
    decreases end - start
  {
    hide Data, PageOf, AllFit;
    var page := PageOf(vars, start, end);
    var taken, rest := vars[start..page.last + 1], vars[page.last + 1..end + 1];
    assert vars[start..end + 1] == taken + rest;
    DataJoined(taken, rest);
    AllFitJoined(taken, rest);
    PageAgainstData(vars, start, end);
    if page.last < end {
      PagesAgainstData(vars, page.last + 1, end);
    } else {
      NoData();
      AllFitNothing();
    }
  }

  lemma AllFitJoined(a: seq<seq<bv8>>, b: seq<seq<bv8>>)
    ensures AllFit(a + b) <==> AllFit(a) && AllFit(b)
  {
    assert forall k :: 0 <= k < |a| ==> (a + b)[k] == a[k];
    assert forall k :: 0 <= k < |b| ==> (a + b)[|a| + k] == b[k];
    assert forall k :: |a| <= k < |a + b| ==> (a + b)[k] == b[k - |a|];
  }

  lemma AllFitNothing()
    ensures AllFit([])
  {
  }

  /** One page holds the values up to its last index, unless that index is a value that never fits. */
  lemma PageAgainstData(vars: Table, start: nat, end: nat)
    requires InRange(vars, start, end)
    ensures var page := PageOf(vars, start, end);
      var taken := vars[start..page.last + 1];
      && (AllFit(taken) ==> page.data == Data(taken))
      && (!AllFit(taken) ==> |page.data| < |Data(taken)|)
  {
    hide Data;
    var values := vars[start..end + 1];
    var n := PageLength(values, 0);
    var page := PageOf(vars, start, end);
    if n == 0 {
      NoData();
      var taken := vars[start..start + 1];
      assert taken[0] == values[0] && |taken[0]| > ROOM;
      ValueInData(taken, 0);
      assert !AllFit(taken) && page.last == start && page.data == [];
    } else {
      var taken := vars[start..start + n];
      assert taken == PageValues(vars, start, end);
      PageFits(vars, start, end);
      forall k | 0 <= k < n
        ensures |taken[k]| <= ROOM
      {
        ValueInData(taken, k);
      }
      assert AllFit(taken) && page.last == start + n - 1 && page.data == Data(taken);
    }
  }

  /** Paging ends with every variable of the range, once and in order, exactly when each of them fits
      a frame of its own. */
  lemma PagingYieldsAllIff(vars: Table, start: nat, end: nat)
    requires InRange(vars, start, end)
    ensures AllPages(vars, start, end) == Data(vars[start..end + 1]) <==> AllFit(vars[start..end + 1])
  {
    PagesAgainstData(vars, start, end);
  }

  /** Of a table with a value that is too long for a frame, paging does not give all. */
  lemma LongValueNotYielded(value: seq<bv8>)
    requires |value| > ROOM
    ensures InRange([value], 0, 0) && AllPages([value], 0, 0) != Data([value][0..1])
  {
    hide AllPages, Data;
    assert [value][0..0 + 1] == [value];
    assert !AllFit([value]) by {
      assert |[value][0]| > ROOM;
    }
    PagingYieldsAllIff([value], 0, 0);
  }
}
