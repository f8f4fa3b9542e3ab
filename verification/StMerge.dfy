/**
 What the ST optimizer's result is: the file as a list of items, the merging of the blocks with the
 same header, and the files for which the program computes it.
 */
module StMerge {
  import opened Options
  import opened StOptimizer

  /** A line outside every block, or a whole top-level IF block */
  datatype Item = Plain(line: string) | Block(header: string, body: seq<string>, end: string)

  function PrintItem(item: Item): seq<string> {
    match item
    case Plain(line) => [line]
    case Block(header, body, end) => [header] + body + [end]
  }

  function Print(items: seq<Item>): seq<string> {
    if |items| == 0 then [] else PrintItem(items[0]) + Print(items[1..])
  }

  // --------------------------------------------------------------------------
  // Balanced lines
  // --------------------------------------------------------------------------

  /** The nesting depth after some lines; None when a line is fatal or the block of depth 1 closes */
  function Walk(s: seq<string>, depth: nat): (r: Option<nat>)
    requires depth >= 1
    ensures r.Some? ==> r.value >= 1
    decreases |s|
  {
    if |s| == 0 then Some(depth)
    else
      match Delta(s[0])
      case None => None
      case Some(d) => if depth + d == 0 then None else Walk(s[1..], depth + d)
  }

  predicate Balanced(body: seq<string>) {
    Walk(body, 1) == Some(1)
  }

  predicate WellFormedItem(item: Item) {
    match item
    case Plain(line) => IsIf(line) == Some(false)
    case Block(header, body, end) => IsIf(header) == Some(true) && Balanced(body) && Delta(end) == Some(-1)
  }

  predicate WellFormed(items: seq<Item>) {
    forall i :: 0 <= i < |items| ==> WellFormedItem(items[i])
  }

  lemma {:induction false} WalkJoined(a: seq<string>, b: seq<string>, depth: nat)
    requires depth >= 1 && Walk(a, depth).Some?
    ensures Walk(a + b, depth) == Walk(b, Walk(a, depth).value)
    decreases |a|
  {
    hide Delta;
    if |a| == 0 {
      assert a + b == b;
    } else {
      assert (a + b)[0] == a[0] && (a + b)[1..] == a[1..] + b;
      WalkJoined(a[1..], b, depth + Delta(a[0]).value);
    }
  }

  /** Lines that end at depth p + 1 above an outer depth q leave the inner block on the way. */
  lemma {:induction false} ScanInside(s: seq<string>, p: nat, q: nat, tail: seq<string>)
    requires p >= 1 && q >= 1 && Walk(s, p + q) == Some(1)
    ensures ScanBlock(s, p).Closed?
    ensures var r := ScanBlock(s, p);
      ScanBlock(s + tail, p) == Closed(r.body, r.end, r.rest + tail) && Walk(r.rest, q) == Some(1)
    decreases |s|
  {
    hide Delta, ScanBlock;
    var d := Delta(s[0]).value;
    assert (s + tail)[0] == s[0] && (s + tail)[1..] == s[1..] + tail;
    ScanUnfold(s, p);
    ScanUnfold(s + tail, p);
    if p + d > 0 {
      ScanInside(s[1..], p + d, q, tail);
    }
  }

  /** A scan stops at the line that closes a balanced body. */
  lemma {:induction false} ScanOverBody(body: seq<string>, end: string, tail: seq<string>, depth: nat)
    requires depth >= 1 && Walk(body, depth) == Some(1) && Delta(end) == Some(-1)
    ensures ScanBlock(body + [end] + tail, depth) == Closed(body, end, tail)
    decreases |body|
  {
    hide Delta;
    var s := body + [end] + tail;
    if |body| == 0 {
      assert s[0] == end && s[1..] == tail;
    } else {
      assert s[0] == body[0] && s[1..] == body[1..] + [end] + tail;
      ScanOverBody(body[1..], end, tail, depth + Delta(body[0]).value);
      assert [body[0]] + body[1..] == body;
    }
  }

  /** Conversely, what a scan finds between its start and the closing line is balanced. */
  lemma {:induction false} ScannedIsBalanced(s: seq<string>, depth: nat)
    requires depth >= 1 && ScanBlock(s, depth).Closed?
    ensures Walk(ScanBlock(s, depth).body, depth) == Some(1)
    decreases |s|
  {
    hide Delta;
    var d := Delta(s[0]).value;
    if depth + d > 0 {
      ScannedIsBalanced(s[1..], depth + d);
      var b := ScanBlock(s[1..], depth + d).body;
      assert ([s[0]] + b)[1..] == b;
    }
  }

  // --------------------------------------------------------------------------
  // Files as items
  // --------------------------------------------------------------------------

  /** The items of a file; None when a top-level line or a block line is fatal, or a block stays open */
  function Parse(lines: seq<string>): Option<seq<Item>>
    decreases |lines|
  {
    if |lines| == 0 then Some([])
    else
      match IsIf(lines[0])
      case None => None
      case Some(false) => Cons(Plain(lines[0]), Parse(lines[1..]))
      case Some(true) =>
        match ScanBlock(lines[1..], 1)
        case Closed(body, end, rest) => Cons(Block(lines[0], body, end), Parse(rest))
        case _ => None
  }

  function Cons(item: Item, items: Option<seq<Item>>): Option<seq<Item>> {
    match items
    case None => None
    case Some(more) => Some([item] + more)
  }

  /** Every file that parses is the print of well-formed items... */
  lemma {:induction false} ParsePrints(lines: seq<string>)
    requires Parse(lines).Some?
    ensures Print(Parse(lines).value) == lines && WellFormed(Parse(lines).value)
    decreases |lines|
  {
    hide Delta, IsIf, ScanBlock, Walk;
    if |lines| > 0 {
      hide Print, WellFormed;
      if IsIf(lines[0]) == Some(false) {
        ParsePrints(lines[1..]);
        PrintedCons(Plain(lines[0]), Parse(lines[1..]).value);
      } else {
        var r := ScanBlock(lines[1..], 1);
        ParsePrints(r.rest);
        ParsedBlock(lines, Parse(r.rest).value);
      }
    }
  }

  lemma ParsedBlock(lines: seq<string>, more: seq<Item>)
    requires |lines| > 0 && IsIf(lines[0]) == Some(true) && ScanBlock(lines[1..], 1).Closed?
    requires Print(more) == ScanBlock(lines[1..], 1).rest && WellFormed(more)
    ensures var r := ScanBlock(lines[1..], 1);
      var items := [Block(lines[0], r.body, r.end)] + more;
      Print(items) == lines && WellFormed(items)
  {
    hide Delta, IsIf, ScanBlock, Walk, Print, WellFormed;
    var r := ScanBlock(lines[1..], 1);
    ScanParts(lines[1..], 1);
    ScannedIsBalanced(lines[1..], 1);
    PrintedCons(Block(lines[0], r.body, r.end), more);
    assert lines == [lines[0]] + lines[1..];
  }

  lemma PrintedCons(item: Item, items: seq<Item>)
    ensures Print([item] + items) == PrintItem(item) + Print(items)
    ensures WellFormed(items) && WellFormedItem(item) ==> WellFormed([item] + items)
  {
    hide WellFormedItem, PrintItem;
    assert ([item] + items)[1..] == items;
  }

  /** ...and of no others. */
  lemma {:induction false} PrintParses(items: seq<Item>)
    requires WellFormed(items)
    ensures Parse(Print(items)) == Some(items)
    decreases |items|
  {
    hide Delta, IsIf, ScanBlock, Walk, Balanced;
    if |items| > 0 {
      hide Print;
      assert WellFormedItem(items[0]);
      PrintParses(items[1..]);
      PrintSplits(items);
      assert Parse(Print(items)) == Cons(items[0], Parse(Print(items[1..])));
      assert [items[0]] + items[1..] == items;
    }
  }

  /** The first item of a printed list, as a scan of the lines finds it */
  lemma PrintSplits(items: seq<Item>)
    requires |items| > 0 && WellFormedItem(items[0])
    ensures |Print(items)| > 0
    ensures items[0].Plain? ==> Print(items)[0] == items[0].line && Print(items)[1..] == Print(items[1..])
    ensures items[0].Block? ==> Print(items)[0] == items[0].header
    ensures items[0].Block? ==>
      ScanBlock(Print(items)[1..], 1) == Closed(items[0].body, items[0].end, Print(items[1..]))
  {
    hide Delta, IsIf, ScanBlock, Walk;
    var tail := Print(items[1..]);
    match items[0] {
      case Plain(line) =>
        assert Print(items) == [line] + tail;
      case Block(header, body, end) =>
        assert Print(items) == [header] + (body + [end] + tail);
        ScanOverBody(body, end, tail, 1);
    }
  }

  // --------------------------------------------------------------------------
  // The merge
  // --------------------------------------------------------------------------

  predicate Opens(item: Item, header: string) {
    item.Block? && item.header == header
  }

  /** The lines under a header, in the order of the file */
  function Bodies(items: seq<Item>, header: string): seq<string> {
    if |items| == 0 then []
    else (if Opens(items[0], header) then items[0].body else []) + Bodies(items[1..], header)
  }

  /** The first block of each header takes the lines of all the later ones. */
  function MergeFrom(items: seq<Item>, seen: seq<string>): seq<Item> {
    if |items| == 0 then []
    else
      match items[0]
      case Plain(line) => [items[0]] + MergeFrom(items[1..], seen)
      case Block(header, body, end) =>
        if header in seen then MergeFrom(items[1..], seen)
        else [Block(header, body + Bodies(items[1..], header), end)] + MergeFrom(items[1..], seen + [header])
  }

  function Merge(items: seq<Item>): seq<Item> {
    MergeFrom(items, [])
  }

  /** A nested block under a header, with at least one line in it */
  predicate Nested(body: seq<string>, header: string) {
    exists k :: 0 <= k < |body| && body[k] == header && !(k + 1 < |body| && Delta(body[k + 1]) == Some(-1))
  }

  /** Whether a block of another header has a nested block under this header, with lines in it */
  predicate HasStray(items: seq<Item>, header: string) {
    exists k :: 0 <= k < |items| && items[k].Block? && items[k].header != header && Nested(items[k].body, header)
  }

  predicate StrayFreeAfter(items: seq<Item>, seen: seq<string>) {
    forall i, k | 0 <= i < k < |items| && items[i].Block? && items[i].header !in seen ::
      items[k].Block? && items[k].header != items[i].header ==> !Nested(items[k].body, items[i].header)
  }

  /** No block has a nested block with lines in it under the header of an earlier top-level block. */
  predicate StrayFree(items: seq<Item>) {
    StrayFreeAfter(items, [])
  }

  // --------------------------------------------------------------------------
  // What the program collects under a header, nested blocks included
  // --------------------------------------------------------------------------

  function Strays(body: seq<string>, header: string): seq<string> {
    match Collect(body, header)
    case Some(lines) => lines
    case None => []
  }

  function Gathered(items: seq<Item>, header: string): seq<string> {
    if |items| == 0 then []
    else
      (match items[0]
       case Plain(_) => []
       case Block(h, body, _) => if h == header then body else Strays(body, header)) + Gathered(items[1..], header)
  }

  function GatherFrom(items: seq<Item>, seen: seq<string>): seq<Item> {
    if |items| == 0 then []
    else
      match items[0]
      case Plain(line) => [items[0]] + GatherFrom(items[1..], seen)
      case Block(header, body, end) =>
        if header in seen then GatherFrom(items[1..], seen)
        else [Block(header, body + Gathered(items[1..], header), end)] + GatherFrom(items[1..], seen + [header])
  }

  lemma HeaderOpens(line: string)
    requires IsIf(line) == Some(true)
    ensures Delta(line) == Some(1)
  {
    hide IsIf, IsEndIf;
  }

  lemma NestedStep(s: seq<string>, header: string)
    requires |s| > 0
    ensures Nested(s, header) <==>
      (s[0] == header && !(1 < |s| && Delta(s[1]) == Some(-1))) || Nested(s[1..], header)
  {
    hide Delta;
    var t := s[1..];
    if Nested(t, header) {
      var k :| 0 <= k < |t| && t[k] == header && !(k + 1 < |t| && Delta(t[k + 1]) == Some(-1));
      assert s[k + 1] == header && !(k + 2 < |s| && Delta(s[k + 2]) == Some(-1));
    }
    if Nested(s, header) {
      var k :| 0 <= k < |s| && s[k] == header && !(k + 1 < |s| && Delta(s[k + 1]) == Some(-1));
      if k > 0 {
        assert t[k - 1] == header && !(k < |t| && Delta(t[k]) == Some(-1));
      }
    }
  }

  /** A search through lines inside a block finds what is nested there, and goes on behind them. */
  lemma {:induction false} CollectInside(s: seq<string>, p: nat, header: string, tail: seq<string>)
    requires p >= 1 && Walk(s, p) == Some(1) && Delta(header) == Some(1)
    ensures Collect(s, header).Some?
    ensures Collect(s + tail, header) == Concat(Collect(s, header).value, Collect(tail, header))
    ensures Collect(s, header).value == [] <==> !Nested(s, header)
    decreases |s|
  {
    hide Delta, ScanBlock, Nested;
    if |s| == 0 {
      assert s + tail == tail;
      ConcatNothing(Collect(tail, header));
      NothingNested(header);
    } else {
      assert (s + tail)[0] == s[0] && (s + tail)[1..] == s[1..] + tail;
      NestedStep(s, header);
      if s[0] == header {
        ScanInside(s[1..], 1, p, tail);
        var r := ScanBlock(s[1..], 1);
        CollectInside(r.rest, p, header, tail);
        ConcatAssociative(r.body, Collect(r.rest, header).value, Collect(tail, header));
        ScannedNested(s[1..], header);
      } else {
        CollectInside(s[1..], p + Delta(s[0]).value, header, tail);
      }
    }
  }

  lemma NothingNested(header: string)
    ensures !Nested([], header)
  {
  }

  lemma ScannedNested(s: seq<string>, header: string)
    requires ScanBlock(s, 1).Closed? && Delta(header) == Some(1)
    ensures ScanBlock(s, 1).body == [] <==> 0 < |s| && Delta(s[0]) == Some(-1)
    ensures ScanBlock(s, 1).body == [] ==> (Nested(s, header) <==> Nested(ScanBlock(s, 1).rest, header))
  {
    hide Delta, Nested;
    if Delta(s[0]) == Some(-1) {
      NestedStep(s, header);
    }
  }

  lemma {:induction false} CollectPrinted(items: seq<Item>, header: string)
    requires WellFormed(items) && IsIf(header) == Some(true)
    ensures Collect(Print(items), header) == Some(Gathered(items, header))
    decreases |items|
  {
    hide Delta, IsIf, ScanBlock, Collect, Walk, Nested, Strays;
    if |items| == 0 {
      CollectNothing(header);
    } else {
      hide Print, Gathered;
      var lines, tail := Print(items), Print(items[1..]);
      assert WellFormedItem(items[0]);
      CollectPrinted(items[1..], header);
      HeaderOpens(header);
      PrintedLines(items);
      GatheredStep(items, header);
      match items[0] {
        case Plain(line) =>
          assert line != header;
          CollectStep(lines, header);
        case Block(h, body, end) =>
          CollectOverBlock(h, body, end, tail, header);
      }
    }
  }

  lemma PrintedLines(items: seq<Item>)
    requires |items| > 0
    ensures items[0].Plain? ==> Print(items) == [items[0].line] + Print(items[1..])
    ensures items[0].Plain? ==> Print(items)[1..] == Print(items[1..])
    ensures items[0].Block? ==>
      Print(items) == [items[0].header] + (items[0].body + ([items[0].end] + Print(items[1..])))
  {
  }

  lemma GatheredStep(items: seq<Item>, header: string)
    requires |items| > 0
    ensures items[0].Plain? ==> Gathered(items, header) == Gathered(items[1..], header)
    ensures items[0].Block? ==>
      Gathered(items, header)
      == (if items[0].header == header then items[0].body else Strays(items[0].body, header))
         + Gathered(items[1..], header)
  {
    hide Strays;
    assert [] + Gathered(items[1..], header) == Gathered(items[1..], header);
  }

  lemma CollectOverBlock(h: string, body: seq<string>, end: string, tail: seq<string>, header: string)
    requires Delta(header) == Some(1) && Balanced(body) && Delta(end) == Some(-1)
    ensures Collect([h] + (body + ([end] + tail)), header)
         == Concat(if h == header then body else Strays(body, header), Collect(tail, header))
  {
    hide Delta, ScanBlock, Collect, Walk, Nested, Concat;
    var lines := [h] + (body + ([end] + tail));
    assert lines[1..] == body + ([end] + tail);
    CollectStep(lines, header);
    if h == header {
      assert body + ([end] + tail) == body + [end] + tail;
      ScanOverBody(body, end, tail, 1);
    } else {
      CollectInside(body, 1, header, [end] + tail);
      CollectStep([end] + tail, header);
      assert ([end] + tail)[1..] == tail;
    }
  }

  lemma CollectNothing(header: string)
    ensures Collect([], header) == Some([])
  {
  }

  lemma CollectStep(s: seq<string>, header: string)
    requires |s| > 0
    ensures s[0] != header ==> Collect(s, header) == Collect(s[1..], header)
    ensures s[0] == header && ScanBlock(s[1..], 1).Closed? ==>
      Collect(s, header) == Concat(ScanBlock(s[1..], 1).body, Collect(ScanBlock(s[1..], 1).rest, header))
  {
    hide ScanBlock;
  }

  /** On every file whose blocks are balanced the program ends, with these lines. */
  lemma {:induction false} OptimizedPrinted(items: seq<Item>, seen: seq<string>, eof: string)
    requires WellFormed(items)
    ensures OptimizeFrom(Print(items), seen, eof) == Some(Print(GatherFrom(items, seen)))
    decreases |items|
  {
    hide Delta, IsIf, ScanBlock, Collect, Walk, Gathered;
    if |items| > 0 {
      assert WellFormedItem(items[0]);
      PrintSplits(items);
      match items[0] {
        case Plain(line) =>
          OptimizedPrinted(items[1..], seen, eof);
        case Block(header, body, end) =>
          if header in seen {
            OptimizedPrinted(items[1..], seen, eof);
          } else {
            OptimizedPrinted(items[1..], seen + [header], eof);
            CollectPrinted(items[1..], header);
            var more := Gathered(items[1..], header);
            assert [header] + body + more + [end] == [header] + (body + more) + [end];
          }
      }
    }
  }

  // --------------------------------------------------------------------------
  // When this is the merge
  // --------------------------------------------------------------------------

  lemma {:induction false} GatheredIsBodies(items: seq<Item>, header: string)
    requires WellFormed(items) && IsIf(header) == Some(true)
    ensures |Gathered(items, header)| >= |Bodies(items, header)|
    ensures !HasStray(items, header) ==> Gathered(items, header) == Bodies(items, header)
    ensures HasStray(items, header) ==> |Gathered(items, header)| > |Bodies(items, header)|
    decreases |items|
  {
    hide Delta, IsIf, ScanBlock, Collect, Walk, Nested;
    if |items| > 0 {
      GatheredIsBodies(items[1..], header);
      StrayStep(items, header);
      match items[0] {
        case Plain(_) =>
        case Block(h, body, _) =>
          assert WellFormedItem(items[0]);
          HeaderOpens(header);
          CollectInside(body, 1, header, []);
      }
    }
  }

  lemma StrayStep(items: seq<Item>, header: string)
    requires |items| > 0
    ensures HasStray(items, header) <==>
      (items[0].Block? && items[0].header != header && Nested(items[0].body, header)) || HasStray(items[1..], header)
  {
    hide Nested;
    var t := items[1..];
    if HasStray(t, header) {
      var k :| 0 <= k < |t| && t[k].Block? && t[k].header != header && Nested(t[k].body, header);
      assert items[k + 1] == t[k];
    }
    if HasStray(items, header) {
      var k :| 0 <= k < |items| && items[k].Block? && items[k].header != header && Nested(items[k].body, header);
      assert k > 0 ==> t[k - 1] == items[k];
    }
  }

  lemma StrayFreeStep(items: seq<Item>, seen: seq<string>)
    requires |items| > 0
    ensures items[0].Plain? || items[0].header in seen ==>
      (StrayFreeAfter(items, seen) <==> StrayFreeAfter(items[1..], seen))
    ensures items[0].Block? && items[0].header !in seen ==>
      (StrayFreeAfter(items, seen) <==>
       !HasStray(items[1..], items[0].header) && StrayFreeAfter(items[1..], seen + [items[0].header]))
  {
    hide Nested;
    var t := items[1..];
    assert forall k :: 0 <= k < |t| ==> t[k] == items[k + 1];
    assert forall k :: 0 < k < |items| ==> items[k] == t[k - 1];
  }

  /** The lines of the result: those of the merge and the stray ones */
  lemma {:induction false} GatherPrinted(items: seq<Item>, seen: seq<string>)
    requires WellFormed(items)
    ensures |Print(GatherFrom(items, seen))| >= |Print(MergeFrom(items, seen))|
    ensures StrayFreeAfter(items, seen) ==> GatherFrom(items, seen) == MergeFrom(items, seen)
    ensures !StrayFreeAfter(items, seen) ==> |Print(GatherFrom(items, seen))| > |Print(MergeFrom(items, seen))|
    decreases |items|
  {
    hide Delta, IsIf, ScanBlock, Collect, Walk, Gathered, Bodies, HasStray;
    if |items| > 0 {
      hide StrayFreeAfter, Print;
      StrayFreeStep(items, seen);
      match items[0] {
        case Plain(line) =>
          GatherPrinted(items[1..], seen);
          PrintedCons(items[0], GatherFrom(items[1..], seen));
          PrintedCons(items[0], MergeFrom(items[1..], seen));
        case Block(header, body, end) =>
          if header in seen {
            GatherPrinted(items[1..], seen);
          } else {
            assert WellFormedItem(items[0]);
            GatherPrinted(items[1..], seen + [header]);
            GatheredIsBodies(items[1..], header);
            PrintedCons(Block(header, body + Gathered(items[1..], header), end), GatherFrom(items[1..], seen + [header]));
            PrintedCons(Block(header, body + Bodies(items[1..], header), end), MergeFrom(items[1..], seen + [header]));
          }
      }
    }
  }

  /** The program merges the blocks of a file exactly when no nested block repeats an earlier header. */
  lemma OptimizerMergesIff(file: seq<string>, newlineAtEnd: bool)
    requires Parse(file).Some?
    ensures Optimized(file, newlineAtEnd).Some?
    ensures Optimized(file, newlineAtEnd) == Some(Print(Merge(Parse(file).value))) <==> StrayFree(Parse(file).value)
  {
    hide Parse, OptimizeFrom, Print, GatherFrom, MergeFrom, StrayFreeAfter;
    var items := Parse(file).value;
    ParsePrints(file);
    OptimizedPrinted(items, [], EofLine(file, newlineAtEnd));
    GatherPrinted(items, []);
  }
}
