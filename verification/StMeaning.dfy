/**
 What the merging does to the behaviour of a program: an interpreter for lines, and the conditions
 under which moving the lines of a block to the first block with its header changes nothing.
 */
module StMeaning {
  import opened Options
  import opened StOptimizer
  import opened StMerge
  import opened StMergeLaws

  /** The meaning of single lines. `separates` says which lines of a block start another branch (ELSE,
      ELSIF); `holds` is the condition of a header or of such a line. */
  datatype Machine<!S> = Machine(exec: (string, S) -> S, holds: (string, S) -> bool, separates: string -> bool)

  // --------------------------------------------------------------------------
  // The interpreter
  // --------------------------------------------------------------------------

  /** Position of the first branch line of a block's lines, or their number */
  function Branch<S>(m: Machine<S>, body: seq<string>, depth: nat): (k: nat)
    ensures k <= |body|
    decreases |body|
  {
    if |body| == 0 || (depth == 1 && m.separates(body[0])) then 0
    else
      match Delta(body[0])
      case None => |body|
      case Some(d) => if depth + d < 0 then |body| else 1 + Branch(m, body[1..], depth + d)
  }

  /** Runs lines one after the other; an IF block runs its first branch whose condition holds. */
  function Run<S>(m: Machine<S>, lines: seq<string>, s: S): S
    decreases |lines|, 0
  {
    if |lines| == 0 then s
    else if IsIf(lines[0]) != Some(true) then Run(m, lines[1..], m.exec(lines[0], s))
    else
      match ScanBlock(lines[1..], 1)
      case Closed(body, end, rest) =>
        ScanParts(lines[1..], 1);
        Run(m, rest, RunBranches(m, lines[0], body, s))
      case _ => s
  }

  function RunBranches<S>(m: Machine<S>, condition: string, body: seq<string>, s: S): S
    decreases |body|, 1
  {
    var k := Branch(m, body, 1);
    if m.holds(condition, s) then Run(m, body[..k], s)
    else if k < |body| then RunBranches(m, body[k], body[k + 1..], s)
    else s
  }

  function RunItem<S>(m: Machine<S>, item: Item, s: S): S {
    match item
    case Plain(line) => m.exec(line, s)
    case Block(header, body, _) => RunBranches(m, header, body, s)
  }

  function RunItems<S>(m: Machine<S>, items: seq<Item>, s: S): S {
    if |items| == 0 then s else RunItems(m, items[1..], RunItem(m, items[0], s))
  }

  /** One line or one block at the front of some lines */
  lemma {:induction false} RunPrinted<S>(m: Machine<S>, items: seq<Item>, s: S)
    requires WellFormed(items)
    ensures Run(m, Print(items), s) == RunItems(m, items, s)
    decreases |items|
  {
    hide Delta, IsIf, ScanBlock, Walk, RunBranches;
    if |items| > 0 {
      hide Print;
      assert WellFormedItem(items[0]);
      PrintSplits(items);
      RunPrinted(m, items[1..], RunItem(m, items[0], s));
    }
  }

  lemma DeltaOfIf(line: string)
    ensures Delta(line) == Some(1) <==> IsIf(line) == Some(true)
  {
    hide IsIf, IsEndIf;
  }

  /** Balanced lines run before what follows them. */
  lemma {:induction false} RunJoined<S>(m: Machine<S>, a: seq<string>, b: seq<string>, s: S)
    requires Balanced(a)
    ensures Run(m, a + b, s) == Run(m, b, Run(m, a, s))
    decreases |a|
  {
    hide Delta, IsIf, ScanBlock, RunBranches;
    if |a| == 0 {
      assert a + b == b;
    } else {
      assert (a + b)[0] == a[0] && (a + b)[1..] == a[1..] + b;
      DeltaOfIf(a[0]);
      if IsIf(a[0]) == Some(true) {
        ScanInside(a[1..], 1, 1, b);
        var r := ScanBlock(a[1..], 1);
        RunJoined(m, r.rest, b, RunBranches(m, a[0], r.body, s));
      } else {
        RunJoined(m, a[1..], b, m.exec(a[0], s));
      }
    }
  }

  lemma {:induction false} BranchJoined<S>(m: Machine<S>, a: seq<string>, b: seq<string>, depth: nat)
    requires depth >= 1 && Walk(a, depth) == Some(1) && Branch(m, a, depth) == |a|
    ensures Branch(m, a + b, depth) == |a| + Branch(m, b, 1)
    decreases |a|
  {
    hide Delta;
    if |a| == 0 {
      assert a + b == b;
    } else {
      assert (a + b)[0] == a[0] && (a + b)[1..] == a[1..] + b;
      BranchJoined(m, a[1..], b, depth + Delta(a[0]).value);
    }
  }

  // --------------------------------------------------------------------------
  // When lines may move
  // --------------------------------------------------------------------------

  /** A block body of one branch */
  predicate Unbranched<S>(m: Machine<S>, body: seq<string>) {
    Branch(m, body, 1) == |body|
  }

  /** Running these lines under a condition leaves the condition true. */
  ghost predicate BodyKeeps<S(!new)>(m: Machine<S>, header: string, body: seq<string>) {
    forall s | m.holds(header, s) :: m.holds(header, Run(m, body, s))
  }

  /** Running an item does not change a condition. */
  ghost predicate ItemKeeps<S(!new)>(m: Machine<S>, header: string, item: Item) {
    forall s :: m.holds(header, RunItem(m, item, s)) == m.holds(header, s)
  }

  /** Under the condition, lines and an item can trade places. */
  ghost predicate Commute<S(!new)>(m: Machine<S>, header: string, body: seq<string>, item: Item) {
    forall s | m.holds(header, s) :: Run(m, body, RunItem(m, item, s)) == RunItem(m, item, Run(m, body, s))
  }

  /** The bodies under a header can all move to the front of these items. */
  ghost predicate CanMove<S(!new)>(m: Machine<S>, items: seq<Item>, header: string) {
    && (forall k | 0 <= k < |items| && Opens(items[k], header) :: Unbranched(m, items[k].body))
    && (forall j, k | 0 <= j < k < |items| && Opens(items[j], header) && Opens(items[k], header) ::
          BodyKeeps(m, header, items[j].body))
    && (forall j, k | 0 <= j < k < |items| && !Opens(items[j], header) && Opens(items[k], header) ::
          ItemKeeps(m, header, items[j]) && Commute(m, header, items[k].body, items[j]))
  }

  /** Every body that merging moves commutes with what it crosses, and nothing on the way or merged
      before it changes its condition. */
  ghost predicate Movable<S(!new)>(m: Machine<S>, items: seq<Item>) {
    forall i | 0 <= i < |items| && items[i].Block? :: CanMove(m, items[i..], items[i].header)
  }

  // --------------------------------------------------------------------------
  // Moving
  // --------------------------------------------------------------------------

  /** Runs items, without the blocks of some headers */
  function RunSkipping<S>(m: Machine<S>, items: seq<Item>, seen: seq<string>, s: S): S {
    if |items| == 0 then s
    else
      RunSkipping(m, items[1..], seen,
        if items[0].Block? && items[0].header in seen then s else RunItem(m, items[0], s))
  }

  ghost predicate Occurs(items: seq<Item>, header: string) {
    exists k :: 0 <= k < |items| && Opens(items[k], header)
  }

  lemma CanMoveTail<S(!new)>(m: Machine<S>, items: seq<Item>, header: string)
    requires |items| > 0 && CanMove(m, items, header)
    ensures CanMove(m, items[1..], header)
    ensures Opens(items[0], header) ==> Unbranched(m, items[0].body)
    ensures Occurs(items[1..], header) ==>
      if Opens(items[0], header) then BodyKeeps(m, header, items[0].body) else ItemKeeps(m, header, items[0])
    ensures !Opens(items[0], header) ==>
      forall k | 0 <= k < |items| - 1 && Opens(items[1..][k], header) :: Commute(m, header, items[1..][k].body, items[0])
  {
    hide Unbranched, BodyKeeps, ItemKeeps, Commute, Opens;
    var t := items[1..];
    assert forall k :: 0 <= k < |t| ==> t[k] == items[k + 1];
    if Occurs(t, header) {
      var k :| 0 <= k < |t| && Opens(t[k], header);
      assert Opens(items[k + 1], header);
    }
  }

  lemma {:induction false} AbsentChangesNothing<S>(m: Machine<S>, items: seq<Item>, seen: seq<string>, header: string, s: S)
    requires !Occurs(items, header)
    ensures RunSkipping(m, items, seen + [header], s) == RunSkipping(m, items, seen, s)
    ensures Bodies(items, header) == []
    decreases |items|
  {
    hide RunItem;
    if |items| > 0 {
      assert !Opens(items[0], header);
      assert forall k :: 0 <= k < |items| - 1 ==> items[1..][k] == items[k + 1];
      AbsentChangesNothing(m, items[1..], seen, header,
        if items[0].Block? && items[0].header in seen then s else RunItem(m, items[0], s));
    }
  }

  /** While its condition is false, a header's blocks do nothing. */
  lemma {:induction false} FalseSkips<S(!new)>(m: Machine<S>, items: seq<Item>, seen: seq<string>, header: string, s: S)
    requires CanMove(m, items, header) && !m.holds(header, s) && header !in seen
    ensures RunSkipping(m, items, seen, s) == RunSkipping(m, items, seen + [header], s)
    decreases |items|
  {
    hide CanMove, Run, Branch, Bodies, Occurs;
    if !Occurs(items, header) {
      AbsentChangesNothing(m, items, seen, header, s);
    } else if |items| > 0 {
      CanMoveTail(m, items, header);
      if !Occurs(items[1..], header) {
        assert forall t :: RunSkipping(m, items[1..], seen, t) == RunSkipping(m, items[1..], seen + [header], t) by {
          forall t { AbsentChangesNothing(m, items[1..], seen, header, t); }
        }
      } else {
        FalseSkips(m, items[1..], seen, header,
          if items[0].Block? && items[0].header in seen + [header] then s else RunItem(m, items[0], s));
      }
    }
  }

  lemma BodiesStep(items: seq<Item>, header: string)
    requires |items| > 0 && WellFormed(items)
    ensures Opens(items[0], header) ==> Bodies(items, header) == items[0].body + Bodies(items[1..], header)
    ensures !Opens(items[0], header) ==> Bodies(items, header) == Bodies(items[1..], header)
    ensures Opens(items[0], header) ==> Balanced(items[0].body)
    ensures WellFormed(items[1..])
  {
    hide Walk, IsIf, Delta;
    assert WellFormedItem(items[0]);
    assert [] + Bodies(items[1..], header) == Bodies(items[1..], header);
  }

  /** All the bodies under a header commute with an item when each of them does. */
  lemma {:induction false} BodiesCommute<S(!new)>(m: Machine<S>, items: seq<Item>, header: string, item: Item, s: S)
    requires WellFormed(items) && CanMove(m, items, header)
    requires forall k | 0 <= k < |items| && Opens(items[k], header) :: Commute(m, header, items[k].body, item)
    requires Occurs(items, header) ==> m.holds(header, s) && ItemKeeps(m, header, item)
    ensures Run(m, Bodies(items, header), RunItem(m, item, s)) == RunItem(m, item, Run(m, Bodies(items, header), s))
    decreases |items|
  {
    hide CanMove, Run, RunItem, Branch, Bodies, Walk, Occurs, WellFormed;
    if !Occurs(items, header) {
      AbsentChangesNothing(m, items, [], header, s);
      RunNothing(m, s);
      RunNothing(m, RunItem(m, item, s));
    } else {
      assert |items| > 0 by { assert Occurs(items, header); OccursSomewhere(items, header); }
      CanMoveTail(m, items, header);
      BodiesStep(items, header);
      assert forall k :: 0 <= k < |items| - 1 ==> items[1..][k] == items[k + 1];
      OccursTail(items, header);
      if Opens(items[0], header) {
        var body, more := items[0].body, Bodies(items[1..], header);
        RunJoined(m, body, more, s);
        RunJoined(m, body, more, RunItem(m, item, s));
        assert Commute(m, header, body, item);
        BodiesCommute(m, items[1..], header, item, Run(m, body, s));
      } else {
        BodiesCommute(m, items[1..], header, item, s);
      }
    }
  }

  lemma OccursSomewhere(items: seq<Item>, header: string)
    requires Occurs(items, header)
    ensures |items| > 0
  {
  }

  lemma OccursTail(items: seq<Item>, header: string)
    requires |items| > 0
    ensures Occurs(items, header) <==> Opens(items[0], header) || Occurs(items[1..], header)
  {
    assert forall k :: 0 <= k < |items| - 1 ==> items[1..][k] == items[k + 1];
    if Occurs(items[1..], header) {
      var k :| 0 <= k < |items| - 1 && Opens(items[1..][k], header);
      assert Opens(items[k + 1], header);
    }
    if Occurs(items, header) && !Opens(items[0], header) {
      var k :| 0 <= k < |items| && Opens(items[k], header);
      assert Opens(items[1..][k - 1], header);
    }
  }

  lemma RunNothing<S>(m: Machine<S>, s: S)
    ensures Run(m, [], s) == s
  {
  }

  lemma BlockRuns<S>(m: Machine<S>, item: Item, s: S)
    requires item.Block? && Unbranched(m, item.body)
    ensures RunItem(m, item, s) == if m.holds(item.header, s) then Run(m, item.body, s) else s
  {
    hide Run, Branch;
    assert item.body[..|item.body|] == item.body;
  }

  /** While its condition is true, a header's bodies can run ahead of everything. */
  lemma {:induction false} TrueMoves<S(!new)>(m: Machine<S>, items: seq<Item>, seen: seq<string>, header: string, s: S)
    requires WellFormed(items) && CanMove(m, items, header) && header !in seen
    requires Occurs(items, header) ==> m.holds(header, s)
    ensures RunSkipping(m, items, seen, s) == RunSkipping(m, items, seen + [header], Run(m, Bodies(items, header), s))
    decreases |items|
  {
    hide CanMove, Run, RunItem, Branch, Bodies, Walk, Occurs, WellFormed;
    if !Occurs(items, header) {
      AbsentChangesNothing(m, items, seen, header, s);
      RunNothing(m, s);
    } else {
      OccursSomewhere(items, header);
      CanMoveTail(m, items, header);
      BodiesStep(items, header);
      OccursTail(items, header);
      var rest, more := items[1..], Bodies(items[1..], header);
      if Opens(items[0], header) {
        BlockRuns(m, items[0], s);
        RunJoined(m, items[0].body, more, s);
        TrueMoves(m, rest, seen, header, Run(m, items[0].body, s));
      } else if items[0].Block? && items[0].header in seen {
        TrueMoves(m, rest, seen, header, s);
      } else {
        BodiesCommute(m, rest, header, items[0], s);
        TrueMoves(m, rest, seen, header, RunItem(m, items[0], s));
      }
    }
  }

  /** The first block of a header with all the later bodies, and without the later blocks */
  lemma OneMerge<S(!new)>(m: Machine<S>, items: seq<Item>, seen: seq<string>, s: S)
    requires WellFormed(items) && |items| > 0 && items[0].Block? && items[0].header !in seen
    requires CanMove(m, items, items[0].header)
    ensures var Block(header, body, end) := items[0];
      RunSkipping(m, items, seen, s)
      == RunSkipping(m, items[1..], seen + [header], RunItem(m, Block(header, body + Bodies(items[1..], header), end), s))
  {
    hide CanMove, Run, Branch, Bodies, Walk, Occurs, WellFormed;
    var Block(header, body, end) := items[0];
    var more := Bodies(items[1..], header);
    CanMoveTail(m, items, header);
    BodiesStep(items, header);
    if Occurs(items[1..], header) {
      BodiesUnbranched(m, items[1..], header);
      BranchJoined(m, body, more, 1);
      BlockRuns(m, items[0], s);
      BlockRuns(m, Block(header, body + more, end), s);
      if m.holds(header, s) {
        RunJoined(m, body, more, s);
        TrueMoves(m, items[1..], seen, header, Run(m, body, s));
      } else {
        FalseSkips(m, items[1..], seen, header, s);
      }
    } else {
      AbsentChangesNothing(m, items[1..], seen, header, RunItem(m, items[0], s));
      assert body + [] == body;
    }
  }

  lemma {:induction false} BodiesUnbranched<S(!new)>(m: Machine<S>, items: seq<Item>, header: string)
    requires WellFormed(items) && CanMove(m, items, header)
    ensures Unbranched(m, Bodies(items, header))
    decreases |items|
  {
    hide CanMove, Bodies, Walk, Occurs, WellFormed, Delta;
    if |items| == 0 {
      assert Bodies(items, header) == [] by { NoBodies(items, header); }
    } else {
      CanMoveTail(m, items, header);
      BodiesStep(items, header);
      BodiesUnbranched(m, items[1..], header);
      if Opens(items[0], header) {
        BranchJoined(m, items[0].body, Bodies(items[1..], header), 1);
      }
    }
  }

  lemma {:induction false} MergeFromRuns<S(!new)>(m: Machine<S>, items: seq<Item>, seen: seq<string>, s: S)
    requires WellFormed(items) && Movable(m, items)
    ensures RunItems(m, MergeFrom(items, seen), s) == RunSkipping(m, items, seen, s)
    decreases |items|
  {
    hide CanMove, Run, RunBranches, Branch, Bodies, Walk, IsIf, Delta;
    if |items| > 0 {
      MovableTail(m, items);
      var rest := items[1..];
      match items[0] {
        case Plain(line) =>
          RunItemsCons(m, items[0], MergeFrom(rest, seen), s);
          MergeFromRuns(m, rest, seen, m.exec(line, s));
        case Block(header, body, end) =>
          if header in seen {
            MergeFromRuns(m, rest, seen, s);
          } else {
            assert items[0..] == items;
            OneMerge(m, items, seen, s);
            var merged := Block(header, body + Bodies(rest, header), end);
            RunItemsCons(m, merged, MergeFrom(rest, seen + [header]), s);
            MergeFromRuns(m, rest, seen + [header], RunItem(m, merged, s));
          }
      }
    }
  }

  lemma MovableTail<S(!new)>(m: Machine<S>, items: seq<Item>)
    requires |items| > 0 && Movable(m, items)
    ensures Movable(m, items[1..])
  {
    hide CanMove;
    forall i | 0 <= i < |items| - 1 && items[1..][i].Block?
      ensures CanMove(m, items[1..][i..], items[1..][i].header)
    {
      assert items[1..][i] == items[i + 1] && items[1..][i..] == items[i + 1..];
    }
  }

  lemma RunItemsCons<S>(m: Machine<S>, item: Item, items: seq<Item>, s: S)
    ensures RunItems(m, [item] + items, s) == RunItems(m, items, RunItem(m, item, s))
  {
    assert ([item] + items)[1..] == items;
  }

  lemma {:induction false} SkippingNothing<S>(m: Machine<S>, items: seq<Item>, s: S)
    ensures RunSkipping(m, items, [], s) == RunItems(m, items, s)
    decreases |items|
  {
    hide RunItem;
    if |items| > 0 {
      SkippingNothing(m, items[1..], RunItem(m, items[0], s));
    }
  }

  /** The optimized program does what the program does, from every state, when the moves are harmless. */
  lemma OptimizerKeepsMeaning<S(!new)>(m: Machine<S>, file: seq<string>, newlineAtEnd: bool, s: S)
    requires Parse(file).Some? && StrayFree(Parse(file).value) && Movable(m, Parse(file).value)
    ensures Optimized(file, newlineAtEnd).Some?
    ensures Run(m, Optimized(file, newlineAtEnd).value, s) == Run(m, file, s)
  {
    hide Parse, Optimized, Print, MergeFrom, StrayFreeAfter, WellFormed, Movable, Run, RunItems;
    var items := Parse(file).value;
    ParsePrints(file);
    OptimizerMergesIff(file, newlineAtEnd);
    MergeFromWellFormed(items, []);
    RunPrinted(m, items, s);
    RunPrinted(m, Merge(items), s);
    MergeFromRuns(m, items, [], s);
    SkippingNothing(m, items, s);
  }

  // --------------------------------------------------------------------------
  // The program does not check that they are
  // --------------------------------------------------------------------------

  const HEADER := "IF A THEN"
  const END := "END_IF;"

  /** Two blocks with a line between them that does not commute with the second */
  const CROSSING := [Block(HEADER, ["B"], END), Plain("C"), Block(HEADER, ["D"], END)]

  lemma ExampleLines()
    ensures IsIf(HEADER) == Some(true) && Delta(END) == Some(-1)
    ensures forall line | line in ["B", "C", "D"] :: IsIf(line) == Some(false) && Delta(line) == Some(0)
  {
    assert Indent(HEADER) == 0 && Indent(END) == 0;
    assert IsIf("B") == Some(false) && IsIf("C") == Some(false) && IsIf("D") == Some(false);
  }

  /** A file of balanced blocks and without repeated nested headers that does something else when merged */
  lemma MergingCanChangeMeaning()
    ensures exists m: Machine<int>, file: seq<string> ::
      Parse(file).Some? && StrayFree(Parse(file).value) && Optimized(file, true).Some? &&
      Run(m, Optimized(file, true).value, 0) != Run(m, file, 0)
  {
    hide IsIf, IsEndIf, Delta, Parse, Optimized, Run, RunItems, Print, MergeFrom, Walk;
    var m := Machine(
      (line: string, s: int) => if line == "C" then 2 * s else s + 1, (_: string, _: int) => true, (_: string) => false);
    ExampleMerge();
    var file := Print(CROSSING);
    PrintParses(CROSSING);
    OptimizerMergesIff(file, true);
    MergeFromWellFormed(CROSSING, []);
    RunPrinted(m, CROSSING, 0);
    RunPrinted(m, Merge(CROSSING), 0);
    ExampleRuns(m);
  }

  lemma ExampleMerge()
    ensures WellFormed(CROSSING) && StrayFree(CROSSING)
    ensures Merge(CROSSING) == [Block(HEADER, ["B", "D"], END), Plain("C")]
  {
    hide IsIf, IsEndIf, Delta;
    ExampleLines();
    assert Walk(["B"], 1) == Some(1) && Walk(["D"], 1) == Some(1);
    hide Walk;
    var tail := [Plain("C"), Block(HEADER, ["D"], END)];
    assert CROSSING == [Block(HEADER, ["B"], END)] + tail && CROSSING[1..] == tail;
    assert tail[1..] == [Block(HEADER, ["D"], END)] && tail[1..][1..] == [];
    assert Bodies(tail[1..], HEADER) == ["D"];
    assert Bodies(tail, HEADER) == ["D"];
    assert HEADER in [HEADER];
    assert MergeFrom(tail[1..], [HEADER]) == [];
    assert MergeFrom(tail, [HEADER]) == [Plain("C")];
    assert MergeFrom(CROSSING, []) == [Block(HEADER, ["B"] + ["D"], END)] + MergeFrom(tail, [] + [HEADER]);
    assert [] + [HEADER] == [HEADER] && ["B"] + ["D"] == ["B", "D"];
  }

  lemma RunLine<S>(m: Machine<S>, line: string, rest: seq<string>, s: S)
    requires IsIf(line) == Some(false)
    ensures Run(m, [line] + rest, s) == Run(m, rest, m.exec(line, s))
  {
    hide IsIf;
    assert ([line] + rest)[1..] == rest;
  }

  lemma ExampleRuns(m: Machine<int>)
    requires forall line, s :: m.exec(line, s) == if line == "C" then 2 * s else s + 1
    requires (forall line, s :: m.holds(line, s)) && forall line :: !m.separates(line)
    ensures RunItems(m, CROSSING, 0) == 3
    ensures RunItems(m, [Block(HEADER, ["B", "D"], END), Plain("C")], 0) == 4
  {
    hide IsIf, IsEndIf, Delta, RunItem, Run, Branch, RunItems;
    ExampleLines();
    var b, c, d, merged := Block(HEADER, ["B"], END), Plain("C"), Block(HEADER, ["D"], END), Block(HEADER, ["B", "D"], END);
    ExampleUnbranched(m);
    forall s: int
      ensures RunItem(m, b, s) == s + 1 && RunItem(m, d, s) == s + 1 && RunItem(m, c, s) == 2 * s
      ensures RunItem(m, merged, s) == s + 2
    {
      BlockRuns(m, b, s);
      BlockRuns(m, d, s);
      BlockRuns(m, merged, s);
      ExampleBodies(m, s);
      PlainRuns(m, "C", s);
    }
    assert CROSSING == [b] + ([c] + ([d] + []));
    RunItemsCons(m, b, [c] + ([d] + []), 0);
    RunItemsCons(m, c, [d] + [], 1);
    RunItemsCons(m, d, [], 2);
    NoItemsRun(m, 3);
    assert [merged, c] == [merged] + ([c] + []);
    RunItemsCons(m, merged, [c] + [], 0);
    RunItemsCons(m, c, [], 2);
    NoItemsRun(m, 4);
  }

  lemma PlainRuns<S>(m: Machine<S>, line: string, s: S)
    ensures RunItem(m, Plain(line), s) == m.exec(line, s)
  {
  }

  lemma NoItemsRun<S>(m: Machine<S>, s: S)
    ensures RunItems(m, [], s) == s
  {
  }

  lemma ExampleUnbranched(m: Machine<int>)
    requires forall line :: !m.separates(line)
    ensures Unbranched(m, ["B"]) && Unbranched(m, ["D"]) && Unbranched(m, ["B", "D"])
  {
    hide IsIf, IsEndIf, Delta;
    ExampleLines();
    assert ["B", "D"][1..] == ["D"];
    assert Branch(m, ["D"], 1) == 1;
  }

  lemma ExampleBodies(m: Machine<int>, s: int)
    requires forall line, s :: m.exec(line, s) == if line == "C" then 2 * s else s + 1
    ensures Run(m, ["B"], s) == s + 1 && Run(m, ["D"], s) == s + 1 && Run(m, ["B", "D"], s) == s + 2
  {
    hide IsIf, IsEndIf, Delta, Run;
    ExampleLines();
    assert ["B"] == ["B"] + [] && ["D"] == ["D"] + [] && ["B", "D"] == ["B"] + ["D"];
    RunLine(m, "B", [], s);
    RunLine(m, "D", [], s);
    RunLine(m, "B", ["D"], s);
    RunLine(m, "D", [], s + 1);
    RunNothing(m, s + 1);
    RunNothing(m, s + 2);
  }

  /** Two blocks, of which the second holds a nested block under the header of the first */
  const NESTING := [Block(HEADER, ["B"], END), Block(OTHER, [HEADER, "C", END], END)]

  const OTHER := "IF X THEN"

  /** A file of balanced blocks that the program does not merge: it takes a line out of a nested block. */
  lemma NestedHeaderNotMerged()
    ensures exists file: seq<string> ::
      Parse(file).Some? && !StrayFree(Parse(file).value) &&
      Optimized(file, true) != Some(Print(Merge(Parse(file).value)))
  {
    hide IsIf, IsEndIf, Delta, Parse, Optimized, Print, MergeFrom, Walk;
    var file := Print(NESTING);
    NestingParts();
    PrintParses(NESTING);
    OptimizerMergesIff(file, true);
  }

  lemma NestingParts()
    ensures WellFormed(NESTING) && !StrayFree(NESTING)
  {
    hide IsIf, IsEndIf, Delta;
    ExampleLines();
    OtherLines();
    var body := [HEADER, "C", END];
    assert body[1..] == ["C", END] && body[1..][1..] == [END];
    assert Walk([END], 2) == Some(1);
    assert Walk(["C", END], 2) == Some(1);
    assert Walk(body, 1) == Some(1);
    assert Walk(["B"], 1) == Some(1);
    assert body[0] == HEADER && Nested(body, HEADER);
    assert HEADER[3] != OTHER[3];
    assert NESTING[0].Block? && NESTING[1].Block?;
  }

  lemma OtherLines()
    ensures IsIf(OTHER) == Some(true) && Delta(HEADER) == Some(1)
  {
    assert Indent(HEADER) == 0 && Indent(OTHER) == 0;
  }
}
