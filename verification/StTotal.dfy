/**
 The ST optimizer on every file: when it ends with an exception, and what it leaves of a file whose last
 block is not closed.
 */
module StTotal {
  import opened Options
  import opened StOptimizer
  import opened StMerge

  // --------------------------------------------------------------------------
  // Exceptions
  // --------------------------------------------------------------------------

  /** Reading line by line with the nesting depth, outside every block only headers are looked for, and inside also
      the ends; a line that ends in the middle of the text looked for is fatal. */
  predicate Crashes(s: seq<string>, depth: nat) {
    if |s| == 0 then false
    else if IsIf(s[0]) == None then true
    else if IsIf(s[0]) == Some(true) then Crashes(s[1..], depth + 1)
    else if depth == 0 then Crashes(s[1..], 0)
    else if IsEndIf(s[0]) == None then true
    else Crashes(s[1..], if IsEndIf(s[0]) == Some(true) then depth - 1 else depth)
  }

  lemma CrashStep(s: seq<string>, depth: nat)
    requires |s| > 0 && depth > 0
    ensures Delta(s[0]) == None ==> Crashes(s, depth)
    ensures Delta(s[0]).Some? ==> Crashes(s, depth) == Crashes(s[1..], depth + Delta(s[0]).value)
  {
    hide IsIf, IsEndIf;
  }

  /** A scan for the end of a block, inside p more blocks */
  lemma {:induction false} ScanCrashes(s: seq<string>, depth: nat, p: nat)
    requires depth >= 1
    ensures var r := ScanBlock(s, depth);
      && (r.Fatal? ==> Crashes(s, depth + p))
      && (r.Closed? ==> Crashes(s, depth + p) == Crashes(r.rest, p))
      && (r.Unclosed? ==> !Crashes(s, depth + p))
    decreases |s|
  {
    hide Delta;
    if |s| > 0 {
      hide Crashes;
      CrashStep(s, depth + p);
      if Delta(s[0]).Some? && depth + Delta(s[0]).value > 0 {
        ScanCrashes(s[1..], depth + Delta(s[0]).value, p);
      }
    }
  }

  /** Reading ahead finds nothing fatal that reading on does not find. */
  lemma {:induction false} CollectsUnlessCrashes(s: seq<string>, depth: nat, header: string)
    requires IsIf(header) == Some(true) && !Crashes(s, depth)
    ensures Collect(s, header).Some?
    decreases |s|
  {
    hide IsIf, IsEndIf, ScanBlock;
    if |s| > 0 {
      if s[0] == header {
        ScanCrashes(s[1..], 1, depth);
        if ScanBlock(s[1..], 1).Closed? {
          CollectsUnlessCrashes(ScanBlock(s[1..], 1).rest, depth, header);
        }
      } else if IsIf(s[0]) == Some(true) {
        CollectsUnlessCrashes(s[1..], depth + 1, header);
      } else if depth > 0 && IsEndIf(s[0]) == Some(true) {
        CollectsUnlessCrashes(s[1..], depth - 1, header);
      } else {
        CollectsUnlessCrashes(s[1..], depth, header);
      }
    }
  }

  lemma {:induction false} FailsIffCrashes(s: seq<string>, seen: seq<string>, eof: string)
    ensures OptimizeFrom(s, seen, eof) == None <==> Crashes(s, 0)
    decreases |s|
  {
    hide IsIf, IsEndIf, ScanBlock, Collect;
    if |s| > 0 {
      if IsIf(s[0]) == Some(false) {
        FailsIffCrashes(s[1..], seen, eof);
      } else if IsIf(s[0]) == Some(true) {
        var r := ScanBlock(s[1..], 1);
        ScanCrashes(s[1..], 1, 0);
        if r.Closed? {
          FailsIffCrashes(r.rest, seen, eof);
          FailsIffCrashes(r.rest, seen + [s[0]], eof);
          if !Crashes(r.rest, 0) {
            CollectsUnlessCrashes(r.rest, 0, s[0]);
          }
        }
      }
    }
  }

  /** The program ends with an exception exactly for the files with a fatal line. */
  lemma OptimizerFailsIff(file: seq<string>, newlineAtEnd: bool)
    ensures Optimized(file, newlineAtEnd) == None <==> Crashes(file, 0)
  {
    FailsIffCrashes(file, [], EofLine(file, newlineAtEnd));
  }

  // --------------------------------------------------------------------------
  // The last block may be open
  // --------------------------------------------------------------------------

  /** Items, and behind them a block that is never closed */
  predicate EndsOpen(file: seq<string>, items: seq<Item>, header: string, lines: seq<string>) {
    && WellFormed(items) && IsIf(header) == Some(true) && ScanBlock(lines, 1) == Unclosed(lines)
    && file == Print(items) + ([header] + lines)
  }

  /** Every file is one of three: it crashes the program, it is made of lines and closed blocks, or of these and an
      open block at the end. */
  lemma {:induction false} EveryFile(file: seq<string>) returns (items: seq<Item>, header: string, lines: seq<string>)
    ensures Crashes(file, 0) || Parse(file).Some? || EndsOpen(file, items, header, lines)
    decreases |file|, 1
  {
    hide IsIf, IsEndIf, ScanBlock, Crashes, Walk, WellFormed, Print;
    items, header, lines := [], "", [];
    if |file| > 0 {
      CrashOutside(file);
      match IsIf(file[0]) {
        case None =>
        case Some(opens) =>
          if opens {
            items, header, lines := FileWithBlock(file);
          } else {
            items, header, lines := EveryFile(file[1..]);
            if EndsOpen(file[1..], items, header, lines) {
              LineInFront(file, items, header, lines);
              items := [Plain(file[0])] + items;
            }
          }
      }
    }
  }

  lemma {:induction false} FileWithBlock(file: seq<string>) returns (items: seq<Item>, header: string, lines: seq<string>)
    requires |file| > 0 && IsIf(file[0]) == Some(true)
    ensures Crashes(file, 0) || Parse(file).Some? || EndsOpen(file, items, header, lines)
    decreases |file|, 0
  {
    hide IsIf, IsEndIf, ScanBlock, Crashes, Walk, WellFormed, Print;
    items, header, lines := [], "", [];
    CrashOutside(file);
    ScanCrashes(file[1..], 1, 0);
    match ScanBlock(file[1..], 1) {
      case Closed(body, end, rest) =>
        items, header, lines := EveryFile(rest);
        if EndsOpen(rest, items, header, lines) {
          BlockInFront(file, items, header, lines);
          items := [Block(file[0], body, end)] + items;
        }
      case Unclosed(all) =>
        header, lines := file[0], file[1..];
        OpenAlone(file);
      case Fatal =>
    }
  }

  lemma OpenAlone(file: seq<string>)
    requires |file| > 0 && IsIf(file[0]) == Some(true) && ScanBlock(file[1..], 1).Unclosed?
    ensures EndsOpen(file, [], file[0], file[1..])
  {
    hide IsIf, ScanBlock;
    ScanParts(file[1..], 1);
    assert file == Print([]) + ([file[0]] + file[1..]);
  }

  lemma LineInFront(file: seq<string>, items: seq<Item>, header: string, lines: seq<string>)
    requires |file| > 0 && IsIf(file[0]) == Some(false) && EndsOpen(file[1..], items, header, lines)
    ensures EndsOpen(file, [Plain(file[0])] + items, header, lines)
  {
    hide IsIf, ScanBlock, WellFormed, Print;
    PrintedCons(Plain(file[0]), items);
    assert file == [file[0]] + (Print(items) + ([header] + lines));
  }

  lemma BlockInFront(file: seq<string>, items: seq<Item>, header: string, lines: seq<string>)
    requires |file| > 0 && IsIf(file[0]) == Some(true) && ScanBlock(file[1..], 1).Closed?
    requires EndsOpen(ScanBlock(file[1..], 1).rest, items, header, lines)
    ensures var r := ScanBlock(file[1..], 1);
      EndsOpen(file, [Block(file[0], r.body, r.end)] + items, header, lines)
  {
    hide IsIf, ScanBlock, WellFormed, Print;
    var r := ScanBlock(file[1..], 1);
    OpenBehindBlock(file, items);
    PrintedCons(Block(file[0], r.body, r.end), items);
    var tail := [header] + lines;
    assert file == [file[0]] + file[1..];
    Reassociated([file[0]] + r.body + [r.end], Print(items), tail);
    FourReassociated([file[0]], r.body, [r.end], Print(items) + tail);
  }

  lemma CrashOutside(s: seq<string>)
    requires |s| > 0
    ensures IsIf(s[0]) == None ==> Crashes(s, 0)
    ensures IsIf(s[0]) == Some(false) ==> Crashes(s, 0) == Crashes(s[1..], 0)
    ensures IsIf(s[0]) == Some(true) ==> Crashes(s, 0) == Crashes(s[1..], 1)
  {
    hide IsIf, IsEndIf;
  }

  lemma OpenBehindBlock(file: seq<string>, items: seq<Item>)
    requires |file| > 0 && IsIf(file[0]) == Some(true) && ScanBlock(file[1..], 1).Closed? && WellFormed(items)
    ensures var r := ScanBlock(file[1..], 1);
      file[1..] == r.body + [r.end] + r.rest && WellFormed([Block(file[0], r.body, r.end)] + items)
  {
    hide IsIf, Delta, ScanBlock, Walk, WellFormed;
    var r := ScanBlock(file[1..], 1);
    ScanParts(file[1..], 1);
    ScannedIsBalanced(file[1..], 1);
    PrintedCons(Block(file[0], r.body, r.end), items);
  }

  /** What is collected under a header h from the open block */
  function OpenBody(header: string, lines: seq<string>, h: string): seq<string> {
    if h == header then lines else Strays(lines, h)
  }

  /** The result for such a file: the closed blocks take along what the open one has under their headers; under a
      header of its own it stays as it is, with one more line behind it. */
  function LeftOpen(items: seq<Item>, seen: seq<string>, header: string, lines: seq<string>, eof: string): seq<string> {
    if |items| == 0 then if header in seen then [] else [header] + lines + [eof]
    else
      match items[0]
      case Plain(line) => [line] + LeftOpen(items[1..], seen, header, lines, eof)
      case Block(h, body, end) =>
        if h in seen then LeftOpen(items[1..], seen, header, lines, eof)
        else [h] + body + (Gathered(items[1..], h) + OpenBody(header, lines, h)) + [end]
             + LeftOpen(items[1..], seen + [h], header, lines, eof)
  }

  lemma {:induction false} CollectOpen(items: seq<Item>, h: string, tail: seq<string>)
    requires WellFormed(items) && IsIf(h) == Some(true)
    ensures Collect(Print(items) + tail, h) == Concat(Gathered(items, h), Collect(tail, h))
    decreases |items|
  {
    hide Delta, IsIf, ScanBlock, Collect, Walk, Nested, Strays;
    if |items| == 0 {
      assert Print(items) + tail == tail;
      ConcatNothing(Collect(tail, h));
    } else {
      hide Print, Gathered, Concat;
      var more := Print(items[1..]) + tail;
      assert WellFormedItem(items[0]);
      CollectOpen(items[1..], h, tail);
      HeaderOpens(h);
      LinesBefore(items, tail);
      GatheredStep(items, h);
      match items[0] {
        case Plain(line) =>
          assert line != h;
          assert ([line] + more)[1..] == more;
          CollectStep([line] + more, h);
        case Block(g, body, end) =>
          CollectOverBlock(g, body, end, more, h);
          ConcatAssociative(if g == h then body else Strays(body, h), Gathered(items[1..], h), Collect(tail, h));
      }
    }
  }

  /** The lines of an open block, searched for a header */
  lemma CollectTail(header: string, lines: seq<string>, h: string)
    requires IsIf(header) == Some(true) && IsIf(h) == Some(true) && ScanBlock(lines, 1) == Unclosed(lines)
    ensures Collect([header] + lines, h) == Some(OpenBody(header, lines, h))
  {
    hide IsIf, ScanBlock, Crashes;
    var s := [header] + lines;
    assert s[1..] == lines;
    if h != header {
      ScanCrashes(lines, 1, 0);
      CollectsUnlessCrashes(lines, 1, h);
    }
  }

  lemma OpenSplits(items: seq<Item>, tail: seq<string>)
    requires |items| > 0 && WellFormedItem(items[0])
    ensures var s := Print(items) + tail;
      && |s| > 0
      && (items[0].Plain? ==> s[0] == items[0].line && s[1..] == Print(items[1..]) + tail)
      && (items[0].Block? ==> s[0] == items[0].header)
      && (items[0].Block? ==> ScanBlock(s[1..], 1) == Closed(items[0].body, items[0].end, Print(items[1..]) + tail))
  {
    hide Delta, IsIf, ScanBlock, Walk, Print;
    var more := Print(items[1..]) + tail;
    LinesBefore(items, tail);
    match items[0] {
      case Plain(line) =>
      case Block(header, body, end) =>
        assert body + ([end] + more) == body + [end] + more;
        assert ([header] + (body + ([end] + more)))[1..] == body + ([end] + more);
        ScanOverBody(body, end, more, 1);
    }
  }

  lemma FourReassociated<T>(a: seq<T>, b: seq<T>, c: seq<T>, d: seq<T>)
    ensures (a + b + c) + d == a + (b + c + d)
  {
  }

  lemma Reassociated<T>(a: seq<T>, b: seq<T>, c: seq<T>)
    ensures (a + b) + c == a + (b + c)
  {
  }

  /** The lines of a first item, before all others and a tail */
  lemma LinesBefore(items: seq<Item>, tail: seq<string>)
    requires |items| > 0
    ensures var more := Print(items[1..]) + tail;
      && (items[0].Plain? ==> Print(items) + tail == [items[0].line] + more)
      && (items[0].Block? ==> Print(items) + tail == [items[0].header] + (items[0].body + ([items[0].end] + more)))
  {
    hide Print;
    PrintedLines(items);
    var rest := Print(items[1..]);
    match items[0] {
      case Plain(line) => Reassociated([line], rest, tail);
      case Block(header, body, end) =>
        Reassociated([header], body + ([end] + rest), tail);
        Reassociated(body, [end] + rest, tail);
        Reassociated([end], rest, tail);
    }
  }

  lemma {:induction false} OpenLeft(items: seq<Item>, seen: seq<string>, header: string, lines: seq<string>, eof: string)
    requires WellFormed(items) && IsIf(header) == Some(true) && ScanBlock(lines, 1) == Unclosed(lines)
    ensures OptimizeFrom(Print(items) + ([header] + lines), seen, eof) == Some(LeftOpen(items, seen, header, lines, eof))
    decreases |items|
  {
    hide Delta, IsIf, ScanBlock, Collect, Walk, Gathered, OpenBody;
    var tail := [header] + lines;
    if |items| == 0 {
      assert Print(items) + tail == tail && tail[1..] == lines;
    } else {
      assert WellFormedItem(items[0]);
      OpenSplits(items, tail);
      hide Print;
      match items[0] {
        case Plain(line) =>
          OpenLeft(items[1..], seen, header, lines, eof);
        case Block(h, body, end) =>
          if h in seen {
            OpenLeft(items[1..], seen, header, lines, eof);
          } else {
            OpenLeft(items[1..], seen + [h], header, lines, eof);
            CollectOpen(items[1..], h, tail);
            CollectTail(header, lines, h);
          }
      }
    }
  }

  /** The program on a file with an open block at its end; what a failed read leaves in the line variable, nothing or
      the last line, is written behind it. */
  lemma OptimizerLeavesOpen(file: seq<string>, newlineAtEnd: bool, items: seq<Item>, header: string, lines: seq<string>)
    requires EndsOpen(file, items, header, lines)
    ensures |file| > 0
    ensures Optimized(file, newlineAtEnd) ==
      Some(LeftOpen(items, [], header, lines, if newlineAtEnd then "" else file[|file| - 1]))
  {
    hide IsIf, ScanBlock, WellFormed, OptimizeFrom, LeftOpen, Print;
    OpenLeft(items, [], header, lines, EofLine(file, newlineAtEnd));
  }
}
