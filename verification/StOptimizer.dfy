/**
 The ST optimizer: top-level IF blocks with the same header line are merged into the first of them.
 A file is the sequence of its lines.
 */
module StOptimizer {
  import opened Options

  // --------------------------------------------------------------------------
  // The two line tests. Both may run off the end of a line; the access is checked
  // and then ends the program, which is the result None.
  // --------------------------------------------------------------------------

  /** Number of leading spaces */
  function Indent(line: string): (i: nat)
    ensures i <= |line|
    ensures forall k :: 0 <= k < i ==> line[k] == ' '
    ensures i < |line| ==> line[i] != ' '
  {
    if |line| > 0 && line[0] == ' ' then 1 + Indent(line[1..]) else 0
  }

  /** Compares character by character from position i on, and stops at the first difference. */
  function MatchAt(line: string, i: nat, pattern: string): Option<bool>
    decreases |pattern|
  {
    if |pattern| == 0 then Some(true)
    else if i >= |line| then None
    else if line[i] != pattern[0] then Some(false)
    else MatchAt(line, i + 1, pattern[1..])
  }

  function IsIf(line: string): Option<bool> {
    if |line| >= 3 && Indent(line) < |line| then MatchAt(line, Indent(line), "IF ") else Some(false)
  }

  function IsEndIf(line: string): Option<bool> {
    if |line| >= 7 then MatchAt(line, Indent(line), "END_IF;") else Some(false)
  }

  /** What the test finds: the pattern, another text, or the end of the line in the middle of it */
  lemma {:induction false} MatchAtMeaning(line: string, i: nat, pattern: string)
    requires i <= |line|
    ensures MatchAt(line, i, pattern) == Some(true) <==> pattern <= line[i..]
    ensures MatchAt(line, i, pattern) == None <==> line[i..] < pattern
    decreases |pattern|
  {
    if |pattern| > 0 && i < |line| {
      MatchAtMeaning(line, i + 1, pattern[1..]);
      assert line[i..] == [line[i]] + line[i + 1..];
      assert pattern == [pattern[0]] + pattern[1..];
    }
  }

  /** A header is spaces followed by "IF "; a line that ends inside "IF" is fatal when it has three
      characters or more. */
  lemma IsIfMeaning(line: string)
    ensures IsIf(line) == Some(true) <==> "IF " <= line[Indent(line)..]
    ensures IsIf(line) == None <==> |line| >= 3 && Indent(line) < |line| && line[Indent(line)..] < "IF "
  {
    hide MatchAt;
    MatchAtMeaning(line, Indent(line), "IF ");
  }

  /** Seven spaces and nothing else are already fatal. */
  lemma IsEndIfMeaning(line: string)
    ensures IsEndIf(line) == Some(true) <==> "END_IF;" <= line[Indent(line)..]
    ensures IsEndIf(line) == None <==> |line| >= 7 && line[Indent(line)..] < "END_IF;"
  {
    hide MatchAt;
    MatchAtMeaning(line, Indent(line), "END_IF;");
  }

  // --------------------------------------------------------------------------
  // The nesting depth
  // --------------------------------------------------------------------------

  /** How a line inside a block changes the depth */
  function Delta(line: string): (d: Option<int>)
    ensures d.Some? ==> -1 <= d.value <= 1
  {
    match IsIf(line)
    case None => None
    case Some(true) => Some(1)
    case Some(false) =>
      match IsEndIf(line)
      case None => None
      case Some(b) => Some(if b then -1 else 0)
  }

  /** The lines up to the END_IF that closes a block, that line, and the lines after it */
  datatype Scan = Closed(body: seq<string>, end: string, rest: seq<string>) | Unclosed(lines: seq<string>) | Fatal

  function Prepend(line: string, r: Scan): (p: Scan)
    ensures p.Closed? == r.Closed?
    ensures r.Closed? ==> p.rest == r.rest
  {
    match r
    case Closed(body, end, rest) => Closed([line] + body, end, rest)
    case Unclosed(lines) => Unclosed([line] + lines)
    case Fatal => Fatal
  }

  function ScanBlock(s: seq<string>, depth: nat): (r: Scan)
    requires depth >= 1
    ensures r.Closed? ==> |r.rest| < |s|
    decreases |s|
  {
    if |s| == 0 then Unclosed([])
    else
      match Delta(s[0])
      case None => Fatal
      case Some(d) =>
        if depth + d == 0 then Closed([], s[0], s[1..]) else Prepend(s[0], ScanBlock(s[1..], depth + d))
  }

  lemma ScanUnfold(s: seq<string>, depth: nat)
    requires |s| > 0 && depth >= 1
    ensures Delta(s[0]) == None ==> ScanBlock(s, depth) == Fatal
    ensures Delta(s[0]).Some? && depth + Delta(s[0]).value == 0 ==> ScanBlock(s, depth) == Closed([], s[0], s[1..])
    ensures Delta(s[0]).Some? && depth + Delta(s[0]).value > 0 ==>
      ScanBlock(s, depth) == Prepend(s[0], ScanBlock(s[1..], depth + Delta(s[0]).value))
  {
    hide Delta, Prepend;
  }

  /** A scan loses no line. */
  lemma {:induction false} ScanParts(s: seq<string>, depth: nat)
    requires depth >= 1
    ensures ScanBlock(s, depth).Closed? ==>
      var r := ScanBlock(s, depth);
      s == r.body + [r.end] + r.rest && Delta(r.end) == Some(-1)
    ensures ScanBlock(s, depth).Unclosed? ==> s == ScanBlock(s, depth).lines
    decreases |s|
  {
    hide Delta;
    if |s| > 0 && Delta(s[0]).Some? && depth + Delta(s[0]).value > 0 {
      ScanParts(s[1..], depth + Delta(s[0]).value);
      assert s == [s[0]] + s[1..];
    }
  }

  /** Everything found under a header from here on: the lines of every block that a line equal to the
      header opens, wherever that line is */
  function Collect(s: seq<string>, header: string): Option<seq<string>>
    decreases |s|
  {
    if |s| == 0 then Some([])
    else if s[0] == header then
      match ScanBlock(s[1..], 1)
      case Fatal => None
      case Unclosed(lines) => Some(lines)
      case Closed(body, end, rest) =>
        (match Collect(rest, header)
         case None => None
         case Some(more) => Some(body + more))
    else Collect(s[1..], header)
  }

  function Concat(a: seq<string>, b: Option<seq<string>>): Option<seq<string>> {
    match b
    case None => None
    case Some(lines) => Some(a + lines)
  }

  /** The result for the rest of a file, with the headers that were already seen; `eof` is what a
      failed read leaves in the line variable */
  function OptimizeFrom(s: seq<string>, seen: seq<string>, eof: string): Option<seq<string>>
    decreases |s|, 1
  {
    if |s| == 0 then Some([])
    else
      match IsIf(s[0])
      case None => None
      case Some(false) => Concat([s[0]], OptimizeFrom(s[1..], seen, eof))
      case Some(true) => OptimizeBlock(s[0], ScanBlock(s[1..], 1), seen, eof)
  }

  /** A block with its header read: known headers are skipped, a new one takes its duplicates along. */
  function OptimizeBlock(header: string, block: Scan, seen: seq<string>, eof: string): Option<seq<string>>
    decreases if block.Closed? then |block.rest| + 1 else 0, 0
  {
    match block
    case Fatal => None
    case Unclosed(lines) => Some(if header in seen then [] else [header] + lines + [eof])
    case Closed(body, end, rest) =>
      if header in seen then OptimizeFrom(rest, seen, eof)
      else
        match Collect(rest, header)
        case None => None
        case Some(more) => Concat([header] + body + more + [end], OptimizeFrom(rest, seen + [header], eof))
  }

  /** After the last line a failed read leaves the line empty, unless the file does not end in a
      newline: then the last line stays. */
  function EofLine(lines: seq<string>, newlineAtEnd: bool): string {
    if newlineAtEnd || |lines| == 0 then "" else lines[|lines|-1]
  }

  function Optimized(lines: seq<string>, newlineAtEnd: bool): Option<seq<string>> {
    OptimizeFrom(lines, [], EofLine(lines, newlineAtEnd))
  }

  // --------------------------------------------------------------------------
  // The program
  // --------------------------------------------------------------------------

  method CountIndent(line: string) returns (i: nat)
    ensures i == Indent(line)
  {
    i := 0;
    while i < |line| && line[i] == ' '
      invariant i <= |line| && Indent(line) == i + Indent(line[i..])
    {
      assert line[i..][1..] == line[i + 1..];
      i := i + 1;
    }
  }

  /** The character-by-character comparison of both tests: false in `inside` when it runs off the line */
  method TestPattern(line: string, i: nat, pattern: string) returns (inside: bool, found: bool)
    ensures MatchAt(line, i, pattern) == if inside then Some(found) else None
  {
    inside, found := true, false;
    var k := 0;
    while k < |pattern|
      invariant k <= |pattern|
      invariant MatchAt(line, i, pattern) == MatchAt(line, i + k, pattern[k..])
    {
      if i + k >= |line| {
        inside := false;
        return;
      }
      if line[i + k] != pattern[k] {
        return;
      }
      assert pattern[k..][1..] == pattern[k + 1..];
      k := k + 1;
    }
    found := true;
  }

  method IsIfStatement(line: string) returns (inside: bool, found: bool)
    ensures IsIf(line) == if inside then Some(found) else None
  {
    hide MatchAt;
    var i := CountIndent(line);
    inside, found := true, false;
    if |line| >= 3 && i < |line| {
      inside, found := TestPattern(line, i, "IF ");
    }
  }

  method IsEndIfStatement(line: string) returns (inside: bool, found: bool)
    ensures IsEndIf(line) == if inside then Some(found) else None
  {
    hide MatchAt;
    var i := CountIndent(line);
    inside, found := true, false;
    if |line| >= 7 {
      inside, found := TestPattern(line, i, "END_IF;");
    }
  }

  lemma {:induction false} PrependAllSnoc(lines: seq<string>, line: string, r: Scan)
    ensures PrependAll(lines + [line], r) == PrependAll(lines, Prepend(line, r))
    decreases |lines|
  {
    if |lines| == 0 {
      assert (lines + [line])[1..] == [];
    } else {
      assert (lines + [line])[1..] == lines[1..] + [line];
      PrependAllSnoc(lines[1..], line, r);
    }
  }

  lemma {:induction false} PrependAllClosed(lines: seq<string>, body: seq<string>, end: string, rest: seq<string>)
    ensures PrependAll(lines, Closed(body, end, rest)) == Closed(lines + body, end, rest)
    decreases |lines|
  {
    if |lines| == 0 {
      assert lines + body == body;
    } else {
      PrependAllClosed(lines[1..], body, end, rest);
      assert [lines[0]] + (lines[1..] + body) == lines + body;
    }
  }

  lemma {:induction false} PrependAllUnclosed(lines: seq<string>, more: seq<string>)
    ensures PrependAll(lines, Unclosed(more)) == Unclosed(lines + more)
    decreases |lines|
  {
    if |lines| == 0 {
      assert lines + more == more;
    } else {
      PrependAllUnclosed(lines[1..], more);
      assert [lines[0]] + (lines[1..] + more) == lines + more;
    }
  }

  lemma {:induction false} PrependAllFatal(lines: seq<string>)
    ensures PrependAll(lines, Fatal) == Fatal
    decreases |lines|
  {
    if |lines| > 0 {
      PrependAllFatal(lines[1..]);
    }
  }

  function PrependAll(lines: seq<string>, r: Scan): Scan {
    if |lines| == 0 then r else Prepend(lines[0], PrependAll(lines[1..], r))
  }

  lemma ScanStep(file: seq<string>, to: nat, depth: nat)
    requires to < |file| && depth >= 1
    ensures Delta(file[to]) == None ==> ScanBlock(file[to..], depth) == Fatal
    ensures Delta(file[to]).Some? && depth + Delta(file[to]).value == 0 ==>
      ScanBlock(file[to..], depth) == Closed([], file[to], file[to + 1..])
    ensures Delta(file[to]).Some? && depth + Delta(file[to]).value > 0 ==>
      ScanBlock(file[to..], depth) == Prepend(file[to], ScanBlock(file[to + 1..], depth + Delta(file[to]).value))
  {
    hide Delta, ScanBlock, Prepend;
    ScanUnfold(file[to..], depth);
    assert file[to..][0] == file[to] && file[to..][1..] == file[to + 1..];
  }

  /** The lines of a block from position `from` on, up to the line at `to` that closes it */
  method CopyBlock(file: seq<string>, from: nat) returns (ok: bool, closed: bool, copied: seq<string>, to: nat)
    requires from <= |file|
    ensures from <= to <= |file|
    ensures !ok <==> ScanBlock(file[from..], 1) == Fatal
    ensures ok && closed ==> to < |file| && ScanBlock(file[from..], 1) == Closed(copied, file[to], file[to + 1..])
    ensures ok && !closed ==> to == |file| && ScanBlock(file[from..], 1) == Unclosed(copied)
  {
    hide IsIf, IsEndIf, PrependAll, Prepend;
    ok, closed, copied, to := true, false, [], from;
    var countForBreak: nat := 1;
    NothingPrepended(ScanBlock(file[from..], 1));
    while to < |file|
      invariant from <= to <= |file| && countForBreak >= 1 && ok && !closed
      invariant ScanBlock(file[from..], 1) == PrependAll(copied, ScanBlock(file[to..], countForBreak))
    {
      hide ScanBlock;
      var line := file[to];
      ghost var depth := countForBreak;
      ScanStep(file, to, depth);
      PrependAllFatal(copied);
      var inside, isIf := IsIfStatement(line);
      if !inside {
        ok := false;
        return;
      }
      if isIf {
        countForBreak := countForBreak + 1;
      } else {
        var isEndIf;
        inside, isEndIf := IsEndIfStatement(line);
        if !inside {
          ok := false;
          return;
        }
        if isEndIf {
          countForBreak := countForBreak - 1;
        }
      }
      assert Delta(line) == Some(countForBreak - depth);
      if countForBreak == 0 {
        PrependAllClosed(copied, [], line, file[to + 1..]);
        assert copied + [] == copied;
        closed := true;
        return;
      }
      PrependAllSnoc(copied, line, ScanBlock(file[to + 1..], countForBreak));
      copied := copied + [line];
      to := to + 1;
    }
    PrependAllUnclosed(copied, []);
    assert copied + [] == copied;
  }

  lemma NothingPrepended(r: Scan)
    ensures PrependAll([], r) == r
  {
  }

  /** The loop that concatenates all identical IF statements together */
  method CollectDuplicates(file: seq<string>, from: nat, ifStatement: string) returns (ok: bool, copied: seq<string>)
    requires from <= |file|
    ensures Collect(file[from..], ifStatement) == if ok then Some(copied) else None
  {
    hide ScanBlock;
    ok, copied := true, [];
    var pos := from;
    ConcatNothing(Collect(file[from..], ifStatement));
    while pos < |file|
      invariant pos <= |file| && ok
      invariant Collect(file[from..], ifStatement) == Concat(copied, Collect(file[pos..], ifStatement))
    {
      assert file[pos..][0] == file[pos] && file[pos..][1..] == file[pos + 1..];
      if file[pos] == ifStatement {
        var good, closed, body, to := CopyBlock(file, pos + 1);
        if !good {
          ok := false;
          return;
        }
        if closed {
          ConcatAssociative(copied, body, Collect(file[to + 1..], ifStatement));
          pos := to + 1;
        } else {
          assert file[to..] == [] && body + [] == body;
          ConcatAssociative(copied, body, Collect([], ifStatement));
          pos := to;
        }
        copied := copied + body;
      } else {
        pos := pos + 1;
      }
    }
    assert file[pos..] == [] && copied + [] == copied;
  }

  lemma OptimizeStep(file: seq<string>, pos: nat, seen: seq<string>, eof: string)
    requires pos < |file|
    ensures IsIf(file[pos]) == None ==> OptimizeFrom(file[pos..], seen, eof) == None
    ensures IsIf(file[pos]) == Some(false) ==>
      OptimizeFrom(file[pos..], seen, eof) == Concat([file[pos]], OptimizeFrom(file[pos + 1..], seen, eof))
    ensures IsIf(file[pos]) == Some(true) ==>
      OptimizeFrom(file[pos..], seen, eof) == OptimizeBlock(file[pos], ScanBlock(file[pos + 1..], 1), seen, eof)
  {
    hide ScanBlock, Collect, IsIf, OptimizeBlock, Concat;
    assert file[pos..][0] == file[pos] && file[pos..][1..] == file[pos + 1..];
  }

  /** The program: one pass over the file that reads ahead for the duplicates of each new header */
  method Optimize(file: seq<string>, newlineAtEnd: bool) returns (ok: bool, finalProgram: seq<string>)
    ensures Optimized(file, newlineAtEnd) == if ok then Some(finalProgram) else None
  {
    hide ScanBlock, Collect, IsIf, OptimizeFrom, Concat;
    var eof := if newlineAtEnd || |file| == 0 then "" else file[|file|-1];
    ok, finalProgram := true, [];
    var listOfIfs: seq<string> := [];
    var currentLine := 0;
    assert file[currentLine..] == file;
    ghost var whole := OptimizeFrom(file, [], eof);
    ConcatNothing(whole);
    while currentLine < |file|
      invariant currentLine <= |file| && ok
      invariant whole == Concat(finalProgram, OptimizeFrom(file[currentLine..], listOfIfs, eof))
    {
      var line := file[currentLine];
      OptimizeStep(file, currentLine, listOfIfs, eof);
      ConcatNone(finalProgram);
      var inside, isIf := IsIfStatement(line);
      if !inside {
        ok := false;
        return;
      }
      if !isIf {
        ConcatAssociative(finalProgram, [line], OptimizeFrom(file[currentLine + 1..], listOfIfs, eof));
        finalProgram := finalProgram + [line];
        currentLine := currentLine + 1;
      } else {
        var good, closed, body, to := CopyBlock(file, currentLine + 1);
        if !good {
          ok := false;
          return;
        }
        if line in listOfIfs {
          if closed {
            currentLine := to + 1;
          } else {
            AtTheEnd(file, to, listOfIfs, eof);
            currentLine := to;
          }
        } else if !closed {
          var block := [line] + body + [eof];
          AtTheEnd(file, to, listOfIfs, eof);
          assert block + [] == block;
          ConcatSome(block, []);
          ConcatAssociative(finalProgram, block, Some([]));
          finalProgram := finalProgram + block;
          currentLine := to;
        } else {
          var fine, more := CollectDuplicates(file, to + 1, line);
          if !fine {
            ok := false;
            return;
          }
          var block := [line] + body + more + [file[to]];
          ConcatAssociative(finalProgram, block, OptimizeFrom(file[to + 1..], listOfIfs + [line], eof));
          finalProgram := finalProgram + block;
          listOfIfs := listOfIfs + [line];
          currentLine := to + 1;
        }
      }
    }
    AtTheEnd(file, currentLine, listOfIfs, eof);
    assert finalProgram + [] == finalProgram;
    ConcatSome(finalProgram, []);
    ConcatNone(finalProgram);
  }

  lemma AtTheEnd(file: seq<string>, pos: nat, seen: seq<string>, eof: string)
    requires pos == |file|
    ensures OptimizeFrom(file[pos..], seen, eof) == Some([])
  {
    assert file[pos..] == [];
  }

  lemma ConcatAssociative(a: seq<string>, b: seq<string>, c: Option<seq<string>>)
    ensures Concat(a, Concat(b, c)) == Concat(a + b, c)
  {
    if c.Some? {
      assert a + (b + c.value) == a + b + c.value;
    }
  }

  lemma ConcatSome(a: seq<string>, b: seq<string>)
    ensures Concat(a, Some(b)) == Some(a + b)
  {
  }

  lemma ConcatNone(a: seq<string>)
    ensures Concat(a, None) == None
  {
  }

  lemma ConcatNothing(c: Option<seq<string>>)
    ensures Concat([], c) == c
  {
    if c.Some? {
      assert [] + c.value == c.value;
    }
  }
}
