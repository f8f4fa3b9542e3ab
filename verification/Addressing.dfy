/**
 Located variables: how programs and the compiler write them, and the table slot that the glue generator
 binds each of them to.
 */
module Addressing {
  import opened Options
  import opened Text

  // --------------------------------------------------------------------------
  // Located variables
  // --------------------------------------------------------------------------

  /** %IX0.3 and the like: area I, Q or M, width X, B, W, D or L, and one or two numbers */
  datatype Located = Located(area: char, width: char, a: nat, b: Option<nat>)

  predicate IsLetter(c: char) {
    'A' <= c <= 'Z'
  }

  predicate WellNamed(v: Located) {
    IsLetter(v.area) && IsLetter(v.width)
  }

  function Numbers(v: Located, separator: char): string {
    Decimal(v.a) + match v.b case None => "" case Some(b) => [separator] + Decimal(b)
  }

  /** As the program text has it */
  function Location(v: Located): string {
    "%" + [v.area, v.width] + Numbers(v, '.')
  }

  /** As the compiler declares it */
  function VarName(v: Located): string {
    "__" + [v.area, v.width] + Numbers(v, '_')
  }

  // --------------------------------------------------------------------------
  // The glue generator
  // --------------------------------------------------------------------------

  const MAX_LINE_INPUT := 1024
  const MAX_LOCAL_BUFFER := 100

  /** The two numbers of a name. When nothing follows the underscore, the buffer still holds the first. */
  function Positions(varName: string): (int, int)
    requires |varName| > 4
  {
    var tail := varName[4..];
    var i := IndexOf(tail, '_');
    if i == |tail| then (Atoi(tail), 0)
    else (Atoi(tail[..i]), Atoi(if i + 1 == |tail| then tail[..i] else tail[i + 1..]))
  }

  method FindPositions(varName: string) returns (pos1: int, pos2: int)
    requires |varName| > 4 && varName[4] != '_'
    ensures (pos1, pos2) == Positions(varName)
  {
    hide Atoi, IndexOf;
    ghost var tail := varName[4..];
    var i, tempBuffer := 4, "";
    while i < |varName| && varName[i] != '_'
      invariant 4 <= i <= |varName| && tempBuffer == tail[..i - 4]
      invariant forall k :: 0 <= k < i - 4 ==> tail[k] != '_'
    {
      tempBuffer := tempBuffer + [varName[i]];
      i := i + 1;
    }
    IndexIs(tail, '_', i - 4);
    pos1 := Atoi(tempBuffer);
    if i == |varName| {
      assert tail[..|tail|] == tail;
      pos2 := 0;
      return;
    }
    i := i + 1;
    if i < |varName| {
      ghost var from := i - 4;
      tempBuffer := "";
      while i < |varName|
        invariant from + 4 <= i <= |varName| && tempBuffer == tail[from..i - 4]
      {
        tempBuffer := tempBuffer + [varName[i]];
        i := i + 1;
      }
      assert tempBuffer == tail[from..];
    }
    pos2 := Atoi(tempBuffer);
  }

  lemma {:induction false} PositionsOfName(v: Located)
    ensures Positions(VarName(v)) == (v.a, match v.b case None => 0 case Some(b) => b)
  {
    var name := VarName(v);
    assert name[4..] == Numbers(v, '_');
    AtoiOfDecimal(v.a);
    match v.b {
      case None =>
        assert name[4..] == Decimal(v.a);
        assert IndexOf(Decimal(v.a), '_') == |Decimal(v.a)|;
      case Some(b) =>
        assert name[4..] == Decimal(v.a) + ['_'] + Decimal(b);
        IndexOfJoined(Decimal(v.a), '_', Decimal(b));
        assert name[4..][..|Decimal(v.a)|] == Decimal(v.a) && name[4..][|Decimal(v.a)| + 1..] == Decimal(b);
        AtoiOfDecimal(b);
    }
  }

  /** Where nothing follows the underscore, the first number is taken twice. */
  lemma PositionsCutShort(front: string, a: nat)
    requires |front| == 4
    ensures Positions(front + (Decimal(a) + "_")) == (a, a)
  {
    hide Decimal, Atoi, IndexOf;
    var name := front + (Decimal(a) + "_");
    AtoiOfDecimal(a);
    assert name[4..] == Decimal(a) + (['_'] + "");
    IndexOfFirst(Decimal(a), '_', "");
  }

  /** What a generated assignment binds */
  datatype Slot =
    | BoolInput(i: int, j: int) | BoolOutput(i: int, j: int)
    | ByteInput(i: int) | ByteOutput(i: int)
    | IntInput(i: int) | IntOutput(i: int) | IntMemory(i: int)
    | DintInput(i: int) | DintOutput(i: int) | DintMemory(i: int)
    | LintInput(i: int) | LintMemory(i: int) | SpecialFunction(i: int)

  /** The assignment that glueVar writes for a variable, if any; %QL goes to the input table. */
  function Glued(varName: string): Option<Slot>
    requires |varName| > 4
  {
    var (i, j) := Positions(varName);
    if varName[2] == 'I' then
      match varName[3]
      case 'X' => Some(BoolInput(i, j))
      case 'B' => Some(ByteInput(i))
      case 'W' => Some(IntInput(i))
      case 'D' => Some(DintInput(i))
      case 'L' => Some(LintInput(i))
      case _ => None
    else if varName[2] == 'Q' then
      match varName[3]
      case 'X' => Some(BoolOutput(i, j))
      case 'B' => Some(ByteOutput(i))
      case 'W' => Some(IntOutput(i))
      case 'D' => Some(DintOutput(i))
      case 'L' => Some(LintInput(i))
      case _ => None
    else if varName[2] == 'M' then
      match varName[3]
      case 'W' => Some(IntMemory(i))
      case 'D' => Some(DintMemory(i))
      case 'L' => Some(if i > 1023 then SpecialFunction(i - 1024) else LintMemory(i))
      case _ => None
    else None
  }

  /** strncpy() into the line buffer: cut after 1024 characters, filled up with NULs */
  function Padded(line: string): (buffer: string)
    ensures |buffer| == MAX_LINE_INPUT
  {
    var t := CString(line);
    if |t| >= MAX_LINE_INPUT then t[..MAX_LINE_INPUT] else t + seq(MAX_LINE_INPUT - |t|, _ => '\0')
  }

  /** The text up to a comma or the end of the buffer, and where it stops; without a text, what was there
      before. None for a text that does not fit: from its hundredth character on the original writes behind
      the text's own buffer, and does not end. */
  function TextAt(buffer: string, from: nat, was: string): Option<(string, nat)> {
    if from >= |buffer| then Some((was, from))
    else
      var n := IndexOf(buffer[from..], ',');
      if n >= MAX_LOCAL_BUFFER then None
      else Some((if n == 0 then was else CString(buffer[from..from + n]), from + n))
  }

  /** Name and type on a line: the texts behind the parenthesis and behind the first comma after it */
  function Declared(line: string, oldName: string, oldType: string): Option<(string, string)> {
    var buffer := Padded(line);
    match TextAt(buffer, IndexOf(buffer, '(') + 1, oldType)
    case None => None
    case Some(first) =>
      match TextAt(buffer, first.1 + 1, oldName)
      case None => None
      case Some(second) => Some((second.0, first.0))
  }

  method TakeText(buffer: string, from: nat, was: string) returns (inside: bool, text: string, next: nat)
    ensures TextAt(buffer, from, was) == if inside then Some((text, next)) else None
  {
    hide IndexOf, CString;
    inside, text, next := true, was, from;
    if from >= |buffer| {
      return;
    }
    ghost var tail := buffer[from..];
    var token := "";
    while next < |buffer| && buffer[next] != ','
      invariant from <= next <= |buffer| && token == tail[..next - from] && |token| < MAX_LOCAL_BUFFER
      invariant forall k :: 0 <= k < next - from ==> tail[k] != ','
    {
      if |token| + 1 == MAX_LOCAL_BUFFER {
        inside := false;
        NotBefore(tail, ',', next - from);
        return;
      }
      token := token + [buffer[next]];
      next := next + 1;
    }
    IndexIs(tail, ',', next - from);
    assert token == buffer[from..next];
    text := if next == from then was else CString(token);
  }

  method ParseIecVars(line: string, oldName: string, oldType: string)
    returns (inside: bool, varName: string, varType: string)
    ensures Declared(line, oldName, oldType) == if inside then Some((varName, varType)) else None
  {
    hide IndexOf, TextAt, Padded;
    varName := oldName;
    var buffer := Padded(line);
    var i := 0;
    while i < |buffer| && buffer[i] != '('
      invariant 0 <= i <= |buffer| && forall k :: 0 <= k < i ==> buffer[k] != '('
    {
      i := i + 1;
    }
    IndexIs(buffer, '(', i);
    inside, varType, i := TakeText(buffer, i + 1, oldType);
    if inside {
      inside, varName, i := TakeText(buffer, i + 1, oldName);
    }
  }

  lemma NoCommaInName(v: Located)
    requires WellNamed(v)
    ensures |VarName(v)| > 4 && ',' !in VarName(v) && '\0' !in VarName(v)
  {
    assert Decimal(v.a) == Decimal(v.a) + "";
  }

  /** The compiler's line for a variable gives the variable's name and type, however long the line is. */
  lemma DeclarationGivesName(v: Located, varType: string, more: string, oldName: string, oldType: string)
    requires WellNamed(v) && 0 < |varType| && '\0' !in varType && ',' !in varType
    requires |varType| < 100 && |VarName(v)| < 100
    ensures var line := "__LOCATED_VAR" + ("(" + (varType + ("," + (VarName(v) + ("," + more)))));
      Declared(line, oldName, oldType) == Some((VarName(v), varType))
  {
    hide VarName, IndexOf, Declared;
    NoCommaInName(v);
    TextsOfLine("__LOCATED_VAR", varType, VarName(v), more, oldName, oldType);
  }

  lemma TextsOfLine(start: string, first: string, second: string, more: string, oldName: string, oldType: string)
    requires 0 < |first| < MAX_LOCAL_BUFFER && 0 < |second| < MAX_LOCAL_BUFFER && |start| < 100
    requires '(' !in start && ',' !in first && ',' !in second && '\0' !in start + first + second
    ensures var line := start + ("(" + (first + ("," + (second + ("," + more)))));
      Declared(line, oldName, oldType) == Some((second, first))
  {
    hide IndexOf, CString, Padded, TextAt;
    var line := start + ("(" + (first + ("," + (second + ("," + more)))));
    var front := start + "(" + first + "," + second + ",";
    assert line == front + more;
    var buffer := Padded(line);
    PaddedKeeps(front, more);
    CharacterBehind(buffer, front, "", '(', start, first + "," + second + ",");
    assert buffer[0..] == buffer;
    TextBehind(buffer, front, start + "(", first, second + ",", oldType);
    TextBehind(buffer, front, start + "(" + first + ",", second, "", oldName);
  }

  lemma TextBehind(buffer: string, front: string, before: string, text: string, rest: string, was: string)
    requires front <= buffer && front == before + text + "," + rest && ',' !in text && '\0' !in text
    requires 0 < |text| < MAX_LOCAL_BUFFER
    ensures TextAt(buffer, |before|, was) == Some((text, |before| + |text|))
  {
    hide IndexOf, CString;
    CharacterBehind(buffer, front, before, ',', text, rest);
    CStringIs(text, text);
  }

  /** A name or a type of a hundred characters or more does not fit its buffer. */
  lemma LongTextNotTaken(line: string, oldName: string, oldType: string)
    requires |line| >= 1024 && '\0' !in line && line[0] == '(' && forall k :: 1 <= k <= 100 ==> line[k] != ','
    ensures Declared(line, oldName, oldType) == None
  {
    hide CString, IndexOf;
    CStringIs(line, line);
    var buffer := Padded(line);
    assert buffer == line[..1024];
    IndexIs(buffer, '(', 0);
    NotBefore(buffer[1..], ',', 99);
  }

  /** Which table each kind of variable is bound in, and where: outputs of 64 bits among the inputs, and long memory
      words from 1024 on among the special functions. */
  lemma GluedByParts(v: Located)
    requires WellNamed(v)
    ensures var j := match v.b case None => 0 case Some(b) => b;
      Glued(VarName(v)) ==
      if v.area == 'I' then
        (if v.width == 'X' then Some(BoolInput(v.a, j)) else if v.width == 'B' then Some(ByteInput(v.a))
         else if v.width == 'W' then Some(IntInput(v.a)) else if v.width == 'D' then Some(DintInput(v.a))
         else if v.width == 'L' then Some(LintInput(v.a)) else None)
      else if v.area == 'Q' then
        (if v.width == 'X' then Some(BoolOutput(v.a, j)) else if v.width == 'B' then Some(ByteOutput(v.a))
         else if v.width == 'W' then Some(IntOutput(v.a)) else if v.width == 'D' then Some(DintOutput(v.a))
         else if v.width == 'L' then Some(LintInput(v.a)) else None)
      else if v.area == 'M' then
        (if v.width == 'W' then Some(IntMemory(v.a)) else if v.width == 'D' then Some(DintMemory(v.a))
         else if v.width != 'L' then None
         else if v.a >= 1024 then Some(SpecialFunction(v.a - 1024)) else Some(LintMemory(v.a)))
      else None
  {
    hide Positions, Decimal;
    PositionsOfName(v);
    assert VarName(v)[2] == v.area && VarName(v)[3] == v.width;
  }

  lemma PaddedKeeps(front: string, more: string)
    requires |front| <= MAX_LINE_INPUT && '\0' !in front
    ensures front <= Padded(front + more)
  {
    hide CString;
    var line, t := front + more, CString(front + more);
    forall k | 0 <= k < |front|
      ensures line[k] != '\0'
    {
      assert line[k] == front[k];
    }
    assert t[..|front|] == line[..|front|] == front;
  }

  /** A text and the character that ends it, in the front of a buffer */
  lemma CharacterBehind(buffer: string, front: string, before: string, c: char, text: string, rest: string)
    requires front <= buffer && front == before + text + [c] + rest && c !in text
    ensures IndexOf(buffer[|before|..], c) == |text| < |buffer| - |before|
    ensures buffer[|before|..|before| + |text|] == text
  {
    hide IndexOf;
    var tail := buffer[|before|..];
    forall k | 0 <= k < |text|
      ensures tail[k] == text[k]
    {
      assert tail[k] == buffer[|before| + k] == front[|before| + k];
    }
    assert tail[|text|] == front[|before| + |text|] == c;
    IndexIs(tail, c, |text|);
  }
}
