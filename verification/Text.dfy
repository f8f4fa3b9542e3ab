/**
 Strings as the C and Python sources take them apart: decimal numbers, searching and splitting.
 */
module Text {
  import opened Options

  predicate IsDigit(c: char) {
    '0' <= c <= '9'
  }

  predicate AllDigits(s: string) {
    forall k :: 0 <= k < |s| ==> IsDigit(s[k])
  }

  function DigitChar(d: nat): (c: char)
    requires d < 10
    ensures IsDigit(c) && DigitValue(c) == d
  {
    '0' + d as char
  }

  function DigitValue(c: char): (d: nat)
    requires IsDigit(c)
    ensures d < 10
  {
    c as nat - '0' as nat
  }

  /** A number in decimal notation */
  function Decimal(n: nat): (s: string)
    ensures |s| > 0 && AllDigits(s)
  {
    if n < 10 then [DigitChar(n)] else Decimal(n / 10) + [DigitChar(n % 10)]
  }

  function NumberIn(s: string): nat
    requires AllDigits(s)
  {
    if |s| == 0 then 0 else NumberIn(s[..|s| - 1]) * 10 + DigitValue(s[|s| - 1])
  }

  lemma {:induction false} NumberOfDecimal(n: nat)
    ensures NumberIn(Decimal(n)) == n
    decreases n
  {
    if n >= 10 {
      NumberOfDecimal(n / 10);
      assert Decimal(n)[..|Decimal(n)| - 1] == Decimal(n / 10);
    } else {
      assert Decimal(n)[..0] == [];
    }
  }

  /** How many digits a string starts with */
  function DigitRun(s: string): (n: nat)
    ensures n <= |s| && AllDigits(s[..n]) && (n < |s| ==> !IsDigit(s[n]))
  {
    if |s| == 0 || !IsDigit(s[0]) then 0
    else
      var n := 1 + DigitRun(s[1..]);
      assert forall k :: 1 <= k < n ==> s[k] == s[1..][..n - 1][k - 1];
      n
  }

  /** atoi(): white space, a sign, and the digits behind it; 0 without digits */
  function Atoi(s: string): int
    decreases |s|
  {
    if |s| == 0 then 0
    else if s[0] == ' ' || '\t' <= s[0] <= '\r' then Atoi(s[1..])
    else if s[0] == '-' then
      var magnitude: int := NumberIn(s[1..][..DigitRun(s[1..])]);
      -magnitude
    else if s[0] == '+' then NumberIn(s[1..][..DigitRun(s[1..])])
    else NumberIn(s[..DigitRun(s)])
  }

  lemma AtoiOfDecimal(n: nat)
    ensures Atoi(Decimal(n)) == n
  {
    var s := Decimal(n);
    NumberOfDecimal(n);
    assert IsDigit(s[0]) && !(s[0] == ' ' || '\t' <= s[0] <= '\r' || s[0] == '-' || s[0] == '+');
    assert DigitRun(s) == |s| && s[..|s|] == s;
  }

  function SignedBy(sign: string, n: nat): int {
    if sign == "-" then 0 - n else n
  }

  predicate IsSpace(c: char) {
    c == ' ' || '\t' <= c <= '\r'
  }

  lemma {:induction false} DigitsBefore(digits: string, rest: string)
    requires AllDigits(digits) && (rest != "" ==> !IsDigit(rest[0]))
    ensures DigitRun(digits + rest) == |digits|
    decreases |digits|
  {
    if |digits| == 0 {
      assert digits + rest == rest;
    } else {
      assert (digits + rest)[1..] == digits[1..] + rest;
      DigitsBefore(digits[1..], rest);
    }
  }

  /** atoi() passes over white space, takes one sign, and stops at the first character that is not a digit. */
  lemma {:induction false} AtoiOfText(spaces: string, sign: string, n: nat, rest: string)
    requires forall k :: 0 <= k < |spaces| ==> IsSpace(spaces[k])
    requires sign in ["", "+", "-"] && (rest != "" ==> !IsDigit(rest[0]))
    ensures Atoi(spaces + (sign + (Decimal(n) + rest))) == SignedBy(sign, n)
    decreases |spaces|
  {
    hide Decimal, NumberIn, DigitRun;
    var digits := Decimal(n);
    var s := sign + (digits + rest);
    if |spaces| > 0 {
      assert (spaces + s)[0] == spaces[0] && (spaces + s)[1..] == spaces[1..] + s;
      AtoiOfText(spaces[1..], sign, n, rest);
    } else {
      assert spaces + s == s;
      NumberOfDecimal(n);
      DigitsBefore(digits, rest);
      assert (digits + rest)[..|digits|] == digits;
      if sign == "" {
        assert s == digits + rest && IsDigit(s[0]);
      } else {
        assert s[0] == sign[0] && s[1..] == digits + rest;
      }
    }
  }

  function Ten(k: nat): (p: nat)
    ensures p > 0
  {
    if k == 0 then 1 else 10 * Ten(k - 1)
  }

  /** How long a number is in decimal notation */
  lemma {:induction false} DecimalLength(n: nat, k: nat)
    requires k > 0
    ensures |Decimal(n)| <= k <==> n < Ten(k)
    decreases n
  {
    if n >= 10 {
      if k > 1 {
        DecimalLength(n / 10, k - 1);
      } else {
        assert Ten(1) == 10;
      }
    } else {
      TenGrows(1, k);
      assert Ten(1) == 10;
    }
  }

  lemma {:induction false} TenGrows(j: nat, k: nat)
    requires j <= k
    ensures Ten(j) <= Ten(k)
    decreases k
  {
    if j < k {
      TenGrows(j, k - 1);
    }
  }

  lemma {:induction false} NumberBound(s: string)
    requires AllDigits(s)
    ensures NumberIn(s) < Ten(|s|)
    decreases |s|
  {
    if |s| > 0 {
      NumberBound(s[..|s| - 1]);
    }
  }

  lemma {:induction false} AtoiBound(s: string)
    ensures Atoi(s) < Ten(|s|) && Atoi(s) + Ten(|s|) > 0
    decreases |s|
  {
    if |s| > 0 {
      if s[0] == ' ' || '\t' <= s[0] <= '\r' {
        AtoiBound(s[1..]);
        TenGrows(|s| - 1, |s|);
      } else {
        var t := if s[0] == '-' || s[0] == '+' then s[1..] else s;
        NumberBound(t[..DigitRun(t)]);
        TenGrows(DigitRun(t), |s|);
      }
    }
  }

  /** What int() strips from both ends */
  predicate IsBlank(c: char) {
    var n := c as int;
    || 0x09 <= n <= 0x0D || 0x1C <= n <= 0x20 || n == 0x85 || n == 0xA0 || n == 0x1680
    || 0x2000 <= n <= 0x200A || n == 0x2028 || n == 0x2029 || n == 0x202F || n == 0x205F || n == 0x3000
  }

  function Stripped(s: string): string
    decreases |s|
  {
    if |s| == 0 then ""
    else if IsBlank(s[0]) then Stripped(s[1..])
    else if IsBlank(s[|s| - 1]) then Stripped(s[..|s| - 1])
    else s
  }

  /** Digits, with single underscores between them */
  predicate IsGrouped(s: string) {
    && |s| > 0 && IsDigit(s[0]) && IsDigit(s[|s| - 1])
    && (forall k :: 0 <= k < |s| ==> IsDigit(s[k]) || s[k] == '_')
    && forall k :: 0 <= k < |s| - 1 && s[k] == '_' ==> s[k + 1] != '_'
  }

  function Ungrouped(s: string): (t: string)
    requires forall k :: 0 <= k < |s| ==> IsDigit(s[k]) || s[k] == '_'
    ensures AllDigits(t)
  {
    if |s| == 0 then "" else (if s[0] == '_' then "" else [s[0]]) + Ungrouped(s[1..])
  }

  /** int() of a text: white space, a sign and digits; None for an exception */
  function ParseInt(s: string): Option<int> {
    var t := Stripped(s);
    var digits := if |t| > 0 && (t[0] == '-' || t[0] == '+') then t[1..] else t;
    if !IsGrouped(digits) then None
    else
      var n: int := NumberIn(Ungrouped(digits));
      Some(if t[0] == '-' then -n else n)
  }

  lemma {:induction false} UngroupedDigits(s: string)
    requires AllDigits(s)
    ensures Ungrouped(s) == s
    decreases |s|
  {
    if |s| > 0 {
      UngroupedDigits(s[1..]);
      assert s == [s[0]] + s[1..];
    }
  }

  lemma ParseIntOfDecimal(n: nat)
    ensures ParseInt(Decimal(n)) == Some(n)
  {
    hide Decimal, NumberIn, Stripped, Ungrouped;
    var s := Decimal(n);
    NumberOfDecimal(n);
    UngroupedDigits(s);
    NothingStripped(s);
  }

  /** int() takes a sign, and white space around the number; nothing else may stand there. */
  lemma ParseIntOfText(before: string, sign: string, n: nat, after: string)
    requires forall k :: 0 <= k < |before| ==> IsBlank(before[k])
    requires forall k :: 0 <= k < |after| ==> IsBlank(after[k])
    requires sign in ["", "+", "-"]
    ensures ParseInt(before + (sign + Decimal(n)) + after) == Some(SignedBy(sign, n))
  {
    hide Decimal, NumberIn, Stripped, Ungrouped;
    var s, digits := sign + Decimal(n), Decimal(n);
    assert !IsBlank(s[0]) && !IsBlank(s[|s| - 1]);
    StrippedAround(before, s, after);
    UngroupedDigits(digits);
    NumberOfDecimal(n);
    if sign != "" {
      assert s[1..] == digits;
    } else {
      assert s == digits;
    }
  }

  lemma {:induction false} StrippedAround(before: string, s: string, after: string)
    requires forall k :: 0 <= k < |before| ==> IsBlank(before[k])
    requires forall k :: 0 <= k < |after| ==> IsBlank(after[k])
    requires |s| > 0 && !IsBlank(s[0]) && !IsBlank(s[|s| - 1])
    ensures Stripped(before + s + after) == s
    decreases |before| + |after|
  {
    hide IsBlank;
    var whole := before + s + after;
    if |before| > 0 {
      assert whole[0] == before[0] && whole[1..] == before[1..] + s + after;
      StrippedAround(before[1..], s, after);
    } else {
      assert whole == s + after && whole[0] == s[0];
      if |after| > 0 {
        assert whole[|whole| - 1] == after[|after| - 1];
        assert whole[..|whole| - 1] == before + s + after[..|after| - 1];
        StrippedAround(before, s, after[..|after| - 1]);
      } else {
        assert whole == s;
      }
    }
  }

  lemma NothingStripped(s: string)
    requires |s| > 0 && IsDigit(s[0]) && IsDigit(s[|s| - 1])
    ensures Stripped(s) == s
  {
  }

  /** A text that begins and ends with a digit is not stripped, and has no number if a point is in it. */
  lemma NoIntWithPoint(s: string, k: nat)
    requires k < |s| && s[k] == '.' && IsDigit(s[0]) && IsDigit(s[|s| - 1])
    ensures ParseInt(s) == None
  {
    hide Stripped, NumberIn, Ungrouped;
    NothingStripped(s);
  }

  /** str() of an integer */
  function Printed(n: int): string {
    if n < 0 then "-" + Decimal(-n) else Decimal(n)
  }

  /** First position of a character, or the length */
  function IndexOf(s: string, c: char): (i: nat)
    ensures i <= |s| && (i < |s| ==> s[i] == c)
    ensures forall k :: 0 <= k < i ==> s[k] != c
  {
    if |s| == 0 || s[0] == c then 0 else 1 + IndexOf(s[1..], c)
  }

  lemma IndexIs(s: string, c: char, i: nat)
    requires i <= |s| && (i < |s| ==> s[i] == c) && forall k :: 0 <= k < i ==> s[k] != c
    ensures IndexOf(s, c) == i
  {
  }

  lemma NotBefore(s: string, c: char, i: nat)
    requires i < |s| && s[i] != c && forall k :: 0 <= k < i ==> s[k] != c
    ensures IndexOf(s, c) > i
  {
  }

  lemma IndexOfJoined(a: string, c: char, b: string)
    requires forall k :: 0 <= k < |a| ==> a[k] != c
    ensures IndexOf(a + [c] + b, c) == |a|
    ensures IndexOf(a, c) == |a|
  {
    var s := a + [c] + b;
    assert s[|a|] == c;
    assert forall k :: 0 <= k < |a| ==> s[k] == a[k];
  }

  lemma IndexOfFirst(a: string, c: char, b: string)
    requires forall k :: 0 <= k < |a| ==> a[k] != c
    ensures var s := a + ([c] + b);
      IndexOf(s, c) == |a| < |s| && s[..|a|] == a && s[|a| + 1..] == b
  {
    assert a + ([c] + b) == a + [c] + b;
    IndexOfJoined(a, c, b);
  }

  /** A C string ends at its first NUL. */
  function CString(s: string): (t: string)
    ensures t <= s && '\0' !in t && (t == s || s[|t|] == '\0')
  {
    s[..IndexOf(s, '\0')]
  }

  lemma CStringIs(s: string, t: string)
    requires t <= s && '\0' !in t && (t == s || s[|t|] == '\0')
    ensures CString(s) == t
  {
    hide IndexOf;
    IndexIs(s, '\0', |t|);
  }

  predicate MatchesAt(s: string, k: nat, p: string) {
    k + |p| <= |s| && s[k..k + |p|] == p
  }

  lemma MatchesTail(s: string, k: nat, p: string)
    requires |s| > 0 && k > 0
    ensures MatchesAt(s, k, p) <==> MatchesAt(s[1..], k - 1, p)
  {
    if k + |p| <= |s| {
      assert s[k..k + |p|] == s[1..][k - 1..k - 1 + |p|];
    }
  }

  /** find(): first position of a substring, or -1 */
  function Find(s: string, p: string): (r: int)
    ensures -1 <= r && (r >= 0 ==> MatchesAt(s, r, p))
    ensures forall k: nat :: (r < 0 || k < r) ==> !MatchesAt(s, k, p)
    decreases |s|
  {
    if MatchesAt(s, 0, p) then 0
    else if |s| == 0 then -1
    else
      var r := Find(s[1..], p);
      assert forall k: nat | k > 0 :: MatchesAt(s, k, p) <==> MatchesAt(s[1..], k - 1, p) by {
        forall k: nat | k > 0
          ensures MatchesAt(s, k, p) <==> MatchesAt(s[1..], k - 1, p)
        {
          MatchesTail(s, k, p);
        }
      }
      if r < 0 then -1 else r + 1
  }

  /** split(p)[1]: the text between the first occurrence and the next one; None without an occurrence */
  function SecondPart(s: string, p: string): Option<string> {
    var i := Find(s, p);
    if i < 0 then None
    else
      var tail := s[i + |p|..];
      var j := Find(tail, p);
      Some(if j < 0 then tail else tail[..j])
  }
}
