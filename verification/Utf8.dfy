/**
 Texts as the bytes of a file: Python writes characters in UTF-8, and C reads bytes. A byte is a
 character below 256 here, so that both sides are strings.
 */
module Utf8 {

  predicate IsAscii(s: string) {
    forall k :: 0 <= k < |s| ==> s[k] < '\U{80}'
  }

  /** The lowest six bits, as a byte that continues a sequence */
  function Continued(n: nat): (c: char)
    ensures 0x80 <= c as int < 0xC0 && c as int % 64 == n % 64
  {
    (0x80 + n % 64) as char
  }

  function Encoding(c: char): (bytes: string)
    ensures 1 <= |bytes| <= 4 && forall k :: 0 <= k < |bytes| ==> bytes[k] as int < 0x100
    ensures c < '\U{80}' ==> bytes == [c]
    ensures c >= '\U{80}' ==> forall k :: 0 <= k < |bytes| ==> bytes[k] as int >= 0x80
  {
    var n := c as int;
    var m := n / 64;
    if n < 0x80 then [c]
    else if n < 0x800 then [(0xC0 + m) as char, Continued(n)]
    else if n < 0x10000 then [(0xE0 + m / 64) as char, Continued(m), Continued(n)]
    else [(0xF0 + m / 64 / 64) as char, Continued(m / 64), Continued(m), Continued(n)]
  }

  function Encoded(text: string): string {
    if |text| == 0 then "" else Encoding(text[0]) + Encoded(text[1..])
  }

  lemma {:induction false} EncodedJoined(a: string, b: string)
    ensures Encoded(a + b) == Encoded(a) + Encoded(b)
    decreases |a|
  {
    hide Encoding;
    if |a| == 0 {
      assert a + b == b;
    } else {
      assert (a + b)[0] == a[0] && (a + b)[1..] == a[1..] + b;
      EncodedJoined(a[1..], b);
    }
  }

  lemma {:induction false} EncodedAscii(s: string)
    requires IsAscii(s)
    ensures Encoded(s) == s
    decreases |s|
  {
    if |s| > 0 {
      EncodedAscii(s[1..]);
      assert s == [s[0]] + s[1..];
    }
  }

  /** An ASCII character stands in the bytes exactly when it stands in the text. */
  lemma {:induction false} EncodedHas(s: string, c: char)
    requires c < '\U{80}'
    ensures c in Encoded(s) <==> c in s
    decreases |s|
  {
    if |s| > 0 {
      EncodedHas(s[1..], c);
      assert s == [s[0]] + s[1..];
    }
  }

  // --------------------------------------------------------------------------
  // Reading the bytes back
  // --------------------------------------------------------------------------

  /** How many bytes a sequence has, by its first one */
  function Length(lead: char): nat {
    if lead < '\U{80}' then 1 else if lead as int < 0xE0 then 2 else if lead as int < 0xF0 then 3 else 4
  }

  /** A number, and six bits more */
  function More(n: int, c: char): int {
    64 * n + c as int % 64
  }

  lemma MoreRestores(n: nat)
    ensures More(n / 64, Continued(n)) == n
  {
  }

  /** The number of the character that a sequence stands for */
  function Decoding(bytes: string): int
    requires |bytes| > 0 && |bytes| == Length(bytes[0])
  {
    var lead := bytes[0] as int;
    match |bytes|
    case 1 => lead
    case 2 => More(lead - 0xC0, bytes[1])
    case 3 => More(More(lead - 0xE0, bytes[1]), bytes[2])
    case _ => More(More(More(lead - 0xF0, bytes[1]), bytes[2]), bytes[3])
  }

  lemma EncodingReads(c: char)
    ensures |Encoding(c)| == Length(Encoding(c)[0]) && Decoding(Encoding(c)) == c as int
  {
    hide More, Continued;
    var n := c as int;
    MoreRestores(n);
    MoreRestores(n / 64);
    MoreRestores(n / 64 / 64);
  }

  /** Two texts with the same bytes are the same: nothing is lost by encoding. */
  lemma {:induction false} EncodedInjective(a: string, b: string)
    requires Encoded(a) == Encoded(b)
    ensures a == b
    decreases |a|
  {
    hide Encoding, Decoding;
    if |a| > 0 && |b| > 0 {
      EncodingReads(a[0]);
      EncodingReads(b[0]);
      var n := |Encoding(a[0])|;
      assert Encoded(a)[0] == Encoding(a[0])[0] && Encoded(b)[0] == Encoding(b[0])[0];
      assert Encoded(a)[..n] == Encoding(a[0]) && Encoded(b)[..n] == Encoding(b[0]);
      assert Encoded(a)[n..] == Encoded(a[1..]) && Encoded(b)[n..] == Encoded(b[1..]);
      EncodedInjective(a[1..], b[1..]);
      assert a == [a[0]] + a[1..] && b == [b[0]] + b[1..];
    }
  }

  /** Characters of two, three and four bytes, as their code charts have them */
  lemma KnownBytes()
    ensures Encoding('\U{00E9}') == [0xC3 as char, 0xA9 as char]
    ensures Encoding('\U{20AC}') == [0xE2 as char, 0x82 as char, 0xAC as char]
    ensures Encoding('\U{1F600}') == [0xF0 as char, 0x9F as char, 0x98 as char, 0x80 as char]
  {
  }
}
