/** String helpers the rest of the model shares: JavaScript's `trim` and `\s`,
    ASCII case folding, `join`, `split` on one character, decimal digits,
    `parseInt` and `padEnd`. Strings are `seq<char>`. */
module Text {
  import opened Options

  /** The characters ECMAScript's `String.prototype.trim` removes and the regular
      expression class `\s` matches: WhiteSpace (tab, vertical tab, form feed,
      space, no-break space, byte-order mark and the other space separators) and
      LineTerminator (line feed, carriage return, U+2028, U+2029). */
  const Whitespace: set<char> := {
    '\t', '\n', '\U{B}', '\U{C}', '\r', ' ', '\U{A0}', '\U{1680}',
    '\U{2000}', '\U{2001}', '\U{2002}', '\U{2003}', '\U{2004}', '\U{2005}',
    '\U{2006}', '\U{2007}', '\U{2008}', '\U{2009}', '\U{200A}',
    '\U{2028}', '\U{2029}', '\U{202F}', '\U{205F}', '\U{3000}', '\U{FEFF}'
  }

  predicate IsWhitespace(c: char) {
    c in Whitespace
  }

  predicate AllWhitespace(s: string) {
    forall i :: 0 <= i < |s| ==> IsWhitespace(s[i])
  }

  /** No white space at either end. */
  predicate IsTrimmed(s: string) {
    s == [] || (!IsWhitespace(s[0]) && !IsWhitespace(s[|s| - 1]))
  }

  function TrimStart(s: string): (r: string)
    ensures |r| <= |s|
    ensures r == [] || !IsWhitespace(r[0])
  {
    if |s| > 0 && IsWhitespace(s[0]) then TrimStart(s[1..]) else s
  }

  function TrimEnd(s: string): (r: string)
    ensures |r| <= |s|
    ensures r == [] || (r[0] == s[0] && !IsWhitespace(r[|r| - 1]))
  {
    if |s| > 0 && IsWhitespace(s[|s| - 1]) then TrimEnd(s[..|s| - 1]) else s
  }

  /** `s.trim()`. */
  function Trim(s: string): (r: string)
    ensures IsTrimmed(r) && |r| <= |s|
  {
    TrimEnd(TrimStart(s))
  }

  lemma {:induction false} TrimStartIsSuffix(s: string)
    ensures TrimStart(s) == s[|s| - |TrimStart(s)|..]
    ensures AllWhitespace(s[..|s| - |TrimStart(s)|])
  {
    if |s| > 0 && IsWhitespace(s[0]) {
      TrimStartIsSuffix(s[1..]);
      var k := |s| - |TrimStart(s)|;
      assert s[..k] == [s[0]] + s[1..][..k - 1];
    }
  }

  lemma {:induction false} TrimEndIsPrefix(s: string)
    ensures TrimEnd(s) == s[..|TrimEnd(s)|]
    ensures AllWhitespace(s[|TrimEnd(s)|..])
  {
    if |s| > 0 && IsWhitespace(s[|s| - 1]) {
      var r := TrimEnd(s[..|s| - 1]);
      TrimEndIsPrefix(s[..|s| - 1]);
      assert s[|r|..] == s[..|s| - 1][|r|..] + [s[|s| - 1]];
    }
  }

  /** `trim` removes white space from the two ends and nothing else. */
  lemma TrimRemovesOnlyOuterWhitespace(s: string)
    ensures exists i, j :: 0 <= i <= j <= |s| && Trim(s) == s[i..j]
                           && AllWhitespace(s[..i]) && AllWhitespace(s[j..])
  {
    var a := TrimStart(s);
    var r := TrimEnd(a);
    TrimStartIsSuffix(s);
    TrimEndIsPrefix(a);
    var i, j := |s| - |a|, |s| - |a| + |r|;
    assert r == s[i..j];
    assert s[j..] == a[|r|..];
  }

  lemma TrimmedTrimIsIdentity(s: string)
    requires IsTrimmed(s)
    ensures Trim(s) == s
  {
  }

  lemma {:induction false} TrimEmptyIffAllWhitespace(s: string)
    ensures Trim(s) == "" <==> AllWhitespace(s)
  {
    if |s| > 0 && IsWhitespace(s[0]) {
      TrimEmptyIffAllWhitespace(s[1..]);
      assert Trim(s) == Trim(s[1..]);
      if AllWhitespace(s[1..]) {
        assert AllWhitespace(s) by {
          forall i | 0 <= i < |s| ensures IsWhitespace(s[i]) {
            if i > 0 { assert s[i] == s[1..][i - 1]; }
          }
        }
      }
    } else if |s| > 0 {
      assert !AllWhitespace(s);
      assert TrimStart(s) == s;
      TrimEndIsPrefix(s);
    }
  }

  /** `toLowerCase` on the ASCII letters. */
  function LowerChar(c: char): char {
    if 'A' <= c <= 'Z' then (c as int + 32) as char else c
  }

  function Lower(s: string): (r: string)
    ensures |r| == |s|
    ensures forall i :: 0 <= i < |s| ==> r[i] == LowerChar(s[i])
  {
    if s == [] then [] else [LowerChar(s[0])] + Lower(s[1..])
  }

  lemma LowerIdempotent(s: string)
    ensures Lower(Lower(s)) == Lower(s)
  {
    assert forall i :: 0 <= i < |s| ==> LowerChar(LowerChar(s[i])) == LowerChar(s[i]);
  }

  /** `parts.join(sep)`. */
  function Join(parts: seq<string>, sep: string): string {
    if |parts| == 0 then ""
    else if |parts| == 1 then parts[0]
    else parts[0] + sep + Join(parts[1..], sep)
  }

  /** `s.startsWith(prefix)`. */
  predicate StartsWith(s: string, prefix: string) {
    |prefix| <= |s| && s[..|prefix|] == prefix
  }

  /** How many UTF-16 code units encode a character: two above the Basic Multilingual Plane. */
  function CodeUnits(c: char): nat {
    if c as int > 0xFFFF then 2 else 1
  }

  /** JavaScript's `length`, which counts UTF-16 code units, not characters. */
  function Length(s: string): (n: nat)
    ensures |s| <= n <= 2 * |s|
  {
    if |s| == 0 then 0 else Length(s[..|s| - 1]) + CodeUnits(s[|s| - 1])
  }

  /** Appending a character adds its code units. */
  lemma LengthSnoc(s: string, c: char)
    ensures Length(s + [c]) == Length(s) + CodeUnits(c)
  {
    assert (s + [c])[..|s|] == s;
  }

  /** Lengths add up over concatenation. */
  lemma {:induction false} LengthAppend(a: string, b: string)
    ensures Length(a + b) == Length(a) + Length(b)
    decreases |b|
  {
    if |b| > 0 {
      assert (a + b)[..|a + b| - 1] == a + b[..|b| - 1];
      LengthAppend(a, b[..|b| - 1]);
    } else {
      assert a + b == a;
    }
  }

  /** Text inside the Basic Multilingual Plane has as many code units as characters. */
  lemma {:induction false} BmpLength(s: string)
    requires forall i :: 0 <= i < |s| ==> s[i] as int <= 0xFFFF
    ensures Length(s) == |s|
  {
    if |s| > 0 {
      BmpLength(s[..|s| - 1]);
    }
  }

  /** A character outside the Basic Multilingual Plane is two code units long. */
  lemma AstralCharIsTwoUnits()
    ensures Length(['\U{1F319}']) == 2
  {
  }

  /** `s.padEnd(width)`: append spaces until `s` is `width` code units long. */
  function PadEnd(s: string, width: nat): (r: string)
    ensures Length(r) == if Length(s) >= width then Length(s) else width
    ensures |s| <= |r| && r[..|s|] == s
    ensures forall i :: |s| <= i < |r| ==> r[i] == ' '
    decreases width - Length(s)
  {
    if Length(s) >= width then s
    else
      var t := s + " ";
      LengthSnoc(s, ' ');
      var r := PadEnd(t, width);
      assert r[..|s|] == r[..|t|][..|s|];
      r
  }

  predicate IsDigit(c: char) {
    '0' <= c <= '9'
  }

  predicate AllDigits(s: string) {
    forall i :: 0 <= i < |s| ==> IsDigit(s[i])
  }

  function DigitChar(d: nat): (c: char)
    requires d < 10
    ensures IsDigit(c)
  {
    ('0' as int + d) as char
  }

  function DigitValue(c: char): (d: nat)
    requires IsDigit(c)
    ensures d < 10
  {
    c as int - '0' as int
  }

  /** The decimal text of `n`, as template literals print a non-negative integer. */
  function NatToString(n: nat): (r: string)
    ensures |r| >= 1 && AllDigits(r)
  {
    if n < 10 then [DigitChar(n)] else NatToString(n / 10) + [DigitChar(n % 10)]
  }

  /** `Number(s)` for a string of decimal digits; `Number("")` is 0. */
  function ParseDigits(s: string): nat
    requires AllDigits(s)
  {
    if |s| == 0 then 0 else ParseDigits(s[..|s| - 1]) * 10 + DigitValue(s[|s| - 1])
  }

  lemma {:induction false} ParseNatToString(n: nat)
    ensures ParseDigits(NatToString(n)) == n
  {
    if n >= 10 {
      var s := NatToString(n);
      assert s[..|s| - 1] == NatToString(n / 10);
      ParseNatToString(n / 10);
    }
  }

  lemma NatToStringInjective(m: nat, n: nat)
    requires NatToString(m) == NatToString(n)
    ensures m == n
  {
    ParseNatToString(m);
    ParseNatToString(n);
  }

  /** `s.split(sep)` for a one-character separator. */
  function Split(s: string, sep: char): (r: seq<string>)
    ensures |r| >= 1
  {
    if |s| == 0 then [""]
    else if s[0] == sep then [""] + Split(s[1..], sep)
    else var rest := Split(s[1..], sep); [[s[0]] + rest[0]] + rest[1..]
  }

  lemma {:induction false} SplitNoSeparator(a: string, sep: char)
    requires sep !in a
    ensures Split(a, sep) == [a]
  {
    if |a| > 0 {
      SplitNoSeparator(a[1..], sep);
      assert [a[0]] + a[1..] == a;
    }
  }

  lemma {:induction false} SplitAtSeparator(a: string, sep: char, b: string)
    requires sep !in a
    ensures Split(a + [sep] + b, sep) == [a] + Split(b, sep)
  {
    if |a| == 0 {
      assert a + [sep] + b == [sep] + b;
      assert ([sep] + b)[1..] == b;
    } else {
      var s := a + [sep] + b;
      assert s[1..] == a[1..] + [sep] + b;
      SplitAtSeparator(a[1..], sep, b);
      assert [a[0]] + a[1..] == a;
    }
  }

  /** The longest prefix of decimal digits. */
  function LeadingDigits(s: string): (r: string)
    ensures AllDigits(r) && StartsWith(s, r)
    ensures |r| < |s| ==> !IsDigit(s[|r|])
  {
    if |s| > 0 && IsDigit(s[0]) then [s[0]] + LeadingDigits(s[1..]) else []
  }

  /** `parseInt(s, 10)`: leading white space is skipped, then the rest is read by `ParseSigned`. */
  function ParseInt(s: string): Option<int> {
    ParseSigned(TrimStart(s))
  }

  /** One optional sign, then as many decimal digits as follow; with no digit
      the result is NaN, here `None`. A negative zero is plain 0. */
  function ParseSigned(t: string): Option<int> {
    var negative := |t| > 0 && t[0] == '-';
    var body := if |t| > 0 && (t[0] == '-' || t[0] == '+') then t[1..] else t;
    var digits := LeadingDigits(body);
    if |digits| == 0 then None
    else Some(if negative then 0 - ParseDigits(digits) as int else ParseDigits(digits) as int)
  }

  lemma {:induction false} LeadingDigitsOfDigits(d: string, rest: string)
    requires AllDigits(d)
    requires rest == [] || !IsDigit(rest[0])
    ensures LeadingDigits(d + rest) == d
  {
    if |d| > 0 {
      assert (d + rest)[1..] == d[1..] + rest;
      LeadingDigitsOfDigits(d[1..], rest);
    } else {
      assert d + rest == rest;
    }
  }

  lemma {:induction false} TrimStartOfWhitespace(ws: string, s: string)
    requires AllWhitespace(ws)
    ensures TrimStart(ws + s) == TrimStart(s)
  {
    if |ws| > 0 {
      assert (ws + s)[1..] == ws[1..] + s;
      TrimStartOfWhitespace(ws[1..], s);
    } else {
      assert ws + s == s;
    }
  }

  /** `parseInt` skips leading white space. */
  lemma ParseIntSkipsWhitespace(ws: string, s: string)
    requires AllWhitespace(ws)
    ensures ParseInt(ws + s) == ParseInt(s)
  {
    TrimStartOfWhitespace(ws, s);
  }

  /** Text starting with a digit or a sign has nothing for `trimStart` to remove. */
  lemma TrimStartOfNumber(t: string, c: char)
    requires |t| > 0 && t[0] == c && (IsDigit(c) || c == '-')
    ensures TrimStart(t) == t
  {
    assert !IsWhitespace(c);
  }

  /** Unsigned digits are read up to the first non-digit. */
  lemma ParseIntReadsDigits(d: string, rest: string)
    requires AllDigits(d) && |d| > 0
    requires rest == [] || !IsDigit(rest[0])
    ensures ParseInt(d + rest) == Some(ParseDigits(d) as int)
  {
    var t := d + rest;
    TrimStartOfNumber(t, d[0]);
    LeadingDigitsOfDigits(d, rest);
  }

  /** A minus sign negates the digits that follow it. */
  lemma ParseIntReadsNegative(d: string, rest: string)
    requires AllDigits(d) && |d| > 0
    requires rest == [] || !IsDigit(rest[0])
    ensures ParseInt("-" + (d + rest)) == Some(0 - ParseDigits(d) as int)
  {
    var t := "-" + (d + rest);
    TrimStartOfNumber(t, '-');
    assert t[1..] == d + rest;
    LeadingDigitsOfDigits(d, rest);
    ParseSignedNegative(t, d);
  }

  lemma ParseSignedNegative(t: string, d: string)
    requires |t| > 0 && t[0] == '-' && LeadingDigits(t[1..]) == d && |d| > 0
    ensures ParseSigned(t) == Some(0 - ParseDigits(d) as int)
  {
  }

  /** `parseInt` reads back a number's decimal text, with an optional minus
      sign, past leading white space and up to the first non-digit. */
  lemma ParseIntReadsNumber(ws: string, negative: bool, n: nat, rest: string)
    requires AllWhitespace(ws)
    requires rest == [] || !IsDigit(rest[0])
    ensures ParseInt(ws + ((if negative then "-" else "") + (NatToString(n) + rest))) == Some(if negative then 0 - n as int else n as int)
  {
    var d := NatToString(n);
    ParseNatToString(n);
    var sign: string := if negative then "-" else "";
    ParseIntSkipsWhitespace(ws, sign + (d + rest));
    if negative {
      ParseIntReadsNegative(d, rest);
    } else {
      assert sign + (d + rest) == d + rest;
      ParseIntReadsDigits(d, rest);
    }
  }

  /** Text that holds no digit after its white space and sign is NaN. */
  lemma ParseIntWithoutDigits(s: string)
    requires forall i :: 0 <= i < |s| ==> !IsDigit(s[i])
    ensures ParseInt(s) == None
  {
    var t := TrimStart(s);
    TrimStartIsSuffix(s);
    var body := if |t| > 0 && (t[0] == '-' || t[0] == '+') then t[1..] else t;
    if |body| > 0 {
      assert body[0] in s;
    }
  }
}
