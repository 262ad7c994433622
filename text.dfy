/**
 * The pieces of the .NET string and integer library that the core uses:
 * white space, Trim, ordinal case-insensitive comparison, Replace, Join,
 * Split on one character, Contains, Int32.ToString and Int32.Parse.
 */
module Text {
  import opened Wrappers

  const Int32Min: int := -0x8000_0000
  const Int32Max: int := 0x7FFF_FFFF

  predicate IsInt32(n: int) { Int32Min <= n <= Int32Max }

  /** Unchecked 32-bit two's-complement arithmetic: the Int32 congruent to n
      modulo 2^32. */
  function WrapInt32(n: int): (r: int)
    ensures IsInt32(r)
    ensures IsInt32(n) ==> r == n
    ensures (n - r) % 0x1_0000_0000 == 0
  {
    (n - Int32Min) % 0x1_0000_0000 + Int32Min
  }

  // ---------------------------------------------------------------------
  // White space and trimming
  // ---------------------------------------------------------------------

  /** char.IsWhiteSpace: the Unicode space separators, line and paragraph
      separators, and the control characters U+0009-U+000D and U+0085. */
  predicate IsWhiteSpace(c: char) {
    ('\U{9}' <= c <= '\U{D}') || c == ' ' || c == '\U{85}' || c == '\U{A0}' || c == '\U{1680}'
    || ('\U{2000}' <= c <= '\U{200A}') || c == '\U{2028}' || c == '\U{2029}'
    || c == '\U{202F}' || c == '\U{205F}' || c == '\U{3000}'
  }

  /** The white space that Int32.Parse skips at either end (NumberStyles.Integer). */
  predicate IsNumberWhite(c: char) { ('\U{9}' <= c <= '\U{D}') || c == ' ' }

  /** string.IsNullOrWhiteSpace (a model string is never null). */
  function IsNullOrWhiteSpace(s: string): (r: bool)
    ensures r <==> forall i :: 0 <= i < |s| ==> IsWhiteSpace(s[i])
  {
    if |s| == 0 then true else IsWhiteSpace(s[0]) && IsNullOrWhiteSpace(s[1..])
  }

  /** Which characters a trim drops: string.Trim's or Int32.Parse's. */
  datatype Whites = AnyWhite | NumberWhite

  predicate IsWhite(w: Whites, c: char) {
    match w
    case AnyWhite => IsWhiteSpace(c)
    case NumberWhite => IsNumberWhite(c)
  }

  /** How many characters at the start of s are white. */
  function LeadingWhite(s: string, w: Whites): (k: nat)
    ensures k <= |s|
    ensures k == |s| || !IsWhite(w, s[k])
  {
    if |s| > 0 && IsWhite(w, s[0]) then 1 + LeadingWhite(s[1..], w) else 0
  }

  /** How many characters at the end of s are white. */
  function TrailingWhite(s: string, w: Whites): (k: nat)
    ensures k <= |s|
    ensures k == |s| || !IsWhite(w, s[|s| - k - 1])
  {
    if |s| > 0 && IsWhite(w, s[|s| - 1]) then 1 + TrailingWhite(s[..|s| - 1], w) else 0
  }

  /** Drop the white characters at both ends of s. */
  function TrimBy(s: string, w: Whites): (r: string)
    ensures |r| <= |s|
    ensures |r| == 0 || (!IsWhite(w, r[0]) && !IsWhite(w, r[|r| - 1]))
  {
    var a := LeadingWhite(s, w);
    var t := s[a..];
    t[..|t| - TrailingWhite(t, w)]
  }

  /** string.Trim(). */
  function Trim(s: string): (r: string)
    ensures |r| <= |s|
    ensures |r| == 0 || (!IsWhiteSpace(r[0]) && !IsWhiteSpace(r[|r| - 1]))
  {
    TrimBy(s, AnyWhite)
  }

  /** A text with no white space at its ends trims to itself, also after
      one leading space. */
  lemma TrimSpaced(x: string)
    requires |x| > 0 && !IsWhiteSpace(x[0]) && !IsWhiteSpace(x[|x| - 1])
    ensures Trim(x) == x
    ensures Trim(" " + x) == x
  {
    var s := " " + x;
    assert s[1..] == x;
    assert x[0..] == x;
    assert LeadingWhite(x, AnyWhite) == 0;
    assert LeadingWhite(s, AnyWhite) == 1;
    assert TrailingWhite(x, AnyWhite) == 0;
  }

  /** Trim takes off exactly the white padding: a text whose ends are not
      white, between any two runs of white space, trims to that text.
      Every string splits so, which makes this Trim's whole behaviour. */
  lemma TrimPadded(p: string, x: string, q: string)
    requires IsNullOrWhiteSpace(p) && IsNullOrWhiteSpace(q)
    requires |x| == 0 || (!IsWhiteSpace(x[0]) && !IsWhiteSpace(x[|x| - 1]))
    ensures Trim(p + x + q) == x
  {
    if |x| > 0 {
      TrimPaddedText(p, x, q);
    } else {
      WhiteJoin(p, x, q);
    }
  }

  /** Two runs of white space, with nothing between them, trim to nothing. */
  lemma WhiteJoin(p: string, x: string, q: string)
    requires IsNullOrWhiteSpace(p) && x == "" && IsNullOrWhiteSpace(q)
    ensures Trim(p + x + q) == ""
  {
    assert p + x + q == p + q;
    WhiteConcat(p, q);
    TrimAllWhite(p + q);
  }

  /** Two runs of white space make one. */
  lemma WhiteConcat(p: string, q: string)
    requires IsNullOrWhiteSpace(p) && IsNullOrWhiteSpace(q)
    ensures IsNullOrWhiteSpace(p + q)
  {
    assert forall i | 0 <= i < |p + q| :: (p + q)[i] == if i < |p| then p[i] else q[i - |p|];
  }

  lemma TrimPaddedText(p: string, x: string, q: string)
    requires IsNullOrWhiteSpace(p) && IsNullOrWhiteSpace(q)
    requires |x| > 0 && !IsWhiteSpace(x[0]) && !IsWhiteSpace(x[|x| - 1])
    ensures Trim(p + x + q) == x
  {
    var s := p + x + q;
    assert s == p + (x + q);
    LeadingPad(p, x + q);
    assert LeadingWhite(x + q, AnyWhite) == 0 by {
      assert (x + q)[0] == x[0];
    }
    TrailingPad(x, q);
    assert s[|p|..] == x + q;
    TrimAt(s, |p|, |q|);
    assert (x + q)[..|x|] == x;
  }

  /** A string of white space trims to nothing. */
  lemma TrimAllWhite(s: string)
    requires IsNullOrWhiteSpace(s)
    ensures Trim(s) == ""
  {
    assert s + "" == s;
    LeadingPad(s, "");
    TrimAt(s, |s|, 0);
  }

  /** Trim in terms of the lengths of the two white runs. */
  lemma TrimAt(s: string, a: nat, k: nat)
    requires a <= |s| && LeadingWhite(s, AnyWhite) == a
    requires TrailingWhite(s[a..], AnyWhite) == k
    ensures k <= |s| - a && Trim(s) == s[a..][..|s| - a - k]
  {
    assert Trim(s) == TrimBy(s, AnyWhite);
  }

  /** The leading white run of p + s covers p, and stops there when s starts
      with a character that is not white. */
  lemma {:induction false} LeadingPad(p: string, s: string)
    requires IsNullOrWhiteSpace(p)
    ensures LeadingWhite(p + s, AnyWhite) == |p| + LeadingWhite(s, AnyWhite)
    decreases |p|
  {
    if |p| > 0 {
      assert (p + s)[1..] == p[1..] + s;
      LeadingPad(p[1..], s);
    } else {
      assert p + s == s;
    }
  }

  /** The trailing white run of x + q is q when x ends with a character that
      is not white. */
  lemma {:induction false} TrailingPad(x: string, q: string)
    requires |x| > 0 && !IsWhiteSpace(x[|x| - 1]) && IsNullOrWhiteSpace(q)
    ensures TrailingWhite(x + q, AnyWhite) == |q|
    decreases |q|
  {
    if |q| > 0 {
      assert (x + q)[..|x + q| - 1] == x + q[..|q| - 1];
      TrailingPad(x, q[..|q| - 1]);
    } else {
      assert x + q == x;
    }
  }

  /** Trimming a string that has no white space at its ends leaves it alone. */
  lemma TrimNoOp(s: string)
    requires |s| == 0 || (!IsWhiteSpace(s[0]) && !IsWhiteSpace(s[|s| - 1]))
    ensures Trim(s) == s
  {
  }

  // ---------------------------------------------------------------------
  // Ordinal case-insensitive comparison
  // ---------------------------------------------------------------------

  /** Upper-case mapping of ASCII letters; other characters map to themselves. */
  function ToUpperAscii(c: char): (u: char)
    ensures 'a' <= c <= 'z' ==> u as int == c as int - 32
    ensures !('a' <= c <= 'z') ==> u == c
  {
    if 'a' <= c <= 'z' then (c as int - 32) as char else c
  }

  /** string.Equals(b, StringComparison.OrdinalIgnoreCase). */
  predicate EqualsIgnoreCase(a: string, b: string) {
    |a| == |b| && forall i :: 0 <= i < |a| ==> ToUpperAscii(a[i]) == ToUpperAscii(b[i])
  }

  // ---------------------------------------------------------------------
  // Substrings, Replace, Join, Split
  // ---------------------------------------------------------------------

  predicate IsPrefix(p: string, s: string) { |p| <= |s| && s[..|p|] == p }

  /** string.Contains(sub), ordinal. */
  function Contains(s: string, sub: string): (r: bool)
    ensures r <==> exists i :: 0 <= i <= |s| - |sub| && IsPrefix(sub, s[i..])
  {
    if IsPrefix(sub, s) then
      assert IsPrefix(sub, s[0..]);
      true
    else if |s| == 0 then false
    else
      var r := Contains(s[1..], sub);
      if r then
        var i :| 0 <= i <= |s| - 1 - |sub| && IsPrefix(sub, s[1..][i..]);
        assert s[1..][i..] == s[i + 1..];
        true
      else
        assert forall i :: 1 <= i <= |s| - |sub| ==> s[i..] == s[1..][i - 1..];
        false
  }

  /** string.Replace(pattern, replacement): every non-overlapping occurrence,
      scanning left to right. */
  function Replace(s: string, pattern: string, replacement: string): string
    requires |pattern| > 0
  {
    if |s| < |pattern| then s
    else if s[..|pattern|] == pattern then replacement + Replace(s[|pattern|..], pattern, replacement)
    else [s[0]] + Replace(s[1..], pattern, replacement)
  }

  /** Replacing one character: each occurrence of c becomes the replacement,
      every other character is kept, in order. */
  function ReplaceCharSpec(s: string, c: char, replacement: string): string {
    if |s| == 0 then []
    else (if s[0] == c then replacement else [s[0]]) + ReplaceCharSpec(s[1..], c, replacement)
  }

  lemma {:induction false} ReplaceCharIsSpec(s: string, c: char, replacement: string)
    ensures Replace(s, [c], replacement) == ReplaceCharSpec(s, c, replacement)
  {
    if |s| > 0 {
      ReplaceCharIsSpec(s[1..], c, replacement);
      assert s[..1] == [s[0]];
    }
  }

  /** With no occurrence of c, Replace changes nothing. */
  lemma {:induction false} ReplaceCharAbsent(s: string, c: char, replacement: string)
    requires c !in s
    ensures Replace(s, [c], replacement) == s
  {
    if |s| > 0 {
      assert s[..1] == [s[0]];
      ReplaceCharAbsent(s[1..], c, replacement);
    }
  }

  /** When the replacement does not contain c, no c survives. */
  lemma {:induction false} ReplaceCharRemovesAll(s: string, c: char, replacement: string)
    requires c !in replacement
    ensures c !in Replace(s, [c], replacement)
  {
    if |s| > 0 {
      assert s[..1] == [s[0]];
      ReplaceCharRemovesAll(s[1..], c, replacement);
    }
  }

  /** string.Join(separator, parts). */
  function Join(parts: seq<string>, separator: string): string {
    if |parts| == 0 then ""
    else if |parts| == 1 then parts[0]
    else parts[0] + separator + Join(parts[1..], separator)
  }

  /** string.Join over four parts. */
  lemma Join4(p: string, q: string, r: string, t: string, sep: string)
    ensures Join([p, q, r, t], sep) == p + sep + q + sep + r + sep + t
  {
    assert [p, q, r, t][1..] == [q, r, t];
    assert [q, r, t][1..] == [r, t];
    assert [r, t][1..] == [t];
    assert Join([r, t], sep) == r + sep + t;
    assert Join([q, r, t], sep) == q + sep + (r + sep + t);
  }

  /** string.Split(c): the pieces between occurrences of c, at least one. */
  function Split(s: string, c: char): (parts: seq<string>)
    ensures |parts| >= 1
    decreases |s|
  {
    if |s| == 0 then [""]
    else
      var rest := Split(s[1..], c);
      if s[0] == c then [""] + rest
      else [[s[0]] + rest[0]] + rest[1..]
  }

  /** A string without the separator is a single piece. */
  lemma {:induction false} SplitNone(s: string, c: char)
    requires c !in s
    ensures Split(s, c) == [s]
    decreases |s|
  {
    if |s| > 0 {
      assert c !in s[1..];
      SplitNone(s[1..], c);
      assert [s[0]] + s[1..] == s;
    }
  }

  /** Splitting at one separator splits the text on either side of it. */
  lemma {:induction false} SplitAppend(a: string, b: string, c: char)
    ensures Split(a + [c] + b, c) == Split(a, c) + Split(b, c)
    decreases |a|
  {
    var s := a + [c] + b;
    if |a| == 0 {
      assert s[1..] == b;
    } else {
      assert s[1..] == a[1..] + [c] + b;
      SplitAppend(a[1..], b, c);
    }
  }

  /** The pieces hold no separator, and joining them with it gives the
      text back. */
  lemma {:induction false} JoinSplit(s: string, c: char)
    ensures forall i :: 0 <= i < |Split(s, c)| ==> c !in Split(s, c)[i]
    ensures Join(Split(s, c), [c]) == s
    decreases |s|
  {
    if |s| > 0 {
      var rest := Split(s[1..], c);
      JoinSplit(s[1..], c);
      if s[0] == c {
        assert ([""] + rest)[1..] == rest;
        assert s == [c] + s[1..];
      } else {
        var parts := [[s[0]] + rest[0]] + rest[1..];
        assert parts[1..] == rest[1..];
        if |rest| == 1 {
          assert s == [s[0]] + rest[0];
        } else {
          assert Join(rest, [c]) == rest[0] + [c] + Join(rest[1..], [c]);
          assert s == [s[0]] + (rest[0] + [c] + Join(rest[1..], [c]));
        }
      }
    }
  }

  /** Splitting a join of pieces free of the separator gives the pieces back. */
  lemma {:induction false} SplitJoin(parts: seq<string>, c: char)
    requires |parts| >= 1
    requires forall i :: 0 <= i < |parts| ==> c !in parts[i]
    ensures Split(Join(parts, [c]), c) == parts
  {
    SplitNone(parts[0], c);
    if |parts| > 1 {
      SplitAppend(parts[0], Join(parts[1..], [c]), c);
      SplitJoin(parts[1..], c);
      assert [parts[0]] + parts[1..] == parts;
    }
  }

  // ---------------------------------------------------------------------
  // Integers
  // ---------------------------------------------------------------------

  predicate IsDigit(c: char) { '0' <= c <= '9' }

  function DigitChar(d: int): (c: char)
    requires 0 <= d < 10
    ensures IsDigit(c)
  {
    ('0' as int + d) as char
  }

  function DigitValue(c: char): int
    requires IsDigit(c)
  {
    c as int - '0' as int
  }

  predicate AllDigits(s: string) { forall i :: 0 <= i < |s| ==> IsDigit(s[i]) }

  function NatToString(n: nat): (s: string)
    ensures |s| >= 1 && AllDigits(s)
  {
    if n < 10 then [DigitChar(n)] else NatToString(n / 10) + [DigitChar(n % 10)]
  }

  /** Int32.ToString() and Int64.ToString() in the invariant culture. */
  function IntToString(n: int): (s: string)
    ensures |s| >= 1
    ensures n >= 0 ==> AllDigits(s)
    ensures n < 0 ==> s[0] == '-' && AllDigits(s[1..]) && |s| >= 2
  {
    if n < 0 then "-" + NatToString(-n) else NatToString(n)
  }

  function DigitsValue(s: string): nat
    requires AllDigits(s)
  {
    if |s| == 0 then 0 else DigitsValue(s[..|s| - 1]) * 10 + DigitValue(s[|s| - 1])
  }

  lemma {:induction false} DigitsOfNatToString(n: nat)
    ensures DigitsValue(NatToString(n)) == n
  {
    if n >= 10 {
      var s := NatToString(n);
      assert s[..|s| - 1] == NatToString(n / 10);
      DigitsOfNatToString(n / 10);
    }
  }

  datatype ParseError = FormatError | OverflowError

  /** Int32.Parse(s) with NumberStyles.Integer: optional white space at both
      ends, an optional sign, one or more ASCII digits; a value outside the
      32-bit range is an overflow. */
  function ParseInt(s: string): (r: Result<int, ParseError>)
    ensures r.Success? ==> IsInt32(r.value)
  {
    var t := TrimBy(s, NumberWhite);
    if |t| == 0 then Failure(FormatError)
    else
      var body := if t[0] == '-' || t[0] == '+' then t[1..] else t;
      if |body| == 0 || !AllDigits(body) then Failure(FormatError)
      else
        var v: int := if t[0] == '-' then -(DigitsValue(body) as int) else DigitsValue(body);
        if IsInt32(v) then Success(v) else Failure(OverflowError)
  }

  /** Parsing what IntToString printed gives the number back. */
  lemma IntRoundTrip(n: int)
    requires IsInt32(n)
    ensures ParseInt(IntToString(n)) == Success(n)
  {
    var s := IntToString(n);
    assert LeadingWhite(s, NumberWhite) == 0;
    assert s[0..] == s;
    assert TrailingWhite(s, NumberWhite) == 0;
    assert TrimBy(s, NumberWhite) == s;
    if n < 0 {
      assert s[1..] == NatToString(-n);
      DigitsOfNatToString(-n);
    } else {
      DigitsOfNatToString(n);
    }
  }

  /** A string holding no digit at all never parses. */
  lemma ParseIntNeedsDigit(s: string)
    requires forall i :: 0 <= i < |s| ==> !IsDigit(s[i])
    ensures ParseInt(s).Failure?
  {
    var a := LeadingWhite(s, NumberWhite);
    var t0 := s[a..];
    var t := TrimBy(s, NumberWhite);
    assert t == t0[..|t|];
    if |t| > 0 {
      var body := if t[0] == '-' || t[0] == '+' then t[1..] else t;
      if |body| > 0 {
        assert body[0] == s[a + |t| - |body|];
      }
    }
  }

  /** A printed integer is a minus sign and digits only. */
  lemma IntToStringIsSignedDigits(n: int)
    ensures forall i :: 0 <= i < |IntToString(n)| ==> IsDigit(IntToString(n)[i]) || IntToString(n)[i] == '-'
  {
    if n < 0 {
      var s := IntToString(n);
      forall i | 0 <= i < |s| ensures IsDigit(s[i]) || s[i] == '-' {
        if i > 0 {
          assert s[i] == s[1..][i - 1];
        }
      }
    }
  }

  /** Printed integers contain no white space, so trimming leaves them alone. */
  lemma IntToStringHasNoWhiteSpace(n: int)
    ensures forall i :: 0 <= i < |IntToString(n)| ==> !IsWhiteSpace(IntToString(n)[i]) && IntToString(n)[i] != ','
  {
  }

  /** A printed integer starts and ends with a character that is not white
      space, and holds no comma. */
  lemma IntToStringEnds(n: int)
    ensures var s := IntToString(n);
      !IsWhiteSpace(s[0]) && !IsWhiteSpace(s[|s| - 1]) && ',' !in s
  {
    IntToStringHasNoWhiteSpace(n);
  }
}
