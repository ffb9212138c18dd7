/** String helpers shared by the date parser and the task queries: Python's `str.lower`
    (restricted to ASCII letters), `str.strip`, the `in` operator on strings, and decimal
    digit strings. */
module Text {

  predicate IsUpper(c: char) {
    'A' <= c <= 'Z'
  }

  /** ASCII case folding of one character. */
  function LowerChar(c: char): (r: char)
    ensures !IsUpper(r)
    ensures !IsUpper(c) ==> r == c
  {
    if IsUpper(c) then (c as int + 32) as char else c
  }

  /** `s.lower()`, folding ASCII letters only. */
  function Lower(s: string): (r: string)
    ensures |r| == |s|
    ensures forall i :: 0 <= i < |s| ==> r[i] == LowerChar(s[i])
  {
    seq(|s|, i requires 0 <= i < |s| => LowerChar(s[i]))
  }

  predicate IsLowered(s: string) {
    forall i :: 0 <= i < |s| ==> !IsUpper(s[i])
  }

  lemma LowerIsLowered(s: string)
    ensures IsLowered(Lower(s))
  {
  }

  /** A string without upper-case letters is its own lower-case form. */
  lemma LowerOfLowered(s: string)
    requires IsLowered(s)
    ensures Lower(s) == s
  {
  }

  /** The characters Python's `str.isspace` accepts, which `str.strip()` removes. */
  predicate IsSpace(c: char) {
    c == ' ' || ('\t' <= c <= '\r') || ('\U{1C}' <= c <= '\U{1F}') || c == '\U{85}' || c == '\U{A0}'
    || c == '\U{1680}' || ('\U{2000}' <= c <= '\U{200A}') || c == '\U{2028}' || c == '\U{2029}'
    || c == '\U{202F}' || c == '\U{205F}' || c == '\U{3000}'
  }

  /** How many whitespace characters `s` starts with. */
  function LeadingSpaces(s: string): (n: nat)
    ensures n <= |s|
    ensures forall i :: 0 <= i < n ==> IsSpace(s[i])
    ensures n < |s| ==> !IsSpace(s[n])
  {
    if |s| > 0 && IsSpace(s[0]) then 1 + LeadingSpaces(s[1..]) else 0
  }

  /** How many whitespace characters `s` ends with. */
  function TrailingSpaces(s: string): (n: nat)
    ensures n <= |s|
    ensures forall i :: |s| - n <= i < |s| ==> IsSpace(s[i])
    ensures n < |s| ==> !IsSpace(s[|s| - 1 - n])
  {
    if |s| > 0 && IsSpace(s[|s| - 1]) then 1 + TrailingSpaces(s[..|s| - 1]) else 0
  }

  /** `s.strip()`: `s` without its leading and trailing whitespace. */
  function Strip(s: string): (r: string)
    ensures |r| <= |s|
    ensures forall i :: 0 <= i < |r| ==> r[i] in s
    ensures r == [] || (!IsSpace(r[0]) && !IsSpace(r[|r| - 1]))
    ensures LeadingSpaces(s) + |r| <= |s| && r == s[LeadingSpaces(s)..LeadingSpaces(s) + |r|]
    ensures forall k :: LeadingSpaces(s) + |r| <= k < |s| ==> IsSpace(s[k])
  {
    var u := s[LeadingSpaces(s)..];
    var r := u[..|u| - TrailingSpaces(u)];
    assert forall k :: LeadingSpaces(s) + |r| <= k < |s| ==> s[k] == u[k - LeadingSpaces(s)];
    r
  }

  /** A string that neither starts nor ends with whitespace is left alone by `strip`. */
  lemma StripOfTrimmed(s: string)
    requires s == [] || (!IsSpace(s[0]) && !IsSpace(s[|s| - 1]))
    ensures Strip(s) == s
  {
  }

  /** `s.startswith(p)`. */
  predicate StartsWith(s: string, p: string) {
    |p| <= |s| && s[..|p|] == p
  }

  /** `p` occurs in `s` starting at offset `i`. */
  predicate OccursAt(s: string, p: string, i: nat) {
    i + |p| <= |s| && s[i..i + |p|] == p
  }

  /** Python's `p in s` for strings: `p` occurs in `s` at some offset. */
  predicate Contains(s: string, p: string) {
    exists i: nat :: i <= |s| && OccursAt(s, p, i)
  }

  /** A needle whose first character never occurs in the haystack is not contained in it. */
  lemma NotContainedByFirstChar(s: string, p: string)
    requires |p| > 0
    requires forall i :: 0 <= i < |s| ==> s[i] != p[0]
    ensures !Contains(s, p)
  {
    forall i: nat | i + |p| <= |s|
      ensures !OccursAt(s, p, i)
    {
      assert s[i..i + |p|][0] == s[i];
    }
  }

  /** A needle whose first two characters never occur side by side in the haystack is not
      contained in it. */
  lemma NotContainedByFirstPair(s: string, p: string)
    requires |p| >= 2
    requires forall i :: 0 <= i < |s| - 1 ==> !(s[i] == p[0] && s[i + 1] == p[1])
    ensures !Contains(s, p)
  {
    forall i: nat | i + |p| <= |s|
      ensures !OccursAt(s, p, i)
    {
      assert s[i..i + |p|][0] == s[i] && s[i..i + |p|][1] == s[i + 1];
    }
  }

  /** A string contains any of its own infixes. */
  lemma ContainsInfix(s: string, i: nat, j: nat)
    requires i <= j <= |s|
    ensures Contains(s, s[i..j])
  {
    assert OccursAt(s, s[i..j], i);
  }

  predicate IsDigit(c: char) {
    '0' <= c <= '9'
  }

  predicate AllDigits(s: string) {
    forall i :: 0 <= i < |s| ==> IsDigit(s[i])
  }

  function DigitValue(c: char): (r: nat)
    requires IsDigit(c)
    ensures r < 10
  {
    c as int - '0' as int
  }

  function DigitChar(d: nat): (c: char)
    requires d < 10
    ensures IsDigit(c) && DigitValue(c) == d
  {
    ('0' as int + d) as char
  }

  /** Python's `int(s)` on a string of ASCII decimal digits (leading zeros allowed). */
  function DigitsValue(s: string): nat
    requires AllDigits(s)
  {
    if s == [] then 0 else DigitsValue(s[..|s| - 1]) * 10 + DigitValue(s[|s| - 1])
  }

  /** The length of the run of digits that `s` starts with: what a greedy `\d+` consumes. */
  function LeadingDigits(s: string): (n: nat)
    ensures n <= |s|
    ensures AllDigits(s[..n])
    ensures n < |s| ==> !IsDigit(s[n])
  {
    if |s| > 0 && IsDigit(s[0]) then
      var n := 1 + LeadingDigits(s[1..]);
      assert s[..n] == [s[0]] + s[1..][..n - 1];
      n
    else 0
  }

  /** A greedy digit run stops exactly where a digit string ends and a non-digit begins. */
  lemma {:induction false} LeadingDigitsOfConcat(d: string, rest: string)
    requires AllDigits(d)
    requires rest == [] || !IsDigit(rest[0])
    ensures LeadingDigits(d + rest) == |d|
  {
    if d != [] {
      assert (d + rest)[1..] == d[1..] + rest;
      LeadingDigitsOfConcat(d[1..], rest);
    } else {
      assert d + rest == rest;
    }
  }

  function Pow10(n: nat): (r: nat)
    ensures r >= 1
  {
    if n == 0 then 1 else 10 * Pow10(n - 1)
  }

  /** `n` written with exactly `width` digits, zero-padded on the left (Python's `f"{n:0{width}d}"`). */
  function PadDigits(n: nat, width: nat): (r: string)
    requires n < Pow10(width)
    ensures |r| == width && AllDigits(r)
    ensures DigitsValue(r) == n
  {
    if width == 0 then "" else
      var r := PadDigits(n / 10, width - 1) + [DigitChar(n % 10)];
      assert r[..|r| - 1] == PadDigits(n / 10, width - 1);
      r
  }

  /** The shortest decimal form of `n` (Python's `str(n)` for a non-negative int). */
  function Decimal(n: nat): (r: string)
    ensures |r| > 0 && AllDigits(r)
    ensures DigitsValue(r) == n
    ensures |r| == 1 || r[0] != '0'
  {
    if n < 10 then [DigitChar(n)] else
      var r := Decimal(n / 10) + [DigitChar(n % 10)];
      assert r[..|r| - 1] == Decimal(n / 10);
      r
  }

  /** `"\n".join(lines)`. */
  function JoinLines(lines: seq<string>): string {
    if lines == [] then "" else if |lines| == 1 then lines[0] else lines[0] + "\n" + JoinLines(lines[1..])
  }

  /** Containment is transitive: a needle in a part of `s` is in `s`. */
  lemma ContainsTransitive(s: string, part: string, p: string)
    requires Contains(s, part) && Contains(part, p)
    ensures Contains(s, p)
  {
    var i: nat :| i <= |s| && OccursAt(s, part, i);
    var j: nat :| j <= |part| && OccursAt(part, p, j);
    forall k | 0 <= k < |p|
      ensures s[i + j + k] == p[k]
    {
      assert s[i..i + |part|][j + k] == part[j + k];
      assert part[j..j + |p|][k] == part[j + k];
    }
    assert OccursAt(s, p, i + j);
  }

  /** A string contains what it has in its middle. */
  lemma ContainsMiddle(a: string, p: string, b: string)
    ensures Contains(a + p + b, p)
  {
    assert (a + p + b)[|a|..|a| + |p|] == p;
    assert OccursAt(a + p + b, p, |a|);
  }

  /** The joined text starts with the first line. */
  lemma JoinLinesStartsWithFirst(lines: seq<string>)
    requires lines != []
    ensures StartsWith(JoinLines(lines), lines[0])
  {
    if |lines| > 1 {
      assert (lines[0] + "\n" + JoinLines(lines[1..]))[..|lines[0]|] == lines[0];
    }
  }

  /** Every line occurs in the joined text. */
  lemma {:induction false} JoinLinesContainsEach(lines: seq<string>, k: nat)
    requires k < |lines|
    ensures Contains(JoinLines(lines), lines[k])
  {
    var s := JoinLines(lines);
    if |lines| == 1 {
      assert OccursAt(s, lines[0], 0);
    } else if k == 0 {
      assert (lines[0] + "\n" + JoinLines(lines[1..]))[..|lines[0]|] == lines[0];
      assert OccursAt(s, lines[0], 0);
    } else {
      JoinLinesContainsEach(lines[1..], k - 1);
      var rest := JoinLines(lines[1..]);
      var pre := lines[0] + "\n";
      assert s == pre + rest;
      assert s[|pre|..|s|] == rest;
      ContainsInfix(s, |pre|, |s|);
      ContainsTransitive(s, rest, lines[k]);
    }
  }

  /** How often `c` occurs in `s`. */
  function CountOf(s: string, c: char): nat {
    multiset(s)[c]
  }

  /** Joining lines without newlines of their own puts one newline between each two. */
  lemma {:induction false} JoinLinesNewlines(lines: seq<string>)
    requires lines != []
    requires forall k :: 0 <= k < |lines| ==> '\n' !in lines[k]
    ensures CountOf(JoinLines(lines), '\n') == |lines| - 1
  {
    if |lines| > 1 {
      JoinLinesNewlines(lines[1..]);
      assert '\n' !in multiset(lines[0]);
      assert multiset(lines[0] + "\n" + JoinLines(lines[1..]))
        == multiset(lines[0]) + multiset{'\n'} + multiset(JoinLines(lines[1..]));
    }
  }
}
