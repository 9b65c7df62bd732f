/**
  Character-level helpers that `parse_csv` relies on: Python's whitespace
  test and `str.strip()`, the two `str.replace` calls that normalise line
  endings, and the decimal rendering of an `int` used in `f"col_{i+1}"`.
 */
module Text {

  /** Python's `str.isspace()` for one character (the table behind `str.strip()`). */
  predicate IsSpace(c: char)
    ensures c == ' ' || c == '\t' || c == '\n' || c == '\r' ==> IsSpace(c)
    ensures 0x21 <= c as int <= 0x7E ==> !IsSpace(c)
  {
    var n := c as int;
    (9 <= n <= 13) || (28 <= n <= 32) || n == 0x85 || n == 0xA0 || n == 0x1680
    || (0x2000 <= n <= 0x200A) || n == 0x2028 || n == 0x2029 || n == 0x202F
    || n == 0x205F || n == 0x3000
  }

  /** Every character of `s` is whitespace (so `s.strip()` is falsy). */
  predicate IsBlank(s: string) {
    forall k :: 0 <= k < |s| ==> IsSpace(s[k])
  }

  /** `s` neither starts nor ends with whitespace. */
  predicate IsStripped(s: string) {
    s == [] || (!IsSpace(s[0]) && !IsSpace(s[|s| - 1]))
  }

  /** The number of whitespace characters `s` starts with. */
  function LeadingSpaces(s: string): (n: nat)
    ensures n <= |s|
    ensures forall k :: 0 <= k < n ==> IsSpace(s[k])
    ensures n < |s| ==> !IsSpace(s[n])
  {
    if s != [] && IsSpace(s[0]) then 1 + LeadingSpaces(s[1..]) else 0
  }
  /** The number of whitespace characters `s` ends with. */
  function TrailingSpaces(s: string): (n: nat)
    ensures n <= |s|
    ensures forall k :: |s| - n <= k < |s| ==> IsSpace(s[k])
    ensures n < |s| ==> !IsSpace(s[|s| - n - 1])
  {
    if s != [] && IsSpace(s[|s| - 1]) then 1 + TrailingSpaces(s[..|s| - 1]) else 0
  }
  /**
    `s.strip()`: the result is the slice of `s` that starts after its
    leading whitespace and is followed only by whitespace; it is itself
    stripped, it is empty exactly when `s` is blank, and a stripped string
    is left alone.
   */
  function Strip(s: string): (r: string)
    ensures IsStripped(r)
    ensures LeadingSpaces(s) + |r| <= |s|
    ensures r == s[LeadingSpaces(s)..LeadingSpaces(s) + |r|]
    ensures forall k :: LeadingSpaces(s) + |r| <= k < |s| ==> IsSpace(s[k])
    ensures r == [] <==> IsBlank(s)
    ensures IsStripped(s) ==> r == s
  {
    var i := LeadingSpaces(s);
    var j := if i == |s| then |s| else |s| - TrailingSpaces(s);
    s[i..j]
  }

  /** `strip()` takes one trailing space off a non-empty stripped string. */
  lemma {:induction false} StripTrailingSpace(u: string)
    requires u != [] && IsStripped(u)
    ensures Strip(u + " ") == u
  {
    var s := u + " ";
    assert s[..|s| - 1] == u;
    assert TrailingSpaces(u) == 0;
    assert TrailingSpaces(s) == 1;
    assert LeadingSpaces(s) == 0;
    assert s[0..|u|] == u;
  }

  /** `s.replace("\r\n", "\n")`: left-to-right, non-overlapping. */
  function ReplaceCrLf(s: string): (r: string)
    ensures |r| <= |s|
  {
    if |s| >= 2 && s[0] == '\r' && s[1] == '\n' then "\n" + ReplaceCrLf(s[2..])
    else if s == [] then []
    else [s[0]] + ReplaceCrLf(s[1..])
  }

  /** `s.replace("\r", "\n")`. */
  function ReplaceCr(s: string): (r: string)
    ensures |r| == |s|
    ensures '\r' !in r
    ensures forall k :: 0 <= k < |s| ==> r[k] == if s[k] == '\r' then '\n' else s[k]
  {
    if s == [] then [] else [if s[0] == '\r' then '\n' else s[0]] + ReplaceCr(s[1..])
  }

  /** The line-ending normalisation of `parse_csv` (the first half of app/main.py:23). */
  function NormalizeNewlines(s: string): (r: string)
    ensures '\r' !in r && |r| <= |s|
  {
    ReplaceCr(ReplaceCrLf(s))
  }

  /**
    Reference definition of the normalisation in one pass: a CR LF pair
    becomes one LF, a lone CR becomes LF, every other character is kept.
   */
  function LineBreaksToLf(s: string): (r: string)
  {
    if s == [] then []
    else if |s| >= 2 && s[0] == '\r' && s[1] == '\n' then "\n" + LineBreaksToLf(s[2..])
    else if s[0] == '\r' then "\n" + LineBreaksToLf(s[1..])
    else [s[0]] + LineBreaksToLf(s[1..])
  }

  /** The two chained replacements are the one-pass normalisation. */
  lemma {:induction false} NormalizeIsOnePass(s: string)
    ensures NormalizeNewlines(s) == LineBreaksToLf(s)
  {
    if s == [] {
    } else if |s| >= 2 && s[0] == '\r' && s[1] == '\n' {
      NormalizeIsOnePass(s[2..]);
      assert ReplaceCrLf(s) == "\n" + ReplaceCrLf(s[2..]);
      assert ReplaceCr("\n" + ReplaceCrLf(s[2..])) == "\n" + ReplaceCr(ReplaceCrLf(s[2..]));
    } else {
      NormalizeIsOnePass(s[1..]);
      assert ReplaceCrLf(s) == [s[0]] + ReplaceCrLf(s[1..]);
      assert ReplaceCr([s[0]] + ReplaceCrLf(s[1..]))
          == [if s[0] == '\r' then '\n' else s[0]] + ReplaceCr(ReplaceCrLf(s[1..]));
    }
  }

  /** Normalised text has no CR left, and text without CR is left unchanged. */
  lemma {:induction false} NormalizeNewlinesSpec(s: string)
    ensures '\r' !in NormalizeNewlines(s)
    ensures '\r' !in s ==> NormalizeNewlines(s) == s
  {
    if '\r' !in s {
      ReplaceCrLfWithoutCr(s);
    }
  }

  lemma {:induction false} ReplaceCrLfWithoutCr(s: string)
    requires '\r' !in s
    ensures ReplaceCrLf(s) == s
  {
    if s != [] {
      assert '\r' !in s[1..];
      ReplaceCrLfWithoutCr(s[1..]);
    }
  }

  /** The character for a decimal digit. */
  function DigitChar(d: nat): (c: char)
    requires d < 10
    ensures '0' <= c <= '9' && c as int - '0' as int == d
  {
    ('0' as int + d) as char
  }

  predicate IsDigits(s: string) {
    forall k :: 0 <= k < |s| ==> '0' <= s[k] <= '9'
  }

  /** `str(n)` for a natural number: its decimal digits, no leading zero. */
  function NatToString(n: nat): (r: string)
    ensures |r| >= 1 && IsDigits(r)
    ensures r[0] == '0' ==> n == 0 && r == "0"
  {
    if n < 10 then [DigitChar(n)] else NatToString(n / 10) + [DigitChar(n % 10)]
  }

  /** The number a string of decimal digits denotes (the inverse of `NatToString`). */
  function DecimalValue(s: string): nat
    requires IsDigits(s)
  {
    if s == [] then 0
    else 10 * DecimalValue(s[..|s| - 1]) + (s[|s| - 1] as int - '0' as int)
  }

  lemma {:induction false} DecimalRoundTrip(n: nat)
    ensures DecimalValue(NatToString(n)) == n
  {
    if n >= 10 {
      DecimalRoundTrip(n / 10);
      var s := NatToString(n);
      assert s[..|s| - 1] == NatToString(n / 10);
    }
  }

  /** Different numbers are rendered differently. */
  lemma {:induction false} NatToStringInjective(m: nat, n: nat)
    ensures NatToString(m) == NatToString(n) ==> m == n
  {
    DecimalRoundTrip(m);
    DecimalRoundTrip(n);
  }
}
