/**
 * The JavaScript string and number primitives that the address code relies on:
 * regular-expression character classes, `replace(/…/g, '')` filtering,
 * `slice`, `padStart`, decimal `toString`, `parseInt` and `toUpperCase`.
 * Strings are sequences of Dafny `char`s, which are Unicode scalar values,
 * where JavaScript counts UTF-16 code units; the two agree on every
 * character below U+10000. Numbers that the code only ever holds as
 * integers are `int`/`nat`.
 */
module JsText {
  import opened Wrappers

  // ---------------------------------------------------------------------------
  // Character classes
  // ---------------------------------------------------------------------------

  /** The regular-expression class `\d`: an ASCII decimal digit. */
  predicate IsDigit(c: char) {
    '0' <= c <= '9'
  }

  predicate AllDigits(s: string) {
    forall i | 0 <= i < |s| :: IsDigit(s[i])
  }

  /** The regular-expression class `\s`: every WhiteSpace and LineTerminator code point. */
  predicate IsWhitespace(c: char) {
    || c == '\t' || c == '\n' || c == '\U{000B}' || c == '\U{000C}' || c == '\r' || c == ' '
    || c == '\U{00A0}' || c == '\U{1680}' || ('\U{2000}' <= c <= '\U{200A}')
    || c == '\U{2028}' || c == '\U{2029}' || c == '\U{202F}' || c == '\U{205F}'
    || c == '\U{3000}' || c == '\U{FEFF}'
  }

  /** The class `[-\s]` that DAN inputs are cleaned of. */
  predicate IsSeparator(c: char) {
    c == '-' || IsWhitespace(c)
  }

  predicate NotSeparator(c: char) {
    !IsSeparator(c)
  }

  predicate NotDash(c: char) {
    c != '-'
  }

  predicate IsHexDigit(c: char) {
    IsDigit(c) || 'a' <= c <= 'f' || 'A' <= c <= 'F'
  }

  // ---------------------------------------------------------------------------
  // Filtering: `s.replace(/[class]/g, '')`
  // ---------------------------------------------------------------------------

  /** The characters of `s` that satisfy `keep`, in their original order. */
  function Filter(s: string, keep: char -> bool): (r: string)
    ensures |r| <= |s|
    ensures forall i | 0 <= i < |r| :: keep(r[i])
  {
    if |s| == 0 then "" else (if keep(s[0]) then [s[0]] else "") + Filter(s[1..], keep)
  }

  /** `s.replace(/[-\s]/g, '')` */
  function StripSeparators(s: string): string {
    Filter(s, NotSeparator)
  }

  /** `s.replace(/\D/g, '')` */
  function KeepDigits(s: string): string {
    Filter(s, IsDigit)
  }

  /** `s.replace(/-/g, '')`: used only to state what a formatted DAN carries. */
  function RemoveDashes(s: string): string {
    Filter(s, NotDash)
  }

  lemma {:induction false} FilterAppend(a: string, b: string, keep: char -> bool)
    ensures Filter(a + b, keep) == Filter(a, keep) + Filter(b, keep)
    decreases |a|
  {
    if |a| == 0 {
      assert a + b == b;
    } else {
      assert (a + b)[0] == a[0];
      assert (a + b)[1..] == a[1..] + b;
      FilterAppend(a[1..], b, keep);
    }
  }

  /** A dropped dash between two strings leaves the filtered strings side by side. */
  lemma FilterSkipsDash(x: string, y: string, keep: char -> bool)
    requires !keep('-')
    ensures Filter(x + "-" + y, keep) == Filter(x, keep) + Filter(y, keep)
  {
    FilterDropsAll("-", keep);
    FilterAppend(x, "-", keep);
    FilterAppend(x + "-", y, keep);
  }

  /** Filtering a string every character of which is kept changes nothing. */
  lemma {:induction false} FilterKeepsAll(s: string, keep: char -> bool)
    requires forall i | 0 <= i < |s| :: keep(s[i])
    ensures Filter(s, keep) == s
    decreases |s|
  {
    if |s| > 0 {
      FilterKeepsAll(s[1..], keep);
    }
  }

  /** Filtering a string none of whose characters is kept yields the empty string. */
  lemma {:induction false} FilterDropsAll(s: string, keep: char -> bool)
    requires forall i | 0 <= i < |s| :: !keep(s[i])
    ensures Filter(s, keep) == ""
    decreases |s|
  {
    if |s| > 0 {
      FilterDropsAll(s[1..], keep);
    }
  }

  /** Three digit strings side by side make a digit string that splits back into them. */
  lemma DigitsConcat(a: string, b: string, c: string)
    requires AllDigits(a) && AllDigits(b) && AllDigits(c)
    ensures AllDigits(a + b + c)
    ensures (a + b + c)[..|a|] == a
    ensures (a + b + c)[|a|..|a| + |b|] == b
    ensures (a + b + c)[|a| + |b|..] == c
  {
    var s := a + b + c;
    assert forall i | 0 <= i < |s| :: s[i] == if i < |a| then a[i] else if i < |a| + |b| then b[i - |a|] else c[i - |a| - |b|];
  }

  /** A string of digits has no separator to strip. */
  lemma DigitsHaveNoSeparators(s: string)
    requires AllDigits(s)
    ensures StripSeparators(s) == s
    ensures RemoveDashes(s) == s
    ensures KeepDigits(s) == s
  {
    FilterKeepsAll(s, NotSeparator);
    FilterKeepsAll(s, NotDash);
    FilterKeepsAll(s, IsDigit);
  }

  // ---------------------------------------------------------------------------
  // `String.prototype.slice` with non-negative arguments
  // ---------------------------------------------------------------------------

  /** `s.slice(start, end)`: both ends are clamped to the string, an empty range gives "". */
  function Slice(s: string, start: nat, end: nat): (r: string)
    ensures |r| <= |s|
    ensures start <= end <= |s| ==> r == s[start..end]
  {
    var from := if start <= |s| then start else |s|;
    var to := if end <= |s| then end else |s|;
    if from < to then s[from..to] else ""
  }

  // ---------------------------------------------------------------------------
  // Decimal text of whole numbers
  // ---------------------------------------------------------------------------

  function DigitChar(d: nat): (c: char)
    requires d < 10
    ensures IsDigit(c)
  {
    ('0' as int + d) as char
  }

  function DigitValue(c: char): (d: nat)
    requires IsDigit(c)
    ensures d < 10
    ensures DigitChar(d) == c
  {
    c as int - '0' as int
  }

  function Pow10(k: nat): (r: nat)
    ensures r >= 1
  {
    if k == 0 then 1 else 10 * Pow10(k - 1)
  }

  /** `n.toString()` for a whole number `n >= 0`: no leading zero except for 0 itself. */
  function NatToDecimal(n: nat): (r: string)
    ensures 1 <= |r|
    ensures AllDigits(r)
    ensures |r| > 1 ==> r[0] != '0'
    decreases n
  {
    if n < 10 then [DigitChar(n)] else NatToDecimal(n / 10) + [DigitChar(n % 10)]
  }

  /** `i.toString()` for a whole number of either sign. */
  function IntToDecimal(i: int): string {
    if i < 0 then "-" + NatToDecimal(-i) else NatToDecimal(i)
  }

  /** The number a string of decimal digits denotes (leading zeros allowed). */
  function DecimalValue(s: string): (n: nat)
    requires AllDigits(s)
    ensures n < Pow10(|s|)
  {
    if |s| == 0 then 0 else 10 * DecimalValue(s[..|s| - 1]) + DigitValue(s[|s| - 1])
  }

  /** Reading back the decimal text of a number gives the number. */
  lemma {:induction false} DecimalRoundTrip(n: nat)
    ensures DecimalValue(NatToDecimal(n)) == n
    decreases n
  {
    if n >= 10 {
      var r := NatToDecimal(n);
      assert r[..|r| - 1] == NatToDecimal(n / 10);
      DecimalRoundTrip(n / 10);
    }
  }

  /** The decimal text of `n` has at most `k` digits exactly when `n < 10^k`. */
  lemma {:induction false} DecimalLength(n: nat, k: nat)
    requires k >= 1
    ensures |NatToDecimal(n)| <= k <==> n < Pow10(k)
    decreases n
  {
    if n >= 10 {
      if k == 1 {
        assert |NatToDecimal(n)| >= 2;
      } else {
        DecimalLength(n / 10, k - 1);
      }
    }
  }

  function Repeat(c: char, n: nat): (r: string)
    ensures |r| == n
    ensures forall i | 0 <= i < n :: r[i] == c
  {
    if n == 0 then "" else Repeat(c, n - 1) + [c]
  }

  /** `s.padStart(width, fill)` with a one-character fill. */
  function PadStart(s: string, width: nat, fill: char): (r: string)
    ensures |r| == if |s| >= width then |s| else width
    ensures r[|r| - |s|..] == s
    ensures forall i | 0 <= i < |r| - |s| :: r[i] == fill
  {
    if |s| >= width then s else Repeat(fill, width - |s|) + s
  }

  /** A run of zeros denotes zero. */
  lemma {:induction false} ZerosAreZero(z: nat)
    ensures AllDigits(Repeat('0', z))
    ensures DecimalValue(Repeat('0', z)) == 0
  {
    if z > 0 {
      assert Repeat('0', z)[..z - 1] == Repeat('0', z - 1);
      ZerosAreZero(z - 1);
    }
  }

  /** Leading zeros do not change the number a digit string denotes. */
  lemma {:induction false} LeadingZerosIgnored(z: nat, s: string)
    requires AllDigits(s)
    ensures AllDigits(Repeat('0', z) + s)
    ensures DecimalValue(Repeat('0', z) + s) == DecimalValue(s)
    decreases |s|
  {
    var t := Repeat('0', z) + s;
    if |s| == 0 {
      assert t == Repeat('0', z);
      ZerosAreZero(z);
    } else {
      assert t[..|t| - 1] == Repeat('0', z) + s[..|s| - 1];
      LeadingZerosIgnored(z, s[..|s| - 1]);
    }
  }

  /**
   * `n.toString().padStart(width, '0')` is exactly `width` digits and denotes `n`
   * whenever `n < 10^width`.
   */
  lemma ZeroPaddedDecimal(n: nat, width: nat)
    requires width >= 1 && n < Pow10(width)
    ensures |PadStart(NatToDecimal(n), width, '0')| == width
    ensures AllDigits(PadStart(NatToDecimal(n), width, '0'))
    ensures DecimalValue(PadStart(NatToDecimal(n), width, '0')) == n
  {
    var d := NatToDecimal(n);
    assert |d| <= width by {
      DecimalLength(n, width);
    }
    var z := width - |d|;
    assert PadStart(d, width, '0') == Repeat('0', z) + d by {
      if z == 0 {
        assert Repeat('0', 0) + d == d;
      }
    }
    DecimalRoundTrip(n);
    LeadingZerosIgnored(z, d);
  }

  // ---------------------------------------------------------------------------
  // `parseInt(s)` with no radix argument
  // ---------------------------------------------------------------------------

  /** The longest prefix of `s` whose characters all satisfy `p`. */
  function LeadingRun(s: string, p: char -> bool): (r: string)
    ensures |r| <= |s| && r == s[..|r|]
    ensures forall i | 0 <= i < |r| :: p(r[i])
    ensures |r| < |s| ==> !p(s[|r|])
  {
    if |s| == 0 || !p(s[0]) then "" else [s[0]] + LeadingRun(s[1..], p)
  }

  /** A string every character of which satisfies `p` is its own leading run. */
  lemma {:induction false} LeadingRunOfAll(s: string, p: char -> bool)
    ensures (forall i | 0 <= i < |s| :: p(s[i])) ==> LeadingRun(s, p) == s
    decreases |s|
  {
    if |s| > 0 && forall i | 0 <= i < |s| :: p(s[i]) {
      assert forall i | 0 <= i < |s[1..]| :: p(s[1..][i]) by {
        forall i | 0 <= i < |s[1..]| ensures p(s[1..][i]) { assert s[1..][i] == s[i + 1]; }
      }
      LeadingRunOfAll(s[1..], p);
    }
  }

  function HexDigitValue(c: char): (d: nat)
    requires IsHexDigit(c)
    ensures d < 16
  {
    if IsDigit(c) then DigitValue(c)
    else if 'a' <= c <= 'f' then c as int - 'a' as int + 10
    else c as int - 'A' as int + 10
  }

  function HexValue(s: string): nat
    requires forall i | 0 <= i < |s| :: IsHexDigit(s[i])
  {
    if |s| == 0 then 0 else 16 * HexValue(s[..|s| - 1]) + HexDigitValue(s[|s| - 1])
  }

  /** `s` without its leading `\s` characters, as `parseInt` skips them. */
  function TrimStart(s: string): (r: string)
    ensures |r| <= |s|
  {
    if |s| > 0 && IsWhitespace(s[0]) then TrimStart(s[1..]) else s
  }

  /** `s` starts with a character no number can begin with: not white space, a sign or a digit. */
  predicate CannotStartNumber(s: string) {
    |s| > 0 && !IsDigit(s[0]) && !IsWhitespace(s[0]) && s[0] != '+' && s[0] != '-'
  }

  /**
   * `parseInt(s)`: skip leading white space, take an optional sign, read a
   * hexadecimal number after a `0x`/`0X` prefix and a decimal one otherwise,
   * stopping at the first character that is not a digit of that base.
   * `None` stands for `NaN`, the result when no digit is read.
   */
  function ParseInt(s: string): (r: Option<int>)
    ensures CannotStartNumber(s) ==> r.None?
    ensures |s| > 0 && IsDigit(s[0]) && !(s[0] == '0' && |s| >= 2 && (s[1] == 'x' || s[1] == 'X')) ==>
      r == Some(DecimalValue(LeadingRun(s, IsDigit)))
  {
    var t := TrimStart(s);
    var sign := if |t| > 0 && t[0] == '-' then -1 else 1;
    var u := if |t| > 0 && (t[0] == '-' || t[0] == '+') then t[1..] else t;
    if |u| >= 2 && u[0] == '0' && (u[1] == 'x' || u[1] == 'X') then
      var digits := LeadingRun(u[2..], IsHexDigit);
      if |digits| == 0 then None else Some(sign * HexValue(digits))
    else
      var digits := LeadingRun(u, IsDigit);
      if |digits| == 0 then None else Some(sign * DecimalValue(digits))
  }

  /** On a non-empty string of decimal digits `parseInt` reads the whole string. */
  lemma ParseIntOfDigits(s: string)
    requires |s| > 0 && AllDigits(s)
    ensures ParseInt(s) == Some(DecimalValue(s))
  {
    LeadingRunOfAll(s, IsDigit);
  }

  // ---------------------------------------------------------------------------
  // `String.prototype.toUpperCase`
  // ---------------------------------------------------------------------------

  /**
   * The upper-case form of one character, exact for every character whose
   * upper-case form is a single ASCII capital: the ASCII letters, dotless i
   * (U+0131) and long s (U+017F). Every other character is left as it is.
   * That is wrong for characters with a non-ASCII upper-case form, and for
   * the few whose upper-case form is several ASCII capitals (sharp s to "SS",
   * the ligatures U+FB00 to U+FB06 to "FF", "FI", "FL", "FFI", "FFL", "ST");
   * neither kind can turn a name into a two-letter state abbreviation, so
   * the table lookup this feeds succeeds for exactly the same names.
   */
  function UpperChar(c: char): (u: char)
    ensures 'A' <= u <= 'Z' <==> ('A' <= c <= 'Z' || 'a' <= c <= 'z' || c == '\U{0131}' || c == '\U{017F}')
  {
    if 'a' <= c <= 'z' then (c as int - 32) as char
    else if c == '\U{0131}' then 'I'
    else if c == '\U{017F}' then 'S'
    else c
  }

  /** `s.toUpperCase()`, character by character (see `UpperChar`). */
  function ToUpperCase(s: string): (r: string)
    ensures |r| == |s|
    ensures forall i | 0 <= i < |s| :: r[i] == UpperChar(s[i])
  {
    if |s| == 0 then "" else [UpperChar(s[0])] + ToUpperCase(s[1..])
  }
}
