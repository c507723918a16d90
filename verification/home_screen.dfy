/**
 * The two pure helpers of the client's search screen: `validateDAN`, which
 * decides whether the typed text is a DAN worth looking up, and `formatDAN`,
 * which reformats the text field as the user types.
 */
module HomeScreen {
  import opened JsText
  import opened DanLayout

  /**
   * `validateDAN`: drop dashes and whitespace, then demand exactly twelve
   * ASCII digits beginning with the country code. What passes holds nothing
   * but separators and those twelve digits, at least twelve characters in all.
   */
  predicate ValidateDan(input: string): (r: bool)
    ensures r ==> |input| >= DanLength
    ensures r ==>
      && KeepDigits(input) == StripSeparators(input)
      && |KeepDigits(input)| == DanLength && KeepDigits(input)[..3] == CountryCode
  {
    var clean := StripSeparators(input);
    DigitsOfClean(input);
    |clean| == DanLength && AllDigits(clean) && clean[..3] == CountryCode
  }

  /** The digits `formatDAN` keeps: the first twelve digits of the input, in order. */
  function LimitedDigits(input: string): (r: string)
    ensures |r| <= DanLength
    ensures AllDigits(r)
  {
    var digits := KeepDigits(input);
    if |digits| <= DanLength then digits else digits[..DanLength]
  }

  /**
   * The `XXX-XX-XXXXXXX` layout `formatDAN` gives a run of digits: no dash up
   * to three digits, one dash after the third up to five digits, and a second
   * dash after the fifth digit beyond that.
   */
  function Dashed(limited: string): (r: string)
    ensures |r| == if |limited| <= 3 then |limited| else if |limited| <= 5 then |limited| + 1 else |limited| + 2
    ensures AllDigits(limited) ==> forall i | 0 <= i < |r| :: (r[i] == '-' <==> i == 3 || i == 6)
  {
    if |limited| <= 3 then limited
    else if |limited| <= 5 then Slice(limited, 0, 3) + "-" + Slice(limited, 3, |limited|)
    else Slice(limited, 0, 3) + "-" + Slice(limited, 3, 5) + "-" + Slice(limited, 5, |limited|)
  }

  /**
   * `formatDAN`: keep the digits, cut them to twelve and lay them out with
   * dashes. At most fourteen characters, dashes exactly at positions 3 and 6
   * where the text is that long, digits everywhere else.
   */
  function FormatDan(input: string): (r: string)
    ensures |r| <= DanLength + 2
    ensures forall i | 0 <= i < |r| :: (r[i] == '-' <==> i == 3 || i == 6)
    ensures forall i | 0 <= i < |r| && i != 3 && i != 6 :: IsDigit(r[i])
  {
    var limited := Slice(KeepDigits(input), 0, DanLength);
    assert limited == LimitedDigits(input);
    Dashed(limited)
  }

  /**
   * Filtering the dashed layout with any filter that keeps digits and drops
   * dashes gives back the digits that were laid out.
   */
  lemma DashedFilter(limited: string, keep: char -> bool)
    requires AllDigits(limited)
    requires forall c :: IsDigit(c) ==> keep(c)
    requires !keep('-')
    ensures Filter(Dashed(limited), keep) == limited
  {
    if |limited| <= 3 {
      FilterKeepsAll(limited, keep);
    } else if |limited| <= 5 {
      var a, b := limited[..3], limited[3..];
      assert limited == a + b;
      assert Dashed(limited) == a + "-" + b;
      FilterKeepsAll(a, keep);
      FilterKeepsAll(b, keep);
      FilterSkipsDash(a, b, keep);
    } else {
      var a, b, c := limited[..3], limited[3..5], limited[5..];
      assert limited == a + b + c;
      assert Dashed(limited) == a + "-" + b + "-" + c;
      FilterKeepsAll(a, keep);
      FilterKeepsAll(b, keep);
      FilterKeepsAll(c, keep);
      FilterSkipsDash(a + "-" + b, c, keep);
      FilterSkipsDash(a, b, keep);
    }
  }

  /**
   * Formatting loses no digit and invents none: with the dashes (or all
   * separators, or all non-digits) taken out again, what is left is the first
   * twelve digits of the input.
   */
  lemma FormatDanKeepsDigits(input: string)
    ensures RemoveDashes(FormatDan(input)) == LimitedDigits(input)
    ensures StripSeparators(FormatDan(input)) == LimitedDigits(input)
    ensures KeepDigits(FormatDan(input)) == LimitedDigits(input)
  {
    var limited := LimitedDigits(input);
    assert FormatDan(input) == Dashed(limited);
    DashedFilter(limited, NotDash);
    DashedFilter(limited, NotSeparator);
    DashedFilter(limited, IsDigit);
  }

  /** Formatting already formatted text changes nothing. */
  lemma FormatDanIdempotent(input: string)
    ensures FormatDan(FormatDan(input)) == FormatDan(input)
  {
    var limited := LimitedDigits(input);
    FormatDanKeepsDigits(input);
    assert LimitedDigits(FormatDan(input)) == limited;
  }

  /**
   * The formatted field is a valid DAN exactly when the input held at least
   * twelve digits and the first three are the country code; extra digits are
   * silently dropped.
   */
  lemma ValidateFormatted(input: string)
    ensures ValidateDan(FormatDan(input)) <==>
      |KeepDigits(input)| >= DanLength && KeepDigits(input)[..3] == CountryCode
  {
    FormatDanKeepsDigits(input);
  }

  /** Validation sees through formatting: separators never change the verdict. */
  lemma ValidateIgnoresSeparators(input: string)
    ensures ValidateDan(StripSeparators(input)) == ValidateDan(input)
  {
    var clean := StripSeparators(input);
    FilterKeepsAll(clean, NotSeparator);
  }

  /** A valid DAN, once its separators are gone, is already in the form `formatDAN` lays out. */
  lemma FormatValidDan(input: string)
    requires ValidateDan(input)
    ensures KeepDigits(input) == StripSeparators(input)
    ensures FormatDan(input) == Dashed(StripSeparators(input))
  {
    DigitsOfClean(input);
  }

  /** Where the text without separators is all digits, so is the text's digit filter. */
  lemma {:induction false} DigitsOfClean(input: string)
    ensures AllDigits(StripSeparators(input)) ==> KeepDigits(input) == StripSeparators(input)
    decreases |input|
  {
    if |input| > 0 && AllDigits(StripSeparators(input)) {
      var c, rest := input[0], input[1..];
      var head := if NotSeparator(c) then [c] else "";
      assert StripSeparators(input) == head + StripSeparators(rest);
      assert AllDigits(StripSeparators(rest)) by {
        forall i | 0 <= i < |StripSeparators(rest)|
          ensures IsDigit(StripSeparators(rest)[i])
        {
          assert StripSeparators(rest)[i] == StripSeparators(input)[|head| + i];
        }
      }
      DigitsOfClean(rest);
      if NotSeparator(c) {
        assert StripSeparators(input)[0] == c;
      }
    }
  }
}
