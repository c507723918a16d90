/**
 * The layout the backend and the client both give a Digital Access Number:
 * twelve decimal digits, `234 · two-digit state code · seven-digit location field`.
 */
module DanLayout {
  import opened JsText

  /** Nigeria's calling code, which every DAN starts with. */
  const CountryCode: string := "234"

  /** A DAN is twelve digits once formatting is removed. */
  const DanLength: nat := 12

  /** A DAN assembled from a two-digit state code and a seven-digit field is twelve digits that split back into its parts. */
  lemma Assembled(stateCode: string, field: string)
    requires |stateCode| == 2 && AllDigits(stateCode)
    requires |field| == 7 && AllDigits(field)
    ensures var dan := CountryCode + stateCode + field;
      && |dan| == DanLength && AllDigits(dan)
      && dan[..3] == CountryCode && dan[3..5] == stateCode && dan[5..] == field
  {
    DigitsConcat(CountryCode, stateCode, field);
  }
}
