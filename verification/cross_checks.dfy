/**
 * How the client and the backend fit together: the client's validation and
 * formatting against the backend's decoder, and the client's state table and
 * generator against the backend's.
 */
module CrossChecks {
  import opened Wrappers
  import opened JsText
  import Tables
  import Geo
  import DanService
  import StateCodes
  import DanGenerator
  import HomeScreen

  /** A string of twelve digits starting with the country code passes the client's check. */
  lemma DigitsPassValidation(dan: string)
    requires |dan| == 12 && AllDigits(dan) && dan[..3] == "234"
    ensures HomeScreen.ValidateDan(dan)
  {
    DigitsHaveNoSeparators(dan);
  }

  /** Both the plain and the formatted DAN the backend generates pass the client's check. */
  lemma BackendDansValidate(fp: DanService.Footprint)
    requires DanService.GenerateDan(fp).Success?
    ensures HomeScreen.ValidateDan(DanService.GenerateDan(fp).value.dan)
    ensures HomeScreen.ValidateDan(DanService.GenerateDan(fp).value.formatted)
  {
    var g := DanService.GenerateDan(fp).value;
    DanService.GeneratedDanShape(fp);
    DanService.FormattedCarriesDigits(g.dan);
    DigitsPassValidation(g.dan);
  }

  /** Every DAN the client generator produces passes the client's check. */
  lemma ClientDansValidate(
    latitude: real, longitude: real, stateCode: string,
    toFixed6: real -> string, checksum: string -> nat)
    requires DanGenerator.GenerateDan(latitude, longitude, stateCode, toFixed6, checksum).Success?
    ensures HomeScreen.ValidateDan(DanGenerator.GenerateDan(latitude, longitude, stateCode, toFixed6, checksum).value)
  {
    DigitsPassValidation(DanGenerator.GenerateDan(latitude, longitude, stateCode, toFixed6, checksum).value);
  }

  /**
   * The digit-checking decoder accepts exactly what the client's check lets
   * through, provided the state code is one the backend knows.
   */
  lemma StrictDecodeMatchesValidation(dan: string, store: string -> Option<Geo.Coord>)
    ensures DanService.DecodeStrict(dan, store).Success? <==>
      HomeScreen.ValidateDan(dan) && DanService.StateOf(StripSeparators(dan)[3..5]).Some?
  {
  }

  /** For a valid DAN, the client's field format and the backend's formatted DAN coincide. */
  lemma FormatsAgree(dan: string)
    requires HomeScreen.ValidateDan(dan)
    ensures HomeScreen.FormatDan(dan) == DanService.Formatted(StripSeparators(dan))
  {
    HomeScreen.FormatValidDan(dan);
  }

  /** What the backend decodes for a valid DAN is formatted as the client's field shows it. */
  lemma DecodedFormatMatchesField(dan: string, store: string -> Option<Geo.Coord>)
    requires DanService.Decode(dan, store).Success?
    requires HomeScreen.ValidateDan(dan)
    ensures DanService.Decode(dan, store).value.formatted == HomeScreen.FormatDan(dan)
  {
    DanService.DecodeAgreesWithTable(dan, store);
    FormatsAgree(dan);
  }

  /** The backend's table knows no code outside "01" to "37". */
  lemma BackendCodeRange(code: string)
    requires DanService.StateOf(code).Some?
    ensures exists n | 1 <= n <= 37 :: code == Tables.TwoDigitCode(n)
  {
    DanService.StateCodesShape();
    DanService.StateOfOnlyEntries(code);
    var i :| 0 <= i < |DanService.StateCodes| && DanService.StateCodes[i] == (DanService.StateOf(code).value, code);
    assert code == Tables.TwoDigitCode(i + 1);
  }

  /** The backend does not know code "99". */
  lemma BackendRejectsNinetyNine()
    ensures DanService.StateOf("99") == None
  {
  }

  /**
   * The client generator takes any two digits, so it can produce a DAN for
   * code "99" that passes the client's check but that the backend refuses.
   */
  lemma UnlistedCodeRejectedByBackend(
    latitude: real, longitude: real,
    toFixed6: real -> string, checksum: string -> nat, store: string -> Option<Geo.Coord>)
    ensures var r := DanGenerator.GenerateDan(latitude, longitude, "99", toFixed6, checksum);
      && r.Success?
      && HomeScreen.ValidateDan(r.value)
      && DanService.Decode(r.value, store) == Failure(DanService.InvalidStateCode("99"))
  {
    var r := DanGenerator.GenerateDan(latitude, longitude, "99", toFixed6, checksum);
    DanGenerator.AcceptsUnlistedCode(latitude, longitude, toFixed6, checksum);
    ClientDansValidate(latitude, longitude, "99", toFixed6, checksum);
    DigitsHaveNoSeparators(r.value);
    BackendRejectsNinetyNine();
  }

  /** The backend's code "24" is Kwara's. */
  lemma KwaraByCode()
    ensures DanService.StateOf("24") == Some("KW")
  {
  }

  /**
   * The two tables number the states differently: the client gives Lagos
   * "24", the backend gives Lagos ("LA") "25" and reads "24" as Kwara.
   */
  lemma TablesDisagreeOnLagos()
    ensures StateCodes.GetStateCode("Lagos") == Some("24")
    ensures DanService.CodeOf("LA") == Some("25")
    ensures DanService.StateOf("24") == Some("KW")
  {
    StateCodes.LookupIsCaseSensitive();
    DanService.LagosByCode();
    DanService.StateTableRoundTrips("", "25");
    KwaraByCode();
  }

  /**
   * Where the numbering parts: both tables give "14" to Enugu, but "15" is
   * Gombe for the client and the Federal Capital Territory for the backend,
   * which moves Gombe to "16"; the client puts the capital territory last.
   */
  lemma TablesPartAtFifteen()
    ensures StateCodes.GetStateName("14") == Some("Enugu") && DanService.StateOf("14") == Some("EN")
    ensures StateCodes.GetStateName("15") == Some("Gombe") && DanService.StateOf("15") == Some("FC")
    ensures StateCodes.GetStateCode("Gombe") == Some("15") && DanService.CodeOf("GO") == Some("16")
    ensures StateCodes.GetStateCode("FCT - Abuja") == Some("37") && DanService.StateOf("37") == Some("ZA")
  {
  }

  /**
   * A DAN the client generates with its Lagos code "24" (see
   * `TablesDisagreeOnLagos`) is decoded by the backend as a Kwara address.
   */
  lemma ClientLagosDecodesAsKwara(
    latitude: real, longitude: real,
    toFixed6: real -> string, checksum: string -> nat, store: string -> Option<Geo.Coord>)
    ensures var r := DanGenerator.GenerateDan(latitude, longitude, "24", toFixed6, checksum);
      && r.Success?
      && DanService.Decode(r.value, store).Success?
      && DanService.Decode(r.value, store).value.state == "KW"
  {
    assert DanGenerator.IsTwoDigitCode("24") by {
      assert "24"[0] == '2' && "24"[1] == '4';
    }
    var dan := DanGenerator.GenerateDan(latitude, longitude, "24", toFixed6, checksum).value;
    assert dan[3..5] == "24";
    KwaraByCode();
    DecodedState(dan, store);
  }

  /** A twelve-digit DAN with the country code and a code the backend knows decodes to that code's state. */
  lemma DecodedState(dan: string, store: string -> Option<Geo.Coord>)
    requires |dan| == 12 && AllDigits(dan) && dan[..3] == "234"
    requires DanService.StateOf(dan[3..5]).Some?
    ensures DanService.Decode(dan, store).Success?
    ensures DanService.Decode(dan, store).value.state == DanService.StateOf(dan[3..5]).value
  {
    DigitsHaveNoSeparators(dan);
    DanService.DecodeClean(dan, store);
  }
}
