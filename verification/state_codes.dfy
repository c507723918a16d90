/**
 * The client's own state table (`stateCodes.ts`): full state names to
 * two-digit codes. It is a different table from the backend's `STATE_CODES`
 * (different keys, and codes that disagree from "15" onward: the client lists
 * the Federal Capital Territory last, the backend lists it at "15"), so the
 * two are modelled separately.
 */
module StateCodes {
  import opened Wrappers
  import opened JsText
  import Tables

  /** `stateCodes`, in declaration order. */
  const Table: Tables.Entries := [
    ("Abia", "01"), ("Adamawa", "02"), ("Akwa Ibom", "03"), ("Anambra", "04"),
    ("Bauchi", "05"), ("Bayelsa", "06"), ("Benue", "07"), ("Borno", "08"),
    ("Cross River", "09"), ("Delta", "10"), ("Ebonyi", "11"), ("Edo", "12"),
    ("Ekiti", "13"), ("Enugu", "14"), ("Gombe", "15"), ("Imo", "16"),
    ("Jigawa", "17"), ("Kaduna", "18"), ("Kano", "19"), ("Katsina", "20"),
    ("Kebbi", "21"), ("Kogi", "22"), ("Kwara", "23"), ("Lagos", "24"),
    ("Nasarawa", "25"), ("Niger", "26"), ("Ogun", "27"), ("Ondo", "28"),
    ("Osun", "29"), ("Oyo", "30"), ("Plateau", "31"), ("Rivers", "32"),
    ("Sokoto", "33"), ("Taraba", "34"), ("Yobe", "35"), ("Zamfara", "36"),
    ("FCT - Abuja", "37")
  ]

  /**
   * `getStateCode`: `stateCodes[stateName]`, an exact, case-sensitive match
   * on the name; `GetStateCodeIsLookup` proves it is the lookup in `Table`.
   */
  function GetStateCode(stateName: string): (r: Option<string>)
    ensures r.Some? ==> |r.value| == 2 && IsDigit(r.value[0]) && IsDigit(r.value[1])
  {
    match stateName
    case "Abia" => Some("01") case "Adamawa" => Some("02") case "Akwa Ibom" => Some("03")
    case "Anambra" => Some("04") case "Bauchi" => Some("05") case "Bayelsa" => Some("06")
    case "Benue" => Some("07") case "Borno" => Some("08") case "Cross River" => Some("09")
    case "Delta" => Some("10") case "Ebonyi" => Some("11") case "Edo" => Some("12")
    case "Ekiti" => Some("13") case "Enugu" => Some("14") case "Gombe" => Some("15")
    case "Imo" => Some("16") case "Jigawa" => Some("17") case "Kaduna" => Some("18")
    case "Kano" => Some("19") case "Katsina" => Some("20") case "Kebbi" => Some("21")
    case "Kogi" => Some("22") case "Kwara" => Some("23") case "Lagos" => Some("24")
    case "Nasarawa" => Some("25") case "Niger" => Some("26") case "Ogun" => Some("27")
    case "Ondo" => Some("28") case "Osun" => Some("29") case "Oyo" => Some("30")
    case "Plateau" => Some("31") case "Rivers" => Some("32") case "Sokoto" => Some("33")
    case "Taraba" => Some("34") case "Yobe" => Some("35") case "Zamfara" => Some("36")
    case "FCT - Abuja" => Some("37")
    case _ => None
  }

  /**
   * `getStateName`: the first name, in declaration order, whose code is
   * `stateCode`, written out as a match on the code; `GetStateNameIsFind`
   * proves it is that search.
   */
  function GetStateName(stateCode: string): (r: Option<string>)
    ensures r.Some? ==> |stateCode| == 2 && IsDigit(stateCode[0]) && IsDigit(stateCode[1])
  {
    match stateCode
    case "01" => Some("Abia") case "02" => Some("Adamawa") case "03" => Some("Akwa Ibom")
    case "04" => Some("Anambra") case "05" => Some("Bauchi") case "06" => Some("Bayelsa")
    case "07" => Some("Benue") case "08" => Some("Borno") case "09" => Some("Cross River")
    case "10" => Some("Delta") case "11" => Some("Ebonyi") case "12" => Some("Edo")
    case "13" => Some("Ekiti") case "14" => Some("Enugu") case "15" => Some("Gombe")
    case "16" => Some("Imo") case "17" => Some("Jigawa") case "18" => Some("Kaduna")
    case "19" => Some("Kano") case "20" => Some("Katsina") case "21" => Some("Kebbi")
    case "22" => Some("Kogi") case "23" => Some("Kwara") case "24" => Some("Lagos")
    case "25" => Some("Nasarawa") case "26" => Some("Niger") case "27" => Some("Ogun")
    case "28" => Some("Ondo") case "29" => Some("Osun") case "30" => Some("Oyo")
    case "31" => Some("Plateau") case "32" => Some("Rivers") case "33" => Some("Sokoto")
    case "34" => Some("Taraba") case "35" => Some("Yobe") case "36" => Some("Zamfara")
    case "37" => Some("FCT - Abuja")
    case _ => None
  }

  /** The table holds 37 states whose codes run "01", "02", … "37" in order. */
  lemma TableShape()
    ensures |Table| == 37
    ensures forall i | 0 <= i < |Table| :: Table[i].1 == Tables.TwoDigitCode(i + 1)
  {
    TableShapeLow();
    TableShapeHigh();
  }

  lemma TableShapeLow()
    ensures forall i | 0 <= i < 18 :: Table[i].1 == Tables.TwoDigitCode(i + 1)
  {
  }

  lemma TableShapeHigh()
    ensures forall i | 18 <= i < 37 :: Table[i].1 == Tables.TwoDigitCode(i + 1)
  {
  }

  /** Every code is a two-digit decimal string. */
  lemma CodesAreTwoDigits()
    ensures forall i | 0 <= i < |Table| :: |Table[i].1| == 2 && AllDigits(Table[i].1)
  {
    TableShape();
  }

  /**
   * No two of the 37 state names are equal. The proof is split by the row of
   * the earlier name to keep each proof small.
   */
  lemma NamesDistinctRows0To2()
    ensures forall i, j | 0 <= i < 3 && i < j < |Table| :: Table[i].0 != Table[j].0
  {
  }

  lemma NamesDistinctRows3To5()
    ensures forall i, j | 3 <= i < 6 && i < j < |Table| :: Table[i].0 != Table[j].0
  {
  }

  lemma NamesDistinctRows6To11()
    ensures forall i, j | 6 <= i < 12 && i < j < |Table| :: Table[i].0 != Table[j].0
  {
  }

  lemma NamesDistinctRows12To17()
    ensures forall i, j | 12 <= i < 18 && i < j < |Table| :: Table[i].0 != Table[j].0
  {
  }

  lemma NamesDistinctRows18To36()
    ensures forall i, j | 18 <= i < j < |Table| :: Table[i].0 != Table[j].0
  {
  }

  lemma NamesDistinct()
    ensures Tables.DistinctKeys(Table)
  {
    NamesDistinctRows0To2();
    NamesDistinctRows3To5();
    NamesDistinctRows6To11();
    NamesDistinctRows12To17();
    NamesDistinctRows18To36();
  }

  lemma CodesDistinct()
    ensures Tables.DistinctValues(Table)
  {
    TableShape();
    forall i, j | 0 <= i < j < |Table|
      ensures Table[i].1 != Table[j].1
    {
      Tables.TwoDigitCodeInjective(i + 1, j + 1);
    }
  }

  /** Every entry of the table is found by both lookups. */
  lemma GetStateCodeFindsEntries()
    ensures forall i | 0 <= i < |Table| :: GetStateCode(Table[i].0) == Some(Table[i].1)
  {
  }

  lemma GetStateNameFindsEntries()
    ensures forall i | 0 <= i < |Table| :: GetStateName(Table[i].1) == Some(Table[i].0)
  {
  }

  /** Both lookups only ever yield an entry of the table. */
  lemma GetStateCodeOnlyEntries(stateName: string)
    ensures GetStateCode(stateName).Some? ==> (stateName, GetStateCode(stateName).value) in Table
  {
  }

  lemma GetStateNameOnlyEntries(stateCode: string)
    ensures GetStateName(stateCode).Some? ==> (GetStateName(stateCode).value, stateCode) in Table
  {
  }

  /** `GetStateCode` is the object lookup `stateCodes[stateName]` over the table's entries. */
  lemma GetStateCodeIsLookup(stateName: string)
    ensures GetStateCode(stateName) == Tables.ValueOf(Table, stateName)
  {
    NamesDistinct();
    GetStateCodeFindsEntries();
    GetStateCodeOnlyEntries(stateName);
    Tables.ValueOfAgrees(Table, GetStateCode, stateName);
  }

  /** `GetStateName` is the search `Object.keys(stateCodes).find(…)` for the code. */
  lemma GetStateNameIsFind(stateCode: string)
    ensures GetStateName(stateCode) == Tables.KeyOf(Table, stateCode)
  {
    CodesDistinct();
    GetStateNameFindsEntries();
    GetStateNameOnlyEntries(stateCode);
    Tables.KeyOfAgrees(Table, GetStateName, stateCode);
  }

  /** `getStateCode` finds a name exactly when the table lists that very name, and gives its code. */
  lemma GetStateCodeExact(stateName: string)
    ensures GetStateCode(stateName).Some? <==> exists i | 0 <= i < |Table| :: Table[i].0 == stateName
    ensures forall i | 0 <= i < |Table| && Table[i].0 == stateName :: GetStateCode(stateName) == Some(Table[i].1)
  {
    GetStateCodeFindsEntries();
    GetStateCodeOnlyEntries(stateName);
    if GetStateCode(stateName).Some? {
      var i :| 0 <= i < |Table| && Table[i] == (stateName, GetStateCode(stateName).value);
    }
  }

  /** Looking a listed name up and its code back gives the name. */
  lemma NameRoundTrip(stateName: string)
    requires GetStateCode(stateName).Some?
    ensures GetStateName(GetStateCode(stateName).value) == Some(stateName)
  {
    GetStateNameFindsEntries();
    GetStateCodeOnlyEntries(stateName);
    var i :| 0 <= i < |Table| && Table[i] == (stateName, GetStateCode(stateName).value);
  }

  /** Looking a listed code's name up and its name back gives the code. */
  lemma CodeRoundTrip(stateCode: string)
    requires GetStateName(stateCode).Some?
    ensures GetStateCode(GetStateName(stateCode).value) == Some(stateCode)
  {
    GetStateCodeFindsEntries();
    GetStateNameOnlyEntries(stateCode);
    var i :| 0 <= i < |Table| && Table[i] == (GetStateName(stateCode).value, stateCode);
  }

  /** The codes that resolve are exactly "01" to "37". */
  lemma KnownCodes(stateCode: string)
    ensures GetStateName(stateCode).Some? <==>
      exists n | 1 <= n <= 37 :: stateCode == Tables.TwoDigitCode(n)
  {
    TableShape();
    GetStateNameFindsEntries();
    if GetStateName(stateCode).Some? {
      GetStateNameOnlyEntries(stateCode);
      var i :| 0 <= i < |Table| && Table[i] == (GetStateName(stateCode).value, stateCode);
      assert stateCode == Tables.TwoDigitCode(i + 1);
    }
    if n :| 1 <= n <= 37 && stateCode == Tables.TwoDigitCode(n) {
      assert Table[n - 1].1 == stateCode;
    }
  }

  /** A two-digit string that denotes no number from 1 to 37 does not resolve. */
  lemma CodeOutsideRange(stateCode: string)
    requires |stateCode| == 2 && AllDigits(stateCode)
    requires DecimalValue(stateCode) == 0 || DecimalValue(stateCode) > 37
    ensures GetStateName(stateCode) == None
  {
    KnownCodes(stateCode);
  }

  /** "00" and "99" are two-digit strings the table does not know. */
  lemma UnknownCodes()
    ensures GetStateName("00") == None
    ensures GetStateName("99") == None
  {
  }

  /** The lookup is case-sensitive: "Lagos" resolves to "24" and "lagos" does not resolve. */
  lemma LookupIsCaseSensitive()
    ensures GetStateCode("Lagos") == Some("24")
    ensures GetStateCode("lagos") == None
  {
  }
}
