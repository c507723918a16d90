/**
 * The backend's grid address codec (`DANService`): a building footprint and a
 * state abbreviation become a 12-digit Digital Access Number
 * `234 · state code · 7-digit cell index`, and a DAN becomes the state and
 * either a stored coordinate or the lower corner of its grid cell.
 *
 * Coordinates are exact reals; the database lookup is the `store` oracle.
 */
module DanService {
  import opened Wrappers
  import opened JsText
  import opened DanLayout
  import opened Geo
  import Tables

  // ---------------------------------------------------------------------------
  // Constants
  // ---------------------------------------------------------------------------

  /** `STATE_CODES`: state abbreviation to two-digit code, in declaration order. */
  const StateCodes: Tables.Entries := [
    ("AB", "01"), ("AD", "02"), ("AK", "03"), ("AN", "04"), ("BA", "05"),
    ("BY", "06"), ("BE", "07"), ("BO", "08"), ("CR", "09"), ("DE", "10"),
    ("EB", "11"), ("ED", "12"), ("EK", "13"), ("EN", "14"), ("FC", "15"),
    ("GO", "16"), ("IM", "17"), ("JI", "18"), ("KD", "19"), ("KN", "20"),
    ("KT", "21"), ("KE", "22"), ("KO", "23"), ("KW", "24"), ("LA", "25"),
    ("NA", "26"), ("NI", "27"), ("OG", "28"), ("ON", "29"), ("OS", "30"),
    ("OY", "31"), ("PL", "32"), ("RI", "33"), ("SO", "34"), ("TA", "35"),
    ("YO", "36"), ("ZA", "37")
  ]

  /** `NIGERIA_BOUNDS` */
  const MinLat: real := 4.2
  const MaxLat: real := 13.9
  const MinLon: real := 2.7
  const MaxLon: real := 14.7

  /** The grid has `LatSteps + 1` rows and `LonSteps + 1` columns. */
  const LatSteps: nat := 9999
  const LonSteps: nat := 999
  /** A cell index is `latInt * CellBase + lonInt`. */
  const CellBase: nat := 1000

  // ---------------------------------------------------------------------------
  // Data
  // ---------------------------------------------------------------------------

  /** `BuildingFootprint`: a ring of `[lon, lat, …]` entries and a state abbreviation. */
  datatype Footprint = Footprint(coordinates: seq<seq<real>>, state: string)

  datatype DanResult = DanResult(dan: string, formatted: string, centroid: Coord, state: string, stateCode: string)

  /** A decoded coordinate pair; `NotANumber` is the pair of `NaN`s `parseInt` failure leads to. */
  datatype DecodedCoord = Finite(coord: Coord) | NotANumber

  datatype DecodeResult = DecodeResult(
    dan: string, formatted: string, coordinates: DecodedCoord, state: string, stateCode: string)

  /**
   * The errors the codec throws. `InvalidStateCode` is thrown both for an
   * unknown state name and for an unknown code in a DAN, with that text.
   */
  datatype DanError =
    | InvalidStateCode(given: string)
    | InvalidCoordinates
    | NoValidCoordinates
    | InvalidDanFormat

  // ---------------------------------------------------------------------------
  // State table
  // ---------------------------------------------------------------------------

  /**
   * `STATE_CODES[name]`, written out as a match on the name so that the
   * verifier evaluates it directly; `CodeOfIsLookup` proves it is the lookup
   * in `StateCodes`.
   */
  function CodeOf(name: string): (r: Option<string>)
    ensures r.Some? ==> |name| == 2 && |r.value| == 2 && IsDigit(r.value[0]) && IsDigit(r.value[1])
  {
    match name
    case "AB" => Some("01") case "AD" => Some("02") case "AK" => Some("03") case "AN" => Some("04") case "BA" => Some("05")
    case "BY" => Some("06") case "BE" => Some("07") case "BO" => Some("08") case "CR" => Some("09") case "DE" => Some("10")
    case "EB" => Some("11") case "ED" => Some("12") case "EK" => Some("13") case "EN" => Some("14") case "FC" => Some("15")
    case "GO" => Some("16") case "IM" => Some("17") case "JI" => Some("18") case "KD" => Some("19") case "KN" => Some("20")
    case "KT" => Some("21") case "KE" => Some("22") case "KO" => Some("23") case "KW" => Some("24") case "LA" => Some("25")
    case "NA" => Some("26") case "NI" => Some("27") case "OG" => Some("28") case "ON" => Some("29") case "OS" => Some("30")
    case "OY" => Some("31") case "PL" => Some("32") case "RI" => Some("33") case "SO" => Some("34") case "TA" => Some("35")
    case "YO" => Some("36") case "ZA" => Some("37")
    case _ => None
  }

  /**
   * The state of the first `STATE_CODES` entry whose code is `code`, written
   * out as a match on the code; `StateOfIsFind` proves it is that search.
   */
  function StateOf(code: string): (r: Option<string>)
    ensures r.Some? ==> |code| == 2 && IsDigit(code[0]) && IsDigit(code[1]) && |r.value| == 2
  {
    match code
    case "01" => Some("AB") case "02" => Some("AD") case "03" => Some("AK") case "04" => Some("AN") case "05" => Some("BA")
    case "06" => Some("BY") case "07" => Some("BE") case "08" => Some("BO") case "09" => Some("CR") case "10" => Some("DE")
    case "11" => Some("EB") case "12" => Some("ED") case "13" => Some("EK") case "14" => Some("EN") case "15" => Some("FC")
    case "16" => Some("GO") case "17" => Some("IM") case "18" => Some("JI") case "19" => Some("KD") case "20" => Some("KN")
    case "21" => Some("KT") case "22" => Some("KE") case "23" => Some("KO") case "24" => Some("KW") case "25" => Some("LA")
    case "26" => Some("NA") case "27" => Some("NI") case "28" => Some("OG") case "29" => Some("ON") case "30" => Some("OS")
    case "31" => Some("OY") case "32" => Some("PL") case "33" => Some("RI") case "34" => Some("SO") case "35" => Some("TA")
    case "36" => Some("YO") case "37" => Some("ZA")
    case _ => None
  }

  /** The table holds 37 states whose codes run "01", "02", … "37" in order. */
  lemma StateCodesShape()
    ensures |StateCodes| == 37
    ensures forall i | 0 <= i < |StateCodes| :: StateCodes[i].1 == Tables.TwoDigitCode(i + 1)
  {
    StateCodesShapeLow();
    StateCodesShapeHigh();
  }

  lemma StateCodesShapeLow()
    ensures forall i | 0 <= i < 18 :: StateCodes[i].1 == Tables.TwoDigitCode(i + 1)
  {
  }

  lemma StateCodesShapeHigh()
    ensures forall i | 18 <= i < 37 :: StateCodes[i].1 == Tables.TwoDigitCode(i + 1)
  {
  }

  /**
   * No two of the 37 state names are equal. The proof is split by the row of
   * the earlier name to keep each proof small.
   */
  lemma StateNamesDistinctRows0To2()
    ensures forall i, j | 0 <= i < 3 && i < j < |StateCodes| :: StateCodes[i].0 != StateCodes[j].0
  {
  }

  lemma StateNamesDistinctRows3To5()
    ensures forall i, j | 3 <= i < 6 && i < j < |StateCodes| :: StateCodes[i].0 != StateCodes[j].0
  {
  }

  lemma StateNamesDistinctRows6To11()
    ensures forall i, j | 6 <= i < 12 && i < j < |StateCodes| :: StateCodes[i].0 != StateCodes[j].0
  {
  }

  lemma StateNamesDistinctRows12To17()
    ensures forall i, j | 12 <= i < 18 && i < j < |StateCodes| :: StateCodes[i].0 != StateCodes[j].0
  {
  }

  lemma StateNamesDistinctRows18To36()
    ensures forall i, j | 18 <= i < j < |StateCodes| :: StateCodes[i].0 != StateCodes[j].0
  {
  }

  lemma StateNamesDistinct()
    ensures Tables.DistinctKeys(StateCodes)
  {
    StateNamesDistinctRows0To2();
    StateNamesDistinctRows3To5();
    StateNamesDistinctRows6To11();
    StateNamesDistinctRows12To17();
    StateNamesDistinctRows18To36();
  }

  lemma StateCodesDistinct()
    ensures Tables.DistinctKeys(StateCodes)
    ensures Tables.DistinctValues(StateCodes)
  {
    StateNamesDistinct();
    StateCodesShape();
    forall i, j | 0 <= i < j < |StateCodes|
      ensures StateCodes[i].1 != StateCodes[j].1
    {
      Tables.TwoDigitCodeInjective(i + 1, j + 1);
    }
  }

  /** Every entry of the table is found by both lookups. */
  lemma CodeOfFindsEntries()
    ensures forall i | 0 <= i < |StateCodes| :: CodeOf(StateCodes[i].0) == Some(StateCodes[i].1)
  {
  }

  lemma StateOfFindsEntries()
    ensures forall i | 0 <= i < |StateCodes| :: StateOf(StateCodes[i].1) == Some(StateCodes[i].0)
  {
  }

  /** Both lookups only ever yield an entry of the table. */
  lemma CodeOfOnlyEntries(name: string)
    ensures CodeOf(name).Some? ==> (name, CodeOf(name).value) in StateCodes
  {
  }

  lemma StateOfOnlyEntries(code: string)
    ensures StateOf(code).Some? ==> (StateOf(code).value, code) in StateCodes
  {
  }

  /** `CodeOf` is the object lookup `STATE_CODES[name]` over the table's entries. */
  lemma CodeOfIsLookup(name: string)
    ensures CodeOf(name) == Tables.ValueOf(StateCodes, name)
  {
    StateNamesDistinct();
    CodeOfFindsEntries();
    CodeOfOnlyEntries(name);
    Tables.ValueOfAgrees(StateCodes, CodeOf, name);
  }

  /** `StateOf` is the search `Object.entries(STATE_CODES).find(…)` for the code. */
  lemma StateOfIsFind(code: string)
    ensures StateOf(code) == Tables.KeyOf(StateCodes, code)
  {
    StateCodesDistinct();
    StateOfFindsEntries();
    StateOfOnlyEntries(code);
    Tables.KeyOfAgrees(StateCodes, StateOf, code);
  }

  /** Every code the table yields is two decimal digits, between "01" and "37". */
  lemma CodeOfIsTwoDigits(name: string)
    requires CodeOf(name).Some?
    ensures |CodeOf(name).value| == 2 && AllDigits(CodeOf(name).value)
    ensures 1 <= DecimalValue(CodeOf(name).value) <= 37
  {
    StateCodesShape();
    CodeOfOnlyEntries(name);
    var i :| 0 <= i < |StateCodes| && StateCodes[i] == (name, CodeOf(name).value);
    assert CodeOf(name).value == Tables.TwoDigitCode(i + 1);
  }

  /** Reverse lookup names the state whose forward lookup gives the code back, and conversely. */
  lemma StateTableRoundTrips(name: string, code: string)
    ensures CodeOf(name).Some? ==> StateOf(CodeOf(name).value) == Some(name)
    ensures StateOf(code).Some? ==> CodeOf(StateOf(code).value) == Some(code)
  {
    CodeOfFindsEntries();
    StateOfFindsEntries();
    if CodeOf(name).Some? {
      CodeOfOnlyEntries(name);
      var i :| 0 <= i < |StateCodes| && StateCodes[i] == (name, CodeOf(name).value);
    }
    if StateOf(code).Some? {
      StateOfOnlyEntries(code);
      var i :| 0 <= i < |StateCodes| && StateCodes[i] == (StateOf(code).value, code);
    }
  }

  // ---------------------------------------------------------------------------
  // Centroid
  // ---------------------------------------------------------------------------

  /** An entry the centroid uses: one with at least a longitude and a latitude. */
  predicate IsPair(e: seq<real>) {
    |e| >= 2
  }

  ghost predicate HasPair(cs: seq<seq<real>>) {
    exists i | 0 <= i < |cs| :: IsPair(cs[i])
  }

  /** The number of entries with at least two components. */
  function PairCount(cs: seq<seq<real>>): (n: nat)
    ensures n <= |cs|
    ensures n > 0 <==> HasPair(cs)
  {
    if |cs| == 0 then 0
    else
      var init := cs[..|cs| - 1];
      assert forall i | 0 <= i < |init| :: init[i] == cs[i];
      PairCount(init) + if IsPair(cs[|cs| - 1]) then 1 else 0
  }

  /** The sum of component `k` (0 = longitude, 1 = latitude) over those entries. */
  function PairSum(cs: seq<seq<real>>, k: nat): real
    requires k < 2
  {
    if |cs| == 0 then 0.0
    else PairSum(cs[..|cs| - 1], k) + if IsPair(cs[|cs| - 1]) then cs[|cs| - 1][k] else 0.0
  }

  /** `calculateCentroid`: the plain mean of the `[lon, lat]` entries, shorter entries skipped. */
  function CalculateCentroid(cs: seq<seq<real>>): (r: Result<Coord, DanError>)
    ensures |cs| == 0 ==> r == Failure(InvalidCoordinates)
    ensures |cs| > 0 && !HasPair(cs) ==> r == Failure(NoValidCoordinates)
    ensures r.Success? <==> HasPair(cs)
  {
    if |cs| == 0 then Failure(InvalidCoordinates)
    else
      var count := PairCount(cs);
      if count == 0 then Failure(NoValidCoordinates)
      else Success(Coord(PairSum(cs, 1) / count as real, PairSum(cs, 0) / count as real))
  }

  lemma {:induction false} PairsAppend(a: seq<seq<real>>, b: seq<seq<real>>)
    ensures PairCount(a + b) == PairCount(a) + PairCount(b)
    ensures PairSum(a + b, 0) == PairSum(a, 0) + PairSum(b, 0)
    ensures PairSum(a + b, 1) == PairSum(a, 1) + PairSum(b, 1)
    decreases |b|
  {
    if |b| == 0 {
      assert a + b == a;
    } else {
      assert (a + b)[..|a + b| - 1] == a + b[..|b| - 1];
      PairsAppend(a, b[..|b| - 1]);
    }
  }

  /** A short entry, wherever it sits in a non-empty list, does not move the centroid. */
  lemma CentroidIgnoresShortEntry(a: seq<seq<real>>, e: seq<real>, b: seq<seq<real>>)
    requires |e| < 2
    requires |a + b| > 0
    ensures CalculateCentroid(a + [e] + b) == CalculateCentroid(a + b)
  {
    PairsAppend(a, [e]);
    PairsAppend(a + [e], b);
    PairsAppend(a, b);
    assert PairCount([e]) == 0 && PairSum([e], 0) == 0.0 && PairSum([e], 1) == 0.0 by {
      assert [e][..0] == [];
    }
  }

  /** The sum of `cs[i][k] - m` over the pairs: how far the pairs sit above `m` in total. */
  function Excess(cs: seq<seq<real>>, k: nat, m: real): real
    requires k < 2
  {
    if |cs| == 0 then 0.0
    else Excess(cs[..|cs| - 1], k, m) + if IsPair(cs[|cs| - 1]) then cs[|cs| - 1][k] - m else 0.0
  }

  lemma {:induction false} ExcessIsSumMinusMean(cs: seq<seq<real>>, k: nat, m: real)
    requires k < 2
    ensures Excess(cs, k, m) == PairSum(cs, k) - m * PairCount(cs) as real
  {
    ExcessIsSumMinusTimes(cs, k, m);
    TimesIsProduct(PairCount(cs), m);
  }

  /** `n` copies of `m` added up, the product written without multiplication. */
  function Times(n: nat, m: real): real {
    if n == 0 then 0.0 else Times(n - 1, m) + m
  }

  lemma {:induction false} TimesIsProduct(n: nat, m: real)
    ensures Times(n, m) == m * n as real
  {
    if n > 0 {
      TimesIsProduct(n - 1, m);
      assert m * n as real == m * (n - 1) as real + m;
    }
  }

  lemma {:induction false} ExcessIsSumMinusTimes(cs: seq<seq<real>>, k: nat, m: real)
    requires k < 2
    ensures Excess(cs, k, m) == PairSum(cs, k) - Times(PairCount(cs), m)
    decreases |cs|
  {
    if |cs| > 0 {
      ExcessIsSumMinusTimes(cs[..|cs| - 1], k, m);
      LastEntry(cs, k, m);
    }
  }

  /** The excess, the sum and the count of a list, each split at its last entry. */
  lemma LastEntry(cs: seq<seq<real>>, k: nat, m: real)
    requires k < 2 && |cs| > 0
    ensures var init, last := cs[..|cs| - 1], cs[|cs| - 1];
      if IsPair(last) then
        && Excess(cs, k, m) == Excess(init, k, m) + (last[k] - m)
        && PairSum(cs, k) == PairSum(init, k) + last[k]
        && PairCount(cs) == PairCount(init) + 1
      else
        && Excess(cs, k, m) == Excess(init, k, m)
        && PairSum(cs, k) == PairSum(init, k)
        && PairCount(cs) == PairCount(init)
  {
  }

  /** If every pair sits strictly above `m`, the excess is positive (given one pair). */
  lemma {:induction false} ExcessPositive(cs: seq<seq<real>>, k: nat, m: real)
    requires k < 2
    requires forall i | 0 <= i < |cs| && IsPair(cs[i]) :: cs[i][k] > m
    ensures Excess(cs, k, m) >= 0.0
    ensures PairCount(cs) > 0 ==> Excess(cs, k, m) > 0.0
    decreases |cs|
  {
    if |cs| > 0 {
      var init := cs[..|cs| - 1];
      assert forall i | 0 <= i < |init| :: init[i] == cs[i];
      ExcessPositive(init, k, m);
    }
  }

  /** If every pair sits strictly below `m`, the excess is negative (given one pair). */
  lemma {:induction false} ExcessNegative(cs: seq<seq<real>>, k: nat, m: real)
    requires k < 2
    requires forall i | 0 <= i < |cs| && IsPair(cs[i]) :: cs[i][k] < m
    ensures Excess(cs, k, m) <= 0.0
    ensures PairCount(cs) > 0 ==> Excess(cs, k, m) < 0.0
    decreases |cs|
  {
    if |cs| > 0 {
      var init := cs[..|cs| - 1];
      assert forall i | 0 <= i < |init| :: init[i] == cs[i];
      ExcessNegative(init, k, m);
    }
  }

  /** The mean of component `k` leaves no excess. */
  lemma MeanHasNoExcess(cs: seq<seq<real>>, k: nat)
    requires k < 2 && PairCount(cs) > 0
    ensures Excess(cs, k, PairSum(cs, k) / PairCount(cs) as real) == 0.0
  {
    var c := PairCount(cs) as real;
    var m := PairSum(cs, k) / c;
    assert m * c == PairSum(cs, k);
    ExcessIsSumMinusMean(cs, k, m);
  }

  /** The mean of component `k` is reached from below and from above by some pair. */
  lemma MeanBetweenExtremes(cs: seq<seq<real>>, k: nat)
    requires k < 2 && PairCount(cs) > 0
    ensures exists i | 0 <= i < |cs| && IsPair(cs[i]) :: cs[i][k] <= PairSum(cs, k) / PairCount(cs) as real
    ensures exists i | 0 <= i < |cs| && IsPair(cs[i]) :: cs[i][k] >= PairSum(cs, k) / PairCount(cs) as real
  {
    var m := PairSum(cs, k) / PairCount(cs) as real;
    MeanHasNoExcess(cs, k);
    if forall i | 0 <= i < |cs| && IsPair(cs[i]) :: cs[i][k] > m {
      ExcessPositive(cs, k, m);
    }
    if forall i | 0 <= i < |cs| && IsPair(cs[i]) :: cs[i][k] < m {
      ExcessNegative(cs, k, m);
    }
  }

  /**
   * The centroid lies between the smallest and the largest latitude, and
   * between the smallest and the largest longitude, of the entries it uses.
   */
  lemma CentroidBetweenExtremes(cs: seq<seq<real>>)
    requires CalculateCentroid(cs).Success?
    ensures var c := CalculateCentroid(cs).value;
      && (exists i | 0 <= i < |cs| && IsPair(cs[i]) :: cs[i][1] <= c.latitude)
      && (exists i | 0 <= i < |cs| && IsPair(cs[i]) :: cs[i][1] >= c.latitude)
      && (exists i | 0 <= i < |cs| && IsPair(cs[i]) :: cs[i][0] <= c.longitude)
      && (exists i | 0 <= i < |cs| && IsPair(cs[i]) :: cs[i][0] >= c.longitude)
  {
    MeanBetweenExtremes(cs, 0);
    MeanBetweenExtremes(cs, 1);
  }

  /** A footprint whose entries all lie in a box has its centroid in that box. */
  lemma CentroidInBox(cs: seq<seq<real>>, lat0: real, lat1: real, lon0: real, lon1: real)
    requires CalculateCentroid(cs).Success?
    requires forall i | 0 <= i < |cs| && IsPair(cs[i]) :: lat0 <= cs[i][1] <= lat1 && lon0 <= cs[i][0] <= lon1
    ensures var c := CalculateCentroid(cs).value;
      lat0 <= c.latitude <= lat1 && lon0 <= c.longitude <= lon1
  {
    CentroidBetweenExtremes(cs);
  }

  // ---------------------------------------------------------------------------
  // Grid cells
  // ---------------------------------------------------------------------------

  /** `Math.max(0, Math.min(1, x))` */
  function Clamp01(x: real): (r: real)
    ensures 0.0 <= r <= 1.0
    ensures 0.0 <= x <= 1.0 ==> r == x
    ensures x <= 0.0 ==> r == 0.0
    ensures x >= 1.0 ==> r == 1.0
  {
    if x > 1.0 then 1.0 else if x < 0.0 then 0.0 else x
  }

  /** `latInt`: the grid row of a latitude, clamped to the bounding box. */
  function LatIndex(lat: real): (r: int)
    ensures 0 <= r <= LatSteps
  {
    (Clamp01((lat - MinLat) / (MaxLat - MinLat)) * LatSteps as real).Floor
  }

  /** `lonInt`: the grid column of a longitude, clamped to the bounding box. */
  function LonIndex(lon: real): (r: int)
    ensures 0 <= r <= LonSteps
  {
    (Clamp01((lon - MinLon) / (MaxLon - MinLon)) * LonSteps as real).Floor
  }

  /** The cell index `latInt * 1000 + lonInt` of a centroid: below `10^7`. */
  function CellIndex(c: Coord): (r: nat)
    ensures r < Pow10(7)
  {
    LatIndex(c.latitude) * CellBase + LonIndex(c.longitude)
  }

  /** `generateBuildingId`: the cell index as exactly seven decimal digits. */
  function GenerateBuildingId(c: Coord): (r: string)
    ensures |r| == 7 && AllDigits(r)
    ensures DecimalValue(r) == CellIndex(c)
  {
    ZeroPaddedDecimal(CellIndex(c), 7);
    PadStart(NatToDecimal(CellIndex(c)), 7, '0')
  }

  /**
   * The lower corner (south-west) of grid cell (`latInt`, `lonInt`): inside
   * the bounding box for every row and column of the grid, on its southern
   * and western edges for the first row and column, and on its northern and
   * eastern edges for the last.
   */
  function CellCorner(latInt: int, lonInt: int): (r: Coord)
    ensures 0 <= latInt <= LatSteps ==> MinLat <= r.latitude <= MaxLat
    ensures 0 <= lonInt <= LonSteps ==> MinLon <= r.longitude <= MaxLon
    ensures latInt == 0 ==> r.latitude == MinLat
    ensures lonInt == 0 ==> r.longitude == MinLon
    ensures latInt == LatSteps ==> r.latitude == MaxLat
    ensures lonInt == LonSteps ==> r.longitude == MaxLon
  {
    Coord(
      MinLat + (latInt as real / LatSteps as real) * (MaxLat - MinLat),
      MinLon + (lonInt as real / LonSteps as real) * (MaxLon - MinLon))
  }

  /** JavaScript's `a % b` for a positive divisor: the sign follows the dividend. */
  function JsRemainder(a: int, b: int): (r: int)
    requires b > 0
    ensures -b < r < b
    ensures a >= 0 ==> r == a % b
  {
    if a >= 0 then a % b else -((-a) % b)
  }

  /**
   * `approximateCoordinatesFromDAN`: the cell corner of the index `parseInt`
   * reads from the location field, split with `Math.floor(n / 1000)` and `n % 1000`.
   * A field no number can start with gives `NaN`; a field of seven digits, the
   * only kind a generated DAN has, gives a point in the bounding box.
   */
  function ApproximateCoordinates(buildingId: string): (r: DecodedCoord)
    ensures CannotStartNumber(buildingId) ==> r == NotANumber
    ensures |buildingId| == 7 && AllDigits(buildingId) ==>
      r.Finite? && MinLat <= r.coord.latitude <= MaxLat && MinLon <= r.coord.longitude <= MaxLon
  {
    LeadingRunOfAll(buildingId, IsDigit);
    match ParseInt(buildingId)
    case None => NotANumber
    case Some(n) => Finite(CellCorner(n / CellBase as int, JsRemainder(n, CellBase)))
  }

  /** On a digit string the fallback is the corner of the cell the digits denote. */
  lemma ApproximateOfDigits(buildingId: string)
    requires |buildingId| > 0 && AllDigits(buildingId)
    ensures var n := DecimalValue(buildingId);
      ApproximateCoordinates(buildingId) == Finite(CellCorner(n / CellBase, n % CellBase))
  {
    ParseIntOfDigits(buildingId);
  }

  /** Splitting a cell index recovers the row and the column exactly. */
  lemma CellIndexSplits(n: nat, latInt: nat, lonInt: nat)
    requires lonInt < CellBase && n == latInt * CellBase + lonInt
    ensures n / CellBase == latInt
    ensures n % CellBase == lonInt
  {
  }

  /** Row floor bound: the row corner is at or below the latitude and less than one row below it. */
  lemma LatCellBounds(lat: real)
    requires MinLat <= lat <= MaxLat
    ensures var a := CellCorner(LatIndex(lat), 0).latitude;
      a <= lat < a + (MaxLat - MinLat) / LatSteps as real
  {
    var h := MaxLat - MinLat;
    var t := (lat - MinLat) / h;
    assert 0.0 <= t <= 1.0;
    var n := LatIndex(lat);
    assert n as real <= t * 9999.0 < n as real + 1.0;
    assert lat == MinLat + t * h;
  }

  lemma LonCellBounds(lon: real)
    requires MinLon <= lon <= MaxLon
    ensures var a := CellCorner(0, LonIndex(lon)).longitude;
      a <= lon < a + (MaxLon - MinLon) / LonSteps as real
  {
    var w := MaxLon - MinLon;
    var t := (lon - MinLon) / w;
    assert 0.0 <= t <= 1.0;
    var n := LonIndex(lon);
    assert n as real <= t * 999.0 < n as real + 1.0;
    assert lon == MinLon + t * w;
  }

  /**
   * For a centroid inside the bounding box, the corner of its cell is at most
   * one cell width below it in each coordinate (never above it).
   */
  lemma CellCornerWithinOneCell(c: Coord)
    requires MinLat <= c.latitude <= MaxLat && MinLon <= c.longitude <= MaxLon
    ensures var a := CellCorner(LatIndex(c.latitude), LonIndex(c.longitude));
      && a.latitude <= c.latitude < a.latitude + (MaxLat - MinLat) / LatSteps as real
      && a.longitude <= c.longitude < a.longitude + (MaxLon - MinLon) / LonSteps as real
  {
    LatCellBounds(c.latitude);
    LonCellBounds(c.longitude);
  }

  /** Centroids outside the bounding box fall into the edge rows and columns. */
  lemma OutOfBoxClamps(c: Coord)
    ensures c.latitude <= MinLat ==> LatIndex(c.latitude) == 0
    ensures c.latitude >= MaxLat ==> LatIndex(c.latitude) == LatSteps
    ensures c.longitude <= MinLon ==> LonIndex(c.longitude) == 0
    ensures c.longitude >= MaxLon ==> LonIndex(c.longitude) == LonSteps
  {
  }

  // ---------------------------------------------------------------------------
  // Encoding and decoding
  // ---------------------------------------------------------------------------

  /**
   * `${dan.slice(0, 3)}-${dan.slice(3, 5)}-${dan.slice(5)}`: for a string of at
   * least five characters, its first three, a dash, the next two, a dash and
   * the rest.
   */
  function Formatted(dan: string): (r: string)
    ensures |dan| >= 5 ==>
      && |r| == |dan| + 2 && r[3] == '-' && r[6] == '-'
      && r[..3] == dan[..3] && r[4..6] == dan[3..5] && r[7..] == dan[5..]
  {
    Slice(dan, 0, 3) + "-" + Slice(dan, 3, 5) + "-" + Slice(dan, 5, |dan|)
  }

  /** The formatted form of a digit string of length at least 5 carries exactly its digits. */
  lemma FormattedCarriesDigits(dan: string)
    requires |dan| >= 5 && AllDigits(dan)
    ensures Formatted(dan) == dan[..3] + "-" + dan[3..5] + "-" + dan[5..]
    ensures RemoveDashes(Formatted(dan)) == dan
    ensures StripSeparators(Formatted(dan)) == dan
  {
    var a, b, c := dan[..3], dan[3..5], dan[5..];
    assert dan == a + b + c;
    assert Formatted(dan) == a + "-" + b + "-" + c;
    assert AllDigits(a) && AllDigits(b) && AllDigits(c);
    DigitsHaveNoSeparators(a);
    DigitsHaveNoSeparators(b);
    DigitsHaveNoSeparators(c);
    FilterSkipsDash(a + "-" + b, c, NotDash);
    FilterSkipsDash(a, b, NotDash);
    FilterSkipsDash(a + "-" + b, c, NotSeparator);
    FilterSkipsDash(a, b, NotSeparator);
  }

  /** `generateDAN`: state check first, then centroid, cell index and assembly. */
  function GenerateDan(fp: Footprint): (r: Result<DanResult, DanError>)
    ensures CodeOf(ToUpperCase(fp.state)).None? ==> r == Failure(InvalidStateCode(fp.state))
    ensures CodeOf(ToUpperCase(fp.state)).Some? ==>
      (r.Failure? <==> !HasPair(fp.coordinates)) &&
      (r.Failure? ==> r == Failure(CalculateCentroid(fp.coordinates).error))
  {
    var upper := ToUpperCase(fp.state);
    match CodeOf(upper)
    case None => Failure(InvalidStateCode(fp.state))
    case Some(stateCode) =>
      var centroid :- CalculateCentroid(fp.coordinates);
      var dan := CountryCode + stateCode + GenerateBuildingId(centroid);
      Success(DanResult(dan, Formatted(dan), centroid, upper, stateCode))
  }

  /**
   * What a generated DAN is: twelve digits, the country code, the code of the
   * upper-cased state, and the seven-digit index of the centroid's cell; its
   * formatted form carries the same digits.
   */
  lemma GeneratedDanShape(fp: Footprint)
    requires GenerateDan(fp).Success?
    ensures var g := GenerateDan(fp).value;
      && |g.dan| == 12 && AllDigits(g.dan)
      && g.dan[..3] == CountryCode
      && g.state == ToUpperCase(fp.state)
      && CodeOf(g.state) == Some(g.stateCode)
      && g.dan[3..5] == g.stateCode
      && g.dan == CountryCode + g.stateCode + GenerateBuildingId(g.centroid)
      && CalculateCentroid(fp.coordinates) == Success(g.centroid)
      && DecimalValue(g.dan[5..]) == CellIndex(g.centroid)
      && g.formatted == g.dan[..3] + "-" + g.dan[3..5] + "-" + g.dan[5..]
      && RemoveDashes(g.formatted) == g.dan
  {
    var g := GenerateDan(fp).value;
    CodeOfIsTwoDigits(ToUpperCase(fp.state));
    var id := GenerateBuildingId(g.centroid);
    assert g.dan == CountryCode + g.stateCode + id;
    Assembled(g.stateCode, id);
    FormattedCarriesDigits(g.dan);
  }

  /** The state name is matched case-insensitively: names with one upper-case form encode alike. */
  lemma GenerateDanIgnoresCase(cs: seq<seq<real>>, name1: string, name2: string)
    requires ToUpperCase(name1) == ToUpperCase(name2)
    ensures GenerateDan(Footprint(cs, name1)).Success? <==> GenerateDan(Footprint(cs, name2)).Success?
    ensures GenerateDan(Footprint(cs, name1)).Success? ==>
      GenerateDan(Footprint(cs, name1)) == GenerateDan(Footprint(cs, name2))
  {
  }

  /** A cleaned DAN of the right length and country code. */
  predicate HasDanFrame(clean: string) {
    |clean| == DanLength && clean[..3] == CountryCode
  }

  /**
   * `decodeDAN` as written: strip `-` and white space, check the length and the
   * country code, look the state code up, then prefer the stored coordinate
   * and fall back to the cell corner. The characters are never checked to be
   * digits.
   */
  function Decode(dan: string, store: string -> Option<Coord>): (r: Result<DecodeResult, DanError>)
    ensures var clean := StripSeparators(dan);
      && (!HasDanFrame(clean) ==> r == Failure(InvalidDanFormat))
      && (HasDanFrame(clean) && StateOf(clean[3..5]).None? ==> r == Failure(InvalidStateCode(clean[3..5])))
      && (r.Success? <==> HasDanFrame(clean) && StateOf(clean[3..5]).Some?)
      && (r.Success? ==> r.value.dan == clean && r.value.stateCode == clean[3..5])
      && (r.Success? && store(clean).Some? ==> r.value.coordinates == Finite(store(clean).value))
  {
    var clean := StripSeparators(dan);
    if !HasDanFrame(clean) then Failure(InvalidDanFormat)
    else
      var stateCode := clean[3..5];
      match StateOf(stateCode)
      case None => Failure(InvalidStateCode(stateCode))
      case Some(state) =>
        var coordinates := match store(clean)
          case Some(c) => Finite(c)
          case None => ApproximateCoordinates(clean[5..]);
        Success(DecodeResult(clean, Formatted(clean), coordinates, state, stateCode))
  }

  /**
   * The decode with the digit check the DAN format calls for: a cleaned DAN
   * that is not all digits is rejected as a format error.
   */
  function DecodeStrict(dan: string, store: string -> Option<Coord>): (r: Result<DecodeResult, DanError>)
    ensures var clean := StripSeparators(dan);
      && (r.Success? <==> HasDanFrame(clean) && AllDigits(clean) && StateOf(clean[3..5]).Some?)
      && (AllDigits(clean) ==> r == Decode(dan, store))
      && (r.Success? && store(clean).None? ==>
            var n := DecimalValue(clean[5..]);
            r.value.coordinates == Finite(CellCorner(n / CellBase, n % CellBase)))
  {
    var clean := StripSeparators(dan);
    if !AllDigits(clean) then Failure(InvalidDanFormat)
    else
      if HasDanFrame(clean) then
        assert AllDigits(clean[5..]);
        ApproximateOfDigits(clean[5..]);
        Decode(dan, store)
      else Decode(dan, store)
  }

  /** Whatever path it takes, a decoded DAN names the state whose code it carries. */
  lemma DecodeAgreesWithTable(dan: string, store: string -> Option<Coord>)
    requires Decode(dan, store).Success?
    ensures var d := Decode(dan, store).value;
      && CodeOf(d.state) == Some(d.stateCode)
      && d.dan[3..5] == d.stateCode
      && Formatted(d.dan) == d.formatted
  {
    var clean := StripSeparators(dan);
    StateTableRoundTrips("", clean[3..5]);
  }

  /** The exact and the approximate path give the same DAN, format, state and code. */
  lemma DecodePathsAgree(dan: string, store1: string -> Option<Coord>, store2: string -> Option<Coord>)
    ensures Decode(dan, store1).Success? <==> Decode(dan, store2).Success?
    ensures Decode(dan, store1).Success? ==>
      var d1, d2 := Decode(dan, store1).value, Decode(dan, store2).value;
      d1.dan == d2.dan && d1.formatted == d2.formatted && d1.state == d2.state && d1.stateCode == d2.stateCode
  {
  }

  /** Decoding looks only at the DAN with its separators removed. */
  lemma DecodeIgnoresSeparators(a: string, b: string, store: string -> Option<Coord>)
    requires StripSeparators(a) == StripSeparators(b)
    ensures Decode(a, store) == Decode(b, store)
  {
  }

  /** How a separator-free DAN with the right frame and a known state code decodes. */
  lemma DecodeClean(dan: string, store: string -> Option<Coord>)
    requires StripSeparators(dan) == dan && HasDanFrame(dan)
    requires StateOf(dan[3..5]).Some?
    ensures Decode(dan, store) == Success(DecodeResult(
        dan, Formatted(dan),
        if store(dan).Some? then Finite(store(dan).value) else ApproximateCoordinates(dan[5..]),
        StateOf(dan[3..5]).value, dan[3..5]))
  {
  }

  /** How a well-formed twelve-digit DAN with a known state code decodes. */
  lemma DecodeOfDigits(dan: string, store: string -> Option<Coord>)
    requires |dan| == 12 && AllDigits(dan) && dan[..3] == CountryCode
    requires StateOf(dan[3..5]).Some?
    ensures var n := DecimalValue(dan[5..]);
      Decode(dan, store) == Success(DecodeResult(
        dan, Formatted(dan),
        if store(dan).Some? then Finite(store(dan).value) else Finite(CellCorner(n / CellBase, n % CellBase)),
        StateOf(dan[3..5]).value, dan[3..5]))
  {
    DigitsHaveNoSeparators(dan);
    DecodeClean(dan, store);
    assert AllDigits(dan[5..]);
    ApproximateOfDigits(dan[5..]);
  }

  /** A DAN assembled from a table entry and a seven-digit location field decodes to that entry. */
  lemma DecodeAssembled(state: string, stateCode: string, id: string, store: string -> Option<Coord>)
    requires CodeOf(state) == Some(stateCode)
    requires |id| == 7 && AllDigits(id)
    ensures var dan := CountryCode + stateCode + id;
      var n := DecimalValue(id);
      Decode(dan, store) == Success(DecodeResult(
        dan, Formatted(dan),
        if store(dan).Some? then Finite(store(dan).value) else Finite(CellCorner(n / CellBase, n % CellBase)),
        state, stateCode))
  {
    var dan := CountryCode + stateCode + id;
    assert |stateCode| == 2 && AllDigits(stateCode) by {
      CodeOfIsTwoDigits(state);
    }
    assert StateOf(stateCode) == Some(state) by {
      StateTableRoundTrips(state, "");
    }
    Assembled(stateCode, id);
    DecodeOfDigits(dan, store);
  }

  /** A DAN assembled from a table entry and a centroid's cell decodes to that entry and cell. */
  lemma DecodeCell(state: string, stateCode: string, c: Coord, store: string -> Option<Coord>)
    requires CodeOf(state) == Some(stateCode)
    ensures var dan := CountryCode + stateCode + GenerateBuildingId(c);
      Decode(dan, store) == Success(DecodeResult(
        dan, Formatted(dan),
        if store(dan).Some? then Finite(store(dan).value)
        else Finite(CellCorner(LatIndex(c.latitude), LonIndex(c.longitude))),
        state, stateCode))
  {
    BuildingIdCell(c);
    DecodeAssembled(state, stateCode, GenerateBuildingId(c), store);
  }

  /** The location field of a generated DAN splits back into the centroid's row and column. */
  lemma BuildingIdCell(c: Coord)
    ensures DecimalValue(GenerateBuildingId(c)) / CellBase == LatIndex(c.latitude)
    ensures DecimalValue(GenerateBuildingId(c)) % CellBase == LonIndex(c.longitude)
  {
    CellIndexSplits(CellIndex(c), LatIndex(c.latitude), LonIndex(c.longitude));
  }

  /**
   * Round trip: decoding a generated DAN recovers its DAN, format, state and
   * code; the store's coordinate when it has one, and otherwise the corner of
   * the centroid's own cell.
   */
  lemma DecodeGenerated(fp: Footprint, store: string -> Option<Coord>)
    requires GenerateDan(fp).Success?
    ensures var g := GenerateDan(fp).value;
      && Decode(g.dan, store).Success?
      && var d := Decode(g.dan, store).value;
      && d.dan == g.dan && d.formatted == g.formatted
      && d.state == g.state && d.stateCode == g.stateCode
      && (store(g.dan).Some? ==> d.coordinates == Finite(store(g.dan).value))
      && (store(g.dan).None? ==>
            d.coordinates == Finite(CellCorner(LatIndex(g.centroid.latitude), LonIndex(g.centroid.longitude))))
  {
    var g := GenerateDan(fp).value;
    GeneratedDanShape(fp);
    DecodeCell(g.state, g.stateCode, g.centroid, store);
  }

  /** The formatted form of a generated DAN decodes exactly as the DAN itself. */
  lemma DecodeGeneratedFormatted(fp: Footprint, store: string -> Option<Coord>)
    requires GenerateDan(fp).Success?
    ensures var g := GenerateDan(fp).value;
      Decode(g.formatted, store) == Decode(g.dan, store)
  {
    var g := GenerateDan(fp).value;
    GeneratedDanShape(fp);
    DigitsHaveNoSeparators(g.dan);
    FormattedCarriesDigits(g.dan);
    DecodeIgnoresSeparators(g.formatted, g.dan, store);
  }

  /**
   * For a footprint whose centroid is inside the bounding box, the fallback
   * decode lands at most one cell width below the centroid.
   */
  lemma ApproximateDecodeError(fp: Footprint, store: string -> Option<Coord>)
    requires GenerateDan(fp).Success?
    requires var c := GenerateDan(fp).value.centroid;
      MinLat <= c.latitude <= MaxLat && MinLon <= c.longitude <= MaxLon
    requires store(GenerateDan(fp).value.dan).None?
    ensures var g := GenerateDan(fp).value;
      && Decode(g.dan, store).Success?
      && Decode(g.dan, store).value.coordinates.Finite?
      && var a := Decode(g.dan, store).value.coordinates.coord;
      && a.latitude <= g.centroid.latitude < a.latitude + (MaxLat - MinLat) / LatSteps as real
      && a.longitude <= g.centroid.longitude < a.longitude + (MaxLon - MinLon) / LonSteps as real
  {
    var g := GenerateDan(fp).value;
    DecodeGenerated(fp, store);
    CellCornerWithinOneCell(g.centroid);
  }

  /** The state whose code is the two-digit form of `n`. */
  lemma StateOfCode(n: nat)
    requires 1 <= n <= 37
    ensures StateOf(Tables.TwoDigitCode(n)) == Some(StateCodes[n - 1].0)
  {
    StateCodesShape();
    StateOfFindsEntries();
  }

  lemma LagosByCode()
    ensures StateOf("25") == Some("LA")
  {
  }

  /** The location field of the sample DAN below starts with a letter, so `parseInt` gives `NaN`. */
  lemma LettersParseToNaN()
    ensures ParseInt("abcdefg") == None
    ensures ApproximateCoordinates("abcdefg") == NotANumber
  {
    assert !IsWhitespace('a');
  }

  lemma SampleHasNoSeparators()
    ensures StripSeparators("23425abcdefg") == "23425abcdefg"
  {
    var s := "23425abcdefg";
    forall i | 0 <= i < |s|
      ensures NotSeparator(s[i])
    {
      assert '0' <= s[i] <= 'z';
    }
    FilterKeepsAll(s, NotSeparator);
  }

  lemma SampleFields()
    ensures HasDanFrame("23425abcdefg")
    ensures "23425abcdefg"[3..5] == "25"
    ensures "23425abcdefg"[5..] == "abcdefg"
  {
    var s := "23425abcdefg";
    assert s[..3] == CountryCode;
  }

  lemma SampleFormatted()
    ensures Formatted("23425abcdefg") == "234-25-abcdefg"
  {
    var s := "23425abcdefg";
    assert Slice(s, 0, 3) == "234";
    assert Slice(s, 3, 5) == "25";
    assert Slice(s, 5, |s|) == "abcdefg";
  }

  /** A DAN whose location field has no leading digit passes the as-written decode with NaN coordinates. */
  lemma DecodeAcceptsNonDigits(store: string -> Option<Coord>)
    requires store("23425abcdefg").None?
    ensures Decode("23425abcdefg", store) ==
      Success(DecodeResult("23425abcdefg", "234-25-abcdefg", NotANumber, "LA", "25"))
  {
    var s := "23425abcdefg";
    SampleHasNoSeparators();
    SampleFields();
    LagosByCode();
    DecodeClean(s, store);
    LettersParseToNaN();
    SampleFormatted();
  }

  /** The corrected decode never yields NaN, and its fallback stays inside the bounding box. */
  lemma DecodeStrictIsFiniteInBox(dan: string, store: string -> Option<Coord>)
    requires DecodeStrict(dan, store).Success?
    requires store(StripSeparators(dan)).None?
    ensures DecodeStrict(dan, store).value.coordinates.Finite?
    ensures var a := DecodeStrict(dan, store).value.coordinates.coord;
      MinLat <= a.latitude <= MaxLat && MinLon <= a.longitude <= MaxLon
  {
    var clean := StripSeparators(dan);
    var n := DecimalValue(clean[5..]);
    assert n < Pow10(7);
    var row, col := n / CellBase, n % CellBase;
    assert 0 <= row <= LatSteps && 0 <= col <= LonSteps;
  }
}
