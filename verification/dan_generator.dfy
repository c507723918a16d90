/**
 * The client's own DAN generator (`danGenerator.ts`): the seven-digit field is
 * a CRC-32 checksum of the coordinate text reduced modulo 10^7, not a grid
 * cell, so the backend's decoder cannot invert it.
 *
 * The two foreign functions are parameters: `toFixed6` is `Number.toFixed(6)`
 * and `checksum` is `parseInt(crc32(text), 16)`.
 */
module DanGenerator {
  import opened Wrappers
  import opened JsText
  import opened DanLayout

  /** The hash field keeps the checksum modulo this value: seven digits. */
  const HashModulus: nat := 10000000

  /** The one error: 'Invalid state code. Must be a 2-digit string.' */
  datatype GeneratorError = InvalidStateCode

  /** `${latitude.toFixed(6)},${longitude.toFixed(6)}`, the text that is hashed. */
  function CoordinateText(latitude: real, longitude: real, toFixed6: real -> string): string {
    toFixed6(latitude) + "," + toFixed6(longitude)
  }

  /** `generateCentroidHash`: the checksum of the coordinate text, modulo 10^7, zero-padded. */
  function GenerateCentroidHash(
    latitude: real, longitude: real, toFixed6: real -> string, checksum: string -> nat): (r: string)
    ensures |r| == 7 && AllDigits(r)
    ensures DecimalValue(r) == checksum(CoordinateText(latitude, longitude, toFixed6)) % HashModulus
  {
    var constrained := checksum(CoordinateText(latitude, longitude, toFixed6)) % HashModulus;
    ZeroPaddedDecimal(constrained, 7);
    PadStart(NatToDecimal(constrained), 7, '0')
  }

  /** `stateCode.length !== 2 || !/^\d{2}$/.test(stateCode)` fails exactly when this does not hold. */
  predicate IsTwoDigitCode(stateCode: string) {
    |stateCode| == 2 && AllDigits(stateCode)
  }

  /** `generateDAN`: country code, the caller's state code, the centroid hash. */
  function GenerateDan(
    latitude: real, longitude: real, stateCode: string,
    toFixed6: real -> string, checksum: string -> nat): (r: Result<string, GeneratorError>)
    ensures r.Failure? <==> !IsTwoDigitCode(stateCode)
    ensures r.Success? ==>
      && |r.value| == 12 && AllDigits(r.value)
      && r.value[..3] == CountryCode
      && r.value[3..5] == stateCode
      && DecimalValue(r.value[5..]) == checksum(CoordinateText(latitude, longitude, toFixed6)) % HashModulus
  {
    if !IsTwoDigitCode(stateCode) then Failure(InvalidStateCode)
    else
      var hash := GenerateCentroidHash(latitude, longitude, toFixed6, checksum);
      Assembled(stateCode, hash);
      Success(CountryCode + stateCode + hash)
  }

  /**
   * The generator is a function of the state code and the coordinate text
   * alone: coordinates whose six-decimal texts agree give the same DAN.
   */
  lemma GenerateDanDeterministic(
    lat1: real, lon1: real, lat2: real, lon2: real, stateCode: string,
    toFixed6: real -> string, checksum: string -> nat)
    requires CoordinateText(lat1, lon1, toFixed6) == CoordinateText(lat2, lon2, toFixed6)
    ensures GenerateDan(lat1, lon1, stateCode, toFixed6, checksum)
         == GenerateDan(lat2, lon2, stateCode, toFixed6, checksum)
  {
  }

  /** Only the shape of the state code is checked: "99", which no table lists, is accepted. */
  lemma AcceptsUnlistedCode(latitude: real, longitude: real, toFixed6: real -> string, checksum: string -> nat)
    ensures GenerateDan(latitude, longitude, "99", toFixed6, checksum).Success?
    ensures GenerateDan(latitude, longitude, "9", toFixed6, checksum).Failure?
    ensures GenerateDan(latitude, longitude, "9a", toFixed6, checksum).Failure?
  {
    assert IsTwoDigitCode("99");
    assert "9a"[1] == 'a' && !IsDigit('a');
    assert !IsTwoDigitCode("9a");
  }
}
