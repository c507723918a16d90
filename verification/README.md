# Digital Access Numbers: a verified model

Dan-navigator gives every building in Nigeria a Digital Access Number (DAN). A DAN has twelve digits in three parts:

- the country code `234`;
- a two-digit state code;
- a seven-digit location field.

This Dafny project models the pure logic behind the app and proves properties of it. The parts are:

- **Backend grid codec** (`DanService`, from `DANService`). Encoding looks up the upper-cased state abbreviation in a 37-entry table and takes the centroid of the building footprint. It clamps the centroid into the Nigeria bounding box and quantises it to a cell index `latInt * 1000 + lonInt` with `latInt ≤ 9999` and `lonInt ≤ 999`. Decoding strips dashes and white space, checks the frame, and does a reverse table lookup. It then returns either the stored coordinate or the lower corner of the cell.
- **Client state table** (`StateCodes`, from `stateCodes.ts`). Forward and reverse lookup over a second table of full state names. This table is numbered differently from the backend's.
- **Client generator** (`DanGenerator`, from `danGenerator.ts`). It checks the shape of the state code and fills the location field with a CRC-32 checksum of the coordinate text, reduced modulo 10^7.
- **Search screen helpers** (`HomeScreen`): `validateDAN` and the as-you-type `formatDAN`.
- **Navigation service** (`Navigation`). This is the start / position fix / stop / arrival-acknowledgement state machine, together with the duration estimate and the distance and duration formatting.
- **Cross checks** (`CrossChecks`). These lemmas relate the components to each other, including the places where they disagree.

JavaScript's behaviour is written out explicitly:

- `replace(/[-\s]/g, '')` and `replace(/\D/g, '')` (`JsText`);
- `slice` and `padStart` (`JsText`);
- `parseInt` without a radix, with its sign, `0x` prefix and `NaN` (`JsText`);
- `%` with the sign of the dividend (`DanService.JsRemainder` on integers, `Navigation.JsRealRemainder` on numbers);
- object-literal lookups as first-match searches in declaration order (`Tables`).

`DanLayout` holds the shared country code and DAN length, and `Geo` the coordinate pair both sides pass around.

Each state table is kept twice. It is an entry list in declaration order, with the lookup as a first-match search over it. It is also a `match` on the key, which the verifier evaluates directly. For every key, lemmas prove the two agree (`DanService.CodeOfIsLookup`, `DanService.StateOfIsFind`, `StateCodes.GetStateCodeIsLookup`, `StateCodes.GetStateNameIsFind`). The rest of the model uses the `match` form.

Two behaviours of the code are easy to misread, and the model follows the code in both:

- The grid fallback returns the **lower corner** of the cell, not its centre. The decoded point can therefore be up to one cell below the centroid, not half a cell.
- When the position watch fails to start after permission was granted, the navigation fields **stay set**.

The two state tables agree on codes `01` to `14` and disagree from `15` onward. The client gives `15` to Gombe and lists the Federal Capital Territory last, at `37`. The backend gives `15` to the Federal Capital Territory (`FC`) and `16` to Gombe (`GO`), so every later state is one code further on. For example, the client gives Lagos `24`, while the backend reads `24` as Kwara (`KW`) and gives Lagos (`LA`) `25`. The model keeps the two tables separate and proves the disagreement (`CrossChecks.TablesPartAtFifteen`, `CrossChecks.TablesDisagreeOnLagos`, `CrossChecks.ClientLagosDecodesAsKwara`).

## Model

| member | source | states |
|---|---|---|
| DanService.StateCodesShape | backend/src/services/DANService.ts:21-30 | the backend table has 37 abbreviations whose codes run "01" to "37" in declaration order |
| DanService.StateCodesDistinct | backend/src/services/DANService.ts:21-30 | no two abbreviations and no two codes of the backend table are equal |
| DanService.CodeOf | backend/src/services/DANService.ts:44-50 | only a two-character name has a code, and every code is two decimal digits |
| DanService.StateOf | backend/src/services/DANService.ts:79-80 | only a string of two decimal digits resolves, and it resolves to a two-character abbreviation |
| DanService.CodeOfFindsEntries | backend/src/services/DANService.ts:21-30 | the abbreviation lookup finds every entry of the backend table with its code |
| DanService.StateOfFindsEntries | backend/src/services/DANService.ts:21-30 | the code lookup finds every entry of the backend table with its abbreviation |
| DanService.CodeOfOnlyEntries | backend/src/services/DANService.ts:44 | the abbreviation lookup yields nothing but an entry of the table |
| DanService.StateOfOnlyEntries | backend/src/services/DANService.ts:79-80 | the code lookup yields nothing but an entry of the table |
| DanService.CodeOfIsLookup | backend/src/services/DANService.ts:44 | for every name, the abbreviation lookup equals the keyed lookup in the entry list |
| DanService.StateOfIsFind | backend/src/services/DANService.ts:79-80 | for every code, the code lookup equals the first-match search over the entry list |
| DanService.CodeOfIsTwoDigits | backend/src/services/DANService.ts:50 | every code the backend table yields for a state is exactly two decimal digits, denoting a number from 1 to 37 |
| DanService.StateTableRoundTrips | backend/src/services/DANService.ts:79-84 | the reverse lookup of a state's code names that state, and the forward lookup of a decoded state gives the code back |
| DanService.StateOfCode | backend/src/services/DANService.ts:79-80 | the reverse lookup of the n-th code finds the n-th state of the table |
| DanService.LagosByCode | backend/src/services/DANService.ts:26 | the backend reads code "25" as Lagos ("LA") |
| DanService.PairCount | backend/src/services/DANService.ts:129-135 | the number of entries the centroid uses is at most the number of entries and is positive exactly when some entry has two components |
| DanService.CalculateCentroid | backend/src/services/DANService.ts:120-145 | an empty list fails with "Invalid coordinates"; a list with no two-component entry fails with "No valid coordinates"; the centroid exists exactly when some entry has two components |
| DanService.CentroidIgnoresShortEntry | backend/src/services/DANService.ts:129-135 | inserting an entry with fewer than two components anywhere in a non-empty list leaves the centroid unchanged |
| DanService.MeanHasNoExcess | backend/src/services/DANService.ts:141-144 | the deviations of the used entries from the computed mean sum to zero |
| DanService.CentroidBetweenExtremes | backend/src/services/DANService.ts:141-144 | the centroid's latitude and longitude each lie between the smallest and the largest value of that component among the used entries |
| DanService.CentroidInBox | backend/src/services/DANService.ts:120-145 | a footprint whose used entries all lie in a box has its centroid in that box |
| DanService.Clamp01 | backend/src/services/DANService.ts:148-156 | the clamped value lies in [0, 1]; it is the input when the input lies in [0, 1], 0 at or below 0, and 1 at or above 1 |
| DanService.LatIndex | backend/src/services/DANService.ts:148-158 | every latitude, inside the box or not, gets a row between 0 and 9999 |
| DanService.LonIndex | backend/src/services/DANService.ts:153-159 | every longitude, inside the box or not, gets a column between 0 and 999 |
| DanService.CellIndex | backend/src/services/DANService.ts:161 | the cell index is below 10^7 |
| DanService.GenerateBuildingId | backend/src/services/DANService.ts:161-162 | the location field is exactly seven decimal digits and denotes the cell index |
| DanService.OutOfBoxClamps | backend/src/services/DANService.ts:148-159 | centroids on or beyond an edge of the box fall into the first or last row or column, without error |
| DanService.CellCorner | backend/src/services/DANService.ts:170-177 | the corner of every row and column of the grid lies in the bounding box; the first row and column lie on its southern and western edges, the last on its northern and eastern edges |
| DanService.ApproximateCoordinates | backend/src/services/DANService.ts:165-179 | a location field no number can start with gives NaN coordinates; a field of seven digits gives a point inside the bounding box |
| DanService.CellIndexSplits | backend/src/services/DANService.ts:167-168 | splitting `latInt * 1000 + lonInt` with `lonInt < 1000` by floor division and remainder recovers `latInt` and `lonInt` exactly |
| DanService.BuildingIdCell | backend/src/services/DANService.ts:158-168 | the location field of a centroid splits back into that centroid's own row and column |
| DanService.ApproximateOfDigits | backend/src/services/DANService.ts:165-179 | for a location field of digits, the fallback is the lower corner of the cell the digits denote |
| DanService.LatCellBounds | backend/src/services/DANService.ts:170-174 | for a latitude in the box, the row's corner latitude is at or below it and less than one row height below it |
| DanService.LonCellBounds | backend/src/services/DANService.ts:171-177 | for a longitude in the box, the column's corner longitude is at or below it and less than one column width below it |
| DanService.CellCornerWithinOneCell | backend/src/services/DANService.ts:147-179 | for an in-box centroid, the corner of its cell is never above it and less than one cell below it in each coordinate |
| DanService.Formatted | backend/src/services/DANService.ts:101 | for a DAN of at least five characters: its first three characters, a dash, the next two, a dash and the rest, two characters longer than the DAN |
| DanService.FormattedCarriesDigits | backend/src/services/DANService.ts:55 | the formatted DAN is `dan[0..3]-dan[3..5]-dan[5..]`, and removing its dashes or separators gives the DAN back |
| DanService.GenerateDan | backend/src/services/DANService.ts:41-60 | an abbreviation unknown after upper-casing is rejected with the text as given, before the centroid is computed; for a known one, generation fails exactly when the centroid does, with the centroid's error |
| DanService.GeneratedDanShape | backend/src/services/DANService.ts:49-57 | a generated DAN is 12 digits: "234", the code of the upper-cased abbreviation (which is the returned state), and the seven-digit index of the centroid's cell; its formatted form carries the same digits |
| DanService.GenerateDanIgnoresCase | backend/src/services/DANService.ts:44-57 | abbreviations with the same upper-case form are both accepted or both rejected, and when accepted they give the same result |
| DanService.Decode | backend/src/services/DANService.ts:62-118 | the decoder as written: a wrong length or prefix after stripping gives a format error, and an unknown state code gives a state-code error carrying that code; it succeeds exactly when neither applies; it returns the cleaned DAN and its code, and the stored coordinate verbatim when the store has one |
| DanService.DecodeStrict | backend/src/services/DANService.ts:69-76 | the corrected decoder succeeds exactly on a digit-only DAN with the right frame and a known code; it agrees with the as-written decoder on digit-only input; its fallback is the corner of the cell the digits denote |
| DanService.DecodeAgreesWithTable | backend/src/services/DANService.ts:79-116 | a decoded DAN's state has the decoded code in the table, that code is characters 3 to 5 of the DAN, and the formatted form is that of the DAN |
| DanService.DecodePathsAgree | backend/src/services/DANService.ts:87-117 | the stored-coordinate path and the fallback path succeed together and give the same DAN, format, state and code |
| DanService.DecodeIgnoresSeparators | backend/src/services/DANService.ts:69 | two inputs that agree once dashes and white space are removed decode identically |
| DanService.DecodeClean | backend/src/services/DANService.ts:69-117 | the whole result of decoding a separator-free DAN with the right frame and a known code |
| DanService.DecodeOfDigits | backend/src/services/DANService.ts:62-118 | the whole result of decoding a 12-digit DAN with a known code, the fallback being the lower corner of the cell its last seven digits denote |
| DanService.DecodeAssembled | backend/src/services/DANService.ts:51-84 | a DAN assembled from a table entry and any seven-digit field decodes to that entry and that field's cell |
| DanService.DecodeCell | backend/src/services/DANService.ts:147-179 | a DAN assembled from a table entry and a centroid's field decodes to that entry and the corner of that centroid's row and column |
| DanService.DecodeGenerated | backend/src/services/DANService.ts:41-118 | decoding a generated DAN gives back its DAN, format, upper-cased state and code; the coordinate is the stored one when present and otherwise the corner of the centroid's cell |
| DanService.DecodeGeneratedFormatted | backend/src/services/DANService.ts:55-69 | the formatted form of a generated DAN decodes exactly as the DAN |
| DanService.ApproximateDecodeError | backend/src/services/DANService.ts:106-117 | for an in-box centroid not in the store, the decoded point is at most one cell width below the centroid in each coordinate and never above it |
| DanService.LettersParseToNaN | backend/src/services/DANService.ts:166 | an instance of the rule in `JsText.ParseInt`: the sample location field "abcdefg" parses to NaN, so the fallback coordinates are NaN |
| DanService.DecodeAcceptsNonDigits | backend/src/services/DANService.ts:69-76 | the as-written decoder accepts "23425abcdefg" as a Lagos DAN with NaN coordinates |
| DanService.DecodeStrictIsFiniteInBox | backend/src/services/DANService.ts:165-179 | every fallback coordinate of the corrected decoder is a number inside the bounding box |
| StateCodes.TableShape | src/utils/stateCodes.ts:1-39 | the client table has 37 names whose codes run "01" to "37" in declaration order |
| StateCodes.CodesAreTwoDigits | src/utils/stateCodes.ts:1-39 | every client code is a two-digit decimal string |
| StateCodes.NamesDistinct | src/utils/stateCodes.ts:1-39 | no two client state names are equal |
| StateCodes.CodesDistinct | src/utils/stateCodes.ts:1-39 | no two client codes are equal |
| StateCodes.GetStateCode | src/utils/stateCodes.ts:41-43 | every code `getStateCode` returns is two decimal digits |
| StateCodes.GetStateName | src/utils/stateCodes.ts:45-47 | only a string of two decimal digits resolves to a name |
| StateCodes.GetStateCodeFindsEntries | src/utils/stateCodes.ts:1-39 | `getStateCode` finds every entry of the client table with its code |
| StateCodes.GetStateNameFindsEntries | src/utils/stateCodes.ts:1-39 | `getStateName` finds every entry of the client table with its name |
| StateCodes.GetStateCodeOnlyEntries | src/utils/stateCodes.ts:41-43 | `getStateCode` yields nothing but an entry of the table |
| StateCodes.GetStateNameOnlyEntries | src/utils/stateCodes.ts:45-47 | `getStateName` yields nothing but an entry of the table |
| StateCodes.GetStateCodeIsLookup | src/utils/stateCodes.ts:41-43 | for every name, `getStateCode` equals the keyed lookup in the entry list |
| StateCodes.GetStateNameIsFind | src/utils/stateCodes.ts:45-47 | for every code, `getStateName` equals the first-match search over the entry list |
| StateCodes.GetStateCodeExact | src/utils/stateCodes.ts:41-43 | `getStateCode` finds a name exactly when the table lists that very name, and then returns that row's code |
| StateCodes.LookupIsCaseSensitive | src/utils/stateCodes.ts:41-43 | "Lagos" resolves to "24" and "lagos" does not resolve |
| StateCodes.NameRoundTrip | src/utils/stateCodes.ts:41-47 | for every listed name, the name of its code is the name itself |
| StateCodes.CodeRoundTrip | src/utils/stateCodes.ts:45-47 | for every listed code, the code of its name is the code itself |
| StateCodes.KnownCodes | src/utils/stateCodes.ts:45-47 | `getStateName` resolves exactly the codes "01" to "37" |
| StateCodes.CodeOutsideRange | src/utils/stateCodes.ts:45-47 | a two-digit string denoting 0 or a number above 37 does not resolve |
| StateCodes.UnknownCodes | src/utils/stateCodes.ts:45-47 | "00" and "99" do not resolve |
| DanGenerator.GenerateCentroidHash | src/utils/danGenerator.ts:10-25 | the hash field is exactly seven digits and denotes the checksum of the coordinate text modulo 10^7 |
| DanGenerator.GenerateDan | src/utils/danGenerator.ts:35-45 | generation fails exactly when the state code is not two decimal digits; otherwise it yields 12 digits: "234", the state code, and the hash field |
| DanGenerator.GenerateDanDeterministic | src/utils/danGenerator.ts:10-45 | coordinates with the same six-decimal text give the same DAN |
| DanGenerator.AcceptsUnlistedCode | src/utils/danGenerator.ts:38-40 | "99" is accepted although no table lists it, while "9" and "9a" are rejected |
| HomeScreen.ValidateDan | src/screens/HomeScreen.tsx:22-37 | a valid input is at least twelve characters long, holds nothing but separators and digits, and its digits are twelve, starting with "234" |
| HomeScreen.LimitedDigits | src/screens/HomeScreen.tsx:60-63 | at most twelve characters are kept, all of them digits |
| HomeScreen.Dashed | src/screens/HomeScreen.tsx:66-72 | the layout adds no dash up to three digits, one up to five and two beyond that; on digits, dashes stand exactly at positions 3 and 6 |
| HomeScreen.FormatDan | src/screens/HomeScreen.tsx:58-73 | the field has at most 14 characters, dashes exactly at positions 3 and 6 (where it is that long), and digits everywhere else |
| HomeScreen.DashedFilter | src/screens/HomeScreen.tsx:66-72 | any filter that keeps digits and drops dashes undoes the layout |
| HomeScreen.FormatDanKeepsDigits | src/screens/HomeScreen.tsx:58-73 | removing the dashes (or the separators, or the non-digits) from the formatted field gives the first twelve digits of the input, in order |
| HomeScreen.FormatDanIdempotent | src/screens/HomeScreen.tsx:58-73 | formatting an already formatted field changes nothing |
| HomeScreen.ValidateFormatted | src/screens/HomeScreen.tsx:22-73 | the formatted field validates exactly when the input holds at least twelve digits and the first three are "234" |
| HomeScreen.ValidateIgnoresSeparators | src/screens/HomeScreen.tsx:22-37 | removing dashes and white space never changes the validation verdict |
| HomeScreen.FormatValidDan | src/screens/HomeScreen.tsx:22-73 | for a valid DAN the digits are the separator-free text, and the formatted field is that text laid out with dashes |
| Navigation.InitialValid | src/services/NavigationService.ts:22-26 | a fresh service is idle, holds nothing and runs no watch |
| Navigation.Start | src/services/NavigationService.ts:28-61 | it reports success exactly when permission is granted and the watch starts; a refusal alerts; without permission nothing changes; with permission the destination, route and callback are set and the service navigates, even when the watch fails; a started watch replaces the held subscription without stopping the old watch |
| Navigation.StartPreservesValid | src/services/NavigationService.ts:28-61 | starting keeps the fields mutually consistent and the watch bookkeeping sound |
| Navigation.RestartLeaksWatch | src/services/NavigationService.ts:47 | starting again forgets the running watch without removing it, and a later stop does not remove it either |
| Navigation.FailedWatchStillNavigates | src/services/NavigationService.ts:41-60 | after a failed watch start the start reports failure, yet a watch running from before keeps running and every fix it delivers outside the arrival radius is reported as progress |
| Navigation.Stop | src/services/NavigationService.ts:63-73 | stopping clears every field and removes exactly the held watch |
| Navigation.StopPreservesValid | src/services/NavigationService.ts:63-73 | stopping keeps the fields consistent |
| Navigation.StopIdempotent | src/services/NavigationService.ts:63-73 | stopping twice is stopping once, and stopping a fresh service changes nothing |
| Navigation.EstimateDuration | src/services/NavigationService.ts:139-142 | the estimate is the time to cover the distance at 30 km/h, in seconds |
| Navigation.EstimateDurationMonotone | src/services/NavigationService.ts:139-142 | a longer distance never gets a shorter estimate |
| Navigation.Update | src/services/NavigationService.ts:75-106 | a fix never changes the state; with navigation, destination and callback set, it raises the arrival alert exactly when the fix is within 20 metres and otherwise reports exactly one progress (the distance, its duration estimate, step 0, "Continue straight"); without them it does nothing |
| Navigation.UpdateGuardIsNavigating | src/services/NavigationService.ts:75-78 | in a consistent state the three guards reduce to the navigating flag |
| Navigation.ArrivalAck | src/services/NavigationService.ts:108-114 | acknowledging the arrival alert is exactly `stopNavigation`: navigating flag, destination, route, callback and subscription cleared, the held watch and no other removed from the running watches, the count of handed-out watches unchanged |
| Navigation.AlertOnFix | src/services/NavigationService.ts:91-95 | while navigating, a fix inside the arrival radius shows the arrival alert and changes nothing |
| Navigation.ArrivalAlertRepeats | src/services/NavigationService.ts:91-95 | before acknowledgement, every fix inside the arrival radius raises the alert again |
| Navigation.StepPreservesValid | src/services/NavigationService.ts:28-114 | every event keeps the state consistent |
| Navigation.RunPreservesValid | src/services/NavigationService.ts:28-114 | every sequence of events keeps the state consistent |
| Navigation.QuietAfterStop | src/services/NavigationService.ts:63-106 | after a stop, fixes, stops and acknowledgements change nothing and show nothing until the next start |
| Navigation.NoProgressAfterArrival | src/services/NavigationService.ts:108-114 | after the arrival is acknowledged, nothing more is shown until the next start |
| Navigation.FormatDistance | src/services/NavigationService.ts:154-159 | the text always ends in a unit ending in "m"; below a kilometre the unit follows at most four digits |
| Navigation.FormatDistanceMetres | src/services/NavigationService.ts:155-157 | under a kilometre the text is the nearest whole number of metres (halves up) followed by "m" |
| Navigation.FormatDistanceKilometres | src/services/NavigationService.ts:158 | from one kilometre on the text is the one-decimal number followed by "km" |
| Navigation.FormatDistanceUnit | src/services/NavigationService.ts:154-159 | the text ends in "km" exactly when the distance is at least one kilometre |
| Navigation.SplitIsFloors | src/services/NavigationService.ts:162-163 | the two floor expressions compute the whole hours and the whole minutes under sixty of a duration |
| Navigation.FormatDuration | src/services/NavigationService.ts:161-169 | the text always ends in "m", and shows an hour count exactly when the duration is at least one hour |
| Navigation.FormatDurationReads | src/services/NavigationService.ts:161-169 | the text is "<h>h <m>m" for the completed hours and minutes when there is at least one hour, and "<m>m" otherwise |
| Navigation.DurationSplits | src/services/NavigationService.ts:161-163 | every non-negative duration splits into whole hours and fewer than sixty whole minutes |
| CrossChecks.DigitsPassValidation | src/screens/HomeScreen.tsx:22-37 | twelve digits starting with "234" pass the client's check |
| CrossChecks.BackendDansValidate | backend/src/services/DANService.ts:51-55 | both the plain and the formatted DAN the backend generates pass the client's check |
| CrossChecks.ClientDansValidate | src/utils/danGenerator.ts:35-45 | every DAN the client generator produces passes the client's check |
| CrossChecks.StrictDecodeMatchesValidation | backend/src/services/DANService.ts:69-84 | the corrected decoder accepts exactly the inputs the client's check accepts whose state code the backend knows |
| CrossChecks.FormatsAgree | src/screens/HomeScreen.tsx:58-73 | for a valid DAN the client's formatted field equals the backend's formatted DAN |
| CrossChecks.DecodedFormatMatchesField | backend/src/services/DANService.ts:101 | the formatted DAN the backend decodes equals what the client's field shows |
| CrossChecks.BackendCodeRange | backend/src/services/DANService.ts:21-30 | the backend resolves no code outside "01" to "37" |
| CrossChecks.BackendRejectsNinetyNine | backend/src/services/DANService.ts:79-84 | the backend does not resolve "99" |
| CrossChecks.UnlistedCodeRejectedByBackend | src/utils/danGenerator.ts:38-40 | the client generates a DAN with code "99" that the client's check accepts and the backend rejects with a state-code error |
| CrossChecks.KwaraByCode | backend/src/services/DANService.ts:26 | the backend reads code "24" as Kwara ("KW") |
| CrossChecks.TablesPartAtFifteen | src/utils/stateCodes.ts:15-16 | both tables give "14" to Enugu; "15" is Gombe for the client and the capital territory for the backend, which gives Gombe "16"; the client gives the capital territory "37", the backend gives "37" to Zamfara |
| CrossChecks.TablesDisagreeOnLagos | src/utils/stateCodes.ts:25 | the client gives Lagos "24"; the backend gives Lagos "25" and reads "24" as Kwara |
| CrossChecks.ClientLagosDecodesAsKwara | src/utils/stateCodes.ts:25 | a DAN the client generates with code "24" decodes at the backend as a Kwara address |
| CrossChecks.DecodedState | backend/src/services/DANService.ts:69-84 | a 12-digit DAN with the country code and a known code decodes to that code's state |
| Tables.FirstValueIndex | backend/src/services/DANService.ts:79-80 | the reverse lookup finds the first entry with the value, and finds none exactly when no entry has it |
| Tables.ValueOfAgrees | src/utils/stateCodes.ts:41-43 | a lookup that finds every entry of a table with distinct keys, and nothing else, is the table's keyed lookup |
| Tables.KeyOfAgrees | src/utils/stateCodes.ts:45-47 | a reverse lookup that finds every entry of a table with distinct values, and nothing else, is the table's first-match search |
| Tables.TwoDigitCodeInjective | src/utils/stateCodes.ts:1-39 | two-digit codes of different numbers differ |
| JsText.ZeroPaddedDecimal | backend/src/services/DANService.ts:162 | a number below 10^w, written in decimal and padded with zeros to width w, is exactly w digits and denotes the number |
| JsText.DecimalRoundTrip | backend/src/services/DANService.ts:162 | reading back the decimal text of a number gives the number |
| JsText.ParseInt | backend/src/services/DANService.ts:166 | a string whose first character is not white space, a sign or a digit parses to NaN; a string starting with a decimal digit, unless it is a `0x` or `0X` prefix, parses to the number its leading run of digits denotes |
| JsText.ParseIntOfDigits | backend/src/services/DANService.ts:166 | `parseInt` of a non-empty string of decimal digits reads the whole string |
| JsText.ToUpperCase | backend/src/services/DANService.ts:44 | upper-casing keeps the length and maps each character to its single-character upper-case form |

## Left out

- The great-circle distance (`calculateDistance`, `toRadians`) is floating-point trigonometry. A fix carries its distance from the destination as a parameter instead.
- The database query in `decodeDAN` is the `store` oracle: any error or empty result is `None`. `parseFloat` of the stored columns is assumed to give the stored numbers.
- `crc32` (from `js-crc`) with `parseInt(…, 16)`, and `Number.toFixed(6)`, are foreign functions. They are parameters of the client generator.
- `toFixed(1)` in `formatDistance` is a parameter. Only the branch, the metre rounding and the unit are modelled.
- Numbers are exact reals and integers. IEEE-754 rounding in the centroid mean, the clamping, the division by the city speed and the floors is not modelled, and the cell bounds hold for the exact values.
- `Alert`, the permission request, `watchPositionAsync`, React state and `console.error` are left out. Their outcomes become event parameters (`Permission`, `watchStarted`) and outputs (`ArrivalAlert`, `PermissionAlert`). `handleSearch` and the screen rendering are not part of this model.
- Inputs of the wrong JSON type (`coordinates` that is not an array, entries that are not numbers) are left out, because the types rule them out.
- Inherited object keys such as `"toString"` are left out of the client's `getStateCode`. It indexes the object with the name as given, so `getStateCode("toString")` finds the inherited method rather than `undefined`; the model's table holds only its own entries. The other lookups cannot reach such keys. The backend upper-cases the key first, and every inherited key has a lower-case letter. `getStateName` and `decodeDAN` search `Object.keys` and `Object.entries`, which list own entries only.
- The route handed to `startNavigation` is stored but never read. It is a plain datatype, and `getCurrentStepIndex` and `getNextInstruction` are constants because their source ignores the position.
- DanService.Decode: strings are sequences of Unicode code points, while JavaScript's `length` and `slice` count UTF-16 code units. The two agree on every character below U+10000. A character above it, such as an emoji, is one character here and two in JavaScript. So the input `23425`, then U+1F600, then `abcde` has length 12 in the source and passes its frame check (decoding as Lagos with `NaN` coordinates on a store miss), but has length 11 here and fails with `InvalidDanFormat`. The client's `validateDAN` and the corrected `DanService.DecodeStrict` reject such input on both counts, since it is not all digits.
- JsText.ToUpperCase: only characters whose upper-case form is a single ASCII capital are mapped. Others keep their own form, including ß and the Latin ligatures, which JavaScript expands to several capitals. None of those forms is a two-letter backend abbreviation, so lookups succeed and fail for the same names.
- Navigation.FormatDurationReads: stated for non-negative durations only (`DurationSplits`). The estimate never produces a negative one.
- Navigation.FormatDistanceMetres: stated for non-negative distances, the only ones the distance function produces.

## Findings

| source | as written | input that shows it | evidently intended | confidence | as-written member | corrected member |
|---|---|---|---|---|---|---|
| backend/src/services/DANService.ts:69-76 | after stripping separators, `decodeDAN` checks only the length and the `234` prefix, never that the remaining characters are digits; `parseInt` of a non-digit location field gives `NaN` coordinates | `"23425abcdefg"` decodes as a Lagos DAN with latitude and longitude `NaN` when the building is not stored | a DAN is twelve decimal digits, as the client's check demands; anything else is an invalid format | not executed | DanService.DecodeAcceptsNonDigits | DanService.DecodeStrict |
