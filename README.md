# KML facility pipeline, modelled in Dafny

The system reads a KML map of relief facilities for Guangfu township (mobile toilets, shower stations, water stations, medical stations). The same document is read by three independent readers, and the results feed a map viewer:

- **Production Apps Script service** (`gas-api-production.js`). It reads every `Placemark` into a facility record. The placemark's coordinates are resolved through a cascade: the coordinate link, then the `Point` geometry, then geocoding of the address or a keyword estimate, then a hand-made table. The service then answers queries over the records: a filtered and paginated listing, one record by id, per-type statistics, the distinct types, free-text search, and radius search.
- **Simple Apps Script service** (`gas-api-simple.js`). It has the same ExtendedData reading, a shorter cascade (link, `Point`, manual table), ids numbered `test_<index>`, and a pre-order placemark search. Its fallback reader of a KMZ (ZIP) archive takes the stored `doc.kml` entry straight out of the bytes.
- **Browser parser** (`kml-parser.js`, class `KMLParser`). It walks every `Folder` of the document through the DOM and keeps the parsed records in its `facilitiesData` field. It also tallies the facilities of each type.
- **Map viewer** (`app.js`). It holds the page state: the records, the current type filter, the search results and whether a search is active. Search, clear, filter and dashboard-card toggles drive that state. From the records it computes:
  - the facilities table and the dashboard counters;
  - the nearby-facility list;
  - the Google Maps links;
  - the validated manual location;
  - the keyword fallback geocoder.

## How the model is laid out

| module | file | models |
|---|---|---|
| `Wrappers` | wrappers.dfy | `Option` (null/undefined), `Result` (thrown errors, failure envelopes), `Somes` (what a loop that pushes only non-null results collects) |
| `JsText` | js_text.dfy | `trim`, the `\s` class, ASCII `toLowerCase`, `includes`, `split` on one character, `Array.prototype.slice` |
| `JsNumber` | js_number.dfy | `parseFloat` (a `Num` is NaN or an exact real), `parseInt`, the first `\d+` run of a note, the decimal rendering of an index |
| `CoordPattern` | coord_pattern.dfy | the three coordinate regular expressions, with leftmost-match semantics |
| `UriDecode` | uri_decode.dfy | `decodeURIComponent` over UTF-8 |
| `Category` | category.dfy | both `normalizeCategory` functions |
| `Resolver` | resolver.dfy | link parsing, `Point` text, estimate, geocoder fallback, manual table |
| `Xml` | xml.dfy | an already-parsed element tree, with the `XmlService` (`getChild`, `getChildren`, `getText`) and DOM (`querySelector`, `querySelectorAll`, `textContent`) views of it |
| `ProductionFeed` | production_feed.dfy | `parseExtendedData`, `parsePlacemark`, `parseKMLContent` of the production service |
| `Query` | query.dfy | the production service's query endpoints |
| `SimpleFeed` | simple_feed.dfy | `searchPlacemarks` and `parseKMLContent` of the simple service |
| `ZipExtract` | zip_extract.dfy | `extractKMLFromZip` |
| `KmlParser` | kml_parser.dfy | class `KMLParser` |
| `App` | app.dfy | the viewer (`class Viewer`) and its pure computations |

Code that updates state step by step is written as methods with loops, and each method is proved equal to a specification function. This covers:
- the placemark loops;
- the ExtendedData loops;
- the statistics loops;
- the ZIP byte scan;
- the viewer's table and dashboard loops.

The parser object and the viewer's module-level variables are classes whose methods state their entire new state. Lookups, regular-expression matches and filter/sort chains are functions.

## Behaviour of the code a reader might not expect

The model follows the code in each of these cases.

- **Geocoding never fails.** `geocodeAddress` ends in a keyword estimate that always answers. So the manual table, which the cascade tries after geocoding (gas-api-production.js:265-272), is consulted only when the address is empty (`ProductionFeed.DroppedOnlyWhenEverythingFails`).
- **The `@lat,lng` and `ll=` link forms never contribute.** Any text they match is matched first by the generic pair (`Resolver.GoogleFormsNeverContribute`).
- **No coordinate is range-checked.** None of the readers checks that a latitude or longitude is in range. The browser parser emits NaN coordinates from a `Point` whose text is not numeric (`KmlParser.NestedPlacemarkTwice`).
- **The browser parser does not visit every placemark exactly once.** It reads only placemarks below a `Folder`, and reads a placemark once for every folder that encloses it (`KmlParser.FolderRecordsFromFolders`, `KmlParser.NestedPlacemarkTwice`).
- **The simple service does not normalise the type.** It keeps the `類別` value as written, or `未分類`.
- **The browser parser tests its keywords without lower-casing.** The service lower-cases first. No keyword contains a Latin letter, so the result is the same (`Category.ParserAgreesWithService`).
- **The byte order mark test never fires.** Stripping a leading byte order mark after `trim` does nothing, because `trim` already removes it (`ProductionFeed.ByteOrderMarkAlreadyTrimmed`).
- **The ZIP reader has no first-file fallback.** It searches for the names `doc.kml`, then `.kml`, and returns null when neither leads to a usable header.
- **The ZIP reader's name search stops one position early.** An occurrence of the name in the last bytes is never seen (`ZipExtract.NameAtEndUnseen`). In a real archive the central directory follows the entry, so the name of a local header is never last.
- **A compressed header ends the ZIP search.** The first usable header with a method other than 0 gives null; later headers are not examined (`ZipExtract.ScanHeadersFirst`).

## Model

| member | source | states |
|---|---|---|
| JsText.TrimEmptyIffBlank | app.js:192-194 | `trim()` yields '' exactly when every character is ECMAScript whitespace: the blank-query test of the search box |
| JsText.LowerKeepsKeyword | gas-api-production.js:586-596 | for a keyword without ASCII letters, lower-casing the text does not change whether the keyword occurs in it |
| JsText.SplitJoin | gas-api-production.js:561-562 | `split(',')` loses nothing: joining the fields with the separator gives the text back |
| JsText.SplitOfJoin | kml-parser.js:110-111 | splitting text made of comma-free fields joined by commas gives exactly those fields |
| JsText.JsSlice | gas-api-production.js:627-629 | `slice(start, end)` within bounds is the sub-list from start to end |
| JsNumber.ParseFloat | gas-api-production.js:564-566 | `parseFloat` gives a number exactly when the text, after leading whitespace and a sign, starts with a digit run or a point and digits; NaN otherwise |
| JsNumber.NoteQuantityIsFirstRun | gas-api-production.js:691-695 | a note's quantity is the value of its first digit run, whatever text comes before or after it |
| JsNumber.NoteQuantityExamples | kml-parser.js:185-189 | the note "4座" contributes 4, "共12座" 12, and a note without digits 0 |
| JsNumber.NatToDecimal | gas-api-simple.js:344 | the decimal rendering of an index is non-empty, all digits, and reads back as the index |
| JsNumber.NatToDecimalInjective | gas-api-simple.js:344 | distinct indices render as distinct text |
| JsNumber.ParseIntOfDigits | gas-api-production.js:624-625 | `parseInt` reads a run of decimal digits as its value |
| CoordPattern.MatchPair | gas-api-production.js:384 | `match` with the generic pattern fails exactly when the pattern matches at no position, and otherwise gives the match at the least position where it matches |
| CoordPattern.FirstPairLeftmost | gas-api-production.js:384 | the start of the generic match is a position where the pattern matches, and it matches at none before it |
| CoordPattern.FirstFrom | gas-api-production.js:384 | the match position is the least start position where the pattern matches, and none matches before it: `match` returns the leftmost match |
| CoordPattern.PairAtTokens | gas-api-production.js:384 | both groups of a generic match start with a digit, or with '-' and a digit |
| CoordPattern.PairAlwaysParses | gas-api-production.js:384-393 | a generic match always yields two numbers: the `isNaN` guard after the match never rejects it |
| CoordPattern.AtPatternNeedsGeneric | gas-api-production.js:384-408 | any text the `@lat,lng` pattern matches is matched by the generic pattern too |
| CoordPattern.LlPatternNeedsGeneric | gas-api-production.js:384-419 | any text the `[?&]ll=lat,lng` pattern matches is matched by the generic pattern too |
| UriDecode.Decode | gas-api-production.js:424 | `decodeURIComponent` never yields text longer than its input: every escape or escape sequence gives at most one character |
| UriDecode.DecodeWithoutPercent | gas-api-production.js:423-424 | text without '%' decodes to itself |
| UriDecode.TruncatedEscapeFails | gas-api-production.js:424 | an escape cut short is a `URIError` |
| UriDecode.DecodeEscapeAll | gas-api-production.js:424 | decoding undoes percent-encoding of every character of ASCII text |
| UriDecode.EscapedComma | gas-api-production.js:423-427 | `%2C` decodes to ',' |
| Category.NormalizeCategory | gas-api-production.js:583-599 | the type is never empty, and it is either the category as written or one of 未分類, 流動廁所, 沐浴站, 取水站 |
| Category.NormalizeCategoryParser | kml-parser.js:147-162 | the browser parser's type is never empty, and it is either the category as written or one of the four canonical types; a missing category gives 未分類 |
| Category.NormalizeCategoryRules | gas-api-production.js:583-599 | the ordered rules: '' gives 未分類; text containing 廁所 gives 流動廁所; else text containing 沐浴 gives 沐浴站; else text containing 取水站, 加水站 or 自來水 gives 取水站; any other text is returned unchanged |
| Category.CanonicalNamesAreFixed | gas-api-production.js:588-596 | each canonical type matches its own rule, and 未分類 matches none |
| Category.KeywordClassIgnoresCase | gas-api-production.js:586 | lower-casing before the keyword tests changes no outcome |
| Category.NormalizeCategoryIdempotent | gas-api-production.js:583-599 | normalising a normalised category changes nothing |
| Category.ParserAgreesWithService | kml-parser.js:147-162 | the browser parser's rules give the same type as the service's for every present category |
| Category.NormalizeCategoryParserIdempotent | kml-parser.js:147-162 | the browser parser's normalisation, an absent category included, is idempotent |
| Resolver.ParseCoordinatesFromLink | gas-api-production.js:373-445 | when the trimmed link holds a generic pair, that pair is the answer; otherwise the answer is the generic pair of the percent-decoded link when it contains `%2C` (none when decoding throws), and none otherwise |
| Resolver.BlankLinkFails | gas-api-production.js:375-377 | an empty or whitespace-only link gives no coordinates |
| Resolver.GenericPairWins | gas-api-production.js:381-393 | when the trimmed link holds a generic pair, the answer is that leftmost pair, first number latitude, second longitude |
| Resolver.GoogleFormsNeverContribute | gas-api-production.js:395-444 | without a generic pair the answer is the generic pair of the percent-decoded link when it contains `%2C` (none when decoding throws), and none otherwise |
| Resolver.PointFieldsSwap | gas-api-production.js:561-565 | for `Point` text `lng,lat,...` the latitude is the second field and the longitude the first |
| Resolver.PointFieldsNeedComma | gas-api-production.js:562-563 | `Point` text with fewer than two fields gives nothing |
| Resolver.EstimateCoordinates | gas-api-production.js:516-543 | the estimate lies within 0.001 degree of the first keyword centroid (in rule order) of the lower-cased address, or of the township centre |
| Resolver.EstimateInDistrict | gas-api-production.js:519-540 | every estimate lies in the box spanned by the centroids widened by the jitter |
| Resolver.GeocodeAddress | gas-api-production.js:450-511 | a pair written in the address wins; else the geocoding answer; without one, exactly the keyword estimate, which lies within 0.001 degree of the address's centroid in latitude and in longitude |
| Resolver.ExactRow | gas-api-production.js:806-810 | the exact-name step finds nothing exactly when no row has that name |
| Resolver.PartialRow | gas-api-production.js:813-819 | the partial step finds nothing exactly when no row name contains the name or is contained in it |
| Resolver.FragmentRow | gas-api-production.js:822-847 | the address step finds nothing exactly when the address holds none of the five fragments |
| Resolver.GetManualCoordinates | gas-api-production.js:790-859 | the corrected lookup (see Findings) answers only with the coordinates of a table row related to the name by containment, or of an address rule whose fragment the lower-cased address holds |
| Resolver.ManualLookupFails | gas-api-production.js:790-859 | the corrected lookup (see Findings) gives nothing exactly when no row is related to the name by containment and the address holds no fragment |
| Resolver.EmptyNameTakesFirstRow | gas-api-simple.js:390-394 | an empty name is contained in every key, so it takes the first row, 光復國中 |
| Resolver.KeyFindsOwnRow | gas-api-production.js:806-819 | every key finds its own row by both the exact and the partial step, so the exact step never changes a result |
| Resolver.InheritedNameAnswers | gas-api-production.js:806-810 | a placemark named `toString` is answered by the inherited member under the code as written, while the intended lookup finds nothing |
| Resolver.GetManualCoordinatesAsWritten | gas-api-production.js:807-811 | the lookup as written answers with an inherited member exactly for the names every object inherits; for every other name it answers with a row exactly when the corrected lookup does, with the same coordinates |
| Resolver.PrototypeNamesUnknown | gas-api-production.js:807-819 | no inherited name equals a table key or is related to one by containment, so neither the exact nor the partial step finds a row for it |
| ProductionFeed.ParseExtendedData | gas-api-production.js:303-368 | the loop leaves the four fields as every `Data` element, in order, assigned to the field its name selects, starting from '' |
| ProductionFeed.LastWriteWins | gas-api-simple.js:411-460 | each field holds the value of the last `Data` element with its name, '' when there is none |
| ProductionFeed.OtherNamesIgnored | gas-api-production.js:343-356 | a `Data` element with any other name changes no field |
| ProductionFeed.ResolveCoordinates | gas-api-production.js:255-280 | a placemark with a `Point` answer or a non-empty address always gets coordinates, and they come from the link, the `Point`, the geocoder or the corrected manual lookup |
| ProductionFeed.DroppedOnlyWhenEverythingFails | gas-api-production.js:255-280 | a placemark is dropped exactly when the link and the `Point` give nothing, the address is empty and the manual table does not know the name |
| ProductionFeed.CascadeOrder | gas-api-production.js:255-273 | the link's answer wins; then the `Point`'s; then, for a non-empty address, the geocoder's; with an empty address, the manual table's |
| ProductionFeed.ParsePlacemark | gas-api-production.js:282-292 | every emitted record's type is a fixed point of `normalizeCategory` |
| ProductionFeed.ParsedPlacemarkFields | gas-api-production.js:245-292 | a record is emitted exactly when the cascade resolves the last 地址LINK value, the `Point` and the address in force (the last `Data` address, else the `address` text); its id is the index's uuid, its name the trimmed name or '未命名', its type the normalised last category or '未分類', its note the last `Data` note, its coordinates the cascade's answer and its description the `description` text |
| ProductionFeed.ByteOrderMarkAlreadyTrimmed | gas-api-production.js:160-164 | the cleaning of the KML text is `trim` alone: the byte order mark test never fires |
| ProductionFeed.ParseEach | gas-api-production.js:185-187 | the placemark at index `i` is parsed with index `i` |
| ProductionFeed.ParseKMLContent | gas-api-production.js:176-191 | the loop collects, in document order, the records of the placemarks that resolve |
| ProductionFeed.EmittedRecords | gas-api-production.js:179-191 | there are never more records than placemarks, and every record's type is normalised |
| Query.OfType | gas-api-production.js:610-612 | the type filter keeps exactly the records of that type |
| Query.Matching | gas-api-production.js:614-621 | the search filter keeps exactly the records whose lower-cased name, address, type or note contains the term |
| Query.CeilDiv | gas-api-production.js:638 | `Math.ceil(total / limit)` is the least number of pages of `limit` that hold `total` records |
| Query.IntOr | gas-api-production.js:625-626 | `parseInt(text) \|\| default` is the parsed value when that is a non-zero number, the default when it is NaN or 0, and never 0 when the default is not 0 |
| Query.GetFacilities | gas-api-production.js:604-642 | `total` is the number of filtered records; the page and the limit are the parameters read by `parseInt` with defaults 1 and 50; the data is that page of the filtered records (`PageIsBlock`); `totalPages` is `Math.ceil(total / limit)` |
| Query.PageIsBlock | gas-api-production.js:627-629 | for page and limit of at least 1, the page is the `page`-th block of `limit` records, cut short at the end |
| Query.PagesArePrefix | gas-api-production.js:627-629 | the first `k` pages together are the first `k * limit` records |
| Query.AllPagesCoverList | gas-api-production.js:627-638 | pages 1 to `totalPages` together are the list, each record once and in order |
| Query.ListingPagesCoverFiltered | gas-api-production.js:604-642 | the data of the listings a client gets for pages 1 to `totalPages`, concatenated, is the filtered list: every matching record once, in order |
| Query.ListingOfPageData | gas-api-production.js:624-629 | the listing a client gets with `page=k` holds the `k`-th page of the filtered records |
| Query.ListedDataArePages | gas-api-production.js:624-629 | requesting pages 1 to `k` gives the first `k` pages of the filtered records, whatever page the original request named |
| Query.GetFacility | gas-api-production.js:647-664 | the answer is a record of the list with the requested id, and the lookup fails exactly when no record has that id |
| Query.GetFacilityFindsFirst | gas-api-production.js:649 | `find` returns the first record with the id |
| Query.Distinct | gas-api-production.js:713 | `[...new Set(types)]` holds every type once and nothing else, in the order of each type's first occurrence |
| Query.GetFacilityTypes | gas-api-production.js:711-720 | the types listed are exactly the types of the records, each once |
| Query.GetStats | gas-api-production.js:669-706 | the loop's map is the statistics of the records counted in order, and `totalFacilities` is their number |
| Query.SummaryCounts | gas-api-production.js:683-688 | a type's count is its number of records, and its member list holds their id, name and address in order |
| Query.StatsKeys | gas-api-production.js:673-681 | the statistics have an entry for exactly the types that occur |
| Query.StatsAreSummaries | gas-api-production.js:669-706 | each type's entry equals the summary of that type's records counted on their own |
| Query.CountsAddUp | gas-api-production.js:669-706 | the per-type counts, over the distinct types, add up to the number of records |
| Query.CountsStep | gas-api-production.js:669-706 | one more record adds exactly one to the sum of the per-type counts, whether its type is new or already listed |
| Query.SearchFacilities | gas-api-production.js:725-750 | an empty query is the error; otherwise the result holds exactly the records matching the lower-cased query |
| Query.Within | gas-api-production.js:769-775 | the kept entries are records of the list, each with its distance from the centre, within the radius; every record within the radius is kept |
| Query.Insert | gas-api-production.js:776 | inserting into a list sorted by distance keeps it sorted and adds exactly that entry |
| Query.SortByDistance | gas-api-production.js:776 | the result is sorted by distance, not decreasing, and is a permutation of its input |
| Query.NearbyResults | gas-api-production.js:755-785 | the results are sorted nearest first and are a permutation of the records within the radius; each is a record of the list with its distance, within the radius, and every record within the radius is among them |
| Query.SortedWithin | gas-api-production.js:769-776 | sorting the kept entries loses none and adds none: each result is a record within the radius, and every such record is a result |
| Query.GetNearbyFacilities | gas-api-production.js:756-762 | the failure envelope is returned exactly when the latitude or the longitude is empty; a centre that does not read as a number gives no results |
| Query.DefaultRadius | gas-api-production.js:767 | a radius that reads as NaN or 0 is 5 km |
| SimpleFeed.SearchPlacemarks | gas-api-simple.js:585-603 | the search returns the element itself when it is a placemark, then every placemark below it in pre-order, nested placemarks included |
| SimpleFeed.AsCoords | gas-api-simple.js:342 | a `lat`/`lng` pair is usable exactly when both are present and neither is NaN |
| SimpleFeed.SimpleManualAgrees | gas-api-simple.js:370-408 | the simple lookup, as written, agrees with the corrected lookup on every name an object does not inherit, and finds nothing for the names it does inherit |
| SimpleFeed.SimpleLookupFails | gas-api-simple.js:370-408 | the simple lookup finds nothing exactly when the name is inherited, or no row is related to the name by containment and the address holds no fragment |
| SimpleFeed.SimpleCoordinates | gas-api-simple.js:300-342 | a placemark is dropped exactly when the link and the `Point` give nothing and the name is inherited or unknown to the corrected lookup; otherwise its coordinates come from the link, the `Point` or the corrected lookup |
| SimpleFeed.InheritedNameDropped | gas-api-simple.js:333-342 | a placemark named after an inherited member with no usable link or `Point` is dropped, whatever its address holds |
| SimpleFeed.LinkStep | gas-api-simple.js:300-309 | the link step sets the first pair the untrimmed link matches, and leaves both null otherwise |
| SimpleFeed.PointStep | gas-api-simple.js:312-330 | the `Point` step gives usable coordinates exactly when both fields of the `Point` text are numbers, latitude second |
| SimpleFeed.ManualStep | gas-api-simple.js:333-340 | the manual step gives the simple lookup's answer; for an inherited name it sets `lat` and `lng` to undefined (NaN), which the NaN check then rejects |
| SimpleFeed.ResolveSimple | gas-api-simple.js:300-342 | the three steps as written end with the first usable source in the order link, `Point`, simple lookup as written |
| SimpleFeed.SimpleIdInjective | gas-api-simple.js:344 | the ids `'test_' + i` of distinct indices differ |
| SimpleFeed.SimpleRecord | gas-api-simple.js:342-354 | an emitted record has the id of its index, a non-empty name, and a non-empty type |
| SimpleFeed.ParseSimplePlacemark | gas-api-simple.js:260-366 | the loop body gives the record the cascade determines for the placemark at its index |
| SimpleFeed.ParseKMLContentSimple | gas-api-simple.js:237-367 | the loop collects, in document order, the records of the placemarks that resolve |
| SimpleFeed.KeptIdsDistinct | gas-api-simple.js:342-354 | the records kept from a run of indices have pairwise distinct ids, each the id of one of those indices |
| SimpleFeed.SimpleIdsUnique | gas-api-simple.js:259-367 | no two records of one parse share an id |
| SimpleFeed.SimpleAgreesWithService | gas-api-simple.js:300-340 | without an address, and with a link that is empty or holds a pair, the simple cascade and the production cascade give the same coordinates |
| SimpleFeed.SimpleManualWithoutAddress | gas-api-simple.js:370-408 | without an address the simple lookup and the corrected lookup give the same answer for every name |
| SimpleFeed.AddressResolvedOnlyByService | gas-api-simple.js:333-340 | with an address and no link or `Point` answer, the production service always answers, while the simple script asks only the manual table |
| ZipExtract.Extract | gas-api-simple.js:492-580 | any text the reader returns is the data of a local file header in the bytes: its signature is there and its method is 0 |
| ZipExtract.NothingUsableGivesNull | gas-api-simple.js:492-580 | when no header in the bytes is usable the reader returns null |
| ZipExtract.ScanHeadersFirst | gas-api-simple.js:520-566 | the first usable header of a look-back decides it: a later header is never examined, even when the first is compressed and gives null |
| ZipExtract.ScanHeadersNone | gas-api-simple.js:520-566 | the look-back goes on to the next occurrence exactly when no header in it is usable |
| ZipExtract.ScanPositionsFirst | gas-api-simple.js:509-569 | the first occurrence of a name whose look-back ends the search decides the scan of that name |
| ZipExtract.ScanPositionsNoName | gas-api-simple.js:509-518 | a scan over positions that do not hold the name goes on to the next name |
| ZipExtract.HeaderTextSize | gas-api-simple.js:541-561 | read unsigned, the text of a usable header has exactly as many characters as its size field, and its method is 0 |
| ZipExtract.NameAtEndUnseen | gas-api-simple.js:509 | an archive whose only name occurrence starts at `length - 7` gives null, although the header at 0 is usable: the loop stops one position short of the end |
| ZipExtract.Read32Encoded | gas-api-simple.js:529-530 | a 4-byte little-endian field, read on the unsigned values of its bytes, gives back the number it encodes |
| ZipExtract.Read16Encoded | gas-api-simple.js:533-536 | a 2-byte little-endian field, read on the unsigned values of its bytes, gives back the number it encodes |
| ZipExtract.SignedSizeMisread | gas-api-simple.js:529-530 | on Apps Script's signed bytes, a size of 200 stored as 0xC8 reads as -56 under the code as written |
| ZipExtract.SignedSizeTruncates | gas-api-simple.js:541-559 | with the size misread as -56, the data of a 200-byte entry at offset 0 ends at -19, which `slice` counts from the end: an archive of that entry alone gives its first 181 content bytes |
| ZipExtract.StoredFields | gas-api-simple.js:524-550 | a stored archive has the signature at 0, its content size at 18, its name length at 26, no extra field and method 0 |
| ZipExtract.ScanFindsHeader | gas-api-simple.js:509-525 | scanning back from an occurrence of the name at most 100 bytes after a usable header at 0 returns that header's answer |
| ZipExtract.ExtractFindsHeader | gas-api-simple.js:503-571 | when `doc.kml` stands within 100 bytes after a usable header at 0 (but not at 0), the extractor returns that header's answer |
| ZipExtract.StoredArchiveRoundTrip | gas-api-simple.js:492-580 | an archive starting with a stored `doc.kml` is read back as its content, one character per byte |
| ZipExtract.BytesToText | gas-api-simple.js:556-561 | the loop builds the text of the stored bytes, one Latin-1 character per byte |
| ZipExtract.NameMatches | gas-api-simple.js:510-516 | the byte comparison reports a match exactly when every code of the search string stands at `i` |
| ZipExtract.ExamineHeader | gas-api-simple.js:524-566 | a candidate header ends the search only when its data lies inside the bytes: with the text for method 0, with null for any other method |
| ZipExtract.ExtractKMLFromZip | gas-api-simple.js:492-580 | the three nested loops return the outcome of the first usable header, trying every `doc.kml` occurrence before `.kml` and looking back at most 100 bytes; null when there is none; each byte is read as its unsigned value (see Left out) |
| KmlParser.TrimmedText | kml-parser.js:51-53 | `querySelector(name)?.textContent?.trim()` is undefined exactly when there is no such descendant, and otherwise that descendant's trimmed text |
| KmlParser.OrDefault | kml-parser.js:90-96 | `value \|\| default` is the value when it is present and non-empty, else the default |
| KmlParser.FoldDataFields | kml-parser.js:57-79 | category, note and address end as the value of the last `Data` element with their name, or as they started |
| KmlParser.OtherDataIgnored | kml-parser.js:67-77 | a `Data` element named 地址LINK, or anything else, changes nothing |
| KmlParser.ParseCoordinates | kml-parser.js:106-144 | a `Point` with two fields gives its fields, read without any NaN check; else a non-empty address value holding a comma and a pair gives that pair; else a non-empty description holding a pair gives that pair; the result is null exactly when none of the three applies |
| KmlParser.PairCoordinatesAreFinite | kml-parser.js:121-141 | without a `Point`, coordinates come only from a matched pair and are always numbers |
| KmlParser.Emit | kml-parser.js:82-97 | a record is returned exactly when coordinates are found; its name and type are non-empty, and its type is a fixed point of `normalizeCategory` |
| KmlParser.PlacemarkRecord | kml-parser.js:49-103 | every returned record has a non-empty name and a normalised type |
| KmlParser.PlacemarkRecordFields | kml-parser.js:49-97 | every field of the record: the type from the last 類別 or the folder's name, the note from the last 備註 or '', the address from the last 地址或google座標 or the `address` text, and the coordinates from the address in force |
| KmlParser.PlacemarkResults | kml-parser.js:31-32 | each placemark of a folder is parsed with that folder's name |
| KmlParser.FolderRecordsFromFolders | kml-parser.js:22-37 | a record is collected exactly when some folder has a placemark that parses to it: placemarks outside every folder are never read |
| KmlParser.DocumentTypesAreNormal | kml-parser.js:19-37 | every record the parser collects has a non-empty name, and a type `normalizeCategory` leaves as it is |
| KmlParser.NestedPlacemarkTwice | kml-parser.js:22-37 | a placemark inside two nested folders is collected twice, and a non-numeric `Point` still gives a record, with NaN coordinates |
| KmlParser.PlacemarkOfNaNPoint | kml-parser.js:108-117 | a `Point` whose fields are not numbers gives coordinates anyway, NaN |
| KmlParser.OfKind | kml-parser.js:174 | the records of one type are exactly those with that type |
| KmlParser.StatsAreTallies | kml-parser.js:170-193 | a type has counters exactly when it has records and is not the name of an inherited member; its counters are its number of records and the sum of their notes' first numbers |
| KmlParser.TallyEffect | kml-parser.js:173-190 | counting one record touches only its own type's counters |
| KmlParser.KMLParser.constructor | kml-parser.js:3-5 | a new parser holds no records |
| KmlParser.KMLParser.ParseKMLFile | kml-parser.js:8-46 | a `parsererror` element gives the error 'KML解析錯誤: ' with its text, and the records are kept; otherwise the records become those of every placemark of every folder, and are returned |
| KmlParser.KMLParser.ParseFolder | kml-parser.js:24-37 | one folder appends the records of its placemarks, in order, to those already collected |
| KmlParser.KMLParser.ParsePlacemark | kml-parser.js:49-103 | the `Data` loop and what follows it give the record `PlacemarkRecord` states |
| KmlParser.KMLParser.GetStatsByType | kml-parser.js:170-193 | the loop's counters are the tallies of the records, counted in order |
| App.TypeColor | app.js:1307 | a type missing from the configuration is coloured '#gray' |
| App.ColorIn | app.js:12-37 | a type missing from the configuration is coloured '#gray' |
| App.ColorOfFirstEntry | app.js:12-37 | a configured type gets the colour of its first configuration entry |
| App.GenerateGoogleMapsUrl | app.js:174-188 | the link goes to the coordinates exactly when both are truthy numbers; else to the address exactly when it is non-empty; else to the township |
| App.ZeroCoordinateFallsBack | app.js:176 | a latitude of 0 reads as missing, and the address is used |
| App.TableRows | app.js:1291-1323 | one row per shown record, in order, with its colour and link |
| App.TableShowsOnlyFilter | app.js:1295-1298 | under a type filter every row is of that type, and every record of that type has its row |
| App.ToggleTwice | app.js:1372-1380 | clicking the same card twice, from 'all', returns to 'all' |
| App.ToggleSwitches | app.js:1373-1379 | a card of another type selects that type, and clicking it again returns to 'all' |
| App.SearchMatches | app.js:200-206 | the search keeps exactly the records whose lower-cased name, address, type or note contains the term |
| App.SearchKeepsOrder | app.js:200-206 | the search keeps records in their order: over two runs of records it finds the first run's matches, then the second's |
| App.NearbySites | app.js:477-482 | each kept entry is a record with truthy latitude and longitude, within the radius, with its distance; every such record within the radius is kept |
| App.FindNearbyFacilities | app.js:476-503 | the nearby list is sorted nearest first and is a permutation of the kept entries |
| App.NearbyIsSortedSelection | app.js:476-490 | the nearby list is sorted nearest first and holds exactly the kept entries: each is a record with truthy coordinates within the radius, and every such record is listed; the radius defaults to 5 km |
| App.SetManualLocation | app.js:834-858 | the location is set exactly when both inputs are numbers, the latitude is in [-90, 90] and the longitude in [-180, 180]; a NaN input gives '請輸入有效的緯度和經度' |
| App.LatitudeCheckedFirst | app.js:844-852 | a latitude above 90 or below -90 gives the latitude message whatever the longitude is: the latitude is checked first |
| App.FallbackGeocoding | app.js:1060-1100 | no area is found exactly when no rule has both keywords in the lower-cased address; an area found is a listed rule whose two keywords both occur |
| App.FirstRule | app.js:1060-1100 | no area is found exactly when no rule has both keywords in the address, and an area found is a rule whose keywords both occur |
| App.FirstRuleIsFirst | app.js:1063-1094 | the area found is the first rule, in listed order, whose two keywords both occur |
| App.EarlierAreaWins | app.js:1066-1071 | an address naming 光復, 中山路 and 林森路 is placed on 中山路, the earlier rule |
| App.Cards | app.js:1269-1288 | there is one dashboard card per configured type |
| App.CardsAgreeWithParserStats | app.js:1269-1288 | each card shows the same count and total as the parser's `getStatsByType`, and a type it does not count shows 0 |
| App.OtherTypesUncounted | app.js:1270-1272 | records of a type that is not configured are counted on no card |
| App.LoadedData | app.js:84-156 | every record the page loads, parsed or built in, has a name and a type `normalizeCategory` leaves as it is |
| App.FallbackRecordsNormal | app.js:119-156 | the four built-in records have names and canonical types |
| App.Viewer.constructor | app.js:4-9 | the page starts with no records, filter 'all', no search results and no active search |
| App.Viewer.LoadKMLData | app.js:84-116 | the records become those a new parser reads from the document, or the fallback records when the fetch or the parse fails; nothing else changes |
| App.Viewer.LoadFallbackData | app.js:119-156 | the records become the four built-in fallback records |
| App.Viewer.SearchFacilities | app.js:191-218 | a blank query clears the search and redraws the table for the current filter; any other query sets the results to the records matching the trimmed, lower-cased query and marks the search active |
| App.Viewer.ShowSearch | app.js:199-210 | the results become the matches of the term, the search becomes active, and nothing else changes |
| App.Viewer.ClearSearch | app.js:325-336 | the results are emptied, the search becomes inactive, and the table is redrawn for the current filter |
| App.Viewer.FilterFacilities | app.js:1326-1369 | the type becomes the current filter and the search becomes inactive; the table shows that type; the records and search results are unchanged |
| App.Viewer.ToggleFilter | app.js:1372-1380 | the filter becomes 'all' when the type was already selected, else the type, and the table follows |
| App.Viewer.UpdateTable | app.js:1291-1323 | the loop builds one row per shown record, in order |
| App.Viewer.UpdateStats | app.js:1269-1288 | the nested loops compute each configured type's count and the sum of its notes' first numbers |

## Left out

- **No I/O:**
  - HTTP routing, JSONP and envelope serialisation, timestamps and logging are not modelled. The time, the id `Utilities.getUuid` hands out, the geocoding service's answer and the `Math.random` draws are parameters (`ProductionFeed.Env`).
  - `fetch` of the KML file is the `Option` given to `Viewer.LoadKMLData`.
- **XML parsing:** `XmlService.parse` and `DOMParser` are not modelled. The readers start from an already-parsed tree, and a document `DOMParser` could not parse is one holding a `parsererror` element.
- **XML namespaces:** the `getChild(name, namespace) || getChild(name)` pairs are read without namespaces.
- **DEFLATE:** decompression, and `getKMLData`'s `Utilities.unzip` and cache, are not modelled. The ZIP reader returns null for any method other than 0, as the code does.
- **Haversine:** the haversine `calculateDistance` is an uninterpreted distance function, and floating point is read as exact reals.
- **Number formatting:** `parseFloat`'s `Infinity` literal is read as NaN, and the renderings of numbers and `encodeURIComponent` in a link's text are parameters of `App.Href`.
- **Lower-casing:** `toLowerCase` lower-cases ASCII letters only. Every keyword the pipeline tests is Chinese, so no keyword test depends on the rest.
- **Exceptions:** the try/catch paths whose only effect is a default, such as `'未命名_' + index` when `getChild` throws, cannot be reached on the tree model and are left out.
- **Browser view:** markers, toasts, modals, the DOM and the count in the filter toast are not modelled. The viewer's state is its records, filter, search results, search flag and table rows.
- **App.FallbackData:** the fallback records have no `description` in the code, and the model reads it as ''.
- **`Point coordinates` selector:** in the browser this selector also matches a `Point` ancestor outside the placemark. `Xml.SelectPointCoordinates` only looks inside the placemark.
- **Resolver.EstimateCoordinates:** the estimate is a value built from the centroid. The in-place update of the copied object is not modelled.
- **Query.GetStats:** a type named after an inherited member (`toString`, `constructor`, ...) makes the code throw on `stats[type].facilities.push`. The model counts such a type like any other.
- **KmlParser.StatsAreTallies:**
  - The statement that the counts over all types add up to the number of records is proved for the service (`Query.CountsAddUp`) but not for the parser. In the parser it fails for types named after inherited members, which `getStatsByType` never counts.
  - The increments such a type makes on the inherited member are not modelled.
- **KmlParser.KMLParser.GetFacilitiesData:** this plain accessor has no contract.
- **ProductionFeed.ResolveCoordinates:** the cascade uses the corrected lookup `Resolver.GetManualCoordinates`, not the one as written (`Resolver.GetManualCoordinatesAsWritten`), so a placemark named after an inherited member is modelled as finding no row rather than as emitted without coordinates (see Findings).
- **ZipExtract.ExtractKMLFromZip:** the bytes are read unsigned (see Findings row 2). The method is proved equal to `Extract(bytes, Unsigned)`, the corrected reading; the code as written, on Apps Script's signed bytes, is `Extract(bytes, AsWritten)`, which no method of the model runs.
- **Query.SortByDistance:** JavaScript's `sort` is stable, so records at equal distance keep their order. The insertion the model uses keeps that order too, but only sortedness and being a permutation are stated and proved. The same holds for `Query.NearbyResults` and `App.FindNearbyFacilities`.

## Findings

| source | as written | input that shows it | evidently intended | confidence | as-written member | corrected member |
|---|---|---|---|---|---|---|
| gas-api-production.js:807-811 | `manualCoordinates[name]` is also truthy for a member every object inherits, and the lookup then returns `{lat: undefined, lng: undefined}`, which the cascade accepts | a placemark named `toString` (or `constructor`, `valueOf`, ...) with no link, `Point` or address is emitted without coordinates | only the table's own rows answer: an inherited name goes on to the partial-name and address steps, and without an address finds nothing. The simple script (gas-api-simple.js:385-386) has the same test; its NaN check at gas-api-simple.js:342 then drops such a placemark, even when its address holds a fragment (`SimpleFeed.InheritedNameDropped`) | not executed | Resolver.InheritedNameAnswers | Resolver.GetManualCoordinates |
| gas-api-simple.js:524-559 | the header fields and the data are read from Apps Script's signed bytes: a byte of 0x80 or more is negative, so `\|` and `<<` give a negative size, and `String.fromCharCode` gives a code unit from 0xFF80 up | a stored `doc.kml` of 200 bytes at offset 0 has size byte 0xC8, read as -56; the data end 37 + (-56) = -19 is counted by `slice` from the end of the bytes, so an archive of that entry alone gives only its first 181 content bytes (`ZipExtract.SignedSizeTruncates`), and with a central directory after the entry the text runs into the directory's bytes; the text is empty only for a header at offset 19 or more | each field and each character read from the unsigned value of its byte (`b & 0xFF`), as the ZIP local file header defines it | not executed | ZipExtract.SignedSizeMisread | ZipExtract.StoredArchiveRoundTrip |
