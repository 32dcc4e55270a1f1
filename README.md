# Coldest place on Earth: the observation pipeline, modelled in Dafny

The service collects surface air temperatures from several networks and reports
the coldest stations on Earth. This project models the part of it that turns raw
text into that ranking:

- **The SYNOP decoder** (`SynopDecoder`, in `synop_decoder.dfy`, with worked
  reports in `synop_samples.dfy`). It reads WMO FM 12 SYNOP bulletins (WMO-No. 306,
  Manual on Codes, Volume I.1, FM 12, Section 1: the station group `IIiii` and the
  air temperature group `1SnTTT`). It covers the bulletin heading's day-time token,
  the choice of station and temperature group on one line, the line filter of a
  bulletin and the plausibility filter on temperatures. Temperatures are integer
  tenths of a degree.
- **The ISD station history resolver** (`SynopMetadata`, in `synop_metadata.dfy`).
  It covers:
  - the fixed-width record parser of NOAA's `isd-history.txt`, with a formatter
    and the round trip between them;
  - the index by USAF and ICAO code;
  - the 24-hour cache with its stale-on-failure rule, as the class `StationDatabase`;
  - the lookup by WMO number and its key variants;
  - three display helpers.
- **SYNOP deduplication and enrichment** (`FetcherSynop`, in `fetcher_synop.dfy`).
  Deduplication keeps the most recent report per station, in order of first
  appearance. Enrichment turns each report that has a temperature into an
  `Observation`, with fallback name, country and position.
- **The cross-source merge** (`FetcherCombined`, in `fetcher_combined.dfy`). The
  METAR records come first. Each Environment Canada record follows unless its
  station id, ignoring letter case, is already among the METAR ids.
- **The ranker** (`Finder`, in `finder.dfy`) and its fallback name table (`Metadata`,
  in `metadata.dfy`). The ranker fails on empty input. It sorts the observations
  stably by temperature, takes and enriches the five coldest, and counts the
  observations by source.

Shared pieces:
- `wrappers.dfy`: `Option`, `Result`.
- `seqs.dfy`: mapping a sequence, and keeping the present values of a sequence of
  options.
- `text.dfy`: the string operations of JavaScript that the code relies on:
  - `trim`, and `split` on white space or on one character;
  - `startsWith`, `substring`, `toUpperCase`;
  - digit strings and their values;
  - the decimal `parseFloat` of the station history, with a fixed-point formatter
    and the round trip between the two.
- `types.dfy`: the `Observation` record and the `Station` predicate.

Where the code does something step by step, the model is a method with loops and
invariants, proved equal to a function. The lemmas state the behaviour that
function promises. Examples:
- the merge `FetchAllObservations`;
- deduplication in `DeduplicateSynopObservations`;
- the source count `CountBySource`;
- the index loop `IndexLines`;
- the line loop `ParseSynopBulletin`.

### Where the code and its description differ
- The merge in `src/fetcher-combined.ts` combines only METAR and Environment Canada
  records. SYNOP records are not part of it, and the model follows the code.
- The first report of the sample bulletin (`30372 12699 61501 11338 ...`) decodes to
  -33.8 degrees: the group `11338` in the fourth position is the preferred candidate.
  The model follows the code (`SynopSamples.Station30372`).

## Model

| member | source | states |
|---|---|---|
| SynopDecoder.StationIndexFrom | src/synop-decoder.ts:56-68 | the station group is the first group among the first five that is five digits and does not start with 999; with none, every such group fails the test |
| SynopDecoder.FindStationGroup | src/synop-decoder.ts:53-64 | the search loop with its early exit returns the position `StationIndex` names |
| SynopDecoder.GroupTemperature | src/synop-decoder.ts:79-104 | a group is a candidate iff it is `1[01]ddd` with magnitude below 900 and value at most +60.0; its value is the magnitude, negated when the sign digit is 1, and lies in (-90.0, +60.0] |
| SynopDecoder.GroupTemperatureOfGroup | src/synop-decoder.ts:80-102 | every temperature in (-90.0, +60.0], written as a `1SnTTT` group, decodes back to itself |
| SynopDecoder.GroupOfGroupTemperature | src/synop-decoder.ts:80-102 | every candidate group other than `11000` (minus zero) is the group its temperature is written as |
| SynopDecoder.Candidates | src/synop-decoder.ts:76-106 | the candidates are exactly the groups in the range, in position order, each with its decoded temperature |
| SynopDecoder.CandidatesComplete | src/synop-decoder.ts:76-106 | every candidate group in the range appears among the candidates |
| SynopDecoder.CollectCandidates | src/synop-decoder.ts:73-106 | the loop that pushes candidates after the station group builds exactly `Candidates` |
| SynopDecoder.FirstAtOrAfter | src/synop-decoder.ts:111 | `find`: the first candidate at or after the threshold position, or none when all are before it |
| SynopDecoder.PickTemperature | src/synop-decoder.ts:110-113 | the preferred candidate, else the last, else no temperature |
| SynopDecoder.ChooseTemperatureMeaning | src/synop-decoder.ts:108-113 | the temperature chosen is none iff no group after the station group is a candidate; otherwise it is the first candidate at least three groups after the station group, or, when there is none, the last candidate, with no candidate after it |
| SynopDecoder.DecodeGroupsMeaning | src/synop-decoder.ts:45-122 | a line decodes to nothing iff it has fewer than three groups or no station group among the first five; otherwise the report carries the first station group, the given time and the chosen temperature |
| SynopDecoder.DecodeGroupsPreferred | src/synop-decoder.ts:110-112 | a candidate exactly three groups after the station group is the temperature reported |
| SynopDecoder.DecodedTemperatureInRange | src/synop-decoder.ts:90-103 | a decoded temperature lies in (-90.0, +60.0] and the report carries the time it was given |
| SynopDecoder.DecodeOfWords | src/synop-decoder.ts:45 | a line is decoded from its white-space-separated groups, whatever spacing it had |
| SynopDecoder.DecodeSynopMessage | src/synop-decoder.ts:39-127 | the decoder method returns the report `Decode` names, using the bulletin time or `now` |
| SynopDecoder.DayTimeTokenFields | src/synop-decoder.ts:143-145 | the day, hour and minute read from digits 0-1, 2-3 and 4-5 of a token are the ones it was written from |
| SynopDecoder.ParseBulletinTimestampOfHeader | src/synop-decoder.ts:135-153 | a heading whose third token is a day-time token gives the instant of that day, hour and minute in the current month |
| SynopDecoder.BulletinInstantOrder | src/synop-decoder.ts:143-151 | for valid hours and minutes, one instant is earlier than another iff its token is lexically smaller |
| SynopDecoder.LineReportOfWords | src/synop-decoder.ts:173-190 | a line is skipped when it is empty, starts with SM, is AAXX or is a short line ending in `=`; otherwise it contributes its report when that has a temperature |
| SynopDecoder.LineReportShape | src/synop-decoder.ts:187-190 | every report a line contributes has a temperature in range and the bulletin time, or `now` when the heading had none |
| SynopDecoder.DecodeLine | src/synop-decoder.ts:174-190 | one pass of the line loop returns what `LineReport` names for the line |
| SynopDecoder.ReportsAppend | src/synop-decoder.ts:173-191 | the reports of two runs of lines are the reports of the first followed by those of the second (line order is kept) |
| SynopDecoder.ReportsShape | src/synop-decoder.ts:173-191 | at most one report per line; each has a temperature in range and the bulletin time or `now` |
| SynopDecoder.ReportLines | src/synop-decoder.ts:173-191 | the loop that pushes reports returns exactly `Reports` of the lines |
| SynopDecoder.LineReportsSnoc | src/synop-decoder.ts:173-191 | one more line adds exactly what that line contributes |
| SynopDecoder.ParseSynopBulletin | src/synop-decoder.ts:162-194 | the bulletin parser splits on newlines, reads the heading's time and returns `ParseBulletin` |
| SynopDecoder.FilterValidTemperatures | src/synop-decoder.ts:213-219 | a report is kept iff it has a temperature of magnitude below 100 degrees |
| SynopDecoder.FilterValidTemperaturesAppend | src/synop-decoder.ts:216-218 | the filter keeps order: it distributes over concatenation |
| SynopDecoder.FilterValidTemperaturesOfValid | src/synop-decoder.ts:216-218 | a list of valid reports is left as it is |
| SynopDecoder.FilterValidTemperaturesIdempotent | src/synop-decoder.ts:213-219 | filtering twice is filtering once |
| SynopDecoder.FilterValidTemperaturesOfBulletin | src/synop-decoder.ts:162-219 | the filter removes nothing from the output of the bulletin parser |
| SynopSamples.Station30372 | src/test-synop.ts:9 | `30372 12699 61501 11338 ...` decodes to station 30372 at -33.8 |
| SynopSamples.Station31285 | src/test-synop.ts:34 | `31285 42999 11802 11209 ...` decodes to -20.9, not the earlier -80.2 |
| SynopSamples.MissingValueGroups | src/synop-decoder.ts:90 | `11996` and `11993` are missing-value codes, not candidates |
| SynopSamples.Station30758 | src/test-synop.ts:19 | `30758 11996 13501 11257 ...` decodes to -25.7 |
| SynopSamples.Station31300 | src/test-synop.ts:35 | `31300 11993 00000 11251 ...` decodes to -25.1 |
| SynopSamples.ContinuationGroups | src/test-synop.ts:20 | the continuation line `21257 47012 55081=` reads as station 21257 with no temperature |
| SynopSamples.ContinuationLine | src/synop-decoder.ts:187-190 | that continuation line contributes no report to the bulletin |
| SynopSamples.TooFewGroups | src/synop-decoder.ts:48-50 | a line of two groups decodes to nothing |
| SynopSamples.HeadingToken | src/test-synop.ts:7 | day 9, 00:00 is written `090000` |
| SynopSamples.Heading | src/test-synop.ts:7 | the heading `SMRA10 RUHB 090000` gives 00:00 on day 9 of the current month |
| SynopMetadata.ParseISDLine | src/synop-metadata.ts:29-80 | short lines, the heading and rules give nothing; every record returned passes the identity, name and coordinate checks |
| SynopMetadata.ParseISDLineColumns | src/synop-metadata.ts:31-76 | a line is rejected iff it is a heading, its USAF column is empty or `999999`, its name column is empty or contains `BOGUS` or `WXPOD`, latitude or longitude does not parse, or both are 0; otherwise every field is its trimmed column and an unreadable elevation is 0 |
| SynopMetadata.ParseFormatISDLine | src/synop-metadata.ts:37-76 | a station written in the fixed-width layout parses back to itself, columns, trimming and decimals included |
| SynopMetadata.Keys | src/synop-metadata.ts:108-115 | a station is stored under its USAF code and, when it has one, its ICAO code, and no other key |
| SynopMetadata.AddStation | src/synop-metadata.ts:110-115 | storing a station sets its keys to it and leaves every other key as it was |
| SynopMetadata.LastKeyed | src/synop-metadata.ts:106-117 | the position of the last record stored under a key, or none when no record has it |
| SynopMetadata.IndexLastWriter | src/synop-metadata.ts:104-117 | a key is in the index iff some record has it, and its entry is the last such record |
| SynopMetadata.StationsAccepted | src/synop-metadata.ts:106-108 | every station indexed from a history text passed the parser's checks |
| SynopMetadata.DatabaseEntries | src/synop-metadata.ts:102-117 | every entry of the index built from a download is an accepted station stored under one of its own keys |
| SynopMetadata.IndexSnoc | src/synop-metadata.ts:106-117 | one more line adds its station to the index, or nothing when it does not parse |
| SynopMetadata.IndexLines | src/synop-metadata.ts:104-117 | the index loop over the lines builds exactly the index of the stations parsed from them |
| SynopMetadata.FetchOutcome | src/synop-metadata.ts:85-135 | a cache younger than 24 hours is served as is; a download replaces the index and its time; a failure serves the stale cache, or an empty index, and changes nothing |
| SynopMetadata.FetchSettles | src/synop-metadata.ts:88-122 | asking again at the same time with the same response changes nothing more |
| SynopMetadata.StationDatabase.constructor | src/synop-metadata.ts:23-24 | the resolver starts with no cache and time 0 |
| SynopMetadata.StationDatabase.FetchStationDatabase | src/synop-metadata.ts:85-135 | the cache and its time become what `FetchOutcome` names, and so does the index returned |
| SynopMetadata.KeyVariants | src/synop-metadata.ts:146-172 | the keys tried start with the id itself |
| SynopMetadata.FirstHit | src/synop-metadata.ts:167-172 | a hit exists iff some key tried is in the index, and it is the entry of the first such key |
| SynopMetadata.LookupCases | src/synop-metadata.ts:142-176 | the id wins; a five-digit id then tries a leading zero, then a trailing zero; anything else misses |
| SynopMetadata.FindStation | src/synop-metadata.ts:146-175 | the lookup with its early returns and the loop over patterns returns `Lookup` |
| SynopMetadata.StationDatabase.LookupStation | src/synop-metadata.ts:142-176 | fetches the index under the cache policy, then returns the lookup in it |
| SynopMetadata.LookupAll | src/synop-metadata.ts:181-195 | the result holds exactly the requested ids that are found, each with its lookup |
| SynopMetadata.LookupAllSnoc | src/synop-metadata.ts:187-192 | one more id adds its hit, or nothing on a miss |
| SynopMetadata.StationDatabase.LookupInto | src/synop-metadata.ts:187-192 | one pass of the loop of `lookupStations` sets the id to its hit, leaving the cache state as it is |
| SynopMetadata.StationDatabase.LookupStations | src/synop-metadata.ts:181-195 | fetches the index once, then returns `LookupAll` of the ids in it |
| SynopMetadata.FormatStationName | src/synop-metadata.ts:201-206 | the name, followed by ` (icao)` iff the ICAO code is not empty |
| SynopMetadata.NonEmpty | src/synop-metadata.ts:214-224 | exactly the non-empty parts are kept |
| SynopMetadata.GetLocationString | src/synop-metadata.ts:211-227 | the non-empty name, state and country, in that order, joined with `, ` |
| SynopMetadata.LocationString | src/synop-metadata.ts:211-227 | the text is empty iff all three fields are, and starts with the name when there is one |
| SynopMetadata.IsStationActive | src/synop-metadata.ts:232-240 | a station without an end date is active |
| SynopMetadata.ActiveByDate | src/synop-metadata.ts:239 | for eight-digit dates, active iff the end date is not before today |
| FetcherSynop.DedupOf | src/fetcher-synop.ts:289-297 | the map and key order after the loop are coherent: each station once in the order, and the order has exactly the map's keys |
| FetcherSynop.Keep | src/fetcher-synop.ts:292-296 | one pass inserts a new station at the end of the key order, or replaces the kept report when this one is strictly later |
| FetcherSynop.IndexByStation | src/fetcher-synop.ts:289-297 | the loop builds exactly `DedupOf` of the reports |
| FetcherSynop.ValuesInOrder | src/fetcher-synop.ts:299 | the map's values in key insertion order |
| FetcherSynop.DeduplicateSynopObservations | src/fetcher-synop.ts:286-300 | the deduplication method returns `Deduplicated` |
| FetcherSynop.FirstIds | src/fetcher-synop.ts:289-299 | the station ids of the input, each once, in order of first appearance |
| FetcherSynop.DedupOrder | src/fetcher-synop.ts:299 | the result is ordered by each station's first appearance |
| FetcherSynop.DedupMostRecent | src/fetcher-synop.ts:294-296 | every kept report has the latest time of its station, and on a tie it is the earliest such report |
| FetcherSynop.DeduplicatedMeaning | src/fetcher-synop.ts:286-300 | one report per distinct station id, in first-appearance order, each its station's most recent, earliest on ties |
| FetcherSynop.DeduplicatedDistinct | src/fetcher-synop.ts:286-300 | no two results share a station, and the result is never longer than the input |
| FetcherSynop.DedupOfDistinct | src/fetcher-synop.ts:289-297 | reports with distinct stations are each kept, in their own order |
| FetcherSynop.DeduplicatedIdempotent | src/fetcher-synop.ts:286-300 | deduplicating twice is deduplicating once |
| FetcherSynop.NameOrDefault | src/fetcher-synop.ts:272 | the station's name when it is found and not empty, `Station <id>` otherwise |
| FetcherSynop.CountryOrDefault | src/fetcher-synop.ts:273 | the station's country when it is found and not empty, `Unknown` otherwise |
| FetcherSynop.Enriched | src/fetcher-synop.ts:266-275 | the observation keeps the station id, the temperature in degrees and the ISO time, has source SYNOP, takes the station's coordinates or 0 when it is not found, and has the defaulted name and country |
| FetcherSynop.EnrichInto | src/fetcher-synop.ts:259-277 | one pass skips a report without temperature and otherwise appends its enriched observation |
| FetcherSynop.EnrichObservations | src/fetcher-synop.ts:255-281 | the loop returns `EnrichAll` of the reports |
| FetcherSynop.WithTemperature | src/fetcher-synop.ts:260-262 | the reports kept all have a temperature |
| FetcherSynop.WithTemperatureMembership | src/fetcher-synop.ts:258-262 | a report is kept iff it has a temperature |
| FetcherSynop.WithTemperatureAppend | src/fetcher-synop.ts:258-262 | the reports kept stay in input order: the filter distributes over concatenation |
| FetcherSynop.EnrichAllMeaning | src/fetcher-synop.ts:255-281 | one observation per report with a temperature, in order, each enriched from the lookup of its own station |
| FetcherSynop.WithTemperatureDistinct | src/fetcher-synop.ts:260-262 | dropping reports keeps the station ids distinct |
| FetcherSynop.FetchAllColdRegionSynopEnriched | src/fetcher-synop.ts:242-250 | the reports are deduplicated first, then enriched |
| FetcherSynop.PipelineDistinct | src/fetcher-synop.ts:243-245 | the enriched output has at most one observation per station, each a SYNOP station with a name and a country |
| FetcherCombined.MetarBlock | src/fetcher-combined.ts:17-27 | every METAR record, in order, tagged METAR; nothing when the METAR fetch failed |
| FetcherCombined.FetchAllObservations | src/fetcher-combined.ts:12-50 | the in-place merge returns `Merged` and the removed count `Removed` |
| FetcherCombined.UniqueMembership | src/fetcher-combined.ts:39 | an EC record is kept iff its upper-cased id is not a METAR id |
| FetcherCombined.UniqueAppend | src/fetcher-combined.ts:39 | the EC filter keeps relative order: it distributes over concatenation |
| FetcherCombined.UniqueIdempotent | src/fetcher-combined.ts:39 | filtering the EC records twice is filtering once |
| FetcherCombined.MetarIds | src/fetcher-combined.ts:35-37 | an upper-cased id is in the METAR id set iff some METAR record has it |
| FetcherCombined.MergedLayout | src/fetcher-combined.ts:20-41 | the METAR records come first, in order and tagged METAR, followed by the kept EC records in order |
| FetcherCombined.MergedPriority | src/fetcher-combined.ts:35-41 | an EC record appears after the METAR block iff no METAR record has the same id up to letter case |
| FetcherCombined.UniqueCollisions | src/fetcher-combined.ts:39-43 | every EC record is either kept or a collision with a METAR id, never both |
| FetcherCombined.MergedLength | src/fetcher-combined.ts:35-43 | the removed count is the number of EC records colliding with a METAR id, and the output length plus it is the number of METAR and EC records |
| FetcherCombined.MergedFailures | src/fetcher-combined.ts:25-27 | a failed METAR fetch leaves all EC records; a failed EC fetch leaves the METAR records alone (lines 44-46) |
| FetcherCombined.CaseInsensitiveExample | src/fetcher-combined.ts:35-39 | an EC record `cyeg` is dropped against a METAR record `CYEG` and counted as removed |
| Metadata.LookupStationMetadata | src/metadata.ts:63-88 | a listed id gives its table entry; any other id gives `<id> Station` and the guessed country |
| Metadata.GuessCountryByPrefix | src/metadata.ts:71-82 | the country is that of the first of K, C, E, U, Y, NZ, S, P the id starts with, else Unknown (so an `N` not followed by `Z`, and the empty id, give Unknown) |
| Metadata.LookupListed | src/metadata.ts:24 | `UOOO` gives Oymyakon, Russia |
| Metadata.LookupUnlisted | src/metadata.ts:84-87 | `24266` gives `24266 Station` in Unknown; the empty id gives Unknown |
| Finder.SortByTempSorted | src/finder.ts:19 | the sorted copy is non-decreasing in temperature |
| Finder.SortByTempPermutes | src/finder.ts:19 | the sorted copy has the same observations as the input |
| Finder.SortByTempStable | src/finder.ts:19 | observations of equal temperature keep their input order |
| Finder.EnrichStation | src/finder.ts:25-34 | a record with both name and country keeps them; otherwise both come from `lookupStationMetadata`; nothing else changes |
| Finder.CountBySource | src/finder.ts:37-40 | the counting loop returns `SourceCounts` |
| Finder.SourceCountsMeaning | src/finder.ts:37-40 | each count is the number of observations from that source |
| Finder.SourceCountsKeys | src/finder.ts:37-40 | a source has a count iff some observation comes from it |
| Finder.SourceCountsTotal | src/finder.ts:37-40 | the counts add up to the number of observations |
| Finder.ColdestPlacesOf | src/finder.ts:8-48 | the ranking fails iff there are no observations, with the error `No observations to process` |
| Finder.FindColdestPlaces | src/finder.ts:8-48 | the method returns `ColdestPlacesOf` |
| Finder.TopFive | src/finder.ts:19-45 | `top5` holds min(5, n) entries, the enriched prefix of the sorted copy; `coldest` is its first; `totalStations` is n |
| Finder.TopFiveOrdered | src/finder.ts:19-22 | `top5` is non-decreasing and no warmer than any observation left out |
| Finder.ColdestIsMinimum | src/finder.ts:19-43 | `coldest` is at most as warm as every observation |
| Finder.ColdestPlacesSources | src/finder.ts:37-45 | the source counts add up to `totalStations` |

## Left out

- Network and file I/O are not modelled. That covers downloading bulletins, the
  directory listing, the three-hour bulletin cache, the download of the station
  history, and the other fetchers (`src/fetcher.ts`, `src/fetcher-ec.ts`,
  `src/fetcher-ec-hourly.ts`), the CSV parser and the server. The model takes what
  they return as parameters: the METAR and EC lists (`None` when the fetch threw), the
  history text (`None` when the request failed or its status was not ok), and the SYNOP
  reports.
- Concurrency is not modelled: the parallel fetches and the `await`s are left out,
  and their results are only concatenated.
- The clock is a parameter. `new Date()` becomes `now` in milliseconds. The current
  month in `parseBulletinTimestamp` becomes `monthStart`, the instant at which the month
  begins, since `Date.UTC` is linear in day, hour and minute. "Today" in
  `isStationActive` is a parameter too.
- Enriched: `Date.prototype.toISOString` is the function parameter `iso`; its text is
  not modelled.
- `validateSynopObservation` (a schema check of the zod library) is left out.
- The decoder's and the timestamp parser's `try`/`catch` blocks are left out: nothing
  in the modelled code throws.
- Temperatures of decoded reports are integer tenths of a degree; `tempC` is an exact
  real, so floating-point rounding of `tempTenths / 10.0` is not modelled.
- ParseFloat: `parseFloat` is modelled on the decimal forms of the station history
  (optional sign, digits, optional fraction). Exponents, `Infinity` and leading
  white space beyond `trim` are not.
- ToUpper: `toUpperCase` is modelled on ASCII letters only.
- StationEntry: the table is keyed by string, so keys that are properties of every
  JavaScript object (`constructor`, `__proto__`) are not modelled as hits.
- ParseFormatISDLine: the round trip is stated for stations the layout can hold
  (`Representable`). For any other line, `ParseISDLineColumns` states the rejection
  rules and the fields in terms of the line's columns; no bound on the length of a
  parsed field is stated.
- Lengths and offsets are counted in characters (Unicode scalar values), while
  JavaScript's `length` and `substring` count UTF-16 code units. The two agree on text
  within the Basic Multilingual Plane, such as the ASCII station history and bulletins;
  for text outside it, the 80-character test and the column offsets of
  `parseISDLine` are not modelled. The same holds for string order: `LexLess`
  compares characters, JavaScript's `>=` on strings (in `isStationActive`) compares
  UTF-16 code units, and the two orders differ only outside that plane.
- FetcherSynop.EnrichObservations: the lookup is a map parameter `db` (the index the
  resolver serves). The fetch of the index is modelled separately, in `StationDatabase`.
- StationDatabase.LookupStations: the first fetch and every later lookup use the same
  `now` and the same download outcome. After the first fetch, the cache is fresh or
  still absent, so the later fetches change nothing (`FetchSettles`). The result is a
  Dafny `map`, so the insertion order of the JavaScript `Map` it builds is not kept;
  nothing in the code iterates that map.
- Coordinates of enriched SYNOP observations are the exact decimals of the history.
  The `|| 0` fallback gives 0 both for a missing station and for a coordinate of 0.
- METAR and EC `observationTime` values are carried as opaque text.
- `public/app.js` (rendering and unit conversion) and `src/server.ts` are not part of
  this model.
