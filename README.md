# pv-schedule core, modelled in Dafny

pv-schedule keeps a pole vaulter's meet schedule. It has three parts:

- A server stores meets and their photos and videos. There are three storage back ends: an in-memory store, an older in-memory store and a Postgres store.
- An upload route accepts image and video files and attaches captions.
- A web client lists the meets. It filters the list by upcoming, past, all or the fixed Filipino-American ("filam") list. It counts down to the next meet, labels how many days are left, and shows a gallery with keyboard and swipe navigation. It also draws trends of height cleared, deepest takeoff and pole used.

The athletes type those metrics as free text (`15' 6"`, `4.60m`, `15' 170lbs 18.5 flex`). A shared parser turns that text into numbers.

This project models that core:

| file | module | models |
|---|---|---|
| `wrappers.dfy` | `Wrappers` | `Option`, and `Outcome` (a value returned or an exception thrown) |
| `jstext.dfy` | `JsText` | JavaScript text primitives: the `\s`/`trim()` whitespace set, ASCII case folding, `String(n)` for integers, `startsWith`, `Math.round`, `Math.ceil` of a quotient |
| `metrics.dfy` | `Metrics` | `shared/metrics.ts`. Each regular expression is data, read by a leftmost, greedy matcher. The pole parser is written twice: as a function that is its specification, and as the imperative method the source is |
| `drivetimes.dfy` | `DriveTimes` | `client/src/lib/drive-times.ts` |
| `meetmodel.dfy` | `MeetModel` | the meet record of `shared/schema.ts`; the create and update defaulting; `adjustDateForTimezone` of `server/storage/types.ts` |
| `memstore.dfy` | `MemStore` | the class `MemStorage` of `server/storage/mem.ts` |
| `legacystore.dfy` | `LegacyStore` | the older class `MemStorage` of `server/storage.ts` |
| `pgstore.dfy` | `PgStore` | the pure row and media mapping of `server/storage/pg.ts`, the values its create and update bind, its media position counter and its SET-clause builder |
| `sorting.dfy` | `Sorting` | `Array.prototype.sort` with a numeric comparator: a stable sort, as a function and as an in-place method on an array |
| `home.dfy` | `Home` | the filter, sort and next-meet choice of the home page |
| `countdown.dfy` | `Countdown` | the countdown banner |
| `meetdetails.dfy` | `MeetDetails` | the day-difference label and status badge of the meet page |
| `trends.dfy` | `Trends` | the row, window, best/latest and formatting rules of the trends page |
| `gallery.dfy` | `Gallery` | the media gallery's selection, fullscreen and swipe state, as a class |
| `routes.dfy` | `Routes` | the upload MIME filter, the caption rules and the `media` key stripping of `server/routes.ts` |

Modelling choices:

- **Numbers** are exact reals.
- **Dates** are millisecond instants, given as parameters:
  - `construct` stands for `new Date(text).getTime()`, with `None` for an invalid date;
  - `today` is the current local midnight;
  - `midnightOf` is `setHours(0, 0, 0, 0)`;
  - `shiftDays` is `setDate(getDate() + n)`.
- **Clocks** (`Date.now()`, `new Date()`) are given as sequences of readings.
- **Stores**: the in-memory stores are classes whose fields the methods update. A JavaScript `Map` becomes a `map` plus a sequence that records insertion order.

## Model

| member | source | states |
|---|---|---|
| JsText.Trim | shared/metrics.ts:7-11 | `trim()` removes exactly the leading and trailing JavaScript whitespace (via TrimStart/TrimEnd) |
| JsText.TrimIsSlice | shared/metrics.ts:7-11 | the trimmed text is a slice with only whitespace outside it and none at its ends |
| JsText.TrimEmptyIffBlank | shared/metrics.ts:7-11 | `trim()` gives "" iff every character is whitespace |
| JsText.TrimIdempotent | server/routes.ts:221 | trimming twice is trimming once |
| JsText.IntText | client/src/components/countdown-timer.tsx:67 | `String(n)` is a nonempty decimal numeral whose value is n, with a '-' before it exactly when n is negative |
| JsText.MathRound | shared/metrics.ts:229-240 | `Math.round(x)` is the integer within half a unit of x, ties rounded up |
| JsText.CeilDiv | client/src/components/countdown-timer.tsx:53-54 | `Math.ceil(a / d)` is the least r with a <= r·d |
| Metrics.ToFiniteNumber | shared/metrics.ts:18-25 | a numeral's value is returned iff `Number()` of it is finite, which is iff the value is below the double overflow threshold |
| Metrics.NormalizeQuotes | shared/metrics.ts:14-16 | curly single quotes become `'`, curly double quotes become `"`, nothing else changes, and no curly quote is left |
| Metrics.NormalizeQuotesIdempotent | shared/metrics.ts:14-16 | normalising quotes twice is normalising once |
| Metrics.Search | shared/metrics.ts:28-47 | a regex search returns a well-formed match, with no match at any earlier start, or nothing when no start matches |
| Metrics.SearchFindsLeftmost | shared/metrics.ts:28-47 | when q is the first start from `from` on that matches, the search from `from` returns the match at q |
| Metrics.MatchAnywhereIsFound | shared/metrics.ts:28-47 | a match at any start q means the search from 0 finds one starting no later than q |
| Metrics.SearchFindsNothing | shared/metrics.ts:28-47 | when no start from `from` on matches, the search from `from` returns nothing |
| Metrics.NotDigitNoMatch | shared/metrics.ts:29 | a form that opens with a number has no match at a position that does not hold a digit |
| Metrics.NoDigitsNoMatch | shared/metrics.ts:29 | such a form has no match anywhere in a stretch of text without digits |
| Metrics.KeywordMissing | shared/metrics.ts:62 | a form of a number, spaces and a keyword (`m`, `lb`, `'`) has no match where the keyword does not follow the number and its spaces |
| Metrics.NumberTokenAt | shared/metrics.ts:175 | at a digit, the `matchAll` number form matches exactly the numeral that starts there |
| Metrics.NumberTokensInOrder | shared/metrics.ts:175 | the numbers `matchAll` yields come in order and do not overlap |
| Metrics.ParseFeetInches | shared/metrics.ts:27-50 | a parsed feet/inches pair is finite and non-negative |
| Metrics.FeetAndInchesShape | shared/metrics.ts:29 | the feet-and-inches form matches only where a number, spaces, `'`, spaces, a number and spaces are followed by `"` or `in` |
| Metrics.FeetAndInchesMissing | shared/metrics.ts:29 | where that shape breaks off, the form does not match |
| Metrics.FeetAndInchesHere | shared/metrics.ts:29 | where the shape closes with `"`, the form matches up to and including the quote, capturing both numbers |
| Metrics.FeetOnlyHere | shared/metrics.ts:41 | a number, spaces and `'` make a feet-only match that ends after the apostrophe and captures the number |
| Metrics.FeetAndInchesFirst | shared/metrics.ts:28-39 | the leftmost `<f>'<i>("\|in)` match decides the result when both numbers are finite |
| Metrics.FeetOnlyFallback | shared/metrics.ts:41-49 | with no feet-and-inches match, the leftmost `<f>'` match gives f feet and 0 inches, or null when f is not finite |
| Metrics.NoMarkNoFeetInches | shared/metrics.ts:27-50 | text without an apostrophe parses to null |
| Metrics.FeetAndInchesHasFeetOnly | shared/metrics.ts:28-47 | wherever the feet-and-inches form matches, the feet-only form matches too, with the same feet |
| Metrics.ParseHeightToMeters | shared/metrics.ts:52-79 | a parsed height is non-negative, and blank input gives null |
| Metrics.UnpaddedInput | shared/metrics.ts:6-12 | input without leading or trailing whitespace is used as typed: its height and takeoff are those of its quote-normalised text |
| Metrics.NoHeightNeedsN | shared/metrics.ts:59 | a no-height match starts at "nh" or "no height", in either case |
| Metrics.NoHeightNowhere | shared/metrics.ts:59 | text with neither word at any n has no no-height match |
| Metrics.NoNNoHeight | shared/metrics.ts:59 | text without an n has no no-height match |
| Metrics.NoHeightAbbreviatedHere | shared/metrics.ts:59 | "nh" between word boundaries is a no-height match |
| Metrics.NoHeightSpelledHere | shared/metrics.ts:59 | "no height" between word boundaries is a no-height match |
| Metrics.MetersHere | shared/metrics.ts:62 | a number, spaces, `m` and a word boundary make a metre match that ends after the m and captures the number |
| Metrics.NoHeightWins | shared/metrics.ts:59-61 | any "NH" marker gives 0 meters |
| Metrics.MetricWins | shared/metrics.ts:62-66 | otherwise the leftmost `<n>\s*m\b` gives n, or null when n is not finite, even when imperial text is also present |
| Metrics.ImperialHeightIsTakeoff | shared/metrics.ts:68-94 | with neither a no-height marker nor a metre value, the height is the feet/inches length times 0.3048 m; it is non-null exactly when that length exists and 12 times it is finite |
| Metrics.ParseTakeoffToFeet | shared/metrics.ts:81-95 | a parsed takeoff is non-negative, and blank input gives null |
| Metrics.BlankInputsGiveNothing | shared/metrics.ts:6-12 | null or whitespace-only input gives null height, null takeoff and a pole result of just `raw: ""` |
| Metrics.HeightQuoteStyleIrrelevant | shared/metrics.ts:58 | curly and straight quotes give the same height |
| Metrics.TakeoffQuoteStyleIrrelevant | shared/metrics.ts:87 | curly and straight quotes give the same takeoff |
| Metrics.PoleQuoteStyleIrrelevant | shared/metrics.ts:105-110 | curly and straight quotes give the same length, rating and flex; only `raw` keeps the original quotes |
| Metrics.LengthInchesFormFirst | shared/metrics.ts:117-131 | the leftmost feet-and-inches match gives the pole length f + i/12 and its range |
| Metrics.LengthFeetFormOtherwise | shared/metrics.ts:131-145 | without one, the leftmost `<n>'` or `<n> ft` match gives the length and its range |
| Metrics.PoleFeetHere | shared/metrics.ts:133 | a number, spaces and `'` make a pole-length feet match that ends after the apostrophe and captures the number |
| Metrics.RatingHere | shared/metrics.ts:147 | a number, spaces, `lbs` and a word boundary make a rating match that ends after the s and captures the number |
| Metrics.NoFNoFlex | shared/metrics.ts:159-161 | text without an f has no labelled flex |
| Metrics.RatingLeftmost | shared/metrics.ts:147-157 | the leftmost `<n> lbs` match gives the rating and its range |
| Metrics.FlexFirstWins | shared/metrics.ts:159-172 | a leftmost `flex <n>` match gives the flex |
| Metrics.FlexAfterOtherwise | shared/metrics.ts:159-172 | without one, the leftmost `<n> flex` match gives it |
| Metrics.FallbackPicksRightmost | shared/metrics.ts:174-200 | the fallback flex is the rightmost eligible number |
| Metrics.FallbackNoneIffNoneEligible | shared/metrics.ts:174-200 | the fallback finds nothing iff no number is eligible |
| Metrics.PoleLabelledFlex | shared/metrics.ts:159-221 | a labelled flex is the pole's flex |
| Metrics.PoleFallbackFlex | shared/metrics.ts:174-221 | without a label, the rightmost eligible number is the pole's flex |
| Metrics.PoleNoFlex | shared/metrics.ts:174-221 | without a label, the pole has no flex iff no number is eligible |
| Metrics.ParsePole | shared/metrics.ts:105-108 | `raw` is always the trimmed input, taken before quote normalisation |
| Metrics.ReadLength | shared/metrics.ts:117-145 | the imperative length step sets the length found and appends its range to the used ranges |
| Metrics.ReadRating | shared/metrics.ts:147-157 | the rating step does the same for the rating |
| Metrics.ReadLabelledFlex | shared/metrics.ts:159-172 | the labelled-flex step does the same for the flex |
| Metrics.ScanFallback | shared/metrics.ts:174-200 | the reverse loop with `break` returns the fallback flex |
| Metrics.ParsePoleUsed | shared/metrics.ts:97-222 | the imperative parser returns exactly the specification's result |
| Metrics.SplitInches | shared/metrics.ts:229-232 | for a non-negative total, 0 <= inches < 12 and 12·feet + inches == total |
| Metrics.MetersToFeetInches | shared/metrics.ts:224-227 | a non-finite input gives 0 feet 0 inches |
| Metrics.FeetDecimalToFeetInches | shared/metrics.ts:235-238 | a non-finite input gives 0 feet 0 inches |
| Metrics.MetersToFeetInchesIsNearest | shared/metrics.ts:224-233 | for m >= 0, the result is the whole number of inches nearest m, split with inches in 0..11 |
| Metrics.FeetDecimalToFeetInchesIsNearest | shared/metrics.ts:235-244 | the same for a decimal number of feet |
| Metrics.MetersRoundTrip | shared/metrics.ts:224-233 | converting F feet I inches to meters and back gives F feet I inches |
| Metrics.FeetDecimalRoundTrip | shared/metrics.ts:235-244 | F + I/12 feet converts back to F feet I inches |
| Metrics.MetersExample | shared/metrics.ts:224-233 | 4.6 m is 15 feet 1 inch |
| Metrics.FeetDecimalExample | shared/metrics.ts:235-244 | 12.25 ft is 12 feet 3 inches |
| Metrics.NegativeInchesSplitOddly | shared/metrics.ts:240-243 | −1/12 ft gives −1 foot −1 inch, because of the truncating `%` |
| MetricsExamples.MetersPreferred | client/src/__tests__/metrics.test.ts:11-13 | "4.60m (15’1”)" is exactly 4.6 m: the metre value wins over the imperial one beside it |
| MetricsExamples.FeetAndInchesHeight | client/src/__tests__/metrics.test.ts:15-17 | "15'1\"" is 181 inches, 4.5974 m |
| MetricsExamples.JunkHeight | client/src/__tests__/metrics.test.ts:19-21 | "not a height" has no height |
| MetricsExamples.NoHeightAbbreviation | client/src/__tests__/metrics.test.ts:24 | "NH" is a height of 0 |
| MetricsExamples.NoHeightSpelledOut | client/src/__tests__/metrics.test.ts:25 | "No height" is a height of 0 |
| MetricsExamples.CurlyFeetAndInchesTakeoff | client/src/__tests__/metrics.test.ts:30-32 | "12’ 3”", with curly quotes, is a takeoff of 12.25 ft |
| MetricsExamples.FeetOnlyTakeoff | client/src/__tests__/metrics.test.ts:34-36 | "12'" is a takeoff of 12 ft |
| MetricsExamples.JunkTakeoff | client/src/__tests__/metrics.test.ts:38-40 | "junk" has no takeoff |
| MetricsExamples.PoleLengthRatingFlex | client/src/__tests__/metrics.test.ts:44-49 | "15’ 170lbs 18.5" is a 15 ft, 170 lb pole of flex 18.5, with `raw` the input as typed |
| MetricsExamples.PoleInchesGiven | client/src/__tests__/metrics.test.ts:51-56 | "170 lbs 15'6\" 18.5" is a 15.5 ft, 170 lb pole of flex 18.5 |
| DriveTimes.NormalizedLocationAlphabet | client/src/lib/drive-times.ts:32-37 | a normalised location holds only a–z and 0–9 |
| DriveTimes.NormalizeLocationSkipsTrim | client/src/lib/drive-times.ts:32-37 | the trim has no effect, since whitespace is removed anyway |
| DriveTimes.NormalizeLocationIdempotent | client/src/lib/drive-times.ts:32-37 | normalising twice is normalising once |
| DriveTimes.SuffixesAreSuffixFree | client/src/lib/drive-times.ts:46 | no state suffix ends another, so at most one can end a key |
| DriveTimes.StripStateRemovesSuffix | client/src/lib/drive-times.ts:46 | a key ending in a state suffix loses exactly that suffix |
| DriveTimes.StripStateKeepsOthers | client/src/lib/drive-times.ts:46 | a key ending in none is unchanged |
| DriveTimes.GetDriveTimeEstimate | client/src/lib/drive-times.ts:39-52 | the estimate is null or a value of the table |
| DriveTimes.ExactKeyFound | client/src/lib/drive-times.ts:41-43 | a normalised key in the table gives its value |
| DriveTimes.MissedKeyRetries | client/src/lib/drive-times.ts:45-49 | otherwise the lookup is retried once on the key without its state suffix |
| DriveTimes.RetryWithoutState | client/src/lib/drive-times.ts:45-49 | the retry uses the key with the suffix that ends it removed |
| DriveTimes.RetryLookup | client/src/lib/drive-times.ts:47-49 | the retry finds a value iff the stripped key is nonempty and in the table |
| DriveTimes.UnknownPlainKey | client/src/lib/drive-times.ts:39-52 | a missing key with no state suffix gives null |
| DriveTimes.StateNamesAreNotKeys | client/src/lib/drive-times.ts:1-30 | no state suffix is itself a key of the table |
| DriveTimes.BareStateHasNoEstimate | client/src/lib/drive-times.ts:47 | a location that is only a state ("CA", "USA") gives null |
| DriveTimes.PaloAltoExample | client/src/lib/drive-times.ts:7-43 | "Palo Alto, CA" gives "~25m" |
| MeetModel.NewMeet | server/storage/mem.ts:41-66 | a new meet has the given id, name, location and date, empty media and the given creation time; each of the seven optional text fields is the payload's value, or null when that is absent or "" (`\|\|`); registration status defaults when absent or "", filam is true only when given as true |
| MeetModel.MergeMeet | server/storage/mem.ts:68-98 | an update keeps id and createdAt and takes the given media, name, location and date; each of the seven optional text fields, the registration status and the filam flag takes the payload's value when it is present (even "") and keeps the old one when it is null or absent (`??`) |
| MeetModel.MergeIdempotent | server/storage/mem.ts:68-98 | applying the same update twice is applying it once |
| MeetModel.MergeOwnFieldsIsIdentity | server/storage/mem.ts:68-98 | updating a meet with its own fields leaves it unchanged |
| MeetModel.MergeWithoutOptionalsKeepsFields | server/storage/mem.ts:68-98 | an update without optional fields keeps every optional field |
| MeetModel.UpdateKeepsBlankText | server/storage/mem.ts:50-84 | an update stores a "" description that create would have turned into null |
| MeetModel.AdjustDateForTimezone | server/storage/types.ts:5-12 | `YYYY-MM-DD` text is returned unchanged; other text is reformatted, or throws |
| MeetModel.AdjustIdempotent | server/storage/types.ts:5-8 | on day text the adjustment is idempotent |
| MeetModel.NoRangeValidation | server/storage/types.ts:6 | "2024-99-99" passes through unchanged |
| MeetModel.AnchoredPattern | server/storage/types.ts:6-11 | day text followed by more text goes to the Date branch |
| MemStore.MintedIdIsNeverNumeric | server/storage/mem.ts:114 | a minted id `now-index` is never `String(n)` for any integer n |
| MemStore.FindIndexById | server/storage/mem.ts:131-150 | `findIndex` returns the first index with the id, or nothing when no item has it |
| MemStore.NewItems | server/storage/mem.ts:110-127 | the new items carry the uploads' fields, minted ids and positions start + index |
| MemStore.AppendKeepsPositions | server/storage/mem.ts:110-127 | when positions equal indices, appending keeps them so |
| MemStore.Patched | server/storage/mem.ts:158-166 | the update changes only caption and position, each only when given |
| MemStore.MemStorage.constructor | server/storage/mem.ts:16-20 | the seeded store holds, under id i + 1, the i-th demo meet created, or nothing when its date throws; it starts with no media, so every media id in it was minted |
| MemStore.MemStorage.GetMediaForMeet | server/storage/mem.ts:106-108 | the meet's media list, or [] when it has none |
| MemStore.MemStorage.GetMeetById | server/storage/mem.ts:29-39 | nothing for an unknown id; otherwise the stored meet with its current media |
| MemStore.MemStorage.GetAllMeets | server/storage/mem.ts:22-27 | every stored meet exactly once, with its media, in increasing id order |
| MemStore.MemStorage.CreateMeet | server/storage/mem.ts:41-66 | the counter advances; on success the new meet is stored under the old counter value; a throwing date changes nothing else |
| MemStore.MemStorage.UpdateMeet | server/storage/mem.ts:68-98 | nothing for an unknown id; a throwing date changes nothing; otherwise the merged meet replaces the old one |
| MemStore.MemStorage.DeleteMeet | server/storage/mem.ts:100-104 | reports whether the meet existed and removes it and its media list |
| MemStore.MemStorage.AddMediaItems | server/storage/mem.ts:110-127 | the new items follow the old ones, unchanged and in order; nothing else changes |
| MemStore.MemStorage.DeleteMediaItem | server/storage/mem.ts:110-142 | removes exactly the first item with the id and returns it, or changes nothing; while every media id is minted, it finds nothing and changes nothing |
| MemStore.MemStorage.UpdateMediaItem | server/storage/mem.ts:144-170 | nothing for a missing item; otherwise only that item changes, as Patched says; while every media id is minted, it finds nothing and changes nothing |
| MemStore.MemStorage.NumericMediaIdNeverFound | server/storage/mem.ts:114-150 | when every stored media id was minted (true from the constructor on, and kept by every operation), lookup by a numeric media id finds nothing |
| MemStore.WithoutKeepsIncreasing | server/storage/mem.ts:100-104 | deleting keeps the id order increasing |
| MemStore.DemoDatesAreDayText | shared/fixtures/meets.ts:1-40 | every demo date is already `YYYY-MM-DD` |
| LegacyStore.LegacyStorage.constructor | server/storage.ts:13-58 | the store holds the six samples under ids 1 to 6, in order, and the counter is 7 |
| LegacyStore.LegacyStorage.GetAllMeets | server/storage.ts:60-62 | the stored meets in insertion order, which is ids 1, 2, 3, … |
| LegacyStore.LegacyStorage.GetMeetById | server/storage.ts:64-66 | the stored meet, or nothing for an id never handed out |
| LegacyStore.LegacyStorage.CreateMeet | server/storage.ts:68-73 | stores and returns the payload plus the current id, then advances the counter |
| LegacyStore.SampleStoreContents | server/storage.ts:13-62 | a fresh store lists the six samples with ids 1 to 6 |
| PgStore.ToMediaItems | server/storage/pg.ts:27-63 | a falsy payload gives []; every item returned has a nonempty url |
| PgStore.SingleIsWrapped | server/storage/pg.ts:32 | a single value is read as a one-element array |
| PgStore.FalsyElementsIgnored | server/storage/pg.ts:35 | falsy elements are dropped before indices are counted |
| PgStore.NormalizeItem | server/storage/pg.ts:36-60 | the item's id is `String(id)` or the index, "video" only for exactly "video", the url defaults to "", position defaults to the index, and it throws iff the date throws |
| PgStore.NormalizeFromThrows | server/storage/pg.ts:34-61 | the map throws exactly when some item does |
| PgStore.UrlFilterLeavesGaps | server/storage/pg.ts:58-62 | the url filter runs after indices are fixed, so surviving ids and positions can skip |
| PgStore.BeforeT | server/storage/pg.ts:71-74 | `split("T")[0]` is the text up to the first 'T' |
| PgStore.MapRowToMeet | server/storage/pg.ts:70-93 | id, name, location, all seven optional text columns and createdAt under their field names, the date's day text, the media normalised, and the registration-status and filam defaults; throws iff the media does |
| PgStore.RowDateKeepsDay | server/storage/pg.ts:71-79 | a day plus a time keeps the day |
| PgStore.CreateColumns | server/storage/pg.ts:225-240 | every bound column: name, location and date as given, each optional text column the payload's value or null when absent or "" (`\|\|`), the registration-status default and the filam flag |
| PgStore.UpdateColumns | server/storage/pg.ts:283-302 | every bound column: name, location and date as given, and each optional column, the registration status and the filam flag the payload's value unless it is null or absent (`??`), else the stored one |
| PgStore.CreateAgreesWithMemory | server/storage/pg.ts:225-240 | the database writes exactly the fields the in-memory store builds on create |
| PgStore.UpdateAgreesWithMemory | server/storage/pg.ts:283-302 | and on update |
| PgStore.PlanMediaInserts | server/storage/pg.ts:360-400 | insert k gets position max + k + 1, with max −1 for no media; no items give no inserts |
| PgStore.PlannedPositions | server/storage/pg.ts:365-373 | the first position is 0 when the meet has no media, and each position is one past the previous |
| PgStore.PlanMediaUpdate | server/storage/pg.ts:438-477 | a missing item gives nothing; no fields give a plain re-read; otherwise the assignments and values of the given fields, numbered from $1, then the ids |
| PgStore.PlaceholdersBindTheirValues | server/storage/pg.ts:452-474 | placeholder j binds the j-th value; the two ids bind last |
| Sorting.SortPermutes | client/src/pages/home.tsx:873 | sorting permutes its input |
| Sorting.SortKeepsMembers | client/src/pages/home.tsx:873 | sorting keeps exactly the same members |
| Sorting.SortOrdered | client/src/pages/home.tsx:873 | with every key defined, the result is ordered by key |
| Sorting.SortIsStable | client/src/components/countdown-timer.tsx:26-38 | elements with equal keys keep their input order |
| Sorting.SortIdempotent | client/src/pages/home.tsx:879 | sorting a sorted list changes nothing |
| Sorting.Filter | client/src/pages/home.tsx:880-886 | `filter` keeps exactly the elements that pass, and only those |
| Sorting.InsertAt | client/src/pages/home.tsx:879 | one insertion step on the array places a[i] into the sorted prefix |
| Sorting.SortInPlace | client/src/pages/home.tsx:879 | sorting an array in place leaves its stable sort in it |
| Home.ParseDate | client/src/pages/home.tsx:865-869 | day text is read at local midnight ("T00:00:00"), anything else goes to the Date constructor |
| Home.Shown | client/src/pages/home.tsx:880-894 | a meet is shown iff it is stored and passes the filter: upcoming keeps non-past, past keeps past, all keeps every meet |
| Home.ShownInOrder | client/src/pages/home.tsx:887-894 | with valid dates, past is newest first and the others are oldest first |
| Home.UpcomingMeets | client/src/pages/home.tsx:872-873 | the upcoming meets are exactly the non-past meets |
| Home.NextUpcomingMeetId | client/src/pages/home.tsx:872-876 | null iff every meet is past; otherwise the id of a non-past meet |
| Home.NextUpcomingIsEarliest | client/src/pages/home.tsx:872-876 | with valid dates, it is the id of the earliest non-past meet |
| Home.FilteredMeets | client/src/pages/home.tsx:878-894 | under filam the fixed array is sorted ascending in place and returned; otherwise the array is untouched and the filtered, sorted meets are returned |
| Home.CardPropsFor | client/src/pages/home.tsx:959-961 | handlers are passed iff the filter is not filam; the highlight is set iff the id matches and the filter is not past |
| Home.UpcomingHeadIsHighlighted | client/src/pages/home.tsx:876-961 | the first upcoming card is the highlighted one |
| Home.InvalidDateIsUpcoming | client/src/pages/home.tsx:852-862 | a meet with an invalid date is never past |
| Countdown.NextMeet | client/src/components/countdown-timer.tsx:11-39 | null for no meets or no candidate; otherwise a meet dated at or after today's midnight |
| Countdown.NextMeetIsEarliest | client/src/components/countdown-timer.tsx:26-38 | the chosen meet is no later than any candidate |
| Countdown.NextMeetIsFirstOfItsDay | client/src/components/countdown-timer.tsx:26-38 | among candidates at the same instant, the first in input order is chosen |
| Countdown.DaysUntil | client/src/components/countdown-timer.tsx:42-57 | the day count is the least n with the gap at most n days, and 0 iff the meet is at today's midnight |
| Countdown.DayWord | client/src/components/countdown-timer.tsx:67 | "day" is singular iff the count is 1 |
| Countdown.CountdownText | client/src/components/countdown-timer.tsx:59-67 | nothing is shown iff there is no candidate; what is shown ends in " until " and the next meet's name |
| Countdown.MeetTodayShowsZeroDays | client/src/components/countdown-timer.tsx:42-67 | a meet today reads "0 days until …" |
| Countdown.InvalidDateSplitsNextMeet | client/src/components/countdown-timer.tsx:14-25 | an invalid date is highlighted on the home page but skipped by the countdown |
| MeetDetails.DayDifference | client/src/pages/meet-details.tsx:117-135 | the label is never empty |
| MeetDetails.AgoIffPast | client/src/pages/meet-details.tsx:125-129 | the label ends in " ago" iff the meet is past, and then it counts at least one day |
| MeetDetails.TodayIffSameInstant | client/src/pages/meet-details.tsx:130-131 | the label is "Today" iff the meet is at today's midnight |
| MeetDetails.OneDayLeft | client/src/pages/meet-details.tsx:132-134 | a meet within the next day reads "1 day left" |
| MeetDetails.Status | client/src/pages/meet-details.tsx:160-186 | the badge is "Past" or "Upcoming"; a date that does not parse, or is today, is "Upcoming" |
| MeetDetails.StatusMatchesLabel | client/src/pages/meet-details.tsx:104-161 | the badge reads "Past" exactly when the label ends in " ago" |
| Trends.TrendRowOf | client/src/pages/trends.tsx:192-218 | a row exists iff the date is valid and the meet is past or has a metric; it carries the midnight date and the raw fields |
| Trends.CollectRows | client/src/pages/trends.tsx:191-220 | the rows are exactly those of the meets that give one |
| Trends.TrendRows | client/src/pages/trends.tsx:191-221 | the sorted rows hold exactly the rows of the meets |
| Trends.TrendRowsAscending | client/src/pages/trends.tsx:221 | the rows are in ascending date order |
| Trends.WindowDays | client/src/pages/trends.tsx:229 | the window is 30 days iff the range is "30", otherwise 90 |
| Trends.RangedRows | client/src/pages/trends.tsx:224-235 | "all" keeps every row; otherwise a row stays iff it lies between today minus the window and today |
| Trends.PointsOf | client/src/pages/trends.tsx:237-246 | the points are exactly the rows whose value parses, with that value |
| Trends.PointsAscending | client/src/pages/trends.tsx:244-246 | points keep the rows' date order |
| Trends.BestIndex | client/src/pages/trends.tsx:248-253 | the reduce picks the first index that reaches the maximum |
| Trends.BestIsEarliestMaximum | client/src/pages/trends.tsx:248-274 | the best point has the largest value and is the earliest such point |
| Trends.Latest | client/src/pages/trends.tsx:255-277 | null iff there are no points, else a point |
| Trends.LatestIsMostRecent | client/src/pages/trends.tsx:255-277 | the latest point has the greatest date |
| Trends.HeightSummary | client/src/pages/trends.tsx:237-255 | the height record and latest exist together, and each holds its row's parsed height |
| Trends.TakeoffSummary | client/src/pages/trends.tsx:257-277 | the same for deepest takeoff |
| Trends.RoundToHalfFoot | client/src/pages/trends.tsx:135-137 | the result is a multiple of a half foot within a quarter foot of the value |
| Trends.PoleValue | client/src/pages/trends.tsx:279-300 | the length exists iff it parsed; rating and flex are as parsed |
| Trends.PoleLengthNearParsed | client/src/pages/trends.tsx:284 | the charted length is within a quarter foot of the parsed one |
| Trends.FormatFeetInches | client/src/pages/trends.tsx:111-121 | "" for a non-finite input, `F'` for 0 inches, `F' I"` otherwise |
| Trends.FormatTakeoffValue | client/src/pages/trends.tsx:130-133 | a takeoff always formats to nonempty text |
| Trends.FormatPoleMetricValue | client/src/pages/trends.tsx:139-153 | "" iff the value is not finite; rating reads "N lbs" and flex "N flex" |
| Trends.LengthShownInHalfFeet | client/src/pages/trends.tsx:144-146 | a length shows as `F'` or `F' 6"` of its half-foot value |
| Gallery.Step | client/src/components/media-gallery.tsx:33-35 | next wraps from the last index to 0, prev from 0 to the last, and the result stays in range |
| Gallery.StepsUndo | client/src/components/media-gallery.tsx:33-35 | prev undoes next and next undoes prev |
| Gallery.GalleryState.constructor | client/src/components/media-gallery.tsx:12-14 | nothing selected, not fullscreen, no touch |
| Gallery.GalleryState.OpenMedia | client/src/components/media-gallery.tsx:20-23 | selects the index and goes fullscreen |
| Gallery.GalleryState.CloseFullscreen | client/src/components/media-gallery.tsx:25-28 | clears the selection and leaves fullscreen |
| Gallery.GalleryState.NavigateMedia | client/src/components/media-gallery.tsx:30-38 | does nothing without a selection; otherwise steps it |
| Gallery.GalleryState.HandleKeyDown | client/src/components/media-gallery.tsx:40-44 | ArrowLeft steps back, ArrowRight steps on, Escape closes, other keys do nothing |
| Gallery.GalleryState.HandleTouchStart | client/src/components/media-gallery.tsx:172-174 | records the touch position |
| Gallery.GalleryState.HandleTouchEnd | client/src/components/media-gallery.tsx:176-191 | a 0 or absent start does nothing; a swipe over 50 px goes next (leftward) or prev; then the start is cleared |
| Gallery.CardTiles | client/src/components/media-gallery.tsx:47-78 | the card shows the first three items, with an overlay on the third iff there are more |
| Gallery.TilesAccountForAll | client/src/components/media-gallery.tsx:48-78 | the tiles plus the "+k" count add up to the number of items |
| Routes.FileFilter | server/routes.ts:60-75 | accepts exactly the eight listed MIME types and rejects the rest with the fixed message |
| Routes.UploadKind | server/routes.ts:213-214 | video iff the MIME type starts with "video/" |
| Routes.AcceptedKinds | server/routes.ts:60-214 | an accepted file is a video iff it is one of the three video types, and every accepted type is image or video |
| Routes.CaptionList | server/routes.ts:206-210 | an array is used as is, a string becomes a one-element list, anything else becomes [] |
| Routes.UploadCaption | server/routes.ts:215-221 | file i takes `captions[i] ?? captions[0]`: its own entry unless that is past the end, null or undefined (an array hole), else the first; a non-string or "" gives none, anything else is trimmed |
| Routes.MediaInput | server/routes.ts:212-224 | the upload's kind, "/uploads/" + filename, its caption, original name and clock reading |
| Routes.SingleCaptionForAll | server/routes.ts:206-221 | one caption string applies, trimmed, to every file |
| Routes.PatchCaption | server/routes.ts:296-298 | an absent caption is left alone, whitespace-only becomes null, anything else is trimmed |
| Routes.BlankCaptionDiffers | server/routes.ts:221-298 | a whitespace caption is stored as "" on upload but as null on update |
| Routes.PatchCaptionStable | server/routes.ts:296-298 | feeding a set caption back in sets it again |
| Routes.WithoutMedia | server/routes.ts:116-146 | the copied payload has every key but "media", with the same values |

## Left out

- Floating point: numbers are exact reals. Rounding of finite doubles, `toFixed(2)` and `formatMetersValue` (client/src/pages/trends.tsx:123-128) are not modelled. Overflow of `Number()` to Infinity is modelled by its threshold.
- JsText.MathRound: `Math.round` is floor(x + 0.5). This agrees with JavaScript on every real, but double-rounding effects near ties are not modelled.
- Trends.RoundToHalfFoot: `value * 2` cannot overflow to Infinity here, since the inputs are exact reals.
- Trends.FormatPoleMetricValue: `${value}` for a non-integer number is the parameter `show`; its digit rules are not modelled.
- Dates: the JavaScript `Date` constructor, time zones, `setHours`, `setDate` and `toISOString` are parameters (`construct`, `midnightOf`, `shiftDays`, `isoText`, `reformat`), not definitions. The non-pass-through branch of `adjustDateForTimezone` is one such parameter.
- Clocks: `Date.now()` and `new Date()` readings are passed in.
- Concurrency: `async`/`await` runs as plain sequential calls. The in-memory constructor's `createMeet` calls, which the source does not wait for, are modelled as completed in order.
- MemStore.MemStorage: the media arrays stored in the map are values, so the aliasing between an array the store returned and the one it later splices is not modelled.
- The Postgres store: SQL execution, connections and transactions are left out. The model records the values each query would bind and the SET text it would build.
- PgStore.ToMediaItems: truthy non-object elements and non-string raw fields are modelled only through the kinds of value listed in `RawItem`.
- PgStore.PlanMediaUpdate: the mediaMetadataSchema it validates against is not part of this model. The caption is taken to be a string or absent.
- Routes.PatchCaption: the same assumption about mediaMetadataSchema applies. The caption is a string or absent.
- The zod validation of `insertMeetSchema`: payloads are taken as already valid. Because the schema requires `name`, `date` and `location`, the fallbacks to the existing values are unreachable and are not modelled.
- Multer disk storage, upload directories, file deletion and random file names: file-system I/O, left out.
- DriveTimes: prototype-chain keys such as "constructor" are left out. The table is a finite map.
- Unicode: `\s`, `trim()` and the case folding used by the regexes are exact. `toLowerCase` is exact for characters whose lowercase contains a–z or 0–9. No other Unicode handling is modelled.
- The filam fixture: the meets written out at client/src/pages/home.tsx:20-711 are not transcribed. The array is a parameter of Home.FilteredMeets.
- Gallery.GalleryState: React batches state updates and re-renders. The model runs each handler as a sequence of plain assignments.
- Gallery.GalleryState: `touchStart` lives in the fullscreen viewer, which unmounts on close. The model keeps it in the same object and clears it on close.
- Gallery.GalleryState: an empty gallery renders nothing (client/src/components/media-gallery.tsx:16-18), so the class requires at least one item. The empty case is not a state of it.
- Rendering: JSX, charts, dialogs and toasts are left out. The trends chart shows points whose selection and formatting are modelled, but the plotting itself is not.
- Sorting.SortInPlace: once some element has no key, the comparator returns NaN and is not a consistent order, so ECMAScript leaves the result implementation-defined (engines using TimSort, such as V8, can order such a list differently). The model fixes one admissible order, that of its insertion sort. Sorting.SortOrdered, Sorting.SortIsStable and the other theorems about order hold for every engine only when every element has a key; Sorting.SortPermutes and Sorting.SortKeepsMembers hold in every case.
- MeetDetails.DayDifference: the "NaN days left" result for an invalid date is what the function returns. On the page, date-fns `format` in the same render (client/src/pages/meet-details.tsx:94-101) throws first, and that throw is not modelled.
- Metrics.NegativeInchesSplitOddly: negative inputs to the conversions are recorded as an observation. Callers only pass parsed, non-negative values.

The code differs from a plain reading of its purpose in two places, and the model follows the code:

- The pole result's `raw` is the trimmed input before quote normalisation (shared/metrics.ts:105, 207).
- The fallback flex scan skips a number only when its start index lies inside a used range (shared/metrics.ts:183).
