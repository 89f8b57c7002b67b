# ShopSafe backend core, modelled in Dafny

ShopSafe rates grocery stores near a user by combining two signals. The first is the
severity of COVID-19 in the store's county, read from percentile tables keyed by county
fips code. The second is the check-ins that shoppers submitted for the store: how busy it
was, the line, hygiene and mask wearing. This project models the sequential logic of the
backend that computes those signals:

- `checkin_stats.dfy` (module `CheckIn`) models the check-in aggregate of one store.
  - The class `CheckInStats` averages the four categories over the store's rating records,
    with 5.0 as the default when there are none, and combines them with weights of 0.25
    into the check-in score.
  - `CompileRatingDays` is the per-category time series. It walks the records with
    cumulative sums and emits a point at every change of day of the week, then one
    closing point. The series is specified by the functions `Series`, `BoundaryPoints`
    and `PointAt`. The loop is proved against them, and the lemmas state what the
    series is: its length, the values and dates of its points, and the closing average.
- `county.dfy` (module `CountyData`) models a county and its two table lookups.
  - A county is its name, state and fips. A failed census-area lookup gives the sentinel
    county `("", "", "")`.
  - The severity score is read from the updated percentile table, then from the backup
    table, and is 5.0 when neither matches or on any failure.
  - The population is read from the population table.
  - Both lookups skip the header row and compare fips codes as 32-bit integers, so
    `"01001"` matches `"1001"`. `Integer.parseInt` and `Long.parseLong` are modelled
    exactly for ASCII digits, with the sign and the range limits.
- `java_text.dfy` (module `JavaText`) holds the Java string operations the servlet relies
  on: `trim()`, `split(",")` with its trailing-empty-string rule, `split("\\s+")` on a
  trimmed string, joining words with a separator, and `Boolean.valueOf`.
- `stores_servlet.dfy` (module `StoresServlet`) models the request handling of the stores
  endpoint.
  - `DoGet` makes the parameter checks in order, with the exact error messages.
  - `BuildGeocodeQuery` builds the geocoding query: the trimmed address split at
    whitespace runs and joined with `+`.
  - `AddStore` is one step of the scoring loop `ScoreStores`. It fills the
    fips-to-score cache only for a fips not cached yet, and appends one result per
    store whose county lookup succeeded.
  - The checks are specified by `LocateRequest` and the kept stores by
    `ResolvedStores`.
- `optional.dfy` holds the shared `Option` type.

Everything the servlet obtains from outside is a field of a `Services` value:
- `Double.parseDouble`;
- the geocoder, the places search and the census-area service;
- the stored check-ins of a store;
- the two percentile tables.

A CSV file is a sequence of rows, or `None` when it cannot be opened.

The series rule compares only the day of the week of adjacent records, as
`Date.getDay()` does, and never resets its sums. Each point is therefore a cumulative
average since the first record, not an average of one day. The model reproduces this as
coded, and `CumulativeNotPerDay` and `MondayMondayTuesday` state it outright.

## Model

| member | source | states |
|---|---|---|
| CheckIn.Key | shopsafe-backend/src/main/java/com/google/sps/data/CheckInStats.java:102-106 | every category's key is one of the four keys "mask", "hygiene", "line", "busy" of the series map |
| CheckIn.SumStep | shopsafe-backend/src/main/java/com/google/sps/data/CheckInStats.java:117-121 | adding record i to the running sum of records 0..i-1 gives the sum of records 0..i |
| CheckIn.SumUniform | shopsafe-backend/src/main/java/com/google/sps/data/CheckInStats.java:52-57 | when every record has value k in a category, the category's sum is n·k |
| CheckIn.NoCheckInsScore | shopsafe-backend/src/main/java/com/google/sps/data/CheckInStats.java:67-73 | with no records every category average is 5.0, and so is the weighted check-in score |
| CheckIn.ScoreOfEqualAverages | shopsafe-backend/src/main/java/com/google/sps/data/CheckInStats.java:185-187 | the four weights sum to one: when all four averages equal k the check-in score is k |
| CheckIn.UniformRatingsScore | shopsafe-backend/src/main/java/com/google/sps/data/CheckInStats.java:59-65 | when every record rates every category k, every average is k and the score is k |
| CheckIn.BoundaryIndicesExact | shopsafe-backend/src/main/java/com/google/sps/data/CheckInStats.java:112-132 | the indices where a point is emitted are strictly increasing and are exactly the i below the bound where records i and i+1 differ in day of week |
| CheckIn.BoundaryPointsAt | shopsafe-backend/src/main/java/com/google/sps/data/CheckInStats.java:132-143 | the m-th point emitted in the loop is the cumulative average of records 0..i dated at record i, where i is the m-th boundary index |
| CheckIn.SeriesShape | shopsafe-backend/src/main/java/com/google/sps/data/CheckInStats.java:112-180 | for n ≥ 1 records the series has one point per weekday change among adjacent records plus one; each of those points sits at its boundary record; the closing point is the average over all n records, which is the constructor's average, dated at the last record |
| CheckIn.SeriesAligned | shopsafe-backend/src/main/java/com/google/sps/data/CheckInStats.java:140-143 | the four category series have the same length and the same dates point by point |
| CheckIn.EmptySeries | shopsafe-backend/src/main/java/com/google/sps/data/CheckInStats.java:112-152 | with no records the series is empty |
| CheckIn.SingleRecordSeries | shopsafe-backend/src/main/java/com/google/sps/data/CheckInStats.java:152-173 | a single record yields exactly one point: its own value at its own date |
| CheckIn.SameWeekdayOnePoint | shopsafe-backend/src/main/java/com/google/sps/data/CheckInStats.java:128-130 | records all on the same weekday, even weeks apart, yield only the closing point |
| CheckIn.MondayMondayTuesday | shopsafe-backend/src/main/java/com/google/sps/data/CheckInStats.java:112-180 | for records on days d, d, e with d ≠ e the series is the average of the first two at the second's date, then the average of all three at the third's date |
| CheckIn.CumulativeNotPerDay | shopsafe-backend/src/main/java/com/google/sps/data/CheckInStats.java:117-143 | three records on changing weekdays give three points, and the second averages the first two records, not just the second day's |
| CheckIn.UniformSeries | shopsafe-backend/src/main/java/com/google/sps/data/CheckInStats.java:117-173 | when every record has value k in a category, every point of its series has value k |
| CheckIn.UniformPoint | shopsafe-backend/src/main/java/com/google/sps/data/CheckInStats.java:140-143 | a cumulative average of records that all have value k is k |
| CheckIn.CheckInStats.constructor | shopsafe-backend/src/main/java/com/google/sps/data/CheckInStats.java:44-74 | the count is the number of records; each category is its sum divided by the count, or 5.0 when there are no records |
| CheckIn.CheckInStats.GetBusy | shopsafe-backend/src/main/java/com/google/sps/data/CheckInStats.java:76-78 | the busy value is the average busy rating (5.0 with no records) |
| CheckIn.CheckInStats.GetLine | shopsafe-backend/src/main/java/com/google/sps/data/CheckInStats.java:80-82 | the line value is the average line rating (5.0 with no records) |
| CheckIn.CheckInStats.GetHygiene | shopsafe-backend/src/main/java/com/google/sps/data/CheckInStats.java:84-86 | the hygiene value is the average hygiene rating (5.0 with no records) |
| CheckIn.CheckInStats.GetMasks | shopsafe-backend/src/main/java/com/google/sps/data/CheckInStats.java:88-90 | the masks value is the average mask rating (5.0 with no records) |
| CheckIn.CheckInStats.GetCheckInCount | shopsafe-backend/src/main/java/com/google/sps/data/CheckInStats.java:92-94 | the count is the number of rating records |
| CheckIn.CheckInStats.GetCheckInScore | shopsafe-backend/src/main/java/com/google/sps/data/CheckInStats.java:185-187 | the score is the 0.25-weighted sum of the four averages, 5.0 with no records |
| CheckIn.WalkStep | shopsafe-backend/src/main/java/com/google/sps/data/CheckInStats.java:112-150 | one step of the walk over adjacent records adds a point, the running average dated at record i, exactly when records i and i+1 differ in day of week |
| CheckIn.WalkEnd | shopsafe-backend/src/main/java/com/google/sps/data/CheckInStats.java:152-180 | after the walk, the closing point (running average over all records, dated at the last one) completes the series |
| CheckIn.RunningSumIsSum | shopsafe-backend/src/main/java/com/google/sps/data/CheckInStats.java:117-121 | the sum accumulated index by index over the first n records is the sum of that prefix |
| CheckIn.CheckInStats.CompileRatingDays | shopsafe-backend/src/main/java/com/google/sps/data/CheckInStats.java:96-183 | the map has exactly the keys mask, hygiene, line and busy; each entry is that category's series (all empty when there are no records) |
| CountyData.GetCounty | shopsafe-backend/src/main/java/com/google/sps/data/County.java:62-93 | the lookup is flagged failed exactly when the census-area answer is missing, and then the county is ("", "", ""); otherwise it is the answer's county |
| CountyData.ParseInteger | shopsafe-backend/src/main/java/com/google/sps/data/County.java:103 | a parsed integer lies in the requested range (the 32-bit range for Integer.parseInt, 64-bit for Long.parseLong) |
| CountyData.LeadingZeroDigits | shopsafe-backend/src/main/java/com/google/sps/data/County.java:103 | a leading '0' keeps a digit string a digit string with the same value |
| CountyData.LeadingZeroIgnored | shopsafe-backend/src/main/java/com/google/sps/data/County.java:103 | Integer.parseInt gives the same result with or without a leading zero |
| CountyData.FipsWithLeadingZero | shopsafe-backend/src/main/java/com/google/sps/data/County.java:103 | "01001" and "1001" both parse to 1001 |
| CountyData.ScanFoundIsFirstMatch | shopsafe-backend/src/main/java/com/google/sps/data/County.java:102-106 | a scan finds a cell only in the first row whose key equals the fips, after rows whose keys all parse and differ |
| CountyData.FirstMatchIsFound | shopsafe-backend/src/main/java/com/google/sps/data/County.java:102-106 | conversely, the first matching row decides the scan: its value cell, or an exception when that row has no value column |
| CountyData.ScanFailsAtBadRow | shopsafe-backend/src/main/java/com/google/sps/data/County.java:102-103 | a row whose key is missing or not an integer, reached before any match, ends the scan with an exception |
| CountyData.NotFoundIffNoMatch | shopsafe-backend/src/main/java/com/google/sps/data/County.java:102-106 | the scan runs off the end exactly when the fips and every key parse and no key equals the fips |
| CountyData.FindRow | shopsafe-backend/src/main/java/com/google/sps/data/County.java:100-106 | the row-by-row loop with early return finds what the table search specifies, and a found cell belongs to the first matching row after the header |
| CountyData.GetCountyScore | shopsafe-backend/src/main/java/com/google/sps/data/County.java:96-129 | the score is the specified county score: updated table, then backup table, otherwise 5.0 |
| CountyData.ScoreFromFirstUpdatedMatch | shopsafe-backend/src/main/java/com/google/sps/data/County.java:100-106 | the first matching row of the updated table after its header gives 10 × its percentile, whatever the backup table holds |
| CountyData.BackupOnlyWithoutUpdatedMatch | shopsafe-backend/src/main/java/com/google/sps/data/County.java:109-116 | the backup table can change the score only when the updated table opens and every data row of it has a key that parses and differs from the fips |
| CountyData.ScoreFromBackupMatch | shopsafe-backend/src/main/java/com/google/sps/data/County.java:109-116 | with no match in the updated table, the first matching backup row gives 10 × its percentile |
| CountyData.NeutralScoreWithoutMatch | shopsafe-backend/src/main/java/com/google/sps/data/County.java:118-120 | when no data row of either table matches the fips the score is 5.0, whether or not the fips is an integer |
| CountyData.NeutralScoreForBadFips | shopsafe-backend/src/main/java/com/google/sps/data/County.java:102-128 | a fips that is not an integer gives 5.0 whatever the tables: an exception on the first data row read, else no match |
| CountyData.NeutralScoreWithoutUpdatedFile | shopsafe-backend/src/main/java/com/google/sps/data/County.java:100-128 | an updated file that cannot be opened gives 5.0 at once, without reading the backup |
| CountyData.NeutralScoreForBadRow | shopsafe-backend/src/main/java/com/google/sps/data/County.java:101-128 | an updated data row whose key is missing or not an integer, reached before any match, gives 5.0 whatever the backup holds |
| CountyData.NeutralScoreForBadPercentile | shopsafe-backend/src/main/java/com/google/sps/data/County.java:103-128 | an updated first match without a percentile cell, or with one that is not a number, gives 5.0 |
| CountyData.NeutralScoreWithoutBackupFile | shopsafe-backend/src/main/java/com/google/sps/data/County.java:109-128 | with no match in the updated table, a backup file that cannot be opened gives 5.0 |
| CountyData.NeutralScoreForBadBackupRow | shopsafe-backend/src/main/java/com/google/sps/data/County.java:110-128 | with no match in the updated table, a backup data row whose key is missing or not an integer, reached before any backup match, gives 5.0 |
| CountyData.NeutralScoreForBadBackupPercentile | shopsafe-backend/src/main/java/com/google/sps/data/County.java:112-128 | with no match in the updated table, a first backup match without a percentile cell, or with one that is not a number, gives 5.0 |
| CountyData.HeaderIgnored | shopsafe-backend/src/main/java/com/google/sps/data/County.java:100-101 | replacing the header row of the updated table does not change the score |
| CountyData.ScanIgnoresEarlierRows | shopsafe-backend/src/main/java/com/google/sps/data/County.java:102-106 | a scan from row i depends only on rows i onward |
| CountyData.LeadingZeroFipsMatches | shopsafe-backend/src/main/java/com/google/sps/data/County.java:103-104 | fips "01001" matches a row keyed "1001" with percentile 0.3, giving the score 3.0 |
| CountyData.GetCountyPopulationFromCsv | shopsafe-backend/src/main/java/com/google/sps/data/County.java:132-155 | the population is the specified first-match population and fits in a Java long |
| CountyData.PopulationFromFirstMatch | shopsafe-backend/src/main/java/com/google/sps/data/County.java:136-141 | the first row after the header whose column 3 equals the fips gives the population in its column 2 |
| CountyData.PopulationZeroWithoutMatch | shopsafe-backend/src/main/java/com/google/sps/data/County.java:144-146 | without a matching row the population is 0 |
| CountyData.PopulationZeroWithoutFile | shopsafe-backend/src/main/java/com/google/sps/data/County.java:136-153 | a population file that cannot be opened gives 0 |
| CountyData.PopulationZeroForBadFips | shopsafe-backend/src/main/java/com/google/sps/data/County.java:138-153 | a fips that is not an integer gives 0 whatever the file holds |
| CountyData.PopulationZeroForBadRow | shopsafe-backend/src/main/java/com/google/sps/data/County.java:138-153 | a row whose key in column 3 is missing or not an integer, reached before any match, gives 0 |
| CountyData.PopulationZeroForBadCount | shopsafe-backend/src/main/java/com/google/sps/data/County.java:139-153 | a first match without column 2, or whose column 2 Long.parseLong rejects, gives 0 |
| JavaText.SkipBlanks | shopsafe-backend/src/main/java/com/google/sps/servlets/StoresServlet.java:97 | the first index from i on whose character trim() keeps (or the length); every character skipped is at or below ' ' |
| JavaText.DropBlanks | shopsafe-backend/src/main/java/com/google/sps/servlets/StoresServlet.java:276 | the end index once the characters at or below ' ' before it are dropped, never below the start index; the character before it is kept |
| JavaText.Trim | shopsafe-backend/src/main/java/com/google/sps/servlets/StoresServlet.java:97 | trim() neither starts nor ends with a character at or below ' ' (so neither with whitespace), and is empty exactly when every character of the string is at or below ' ' |
| JavaText.SplitComma | shopsafe-backend/src/main/java/com/google/sps/servlets/StoresServlet.java:106 | split(",") of a string without a comma is the string alone; no piece holds a comma |
| JavaText.SplitWhitespace | shopsafe-backend/src/main/java/com/google/sps/servlets/StoresServlet.java:276 | split("\\s+") of a trimmed string has at least one word, and every word of a non-blank one is nonempty |
| JavaText.ParseBoolean | shopsafe-backend/src/main/java/com/google/sps/servlets/StoresServlet.java:105 | Boolean.valueOf is true exactly for a present four-letter string equal to "true" ignoring ASCII case |
| JavaText.TrimCutsBlanks | shopsafe-backend/src/main/java/com/google/sps/servlets/StoresServlet.java:97 | trim() is s with a prefix and a suffix of characters at or below ' ' cut off, the middle kept unchanged |
| JavaText.DropTrailingEmpty | shopsafe-backend/src/main/java/com/google/sps/servlets/StoresServlet.java:106 | split drops exactly the trailing empty pieces: the result is a prefix that ends in a nonempty piece, and everything after it is empty |
| JavaText.PiecesAvoidSeparators | shopsafe-backend/src/main/java/com/google/sps/servlets/StoresServlet.java:276 | no piece of a split holds a separator character |
| JavaText.PiecesOfPlainString | shopsafe-backend/src/main/java/com/google/sps/servlets/StoresServlet.java:106 | a string without separators splits into itself alone |
| JavaText.PiecesAppend | shopsafe-backend/src/main/java/com/google/sps/servlets/StoresServlet.java:106 | splitting a + sep + b gives the pieces of a followed by the pieces of b |
| JavaText.SplitJoin | shopsafe-backend/src/main/java/com/google/sps/servlets/StoresServlet.java:276-289 | joining words free of the separator characters with one of them and splitting at them gives back the words: the join is invertible |
| JavaText.SplitWhitespaceJoin | shopsafe-backend/src/main/java/com/google/sps/servlets/StoresServlet.java:276 | nonempty words free of whitespace, joined with a blank, neither start nor end with whitespace and split("\\s+") gives back the words |
| JavaText.JoinEnds | shopsafe-backend/src/main/java/com/google/sps/servlets/StoresServlet.java:280-286 | a join of nonempty words starts with the first word's first character and ends with the last word's last character |
| JavaText.NonEmptyKeepsNonEmpty | shopsafe-backend/src/main/java/com/google/sps/servlets/StoresServlet.java:276 | dropping empty strings leaves a sequence without empty strings unchanged |
| JavaText.JoinAvoids | shopsafe-backend/src/main/java/com/google/sps/servlets/StoresServlet.java:280-289 | a join holds only characters of its words and the separator |
| JavaText.JoinSnoc | shopsafe-backend/src/main/java/com/google/sps/servlets/StoresServlet.java:283-286 | appending one more word to the builder appends '+' and the word: the join of the words so far plus one |
| JavaText.WordsOfNonBlank | shopsafe-backend/src/main/java/com/google/sps/servlets/StoresServlet.java:276-277 | a trimmed, non-blank string has at least one word, every word nonempty and free of whitespace |
| JavaText.FirstPieceOfPlainStart | shopsafe-backend/src/main/java/com/google/sps/servlets/StoresServlet.java:276-281 | a string starting with a non-separator has a first nonempty word |
| StoresServlet.ResolvedCount | shopsafe-backend/src/main/java/com/google/sps/servlets/StoresServlet.java:192-198 | the kept stores are as many as the stores whose county lookup succeeded, and each is such a store |
| StoresServlet.MissingLocationFirst | shopsafe-backend/src/main/java/com/google/sps/servlets/StoresServlet.java:86-94 | a missing location parameter is the first error, whatever latlng says |
| StoresServlet.BlankLocationRejected | shopsafe-backend/src/main/java/com/google/sps/servlets/StoresServlet.java:96-102 | a location of only blanks gives the "address must be submitted" error before any other check |
| StoresServlet.TwoSpacesRejected | shopsafe-backend/src/test/java/com/google/sps/StoresServletTest.java:81-96 | location "  " with latlng "  " gives "Failed to get location, an address must be submitted." |
| StoresServlet.LatLngArityFirst | shopsafe-backend/src/main/java/com/google/sps/servlets/StoresServlet.java:105-116 | in latitude-longitude mode a comma split into other than two parts is rejected before any number is parsed |
| StoresServlet.LatLngNotNumbers | shopsafe-backend/src/main/java/com/google/sps/servlets/StoresServlet.java:118-130 | two parts of which one is not a number give the "Invalid value types" error naming the address |
| StoresServlet.NoCommaNotLatLng | shopsafe-backend/src/main/java/com/google/sps/servlets/StoresServlet.java:96-115 | in latitude-longitude mode any location that is not all blanks and holds no comma is rejected with the "not provided in latitude, longitude format" message naming it |
| StoresServlet.PhiladelphiaIsNotLatLng | shopsafe-backend/src/test/java/com/google/sps/StoresServletTest.java:174-190 | "Philadelphia" with latlng "true" gives "Location not provided in latitude, longitude format: Philadelphia" |
| StoresServlet.CommaPairNotNumeric | shopsafe-backend/src/test/java/com/google/sps/StoresServletTest.java:194-209 | any "a,b" in latitude-longitude mode (such as "Hello, World", ",5" or " 40,abc") with a nonempty second half and a non-numeric half gives the "Invalid value types" error naming the whole input |
| StoresServlet.SplitAtOneComma | shopsafe-backend/src/main/java/com/google/sps/servlets/StoresServlet.java:106 | a string with one comma and a nonempty tail splits into exactly those two parts |
| StoresServlet.AddressModeUsesQuery | shopsafe-backend/src/main/java/com/google/sps/servlets/StoresServlet.java:132-139 | outside latitude-longitude mode the location is the geocoder's answer for the normalised query, or the "Failed to find the location" error |
| StoresServlet.GeocodeQueryWords | shopsafe-backend/src/main/java/com/google/sps/servlets/StoresServlet.java:276-289 | for a non-blank address the query is the address's words in order joined by single '+', holds no whitespace, and splits at '+' back into the same words when no word holds a '+' |
| StoresServlet.BuildGeocodeQuery | shopsafe-backend/src/main/java/com/google/sps/servlets/StoresServlet.java:276-289 | the StringBuilder loop yields the words joined with '+', holding no whitespace |
| StoresServlet.QueryOfAddress | shopsafe-backend/src/main/java/com/google/sps/servlets/StoresServlet.java:276-289 | the trimmed address has at least one word; a blank address gives the single empty word and the empty query; the query never holds whitespace |
| StoresServlet.ScoreBoard.constructor | shopsafe-backend/src/main/java/com/google/sps/servlets/StoresServlet.java:145-146 | a request starts with an empty score cache and no results |
| StoresServlet.Servlet.constructor | shopsafe-backend/src/main/java/com/google/sps/servlets/StoresServlet.java:60 | the servlet starts with a default user location |
| StoresServlet.Servlet.AddStore | shopsafe-backend/src/main/java/com/google/sps/servlets/StoresServlet.java:186-212 | a failed county lookup changes neither the cache nor the results; otherwise the fips is cached, an existing entry is never overwritten, a missing one gets the county score, and exactly one result is appended carrying the store, the cached score, the user location and fresh check-in stats of the store's ratings |
| StoresServlet.Servlet.ScoreStores | shopsafe-backend/src/main/java/com/google/sps/servlets/StoresServlet.java:153-165 | scoring all stores keeps, in order, exactly the stores whose county lookup succeeded, each with its county's score and its own check-in stats |
| StoresServlet.Servlet.GetLatLngFromAddress | shopsafe-backend/src/main/java/com/google/sps/servlets/StoresServlet.java:273-289 | success exactly when the geocoder answers the normalised query; then that answer is the user's location, otherwise the location is unchanged |
| StoresServlet.Servlet.DoGet | shopsafe-backend/src/main/java/com/google/sps/servlets/StoresServlet.java:86-173 | the first failing check gives its 400 message and leaves the user location as it was; otherwise the user location is set, and the response lists the stores around it with a successful county lookup, each with its county score, its own check-in stats over its ratings and that user location, or is the "Failed to find any valid stores" error when there are none |

## Left out

- The thread pool and the busy-wait join around `addStore`, and the race semantics of the
  concurrent map and queue. Stores are scored one after another in `ScoreStores`.
  Concurrently, two stores of one county could both compute the score. Results could
  arrive out of order.
- Network calls are not performed.
  - The places search (`getStores`), the geocoder and the census-area service are
    functions in `Services`.
  - Their URLs, JSON parsing and exceptions are not part of this model. A failed geocoding
    or census-area call is `None`. A places search that fails part-way returns the stores
    parsed before the failure; `findStores` is an arbitrary function and covers this.
- The response writer, status codes and Gson serialisation. A response is a
  `BadRequest` message or the list of results with the user location. `StoreResult` and
  the JSON shape are not part of this model.
- Reading the places API key, which is a file read before the checks, and
  `CountyPercentile.updatePercentileFile`. Both are not part of this model.
- Opening CSV files and the CSV format. A file is a given sequence of rows, or `None`
  when it cannot be opened.
- The datastore. A store's rating records are given, in order, by `Services.ratingsOf`.
  Reading them cannot fail here.
- IEEE double arithmetic. Ratings, averages and scores are exact `real`s.
  `Double.parseDouble` is an arbitrary partial function given as a parameter, so no
  result depends on how it rounds.
- Calendar semantics. Each record carries an abstract day of the week (0..6) and an
  opaque timestamp. Time zones and `Date` internals are not modelled.
- CheckIn.CheckInStats.CompileRatingDays: its unused `Property` parameter is dropped.
- CountyData.ParseInteger: digits beyond ASCII '0'..'9' are not modelled.
  `Integer.parseInt` also accepts other Unicode decimal digits.
- Unchecked casts of datastore properties, which could throw, are not modelled: the
  `(double)` casts in the `CheckInStats` constructor, and the `(double)` and `(Date)` casts
  in `compileRatingDays`. Records are typed.
- StoresServlet.Servlet.constructor: `userLocation` starts as `null` in the servlet. The
  model starts it at latitude 0 and longitude 0, and no response reads it before a check
  sets it.
- The log lines printed on failures are not modelled.
- The county sentinel is recognised by an explicit `failed` flag rather than by comparing
  the county name with `""` by reference.
