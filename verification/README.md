# Fuel-economy API core, modelled in Dafny

This project models the query and aggregation core of a small vehicle
fuel-economy API server, `server.js`. The core has four parts:

- **Loader.** A row handler turns each CSV row into a vehicle record. It
  assigns ids 1..N in load order, defaults fields that did not parse to 0 or
  `""`, maps the `"?"` horsepower sentinel to `null`, and names the origin
  code (`getOriginName`).
- **Listing** (`GET /api/cars`). It applies seven optional filters in source
  order, sorts by a named field in either direction, then cuts one page with
  `Array.prototype.slice`. It reports `total` and `totalPages`.
- **Lookup by id** (`GET /api/cars/:id`). A missed id is an explicit
  "not found".
- **Aggregation.**
  - The statistics snapshot: means, ranges, and the cylinder and origin
    distributions.
  - Two visualization views that group records by model year and by cylinder
    count, sorted ascending by key.

Every operation is a pure function over immutable datatypes. Each one is
paired with a reference definition, an inverse or an invariant, and lemmas
connect the two.

Modules:

- `Wrappers`: the `Option` type.
- `Cars`: the record and row types, origin names, loading, find-by-id.
- `Text`: ASCII lower-casing, the substring test and its reference
  definition, the lexicographic string order.
- `Sorting`: insertion sort under a total preorder.
- `Filtering`: query parameters and the filter chain.
- `CarOrder`: sort keys and the comparator.
- `Pagination`: `slice` index semantics, pages, page counts.
- `Listing`: the `GET /api/cars` handler.
- `Distribution`: counting occurrences.
- `Numbers`: sums, means, ranges.
- `Statistics`: the statistics snapshot.
- `Grouping`: the visualization views.
- `Examples`: worked examples on a three-record dataset.

Modelling choices:

- **Query parameters.** The numeric ones (`minMpg`, `maxMpg`, `cylinders`,
  `origin`, `minYear`, `maxYear`, `page`, `limit`) are
  `Param<T> = Absent | Given(text, parsed)`. `parsed` is the result of
  `parseFloat`/`parseInt`, with `None` standing for `NaN`. The string ones
  (`search`, `sortBy`, `sortOrder`) are `Option<string>`, with `None` for a
  missing parameter. The guard `p && p !== 'null' && !isNaN(parse(p))` is
  `Filtering.Setting`.
- **Non-numeric results.**
  - JavaScript `NaN` and `Infinity` results become `None`.
  - In the response these are the values JSON renders as `null`: `totalPages`
    for a zero or unparseable limit, and `page` and `limit` when they do not
    parse.
  - In the statistics they are the source's `NaN` and `Infinity` on an empty
    dataset: the means and the ranges.
- **Numbers.** All arithmetic is exact (`real` and unbounded `int`).
- **Page windows.** Page and limit values below 1 follow `slice` exactly:
  negative indices count back from the end of the list. The code does not
  coerce page or limit to positive integers, and neither does the model.
  `Pagination.PageBelowOneCountsFromEnd` states what pages below 1 contain,
  and `Pagination.NegativeLimit` what a negative limit gives: page 1 holds
  every sorted match but the last `-limit`, and every other page is empty.
- **Sort keys.** The key of a record is its `sortBy` field, lower-cased when
  it is a string; a missing horsepower compares as 0, as `null` does in `<`
  and `>` (`CarOrder.NullHorsepowerSortsAsZero`).

## Model

| member | source | states |
|---|---|---|
| Cars.OriginNameCases | server.js:76-83 | Code 1 is named USA, 2 Europe, 3 Japan; every other code, and only those, is Unknown |
| Cars.OriginNameSeparatesKnownCodes | server.js:76-83 | Two different codes share a name only when both are outside 1..3 and the name is Unknown |
| Cars.MakeCarOriginConsistent | server.js:51-63 | A built record's originName always agrees with its stored origin code, including rows whose origin did not parse (code defaults to 0, name Unknown) |
| Cars.Load | server.js:49-65 | One record per row, in row order; record i is row i built with id i+1 |
| Cars.LoadInvariants | server.js:49-64 | Loaded ids are exactly 1..N by position, and every record's origin name matches its code |
| Cars.FindById | server.js:204-207 | The result carries the requested id and is the first record with it; not found exactly when the id does not parse or no record has it |
| Cars.FindLoadedRow | server.js:204-206 | On loaded data, id k finds the record built from row k for 1 <= k <= N, and is not found for any other k |
| Text.ContainsIffOccurs | server.js:121-125 | `includes` holds exactly when the needle occurs at some position of the haystack |
| Text.LowerIdempotent | server.js:122-124 | Lower-casing twice is lower-casing once |
| Filtering.SearchIgnoresNeedleCase | server.js:121-126 | A search for a string and for its lower-case form keeps exactly the same records |
| Text.LexLeTotal | server.js:159-168 | Any two strings are comparable |
| Text.LexLeTransitive | server.js:159-168 | String comparison is transitive |
| Text.LexLeAntisymmetric | server.js:159-168 | Two strings each no greater than the other are equal |
| Filtering.Setting | server.js:129-151 | A numeric filter is switched off exactly when its parameter is absent, empty, the literal "null", or unparseable; otherwise it uses the parsed value |
| Filtering.Keep | server.js:123-151 | One `filter` keeps the passing records in their original order, each passing record as many times as it occurs and no other record |
| Filtering.Pass | server.js:121-151 | A switched-off stage keeps everything; a switched-on stage keeps each passing record as many times as it occurs, in order, and no other record |
| Filtering.PassesStagesMeaning | server.js:120-152 | Passing every switched-on stage is the same as meeting the reference conjunction: inclusive bounds, exact equalities, and case-insensitive substring search |
| Filtering.ApplyFilters | server.js:120-152 | The result is an order-preserving subsequence of the input; each record occurs in it as often as in the input when it matches every switched-on filter, and not at all otherwise |
| Filtering.SwitchedOffFiltersKeepEverything | server.js:120-152 | Absent, "null", unparseable or empty parameters leave the list exactly as it was |
| Filtering.FilterIdempotent | server.js:120-152 | Filtering the filtered list again with the same parameters changes nothing |
| CarOrder.KeyLeTotalPreorder | server.js:155-169 | The key order is total, transitive and antisymmetric on keys |
| CarOrder.CarLeTotalPreorder | server.js:155-169 | The comparator, read as "may come first", is a total preorder in both directions |
| Sorting.Sort | server.js:155-169 | Sorting yields a permutation of its input that is ordered by the comparison |
| CarOrder.NullHorsepowerSortsAsZero | server.js:156-162 | A record without horsepower sorts by horsepower as 0; any other record by its horsepower |
| CarOrder.SortCars | server.js:155-169 | The sorted list is a permutation of the filtered list, non-decreasing in the key for `asc` and non-increasing otherwise |
| CarOrder.DirectionsAreReversed | server.js:164-168 | For two records with different keys, ascending order puts them one way round and descending order the other |
| Pagination.RelativeIndex | server.js:174 | A slice index always lands within 0..length |
| Pagination.PageOf | server.js:172-174 | An unparseable page or limit gives an empty page; a page never holds more records than a non-negative limit |
| Pagination.PageWindow | server.js:172-174 | For page >= 1 and limit >= 0, the page is the window [(page-1)*limit, page*limit) clipped to the list |
| Pagination.PagePastEnd | server.js:172-174 | A page starting at or beyond the end of the list is empty, not an error |
| Pagination.PageMembers | server.js:174 | A page holds only records of the list it was cut from |
| Pagination.NegativeLimit | server.js:172-174 | With limit -k, page 1 is every record but the last k and every other page is empty |
| Pagination.PageBelowOneCountsFromEnd | server.js:172-174 | Page 0 is empty, and a negative page is a window counted back from the end of the list |
| Pagination.TotalPages | server.js:182 | For a positive limit, totalPages is the ceiling of total/limit: (n-1)*limit < total <= n*limit. It is `null` for a zero or unparseable limit; a negative limit gives the negative ceiling |
| Pagination.AllPagesReassemble | server.js:172-182 | Pages 1..totalPages laid end to end give back the whole list, each record once, in order |
| Listing.Matching | server.js:103-169 | The sorted list holds the filtered records, each as often as it was filtered, and exactly the records that match the filters; when `sortBy` names a field, its keys ascend for `sortOrder=asc` and descend otherwise; without `sortBy` and `sortOrder` it sorts by mpg, descending |
| Listing.DefaultSort | server.js:114-115 | A missing `sortBy` sorts by mpg; the order is ascending exactly for `sortOrder=asc`, so a missing `sortOrder` sorts descending |
| Listing.ListCars | server.js:101-183 | total is the number of matching records whatever the page; page and limit default to 1 and 50; totalPages is computed from total; with no page or limit the data is the first 50 sorted matches |
| Listing.ListedPageWindow | server.js:171-180 | Page p of size l holds at most l records, namely the window [(p-1)*l, p*l) of the sorted matches |
| Listing.ListedCarsMatch | server.js:120-177 | Every returned record is a loaded record that matches every switched-on filter |
| Distribution.Bump | server.js:243 | One increment: keys stay distinct, the key's count goes up by one and no other count changes, the key set gains the key, and the total goes up by one |
| Distribution.Tally | server.js:240-246 | Each distinct key has one entry, with a count equal to its number of occurrences; the keys are exactly those that occur; the counts sum to the number of inputs |
| Distribution.TallyMap | server.js:240-246 | As a map, the tally holds exactly the occurring keys, each with its occurrence count, which is at least 1 |
| Statistics.CylindersDistribution | server.js:240-246 | The counts are per cylinder value; the keys are exactly the cylinder values present; the counts sum to the number of records |
| Statistics.OriginDistribution | server.js:248-255 | The counts are per origin name; the keys are exactly the names present; the counts sum to the number of records |
| Statistics.HorsepowerReadingsMembers | server.js:258-259 | The readings averaged are exactly the non-null horsepower values |
| Statistics.AvgHorsepower | server.js:257-261 | No data exactly when every horsepower is null; otherwise mean times count equals the sum of the known values |
| Statistics.UnknownHorsepowerIgnored | server.js:256-261 | Adding or removing a null-horsepower record changes neither the readings nor the horsepower mean |
| Statistics.MpgRange | server.js:220-223 | min and max of mpg are both attained and bound every record; no data on an empty dataset |
| Statistics.YearRange | server.js:226-229 | min and max of the raw model year are both attained and bound every record |
| Statistics.AvgMpg | server.js:219 | Mean mpg times the number of records equals the total mpg; no data on an empty dataset |
| Statistics.AvgWeight | server.js:231 | Mean weight times the number of records equals the total weight; no data on an empty dataset |
| Statistics.ComputeStatistics | server.js:217-232 | totalCars is the record count; every other field is the matching reference value above (mean mpg, mpg range, both distributions, year range, horsepower mean, mean weight); each distribution sums to the record count; means and ranges are no data exactly on an empty dataset (horsepower: when none is known) |
| Numbers.Mean | server.js:259-260 | The mean times the count is the sum; none for an empty list |
| Numbers.Bounds | server.js:221-222 | The minimum and maximum are members of the list and bound every member |
| Grouping.Accumulate | server.js:269-273 | One forEach step creates the key's group on first sight, then adds the mpg and one to its count; no other group changes |
| Grouping.GroupSamples | server.js:266-274 | Every key has one group, holding the sum and number of that key's mpg values; counts sum to the number of records |
| Grouping.SortGroups | server.js:276-282 | The groups are permuted into strictly ascending key order |
| Grouping.GroupedView | server.js:266-282 | The view is strictly ascending by key, reports each key as the reference grouping does, and its counts sum to the number of records |
| Grouping.ViewGroupsAreNonEmpty | server.js:276-281 | Every group in a view has at least one member and is the reference group of its key |
| Grouping.ViewIsUnique | server.js:276-282 | Any strictly ascending list of groups that reports every key as the records do is the view |
| Grouping.MpgByYear | server.js:264-284 | Groups keyed by modelYear+1900, strictly ascending, each with the sum and count of that year's mpg; counts sum to the record count |
| Grouping.MpgByCylinders | server.js:290-309 | Groups keyed by cylinder count, strictly ascending, each with the sum and count of its mpg; counts sum to the record count |
| Grouping.AverageMpg | server.js:279 | A group's average times its count is its total mpg |
| Examples.ThreeCarMeanMpg | server.js:219 | mpg 18, 24, 24 average to 22 |
| Examples.ThreeCarCylinders | server.js:240-246 | cylinders 8, 4, 4 give the map {8: 1, 4: 2}: exactly those two keys, with those counts |
| Examples.SentinelLeftOutOfHorsepower | server.js:257-261 | A "?" horsepower is excluded from both the sum and the count: the mean of 130, 95 and "?" is 112.5 |
| Examples.YearGroupingExample | server.js:266-282 | Model years 70, 70, 71 give the groups 1970 (two records) and 1971 (one), in that order |

## Left out

- HTTP layer, CSV reading, startup: the Express routes, CORS and security headers, the root and health routes, the 500 handler, and file streaming are left out. Rows arrive already parsed (`Cars.Row`).
- `parseFloat`/`parseInt` as string parsers: left out. Each row field and query parameter carries its parse result, with `None` for `NaN`. Prefix parsing such as `parseInt("12abc") == 12` is therefore outside the model.
- Unparseable horsepower other than `"?"`: left out. Such a value parses to `NaN`, is not `null`, and would make the horsepower mean `NaN`. The model's horsepower is either a number or the `"?"` sentinel; the source does not default such values to 0.
- `toFixed` rounding of the means: left out. Means are exact reals, and the two-, one- and zero-decimal string rendering is not modelled.
- Floating point, precision and JavaScript number limits: left out.
- `Text.Lower`: lower-cases ASCII `A`-`Z` only, not the full Unicode `toLowerCase` mapping.
- `Text.LexLe`: compares characters as code points. JavaScript compares UTF-16 code units, and the two orders differ only outside the Basic Multilingual Plane.
- `CarOrder.SortCars`: the order of records with equal keys is not stated. The source comparator never returns 0, so the order the engine gives to ties is unspecified.
- `CarOrder.SortCars`: a `sortBy` that names no record field keeps the filtered order. In the source the comparator then compares `undefined` values and the result depends on the engine.
- The `filters` echo in the listing response: left out, since it only repeats the raw query strings.
- Query parameters given more than once (arrays): left out, because the model has no string parsing. In the source only a repeated `search` throws (`toLowerCase` is not an array method), which gives a 500. A repeated numeric parameter is parsed from its comma-joined string, so `["5","6"]` reads as 5 and the filter or page value stays in force. A repeated `sortBy` names no record property, and a repeated `sortOrder` is not `"asc"`, so the order is descending.
- `Statistics.CylindersDistribution`: the entries are listed in order of first appearance, which is not the order JavaScript gives an object's integer-like keys (ascending). Only the key-to-count map (`Distribution.ToMap`) is claimed to match the source's object; the origin names are string keys, which JavaScript lists in insertion order.
- Empty dataset: the source's `NaN` and `Infinity` for the means and ranges are modelled as `None`, not as those values.
