# Farm-logistics dashboard rules in Dafny

This project models the small deterministic rules of a farm-logistics
dashboard. The dashboard has three views: produce batch tracking, cold-storage
monitoring and market prices. Each view fetches database rows, draws cards and
inserts rows from a form. The model keeps only what the views compute from the
rows:

- **Produce batches** (`ProduceTracker.dfy`): the days left before a batch
  expires, the expired / expiring-soon / fresh banner, the colour tables for
  batch status and produce type, the status label (the first `_` becomes a
  space) and the generated `AGRI-<timestamp>-<SUFFIX>` batch code.
- **Cold storage** (`StorageMonitor.dfy`): the temperature bands (cold /
  optimal / warm around 2..8 °C), the humidity bands (low / optimal / high
  around 85..95 %), the unit status colour table, and the per-unit map of
  latest readings. Each completed fetch updates that map for one key.
  `SensorBoard` is a class whose map field `StoreLatest` updates in place.
- **Market prices** (`MarketPrices.dfy`): rows grouped by produce name in a
  loop that builds a dictionary, the average price of a group, and the price
  trend. The trend compares the earliest and latest entries of a sorted copy.

Instants are integer milliseconds. Prices, temperatures and humidities are
`real`. The clock and the random source become parameters. A missing
`recorded_at` sorts as instant 0, as `new Date(null)` does.

A count of S − (today − D) whole days would be the naive reading of a shelf
life S from harvest date D. The code instead rounds up the exact millisecond
difference divided by one day. The model follows the code: `DaysRemaining` is that ceiling, and
`DaysRemainingAfterWholeDays` shows it equals S − k after exactly k whole days.

`getPriceTrend` sorts a copy. Dafny sequences are values, so the caller's
group cannot change. The sort is modelled as a stable insertion sort, and
`SortByTimeStable` proves that rows with equal instants keep their input order.
Any stable sort by the same key gives the same order, and
`Array.prototype.sort` is stable.

## Model

| member | source | states |
|---|---|---|
| `ProduceTracker.CeilDiv` | src/components/ProduceTracker.tsx:132 | the result q is the ceiling of a / b: (q − 1)·b < a ≤ q·b |
| `ProduceTracker.DaysRemaining` | src/components/ProduceTracker.tsx:128-134 | the result d is the least whole number of days with expiry − now ≤ d·86 400 000 ms |
| `ProduceTracker.DaysRemainingAtHarvest` | src/components/ProduceTracker.tsx:128-134 | at the harvest instant the days remaining equal the shelf life |
| `ProduceTracker.DaysRemainingAfterWholeDays` | src/components/ProduceTracker.tsx:128-134 | k whole days after harvest, shelfLife − k days remain |
| `ProduceTracker.DaysRemainingAntitone` | src/components/ProduceTracker.tsx:128-134 | days remaining never grow as "now" advances |
| `ProduceTracker.DaysRemainingNextDay` | src/components/ProduceTracker.tsx:128-134 | one day later the count is exactly one less |
| `ProduceTracker.IsExpiringSoon` | src/components/ProduceTracker.tsx:282 | expiring soon means one to three whole days remain |
| `ProduceTracker.IsExpired` | src/components/ProduceTracker.tsx:283 | expired means no whole day remains |
| `ProduceTracker.ExpiredIffPastExpiry` | src/components/ProduceTracker.tsx:283 | a batch is expired exactly from its expiry instant (harvest + shelf life) on |
| `ProduceTracker.ExpiringSoonIffLastThreeDays` | src/components/ProduceTracker.tsx:282 | a batch is expiring soon exactly during the 72 hours before its expiry instant |
| `ProduceTracker.ExpiryClassesDisjoint` | src/components/ProduceTracker.tsx:282-283 | a count is never both expired (≤ 0) and expiring soon (1..3); otherwise it is ≥ 4 |
| `ProduceTracker.BannerFor` | src/components/ProduceTracker.tsx:335-347 | exactly one banner: Expired iff days ≤ 0, warning with the count iff 1 ≤ days ≤ 3, ok with the count iff days ≥ 4 |
| `ProduceTracker.BannerClass` | src/components/ProduceTracker.tsx:335-341 | each banner kind has its own colour class |
| `ProduceTracker.BannerMessage` | src/components/ProduceTracker.tsx:342-348 | the text is non-empty and starts with the tick sign iff the banner is the ok banner |
| `ProduceTracker.BannerMessageCount` | src/components/ProduceTracker.tsx:342-348 | reading the number between the sign and " days remaining" gives back the banner's count; the expired text shows no count |
| `ProduceTracker.EnumerationNames` | src/integrations/supabase/types.ts:399-408 | the batch status and produce type datatypes name exactly the schema's value lists |
| `ProduceTracker.StatusColor` | src/components/ProduceTracker.tsx:98-111 | the class is "bg-muted" iff the string is not one of the four batch statuses |
| `ProduceTracker.StatusColorsDistinct` | src/components/ProduceTracker.tsx:98-111 | distinct batch statuses get distinct classes |
| `ProduceTracker.ProduceTypeColor` | src/components/ProduceTracker.tsx:113-126 | the class is muted iff the string is not a produce type or is "other" |
| `ProduceTracker.ProduceTypeColorsDistinct` | src/components/ProduceTracker.tsx:113-126 | vegetables, fruits, grains and dairy get pairwise distinct classes |
| `ProduceTracker.ReplaceFirst` | src/components/ProduceTracker.tsx:296 | the replacement keeps the length of the string |
| `ProduceTracker.ReplaceFirstAbsent` | src/components/ProduceTracker.tsx:296 | a string without `_` is unchanged |
| `ProduceTracker.ReplaceFirstSplit` | src/components/ProduceTracker.tsx:296 | only the first `_` becomes a space; the text before it and everything after it, later underscores included, is kept |
| `ProduceTracker.StatusLabelInStorage` | src/components/ProduceTracker.tsx:296 | `in_storage` shows as "in storage" |
| `ProduceTracker.StatusLabelInTransit` | src/components/ProduceTracker.tsx:296 | `in_transit` shows as "in transit" |
| `ProduceTracker.Decimal` | src/components/ProduceTracker.tsx:61 | `Date.now()` printed as a non-empty string of decimal digits with no leading zero: one digit iff n < 10, and a first digit of 0 only for 0 itself |
| `ProduceTracker.DecimalRoundTrip` | src/components/ProduceTracker.tsx:61 | reading the printed timestamp back gives the timestamp |
| `ProduceTracker.UpperChar` | src/components/ProduceTracker.tsx:61 | ASCII a–z become the capital at the same alphabet position; every other character is kept |
| `ProduceTracker.Upper` | src/components/ProduceTracker.tsx:61 | `toUpperCase` on the base-36 tail: ASCII a–z upper-cased character by character, length unchanged |
| `ProduceTracker.SkipSeven` | src/components/ProduceTracker.tsx:61 | `substring(7)` drops the first seven characters, giving the empty string for short input |
| `ProduceTracker.QRCode` | src/components/ProduceTracker.tsx:60-62 | for a random string in the alphabet `toString(36)` prints (0–9, a–z, the point), every generated code starts with "AGRI-" and is written only with digits, capitals A–Z, dashes and points |
| `ProduceTracker.QRCodeTimestampRoundTrip` | src/components/ProduceTracker.tsx:60-62 | the timestamp can be read back from any generated code, whatever the random suffix |
| `ProduceTracker.QRCodeTailRoundTrip` | src/components/ProduceTracker.tsx:60-62 | the text after the dash that ends the timestamp is exactly the upper-cased `substring(7)` of the random string |
| `ProduceTracker.UpperCharInjective` | src/components/ProduceTracker.tsx:61 | two base-36 characters with the same upper case are the same character |
| `ProduceTracker.UpperInjective` | src/components/ProduceTracker.tsx:61 | two base-36 strings with the same upper case are the same string |
| `ProduceTracker.QRCodeTailsDistinguish` | src/components/ProduceTracker.tsx:60-62 | two codes made in the same millisecond are equal only if their random tails are equal |
| `StorageMonitor.TemperatureBand.Color` | src/components/StorageMonitor.tsx:128-130 | the colour class of each temperature band |
| `StorageMonitor.TemperatureBand.Status` | src/components/StorageMonitor.tsx:128-130 | the status text of each temperature band; `TemperatureBandsOrdered` shows colours and texts are pairwise distinct |
| `StorageMonitor.TemperatureStatus` | src/components/StorageMonitor.tsx:127-131 | Too Cold iff t < 2, Too Warm iff t > 8, Optimal iff 2 ≤ t ≤ 8 |
| `StorageMonitor.TemperatureBandsOrdered` | src/components/StorageMonitor.tsx:127-131 | a warmer reading never gets a colder band, and different bands differ in both colour and text |
| `StorageMonitor.HumidityBand.Color` | src/components/StorageMonitor.tsx:134-136 | the colour class of each humidity band: the warning colour for Low and High |
| `StorageMonitor.HumidityBand.Status` | src/components/StorageMonitor.tsx:134-136 | the status text of each humidity band |
| `StorageMonitor.HumidityStatus` | src/components/StorageMonitor.tsx:133-137 | Low iff h < 85, High iff h > 95, Optimal iff 85 ≤ h ≤ 95; warning colour exactly outside, success colour exactly inside the range |
| `StorageMonitor.StatusColor` | src/components/StorageMonitor.tsx:114-125 | the class is "bg-muted" iff the string is not a storage status |
| `StorageMonitor.StatusColorsDistinct` | src/components/StorageMonitor.tsx:114-125 | each storage status is a schema value and has its own class |
| `StorageMonitor.Stored` | src/components/StorageMonitor.tsx:65-67 | a returned row sets only the entry of its unit; an error or an empty answer leaves the map unchanged |
| `StorageMonitor.StoresCommute` | src/components/StorageMonitor.tsx:51-53 | the fetches fired for different units give the same map whatever order they complete in |
| `StorageMonitor.UnitStatuses` | src/components/StorageMonitor.tsx:219-221 | a unit without a reading gets no bands; otherwise exactly the temperature and humidity bands of its latest reading |
| `StorageMonitor.SensorBoard.constructor` | src/components/StorageMonitor.tsx:15 | the readings map starts empty |
| `StorageMonitor.SensorBoard.StoreLatest` | src/components/StorageMonitor.tsx:56-68 | the new map is `Stored(old map, unit, outcome)`; every other unit's entry is unchanged |
| `MarketPrices.RowsNamed` | src/components/MarketPrices.tsx:62-68 | a group is never longer than the rows it is taken from |
| `MarketPrices.RowsNamedMembers` | src/components/MarketPrices.tsx:62-68 | a group holds only rows of the input, all with the group's name |
| `MarketPrices.Names` | src/components/MarketPrices.tsx:62-68 | the keys are exactly the names that occur, each once |
| `MarketPrices.GroupByProduce` | src/components/MarketPrices.tsx:62-68 | the loop ends with keys in first-appearance order, and under each key exactly the rows of that name in input order |
| `MarketPrices.GroupsOfCharacterized` | src/components/MarketPrices.tsx:62-68 | groups whose keys are the names in first-appearance order and whose entry for each key is that name's rows are exactly `GroupsOf` |
| `MarketPrices.GroupedAsPush` | src/components/MarketPrices.tsx:66 | pushing the next row onto the array of a name already seen gives the groups of the longer prefix |
| `MarketPrices.GroupedAsCreate` | src/components/MarketPrices.tsx:63-66 | a new name becomes the last key with a one-row array, giving the groups of the longer prefix |
| `MarketPrices.NamesStep` | src/components/MarketPrices.tsx:63-65 | the keys of a longer prefix gain the next name exactly when it is new |
| `MarketPrices.RowsNamedStep` | src/components/MarketPrices.tsx:66 | the group of a name in a longer prefix gains the next row exactly when it carries that name |
| `MarketPrices.GroupsOf` | src/components/MarketPrices.tsx:62-68 | the dictionary has a key for every name that occurs and for no other |
| `MarketPrices.RowsNamedAbsent` | src/components/MarketPrices.tsx:63-65 | a name not yet seen has no rows, so its array starts empty |
| `MarketPrices.GroupsNonEmpty` | src/components/MarketPrices.tsx:62-68 | no group is empty |
| `MarketPrices.RowInItsGroup` | src/components/MarketPrices.tsx:66 | every row is in the group keyed by its own name |
| `MarketPrices.RowsNamedConcat` | src/components/MarketPrices.tsx:66 | pushing keeps input order: the group of a + b is the group of a followed by the group of b |
| `MarketPrices.GroupSizesTotal` | src/components/MarketPrices.tsx:62-68 | the group sizes add up to the number of rows |
| `MarketPrices.EmptyStateIffNoRows` | src/components/MarketPrices.tsx:157 | the "no market prices" card shows iff there are no rows |
| `MarketPrices.GroupAsWritten` | src/components/MarketPrices.tsx:62-68 | the reduce as written over an object literal: the groups, or the TypeError of the first `push` on an inherited member |
| `MarketPrices.PushAsWritten` | src/components/MarketPrices.tsx:63-66 | one step throws iff the name has no own array and is an inherited member |
| `MarketPrices.PushAsWrittenStep` | src/components/MarketPrices.tsx:63-66 | for a name that is not inherited, one step of the reduce adds the row to the groups of the rows before it |
| `MarketPrices.KnownNameEntries` | src/components/MarketPrices.tsx:66 | a row whose name was seen before grows that group by itself and adds no key |
| `MarketPrices.NewNameEntries` | src/components/MarketPrices.tsx:63-66 | a row with a new name adds its name as the last key, with a group holding that row alone |
| `MarketPrices.GroupAsWrittenAgrees` | src/components/MarketPrices.tsx:62-68 | with no inherited name among the rows, the reduce as written builds exactly the intended groups |
| `MarketPrices.GroupAsWrittenThrows` | src/components/MarketPrices.tsx:62-68 | the reduce as written throws iff some produce name is an inherited member of Object.prototype |
| `MarketPrices.ConstructorCrashesGrouping` | src/components/MarketPrices.tsx:63-66 | one row named "constructor" makes the reduce throw |
| `MarketPrices.AveragePrice` | src/components/MarketPrices.tsx:70-73 | the running sum gives an average whose product with the group size is the sum of the prices |
| `MarketPrices.Total` | src/components/MarketPrices.tsx:71 | the sum of the prices, added from the left starting at 0 |
| `MarketPrices.TotalBounds` | src/components/MarketPrices.tsx:71 | prices in [lo, hi] sum to a value in [n·lo, n·hi] |
| `MarketPrices.AverageWithinRange` | src/components/MarketPrices.tsx:70-73 | the average lies between the lowest and the highest price of the group |
| `MarketPrices.TimeKey` | src/components/MarketPrices.tsx:79 | the sort key: the recorded instant, or 0 when recorded_at is null |
| `MarketPrices.InsertByTime` | src/components/MarketPrices.tsx:78-80 | insertion adds exactly one element, keeps the multiset of rows plus the new one, and the row goes in front unless the first element is strictly earlier |
| `MarketPrices.InsertByTimeSorted` | src/components/MarketPrices.tsx:78-80 | inserting into a sorted sequence keeps it sorted |
| `MarketPrices.SortByTime` | src/components/MarketPrices.tsx:78-80 | the sorted copy is a permutation of the group, in ascending order of recorded_at |
| `MarketPrices.InsertByTimeRowsAt` | src/components/MarketPrices.tsx:78-80 | an inserted row comes before every row of its own instant |
| `MarketPrices.SortByTimeStable` | src/components/MarketPrices.tsx:78-80 | the sort is stable: at every instant the sorted copy lists the rows in input order |
| `MarketPrices.InsertByTimeLast` | src/components/MarketPrices.tsx:78-80 | the inserted row ends up last iff it is strictly later than every other row |
| `MarketPrices.EarliestIndex` | src/components/MarketPrices.tsx:82 | the first row with the earliest instant |
| `MarketPrices.LatestIndex` | src/components/MarketPrices.tsx:83 | the last row with the latest instant |
| `MarketPrices.SortByTimeEnds` | src/components/MarketPrices.tsx:78-83 | the sorted copy starts with the first earliest row and ends with the last latest row |
| `MarketPrices.Direction` | src/components/MarketPrices.tsx:85-87 | up iff the price rose, down iff it fell, stable iff it is equal |
| `MarketPrices.PriceTrend` | src/components/MarketPrices.tsx:75-88 | there is no trend iff the group has fewer than two entries |
| `MarketPrices.PriceTrendCompares` | src/components/MarketPrices.tsx:78-87 | the trend compares the price of the last latest row with that of the first earliest row |
| `MarketPrices.PriceTrendSameInstant` | src/components/MarketPrices.tsx:78-80 | when all rows share one instant, the sort keeps input order, so the trend compares the last row with the first |

## Left out

- Every database call (select, insert, order, eq, limit, maybeSingle) and every toast notification. These are network I/O through a client library that is not part of this model. A fetch's result is a parameter: `FetchOutcome`.
- React state hooks, fetch-on-mount effects, dialog flags and all rendering. Only the values the helpers compute are modelled.
- `ProduceTracker.DaysRemaining`: does not model the range limit of JavaScript `Date`. An instant beyond ±8.64e15 ms, which a huge shelf life reaches, makes `expiryDate` an Invalid Date and the count NaN. Both tests at src/components/ProduceTracker.tsx:282-283 are then false, and the card shows the fresh class with "✓ NaN days remaining". The model's integers are unbounded, so it gives a count there and classifies it. `ExpiredIffPastExpiry` and `ExpiringSoonIffLastThreeDays` hold only inside that range in the source.
- Parsing date strings, `Date.now()`, `toLocaleString` and `toLocaleDateString`. Instants are integer milliseconds passed in.
- `Math.random().toString(36)`: the base-36 string is a parameter of `QRCode`, which requires it to use the characters that call prints (0–9, a–z and the point).
- `ProduceTracker.Upper`: models `toUpperCase` on ASCII a–z only. Other letters, such as "é" → "É" or "ß" → "SS" (which changes the length), are passed through unchanged. The random base-36 tail contains no such letter.
- `parseFloat` of form input, and IEEE-754 rounding generally. `DaysRemaining` divides exactly and is not affected by floating-point error in the quotient.
- `MarketPrices.AveragePrice`: requires a non-empty group. The view only averages groups, and `GroupsNonEmpty` shows they are never empty. `toFixed(2)` rounding and the "NaN" an empty array would give are not modelled; the exact quotient is stated instead.
- `StorageMonitor.SensorBoard.StoreLatest`: the database picks the newest reading of a unit (order by recorded_at, limit 1). The model takes that row as given.
- The order in which `Object.keys` lists integer-like keys, such as a produce named "42". JavaScript puts those first in ascending order; the model keeps insertion order for every key.
- A batch whose status is null: `getStatusColor` gives "bg-muted", and `.replace` on null throws. The model takes the status as a string.
- src/components/Dashboard.tsx, src/components/AlertsPanel.tsx and src/components/TransportManager.tsx. They hold hard-coded figures, tab switching and trivial colour switches. The per-unit fetch loop at src/components/StorageMonitor.tsx:51-53 is covered only by `StoresCommute`, which shows that the completion order does not matter.

## Findings

| source | as written | input that shows it | evidently intended | confidence | as-written member | corrected member |
|---|---|---|---|---|---|---|
| src/components/MarketPrices.tsx:62-68 | The reduce starts from an object literal and tests `!acc[name]`. A name that is an inherited Object.prototype member ("constructor", "toString", "__proto__", …) is truthy, so no array is created, and `acc[name].push` throws a TypeError while the view renders. | one price row whose produce_name is "constructor" | group into a `Map` or an `Object.create(null)` accumulator, so that every name, "__proto__" included, gets its own group | not executed; follows from JavaScript property lookup | `MarketPrices.ConstructorCrashesGrouping` | `MarketPrices.GroupByProduce` |
