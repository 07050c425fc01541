# WakaTime team dashboard: the hourly activity core, in Dafny

The dashboard reads coding-activity records from the WakaTime API. It turns
them into 24 hour-of-day buckets, each mapping a category (or project,
language, ... as chosen by `sliceBy`) to seconds. It converts each member's
buckets to minutes or hours for display. `getTeamDurationsByHour` merges
the members' buckets after that conversion, so it adds minutes. The
dashboard also sums buckets per category and finds the busiest category and
hour. This project models that core and proves what it computes:

- **Allocator.** `handleDurations` spreads each record over the hours it
  spans. `processDurationsToHourly` puts each record whole into the hour it
  starts in. Files: `allocator.dfy`, `allocation_properties.dfy`.
- **Aggregator.** The merge loop of `getTeamDurationsByHour`, the hourly
  merge of `getTeamTotalStats`, and its `mergeStats` helper for
  language/editor/project lists. Files: `aggregator.dfy`,
  `aggregation_properties.dfy`, `stats.dfy`.
- **Summariser.** `calculateTotalDurationsByCategory`,
  `calculateCategoryTotalsWithOverall` and `getMostActiveInfo`. Files:
  `summary.dfy`, `summary_properties.dfy`.
- **Formatters.** `formatHourlyActivityDurations`, in both services, and
  `formatCategoryTotals`. File: `formatting.dfy`.

Shared vocabulary:

- `tallies.dfy` holds the category objects. A `Tally` is a list of
  `(name, seconds)` cells in key insertion order, the order in which
  `Object.entries` visits a JavaScript object. `Amount(t, k)` is the lookup
  `t[k] || 0` (for names not inherited from `Object.prototype`; see
  "## Left out"). Every tally the model builds is proved `Keyed`: no name
  occurs twice.
- `hourly.dfy` holds the clock and the hour buckets. A timestamp is an
  integer number of seconds, already in local time. `dayjs(...).hour()` is
  `(t / 3600) % 24`.
- `wrappers.dfy` holds `Option` and `Result`. A thrown error is an `Err`
  result.

Imperative code stays imperative.

- The allocator fills a 24-element `array` in place. The team merges add
  into the team's `array` bucket by bucket. The accumulating loops are
  `for` loops.
- Each such method is proved equal to a specification function on values.
- The properties are lemmas about those functions.

## Model

| member | source | states |
|---|---|---|
| Tallies.AddAmount | src/services/wakatime.ts:663-666 | The initialise-if-absent `+=` idiom adds v under k and leaves every other key's amount alone |
| Tallies.AddNames | src/services/wakatime.ts:663-666 | The idiom keeps the keys in order, appending k only when it is new |
| Tallies.AddKeyed | src/services/wakatime.ts:663-666 | The idiom never makes a key occur twice |
| Tallies.AddTotal | src/services/wakatime.ts:663-666 | The idiom raises the sum of all values by exactly v |
| Tallies.AddAllAmount | src/services/wakatime.ts:662-667 | Adding every entry of one object into another sums the amounts key by key |
| Tallies.AddAllNames | src/services/wakatime.ts:662-667 | After adding all entries, a key is present iff it was in either object |
| Tallies.AddAllKeyed | src/services/wakatime.ts:662-667 | Adding all entries keeps keys distinct |
| Tallies.AddAllTotal | src/services/wakatime.ts:662-667 | Adding all entries adds their sum to the total |
| Tallies.AddAllKeepsNames | src/services/wakatime.ts:508-510 | Adding entries whose keys are all present leaves the key list unchanged |
| Tallies.PutAmount | src/services/wakatime.ts:1006-1009 | The spread `{ ...t, total }` sets `total` and leaves every other key's value |
| Tallies.PutNames | src/services/wakatime.ts:1006-1009 | The spread keeps the key order and appends `total` only when it is new |
| Tallies.PutKeyed | src/services/wakatime.ts:1006-1009 | The spread keeps keys distinct |
| Tallies.Zeroes | src/services/wakatime.ts:490-494 | Seeding every name with 0 gives exactly those keys, each holding 0 |
| Tallies.AmountZeroes | src/services/wakatime.ts:490-494 | A seeded object holds 0 under every key |
| Tallies.AmountKeyed | src/services/wakatime.ts:755-757 | On a keyed object an entry's seconds are the lookup under its name |
| Tallies.TotalConcat | src/services/wakatime.ts:763-766 | The `reduce` sum of values splits over concatenation |
| Tallies.CellWithinTotal | src/services/wakatime.ts:375-378 | With no negative value, each value lies between 0 and the sum of values |
| Tallies.OnlyName | src/services/wakatime.ts:1000-1003 | When every key is k, the lookup under k is the sum of all values |
| Clock.HourOf | src/services/wakatime.ts:886-887 | `hour()` lies in 0..23 |
| Clock.OffTheHour | src/services/wakatime.ts:925 | `minute() > 0 \|\| second() > 0` holds exactly when the time is not on the hour |
| Clock.DayOfHour | src/services/wakatime.ts:886-887 | The hour of the day and the day number determine the hour on the time line |
| Hourly.EmptyDay | src/services/wakatime.ts:873-879 | 24 buckets, bucket h having hour h and no category |
| Hourly.AddAtAmount | src/services/wakatime.ts:891-894 | Adding into bucket h changes only bucket h's key c, by v |
| Hourly.AddAtNames | src/services/wakatime.ts:891-894 | Adding into bucket h creates key c there and nowhere else |
| Hourly.AddAtKeyed | src/services/wakatime.ts:891-894 | Adding into a bucket keeps every bucket keyed |
| Hourly.AddAtSumFrom | src/services/wakatime.ts:891-894 | Adding v into a bucket raises the grand total by v |
| Allocator.Label | src/services/wakatime.ts:885 | `d[key] \|\| 'uncategorized'`: the field when non-empty, else `uncategorized` |
| Allocator.Allocate | src/services/wakatime.ts:873-941 | The allocator always returns 24 buckets, bucket h holding hour h |
| Allocator.CreditRecord | src/services/wakatime.ts:883-938 | One record credited in place equals the specification `Credit` of the old buckets |
| Allocator.HandleDurationsBy | src/services/duration.ts:41-113 | The `forEach` over records, keyed by `d[key] \|\| 'uncategorized'`, equals `Allocate` |
| Allocator.HandleDurations | src/services/wakatime.ts:869-942 | `handleDurations` equals `Allocate` keyed by `category`; duration.ts:41-113 is the same code |
| Allocator.ByStart | src/services/wakatime.ts:808-843 | `processDurationsToHourly` always returns 24 buckets in hour order |
| Allocator.ProcessDurationsToHourly | src/services/wakatime.ts:796-844 | The loop equals the specification `ByStart` |
| AllocationProperties.FullHoursAmount | src/services/wakatime.ts:913-922 | The `while` loop adds exactly 3600 under c to each hour strictly between start and end |
| AllocationProperties.FullHoursOutside | src/services/wakatime.ts:913-922 | The `while` loop leaves hours outside its range alone |
| AllocationProperties.FullHoursTotal | src/services/wakatime.ts:913-922 | The `while` loop adds 3600 per hour it visits |
| AllocationProperties.CreditAmount | src/services/wakatime.ts:889-938 | A record adds its closed-form share to each hour under its key and changes no other key |
| AllocationProperties.CreditNames | src/services/wakatime.ts:889-938 | A record creates its key exactly in the hours it touches; an on-the-hour end hour is not touched |
| AllocationProperties.CreditKeyed | src/services/wakatime.ts:889-938 | Crediting a record keeps every bucket keyed |
| AllocationProperties.CreditTotal | src/services/wakatime.ts:889-938 | A record adds `RecordCredit` seconds to the buckets in all |
| AllocationProperties.SameHourCredit | src/services/duration.ts:61-67 | A record starting and ending in the same hour adds its whole duration there and changes no other bucket |
| AllocationProperties.SpanningCredit | src/services/duration.ts:69-108 | Start hour gets the seconds up to the next top of the hour, hours between get 3600, end hour gets the seconds past its top |
| AllocationProperties.OnTheHourEnd | src/services/duration.ts:96-108 | A multi-hour record ending exactly on the hour leaves the end bucket unchanged |
| AllocationProperties.MidnightCrossing | src/services/duration.ts:85-93 | Across midnight only the start and end buckets change; the credit is the two partial hours |
| AllocationProperties.WholeDaysInOneBucket | src/services/duration.ts:58-66 | A record of whole days starts and ends in the same hour of the day and all of it lands in that one bucket |
| AllocationProperties.RecordCreditDeficit | src/services/wakatime.ts:889-938 | A record is credited its duration less 3600 per dropped hour |
| AllocationProperties.NeverOverCredited | src/services/wakatime.ts:889-938 | A record with non-negative duration is never credited more than its duration |
| AllocationProperties.WithinOneDayConserved | src/services/wakatime.ts:889-938 | A record within one calendar day is credited exactly its duration |
| AllocationProperties.AllocateAmount | src/services/wakatime.ts:869-942 | Bucket h under k holds the sum of the shares for h of the records labelled k |
| AllocationProperties.AllocateNames | src/services/wakatime.ts:869-942 | Bucket h has key k iff some record labelled k touches h; no records give empty buckets |
| AllocationProperties.AllocateKeyed | src/services/wakatime.ts:869-942 | Every returned bucket has distinct keys |
| AllocationProperties.AllocateTotal | src/services/wakatime.ts:869-942 | The buckets hold in all the sum of the records' credits |
| AllocationProperties.CreditsDeficit | src/services/wakatime.ts:869-942 | The credits fall short of the durations by 3600 per dropped hour |
| AllocationProperties.AllocateDeficit | src/services/wakatime.ts:869-942 | The grand total is the durations less 3600 per dropped hour, and never more than the durations when none is negative |
| AllocationProperties.AllocateConservation | src/services/wakatime.ts:869-942 | When every record stays within one calendar day, the buckets hold exactly the summed durations |
| AllocationProperties.ByStartAmount | src/services/wakatime.ts:820-837 | Bucket h under k holds the durations of the records labelled k that start in hour h |
| AllocationProperties.ByStartTotal | src/services/wakatime.ts:820-837 | The buckets hold exactly the summed durations |
| AllocationProperties.ByStartNames | src/services/wakatime.ts:820-837 | Bucket h has key k iff some record labelled k starts in hour h; no records give empty buckets |
| AllocationProperties.ByStartKeyed | src/services/wakatime.ts:830-836 | Every bucket `processDurationsToHourly` returns has distinct keys |
| Aggregator.MergeHour | src/services/wakatime.ts:662-667 | Merging one user bucket keeps the number of team buckets and their hours |
| Aggregator.MergeUserFrom | src/services/wakatime.ts:660-668 | Merging one user keeps the number of team buckets and their hours |
| Aggregator.MergeAll | src/services/wakatime.ts:658-670 | Merging all users keeps the number of team buckets and their hours |
| Aggregator.TeamDurations | src/services/wakatime.ts:640-676 | The team result is 24 buckets in hour order, even after a caught error |
| Aggregator.MergeHourInto | src/services/wakatime.ts:662-667 | Adding one user bucket in place equals `MergeHour` of the old team |
| Aggregator.MergeUserInto | src/services/wakatime.ts:660-668 | Merging one user in place equals `MergeUserFrom`; `failed` is the `TypeError` |
| Aggregator.TeamDurationsByHour | src/services/wakatime.ts:658-676 | The merge loop with its `catch` equals `TeamDurations` |
| Aggregator.Seed | src/services/wakatime.ts:489-500 | The seeded team has the template's hours, each holding every name with 0 |
| Aggregator.TeamTotalHourly | src/services/wakatime.ts:466-513 | Collecting the names, seeding and merging equals `TeamHourly` |
| AggregationProperties.MergeAllFails | src/services/wakatime.ts:658-670 | The merge throws iff some user has a category in a bucket past the team's length |
| AggregationProperties.MergeAllStops | src/services/wakatime.ts:653-676 | Once a user throws, later users are not merged |
| AggregationProperties.MergeAllAmount | src/services/wakatime.ts:658-670 | Without an error, team bucket h gains under k what the users hold in their bucket h |
| AggregationProperties.MergeAllNames | src/services/wakatime.ts:658-670 | Without an error, the keys of team bucket h are its own keys and the users' keys at h |
| AggregationProperties.MergeAllKeyed | src/services/wakatime.ts:658-670 | Merging keeps team buckets keyed |
| AggregationProperties.MergeAllKeepsNames | src/services/wakatime.ts:503-513 | With every name seeded, merging leaves each bucket's key list unchanged |
| AggregationProperties.TeamDurationsAmount | src/services/wakatime.ts:640-676 | Team bucket h under k is the sum over users of their bucket h, when no user overflows 24 buckets |
| AggregationProperties.TeamDurationsCommute | src/services/wakatime.ts:658-670 | Swapping two non-overflowing members leaves every team amount unchanged |
| AggregationProperties.TeamDurationsNames | src/services/wakatime.ts:640-676 | Team bucket h has exactly the users' keys at h, when no user overflows |
| AggregationProperties.TeamDurationsKeyed | src/services/wakatime.ts:640-676 | No team bucket holds a key twice |
| AggregationProperties.TeamDurationsStops | src/services/wakatime.ts:653-676 | After an overflowing user, the caught error returns the buckets unchanged by later users |
| AggregationProperties.GatherMember | src/services/wakatime.ts:481-483 | Adding an object's keys to the set gives the old names and the keys |
| AggregationProperties.GatherDistinct | src/services/wakatime.ts:481-483 | The set never holds a name twice |
| AggregationProperties.CategoryNamesExact | src/services/wakatime.ts:474-486 | `allCategoryNames` holds each category of the users' latest buckets, once |
| AggregationProperties.CategoryNamesCover | src/services/wakatime.ts:474-486 | Every key of every user's buckets is in `allCategoryNames` |
| AggregationProperties.ZeroesKeyed | src/services/wakatime.ts:490-494 | Seeding distinct names gives a keyed object |
| AggregationProperties.TeamHourlyNone | src/services/wakatime.ts:466-472 | No hourly data results iff the first user's first day has no hourly buckets |
| AggregationProperties.TeamHourlyFails | src/services/wakatime.ts:503-513 | With a template, the merge throws iff some user has a category past the template's length |
| AggregationProperties.TeamHourlyContents | src/services/wakatime.ts:466-513 | Template's hours; every bucket holds all names in first-seen order, keyed; under k the users' sum at that index |
| Stats.Cells | src/services/wakatime.ts:366-371 | Each stat becomes its name and seconds, in order |
| Stats.WithPercents | src/services/wakatime.ts:381-385 | Each merged entry keeps its name and seconds and gets its rounded percentage |
| Stats.MergeStats | src/services/wakatime.ts:359-387 | The loop building `merged`, then percentages and sort, equals `MergedStats` |
| Stats.InsertMultiset | src/services/wakatime.ts:386 | Inserting into the sorted list adds exactly that entry |
| Stats.InsertSorted | src/services/wakatime.ts:386 | Inserting keeps the list sorted by seconds, largest first |
| Stats.InsertStable | src/services/wakatime.ts:386 | Inserting puts the entry before the entries with equal seconds |
| Stats.SortContents | src/services/wakatime.ts:386 | The sort is a permutation, largest first, and stable for equal seconds |
| Stats.SortMultiset | src/services/wakatime.ts:386 | The sort returns exactly its input's entries |
| Stats.SortSorted | src/services/wakatime.ts:386 | The sort orders entries by seconds, largest first |
| Stats.SortStable | src/services/wakatime.ts:386 | Entries with equal seconds keep their input order |
| Stats.SortDistinct | src/services/wakatime.ts:386 | Sorting keeps names distinct |
| Stats.RoundNearest | src/services/wakatime.ts:384 | `Math.round(x)` lies within one half of x |
| Stats.PercentBounds | src/services/wakatime.ts:384 | A part of a total gets 0..100 percent, and all of a positive total gets 100 |
| Stats.MergedStatsContents | src/services/wakatime.ts:359-387 | Sorted; one entry per input name; seconds are that name's sum; percent is rounded against the sum of all inputs |
| Stats.MergedStatsTies | src/services/wakatime.ts:364-386 | Entries with equal seconds keep their order in `merged`, where each name is placed when first met |
| Stats.MergedSortedDistinct | src/services/wakatime.ts:364-386 | The result is sorted by seconds and holds each name once |
| Stats.MergedEntry | src/services/wakatime.ts:366-385 | Each result entry holds its name's summed seconds and the rounded share of all seconds |
| Stats.MergedNames | src/services/wakatime.ts:366-372 | A name is in the result iff some input entry has it |
| Stats.MergedStatsPercents | src/services/wakatime.ts:380-385 | With no negative input, every percentage lies in 0..100 |
| Summary.TotalsByCategory | src/services/wakatime.ts:716-733 | The nested loops equal `CategoryTotals` |
| Summary.CategoryTotalsWithOverall | src/services/wakatime.ts:952-1010 | The steps equal `WithOverall`, with raw records keyed by `sliceBy` |
| Summary.MostActiveInfo | src/services/wakatime.ts:740-786 | The category loop and the hour `reduce` equal `MostActive` |
| SummaryProperties.CategoryTotalsContents | src/services/wakatime.ts:716-733 | `{}` on no buckets; one key per category of any bucket; its value the sum over hours; values summing to the buckets' seconds |
| SummaryProperties.CategoryTotalsOfEmptyBuckets | src/services/wakatime.ts:716-733 | Buckets without categories total to `{}` |
| SummaryProperties.WithOverallCases | src/services/wakatime.ts:968-977 | `{ total: 0 }` on empty input; an error exactly for non-empty raw records without a date |
| SummaryProperties.WithOverallContents | src/services/wakatime.ts:996-1009 | Keyed; `total` present and holding all seconds; every other key is a category of the buckets with its sum over hours |
| SummaryProperties.WithOverallRecords | src/services/wakatime.ts:973-1009 | For records, `total` is their credits, their durations when each stays within a day; other keys are their `sliceBy` labels |
| SummaryProperties.RecordsNames | src/services/wakatime.ts:980-997 | A category of the allocated buckets is exactly the label of a record touching that hour |
| SummaryProperties.OneRecordTotals | src/services/wakatime.ts:973-1009 | One record within a day is totalled under its label only, with its whole duration |
| SummaryProperties.SliceByIgnored | src/services/wakatime.ts:980-990 | As written, a `frontcode` record sliced by `project` has no `frontcode` key; its 60 s sit under `Coding` |
| SummaryProperties.SliceByHonoured | src/services/wakatime.ts:952-1010 | Keyed by `sliceBy`, the same record has its 60 s under `frontcode` and no `Coding` key |
| SummaryProperties.WithOverallAsWrittenIsCategory | src/services/wakatime.ts:980-990 | As written, on every input the result is the corrected one keyed by `category`, whatever `sliceBy` is |
| SummaryProperties.BestFromSome | src/services/wakatime.ts:755-759 | The loop keeps the running best unless a later entry is strictly larger, then takes the first maximum |
| SummaryProperties.BestCategory | src/services/wakatime.ts:754-759 | No category iff no totals; otherwise the first total attaining the maximum |
| SummaryProperties.PeakFromSpec | src/services/wakatime.ts:762-774 | The `reduce` keeps the start unless an hour is strictly larger, then takes the first maximal hour |
| SummaryProperties.MostActiveContents | src/services/wakatime.ts:740-786 | null/null on no buckets; first maximal category with its hourly sum; hour null iff no hour is positive, else the first maximal hour |
| Formatting.FormatBucket | src/services/duration.ts:22-37 | The `for…of` loop yields `MinutesBucket`, with `total` the bucket's seconds in minutes |
| Formatting.FormatHourlyMinutes | src/services/duration.ts:19-39 | One formatted bucket per input bucket, in order |
| Formatting.MinutesTotal | src/services/duration.ts:25-36 | The sum of the minute values is the sum of the seconds over 60 |
| Formatting.MinutesEntries | src/services/duration.ts:25-29 | The keys are kept in order and each value is its seconds over 60 |
| Formatting.MinutesBucketContents | src/services/duration.ts:22-38 | Hour and keys kept; values `seconds / 60`; `total` is their sum and the bucket's seconds in minutes |
| Formatting.ToFixedBound | src/services/wakatime.ts:1030-1033 | `parseFloat(x.toFixed(n))` lies within half a unit of the n-th decimal of x |
| Formatting.ToFixedExact | src/services/wakatime.ts:1030-1033 | A value already with n decimals is left unchanged |
| Formatting.InUnitBound | src/services/wakatime.ts:1028-1037 | A converted value is the exact one within 0.05 min or 0.005 h; seconds are kept |
| Formatting.InUnitExact | src/services/wakatime.ts:1028-1034 | Whole tenths of a minute and hundredths of an hour convert exactly |
| Formatting.CategoryTotalsIn | src/services/wakatime.ts:1019-1039 | One converted entry per entry of the totals |
| Formatting.CategoryTotalsInContents | src/services/wakatime.ts:1019-1039 | `formatCategoryTotals` keeps every key in order, each value within the unit's tolerance of its exact value |
| Formatting.HourlyIn | src/services/wakatime.ts:685-709 | One formatted bucket per input bucket; `[]` on no buckets |
| Formatting.HourlyInContents | src/services/wakatime.ts:685-709 | Hours kept; in minutes or hours keys are kept, values within tolerance; any other format leaves no categories |

## Left out

- HTTP and I/O. The API calls, API keys and console logging are not part of
  this model. That covers `getUserWeeklyStats`, the fetch part of
  `getUserDurationsByHour`, `getDuration` and `src/services/http.ts`.
- Concurrency. The `Promise.all` of `getTeamDurationsByHour` is not
  modelled. Its merge loop takes the per-user results as a given list, and
  a rejected promise is not modelled.
- Randomness. The mock-data generator and the random colour of
  `getActivityTypeById` rely on `Math.random` and are left out.
- The daily part of `getTeamTotalStats`. This covers dates, per-day sums and
  list concatenation (src/services/wakatime.ts:389-463) and the final result
  object. Only its hourly merge and its `mergeStats` helper are modelled.
- Stat fields. `mergeStats` copies the other fields of each statistic
  (`text`, `digital`, ...) untouched. Only `name`, `seconds` and `percent`
  are modelled.
- Floating point. Seconds are integers, and timestamps are integer seconds
  already shifted to local time, so dayjs's timezone resolution and its
  `diff` truncation are not modelled. Formatted values are exact reals:
  - `x / 60` is exact division;
  - `parseFloat(x.toFixed(n))` is decimal rounding with ties away from zero,
    not binary floating-point rounding.
- Aggregator.TeamDurations: `getTeamDurationsByHour` merges what
  `getUserDurationsByHour` returns (src/services/wakatime.ts:605-607).
  Those values are minutes rounded to one decimal, and the source adds them
  in binary floating point. The model's merge adds integers. The merge
  never looks at or branches on a value; it only adds values and creates
  keys. So the proved bucket shape, key sets, keyedness, the error
  condition and the early stop hold for the minute values as well. The
  amounts hold as exact sums, without the rounding error of float
  addition.
- Formatting.InUnitBound: in seconds mode the model's values are already
  integers, so `Math.round` keeps them unchanged. The source's fractional
  seconds are not covered.
- Input shapes TypeScript allows but the code does not branch on:
  - a non-array `data` in `calculateCategoryTotalsWithOverall`;
  - an array mixing raw records and hour buckets;
  - buckets whose `categories` is missing;
  - a `sliceBy` field whose value is not a string, such as `duration`,
    `time` or an array-valued field. `d[key] || 'uncategorized'` then keys
    the record by the value converted to a string, or by `uncategorized`
    when the value is 0. The model's `fields` map holds string values only,
    and any other field gets `uncategorized`.

  The model's `Activity` is either all buckets or all records.
- `processDurationsToHourly`: the `date` argument only sets an unused local,
  so it is not a parameter of the model.
- Stats.Percent: the source computes `Math.round((seconds / total) * 100)`
  in binary floating point, the model on exact rationals. The two can
  differ on a near-tie. For 57 of 200 seconds the source's product is
  28.499999999999996, giving 28, where `Percent(57, 200)` gives 29.
- Tallies: a JavaScript object lists integer-like keys (such as `"2024"`)
  first, in ascending order, and only then the other keys in insertion
  order. A `Tally` keeps pure insertion order. For integer-like category,
  project or language names this changes which of two equal maxima
  `getMostActiveInfo` picks first, the key order of the merged and totalled
  objects, and the order of equal-seconds entries after `mergeStats`. It
  changes no amount. Merging team members in another order likewise
  changes only the key order (`AggregationProperties.TeamDurationsCommute`).
- Tallies: every accumulator in the source is a `{}` literal. So a name
  that is an `Object.prototype` member (`constructor`, `toString`,
  `valueOf`, ...) looks up an inherited function rather than `undefined`:
  - the initialise-if-absent test is skipped, and `+=` concatenates
    strings. For example, 60 s under `constructor` becomes
    `"function Object() { [native code] }60"` in the allocator buckets,
    the team buckets and the category totals;
  - in `mergeStats`, `merged[name]` is truthy, so `.seconds +=` writes onto
    the inherited object. That statistic then appears neither in the
    result nor in the total;
  - a `__proto__` key is never stored.

  The model treats these names like any other, so `Amount(t, k)` is
  `t[k] || 0` only for names that are not inherited.
- Formatting.FormatBucket: formatted entries are appended in input order.
  This equals the source's assignment to `formattedCategories[category]`
  because every category object has distinct keys.
- Formatting.CategoryTotalsIn: the same holds for its appends, which model
  `formatted[category] = ...` of `formatCategoryTotals`.
- Formatting.BucketIn: the same holds for its appends, which model
  `formattedCategories[category] = ...` in `wakatime.ts`.
- UI and build files are not part of this model. That covers the React
  components, their `formatTime` helpers and `vite.config.ts`.

## Findings

| source | as written | input that shows it | evidently intended | confidence | as-written member | corrected member |
|---|---|---|---|---|---|---|
| src/services/wakatime.ts:980-990 | `calculateCategoryTotalsWithOverall` passes `date, sliceBy` to the one-parameter `handleDurations`, which ignores them; raw records are always keyed by `category` | one record `{time: 0, duration: 60, category: "Coding", project: "frontcode"}`, date `"2023-07-07"`, `sliceBy = "project"`: no `frontcode` key, 60 under `Coding` | totals keyed by the `sliceBy` field, as the parameter's documentation (wakatime.ts:949) and the worked example at wakatime.ts:1094-1103 show | high; not executed | SummaryProperties.SliceByIgnored | SummaryProperties.SliceByHonoured |
