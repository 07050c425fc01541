/** The summariser: per-category totals over the hour buckets
    (`calculateTotalDurationsByCategory`), the same with an overall `total`
    key (`calculateCategoryTotalsWithOverall`), and the busiest category and
    hour (`getMostActiveInfo`). */
module Summary {
  import opened Wrappers
  import opened Tallies
  import opened Hourly
  import opened Allocator

  // ---------------------------------------------------------------------
  // calculateTotalDurationsByCategory

  /** Adds the categories of every bucket of data into acc, in order. */
  function TotalsInto(acc: Tally, data: seq<HourBucket>): Tally
    decreases |data|
  {
    if data == [] then acc else TotalsInto(AddAll(acc, data[0].categories), data[1..])
  }

  /** The result of `calculateTotalDurationsByCategory(data)` (`{}` on no buckets). */
  function CategoryTotals(data: seq<HourBucket>): Tally {
    TotalsInto([], data)
  }

  /** `calculateTotalDurationsByCategory(data)`, accumulating in place. */
  method TotalsByCategory(data: seq<HourBucket>) returns (totalByCategory: Tally)
    ensures totalByCategory == CategoryTotals(data)
  {
    if |data| == 0 {
      return [];
    }
    totalByCategory := [];
    for h := 0 to |data|
      invariant TotalsInto(totalByCategory, data[h..]) == CategoryTotals(data)
    {
      assert data[h..][1..] == data[h + 1..];
      var cats := data[h].categories;
      for j := 0 to |cats|
        invariant TotalsInto(AddAll(totalByCategory, cats[j..]), data[h + 1..]) == CategoryTotals(data)
      {
        assert cats[j..][1..] == cats[j + 1..];
        totalByCategory := Add(totalByCategory, cats[j].name, cats[j].seconds);
      }
      assert cats[|cats|..] == [];
    }
    assert data[|data|..] == [];
  }

  // ---------------------------------------------------------------------
  // calculateCategoryTotalsWithOverall

  /** The two kinds of input: hour buckets, or raw duration records (told
      apart by the source through a `time` field on the first element). */
  datatype Activity = Buckets(hours: seq<HourBucket>) | Records(records: seq<DurationRecord>)

  const TotalKey := "total"

  predicate IsEmpty(data: Activity) {
    match data
    case Buckets(hs) => hs == []
    case Records(rs) => rs == []
  }

  /** `!date`: an absent or empty date string. */
  predicate Falsy(date: Option<string>) {
    date.None? || date.value == ""
  }

  /** `{ ...totals, total: sum of totals }`. */
  function WithTotal(totals: Tally): Tally {
    Put(totals, TotalKey, Total(totals))
  }

  /** The hour buckets totalled for `data`: raw records are allocated,
      keyed by `d[key] || 'uncategorized'`. */
  function HoursOf(data: Activity, key: string): seq<HourBucket> {
    match data
    case Buckets(hs) => hs
    case Records(rs) => Allocate(rs, key)
  }

  /** `calculateCategoryTotalsWithOverall(data, date, sliceBy)` as written:
      the raw records go to the one-parameter `handleDurations`, so they are
      always keyed by `category` whatever `sliceBy` says. */
  function WithOverallAsWritten(data: Activity, date: Option<string>, sliceBy: string): Result<Tally> {
    if IsEmpty(data) then Ok([Cell(TotalKey, 0)])
    else if data.Records? && Falsy(date) then Err("a date is required to process raw records")
    else Ok(WithTotal(CategoryTotals(HoursOf(data, CategoryField))))
  }

  /** `calculateCategoryTotalsWithOverall(data, date, sliceBy)` with the
      records keyed by `sliceBy`, as its documentation and examples intend. */
  function WithOverall(data: Activity, date: Option<string>, sliceBy: string): Result<Tally> {
    if IsEmpty(data) then Ok([Cell(TotalKey, 0)])
    else if data.Records? && Falsy(date) then Err("a date is required to process raw records")
    else Ok(WithTotal(CategoryTotals(HoursOf(data, sliceBy))))
  }

  /** `calculateCategoryTotalsWithOverall`, with the records keyed by `sliceBy`. */
  method CategoryTotalsWithOverall(data: Activity, date: Option<string>, sliceBy: string) returns (r: Result<Tally>)
    ensures r == WithOverall(data, date, sliceBy)
  {
    if IsEmpty(data) {
      return Ok([Cell(TotalKey, 0)]);
    }
    var hourlyData: seq<HourBucket>;
    if data.Records? {
      if Falsy(date) {
        return Err("a date is required to process raw records");
      }
      hourlyData := HandleDurationsBy(data.records, sliceBy);
    } else {
      hourlyData := data.hours;
    }
    var categoryTotals := TotalsByCategory(hourlyData);
    var overallTotal := Total(categoryTotals);
    r := Ok(Put(categoryTotals, TotalKey, overallTotal));
  }

  // ---------------------------------------------------------------------
  // getMostActiveInfo

  /** The busiest hour: its `hour` field and its seconds over all categories. */
  datatype HourPeak = HourPeak(hour: int, seconds: int)

  /** `{ mostActiveCategory, mostActiveHour }`, `None` standing for `null`. */
  datatype ActiveInfo = ActiveInfo(category: Option<Cell>, hour: Option<HourPeak>)

  /** The category `forEach` from `best` on: the first entry is taken, then
      an entry replaces the best only with strictly more seconds. */
  function BestCategoryFrom(best: Option<Cell>, t: Tally): Option<Cell>
    decreases |t|
  {
    if t == [] then best
    else BestCategoryFrom(if best.None? || t[0].seconds > best.value.seconds then Some(t[0]) else best, t[1..])
  }

  /** The `reduce` over the hourly totals from `max` on: an hour replaces the
      maximum only with strictly more seconds. */
  function PeakFrom(max: HourPeak, data: seq<HourBucket>): HourPeak
    decreases |data|
  {
    if data == [] then max
    else
      var current := HourPeak(data[0].hour, Total(data[0].categories));
      PeakFrom(if current.seconds > max.seconds then current else max, data[1..])
  }

  /** The result of `getMostActiveInfo(data)`. */
  function MostActive(data: seq<HourBucket>): ActiveInfo {
    if data == [] then ActiveInfo(None, None)
    else
      var maxHour := PeakFrom(HourPeak(-1, 0), data);
      ActiveInfo(BestCategoryFrom(None, CategoryTotals(data)),
                 if maxHour.seconds == 0 then None else Some(maxHour))
  }

  /** `getMostActiveInfo(data)`: the category is picked by a loop over the totals. */
  method MostActiveInfo(data: seq<HourBucket>) returns (info: ActiveInfo)
    ensures info == MostActive(data)
  {
    if |data| == 0 {
      return ActiveInfo(None, None);
    }
    var totalByCategory := TotalsByCategory(data);
    var mostActiveCategory: Option<Cell> := None;
    for i := 0 to |totalByCategory|
      invariant BestCategoryFrom(mostActiveCategory, totalByCategory[i..]) == BestCategoryFrom(None, totalByCategory)
    {
      assert totalByCategory[i..][1..] == totalByCategory[i + 1..];
      if mostActiveCategory.None? || totalByCategory[i].seconds > mostActiveCategory.value.seconds {
        mostActiveCategory := Some(totalByCategory[i]);
      }
    }
    assert totalByCategory[|totalByCategory|..] == [];
    var maxHour := PeakFrom(HourPeak(-1, 0), data);
    var mostActiveHour: Option<HourPeak> := Some(maxHour);
    if maxHour.seconds == 0 {
      mostActiveHour := None;
    }
    info := ActiveInfo(mostActiveCategory, mostActiveHour);
  }
}
