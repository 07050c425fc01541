/** The unit formatters: seconds to minutes or hours, per hour bucket
    (`formatHourlyActivityDurations`, in both services) and per category total
    (`formatCategoryTotals`). Values are exact reals; `toFixed(n)` followed by
    `parseFloat` is rounding to n decimals, halves away from zero. */
module Formatting {
  import opened Tallies
  import opened Hourly
  import Stats

  /** A category and its value in the chosen unit. */
  datatype Scaled = Scaled(name: string, value: real)

  /** A formatted hour bucket of `wakatime.ts`: no `total`. */
  datatype ScaledBucket = ScaledBucket(hour: int, categories: seq<Scaled>)

  /** A formatted hour bucket of `duration.ts`: values and `total` in minutes. */
  datatype MinuteBucket = MinuteBucket(hour: int, categories: seq<Scaled>, total: real)

  /** The `format` argument. */
  datatype Unit = Seconds | Minutes | Hours

  /** The converted entries cs carry the keys of t, in the same order. */
  predicate SameKeys(cs: seq<Scaled>, t: Tally) {
    |cs| == |t| && forall i :: 0 <= i < |cs| ==> cs[i].name == t[i].name
  }

  function ScaledTotal(cs: seq<Scaled>): real {
    if cs == [] then 0.0 else cs[0].value + ScaledTotal(cs[1..])
  }

  // ---------------------------------------------------------------------
  // duration.ts: formatHourlyActivityDurations

  /** The categories of one bucket in minutes, entry by entry. */
  function InMinutes(t: Tally): (cs: seq<Scaled>)
    ensures |cs| == |t|
  {
    if t == [] then [] else [Scaled(t[0].name, t[0].seconds as real / 60.0)] + InMinutes(t[1..])
  }

  /** The bucket `duration.ts` makes of `item`. */
  function MinutesBucket(item: HourBucket): MinuteBucket {
    MinuteBucket(item.hour, InMinutes(item.categories), ScaledTotal(InMinutes(item.categories)))
  }

  /** One `item` of the `map`: the `for…of` loop fills the categories and
      keeps the running `totalMinutes`. */
  method FormatBucket(item: HourBucket) returns (b: MinuteBucket)
    ensures b == MinutesBucket(item)
    ensures b.total == Total(item.categories) as real / 60.0
  {
    var cats := item.categories;
    var formattedCategories: seq<Scaled> := [];
    var totalMinutes := 0.0;
    for i := 0 to |cats|
      invariant formattedCategories + InMinutes(cats[i..]) == InMinutes(cats)
      invariant totalMinutes + ScaledTotal(InMinutes(cats[i..])) == ScaledTotal(InMinutes(cats))
    {
      assert cats[i..][1..] == cats[i + 1..];
      var minutes := cats[i].seconds as real / 60.0;
      assert InMinutes(cats[i..]) == [Scaled(cats[i].name, minutes)] + InMinutes(cats[i + 1..]);
      assert ScaledTotal(InMinutes(cats[i..])) == minutes + ScaledTotal(InMinutes(cats[i + 1..]));
      formattedCategories := formattedCategories + [Scaled(cats[i].name, minutes)];
      totalMinutes := totalMinutes + minutes;
    }
    assert cats[|cats|..] == [];
    MinutesTotal(cats);
    b := MinuteBucket(item.hour, formattedCategories, totalMinutes);
  }

  /** `formatHourlyActivityDurations` of `duration.ts`. */
  method FormatHourlyMinutes(hourlyActivity: seq<HourBucket>) returns (r: seq<MinuteBucket>)
    ensures |r| == |hourlyActivity|
    ensures forall i :: 0 <= i < |r| ==> r[i] == MinutesBucket(hourlyActivity[i])
  {
    r := [];
    for i := 0 to |hourlyActivity|
      invariant |r| == i
      invariant forall j :: 0 <= j < i ==> r[j] == MinutesBucket(hourlyActivity[j])
    {
      var b := FormatBucket(hourlyActivity[i]);
      r := r + [b];
    }
  }

  lemma {:induction false} MinutesTotal(t: Tally)
    ensures ScaledTotal(InMinutes(t)) == Total(t) as real / 60.0
  {
    if t != [] {
      MinutesTotal(t[1..]);
    }
  }

  lemma {:induction false} MinutesEntries(t: Tally)
    ensures SameKeys(InMinutes(t), t)
    ensures forall i :: 0 <= i < |t| ==> InMinutes(t)[i].value == t[i].seconds as real / 60.0
  {
    if t != [] {
      MinutesEntries(t[1..]);
      forall i | 0 < i < |t| ensures InMinutes(t)[i] == InMinutes(t[1..])[i - 1] {
      }
    }
  }

  /** A formatted bucket keeps its hour and its keys, holds every value in
      minutes, and its `total` is both the sum of those values and the
      bucket's seconds in minutes. */
  lemma MinutesBucketContents(item: HourBucket)
    ensures var b := MinutesBucket(item);
      b.hour == item.hour
      && SameKeys(b.categories, item.categories)
      && (forall i :: 0 <= i < |b.categories| ==> b.categories[i].value == item.categories[i].seconds as real / 60.0)
      && b.total == ScaledTotal(b.categories)
      && b.total == Total(item.categories) as real / 60.0
  {
    MinutesEntries(item.categories);
    MinutesTotal(item.categories);
  }

  // ---------------------------------------------------------------------
  // wakatime.ts: toFixed and the two formatters

  /** `parseFloat(x.toFixed(n))` with `scale` = 10^n: the nearest multiple of
      1/scale, a tie going away from zero. */
  function ToFixed(x: real, scale: real): real
    requires 0.0 < scale
  {
    if x < 0.0 then -Grid(-x, scale) else Grid(x, scale)
  }

  /** The nearest multiple of 1/scale, a tie going up. */
  function Grid(y: real, scale: real): real
    requires 0.0 < scale
  {
    (y * scale + 0.5).Floor as real / scale
  }

  lemma FloorBounds(y: real)
    ensures y - 0.5 < (y + 0.5).Floor as real <= y + 0.5
  {
  }

  lemma DivideDifference(f: real, y: real, scale: real)
    requires 0.0 < scale
    ensures f / scale - y == (f - y * scale) / scale
  {
    DivideBack(y, scale);
  }

  lemma GridBound(y: real, scale: real)
    requires 0.0 < scale
    ensures -0.5 / scale <= Grid(y, scale) - y <= 0.5 / scale
  {
    FloorBounds(y * scale);
    var f := (y * scale + 0.5).Floor as real;
    DivideDifference(f, y, scale);
    DivideBounds(f - y * scale, scale);
  }

  /** Rounding to n decimals moves a value by at most half a unit in the last place. */
  lemma ToFixedBound(x: real, scale: real)
    requires 0.0 < scale
    ensures -0.5 / scale <= ToFixed(x, scale) - x <= 0.5 / scale
  {
    if x < 0.0 {
      GridBound(-x, scale);
    } else {
      GridBound(x, scale);
    }
  }

  lemma DivideBounds(e: real, scale: real)
    requires 0.0 < scale && -0.5 <= e <= 0.5
    ensures -0.5 / scale <= e / scale <= 0.5 / scale
  {
    assert (e / scale) * scale == e;
    assert (0.5 / scale) * scale == 0.5;
    assert (-0.5 / scale) * scale == -0.5;
  }

  lemma DivideBack(x: real, scale: real)
    requires 0.0 < scale
    ensures (x * scale) / scale == x
  {
  }

  /** A value already on the grid is left alone. */
  lemma ToFixedExact(x: real, scale: real, k: int)
    requires 0.0 < scale && x * scale == k as real
    ensures ToFixed(x, scale) == x
  {
    if x < 0.0 {
      assert (-x) * scale == -(x * scale);
      assert ((-x) * scale + 0.5).Floor == -k;
      assert Grid(-x, scale) == ((-x) * scale) / scale;
      DivideBack(-x, scale);
    } else {
      assert (x * scale + 0.5).Floor == k;
      assert Grid(x, scale) == (x * scale) / scale;
      DivideBack(x, scale);
    }
  }

  /** One value in the chosen unit, as `formatCategoryTotals` converts it:
      `Math.round` in seconds, one decimal in minutes, two in hours. */
  function InUnit(seconds: int, unit: Unit): real {
    match unit
    case Seconds => Stats.Round(seconds as real) as real
    case Minutes => ToFixed(seconds as real / 60.0, 10.0)
    case Hours => ToFixed(seconds as real / 3600.0, 100.0)
  }

  /** How far a converted value may be from the exact one, in its unit. */
  function Tolerance(unit: Unit): real {
    match unit
    case Seconds => 0.0
    case Minutes => 0.05
    case Hours => 0.005
  }

  /** The exact value of `seconds` in the unit. */
  function Exact(seconds: int, unit: Unit): real {
    match unit
    case Seconds => seconds as real
    case Minutes => seconds as real / 60.0
    case Hours => seconds as real / 3600.0
  }

  /** A converted value is the exact one to within the unit's tolerance;
      whole seconds are kept as they are. */
  lemma InUnitBound(seconds: int, unit: Unit)
    ensures -Tolerance(unit) <= InUnit(seconds, unit) - Exact(seconds, unit) <= Tolerance(unit)
  {
    match unit
    case Seconds =>
      assert (seconds as real + 0.5).Floor == seconds;
    case Minutes =>
      var x := seconds as real / 60.0;
      ToFixedBound(x, 10.0);
      assert 0.5 / 10.0 == 0.05;
      assert InUnit(seconds, unit) == ToFixed(x, 10.0);
    case Hours =>
      var x := seconds as real / 3600.0;
      ToFixedBound(x, 100.0);
      assert 0.5 / 100.0 == 0.005;
      assert InUnit(seconds, unit) == ToFixed(x, 100.0);
  }

  /** Values that are already whole tenths of a minute or hundredths of an
      hour come out exactly: 90 seconds is 1.5 minutes, 54 seconds 0.9. */
  lemma InUnitExact(seconds: int)
    ensures seconds % 6 == 0 ==> InUnit(seconds, Minutes) == seconds as real / 60.0
    ensures seconds % 36 == 0 ==> InUnit(seconds, Hours) == seconds as real / 3600.0
  {
    if seconds % 6 == 0 {
      var q := seconds / 6;
      assert (seconds as real / 60.0) * 10.0 == q as real;
      ToFixedExact(seconds as real / 60.0, 10.0, q);
    }
    if seconds % 36 == 0 {
      var q := seconds / 36;
      assert (seconds as real / 3600.0) * 100.0 == q as real;
      ToFixedExact(seconds as real / 3600.0, 100.0, q);
    }
  }

  /** `formatCategoryTotals(totals, format)`: every entry converted. */
  function CategoryTotalsIn(totals: Tally, unit: Unit): (cs: seq<Scaled>)
    ensures |cs| == |totals|
  {
    if totals == [] then [] else [Scaled(totals[0].name, InUnit(totals[0].seconds, unit))] + CategoryTotalsIn(totals[1..], unit)
  }

  lemma {:induction false} CategoryTotalsInEntries(totals: Tally, unit: Unit)
    ensures SameKeys(CategoryTotalsIn(totals, unit), totals)
    ensures forall i :: 0 <= i < |totals| ==> CategoryTotalsIn(totals, unit)[i].value == InUnit(totals[i].seconds, unit)
  {
    if totals != [] {
      CategoryTotalsInEntries(totals[1..], unit);
      forall i | 0 < i < |totals|
        ensures CategoryTotalsIn(totals, unit)[i] == CategoryTotalsIn(totals[1..], unit)[i - 1]
      {
      }
    }
  }

  /** `formatCategoryTotals` keeps every key in order and converts each value
      to within the unit's tolerance of its exact value. */
  lemma CategoryTotalsInContents(totals: Tally, unit: Unit)
    ensures var cs := CategoryTotalsIn(totals, unit);
      SameKeys(cs, totals)
      && forall i :: 0 <= i < |cs| ==>
           -Tolerance(unit) <= cs[i].value - Exact(totals[i].seconds, unit) <= Tolerance(unit)
  {
    CategoryTotalsInEntries(totals, unit);
    forall i | 0 <= i < |totals| {
      InUnitBound(totals[i].seconds, unit);
    }
  }

  /** The categories of one bucket as `wakatime.ts` formats them: minutes or
      hours; no branch handles any other format, which leaves them empty. */
  function BucketIn(t: Tally, unit: Unit): seq<Scaled> {
    if unit.Seconds? then [] else CategoryTotalsIn(t, unit)
  }

  /** `formatHourlyActivityDurations(data, format)` of `wakatime.ts`. */
  function HourlyIn(data: seq<HourBucket>, unit: Unit): (r: seq<ScaledBucket>)
    ensures |r| == |data|
  {
    if data == [] then []
    else [ScaledBucket(data[0].hour, BucketIn(data[0].categories, unit))] + HourlyIn(data[1..], unit)
  }

  lemma {:induction false} HourlyInEntries(data: seq<HourBucket>, unit: Unit)
    ensures forall h :: 0 <= h < |data| ==>
      HourlyIn(data, unit)[h] == ScaledBucket(data[h].hour, BucketIn(data[h].categories, unit))
  {
    if data != [] {
      HourlyInEntries(data[1..], unit);
      forall h | 0 < h < |data| ensures HourlyIn(data, unit)[h] == HourlyIn(data[1..], unit)[h - 1] {
      }
    }
  }

  /** The formatted buckets keep their number and hours; in minutes or hours
      each keeps its keys in order, each value within the unit's tolerance of
      the exact one; any other format leaves every bucket without categories. */
  lemma HourlyInContents(data: seq<HourBucket>, unit: Unit, h: int)
    requires 0 <= h < |data|
    ensures var b := HourlyIn(data, unit)[h];
      b.hour == data[h].hour
      && (unit.Seconds? ==> b.categories == [])
      && (!unit.Seconds? ==>
            SameKeys(b.categories, data[h].categories)
            && forall i :: 0 <= i < |b.categories| ==>
                 -Tolerance(unit) <= b.categories[i].value - Exact(data[h].categories[i].seconds, unit) <= Tolerance(unit))
  {
    HourlyInEntries(data, unit);
    CategoryTotalsInContents(data[h].categories, unit);
  }
}
