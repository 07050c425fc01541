/** The allocator: `handleDurations` turns duration records into 24 hour-of-day
    buckets, splitting a record that crosses hour boundaries over the hours it
    touches; `processDurationsToHourly` credits each record whole to the hour
    it starts in. `handleDurations` is the same code in src/services/wakatime.ts
    and in src/services/duration.ts and is modelled once. */
module Allocator {
  import opened Tallies
  import opened Clock
  import opened Hourly

  /** A record of the durations API. `fields` holds its string-valued fields
      (`category`, `project`, `language`, ...); an absent field and an empty
      one behave alike under `||`. */
  datatype DurationRecord = DurationRecord(time: int, duration: int, fields: map<string, string>)

  const Uncategorized := "uncategorized"
  const CategoryField := "category"

  /** `d[key] || 'uncategorized'`. */
  function Label(d: DurationRecord, key: string): (c: string)
    ensures c != ""
    ensures key in d.fields && d.fields[key] != "" ==> c == d.fields[key]
    ensures key !in d.fields || d.fields[key] == "" ==> c == Uncategorized
  {
    if key in d.fields && d.fields[key] != "" then d.fields[key] else Uncategorized
  }

  /** `startTime.add(d.duration, 'second')`. */
  function EndOf(d: DurationRecord): int {
    d.time + d.duration
  }

  // ---------------------------------------------------------------------
  // handleDurations, as a specification on values

  /** The `while (currentHour < endHour)` loop: 3600 seconds to every hour in [lo, hi). */
  function FullHours(day: seq<HourBucket>, c: string, lo: int, hi: int): (r: seq<HourBucket>)
    requires |day| == 24 && 0 <= lo && hi <= 24
    ensures |r| == 24 && forall h :: 0 <= h < 24 ==> r[h].hour == day[h].hour
    decreases hi - lo
  {
    if lo >= hi then day else FullHours(AddAt(day, lo, c, SecondsPerHour), c, lo + 1, hi)
  }

  /** The body of the `forEach` of `handleDurations` for one record `d`
      whose category key is `c`. */
  function Credit(day: seq<HourBucket>, d: DurationRecord, c: string): (r: seq<HourBucket>)
    requires |day| == 24
    ensures |r| == 24 && forall h :: 0 <= h < 24 ==> r[h].hour == day[h].hour
  {
    var start, end := d.time, EndOf(d);
    var startHour, endHour := HourOf(start), HourOf(end);
    if startHour == endHour then
      AddAt(day, startHour, c, d.duration)
    else
      var first := AddAt(day, startHour, c, NextTopOfHour(start) - start);
      var middle := FullHours(first, c, startHour + 1, endHour);
      var lastSeconds := end - StartOfHour(end);
      if (MinuteOf(end) > 0 || SecondOf(end) > 0) && lastSeconds > 0 then
        AddAt(middle, endHour, c, lastSeconds)
      else
        middle
  }

  /** Credits the records `ds`, in order, into `day`, keyed by `d[key]`. */
  function AllocateInto(day: seq<HourBucket>, ds: seq<DurationRecord>, key: string): (r: seq<HourBucket>)
    requires |day| == 24
    ensures |r| == 24 && forall h :: 0 <= h < 24 ==> r[h].hour == day[h].hour
    decreases |ds|
  {
    if ds == [] then day
    else AllocateInto(Credit(day, ds[0], Label(ds[0], key)), ds[1..], key)
  }

  /** The result of the allocator for records `ds` keyed by `d[key]`:
      always 24 buckets, bucket h holding hour h. */
  function Allocate(ds: seq<DurationRecord>, key: string): (r: seq<HourBucket>)
    ensures HoursInOrder(r)
  {
    AllocateInto(EmptyDay(), ds, key)
  }

  // ---------------------------------------------------------------------
  // handleDurations, as the source runs it: in place on a 24-element array

  /** One iteration of the `forEach`: credits `d` to the buckets in place. */
  method CreditRecord(a: array<HourBucket>, d: DurationRecord, c: string)
    requires a.Length == 24
    modifies a
    ensures a[..] == Credit(old(a[..]), d, c)
  {
    var start := d.time;
    var end := start + d.duration;
    var startHour, endHour := HourOf(start), HourOf(end);
    if startHour == endHour {
      a[startHour] := HourBucket(a[startHour].hour, Add(a[startHour].categories, c, d.duration));
    } else {
      var firstSeconds := NextTopOfHour(start) - start;
      a[startHour] := HourBucket(a[startHour].hour, Add(a[startHour].categories, c, firstSeconds));
      ghost var first := a[..];
      var currentHour := startHour + 1;
      while currentHour < endHour
        invariant startHour + 1 <= currentHour <= 24
        invariant FullHours(a[..], c, currentHour, endHour) == FullHours(first, c, startHour + 1, endHour)
      {
        a[currentHour] := HourBucket(a[currentHour].hour, Add(a[currentHour].categories, c, SecondsPerHour));
        currentHour := currentHour + 1;
      }
      if MinuteOf(end) > 0 || SecondOf(end) > 0 {
        var lastSeconds := end - StartOfHour(end);
        if lastSeconds > 0 {
          a[endHour] := HourBucket(a[endHour].hour, Add(a[endHour].categories, c, lastSeconds));
        }
      }
    }
  }

  /** The `forEach` of `handleDurations` over all records, each keyed by
      `d[key] || 'uncategorized'`, into 24 fresh buckets. */
  method HandleDurationsBy(ds: seq<DurationRecord>, key: string) returns (activity: seq<HourBucket>)
    ensures activity == Allocate(ds, key)
  {
    var a := new HourBucket[24](h => HourBucket(h, []));
    assert a[..] == EmptyDay();
    for i := 0 to |ds|
      invariant AllocateInto(a[..], ds[i..], key) == Allocate(ds, key)
    {
      assert ds[i..][1..] == ds[i + 1..];
      CreditRecord(a, ds[i], Label(ds[i], key));
    }
    activity := a[..];
  }

  /** `handleDurations(durationsData)`: the key is always `category`. */
  method HandleDurations(ds: seq<DurationRecord>) returns (activity: seq<HourBucket>)
    ensures activity == Allocate(ds, CategoryField)
  {
    activity := HandleDurationsBy(ds, CategoryField);
  }

  // ---------------------------------------------------------------------
  // processDurationsToHourly

  /** Credits each record of `ds` whole to the hour it starts in. */
  function ByStartInto(day: seq<HourBucket>, ds: seq<DurationRecord>, key: string): (r: seq<HourBucket>)
    requires |day| == 24
    ensures |r| == 24 && forall h :: 0 <= h < 24 ==> r[h].hour == day[h].hour
    decreases |ds|
  {
    if ds == [] then day
    else ByStartInto(AddAt(day, HourOf(ds[0].time), Label(ds[0], key), ds[0].duration), ds[1..], key)
  }

  /** The result of `processDurationsToHourly(ds, date, key)`: 24 buckets,
      bucket h holding hour h. */
  function ByStart(ds: seq<DurationRecord>, key: string): (r: seq<HourBucket>)
    ensures HoursInOrder(r)
  {
    ByStartInto(EmptyDay(), ds, key)
  }

  /** `processDurationsToHourly(durationsData, date, sliceBy)`. The `date`
      argument only feeds an unused local and is not a parameter here. */
  method ProcessDurationsToHourly(ds: seq<DurationRecord>, sliceBy: string) returns (activity: seq<HourBucket>)
    ensures activity == ByStart(ds, sliceBy)
  {
    var a := new HourBucket[24](h => HourBucket(h, []));
    assert a[..] == EmptyDay();
    for i := 0 to |ds|
      invariant ByStartInto(a[..], ds[i..], sliceBy) == ByStart(ds, sliceBy)
    {
      assert ds[i..][1..] == ds[i + 1..];
      var d := ds[i];
      var categoryValue := Label(d, sliceBy);
      var hour := HourOf(d.time);
      a[hour] := HourBucket(a[hour].hour, Add(a[hour].categories, categoryValue, d.duration));
    }
    activity := a[..];
  }
}
