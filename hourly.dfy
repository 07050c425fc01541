/** Wall-clock arithmetic on timestamps. A timestamp is a whole number of
    seconds already shifted into local time, so the hour of the day and the
    top of the hour are plain integer arithmetic (Dafny's `/` and `%` round
    towards minus infinity for a positive divisor, as calendar time does). */
module Clock {

  const SecondsPerHour := 3600
  const SecondsPerDay := 86400

  /** `dayjs(t).hour()`. */
  function HourOf(t: int): (h: int)
    ensures 0 <= h < 24
  {
    (t / SecondsPerHour) % 24
  }

  /** `dayjs(t).minute()`. */
  function MinuteOf(t: int): int {
    (t % SecondsPerHour) / 60
  }

  /** `dayjs(t).second()`. */
  function SecondOf(t: int): int {
    t % 60
  }

  /** `dayjs(t).startOf('hour')`. */
  function StartOfHour(t: int): int {
    t - t % SecondsPerHour
  }

  /** `dayjs(t).startOf('hour').add(1, 'hour')`. */
  function NextTopOfHour(t: int): int {
    StartOfHour(t) + SecondsPerHour
  }

  /** The calendar day a timestamp falls on. */
  function DayOf(t: int): int {
    t / SecondsPerDay
  }

  /** `minute() > 0 || second() > 0` holds exactly when t is not on the hour. */
  lemma OffTheHour(t: int)
    ensures MinuteOf(t) > 0 || SecondOf(t) > 0 <==> t % SecondsPerHour != 0
  {
    var q, x := t / 3600, t % 3600;
    var m, s := x / 60, x % 60;
    assert x == 60 * m + s && 0 <= s < 60;
    assert t == 60 * (60 * q + m) + s;
    SecondsOf(t, 60 * q + m, s);
  }

  lemma SecondsOf(t: int, k: int, s: int)
    requires t == 60 * k + s && 0 <= s < 60
    ensures t % 60 == s
  {
  }

  /** A day is 24 whole hours: the day of t is the day of its hour. */
  lemma DayOfHour(t: int)
    ensures DayOf(t) == (t / SecondsPerHour) / 24
    ensures t / SecondsPerHour == 24 * DayOf(t) + HourOf(t)
  {
    var q, r := t / 86400, t % 86400;
    assert t == 3600 * (24 * q + r / 3600) + r % 3600;
    assert t / 3600 == 24 * q + r / 3600;
  }
}

/** The 24 hour-of-day buckets `{ hour, categories }` the allocator fills. */
module Hourly {
  import opened Tallies

  datatype HourBucket = HourBucket(hour: int, categories: Tally)

  /** `Array.from({ length: 24 }, (_, i) => ({ hour: i, categories: {} }))`. */
  function EmptyDay(): (d: seq<HourBucket>)
    ensures |d| == 24
    ensures forall h :: 0 <= h < 24 ==> d[h] == HourBucket(h, [])
  {
    seq(24, h => HourBucket(h, []))
  }

  /** Bucket i is the bucket for hour i. */
  predicate HoursInOrder(d: seq<HourBucket>) {
    |d| == 24 && forall h :: 0 <= h < 24 ==> d[h].hour == h
  }

  /** Every bucket's category object has distinct keys. */
  predicate AllKeyed(d: seq<HourBucket>) {
    forall h :: 0 <= h < |d| ==> Keyed(d[h].categories)
  }

  /** `d[h].categories[c] += v` with the initialise-if-absent idiom. */
  function AddAt(d: seq<HourBucket>, h: int, c: string, v: int): (r: seq<HourBucket>)
    requires 0 <= h < |d|
    ensures |r| == |d| && forall i :: 0 <= i < |d| ==> r[i].hour == d[i].hour
  {
    d[h := HourBucket(d[h].hour, Add(d[h].categories, c, v))]
  }

  /** The seconds held by buckets lo.. of d, over all categories. */
  function SumFrom(d: seq<HourBucket>, lo: nat): int
    decreases |d| - lo
  {
    if lo >= |d| then 0 else Total(d[lo].categories) + SumFrom(d, lo + 1)
  }

  /** The seconds held by all buckets of d. */
  function GrandTotal(d: seq<HourBucket>): int {
    SumFrom(d, 0)
  }

  lemma {:induction false} AddAtAmount(d: seq<HourBucket>, h: int, c: string, v: int, i: int, k: string)
    requires 0 <= h < |d| && 0 <= i < |d|
    ensures AddAt(d, h, c, v)[i].hour == d[i].hour
    ensures Amount(AddAt(d, h, c, v)[i].categories, k)
         == Amount(d[i].categories, k) + (if i == h && k == c then v else 0)
  {
    if i == h {
      AddAmount(d[h].categories, c, v, k);
    }
  }

  lemma {:induction false} AddAtNames(d: seq<HourBucket>, h: int, c: string, v: int, i: int, k: string)
    requires 0 <= h < |d| && 0 <= i < |d|
    ensures k in Names(AddAt(d, h, c, v)[i].categories)
        <==> k in Names(d[i].categories) || (i == h && k == c)
  {
    if i == h {
      AddNames(d[h].categories, c, v);
    }
  }

  lemma {:induction false} AddAtKeyed(d: seq<HourBucket>, h: int, c: string, v: int)
    requires 0 <= h < |d| && AllKeyed(d)
    ensures AllKeyed(AddAt(d, h, c, v))
  {
    AddKeyed(d[h].categories, c, v);
  }

  /** Adding v to one bucket adds v to the seconds of every suffix that holds it. */
  lemma {:induction false} AddAtSumFrom(d: seq<HourBucket>, h: int, c: string, v: int, lo: nat)
    requires 0 <= h < |d|
    ensures SumFrom(AddAt(d, h, c, v), lo) == SumFrom(d, lo) + (if lo <= h then v else 0)
    decreases |d| - lo
  {
    if lo < |d| {
      AddAtSumFrom(d, h, c, v, lo + 1);
      if lo == h {
        AddTotal(d[h].categories, c, v);
      }
    }
  }
}
