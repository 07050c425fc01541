/** What the allocator promises, proved about its specification: a closed
    form for the seconds each record puts into each hour, which keys appear
    in which bucket, and how many seconds the buckets hold in all. */
module AllocationProperties {
  import opened Tallies
  import opened Clock
  import opened Hourly
  import opened Allocator

  // ---------------------------------------------------------------------
  // Reference definitions

  /** The seconds `handleDurations` credits to hour h for record d: the whole
      duration when it starts and ends in the same hour of the day; otherwise
      the rest of the start hour, 3600 for each hour strictly between the
      start and end hour of the day (none when the record crosses midnight),
      and the seconds past the top of the end hour. */
  function Share(d: DurationRecord, h: int): int {
    var startHour, endHour := HourOf(d.time), HourOf(EndOf(d));
    if startHour == endHour then (if h == startHour then d.duration else 0)
    else if h == startHour then SecondsPerHour - d.time % SecondsPerHour
    else if startHour < h < endHour then SecondsPerHour
    else if h == endHour then EndOf(d) % SecondsPerHour
    else 0
  }

  /** Whether crediting d creates (or updates) a key in bucket h: the end
      hour is touched only when the record ends off the hour. */
  predicate Touches(d: DurationRecord, h: int) {
    var startHour, endHour := HourOf(d.time), HourOf(EndOf(d));
    if startHour == endHour then h == startHour
    else h == startHour || startHour < h < endHour || (h == endHour && EndOf(d) % SecondsPerHour != 0)
  }

  /** The seconds the records ds with key k credit to hour h. */
  function Credited(ds: seq<DurationRecord>, key: string, h: int, k: string): int {
    if ds == [] then 0
    else (if Label(ds[0], key) == k then Share(ds[0], h) else 0) + Credited(ds[1..], key, h, k)
  }

  /** The seconds one record puts into the buckets altogether. */
  function RecordCredit(d: DurationRecord): int {
    var startHour, endHour := HourOf(d.time), HourOf(EndOf(d));
    if startHour == endHour then d.duration
    else
      (SecondsPerHour - d.time % SecondsPerHour)
      + SecondsPerHour * (if endHour > startHour + 1 then endHour - startHour - 1 else 0)
      + EndOf(d) % SecondsPerHour
  }

  /** The whole hours between the start hour and the end hour, counted on the
      time line, that no bucket receives: those of the days skipped by a
      record that spans more than a day, and those after midnight when the
      end hour of the day is smaller than the start hour. */
  function DroppedHours(d: DurationRecord): int {
    var startHour, endHour := HourOf(d.time), HourOf(EndOf(d));
    var spanned := EndOf(d) / SecondsPerHour - d.time / SecondsPerHour;
    if startHour == endHour then 0
    else if startHour < endHour then spanned - (endHour - startHour)
    else spanned - 1
  }

  function SumDurations(ds: seq<DurationRecord>): int {
    if ds == [] then 0 else ds[0].duration + SumDurations(ds[1..])
  }

  function SumDropped(ds: seq<DurationRecord>): int {
    if ds == [] then 0 else DroppedHours(ds[0]) + SumDropped(ds[1..])
  }

  function SumCredits(ds: seq<DurationRecord>): int {
    if ds == [] then 0 else RecordCredit(ds[0]) + SumCredits(ds[1..])
  }

  /** A record that starts and ends on the same calendar day and does not run backwards. */
  predicate WithinOneDay(d: DurationRecord) {
    0 <= d.duration && DayOf(d.time) == DayOf(EndOf(d))
  }

  // ---------------------------------------------------------------------
  // The intermediate-hours loop

  lemma {:induction false} FullHoursAmount(day: seq<HourBucket>, c: string, lo: int, hi: int, h: int, k: string)
    requires |day| == 24 && 0 <= lo && hi <= 24 && 0 <= h < 24
    ensures Amount(FullHours(day, c, lo, hi)[h].categories, k)
         == Amount(day[h].categories, k) + (if k == c && lo <= h < hi then SecondsPerHour else 0)
    decreases hi - lo
  {
    if lo < hi {
      AddAtAmount(day, lo, c, SecondsPerHour, h, k);
      FullHoursAmount(AddAt(day, lo, c, SecondsPerHour), c, lo + 1, hi, h, k);
    }
  }

  lemma {:induction false} FullHoursNames(day: seq<HourBucket>, c: string, lo: int, hi: int, h: int, k: string)
    requires |day| == 24 && 0 <= lo && hi <= 24 && 0 <= h < 24
    ensures k in Names(FullHours(day, c, lo, hi)[h].categories)
        <==> k in Names(day[h].categories) || (k == c && lo <= h < hi)
    decreases hi - lo
  {
    if lo < hi {
      AddAtNames(day, lo, c, SecondsPerHour, h, k);
      FullHoursNames(AddAt(day, lo, c, SecondsPerHour), c, lo + 1, hi, h, k);
    }
  }

  /** Hours outside [lo, hi) are left as they were. */
  lemma {:induction false} FullHoursOutside(day: seq<HourBucket>, c: string, lo: int, hi: int, h: int)
    requires |day| == 24 && 0 <= lo && hi <= 24 && 0 <= h < 24
    requires h < lo || hi <= h
    ensures FullHours(day, c, lo, hi)[h] == day[h]
    decreases hi - lo
  {
    if lo < hi {
      FullHoursOutside(AddAt(day, lo, c, SecondsPerHour), c, lo + 1, hi, h);
    }
  }

  lemma {:induction false} FullHoursKeyed(day: seq<HourBucket>, c: string, lo: int, hi: int)
    requires |day| == 24 && 0 <= lo && hi <= 24 && AllKeyed(day)
    ensures AllKeyed(FullHours(day, c, lo, hi))
    decreases hi - lo
  {
    if lo < hi {
      AddAtKeyed(day, lo, c, SecondsPerHour);
      FullHoursKeyed(AddAt(day, lo, c, SecondsPerHour), c, lo + 1, hi);
    }
  }

  lemma {:induction false} FullHoursTotal(day: seq<HourBucket>, c: string, lo: int, hi: int)
    requires |day| == 24 && 0 <= lo && hi <= 24
    ensures GrandTotal(FullHours(day, c, lo, hi))
         == GrandTotal(day) + SecondsPerHour * (if lo < hi then hi - lo else 0)
    decreases hi - lo
  {
    if lo < hi {
      AddAtSumFrom(day, lo, c, SecondsPerHour, 0);
      FullHoursTotal(AddAt(day, lo, c, SecondsPerHour), c, lo + 1, hi);
    }
  }

  // ---------------------------------------------------------------------
  // One record

  /** Crediting record d under key c adds exactly Share(d, h) to key c of
      bucket h and changes no other key. */
  lemma CreditAmount(day: seq<HourBucket>, d: DurationRecord, c: string, h: int, k: string)
    requires |day| == 24 && 0 <= h < 24
    ensures Amount(Credit(day, d, c)[h].categories, k)
         == Amount(day[h].categories, k) + (if k == c then Share(d, h) else 0)
  {
    if HourOf(d.time) == HourOf(EndOf(d)) {
      AddAtAmount(day, HourOf(d.time), c, d.duration, h, k);
    } else {
      SpanningAmount(day, d, c, h, k);
    }
  }

  /** The start hour and the full hours of a record spanning several hours:
      every hour but the end hour already holds its share. */
  lemma StartAndMiddleAmount(day: seq<HourBucket>, d: DurationRecord, c: string, h: int, k: string)
    requires |day| == 24 && 0 <= h < 24
    requires HourOf(d.time) != HourOf(EndOf(d))
    ensures var first := AddAt(day, HourOf(d.time), c, NextTopOfHour(d.time) - d.time);
      Amount(FullHours(first, c, HourOf(d.time) + 1, HourOf(EndOf(d)))[h].categories, k)
      == Amount(day[h].categories, k) + (if k == c && h != HourOf(EndOf(d)) then Share(d, h) else 0)
  {
    var startHour, endHour := HourOf(d.time), HourOf(EndOf(d));
    var first := AddAt(day, startHour, c, NextTopOfHour(d.time) - d.time);
    AddAtAmount(day, startHour, c, NextTopOfHour(d.time) - d.time, h, k);
    FullHoursAmount(first, c, startHour + 1, endHour, h, k);
  }

  /** A record spanning several hours: the end hour gets the seconds past its
      top of the hour, which are none when it ends on the hour. */
  lemma SpanningAmount(day: seq<HourBucket>, d: DurationRecord, c: string, h: int, k: string)
    requires |day| == 24 && 0 <= h < 24
    requires HourOf(d.time) != HourOf(EndOf(d))
    ensures Amount(Credit(day, d, c)[h].categories, k)
         == Amount(day[h].categories, k) + (if k == c then Share(d, h) else 0)
  {
    var end := EndOf(d);
    var startHour, endHour := HourOf(d.time), HourOf(end);
    var first := AddAt(day, startHour, c, NextTopOfHour(d.time) - d.time);
    var middle := FullHours(first, c, startHour + 1, endHour);
    StartAndMiddleAmount(day, d, c, h, k);
    OffTheHour(end);
    if end % SecondsPerHour != 0 {
      assert Credit(day, d, c) == AddAt(middle, endHour, c, end - StartOfHour(end));
      AddAtAmount(middle, endHour, c, end - StartOfHour(end), h, k);
    } else {
      assert Credit(day, d, c) == middle;
    }
  }

  lemma CreditNames(day: seq<HourBucket>, d: DurationRecord, c: string, h: int, k: string)
    requires |day| == 24 && 0 <= h < 24
    ensures k in Names(Credit(day, d, c)[h].categories)
        <==> k in Names(day[h].categories) || (k == c && Touches(d, h))
  {
    if HourOf(d.time) == HourOf(EndOf(d)) {
      AddAtNames(day, HourOf(d.time), c, d.duration, h, k);
    } else {
      SpanningNames(day, d, c, h, k);
    }
  }

  /** The keys after the start hour and the full hours of a record spanning several hours. */
  lemma StartAndMiddleNames(day: seq<HourBucket>, d: DurationRecord, c: string, h: int, k: string)
    requires |day| == 24 && 0 <= h < 24
    requires HourOf(d.time) != HourOf(EndOf(d))
    ensures var startHour, endHour := HourOf(d.time), HourOf(EndOf(d));
      var first := AddAt(day, startHour, c, NextTopOfHour(d.time) - d.time);
      k in Names(FullHours(first, c, startHour + 1, endHour)[h].categories)
      <==> k in Names(day[h].categories) || (k == c && (h == startHour || startHour < h < endHour))
  {
    var startHour, endHour := HourOf(d.time), HourOf(EndOf(d));
    var first := AddAt(day, startHour, c, NextTopOfHour(d.time) - d.time);
    AddAtNames(day, startHour, c, NextTopOfHour(d.time) - d.time, h, k);
    FullHoursNames(first, c, startHour + 1, endHour, h, k);
  }

  lemma SpanningNames(day: seq<HourBucket>, d: DurationRecord, c: string, h: int, k: string)
    requires |day| == 24 && 0 <= h < 24
    requires HourOf(d.time) != HourOf(EndOf(d))
    ensures k in Names(Credit(day, d, c)[h].categories)
        <==> k in Names(day[h].categories) || (k == c && Touches(d, h))
  {
    var end := EndOf(d);
    var startHour, endHour := HourOf(d.time), HourOf(end);
    var first := AddAt(day, startHour, c, NextTopOfHour(d.time) - d.time);
    var middle := FullHours(first, c, startHour + 1, endHour);
    StartAndMiddleNames(day, d, c, h, k);
    OffTheHour(end);
    if end % SecondsPerHour != 0 {
      assert Credit(day, d, c) == AddAt(middle, endHour, c, end - StartOfHour(end));
      AddAtNames(middle, endHour, c, end - StartOfHour(end), h, k);
    } else {
      assert Credit(day, d, c) == middle;
    }
  }

  lemma CreditKeyed(day: seq<HourBucket>, d: DurationRecord, c: string)
    requires |day| == 24 && AllKeyed(day)
    ensures AllKeyed(Credit(day, d, c))
  {
    var start, end := d.time, EndOf(d);
    var startHour, endHour := HourOf(start), HourOf(end);
    if startHour == endHour {
      AddAtKeyed(day, startHour, c, d.duration);
    } else {
      var first := AddAt(day, startHour, c, NextTopOfHour(start) - start);
      AddAtKeyed(day, startHour, c, NextTopOfHour(start) - start);
      var middle := FullHours(first, c, startHour + 1, endHour);
      FullHoursKeyed(first, c, startHour + 1, endHour);
      if (MinuteOf(end) > 0 || SecondOf(end) > 0) && end - StartOfHour(end) > 0 {
        AddAtKeyed(middle, endHour, c, end - StartOfHour(end));
      }
    }
  }

  lemma CreditTotal(day: seq<HourBucket>, d: DurationRecord, c: string)
    requires |day| == 24
    ensures GrandTotal(Credit(day, d, c)) == GrandTotal(day) + RecordCredit(d)
  {
    var start, end := d.time, EndOf(d);
    var startHour, endHour := HourOf(start), HourOf(end);
    if startHour == endHour {
      AddAtSumFrom(day, startHour, c, d.duration, 0);
    } else {
      var first := AddAt(day, startHour, c, NextTopOfHour(start) - start);
      AddAtSumFrom(day, startHour, c, NextTopOfHour(start) - start, 0);
      var middle := FullHours(first, c, startHour + 1, endHour);
      FullHoursTotal(first, c, startHour + 1, endHour);
      OffTheHour(end);
      if end % SecondsPerHour != 0 {
        AddAtSumFrom(middle, endHour, c, end - StartOfHour(end), 0);
      }
    }
  }

  /** A record that starts and ends in the same hour of the day puts its whole
      duration into that hour under its key, and changes nothing else. */
  lemma SameHourCredit(day: seq<HourBucket>, d: DurationRecord, c: string, h: int, k: string)
    requires |day| == 24 && 0 <= h < 24
    requires HourOf(d.time) == HourOf(EndOf(d))
    ensures h != HourOf(d.time) ==> Credit(day, d, c)[h] == day[h]
    ensures Amount(Credit(day, d, c)[h].categories, k)
         == Amount(day[h].categories, k) + (if h == HourOf(d.time) && k == c then d.duration else 0)
  {
    CreditAmount(day, d, c, h, k);
  }

  /** A record spanning several hours: the start hour gets the seconds up to
      the next top of the hour, each hour strictly between gets 3600, the end
      hour gets the seconds past its top of the hour. */
  lemma SpanningCredit(day: seq<HourBucket>, d: DurationRecord, c: string)
    requires |day| == 24
    requires HourOf(d.time) != HourOf(EndOf(d))
    ensures Amount(Credit(day, d, c)[HourOf(d.time)].categories, c)
         == Amount(day[HourOf(d.time)].categories, c) + (NextTopOfHour(d.time) - d.time)
    ensures forall h :: HourOf(d.time) < h < HourOf(EndOf(d)) ==>
      Amount(Credit(day, d, c)[h].categories, c) == Amount(day[h].categories, c) + SecondsPerHour
    ensures Amount(Credit(day, d, c)[HourOf(EndOf(d))].categories, c)
         == Amount(day[HourOf(EndOf(d))].categories, c) + (EndOf(d) - StartOfHour(EndOf(d)))
  {
    CreditAmount(day, d, c, HourOf(d.time), c);
    CreditAmount(day, d, c, HourOf(EndOf(d)), c);
    forall h | HourOf(d.time) < h < HourOf(EndOf(d))
      ensures Amount(Credit(day, d, c)[h].categories, c) == Amount(day[h].categories, c) + SecondsPerHour
    {
      CreditAmount(day, d, c, h, c);
    }
  }

  /** A multi-hour record that ends exactly on the hour leaves the end bucket untouched. */
  lemma OnTheHourEnd(day: seq<HourBucket>, d: DurationRecord, c: string)
    requires |day| == 24
    requires HourOf(d.time) != HourOf(EndOf(d)) && EndOf(d) % SecondsPerHour == 0
    ensures Credit(day, d, c)[HourOf(EndOf(d))] == day[HourOf(EndOf(d))]
  {
    var start, end := d.time, EndOf(d);
    var startHour, endHour := HourOf(start), HourOf(end);
    var first := AddAt(day, startHour, c, NextTopOfHour(start) - start);
    FullHoursOutside(first, c, startHour + 1, endHour, endHour);
    OffTheHour(end);
  }

  /** A record crossing midnight (start hour after end hour) changes only its
      start and end buckets: the hours in between are not credited. */
  lemma MidnightCrossing(day: seq<HourBucket>, d: DurationRecord, c: string, h: int)
    requires |day| == 24 && 0 <= h < 24
    requires HourOf(d.time) > HourOf(EndOf(d))
    requires h != HourOf(d.time) && h != HourOf(EndOf(d))
    ensures Credit(day, d, c)[h] == day[h]
    ensures RecordCredit(d) == (NextTopOfHour(d.time) - d.time) + EndOf(d) % SecondsPerHour
  {
    var start := d.time;
    var first := AddAt(day, HourOf(start), c, NextTopOfHour(start) - start);
    FullHoursOutside(first, c, HourOf(start) + 1, HourOf(EndOf(d)), h);
  }

  /** A record of k whole days lands in the hour it starts in, and all of it
      is credited to that single bucket. */
  lemma WholeDaysInOneBucket(day: seq<HourBucket>, d: DurationRecord, c: string, days: int)
    requires |day| == 24 && 1 <= days && d.duration == SecondsPerDay * days
    ensures HourOf(EndOf(d)) == HourOf(d.time)
    ensures Amount(Credit(day, d, c)[HourOf(d.time)].categories, c)
         == Amount(day[HourOf(d.time)].categories, c) + d.duration
    ensures forall h :: 0 <= h < 24 && h != HourOf(d.time) ==> Credit(day, d, c)[h] == day[h]
  {
    assert EndOf(d) / SecondsPerHour == d.time / SecondsPerHour + 24 * days;
    CreditAmount(day, d, c, HourOf(d.time), c);
  }

  /** The seconds a record puts into the buckets are its duration less the
      hours dropped. */
  lemma RecordCreditDeficit(d: DurationRecord)
    ensures RecordCredit(d) == d.duration - SecondsPerHour * DroppedHours(d)
  {
  }

  /** A record that does not run backwards is never over-credited. */
  lemma NeverOverCredited(d: DurationRecord)
    requires 0 <= d.duration
    ensures DroppedHours(d) >= 0 && RecordCredit(d) <= d.duration
  {
    DayOfHour(d.time);
    DayOfHour(EndOf(d));
    RecordCreditDeficit(d);
  }

  /** Conservation: a record within one calendar day is credited exactly its duration. */
  lemma WithinOneDayConserved(d: DurationRecord)
    requires WithinOneDay(d)
    ensures DroppedHours(d) == 0 && RecordCredit(d) == d.duration
  {
    DayOfHour(d.time);
    DayOfHour(EndOf(d));
    RecordCreditDeficit(d);
  }

  // ---------------------------------------------------------------------
  // A list of records

  lemma {:induction false} AllocateIntoAmount(day: seq<HourBucket>, ds: seq<DurationRecord>, key: string, h: int, k: string)
    requires |day| == 24 && 0 <= h < 24
    ensures Amount(AllocateInto(day, ds, key)[h].categories, k)
         == Amount(day[h].categories, k) + Credited(ds, key, h, k)
    decreases |ds|
  {
    if ds != [] {
      var next := Credit(day, ds[0], Label(ds[0], key));
      CreditAmount(day, ds[0], Label(ds[0], key), h, k);
      AllocateIntoAmount(next, ds[1..], key, h, k);
    }
  }

  /** Bucket h holds, under key k, the shares for hour h of exactly the records labelled k. */
  lemma AllocateAmount(ds: seq<DurationRecord>, key: string, h: int, k: string)
    requires 0 <= h < 24
    ensures Amount(Allocate(ds, key)[h].categories, k) == Credited(ds, key, h, k)
  {
    AllocateIntoAmount(EmptyDay(), ds, key, h, k);
  }

  lemma {:induction false} AllocateIntoNames(day: seq<HourBucket>, ds: seq<DurationRecord>, key: string, h: int, k: string)
    requires |day| == 24 && 0 <= h < 24
    ensures k in Names(AllocateInto(day, ds, key)[h].categories)
        <==> k in Names(day[h].categories)
             || exists i :: 0 <= i < |ds| && Label(ds[i], key) == k && Touches(ds[i], h)
    decreases |ds|
  {
    if ds != [] {
      var next := Credit(day, ds[0], Label(ds[0], key));
      CreditNames(day, ds[0], Label(ds[0], key), h, k);
      AllocateIntoNames(next, ds[1..], key, h, k);
      if exists i :: 0 <= i < |ds| && Label(ds[i], key) == k && Touches(ds[i], h) {
        var i :| 0 <= i < |ds| && Label(ds[i], key) == k && Touches(ds[i], h);
        if i > 0 {
          assert ds[1..][i - 1] == ds[i];
        }
      }
    }
  }

  /** Bucket h has key k exactly when some record labelled k touches hour h;
      on empty input every bucket is empty. */
  lemma AllocateNames(ds: seq<DurationRecord>, key: string, h: int, k: string)
    requires 0 <= h < 24
    ensures k in Names(Allocate(ds, key)[h].categories)
        <==> exists i :: 0 <= i < |ds| && Label(ds[i], key) == k && Touches(ds[i], h)
    ensures ds == [] ==> Allocate(ds, key)[h].categories == []
  {
    AllocateIntoNames(EmptyDay(), ds, key, h, k);
  }

  lemma {:induction false} AllocateIntoKeyed(day: seq<HourBucket>, ds: seq<DurationRecord>, key: string)
    requires |day| == 24 && AllKeyed(day)
    ensures AllKeyed(AllocateInto(day, ds, key))
    decreases |ds|
  {
    if ds != [] {
      CreditKeyed(day, ds[0], Label(ds[0], key));
      AllocateIntoKeyed(Credit(day, ds[0], Label(ds[0], key)), ds[1..], key);
    }
  }

  /** Every bucket the allocator returns has distinct category keys. */
  lemma AllocateKeyed(ds: seq<DurationRecord>, key: string)
    ensures AllKeyed(Allocate(ds, key))
  {
    AllocateIntoKeyed(EmptyDay(), ds, key);
  }

  lemma EmptyDayTotal()
    ensures GrandTotal(EmptyDay()) == 0
  {
    EmptyDaySum(0);
  }

  lemma {:induction false} EmptyDaySum(lo: nat)
    ensures SumFrom(EmptyDay(), lo) == 0
    decreases 24 - lo
  {
    if lo < 24 {
      EmptyDaySum(lo + 1);
    }
  }

  lemma {:induction false} AllocateIntoTotal(day: seq<HourBucket>, ds: seq<DurationRecord>, key: string)
    requires |day| == 24
    ensures GrandTotal(AllocateInto(day, ds, key)) == GrandTotal(day) + SumCredits(ds)
    decreases |ds|
  {
    if ds != [] {
      CreditTotal(day, ds[0], Label(ds[0], key));
      AllocateIntoTotal(Credit(day, ds[0], Label(ds[0], key)), ds[1..], key);
    }
  }

  /** The buckets hold, in all, what the records are credited. */
  lemma AllocateTotal(ds: seq<DurationRecord>, key: string)
    ensures GrandTotal(Allocate(ds, key)) == SumCredits(ds)
  {
    EmptyDayTotal();
    AllocateIntoTotal(EmptyDay(), ds, key);
  }

  /** Allocating records that each stay within one calendar day adds exactly their durations. */
  lemma {:induction false} AllocateIntoExact(day: seq<HourBucket>, ds: seq<DurationRecord>, key: string)
    requires |day| == 24
    requires forall i :: 0 <= i < |ds| ==> WithinOneDay(ds[i])
    ensures GrandTotal(AllocateInto(day, ds, key)) == GrandTotal(day) + SumDurations(ds)
    decreases |ds|
  {
    if ds != [] {
      var c := Label(ds[0], key);
      CreditTotal(day, ds[0], c);
      WithinOneDayConserved(ds[0]);
      AllocateIntoExact(Credit(day, ds[0], c), ds[1..], key);
    }
  }

  /** The seconds lost by the buckets are 3600 for every dropped hour. */
  lemma {:induction false} CreditsDeficit(ds: seq<DurationRecord>)
    ensures SumCredits(ds) == SumDurations(ds) - SecondsPerHour * SumDropped(ds)
  {
    if ds != [] {
      RecordCreditDeficit(ds[0]);
      CreditsDeficit(ds[1..]);
    }
  }

  lemma {:induction false} DroppedNonNegative(ds: seq<DurationRecord>)
    requires forall i :: 0 <= i < |ds| ==> 0 <= ds[i].duration
    ensures 0 <= SumDropped(ds)
  {
    if ds != [] {
      NeverOverCredited(ds[0]);
      DroppedNonNegative(ds[1..]);
    }
  }

  /** The buckets hold the durations of the records less 3600 seconds for
      every hour dropped; when no record runs backwards they never hold more
      than the durations. */
  lemma AllocateDeficit(ds: seq<DurationRecord>, key: string)
    ensures GrandTotal(Allocate(ds, key)) == SumDurations(ds) - SecondsPerHour * SumDropped(ds)
    ensures (forall i :: 0 <= i < |ds| ==> 0 <= ds[i].duration) ==> GrandTotal(Allocate(ds, key)) <= SumDurations(ds)
  {
    AllocateTotal(ds, key);
    CreditsDeficit(ds);
    if forall i :: 0 <= i < |ds| ==> 0 <= ds[i].duration {
      DroppedNonNegative(ds);
    }
  }

  /** Conservation of seconds: when every record stays within one calendar
      day, the buckets hold exactly the sum of the durations. */
  lemma AllocateConservation(ds: seq<DurationRecord>, key: string)
    requires forall i :: 0 <= i < |ds| ==> WithinOneDay(ds[i])
    ensures GrandTotal(Allocate(ds, key)) == SumDurations(ds)
  {
    EmptyDayTotal();
    AllocateIntoExact(EmptyDay(), ds, key);
  }

  // ---------------------------------------------------------------------
  // processDurationsToHourly

  /** The seconds the records ds with key k start in hour h. */
  function Started(ds: seq<DurationRecord>, key: string, h: int, k: string): int {
    if ds == [] then 0
    else (if HourOf(ds[0].time) == h && Label(ds[0], key) == k then ds[0].duration else 0)
         + Started(ds[1..], key, h, k)
  }

  lemma {:induction false} ByStartIntoAmount(day: seq<HourBucket>, ds: seq<DurationRecord>, key: string, h: int, k: string)
    requires |day| == 24 && 0 <= h < 24
    ensures Amount(ByStartInto(day, ds, key)[h].categories, k) == Amount(day[h].categories, k) + Started(ds, key, h, k)
    decreases |ds|
  {
    if ds != [] {
      AddAtAmount(day, HourOf(ds[0].time), Label(ds[0], key), ds[0].duration, h, k);
      ByStartIntoAmount(AddAt(day, HourOf(ds[0].time), Label(ds[0], key), ds[0].duration), ds[1..], key, h, k);
    }
  }

  /** Each record's whole duration goes to the hour it starts in, under `d[key] || 'uncategorized'`. */
  lemma ByStartAmount(ds: seq<DurationRecord>, key: string, h: int, k: string)
    requires 0 <= h < 24
    ensures Amount(ByStart(ds, key)[h].categories, k) == Started(ds, key, h, k)
  {
    ByStartIntoAmount(EmptyDay(), ds, key, h, k);
  }

  lemma {:induction false} ByStartIntoNames(day: seq<HourBucket>, ds: seq<DurationRecord>, key: string, h: int, k: string)
    requires |day| == 24 && 0 <= h < 24
    ensures k in Names(ByStartInto(day, ds, key)[h].categories)
        <==> k in Names(day[h].categories)
             || exists i :: 0 <= i < |ds| && Label(ds[i], key) == k && HourOf(ds[i].time) == h
    decreases |ds|
  {
    if ds != [] {
      var next := AddAt(day, HourOf(ds[0].time), Label(ds[0], key), ds[0].duration);
      AddAtNames(day, HourOf(ds[0].time), Label(ds[0], key), ds[0].duration, h, k);
      ByStartIntoNames(next, ds[1..], key, h, k);
      if exists i :: 0 <= i < |ds| && Label(ds[i], key) == k && HourOf(ds[i].time) == h {
        var i :| 0 <= i < |ds| && Label(ds[i], key) == k && HourOf(ds[i].time) == h;
        if i > 0 {
          assert ds[1..][i - 1] == ds[i];
        }
      }
    }
  }

  /** Bucket h has key k exactly when some record labelled k starts in hour h;
      on empty input every bucket is empty. */
  lemma ByStartNames(ds: seq<DurationRecord>, key: string, h: int, k: string)
    requires 0 <= h < 24
    ensures k in Names(ByStart(ds, key)[h].categories)
        <==> exists i :: 0 <= i < |ds| && Label(ds[i], key) == k && HourOf(ds[i].time) == h
    ensures ds == [] ==> ByStart(ds, key)[h].categories == []
  {
    ByStartIntoNames(EmptyDay(), ds, key, h, k);
  }

  lemma {:induction false} ByStartIntoKeyed(day: seq<HourBucket>, ds: seq<DurationRecord>, key: string)
    requires |day| == 24 && AllKeyed(day)
    ensures AllKeyed(ByStartInto(day, ds, key))
    decreases |ds|
  {
    if ds != [] {
      AddAtKeyed(day, HourOf(ds[0].time), Label(ds[0], key), ds[0].duration);
      ByStartIntoKeyed(AddAt(day, HourOf(ds[0].time), Label(ds[0], key), ds[0].duration), ds[1..], key);
    }
  }

  /** Every bucket `processDurationsToHourly` returns has distinct category keys. */
  lemma ByStartKeyed(ds: seq<DurationRecord>, key: string)
    ensures AllKeyed(ByStart(ds, key))
  {
    ByStartIntoKeyed(EmptyDay(), ds, key);
  }

  lemma {:induction false} ByStartIntoTotal(day: seq<HourBucket>, ds: seq<DurationRecord>, key: string)
    requires |day| == 24
    ensures GrandTotal(ByStartInto(day, ds, key)) == GrandTotal(day) + SumDurations(ds)
    decreases |ds|
  {
    if ds != [] {
      AddAtSumFrom(day, HourOf(ds[0].time), Label(ds[0], key), ds[0].duration, 0);
      ByStartIntoTotal(AddAt(day, HourOf(ds[0].time), Label(ds[0], key), ds[0].duration), ds[1..], key);
    }
  }

  /** The grand total of `processDurationsToHourly` is the sum of the durations. */
  lemma ByStartTotal(ds: seq<DurationRecord>, key: string)
    ensures GrandTotal(ByStart(ds, key)) == SumDurations(ds)
  {
    EmptyDayTotal();
    ByStartIntoTotal(EmptyDay(), ds, key);
  }
}
