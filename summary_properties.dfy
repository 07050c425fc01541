/** What the summariser promises: each category total is the category's sum
    over the hours, the overall `total` is the sum of the category totals,
    raw records without a date are refused, and the busiest category and hour
    are the first to attain the maximum. */
module SummaryProperties {
  import opened Wrappers
  import opened Tallies
  import opened Clock
  import opened Hourly
  import opened Allocator
  import opened AllocationProperties
  import opened Summary

  /** The seconds the buckets hold under k, over all hours. */
  function HoursAmount(data: seq<HourBucket>, k: string): int {
    if data == [] then 0 else Amount(data[0].categories, k) + HoursAmount(data[1..], k)
  }

  lemma {:induction false} SumFromTail(d: seq<HourBucket>, lo: nat)
    requires d != [] && 1 <= lo
    ensures SumFrom(d, lo) == SumFrom(d[1..], lo - 1)
    decreases |d| - lo
  {
    if lo < |d| {
      SumFromTail(d, lo + 1);
      assert d[1..][lo - 1] == d[lo];
    }
  }

  lemma GrandTotalFirst(d: seq<HourBucket>)
    requires d != []
    ensures GrandTotal(d) == Total(d[0].categories) + GrandTotal(d[1..])
  {
    SumFromTail(d, 1);
  }

  // ---------------------------------------------------------------------
  // calculateTotalDurationsByCategory

  lemma {:induction false} TotalsIntoAmount(acc: Tally, data: seq<HourBucket>, k: string)
    ensures Amount(TotalsInto(acc, data), k) == Amount(acc, k) + HoursAmount(data, k)
    decreases |data|
  {
    if data != [] {
      AddAllAmount(acc, data[0].categories, k);
      TotalsIntoAmount(AddAll(acc, data[0].categories), data[1..], k);
    }
  }

  lemma {:induction false} TotalsIntoNames(acc: Tally, data: seq<HourBucket>, k: string)
    ensures k in Names(TotalsInto(acc, data))
        <==> (k in Names(acc) || exists h :: 0 <= h < |data| && k in Names(data[h].categories))
    decreases |data|
  {
    if data != [] {
      AddAllNames(acc, data[0].categories, k);
      TotalsIntoNames(AddAll(acc, data[0].categories), data[1..], k);
      if exists h :: 0 <= h < |data| && k in Names(data[h].categories) {
        var h :| 0 <= h < |data| && k in Names(data[h].categories);
        if h > 0 {
          assert data[1..][h - 1] == data[h];
        }
      }
      forall h | 0 <= h < |data[1..]| && k in Names(data[1..][h].categories)
        ensures exists g :: 0 <= g < |data| && k in Names(data[g].categories)
      {
        assert data[1..][h] == data[h + 1];
      }
    }
  }

  lemma {:induction false} TotalsIntoKeyed(acc: Tally, data: seq<HourBucket>)
    requires Keyed(acc)
    ensures Keyed(TotalsInto(acc, data))
    decreases |data|
  {
    if data != [] {
      AddAllKeyed(acc, data[0].categories);
      TotalsIntoKeyed(AddAll(acc, data[0].categories), data[1..]);
    }
  }

  lemma {:induction false} TotalsIntoTotal(acc: Tally, data: seq<HourBucket>)
    ensures Total(TotalsInto(acc, data)) == Total(acc) + GrandTotal(data)
    decreases |data|
  {
    if data != [] {
      AddAllTotal(acc, data[0].categories);
      TotalsIntoTotal(AddAll(acc, data[0].categories), data[1..]);
      GrandTotalFirst(data);
    }
  }

  /** `calculateTotalDurationsByCategory`: `{}` on no buckets; otherwise one
      key per category found in any bucket, holding its sum over the hours,
      so that the totals add up to all the seconds of the buckets. */
  lemma CategoryTotalsContents(data: seq<HourBucket>, k: string)
    ensures data == [] ==> CategoryTotals(data) == []
    ensures Keyed(CategoryTotals(data))
    ensures Amount(CategoryTotals(data), k) == HoursAmount(data, k)
    ensures k in Names(CategoryTotals(data)) <==> exists h :: 0 <= h < |data| && k in Names(data[h].categories)
    ensures Total(CategoryTotals(data)) == GrandTotal(data)
  {
    TotalsIntoKeyed([], data);
    TotalsIntoAmount([], data, k);
    TotalsIntoNames([], data, k);
    TotalsIntoTotal([], data);
  }

  /** Buckets without a category total to `{}`. */
  lemma CategoryTotalsOfEmptyBuckets(data: seq<HourBucket>)
    requires forall h :: 0 <= h < |data| ==> data[h].categories == []
    ensures CategoryTotals(data) == []
  {
    var totals := CategoryTotals(data);
    if totals != [] {
      CategoryTotalsContents(data, totals[0].name);
      assert false;
    }
  }

  // ---------------------------------------------------------------------
  // calculateCategoryTotalsWithOverall

  /** `{ total: 0 }` on an empty input; an error exactly for raw records without a date. */
  lemma WithOverallCases(data: Activity, date: Option<string>, sliceBy: string)
    ensures IsEmpty(data) ==> WithOverall(data, date, sliceBy) == Ok([Cell(TotalKey, 0)])
    ensures WithOverall(data, date, sliceBy).Err? <==> !IsEmpty(data) && data.Records? && Falsy(date)
  {
  }

  /** On an empty input the result is what totalling no buckets gives. */
  lemma EmptyActivity(data: Activity, key: string)
    requires IsEmpty(data)
    ensures CategoryTotals(HoursOf(data, key)) == []
  {
    if data.Records? {
      forall h | 0 <= h < 24 ensures Allocate(data.records, key)[h].categories == [] {
        AllocateNames(data.records, key, h, "");
      }
      CategoryTotalsOfEmptyBuckets(Allocate(data.records, key));
    }
  }

  /** The keys and values of a successful result: every category of the
      buckets with its sum over the hours, and `total` holding the sum of all
      seconds; a category literally named `total` is overwritten in place. */
  lemma WithOverallContents(data: Activity, date: Option<string>, sliceBy: string, k: string)
    requires WithOverall(data, date, sliceBy).Ok?
    ensures var t, hours := WithOverall(data, date, sliceBy).value, HoursOf(data, sliceBy);
      Keyed(t)
      && TotalKey in Names(t)
      && Amount(t, TotalKey) == GrandTotal(hours)
      && (k != TotalKey ==> Amount(t, k) == HoursAmount(hours, k))
      && (k != TotalKey ==> (k in Names(t) <==> exists h :: 0 <= h < |hours| && k in Names(hours[h].categories)))
  {
    var hours := HoursOf(data, sliceBy);
    var totals := CategoryTotals(hours);
    if IsEmpty(data) {
      EmptyActivity(data, sliceBy);
    }
    assert WithOverall(data, date, sliceBy).value == WithTotal(totals);
    CategoryTotalsContents(hours, k);
    CategoryTotalsContents(hours, TotalKey);
    PutAmount(totals, TotalKey, Total(totals), k);
    PutAmount(totals, TotalKey, Total(totals), TotalKey);
    PutNames(totals, TotalKey, Total(totals));
    PutKeyed(totals, TotalKey, Total(totals));
  }

  /** For raw records, `total` is what the allocator credits them, which is
      their summed duration when each stays within one calendar day, and the
      other keys are the `sliceBy` values of the records. */
  lemma WithOverallRecords(rs: seq<DurationRecord>, date: Option<string>, sliceBy: string, k: string)
    requires rs != [] && !Falsy(date)
    ensures var t := WithOverall(Records(rs), date, sliceBy).value;
      Amount(t, TotalKey) == SumCredits(rs)
      && ((forall i :: 0 <= i < |rs| ==> WithinOneDay(rs[i])) ==> Amount(t, TotalKey) == SumDurations(rs))
      && (k != TotalKey ==>
            (k in Names(t) <==> exists i, h :: 0 <= i < |rs| && 0 <= h < 24 && Label(rs[i], sliceBy) == k && Touches(rs[i], h)))
  {
    WithOverallContents(Records(rs), date, sliceBy, k);
    AllocateTotal(rs, sliceBy);
    if forall i :: 0 <= i < |rs| ==> WithinOneDay(rs[i]) {
      AllocateConservation(rs, sliceBy);
    }
    if k != TotalKey {
      RecordsNames(rs, sliceBy, k);
    }
  }

  /** A category of the allocated buckets is the label of a record touching that hour. */
  lemma RecordsNames(rs: seq<DurationRecord>, key: string, k: string)
    ensures var hours := Allocate(rs, key);
      (exists h :: 0 <= h < |hours| && k in Names(hours[h].categories))
      <==> (exists i, h :: 0 <= i < |rs| && 0 <= h < 24 && Label(rs[i], key) == k && Touches(rs[i], h))
  {
    var hours := Allocate(rs, key);
    if exists h :: 0 <= h < |hours| && k in Names(hours[h].categories) {
      var h :| 0 <= h < |hours| && k in Names(hours[h].categories);
      AllocateNames(rs, key, h, k);
      var i :| 0 <= i < |rs| && Label(rs[i], key) == k && Touches(rs[i], h);
    }
    if exists i, h :: 0 <= i < |rs| && 0 <= h < 24 && Label(rs[i], key) == k && Touches(rs[i], h) {
      var i, h :| 0 <= i < |rs| && 0 <= h < 24 && Label(rs[i], key) == k && Touches(rs[i], h);
      AllocateNames(rs, key, h, k);
      assert k in Names(hours[h].categories);
    }
  }

  // ---------------------------------------------------------------------
  // The sliceBy finding

  /** One record of project `frontcode` in category `Coding`, within one hour. */
  function Example(): DurationRecord {
    DurationRecord(0, 60, map[CategoryField := "Coding", "project" := "frontcode"])
  }

  /** The keys of the totals of one record are its label only. */
  lemma OneRecordTotals(d: DurationRecord, key: string)
    requires WithinOneDay(d) && 0 < d.duration
    ensures var t := WithOverall(Records([d]), Some("2023-07-07"), key).value;
      Label(d, key) in Names(t) && Amount(t, Label(d, key)) == d.duration
      && forall k :: k != Label(d, key) && k != TotalKey ==> k !in Names(t)
  {
    var c := Label(d, key);
    var hours := Allocate([d], key);
    var totals := CategoryTotals(hours);
    var t := WithOverall(Records([d]), Some("2023-07-07"), key).value;
    forall k | k != c && k != TotalKey ensures k !in Names(t) {
      WithOverallRecords([d], Some("2023-07-07"), key, k);
    }
    forall i | 0 <= i < |totals| ensures totals[i].name == c {
      var k := totals[i].name;
      assert k == Names(totals)[i];
      CategoryTotalsContents(hours, k);
      var h :| 0 <= h < |hours| && k in Names(hours[h].categories);
      AllocateNames([d], key, h, k);
    }
    OnlyName(totals, c);
    CategoryTotalsContents(hours, c);
    AllocateTotal([d], key);
    WithinOneDayConserved(d);
    assert Amount(totals, c) == d.duration;
    assert Touches(d, HourOf(d.time));
    AllocateNames([d], key, HourOf(d.time), c);
    WithOverallContents(Records([d]), Some("2023-07-07"), key, c);
  }

  /** As written, the function ignores `sliceBy`: on every input it is the
      corrected function keyed by `category`. */
  lemma WithOverallAsWrittenIsCategory(data: Activity, date: Option<string>, sliceBy: string)
    ensures WithOverallAsWritten(data, date, sliceBy) == WithOverall(data, date, CategoryField)
  {
  }

  /** As written, slicing the example by `project` still keys it by category:
      there is no `frontcode` key, only `Coding`. */
  lemma SliceByIgnored()
    ensures var t := WithOverallAsWritten(Records([Example()]), Some("2023-07-07"), "project");
      t.Ok? && "frontcode" !in Names(t.value) && Amount(t.value, "Coding") == 60
  {
    assert WithOverallAsWritten(Records([Example()]), Some("2023-07-07"), "project")
        == WithOverall(Records([Example()]), Some("2023-07-07"), CategoryField);
    assert WithinOneDay(Example());
    OneRecordTotals(Example(), CategoryField);
  }

  /** Keyed by `sliceBy`, the example is totalled under `frontcode`. */
  lemma SliceByHonoured()
    ensures var t := WithOverall(Records([Example()]), Some("2023-07-07"), "project");
      t.Ok? && "Coding" !in Names(t.value) && Amount(t.value, "frontcode") == 60
  {
    assert WithinOneDay(Example());
    OneRecordTotals(Example(), "project");
  }

  // ---------------------------------------------------------------------
  // getMostActiveInfo

  /** No entry of t has more than v seconds. */
  predicate AtMost(t: Tally, v: int) {
    forall j :: 0 <= j < |t| ==> t[j].seconds <= v
  }

  /** t[i] is the first entry attaining the maximum seconds of t. */
  predicate FirstMax(t: Tally, i: int) {
    0 <= i < |t|
    && (forall j :: 0 <= j < |t| ==> t[j].seconds <= t[i].seconds)
    && (forall j :: 0 <= j < i ==> t[j].seconds < t[i].seconds)
  }

  lemma AtMostCons(t: Tally, v: int)
    requires t != [] && t[0].seconds <= v && AtMost(t[1..], v)
    ensures AtMost(t, v)
  {
    forall j | 0 < j < |t| ensures t[j].seconds <= v {
      assert t[1..][j - 1] == t[j];
    }
  }

  lemma FirstMaxHead(t: Tally)
    requires t != [] && AtMost(t[1..], t[0].seconds)
    ensures FirstMax(t, 0)
  {
    AtMostCons(t, t[0].seconds);
  }

  lemma FirstMaxShift(t: Tally, i: int)
    requires t != [] && FirstMax(t[1..], i) && t[0].seconds < t[1..][i].seconds
    ensures FirstMax(t, i + 1)
  {
    var v := t[i + 1].seconds;
    assert t[1..][i] == t[i + 1];
    forall j | 0 < j < |t| ensures t[j].seconds <= v {
      assert t[1..][j - 1] == t[j];
    }
    forall j | 0 < j < i + 1 ensures t[j].seconds < v {
      assert t[1..][j - 1] == t[j];
    }
  }

  /** From a best entry b on, the loop keeps b when nothing beats it, and
      otherwise ends on the first entry attaining the maximum. */
  lemma {:induction false} BestFromSome(b: Cell, t: Tally)
    ensures var r := BestCategoryFrom(Some(b), t);
      r.Some? &&
      ((r.value == b && AtMost(t, b.seconds))
       || exists i :: FirstMax(t, i) && r.value == t[i] && b.seconds < t[i].seconds)
    decreases |t|
  {
    if t != [] {
      var next := if t[0].seconds > b.seconds then t[0] else b;
      BestFromSome(next, t[1..]);
      var r := BestCategoryFrom(Some(next), t[1..]);
      if r.value == next && AtMost(t[1..], next.seconds) {
        if t[0].seconds > b.seconds {
          FirstMaxHead(t);
        } else {
          AtMostCons(t, b.seconds);
        }
      } else {
        var i :| FirstMax(t[1..], i) && r.value == t[1..][i] && next.seconds < t[1..][i].seconds;
        FirstMaxShift(t, i);
      }
    }
  }

  /** The busiest category: none when there are no totals, otherwise the
      first total attaining the maximum. */
  lemma BestCategory(t: Tally)
    ensures var r := BestCategoryFrom(None, t);
      (r.None? <==> t == [])
      && (r.Some? ==> exists i :: FirstMax(t, i) && t[i] == r.value)
  {
    if t != [] {
      BestFromSome(t[0], t[1..]);
      var r := BestCategoryFrom(Some(t[0]), t[1..]);
      if r.value == t[0] && AtMost(t[1..], t[0].seconds) {
        FirstMaxHead(t);
      } else {
        var i :| FirstMax(t[1..], i) && r.value == t[1..][i] && t[0].seconds < t[1..][i].seconds;
        FirstMaxShift(t, i);
      }
    }
  }

  /** The seconds over all categories of bucket h. */
  function HourTotal(data: seq<HourBucket>, h: int): int
    requires 0 <= h < |data|
  {
    Total(data[h].categories)
  }

  lemma {:induction false} PeakFromSpec(m: HourPeak, data: seq<HourBucket>)
    ensures var r := PeakFrom(m, data);
      (r == m && forall j :: 0 <= j < |data| ==> HourTotal(data, j) <= m.seconds)
      || exists i :: 0 <= i < |data| && r == HourPeak(data[i].hour, HourTotal(data, i)) && m.seconds < r.seconds
           && (forall j :: 0 <= j < i ==> HourTotal(data, j) < r.seconds)
           && (forall j :: 0 <= j < |data| ==> HourTotal(data, j) <= r.seconds)
    decreases |data|
  {
    if data != [] {
      var current := HourPeak(data[0].hour, Total(data[0].categories));
      var next := if current.seconds > m.seconds then current else m;
      PeakFromSpec(next, data[1..]);
      var r := PeakFrom(next, data[1..]);
      var rest := data[1..];
      if r == next && forall j :: 0 <= j < |rest| ==> HourTotal(rest, j) <= next.seconds {
        forall j | 0 < j < |data| ensures HourTotal(data, j) <= next.seconds {
          assert rest[j - 1] == data[j];
          assert HourTotal(rest, j - 1) == HourTotal(data, j);
        }
      } else {
        var i :| 0 <= i < |rest| && r == HourPeak(rest[i].hour, HourTotal(rest, i)) && next.seconds < r.seconds
          && (forall j :: 0 <= j < i ==> HourTotal(rest, j) < r.seconds)
          && (forall j :: 0 <= j < |rest| ==> HourTotal(rest, j) <= r.seconds);
        assert data[i + 1] == rest[i];
        assert HourTotal(rest, i) == HourTotal(data, i + 1);
        forall j | 0 < j < i + 1 ensures HourTotal(data, j) < r.seconds {
          assert rest[j - 1] == data[j];
          assert HourTotal(rest, j - 1) == HourTotal(data, j);
        }
        forall j | 0 < j < |data| ensures HourTotal(data, j) <= r.seconds {
          assert rest[j - 1] == data[j];
          assert HourTotal(rest, j - 1) == HourTotal(data, j);
        }
      }
    }
  }

  /** `getMostActiveInfo`: null and null on no buckets; the busiest category
      is the first category total attaining the maximum, with its sum over the
      hours; the busiest hour is null exactly when no hour holds a positive
      total, and otherwise the first hour attaining the maximum total. */
  lemma MostActiveContents(data: seq<HourBucket>)
    ensures data == [] ==> MostActive(data) == ActiveInfo(None, None)
    ensures var c, t := MostActive(data).category, CategoryTotals(data);
      (c.None? <==> t == [])
      && (c.Some? ==>
            (c.value.seconds == HoursAmount(data, c.value.name)
             && exists i :: 0 <= i < |t| && t[i] == c.value
                  && (forall j :: 0 <= j < |t| ==> t[j].seconds <= c.value.seconds)
                  && (forall j :: 0 <= j < i ==> t[j].seconds < c.value.seconds)))
    ensures var p := MostActive(data).hour;
      (p.None? <==> forall j :: 0 <= j < |data| ==> HourTotal(data, j) <= 0)
      && (p.Some? ==>
            (0 < p.value.seconds
             && exists i :: 0 <= i < |data| && p.value == HourPeak(data[i].hour, HourTotal(data, i))
                  && (forall j :: 0 <= j < |data| ==> HourTotal(data, j) <= p.value.seconds)
                  && (forall j :: 0 <= j < i ==> HourTotal(data, j) < p.value.seconds)))
  {
    var t := CategoryTotals(data);
    if data != [] {
      BestCategory(t);
      var c := MostActive(data).category;
      if c.Some? {
        var i :| 0 <= i < |t| && t[i] == c.value;
        CategoryTotalsContents(data, c.value.name);
        AmountKeyed(t, i);
      }
      PeakFromSpec(HourPeak(-1, 0), data);
    } else {
      CategoryTotalsContents(data, "");
    }
  }
}
