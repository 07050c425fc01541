/** What the team merges promise: each team amount is the sum of the users'
    amounts, the team keys are the union of the users' keys, the merge
    throws exactly when a user has a category in a bucket the team lacks,
    and `getTeamTotalStats` shows every category in every hour. */
module AggregationProperties {
  import opened Wrappers
  import opened Tallies
  import opened Hourly
  import opened Aggregator

  /** No name occurs twice (the order of a JavaScript `Set`). */
  predicate Distinct(ns: seq<string>) {
    forall i, j :: 0 <= i < j < |ns| ==> ns[i] != ns[j]
  }

  // ---------------------------------------------------------------------
  // When the merge throws

  lemma {:induction false} MergeUserFromFails(team: seq<HourBucket>, user: seq<HourBucket>, i: nat)
    ensures MergeUserFrom(team, user, i).failed <==> OverflowsFrom(|team|, user, i)
    decreases |user| - i
  {
    if i < |user| {
      MergeUserFromFails(if user[i].categories == [] || i >= |team| then team else MergeHour(team, i, user[i].categories), user, i + 1);
      if OverflowsFrom(|team|, user, i) {
        var j :| 0 <= j < |user| && i <= j && |team| <= j && user[j].categories != [];
        if j != i {
          assert OverflowsFrom(|team|, user, i + 1);
        }
      }
    }
  }

  /** The merge throws exactly when some user has a category in a bucket
      past the team's length. */
  lemma {:induction false} MergeAllFails(team: seq<HourBucket>, users: seq<seq<HourBucket>>)
    ensures MergeAll(team, users).failed <==> exists u :: 0 <= u < |users| && Overflows(|team|, users[u])
    decreases |users|
  {
    if users != [] {
      var m := MergeUserFrom(team, users[0], 0);
      MergeUserFromFails(team, users[0], 0);
      if !m.failed {
        MergeAllFails(m.team, users[1..]);
        if exists u :: 0 <= u < |users| && Overflows(|team|, users[u]) {
          var u :| 0 <= u < |users| && Overflows(|team|, users[u]);
          assert users[1..][u - 1] == users[u];
        }
      }
    }
  }

  /** Once a user has thrown, the users after it are not merged. */
  lemma {:induction false} MergeAllStops(team: seq<HourBucket>, users: seq<seq<HourBucket>>, more: seq<seq<HourBucket>>)
    requires MergeAll(team, users).failed
    ensures MergeAll(team, users + more) == MergeAll(team, users)
    decreases |users|
  {
    assert users != [];
    assert (users + more)[0] == users[0];
    assert (users + more)[1..] == users[1..] + more;
    var m := MergeUserFrom(team, users[0], 0);
    if !m.failed {
      MergeAllStops(m.team, users[1..], more);
    }
  }

  // ---------------------------------------------------------------------
  // What the team holds

  lemma {:induction false} MergeUserFromAmount(team: seq<HourBucket>, user: seq<HourBucket>, i: nat, h: int, k: string)
    requires 0 <= h < |team|
    ensures !MergeUserFrom(team, user, i).failed ==>
      Amount(MergeUserFrom(team, user, i).team[h].categories, k)
        == Amount(team[h].categories, k) + (if i <= h < |user| then Amount(user[h].categories, k) else 0)
    decreases |user| - i
  {
    if i < |user| {
      if user[i].categories == [] {
        MergeUserFromAmount(team, user, i + 1, h, k);
      } else if i < |team| {
        var next := MergeHour(team, i, user[i].categories);
        AddAllAmount(team[i].categories, user[i].categories, k);
        MergeUserFromAmount(next, user, i + 1, h, k);
      }
    }
  }

  /** Without an error, bucket h of the team holds under k what it held
      plus what the users hold under k in their bucket h. */
  lemma {:induction false} MergeAllAmount(team: seq<HourBucket>, users: seq<seq<HourBucket>>, h: int, k: string)
    requires 0 <= h < |team|
    ensures !MergeAll(team, users).failed ==>
      Amount(MergeAll(team, users).team[h].categories, k) == Amount(team[h].categories, k) + Column(users, h, k)
    decreases |users|
  {
    if users != [] {
      var m := MergeUserFrom(team, users[0], 0);
      MergeUserFromAmount(team, users[0], 0, h, k);
      if !m.failed {
        MergeAllAmount(m.team, users[1..], h, k);
      }
    }
  }

  lemma {:induction false} MergeUserFromNames(team: seq<HourBucket>, user: seq<HourBucket>, i: nat, h: int, k: string)
    requires 0 <= h < |team|
    ensures !MergeUserFrom(team, user, i).failed ==>
      (k in Names(MergeUserFrom(team, user, i).team[h].categories)
       <==> k in Names(team[h].categories) || (i <= h < |user| && k in Names(user[h].categories)))
    decreases |user| - i
  {
    if i < |user| {
      if user[i].categories == [] {
        MergeUserFromNames(team, user, i + 1, h, k);
      } else if i < |team| {
        var next := MergeHour(team, i, user[i].categories);
        AddAllNames(team[i].categories, user[i].categories, k);
        MergeUserFromNames(next, user, i + 1, h, k);
      }
    }
  }

  /** Without an error, the keys of team bucket h are its old keys and the
      keys of the users' buckets h. */
  lemma {:induction false} MergeAllNames(team: seq<HourBucket>, users: seq<seq<HourBucket>>, h: int, k: string)
    requires 0 <= h < |team|
    ensures !MergeAll(team, users).failed ==>
      (k in Names(MergeAll(team, users).team[h].categories)
       <==> k in Names(team[h].categories)
            || exists u :: 0 <= u < |users| && h < |users[u]| && k in Names(users[u][h].categories))
    decreases |users|
  {
    if users != [] {
      var m := MergeUserFrom(team, users[0], 0);
      MergeUserFromNames(team, users[0], 0, h, k);
      if !m.failed {
        MergeAllNames(m.team, users[1..], h, k);
        if exists u :: 0 <= u < |users| && h < |users[u]| && k in Names(users[u][h].categories) {
          var u :| 0 <= u < |users| && h < |users[u]| && k in Names(users[u][h].categories);
          if u > 0 {
            assert users[1..][u - 1] == users[u];
          }
        }
        forall u | 0 <= u < |users[1..]| && h < |users[1..][u]| && k in Names(users[1..][u][h].categories)
          ensures exists v :: 0 <= v < |users| && h < |users[v]| && k in Names(users[v][h].categories)
        {
          assert users[1..][u] == users[u + 1];
        }
      }
    }
  }

  lemma {:induction false} MergeUserFromKeyed(team: seq<HourBucket>, user: seq<HourBucket>, i: nat)
    requires AllKeyed(team)
    ensures AllKeyed(MergeUserFrom(team, user, i).team)
    decreases |user| - i
  {
    if i < |user| {
      if user[i].categories == [] || i >= |team| {
        MergeUserFromKeyed(team, user, i + 1);
      } else {
        AddAllKeyed(team[i].categories, user[i].categories);
        MergeUserFromKeyed(MergeHour(team, i, user[i].categories), user, i + 1);
      }
    }
  }

  /** Merging never makes a key occur twice in a bucket. */
  lemma {:induction false} MergeAllKeyed(team: seq<HourBucket>, users: seq<seq<HourBucket>>)
    requires AllKeyed(team)
    ensures AllKeyed(MergeAll(team, users).team)
    decreases |users|
  {
    if users != [] {
      MergeUserFromKeyed(team, users[0], 0);
      var m := MergeUserFrom(team, users[0], 0);
      if !m.failed {
        MergeAllKeyed(m.team, users[1..]);
      }
    }
  }

  lemma {:induction false} MergeUserFromKeepsNames(team: seq<HourBucket>, user: seq<HourBucket>, i: nat, ns: seq<string>)
    requires forall h :: 0 <= h < |team| ==> Names(team[h].categories) == ns
    requires KeysWithin(user, ns)
    ensures forall h :: 0 <= h < |team| ==> Names(MergeUserFrom(team, user, i).team[h].categories) == ns
    decreases |user| - i
  {
    if i < |user| {
      if user[i].categories == [] || i >= |team| {
        MergeUserFromKeepsNames(team, user, i + 1, ns);
      } else {
        var cats := user[i].categories;
        forall j | 0 <= j < |cats| ensures cats[j].name in Names(team[i].categories) {
          assert cats[j].name == Names(cats)[j];
        }
        AddAllKeepsNames(team[i].categories, cats);
        MergeUserFromKeepsNames(MergeHour(team, i, cats), user, i + 1, ns);
      }
    }
  }

  /** When every bucket already holds the keys ns, in that order, and the
      users bring no other key, every bucket keeps exactly ns, thrown or not. */
  lemma {:induction false} MergeAllKeepsNames(team: seq<HourBucket>, users: seq<seq<HourBucket>>, ns: seq<string>)
    requires forall h :: 0 <= h < |team| ==> Names(team[h].categories) == ns
    requires forall u :: 0 <= u < |users| ==> KeysWithin(users[u], ns)
    ensures forall h :: 0 <= h < |team| ==> Names(MergeAll(team, users).team[h].categories) == ns
    decreases |users|
  {
    if users != [] {
      MergeUserFromKeepsNames(team, users[0], 0, ns);
      var m := MergeUserFrom(team, users[0], 0);
      if !m.failed {
        MergeAllKeepsNames(m.team, users[1..], ns);
      }
    }
  }

  // ---------------------------------------------------------------------
  // getTeamDurationsByHour

  /** Bucket h of the team holds, under every key, the sum over users of
      their bucket h, unless some user has a category past hour 23. */
  lemma TeamDurationsAmount(results: seq<seq<HourBucket>>, h: int, k: string)
    requires 0 <= h < 24
    ensures (forall u :: 0 <= u < |results| ==> !Overflows(24, results[u])) ==>
      Amount(TeamDurations(results)[h].categories, k) == Column(results, h, k)
  {
    MergeAllFails(EmptyDay(), results);
    MergeAllAmount(EmptyDay(), results, h, k);
  }

  /** The order of the team members does not change any team amount; it
      changes only the order in which new keys are appended. */
  lemma TeamDurationsCommute(a: seq<HourBucket>, b: seq<HourBucket>, h: int, k: string)
    requires 0 <= h < 24
    requires !Overflows(24, a) && !Overflows(24, b)
    ensures Amount(TeamDurations([a, b])[h].categories, k) == Amount(TeamDurations([b, a])[h].categories, k)
  {
    TeamDurationsAmount([a, b], h, k);
    TeamDurationsAmount([b, a], h, k);
    assert [a, b][1..] == [b] && [b, a][1..] == [a];
    assert [b][1..] == [] && [a][1..] == [];
  }

  /** The keys of team bucket h are those of the users' buckets h. */
  lemma TeamDurationsNames(results: seq<seq<HourBucket>>, h: int, k: string)
    requires 0 <= h < 24
    ensures (forall u :: 0 <= u < |results| ==> !Overflows(24, results[u])) ==>
      (k in Names(TeamDurations(results)[h].categories)
       <==> exists u :: 0 <= u < |results| && h < |results[u]| && k in Names(results[u][h].categories))
  {
    MergeAllFails(EmptyDay(), results);
    MergeAllNames(EmptyDay(), results, h, k);
  }

  /** No team bucket holds a key twice. */
  lemma TeamDurationsKeyed(results: seq<seq<HourBucket>>)
    ensures AllKeyed(TeamDurations(results))
  {
    MergeAllKeyed(EmptyDay(), results);
  }

  /** After a user with a category past hour 23, the `catch` returns the
      buckets as they were: later users change nothing. */
  lemma TeamDurationsStops(results: seq<seq<HourBucket>>, more: seq<seq<HourBucket>>)
    requires exists u :: 0 <= u < |results| && Overflows(24, results[u])
    ensures TeamDurations(results + more) == TeamDurations(results)
  {
    MergeAllFails(EmptyDay(), results);
    MergeAllStops(EmptyDay(), results, more);
  }

  // ---------------------------------------------------------------------
  // The category names of getTeamTotalStats

  lemma {:induction false} GatherMember(acc: seq<string>, t: Tally, k: string)
    ensures k in Gather(acc, t) <==> k in acc || k in Names(t)
    decreases |t|
  {
    if t != [] {
      GatherMember(if t[0].name in acc then acc else acc + [t[0].name], t[1..], k);
      assert Names(t) == [t[0].name] + Names(t[1..]);
    }
  }

  lemma {:induction false} GatherDistinct(acc: seq<string>, t: Tally)
    requires Distinct(acc)
    ensures Distinct(Gather(acc, t))
    decreases |t|
  {
    if t != [] {
      GatherDistinct(if t[0].name in acc then acc else acc + [t[0].name], t[1..]);
    }
  }

  lemma {:induction false} GatherDayMember(acc: seq<string>, day: seq<HourBucket>, k: string)
    ensures k in GatherDay(acc, day) <==> k in acc || exists i :: 0 <= i < |day| && k in Names(day[i].categories)
    decreases |day|
  {
    if day != [] {
      GatherMember(acc, day[0].categories, k);
      GatherDayMember(Gather(acc, day[0].categories), day[1..], k);
      if exists i :: 0 <= i < |day| && k in Names(day[i].categories) {
        var i :| 0 <= i < |day| && k in Names(day[i].categories);
        if i > 0 {
          assert day[1..][i - 1] == day[i];
        }
      }
      forall i | 0 <= i < |day[1..]| && k in Names(day[1..][i].categories)
        ensures exists j :: 0 <= j < |day| && k in Names(day[j].categories)
      {
        assert day[1..][i] == day[i + 1];
      }
    }
  }

  lemma {:induction false} GatherDayDistinct(acc: seq<string>, day: seq<HourBucket>)
    requires Distinct(acc)
    ensures Distinct(GatherDay(acc, day))
    decreases |day|
  {
    if day != [] {
      GatherDistinct(acc, day[0].categories);
      GatherDayDistinct(Gather(acc, day[0].categories), day[1..]);
    }
  }

  lemma {:induction false} GatherAllMember(acc: seq<string>, users: seq<seq<HourBucket>>, k: string)
    ensures k in GatherAll(acc, users)
        <==> (k in acc || exists u, i :: 0 <= u < |users| && 0 <= i < |users[u]| && k in Names(users[u][i].categories))
    decreases |users|
  {
    if users != [] {
      GatherDayMember(acc, users[0], k);
      GatherAllMember(GatherDay(acc, users[0]), users[1..], k);
      if exists u, i :: 0 <= u < |users| && 0 <= i < |users[u]| && k in Names(users[u][i].categories) {
        var u, i :| 0 <= u < |users| && 0 <= i < |users[u]| && k in Names(users[u][i].categories);
        if u > 0 {
          assert users[1..][u - 1] == users[u];
        }
      }
      forall u, i | 0 <= u < |users[1..]| && 0 <= i < |users[1..][u]| && k in Names(users[1..][u][i].categories)
        ensures exists v, j :: 0 <= v < |users| && 0 <= j < |users[v]| && k in Names(users[v][j].categories)
      {
        assert users[1..][u] == users[u + 1];
      }
    }
  }

  lemma {:induction false} GatherAllDistinct(acc: seq<string>, users: seq<seq<HourBucket>>)
    requires Distinct(acc)
    ensures Distinct(GatherAll(acc, users))
    decreases |users|
  {
    if users != [] {
      GatherDayDistinct(acc, users[0]);
      GatherAllDistinct(GatherDay(acc, users[0]), users[1..]);
    }
  }

  /** `allCategoryNames` holds each category of the users' buckets once. */
  lemma CategoryNamesExact(users: seq<seq<HourBucket>>, k: string)
    ensures Distinct(CategoryNames(users))
    ensures k in CategoryNames(users)
        <==> exists u, i :: 0 <= u < |users| && 0 <= i < |users[u]| && k in Names(users[u][i].categories)
  {
    GatherAllDistinct([], users);
    GatherAllMember([], users, k);
  }

  lemma CategoryNamesCover(users: seq<seq<HourBucket>>)
    ensures forall u :: 0 <= u < |users| ==> KeysWithin(users[u], CategoryNames(users))
  {
    forall u, i, k | 0 <= u < |users| && 0 <= i < |users[u]| && k in Names(users[u][i].categories)
      ensures k in CategoryNames(users)
    {
      GatherAllMember([], users, k);
    }
  }

  lemma ZeroesKeyed(ns: seq<string>)
    requires Distinct(ns)
    ensures Keyed(Zeroes(ns))
  {
    var z := Zeroes(ns);
    forall i, j | 0 <= i < j < |z| ensures z[i].name != z[j].name {
      assert z[i].name == Names(z)[i] && z[j].name == Names(z)[j];
    }
  }

  // ---------------------------------------------------------------------
  // getTeamTotalStats: the hourly merge

  /** No hourly buckets come back exactly when the first user's first day has none. */
  lemma TeamHourlyNone(data: seq<seq<DayStats>>)
    ensures TeamHourly(data) == Ok(None)
        <==> data == [] || data[0] == [] || data[0][0].hourly.None?
  {
  }

  /** With a template day, the merge throws exactly when some user's first
      day has a category in a bucket past the template's length. */
  lemma TeamHourlyFails(data: seq<seq<DayStats>>)
    requires data != [] && data[0] != [] && data[0][0].hourly.Some?
    ensures TeamHourly(data).Err?
        <==> exists u :: 0 <= u < |Latest(data)| && Overflows(|data[0][0].hourly.value|, Latest(data)[u])
  {
    var latest := Latest(data);
    var seed := Seed(data[0][0].hourly.value, CategoryNames(latest));
    assert |seed| == |data[0][0].hourly.value|;
    var n := |data[0][0].hourly.value|;
    MergeAllFails(seed, latest);
    assert TeamHourly(data).Err? <==> MergeAll(seed, latest).failed;
    if MergeAll(seed, latest).failed {
      var u :| 0 <= u < |latest| && Overflows(|seed|, latest[u]);
      assert Overflows(n, latest[u]);
      assert TeamHourly(data).Err?;
      assert exists v :: 0 <= v < |Latest(data)| && Overflows(n, Latest(data)[v]);
    } else {
      forall u | 0 <= u < |latest| ensures !Overflows(n, latest[u]) {
        assert !Overflows(|seed|, latest[u]);
      }
    }
  }

  /** The team's buckets are the template's hours; each holds every category
      of the union, in first-seen order, with no key twice; under each key it
      holds the sum over users of their bucket at that index. */
  lemma TeamHourlyContents(data: seq<seq<DayStats>>, h: int, k: string)
    requires TeamHourly(data).Ok? && TeamHourly(data).value.Some?
    ensures var template, team := data[0][0].hourly.value, TeamHourly(data).value.value;
      |team| == |template|
      && (forall i :: 0 <= i < |team| ==> team[i].hour == template[i].hour)
      && (forall i :: 0 <= i < |team| ==> Names(team[i].categories) == CategoryNames(Latest(data)))
      && AllKeyed(team)
      && (0 <= h < |team| ==> Amount(team[h].categories, k) == Column(Latest(data), h, k))
  {
    var latest := Latest(data);
    var template := data[0][0].hourly.value;
    var ns := CategoryNames(latest);
    var seed := Seed(template, ns);
    CategoryNamesCover(latest);
    MergeAllKeepsNames(seed, latest, ns);
    CategoryNamesExact(latest, k);
    ZeroesKeyed(ns);
    MergeAllKeyed(seed, latest);
    if 0 <= h < |seed| {
      MergeAllAmount(seed, latest, h, k);
      AmountZeroes(ns, k);
    }
  }
}
