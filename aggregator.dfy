/** The aggregator: merging several users' hour buckets into one team set.
    `getTeamDurationsByHour` adds each user's 24 buckets into 24 fresh team
    buckets; the hourly part of `getTeamTotalStats` first seeds every
    category any user has with 0 in every hour of a template day, then adds
    the users' buckets. Both add bucket i of a user into team bucket i, and a
    user bucket with no team bucket at its index makes the addition throw a
    `TypeError` as soon as it has a category to add. */
module Aggregator {
  import opened Wrappers
  import opened Tallies
  import opened Hourly

  /** The team buckets after merging, and whether the merge threw. */
  datatype Merge = Merge(team: seq<HourBucket>, failed: bool)

  // ---------------------------------------------------------------------
  // The merge, as a specification on values

  /** `Object.entries(cats).forEach(([c, s]) => team[i].categories[c] += s)`. */
  function MergeHour(team: seq<HourBucket>, i: int, cats: Tally): (r: seq<HourBucket>)
    requires 0 <= i < |team|
    ensures |r| == |team| && forall h :: 0 <= h < |team| ==> r[h].hour == team[h].hour
  {
    team[i := HourBucket(team[i].hour, AddAll(team[i].categories, cats))]
  }

  /** `user.forEach((hourData, hourIndex) => ...)` from bucket i on: bucket i
      is added into team bucket i; the first non-empty bucket with no team
      bucket at its index stops the merge with an error. */
  function MergeUserFrom(team: seq<HourBucket>, user: seq<HourBucket>, i: nat): (r: Merge)
    ensures |r.team| == |team| && forall h :: 0 <= h < |team| ==> r.team[h].hour == team[h].hour
    decreases |user| - i
  {
    if i >= |user| then Merge(team, false)
    else if user[i].categories == [] then MergeUserFrom(team, user, i + 1)
    else if i >= |team| then Merge(team, true)
    else MergeUserFrom(MergeHour(team, i, user[i].categories), user, i + 1)
  }

  /** Merges the users in order; an error stops at the user that raised it. */
  function MergeAll(team: seq<HourBucket>, users: seq<seq<HourBucket>>): (r: Merge)
    ensures |r.team| == |team| && forall h :: 0 <= h < |team| ==> r.team[h].hour == team[h].hour
    decreases |users|
  {
    if users == [] then Merge(team, false)
    else
      var m := MergeUserFrom(team, users[0], 0);
      if m.failed then m else MergeAll(m.team, users[1..])
  }

  /** The result of the merge loop of `getTeamDurationsByHour`: the `catch`
      returns the team buckets as far as they were merged. */
  function TeamDurations(results: seq<seq<HourBucket>>): (r: seq<HourBucket>)
    ensures HoursInOrder(r)
  {
    MergeAll(EmptyDay(), results).team
  }

  /** User buckets at index n or later that hold a category, from index i on. */
  predicate OverflowsFrom(n: int, user: seq<HourBucket>, i: int) {
    exists j :: 0 <= j < |user| && i <= j && n <= j && user[j].categories != []
  }

  /** A user whose buckets cannot all be added into n team buckets. */
  predicate Overflows(n: int, user: seq<HourBucket>) {
    OverflowsFrom(n, user, 0)
  }

  /** The seconds the users hold under k in bucket h, a missing bucket or key counting 0. */
  function Column(users: seq<seq<HourBucket>>, h: int, k: string): int {
    if users == [] then 0
    else (if 0 <= h < |users[0]| then Amount(users[0][h].categories, k) else 0) + Column(users[1..], h, k)
  }

  /** Every key of every bucket of `user` is one of `ns`. */
  predicate KeysWithin(user: seq<HourBucket>, ns: seq<string>) {
    forall i, k :: 0 <= i < |user| && k in Names(user[i].categories) ==> k in ns
  }

  // ---------------------------------------------------------------------
  // The merge, in place on the team's array

  /** Adds the categories `cats` of one user bucket into team bucket i. */
  method MergeHourInto(a: array<HourBucket>, i: int, cats: Tally)
    requires 0 <= i < a.Length
    modifies a
    ensures a[..] == MergeHour(old(a[..]), i, cats)
  {
    ghost var before := a[..];
    for j := 0 to |cats|
      invariant a[..] == before[i := a[i]] && a[i].hour == before[i].hour
      invariant AddAll(a[i].categories, cats[j..]) == AddAll(before[i].categories, cats)
    {
      assert cats[j..][1..] == cats[j + 1..];
      a[i] := HourBucket(a[i].hour, Add(a[i].categories, cats[j].name, cats[j].seconds));
    }
    assert cats[|cats|..] == [];
  }

  /** Adds one user's buckets into the team, index by index; `failed` is the
      `TypeError` raised by a category in a bucket the team does not have. */
  method MergeUserInto(a: array<HourBucket>, user: seq<HourBucket>) returns (failed: bool)
    modifies a
    ensures Merge(a[..], failed) == MergeUserFrom(old(a[..]), user, 0)
  {
    for hourIndex := 0 to |user|
      invariant MergeUserFrom(a[..], user, hourIndex) == MergeUserFrom(old(a[..]), user, 0)
    {
      var cats := user[hourIndex].categories;
      if cats != [] {
        if hourIndex >= a.Length {
          return true;
        }
        MergeHourInto(a, hourIndex, cats);
      }
    }
    return false;
  }

  /** The merge loop of `getTeamDurationsByHour` over the users' results. */
  method TeamDurationsByHour(results: seq<seq<HourBucket>>) returns (team: seq<HourBucket>)
    ensures team == TeamDurations(results)
  {
    var a := new HourBucket[24](h => HourBucket(h, []));
    assert a[..] == EmptyDay();
    for u := 0 to |results|
      invariant MergeAll(a[..], results[u..]) == MergeAll(EmptyDay(), results)
    {
      assert results[u..][1..] == results[u + 1..];
      var userHourlyActivity := results[u];
      if |userHourlyActivity| > 0 {
        var failed := MergeUserInto(a, userHourlyActivity);
        if failed {
          return a[..];
        }
      }
    }
    team := a[..];
  }

  // ---------------------------------------------------------------------
  // getTeamTotalStats: the hourly merge

  /** A user's days, most recent first; only the hourly buckets matter here. */
  datatype DayStats = DayStats(hourly: Option<seq<HourBucket>>)

  /** The hourly buckets of each user's first day, for the users that have them. */
  function Latest(data: seq<seq<DayStats>>): seq<seq<HourBucket>> {
    if data == [] then []
    else if data[0] != [] && data[0][0].hourly.Some? then [data[0][0].hourly.value] + Latest(data[1..])
    else Latest(data[1..])
  }

  /** Adds the keys of t not yet in acc, in order (`allCategoryNames.add`). */
  function Gather(acc: seq<string>, t: Tally): seq<string>
    decreases |t|
  {
    if t == [] then acc else Gather(if t[0].name in acc then acc else acc + [t[0].name], t[1..])
  }

  function GatherDay(acc: seq<string>, day: seq<HourBucket>): seq<string>
    decreases |day|
  {
    if day == [] then acc else GatherDay(Gather(acc, day[0].categories), day[1..])
  }

  function GatherAll(acc: seq<string>, users: seq<seq<HourBucket>>): seq<string>
    decreases |users|
  {
    if users == [] then acc else GatherAll(GatherDay(acc, users[0]), users[1..])
  }

  /** `allCategoryNames`: every category of the users' buckets, in first-seen order. */
  function CategoryNames(users: seq<seq<HourBucket>>): seq<string> {
    GatherAll([], users)
  }

  /** `teamHourlyActivity` before the merge: the template's hours, each holding every name with 0. */
  function Seed(template: seq<HourBucket>, ns: seq<string>): (r: seq<HourBucket>)
    ensures |r| == |template|
    ensures forall h :: 0 <= h < |r| ==> r[h] == HourBucket(template[h].hour, Zeroes(ns))
  {
    seq(|template|, i requires 0 <= i < |template| => HourBucket(template[i].hour, Zeroes(ns)))
  }

  /** The `hourlyActivity` of `getTeamTotalStats(data)`: `None` when the first
      user's first day has no hourly buckets, an error when a user has a
      category in a bucket past the template's length. */
  function TeamHourly(data: seq<seq<DayStats>>): Result<Option<seq<HourBucket>>> {
    if data == [] || data[0] == [] || data[0][0].hourly.None? then Ok(None)
    else
      var latest := Latest(data);
      var m := MergeAll(Seed(data[0][0].hourly.value, CategoryNames(latest)), latest);
      if m.failed then Err("TypeError") else Ok(Some(m.team))
  }

  /** The hourly merge of `getTeamTotalStats`, on the team's array. */
  method TeamTotalHourly(data: seq<seq<DayStats>>) returns (r: Result<Option<seq<HourBucket>>>)
    ensures r == TeamHourly(data)
  {
    if |data| == 0 || |data[0]| == 0 || data[0][0].hourly.None? {
      return Ok(None);
    }
    var hourlyActivity := data[0][0].hourly.value;
    ghost var latest := Latest(data);

    var allCategoryNames: seq<string> := [];
    for u := 0 to |data|
      invariant GatherAll(allCategoryNames, Latest(data[u..])) == CategoryNames(latest)
    {
      assert data[u..][1..] == data[u + 1..];
      if |data[u]| > 0 && data[u][0].hourly.Some? {
        var day := data[u][0].hourly.value;
        for b := 0 to |day|
          invariant GatherAll(GatherDay(allCategoryNames, day[b..]), Latest(data[u + 1..])) == CategoryNames(latest)
        {
          assert day[b..][1..] == day[b + 1..];
          var cats := day[b].categories;
          for j := 0 to |cats|
            invariant GatherAll(GatherDay(Gather(allCategoryNames, cats[j..]), day[b + 1..]), Latest(data[u + 1..]))
                   == CategoryNames(latest)
          {
            assert cats[j..][1..] == cats[j + 1..];
            if cats[j].name !in allCategoryNames {
              allCategoryNames := allCategoryNames + [cats[j].name];
            }
          }
          assert cats[|cats|..] == [];
        }
        assert day[|day|..] == [];
      }
    }
    assert data[|data|..] == [];

    var a := new HourBucket[|hourlyActivity|](i requires 0 <= i < |hourlyActivity| =>
      HourBucket(hourlyActivity[i].hour, Zeroes(allCategoryNames)));
    assert a[..] == Seed(hourlyActivity, allCategoryNames);
    for u := 0 to |data|
      invariant MergeAll(a[..], Latest(data[u..])) == MergeAll(Seed(hourlyActivity, allCategoryNames), latest)
    {
      assert data[u..][1..] == data[u + 1..];
      if |data[u]| > 0 && data[u][0].hourly.Some? {
        var failed := MergeUserInto(a, data[u][0].hourly.value);
        if failed {
          return Err("TypeError");
        }
      }
    }
    assert data[|data|..] == [];
    r := Ok(Some(a[..]));
  }
}
