/** `mergeStats` of `getTeamTotalStats`: merges the per-day lists of
    `{ name, seconds, percent }` (languages, editors, projects, ...) into one
    list with one entry per name, recomputes every percentage against the
    new total, and sorts by seconds, largest first. */
module Stats {
  import opened Tallies

  /** One entry of a statistics list; the other fields of the source's
      records are copied along untouched and are not modelled. */
  datatype Stat = Stat(name: string, seconds: int, percent: int)

  // ---------------------------------------------------------------------
  // Specification

  /** `allStats.flat()`. */
  function Flatten(all: seq<seq<Stat>>): seq<Stat> {
    if all == [] then [] else all[0] + Flatten(all[1..])
  }

  /** The name and seconds of each entry, as tally cells. */
  function Cells(s: seq<Stat>): (t: Tally)
    ensures |t| == |s| && forall i :: 0 <= i < |s| ==> t[i] == Cell(s[i].name, s[i].seconds)
  {
    if s == [] then [] else [Cell(s[0].name, s[0].seconds)] + Cells(s[1..])
  }

  /** `Math.round(x)`: the nearest integer, halves rounded up. */
  function Round(x: real): int {
    (x + 0.5).Floor
  }

  /** `total ? Math.round((seconds / total) * 100) : 0`. */
  function Percent(seconds: int, total: int): int {
    if total == 0 then 0 else Round(seconds as real / total as real * 100.0)
  }

  /** `Object.values(merged).map((stat) => ({ ...stat, percent }))`. */
  function WithPercents(t: Tally, total: int): (r: seq<Stat>)
    ensures |r| == |t|
    ensures forall i :: 0 <= i < |t| ==> r[i] == Stat(t[i].name, t[i].seconds, Percent(t[i].seconds, total))
  {
    if t == [] then [] else [Stat(t[0].name, t[0].seconds, Percent(t[0].seconds, total))] + WithPercents(t[1..], total)
  }

  /** Puts x in front of the first entry with no more seconds than x. */
  function Insert(x: Stat, s: seq<Stat>): seq<Stat> {
    if s == [] || x.seconds >= s[0].seconds then [x] + s else [s[0]] + Insert(x, s[1..])
  }

  /** `.sort((a, b) => b.seconds - a.seconds)`: a stable sort, largest first. */
  function SortBySeconds(s: seq<Stat>): seq<Stat> {
    if s == [] then [] else Insert(s[0], SortBySeconds(s[1..]))
  }

  /** The `merged` dictionary: the entries added by name in order. */
  function Merged(all: seq<seq<Stat>>): Tally {
    AddAll([], Cells(Flatten(all)))
  }

  /** The result of `mergeStats(allStats)`. */
  function MergedStats(all: seq<seq<Stat>>): seq<Stat> {
    var merged := Merged(all);
    SortBySeconds(WithPercents(merged, Total(merged)))
  }

  /** `mergeStats(allStats)`, building `merged` in place. */
  method MergeStats(allStats: seq<seq<Stat>>) returns (r: seq<Stat>)
    ensures r == MergedStats(allStats)
  {
    var flat := Flatten(allStats);
    ghost var cells := Cells(flat);
    var merged: Tally := [];
    for i := 0 to |flat|
      invariant AddAll(merged, cells[i..]) == Merged(allStats)
    {
      assert cells[i..][1..] == cells[i + 1..];
      var stat := flat[i];
      merged := Add(merged, stat.name, stat.seconds);
    }
    assert cells[|flat|..] == [];
    var total := Total(merged);
    r := SortBySeconds(WithPercents(merged, total));
  }

  // ---------------------------------------------------------------------
  // Sorting

  predicate SortedBySeconds(s: seq<Stat>) {
    forall i, j :: 0 <= i < j < |s| ==> s[i].seconds >= s[j].seconds
  }

  /** The entries of s with exactly v seconds, in order. */
  function WithSeconds(s: seq<Stat>, v: int): seq<Stat> {
    if s == [] then [] else (if s[0].seconds == v then [s[0]] else []) + WithSeconds(s[1..], v)
  }

  lemma {:induction false} InsertMultiset(x: Stat, s: seq<Stat>)
    ensures multiset(Insert(x, s)) == multiset(s) + multiset{x}
  {
    if s != [] && x.seconds < s[0].seconds {
      InsertMultiset(x, s[1..]);
      assert s == [s[0]] + s[1..];
    }
  }

  /** Every entry of Insert(x, s) is x or an entry of s. */
  lemma InsertMember(x: Stat, s: seq<Stat>, y: Stat)
    requires y in Insert(x, s)
    ensures y == x || y in s
  {
    InsertMultiset(x, s);
    assert y in multiset(Insert(x, s));
  }

  lemma {:induction false} InsertSorted(x: Stat, s: seq<Stat>)
    requires SortedBySeconds(s)
    ensures SortedBySeconds(Insert(x, s))
  {
    if s != [] && x.seconds < s[0].seconds {
      InsertSorted(x, s[1..]);
      var r := Insert(x, s);
      assert r == [s[0]] + Insert(x, s[1..]);
      forall i, j | 0 <= i < j < |r| ensures r[i].seconds >= r[j].seconds {
        if i == 0 {
          assert r[j] in Insert(x, s[1..]);
          InsertMember(x, s[1..], r[j]);
        }
      }
    }
  }

  lemma WithSecondsCons(y: Stat, t: seq<Stat>, v: int)
    ensures WithSeconds([y] + t, v) == (if y.seconds == v then [y] else []) + WithSeconds(t, v)
  {
    assert ([y] + t)[1..] == t;
  }

  lemma {:induction false} InsertStable(x: Stat, s: seq<Stat>, v: int)
    requires SortedBySeconds(s)
    ensures WithSeconds(Insert(x, s), v) == (if x.seconds == v then [x] else []) + WithSeconds(s, v)
  {
    if s != [] && x.seconds < s[0].seconds {
      InsertStable(x, s[1..], v);
      assert Insert(x, s) == [s[0]] + Insert(x, s[1..]);
      WithSecondsCons(s[0], Insert(x, s[1..]), v);
      WithSecondsCons(s[0], s[1..], v);
      assert s == [s[0]] + s[1..];
    } else if s != [] {
      assert Insert(x, s) == [x] + s;
      WithSecondsCons(x, s, v);
    }
  }

  lemma {:induction false} SortMultiset(s: seq<Stat>)
    ensures multiset(SortBySeconds(s)) == multiset(s)
  {
    if s != [] {
      SortMultiset(s[1..]);
      InsertMultiset(s[0], SortBySeconds(s[1..]));
      assert s == [s[0]] + s[1..];
    }
  }

  lemma {:induction false} SortSorted(s: seq<Stat>)
    ensures SortedBySeconds(SortBySeconds(s))
  {
    if s != [] {
      SortSorted(s[1..]);
      InsertSorted(s[0], SortBySeconds(s[1..]));
    }
  }

  lemma {:induction false} SortStable(s: seq<Stat>, v: int)
    ensures WithSeconds(SortBySeconds(s), v) == WithSeconds(s, v)
  {
    if s != [] {
      SortStable(s[1..], v);
      SortSorted(s[1..]);
      InsertStable(s[0], SortBySeconds(s[1..]), v);
      WithSecondsCons(s[0], s[1..], v);
      assert s == [s[0]] + s[1..];
    }
  }

  /** The sort returns its input's entries, largest seconds first, entries
      with equal seconds in their original order. */
  lemma SortContents(s: seq<Stat>)
    ensures multiset(SortBySeconds(s)) == multiset(s)
    ensures SortedBySeconds(SortBySeconds(s))
    ensures forall v :: WithSeconds(SortBySeconds(s), v) == WithSeconds(s, v)
  {
    SortMultiset(s);
    SortSorted(s);
    forall v ensures WithSeconds(SortBySeconds(s), v) == WithSeconds(s, v) {
      SortStable(s, v);
    }
  }

  // ---------------------------------------------------------------------
  // Names

  /** No name occurs twice. */
  predicate NamesDistinct(s: seq<Stat>) {
    forall i, j :: 0 <= i < j < |s| ==> s[i].name != s[j].name
  }

  lemma {:induction false} InsertDistinct(x: Stat, s: seq<Stat>)
    requires NamesDistinct(s)
    requires forall y :: y in s ==> y.name != x.name
    ensures NamesDistinct(Insert(x, s))
  {
    if s != [] && x.seconds < s[0].seconds {
      InsertDistinct(x, s[1..]);
      var r := Insert(x, s);
      assert r == [s[0]] + Insert(x, s[1..]);
      forall i, j | 0 <= i < j < |r| ensures r[i].name != r[j].name {
        if i == 0 {
          assert r[j] in Insert(x, s[1..]);
          InsertMember(x, s[1..], r[j]);
          if r[j] != x {
            var k :| 0 <= k < |s[1..]| && s[1..][k] == r[j];
            assert s[k + 1] == r[j];
          }
        }
      }
    } else {
      forall i, j | 0 <= i < j < |[x] + s| ensures ([x] + s)[i].name != ([x] + s)[j].name {
        if i == 0 {
          assert s[j - 1] in s;
        }
      }
    }
  }

  lemma {:induction false} SortDistinct(s: seq<Stat>)
    requires NamesDistinct(s)
    ensures NamesDistinct(SortBySeconds(s))
  {
    if s != [] {
      var rest := SortBySeconds(s[1..]);
      SortDistinct(s[1..]);
      SortContents(s[1..]);
      forall y | y in rest ensures y.name != s[0].name {
        assert y in multiset(rest);
        var k :| 0 <= k < |s[1..]| && s[1..][k] == y;
        assert s[k + 1] == y;
      }
      InsertDistinct(s[0], rest);
    }
  }

  // ---------------------------------------------------------------------
  // Percentages

  /** `Math.round(x)` is within one half of x. */
  lemma RoundNearest(x: real)
    ensures Round(x) as real - 0.5 <= x < Round(x) as real + 0.5
  {
  }

  /** A part of a positive total gets a percentage between 0 and 100. */
  lemma PercentBounds(seconds: int, total: int)
    requires 0 <= seconds <= total
    ensures 0 <= Percent(seconds, total) <= 100
    ensures 0 < seconds == total ==> Percent(seconds, total) == 100
  {
    if total != 0 {
      var q := seconds as real / total as real;
      assert Percent(seconds, total) == Round(q * 100.0);
      assert q * total as real == seconds as real;
      assert 0.0 <= q <= 1.0;
      assert 0.5 <= q * 100.0 + 0.5 <= 100.5;
      if seconds == total {
        assert q == 1.0;
      }
    }
  }

  // ---------------------------------------------------------------------
  // mergeStats

  /** The seconds of the entries of s named k. */
  function SecondsNamed(s: seq<Stat>, k: string): int {
    Amount(Cells(s), k)
  }

  /** The seconds of all entries of s. */
  function AllSeconds(s: seq<Stat>): int {
    Total(Cells(s))
  }

  /** The merged result is sorted and has distinct names. */
  lemma MergedSortedDistinct(all: seq<seq<Stat>>)
    ensures SortedBySeconds(MergedStats(all)) && NamesDistinct(MergedStats(all))
  {
    var m := Merged(all);
    var w := WithPercents(m, Total(m));
    AddAllKeyed([], Cells(Flatten(all)));
    SortContents(w);
    forall i, j | 0 <= i < j < |w| ensures w[i].name != w[j].name {
      assert w[i].name == m[i].name && w[j].name == m[j].name;
    }
    SortDistinct(w);
  }

  /** Each merged entry carries its name's summed seconds and its percentage of all seconds. */
  lemma MergedEntry(all: seq<seq<Stat>>, i: int)
    requires 0 <= i < |MergedStats(all)|
    ensures var r, flat := MergedStats(all), Flatten(all);
      r[i].seconds == SecondsNamed(flat, r[i].name)
      && r[i].percent == Percent(r[i].seconds, AllSeconds(flat))
  {
    var cells := Cells(Flatten(all));
    var m := Merged(all);
    var w := WithPercents(m, Total(m));
    var r := MergedStats(all);
    AddAllKeyed([], cells);
    AddAllTotal([], cells);
    SortContents(w);
    assert r[i] in multiset(w);
    var j :| 0 <= j < |w| && w[j] == r[i];
    AmountKeyed(m, j);
    AddAllAmount([], cells, m[j].name);
  }

  /** Every name of the merged result comes from an input entry. */
  lemma MergedNamesFrom(all: seq<seq<Stat>>, i: int)
    requires 0 <= i < |MergedStats(all)|
    ensures exists j :: 0 <= j < |Flatten(all)| && Flatten(all)[j].name == MergedStats(all)[i].name
  {
    var flat := Flatten(all);
    var cells := Cells(flat);
    var m := Merged(all);
    var w := WithPercents(m, Total(m));
    var r := MergedStats(all);
    var k := r[i].name;
    SortContents(w);
    AddAllNames([], cells, k);
    assert r[i] in multiset(w);
    var j :| 0 <= j < |w| && w[j] == r[i];
    assert Names(m)[j] == k;
    var c :| 0 <= c < |cells| && Names(cells)[c] == k;
    assert flat[c].name == k;
  }

  /** Every name of an input entry is in the merged result. */
  lemma MergedNamesTo(all: seq<seq<Stat>>, j: int)
    requires 0 <= j < |Flatten(all)|
    ensures exists i :: 0 <= i < |MergedStats(all)| && MergedStats(all)[i].name == Flatten(all)[j].name
  {
    var flat := Flatten(all);
    var cells := Cells(flat);
    var m := Merged(all);
    var w := WithPercents(m, Total(m));
    var r := MergedStats(all);
    var k := flat[j].name;
    SortContents(w);
    AddAllNames([], cells, k);
    assert Names(cells)[j] == k;
    var a :| 0 <= a < |m| && Names(m)[a] == k;
    assert w[a] in multiset(r);
    var i :| 0 <= i < |r| && r[i] == w[a];
  }

  /** A name is in the merged result iff some input entry has it. */
  lemma MergedNames(all: seq<seq<Stat>>, k: string)
    ensures var r, flat := MergedStats(all), Flatten(all);
      (exists i :: 0 <= i < |r| && r[i].name == k) <==> (exists j :: 0 <= j < |flat| && flat[j].name == k)
  {
    var r, flat := MergedStats(all), Flatten(all);
    if exists i :: 0 <= i < |r| && r[i].name == k {
      var i :| 0 <= i < |r| && r[i].name == k;
      MergedNamesFrom(all, i);
    }
    if exists j :: 0 <= j < |flat| && flat[j].name == k {
      var j :| 0 <= j < |flat| && flat[j].name == k;
      MergedNamesTo(all, j);
    }
  }

  /** What `mergeStats(allStats)` returns: one entry per name of the input,
      sorted by seconds, largest first; each entry's seconds are the sum of
      its name's inputs and its percentage is those seconds rounded against
      the sum of all inputs. */
  lemma MergedStatsContents(all: seq<seq<Stat>>, k: string)
    ensures var r, flat := MergedStats(all), Flatten(all);
      SortedBySeconds(r)
      && NamesDistinct(r)
      && ((exists i :: 0 <= i < |r| && r[i].name == k) <==> (exists j :: 0 <= j < |flat| && flat[j].name == k))
      && (forall i :: 0 <= i < |r| ==> r[i].seconds == SecondsNamed(flat, r[i].name))
      && (forall i :: 0 <= i < |r| ==> r[i].percent == Percent(r[i].seconds, AllSeconds(flat)))
  {
    MergedSortedDistinct(all);
    MergedNames(all, k);
    forall i | 0 <= i < |MergedStats(all)| {
      MergedEntry(all, i);
    }
  }

  /** The sort is stable: entries with equal seconds keep their order in
      `merged`, to which `Add` appends each name when it first meets it. */
  lemma MergedStatsTies(all: seq<seq<Stat>>, v: int)
    ensures var merged := Merged(all);
      WithSeconds(MergedStats(all), v) == WithSeconds(WithPercents(merged, Total(merged)), v)
  {
    var merged := Merged(all);
    SortStable(WithPercents(merged, Total(merged)), v);
  }

  /** With no negative input, every percentage lies between 0 and 100. */
  lemma MergedStatsPercents(all: seq<seq<Stat>>)
    requires NonNegative(Cells(Flatten(all)))
    ensures forall i :: 0 <= i < |MergedStats(all)| ==> 0 <= MergedStats(all)[i].percent <= 100
  {
    var flat := Flatten(all);
    var cells := Cells(flat);
    var m := Merged(all);
    var w := WithPercents(m, Total(m));
    var r := MergedStats(all);
    SortContents(w);
    AddAllKeyed([], cells);
    AddAllTotal([], cells);
    forall i | 0 <= i < |r| ensures 0 <= r[i].percent <= 100 {
      assert r[i] in multiset(w);
      var j :| 0 <= j < |w| && w[j] == r[i];
      forall a | 0 <= a < |m| ensures 0 <= m[a].seconds {
        AmountKeyed(m, a);
        AddAllAmount([], cells, m[a].name);
        AmountNonNegative(cells, m[a].name);
      }
      CellWithinTotal(m, j);
      PercentBounds(m[j].seconds, Total(m));
    }
  }
}
