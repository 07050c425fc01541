/** A tally is the `{ [category]: seconds }` object every stage of the pipeline
    accumulates into. It is modelled as a list of cells in key insertion order,
    which is the order in which `Object.entries` and `Object.values` visit a
    JavaScript object whose keys are not array indices. Every tally the model
    builds is `Keyed`: a name occurs at most once. */
module Tallies {

  datatype Cell = Cell(name: string, seconds: int)

  type Tally = seq<Cell>

  /** The keys of a tally, in insertion order (`Object.keys`). */
  function Names(t: Tally): (ns: seq<string>)
    ensures |ns| == |t|
    ensures forall i :: 0 <= i < |t| ==> ns[i] == t[i].name
  {
    if t == [] then [] else [t[0].name] + Names(t[1..])
  }

  /** No key occurs twice, as in any JavaScript object. */
  predicate Keyed(t: Tally) {
    forall i, j :: 0 <= i < j < |t| ==> t[i].name != t[j].name
  }

  /** The seconds recorded under `k`, counting an absent key as 0. On a
      keyed tally this is the lookup `t[k] || 0`. */
  function Amount(t: Tally, k: string): int {
    if t == [] then 0
    else (if t[0].name == k then t[0].seconds else 0) + Amount(t[1..], k)
  }

  /** The sum of all values (`Object.values(t).reduce((s, v) => s + v, 0)`). */
  function Total(t: Tally): int {
    if t == [] then 0 else t[0].seconds + Total(t[1..])
  }

  /** The accumulation idiom `if (!t[k]) t[k] = 0; t[k] += v;`: an existing
      key is updated where it stands, a new key is appended. */
  function Add(t: Tally, k: string, v: int): Tally {
    if t == [] then [Cell(k, v)]
    else if t[0].name == k then [Cell(k, t[0].seconds + v)] + t[1..]
    else [t[0]] + Add(t[1..], k, v)
  }

  /** `Object.entries(u).forEach(([k, v]) => add k, v to t)`. */
  function AddAll(t: Tally, u: Tally): Tally
    decreases |u|
  {
    if u == [] then t else AddAll(Add(t, u[0].name, u[0].seconds), u[1..])
  }

  /** The object spread `{ ...t, [k]: v }`: the value under an existing key is
      replaced where it stands, a new key is appended. */
  function Put(t: Tally, k: string, v: int): Tally {
    if t == [] then [Cell(k, v)]
    else if t[0].name == k then [Cell(k, v)] + t[1..]
    else [t[0]] + Put(t[1..], k, v)
  }

  /** A tally holding every name of `ns` with value 0. */
  function Zeroes(ns: seq<string>): (t: Tally)
    ensures Names(t) == ns
    ensures forall i :: 0 <= i < |t| ==> t[i].seconds == 0
  {
    if ns == [] then [] else [Cell(ns[0], 0)] + Zeroes(ns[1..])
  }

  /** No value is negative. */
  predicate NonNegative(t: Tally) {
    forall i :: 0 <= i < |t| ==> 0 <= t[i].seconds
  }

  // ---------------------------------------------------------------------
  // Lemmas

  lemma {:induction false} AmountAbsent(t: Tally, k: string)
    requires k !in Names(t)
    ensures Amount(t, k) == 0
  {
    if t != [] {
      assert Names(t)[0] == t[0].name;
      assert Names(t[1..]) == Names(t)[1..];
      AmountAbsent(t[1..], k);
    }
  }

  lemma {:induction false} KeyedTail(t: Tally)
    requires Keyed(t) && t != []
    ensures Keyed(t[1..]) && t[0].name !in Names(t[1..])
  {
  }

  /** On a keyed tally, Amount is the value stored under the key. */
  lemma {:induction false} AmountKeyed(t: Tally, i: int)
    requires Keyed(t) && 0 <= i < |t|
    ensures Amount(t, t[i].name) == t[i].seconds
  {
    KeyedTail(t);
    if i == 0 {
      AmountAbsent(t[1..], t[0].name);
    } else {
      AmountKeyed(t[1..], i - 1);
    }
  }

  lemma {:induction false} AmountZeroes(ns: seq<string>, k: string)
    ensures Amount(Zeroes(ns), k) == 0
  {
    if ns != [] {
      AmountZeroes(ns[1..], k);
    }
  }

  lemma {:induction false} TotalConcat(t: Tally, u: Tally)
    ensures Total(t + u) == Total(t) + Total(u)
  {
    if t != [] {
      assert (t + u)[1..] == t[1..] + u;
      TotalConcat(t[1..], u);
    } else {
      assert t + u == u;
    }
  }

  /** Adding v under k raises the amount of k by v and leaves every other key alone. */
  lemma {:induction false} AddAmount(t: Tally, k: string, v: int, j: string)
    ensures Amount(Add(t, k, v), j) == Amount(t, j) + (if j == k then v else 0)
  {
    if t != [] && t[0].name != k {
      AddAmount(t[1..], k, v, j);
    }
  }

  lemma {:induction false} AddTotal(t: Tally, k: string, v: int)
    ensures Total(Add(t, k, v)) == Total(t) + v
  {
    if t != [] && t[0].name != k {
      AddTotal(t[1..], k, v);
    }
  }

  /** Add keeps the key order and appends a new key at the end. */
  lemma {:induction false} AddNames(t: Tally, k: string, v: int)
    ensures Names(Add(t, k, v)) == if k in Names(t) then Names(t) else Names(t) + [k]
  {
    if t != [] && t[0].name != k {
      AddNames(t[1..], k, v);
      assert Names(t) == [t[0].name] + Names(t[1..]);
      assert Names(Add(t, k, v)) == [t[0].name] + Names(Add(t[1..], k, v));
    }
  }

  lemma {:induction false} AddKeyed(t: Tally, k: string, v: int)
    requires Keyed(t)
    ensures Keyed(Add(t, k, v))
  {
    if t != [] && t[0].name != k {
      KeyedTail(t);
      AddKeyed(t[1..], k, v);
      AddNames(t[1..], k, v);
      var r := Add(t, k, v);
      assert r == [t[0]] + Add(t[1..], k, v);
      forall i, j | 0 <= i < j < |r| ensures r[i].name != r[j].name {
        if i == 0 {
          assert r[j].name == Names(Add(t[1..], k, v))[j - 1];
        }
      }
    }
  }

  lemma {:induction false} AddAllAmount(t: Tally, u: Tally, j: string)
    ensures Amount(AddAll(t, u), j) == Amount(t, j) + Amount(u, j)
    decreases |u|
  {
    if u != [] {
      AddAmount(t, u[0].name, u[0].seconds, j);
      AddAllAmount(Add(t, u[0].name, u[0].seconds), u[1..], j);
    }
  }

  lemma {:induction false} AddAllTotal(t: Tally, u: Tally)
    ensures Total(AddAll(t, u)) == Total(t) + Total(u)
    decreases |u|
  {
    if u != [] {
      AddTotal(t, u[0].name, u[0].seconds);
      AddAllTotal(Add(t, u[0].name, u[0].seconds), u[1..]);
    }
  }

  lemma {:induction false} AddAllNames(t: Tally, u: Tally, k: string)
    ensures k in Names(AddAll(t, u)) <==> k in Names(t) || k in Names(u)
    decreases |u|
  {
    if u != [] {
      AddNames(t, u[0].name, u[0].seconds);
      AddAllNames(Add(t, u[0].name, u[0].seconds), u[1..], k);
      assert Names(u) == [u[0].name] + Names(u[1..]);
    }
  }

  /** Adding only keys that are already present keeps the key order. */
  lemma {:induction false} AddAllKeepsNames(t: Tally, u: Tally)
    requires forall i :: 0 <= i < |u| ==> u[i].name in Names(t)
    ensures Names(AddAll(t, u)) == Names(t)
    decreases |u|
  {
    if u != [] {
      AddNames(t, u[0].name, u[0].seconds);
      AddAllKeepsNames(Add(t, u[0].name, u[0].seconds), u[1..]);
    }
  }

  lemma {:induction false} AddAllKeyed(t: Tally, u: Tally)
    requires Keyed(t)
    ensures Keyed(AddAll(t, u))
    decreases |u|
  {
    if u != [] {
      AddKeyed(t, u[0].name, u[0].seconds);
      AddAllKeyed(Add(t, u[0].name, u[0].seconds), u[1..]);
    }
  }

  /** Putting v under k makes k's amount v on a keyed tally, and leaves
      every other key alone. */
  lemma {:induction false} PutAmount(t: Tally, k: string, v: int, j: string)
    requires Keyed(t)
    ensures Amount(Put(t, k, v), j) == if j == k then v else Amount(t, j)
  {
    if t != [] {
      KeyedTail(t);
      if t[0].name == k {
        if j == k {
          AmountAbsent(t[1..], k);
        }
      } else {
        PutAmount(t[1..], k, v, j);
      }
    }
  }

  lemma {:induction false} PutNames(t: Tally, k: string, v: int)
    ensures Names(Put(t, k, v)) == if k in Names(t) then Names(t) else Names(t) + [k]
  {
    if t != [] && t[0].name != k {
      PutNames(t[1..], k, v);
      assert Names(t) == [t[0].name] + Names(t[1..]);
      assert Names(Put(t, k, v)) == [t[0].name] + Names(Put(t[1..], k, v));
    }
  }

  /** Putting into a keyed tally keeps it keyed. */
  lemma {:induction false} PutKeyed(t: Tally, k: string, v: int)
    requires Keyed(t)
    ensures Keyed(Put(t, k, v))
  {
    PutNames(t, k, v);
    var r := Put(t, k, v);
    forall i, j | 0 <= i < j < |r| ensures r[i].name != r[j].name {
      assert Names(r)[i] == r[i].name && Names(r)[j] == r[j].name;
      assert Names(t)[..] == Names(t);
      if j < |t| {
        assert Names(t)[i] == t[i].name && Names(t)[j] == t[j].name;
      } else {
        assert Names(t)[i] == t[i].name;
      }
    }
  }

  /** When every key is k, the amount under k is the sum of all values. */
  lemma {:induction false} OnlyName(t: Tally, k: string)
    requires forall i :: 0 <= i < |t| ==> t[i].name == k
    ensures Amount(t, k) == Total(t)
  {
    if t != [] {
      OnlyName(t[1..], k);
    }
  }

  lemma {:induction false} AmountNonNegative(t: Tally, k: string)
    requires NonNegative(t)
    ensures 0 <= Amount(t, k)
  {
    if t != [] {
      AmountNonNegative(t[1..], k);
    }
  }

  /** With no negative value, no value exceeds the sum of all values. */
  lemma {:induction false} CellWithinTotal(t: Tally, i: int)
    requires NonNegative(t) && 0 <= i < |t|
    ensures 0 <= t[i].seconds <= Total(t)
  {
    if i > 0 {
      CellWithinTotal(t[1..], i - 1);
    } else if |t| > 1 {
      TotalNonNegative(t[1..]);
    }
  }

  lemma {:induction false} TotalNonNegative(t: Tally)
    requires NonNegative(t)
    ensures 0 <= Total(t)
  {
    if t != [] {
      TotalNonNegative(t[1..]);
    }
  }
}
