/** Python's insertion-ordered `dict` with string keys, for the two tables whose
    iteration order the search service observes: the document lengths (summed for
    the average length) and the score accumulator (whose order breaks ties in the
    ranking). */
module Dicts {

  /** `keys` lists every key once, in the order of its first insertion;
      `vals` holds the value of each key. */
  datatype RawDict<V> = RawDict(keys: seq<string>, vals: map<string, V>)

  predicate Distinct(s: seq<string>) {
    forall i, j :: 0 <= i < j < |s| ==> s[i] != s[j]
  }

  predicate WellFormed<V>(d: RawDict<V>) {
    Distinct(d.keys) && (forall k :: k in d.vals ==> k in d.keys) && (forall k :: k in d.keys ==> k in d.vals)
  }

  type Dict<V> = d: RawDict<V> | WellFormed(d) witness RawDict([], map[])

  function Empty<V>(): Dict<V> {
    RawDict([], map[])
  }

  /** `d[k] = v`: an existing key keeps its place, a new key goes last. */
  function Put<V>(d: Dict<V>, k: string, v: V): (r: Dict<V>)
    ensures r.vals == d.vals[k := v]
    ensures k in d.vals ==> r.keys == d.keys
    ensures k !in d.vals ==> r.keys == d.keys + [k]
  {
    if k in d.vals then
      RawDict(d.keys, d.vals[k := v])
    else
      var keys := d.keys + [k];
      assert Distinct(keys) by {
        assert forall i :: 0 <= i < |d.keys| ==> keys[i] == d.keys[i];
      }
      assert forall x :: x in keys <==> x in d.keys || x == k;
      RawDict(keys, d.vals[k := v])
  }

  /** `xs` appended to `base`, keeping only the first occurrence of each key:
      the key order a dictionary gets from inserting `xs` in turn. */
  function AppendNew(base: seq<string>, xs: seq<string>): seq<string> {
    if xs == [] then base
    else
      var r := AppendNew(base, xs[..|xs| - 1]);
      if xs[|xs| - 1] in r then r else r + [xs[|xs| - 1]]
  }

  lemma {:induction false} AppendNewMembers(base: seq<string>, xs: seq<string>, x: string)
    ensures x in AppendNew(base, xs) <==> x in base || x in xs
  {
    if xs != [] {
      var init := xs[..|xs| - 1];
      AppendNewMembers(base, init, x);
      assert xs == init + [xs[|xs| - 1]];
    }
  }

  lemma {:induction false} AppendNewDistinct(base: seq<string>, xs: seq<string>)
    requires Distinct(base)
    ensures Distinct(AppendNew(base, xs))
  {
    if xs != [] {
      var r := AppendNew(base, xs[..|xs| - 1]);
      AppendNewDistinct(base, xs[..|xs| - 1]);
      if xs[|xs| - 1] !in r {
        var t := r + [xs[|xs| - 1]];
        assert forall i :: 0 <= i < |r| ==> t[i] == r[i];
      }
    }
  }

  /** Inserting the keys of `ys` after those of `xs` is inserting `xs + ys`. */
  lemma {:induction false} AppendNewConcat(base: seq<string>, xs: seq<string>, ys: seq<string>)
    ensures AppendNew(AppendNew(base, xs), ys) == AppendNew(base, xs + ys)
  {
    if ys == [] {
      assert xs + ys == xs;
    } else {
      var init := ys[..|ys| - 1];
      AppendNewConcat(base, xs, init);
      assert (xs + ys)[..|xs + ys| - 1] == xs + init;
      assert (xs + ys)[|xs + ys| - 1] == ys[|ys| - 1];
    }
  }

  // ---------------------------------------------------------------- integer values

  /** The sum of the values of `keys`, taken in order. */
  function SumOver(keys: seq<string>, vals: map<string, int>): int
    requires forall k :: k in keys ==> k in vals
  {
    if keys == [] then 0 else SumOver(keys[..|keys| - 1], vals) + vals[keys[|keys| - 1]]
  }

  /** Python's `sum(d.values())`. */
  function Sum(d: Dict<int>): int {
    SumOver(d.keys, d.vals)
  }

  /** Python's `len(d)`. */
  function Size<V>(d: Dict<V>): nat {
    |d.keys|
  }

  predicate AllAtLeast(d: Dict<int>, lo: int) {
    forall k :: k in d.vals ==> d.vals[k] >= lo
  }

  lemma {:induction false} SumOverAtLeast(keys: seq<string>, vals: map<string, int>, lo: int)
    requires forall k :: k in keys ==> k in vals && vals[k] >= lo
    ensures SumOver(keys, vals) >= lo * |keys|
  {
    if keys != [] {
      SumOverAtLeast(keys[..|keys| - 1], vals, lo);
    }
  }

  /** When every value is at least `lo`, so is the mean of the values. */
  lemma SumAtLeast(d: Dict<int>, lo: int)
    requires AllAtLeast(d, lo)
    ensures Sum(d) >= lo * Size(d)
  {
    SumOverAtLeast(d.keys, d.vals, lo);
  }

  lemma {:induction false} SumOverPositive(keys: seq<string>, vals: map<string, int>, i: nat)
    requires forall k :: k in keys ==> k in vals && vals[k] >= 0
    requires i < |keys| && vals[keys[i]] > 0
    ensures SumOver(keys, vals) > 0
  {
    var init := keys[..|keys| - 1];
    if i == |keys| - 1 {
      SumOverAtLeast(init, vals, 0);
    } else {
      assert init[i] == keys[i];
      SumOverPositive(init, vals, i);
    }
  }

  /** Non-negative values, one of them positive, have a positive sum. */
  lemma SumPositive(d: Dict<int>, k: string)
    requires AllAtLeast(d, 0) && k in d.vals && d.vals[k] > 0
    ensures Sum(d) > 0
  {
    var i :| 0 <= i < |d.keys| && d.keys[i] == k;
    SumOverPositive(d.keys, d.vals, i);
  }
}
