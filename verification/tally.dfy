/**
  The pandas reductions the dashboards apply to columns, stated over
  sequences: boolean-mask selection, `unique`, `value_counts`, `groupby(...)`
  with `mean`/`count`, `mean() * 100` of a boolean column, `mean()` of a
  numeric column (missing values skipped, an empty column giving NaN, here
  `None`) and `nlargest(k)`.
*/
module Tally {
  import opened Optional

  // ---------------------------------------------------------------------------
  // Counting
  // ---------------------------------------------------------------------------

  /** Number of occurrences of `x` in `xs`. */
  function Count<T(==)>(xs: seq<T>, x: T): (n: nat)
    ensures n <= |xs|
    ensures n == 0 <==> x !in xs
  {
    if xs == [] then 0
    else
      assert xs == xs[..|xs| - 1] + [xs[|xs| - 1]];
      Count(xs[..|xs| - 1], x) + (if xs[|xs| - 1] == x then 1 else 0)
  }

  lemma CountSnoc<T>(xs: seq<T>, y: T)
    ensures forall x :: Count(xs + [y], x) == Count(xs, x) + (if y == x then 1 else 0)
  {
    assert (xs + [y])[..|xs|] == xs;
  }

  /** Every element is either `true` or `false`. */
  lemma {:induction false} CountTrueFalse(flags: seq<bool>)
    ensures Count(flags, true) + Count(flags, false) == |flags|
  {
    if flags != [] {
      var n := |flags| - 1;
      CountTrueFalse(flags[..n]);
      assert Count(flags, true) == Count(flags[..n], true) + (if flags[n] then 1 else 0);
      assert Count(flags, false) == Count(flags[..n], false) + (if flags[n] then 0 else 1);
    }
  }

  /** `~flags` */
  function Negate(flags: seq<bool>): seq<bool> {
    seq(|flags|, i requires 0 <= i < |flags| => !flags[i])
  }

  lemma {:induction false} CountNegate(flags: seq<bool>)
    ensures Count(Negate(flags), true) == Count(flags, false)
  {
    if flags != [] {
      var n := |flags| - 1;
      CountNegate(flags[..n]);
      assert Negate(flags)[..n] == Negate(flags[..n]);
    }
  }

  predicate Distinct<T(==)>(xs: seq<T>) {
    forall i, j :: 0 <= i < j < |xs| ==> xs[i] != xs[j]
  }

  /** A value that occurs in a sequence without repetitions occurs there exactly once. */
  lemma {:induction false} DistinctCountsOnce<T>(xs: seq<T>, x: T)
    requires Distinct(xs) && x in xs
    ensures Count(xs, x) == 1
  {
    var n := |xs| - 1;
    if xs[n] == x {
      assert x !in xs[..n];
    } else {
      assert x in xs[..n];
      DistinctCountsOnce(xs[..n], x);
    }
  }

  // ---------------------------------------------------------------------------
  // Selection
  // ---------------------------------------------------------------------------

  /** The elements of `xs` that satisfy `p`, in their order (`df[mask]`). */
  function Filter<T(==,!new)>(xs: seq<T>, p: T -> bool): (ys: seq<T>)
    ensures |ys| <= |xs|
    ensures forall i :: 0 <= i < |ys| ==> p(ys[i]) && ys[i] in xs
    ensures forall x {:trigger Count(ys, x)} :: Count(ys, x) == if p(x) then Count(xs, x) else 0
  {
    if xs == [] then []
    else
      var rest := Filter(xs[..|xs| - 1], p);
      var last := xs[|xs| - 1];
      CountSnoc(rest, last);
      if p(last) then rest + [last] else rest
  }

  /** What `p` keeps and what it drops make up the whole sequence. */
  lemma {:induction false} FilterSplits<T(!new)>(xs: seq<T>, p: T -> bool)
    ensures |Filter(xs, p)| + |Filter(xs, x => !p(x))| == |xs|
  {
    if xs != [] {
      FilterSplits(xs[..|xs| - 1], p);
    }
  }

  /** No two elements of `xs` have the same key. */
  predicate DistinctKeys<T, K(==)>(xs: seq<T>, key: T -> K) {
    forall i, j :: 0 <= i < j < |xs| ==> key(xs[i]) != key(xs[j])
  }

  /** Selection keeps apart elements whose keys were all different. */
  lemma {:induction false} FilterKeepsDistinctKeys<T(!new), K>(xs: seq<T>, p: T -> bool, key: T -> K)
    requires DistinctKeys(xs, key)
    ensures DistinctKeys(Filter(xs, p), key)
  {
    if xs != [] {
      var n := |xs| - 1;
      var rest := Filter(xs[..n], p);
      FilterKeepsDistinctKeys(xs[..n], p, key);
      var ys := Filter(xs, p);
      if p(xs[n]) {
        assert ys == rest + [xs[n]];
        forall i, j | 0 <= i < j < |ys| ensures key(ys[i]) != key(ys[j]) {
          assert ys[i] == rest[i];
          if j == |rest| {
            assert ys[j] == xs[n];
            var k :| 0 <= k < n && xs[..n][k] == rest[i];
            assert xs[k] == rest[i];
          } else {
            assert ys[j] == rest[j];
          }
        }
      } else {
        assert ys == rest;
      }
    }
  }

  /**
    `vals[keys == k]`: the values at the positions whose key is `k`, in
    order; `Select(mask, col, true)` is `col[mask]`.
  */
  function Select<K(==), V>(keys: seq<K>, vals: seq<V>, k: K): (g: seq<V>)
    requires |keys| == |vals|
    ensures |g| == Count(keys, k)
    ensures forall j :: 0 <= j < |g| ==> exists i :: 0 <= i < |keys| && keys[i] == k && vals[i] == g[j]
  {
    if keys == [] then []
    else
      var n := |keys| - 1;
      var rest := Select(keys[..n], vals[..n], k);
      if keys[n] == k then rest + [vals[n]] else rest
  }

  /** Positions of `keys` that hold `k`, in order. */
  function Positions<K(==)>(keys: seq<K>, k: K): (ps: seq<nat>)
    ensures forall j :: 0 <= j < |ps| ==> ps[j] < |keys| && keys[ps[j]] == k
    ensures forall a, b :: 0 <= a < b < |ps| ==> ps[a] < ps[b]
    ensures forall i :: 0 <= i < |keys| && keys[i] == k ==> i in ps
  {
    if keys == [] then []
    else
      var n := |keys| - 1;
      var rest := Positions(keys[..n], k);
      assert forall i :: 0 <= i < n ==> keys[..n][i] == keys[i];
      if keys[n] == k then rest + [n] else rest
  }

  /** The `j`-th selected value sits at the `j`-th position holding the key, in every column. */
  lemma {:induction false} SelectAt<K, V>(keys: seq<K>, vals: seq<V>, k: K)
    requires |keys| == |vals|
    ensures |Select(keys, vals, k)| == |Positions(keys, k)|
    ensures forall j :: 0 <= j < |Positions(keys, k)| ==> Select(keys, vals, k)[j] == vals[Positions(keys, k)[j]]
  {
    if keys != [] {
      var n := |keys| - 1;
      SelectAt(keys[..n], vals[..n], k);
      var rest := Select(keys[..n], vals[..n], k);
      var ps := Positions(keys[..n], k);
      forall j | 0 <= j < |ps| ensures rest[j] == vals[ps[j]] {
        assert vals[..n][ps[j]] == vals[ps[j]];
      }
    }
  }

  /**
    `df[df[column] == selected]`, or every row when `selected` is the
    "all" entry of the drop-down: the mask of the rows kept.
  */
  function SelectionMask(keys: seq<Option<string>>, selected: string, all: string): (mask: seq<bool>)
    ensures |mask| == |keys|
    ensures forall i :: 0 <= i < |keys| ==> (mask[i] <==> selected == all || keys[i] == Some(selected))
  {
    seq(|keys|, i requires 0 <= i < |keys| => selected == all || keys[i] == Some(selected))
  }

  /** Every value at a position holding `k` is selected. */
  lemma {:induction false} SelectContains<K, V>(keys: seq<K>, vals: seq<V>, k: K, i: int)
    requires |keys| == |vals| && 0 <= i < |keys| && keys[i] == k
    ensures vals[i] in Select(keys, vals, k)
  {
    var n := |keys| - 1;
    if i < n {
      SelectContains(keys[..n], vals[..n], k, i);
    }
  }

  /** Selection keeps a property that holds at every selected position. */
  lemma SelectAll<K, V>(keys: seq<K>, vals: seq<V>, k: K, p: V -> bool)
    requires |keys| == |vals|
    requires forall i :: 0 <= i < |keys| && keys[i] == k ==> p(vals[i])
    ensures forall v :: v in Select(keys, vals, k) ==> p(v)
  {
  }

  /** Selecting by a key column that holds `k` exactly where `p` holds is filtering by `p`. */
  lemma {:induction false} SelectIsFilter<K, V(!new)>(keys: seq<K>, vals: seq<V>, k: K, p: V -> bool)
    requires |keys| == |vals|
    requires forall i :: 0 <= i < |keys| ==> (keys[i] == k <==> p(vals[i]))
    ensures Select(keys, vals, k) == Filter(vals, p)
  {
    if keys != [] {
      var n := |keys| - 1;
      SelectIsFilter(keys[..n], vals[..n], k, p);
    }
  }

  // ---------------------------------------------------------------------------
  // unique, value_counts
  // ---------------------------------------------------------------------------

  /** `pd.unique(xs)`: each value once, in order of first occurrence. */
  function Unique<T(==,!new)>(xs: seq<T>): (ks: seq<T>)
    ensures Distinct(ks)
    ensures forall x :: x in ks <==> x in xs
  {
    if xs == [] then []
    else
      var n := |xs| - 1;
      assert xs == xs[..n] + [xs[n]];
      var ks := Unique(xs[..n]);
      if xs[n] in ks then ks else ks + [xs[n]]
  }

  /** For each key of `ks`, how often it occurs in `xs`. */
  function Counts<T(==)>(xs: seq<T>, ks: seq<T>): seq<(T, nat)> {
    seq(|ks|, i requires 0 <= i < |ks| => (ks[i], Count(xs, ks[i])))
  }

  /** Sum of the counts of a count table. */
  function Total<T>(ps: seq<(T, nat)>): nat {
    if ps == [] then 0 else Total(ps[..|ps| - 1]) + ps[|ps| - 1].1
  }

  lemma {:induction false} TotalOfEmpty<T>(ks: seq<T>)
    ensures Total(Counts([], ks)) == 0
  {
    if ks != [] {
      TotalOfEmpty(ks[..|ks| - 1]);
      assert Counts([], ks)[..|ks| - 1] == Counts([], ks[..|ks| - 1]);
    }
  }

  /** One more element adds, over all keys, the number of keys equal to it. */
  lemma {:induction false} TotalOfSnoc<T>(xs: seq<T>, x: T, ks: seq<T>)
    ensures Total(Counts(xs + [x], ks)) == Total(Counts(xs, ks)) + Count(ks, x)
  {
    CountSnoc(xs, x);
    if ks != [] {
      var n := |ks| - 1;
      TotalOfSnoc(xs, x, ks[..n]);
      assert Counts(xs + [x], ks)[..n] == Counts(xs + [x], ks[..n]);
      assert Counts(xs, ks)[..n] == Counts(xs, ks[..n]);
    }
  }

  /**
    Grouping by a list of distinct keys that covers every element puts each
    element in exactly one group: the group sizes add up to the length.
  */
  lemma {:induction false} CountsPartition<T>(xs: seq<T>, ks: seq<T>)
    requires Distinct(ks)
    requires forall x :: x in xs ==> x in ks
    ensures Total(Counts(xs, ks)) == |xs|
  {
    if xs == [] {
      TotalOfEmpty(ks);
    } else {
      var n := |xs| - 1;
      assert xs == xs[..n] + [xs[n]];
      CountsPartition(xs[..n], ks);
      TotalOfSnoc(xs[..n], xs[n], ks);
      DistinctCountsOnce(ks, xs[n]);
    }
  }

  /**
    `xs.value_counts()`: one row per distinct value, with the number of its
    occurrences, which is never zero; every value of `xs` has its row.
  */
  function ValueCounts<T(==,!new)>(xs: seq<T>): (vc: seq<(T, nat)>)
    ensures |vc| == |Unique(xs)|
    ensures forall i :: 0 <= i < |vc| ==> vc[i].0 in xs && vc[i].1 > 0
    ensures forall i :: 0 <= i < |vc| ==> vc[i].1 == Count(xs, vc[i].0)
    ensures forall i, j :: 0 <= i < j < |vc| ==> vc[i].0 != vc[j].0
    ensures forall x :: x in xs ==> (x, Count(xs, x)) in vc
  {
    var ks := Unique(xs);
    var vc := Counts(xs, ks);
    assert forall x :: x in xs ==> (x, Count(xs, x)) in vc by {
      forall x | x in xs ensures (x, Count(xs, x)) in vc {
        var i :| 0 <= i < |ks| && ks[i] == x;
        assert vc[i] == (x, Count(xs, x));
      }
    }
    vc
  }

  /** The counts of `value_counts` add up to the number of values. */
  lemma ValueCountsTotal<T(!new)>(xs: seq<T>)
    ensures Total(ValueCounts(xs)) == |xs|
  {
    CountsPartition(xs, Unique(xs));
  }

  /** The total of a count table depends only on its counts. */
  lemma {:induction false} TotalOfSameCounts<S, T>(ps: seq<(S, nat)>, qs: seq<(T, nat)>)
    requires |ps| == |qs| && forall i :: 0 <= i < |ps| ==> ps[i].1 == qs[i].1
    ensures Total(ps) == Total(qs)
  {
    if ps != [] {
      var n := |ps| - 1;
      TotalOfSameCounts(ps[..n], qs[..n]);
    }
  }

  /** At least two distinct values exactly when two positions hold different values. */
  lemma {:induction false} TwoUniqueIffTwoDifferent<T(!new)>(xs: seq<T>)
    ensures |Unique(xs)| >= 2 <==> exists i, j :: 0 <= i < |xs| && 0 <= j < |xs| && xs[i] != xs[j]
  {
    var ks := Unique(xs);
    if |ks| >= 2 {
      assert ks[0] in xs && ks[1] in xs;
      var i :| 0 <= i < |xs| && xs[i] == ks[0];
      var j :| 0 <= j < |xs| && xs[j] == ks[1];
      assert xs[i] != xs[j];
    } else {
      forall i, j | 0 <= i < |xs| && 0 <= j < |xs|
        ensures xs[i] == xs[j]
      {
        assert xs[i] in ks && xs[j] in ks;
        assert |ks| == 1;
      }
    }
  }

  // ---------------------------------------------------------------------------
  // Means
  // ---------------------------------------------------------------------------

  /**
    `flags.mean() * 100`: the percentage of `true` values, `None` (NaN) for
    an empty column.
  */
  function PercentTrue(flags: seq<bool>): (r: Option<real>)
    ensures r.None? <==> flags == []
    ensures r.Some? ==> 0.0 <= r.value <= 100.0
    ensures r.Some? ==> r.value * |flags| as real == 100.0 * Count(flags, true) as real
  {
    if flags == [] then None
    else
      ShareOfWhole(Count(flags, true) as real, |flags| as real);
      Some(100.0 * Count(flags, true) as real / |flags| as real)
  }

  lemma ShareOfWhole(part: real, whole: real)
    requires 0.0 <= part <= whole && whole > 0.0
    ensures 0.0 <= 100.0 * part / whole <= 100.0
    ensures (100.0 * part / whole) * whole == 100.0 * part
  {
  }

  /** The percentage of `true` and the percentage of `false` add up to 100. */
  lemma PercentComplement(flags: seq<bool>)
    requires flags != []
    ensures PercentTrue(flags).value + PercentTrue(Negate(flags)).value == 100.0
  {
    CountTrueFalse(flags);
    CountNegate(flags);
    SharesOfWhole(Count(flags, true) as real, Count(flags, false) as real, |flags| as real);
  }

  lemma SharesOfWhole(t: real, f: real, n: real)
    requires n > 0.0 && t + f == n
    ensures 100.0 * t / n + 100.0 * f / n == 100.0
  {
    assert 100.0 * t / n + 100.0 * f / n == 100.0 * (t + f) / n;
  }

  function Sum(xs: seq<real>): real {
    if xs == [] then 0.0 else Sum(xs[..|xs| - 1]) + xs[|xs| - 1]
  }

  /** A non-empty sum of positive values is positive. */
  lemma {:induction false} SumPositive(xs: seq<real>)
    ensures xs != [] && (forall i :: 0 <= i < |xs| ==> xs[i] > 0.0) ==> Sum(xs) > 0.0
  {
    if |xs| > 1 {
      SumPositive(xs[..|xs| - 1]);
    }
  }

  /**
    `xs.mean()`: `None` (NaN) for an empty column; the mean of positive
    values is positive.
  */
  function Mean(xs: seq<real>): (m: Option<real>)
    ensures m.None? <==> xs == []
    ensures m.Some? ==> m.value * |xs| as real == Sum(xs)
    ensures m.Some? && (forall i :: 0 <= i < |xs| ==> xs[i] > 0.0) ==> m.value > 0.0
  {
    if xs == [] then None
    else
      SumPositive(xs);
      Some(Sum(xs) / |xs| as real)
  }

  /** `col.dropna()`: the values that are present, in order. */
  function Present<T(==,!new)>(xs: seq<Option<T>>): (ys: seq<T>)
    ensures |ys| == |xs| - Count(xs, None)
    ensures forall j :: 0 <= j < |ys| ==> Some(ys[j]) in xs
    ensures forall x {:trigger Count(ys, x)} :: Count(ys, x) == Count(xs, Some(x))
  {
    if xs == [] then []
    else
      var n := |xs| - 1;
      var rest := Present(xs[..n]);
      match xs[n]
      case None => rest
      case Some(v) =>
        CountSnoc(rest, v);
        rest + [v]
  }

  // ---------------------------------------------------------------------------
  // groupby
  // ---------------------------------------------------------------------------

  /** `flags[keys == k].mean() * 100` for a key that occurs. */
  function GroupPercent<K(==)>(keys: seq<K>, flags: seq<bool>, k: K): (r: real)
    requires |keys| == |flags| && k in keys
    ensures 0.0 <= r <= 100.0
    ensures PercentTrue(Select(keys, flags, k)) == Some(r)
  {
    var group := Select(keys, flags, k);
    assert |group| == Count(keys, k) > 0;
    PercentTrue(group).value
  }

  /**
    `groupby(keys)[flags].mean() * 100`: one row per distinct key, with the
    percentage of `true` among the rows of that key.
  */
  function GroupedPercent<K(==,!new)>(keys: seq<K>, flags: seq<bool>): (rows: seq<(K, real)>)
    requires |keys| == |flags|
    ensures |rows| == |Unique(keys)|
    ensures forall i :: 0 <= i < |rows| ==> rows[i].0 == Unique(keys)[i]
    ensures forall i :: 0 <= i < |rows| ==> 0.0 <= rows[i].1 <= 100.0
    ensures forall i :: 0 <= i < |rows| ==> PercentTrue(Select(keys, flags, rows[i].0)) == Some(rows[i].1)
  {
    var ks := Unique(keys);
    seq(|ks|, i requires 0 <= i < |ks| => (ks[i], GroupPercent(keys, flags, ks[i])))
  }

  /**
    Rows whose key is missing (NaN) are left out of a `groupby`: the keys
    and values of the rows that have one.
  */
  function KnownKeys<K(==,!new), V>(keys: seq<Option<K>>, vals: seq<V>): (r: (seq<K>, seq<V>))
    requires |keys| == |vals|
    ensures |r.0| == |r.1| == |keys| - Count(keys, None)
    ensures forall k {:trigger Count(r.0, k)} :: Count(r.0, k) == Count(keys, Some(k))
    ensures forall k {:trigger Select(r.0, r.1, k)} :: Select(r.0, r.1, k) == Select(keys, vals, Some(k))
  {
    if keys == [] then ([], [])
    else
      var n := |keys| - 1;
      var rest := KnownKeys(keys[..n], vals[..n]);
      match keys[n]
      case None => rest
      case Some(k) =>
        CountSnoc(rest.0, k);
        var r := (rest.0 + [k], rest.1 + [vals[n]]);
        assert r.0[..|rest.0|] == rest.0 && r.1[..|rest.1|] == rest.1;
        r
  }

  /**
    `groupby(keys)[flags].mean() * 100` on a key column with missing values:
    one row per key that occurs, each once, with the percentage of `true`
    among the rows of that key; rows without a key belong to no group.
  */
  function GroupedKnownPercent<K(==,!new)>(keys: seq<Option<K>>, flags: seq<bool>): (rows: seq<(K, real)>)
    requires |keys| == |flags|
    ensures forall i :: 0 <= i < |rows| ==> Some(rows[i].0) in keys
    ensures forall i, j :: 0 <= i < j < |rows| ==> rows[i].0 != rows[j].0
    ensures forall i :: 0 <= i < |keys| && keys[i].Some? ==> exists j :: 0 <= j < |rows| && rows[j].0 == keys[i].value
    ensures forall i :: 0 <= i < |rows| ==> 0.0 <= rows[i].1 <= 100.0
    ensures forall i :: 0 <= i < |rows| ==> PercentTrue(Select(keys, flags, Some(rows[i].0))) == Some(rows[i].1)
  {
    var known := KnownKeys(keys, flags);
    var rows := GroupedPercent(known.0, known.1);
    var ks := Unique(known.0);
    assert forall i :: 0 <= i < |rows| ==> Some(rows[i].0) in keys by {
      forall i | 0 <= i < |rows| ensures Some(rows[i].0) in keys {
        assert Count(known.0, ks[i]) > 0;
      }
    }
    assert forall i :: 0 <= i < |keys| && keys[i].Some? ==> exists j :: 0 <= j < |rows| && rows[j].0 == keys[i].value by {
      forall i | 0 <= i < |keys| && keys[i].Some?
        ensures exists j :: 0 <= j < |rows| && rows[j].0 == keys[i].value
      {
        var k := keys[i].value;
        assert Count(known.0, k) > 0;
        var j :| 0 <= j < |ks| && ks[j] == k;
        assert rows[j].0 == k;
      }
    }
    rows
  }

  // ---------------------------------------------------------------------------
  // nlargest
  // ---------------------------------------------------------------------------

  /** Position of the first largest count. */
  function ArgMax<T>(ps: seq<(T, nat)>): (i: nat)
    requires ps != []
    ensures i < |ps|
    ensures forall j :: 0 <= j < |ps| ==> ps[j].1 <= ps[i].1
  {
    if |ps| == 1 then 0
    else
      var i := ArgMax(ps[..|ps| - 1]);
      if ps[|ps| - 1].1 > ps[i].1 then |ps| - 1 else i
  }

  predicate NonIncreasing<T>(ps: seq<(T, nat)>) {
    forall i, j :: 0 <= i < j < |ps| ==> ps[i].1 >= ps[j].1
  }

  /** No row of `top` counts less than a row of `others`. */
  predicate AtLeast<T(==)>(top: seq<(T, nat)>, others: multiset<(T, nat)>) {
    forall p, q :: p in top && q in others ==> p.1 >= q.1
  }

  /**
    `nlargest(k)` of a count table: `min(k, |ps|)` of its rows, in
    non-increasing order of count, none of them counting less than a row left
    out.
  */
  function TopK<T(==)>(ps: seq<(T, nat)>, k: nat): (top: seq<(T, nat)>)
    ensures |top| == if k < |ps| then k else |ps|
    ensures multiset(top) <= multiset(ps)
    ensures NonIncreasing(top)
    ensures AtLeast(top, multiset(ps) - multiset(top))
    decreases k
  {
    if k == 0 || ps == [] then []
    else
      var i := ArgMax(ps);
      var rest := ps[..i] + ps[i + 1..];
      var top := TopK(rest, k - 1);
      TopKStep(ps, i, rest, top);
      [ps[i]] + top
  }

  /** Putting a largest row in front of the best rows of the remainder. */
  lemma TopKStep<T>(ps: seq<(T, nat)>, i: nat, rest: seq<(T, nat)>, top: seq<(T, nat)>)
    requires i < |ps| && forall j :: 0 <= j < |ps| ==> ps[j].1 <= ps[i].1
    requires rest == ps[..i] + ps[i + 1..]
    requires multiset(top) <= multiset(rest)
    requires NonIncreasing(top)
    requires AtLeast(top, multiset(rest) - multiset(top))
    ensures multiset([ps[i]] + top) <= multiset(ps)
    ensures NonIncreasing([ps[i]] + top)
    ensures AtLeast([ps[i]] + top, multiset(ps) - multiset([ps[i]] + top))
  {
    var m := ps[i];
    RemovedOne(ps, i, rest);
    LargestOfAll(ps, i);
    assert multiset([m] + top) == multiset{m} + multiset(top);
    PrependLargest(m, top, multiset(ps));
    PrependDominates(m, top, multiset(rest) - multiset(top));
  }

  lemma RemovedOne<T>(ps: seq<T>, i: nat, rest: seq<T>)
    requires i < |ps| && rest == ps[..i] + ps[i + 1..]
    ensures multiset(ps) == multiset(rest) + multiset{ps[i]}
  {
    assert ps == ps[..i] + [ps[i]] + ps[i + 1..];
  }

  lemma LargestOfAll<T>(ps: seq<(T, nat)>, i: nat)
    requires i < |ps| && forall j :: 0 <= j < |ps| ==> ps[j].1 <= ps[i].1
    ensures forall q :: q in multiset(ps) ==> q.1 <= ps[i].1
  {
    forall q | q in multiset(ps) ensures q.1 <= ps[i].1 {
      var j :| 0 <= j < |ps| && ps[j] == q;
    }
  }

  lemma PrependLargest<T>(m: (T, nat), top: seq<(T, nat)>, all: multiset<(T, nat)>)
    requires multiset(top) <= all && forall q :: q in all ==> q.1 <= m.1
    requires NonIncreasing(top)
    ensures NonIncreasing([m] + top)
  {
    var t := [m] + top;
    forall a, b | 0 <= a < b < |t| ensures t[a].1 >= t[b].1 {
      assert t[b] == top[b - 1];
      if a == 0 {
        assert top[b - 1] in multiset(top);
      } else {
        assert t[a] == top[a - 1];
      }
    }
  }

  lemma PrependDominates<T>(m: (T, nat), top: seq<(T, nat)>, others: multiset<(T, nat)>)
    requires AtLeast(top, others) && forall q :: q in others ==> q.1 <= m.1
    ensures AtLeast([m] + top, others)
  {
    forall p, q | p in [m] + top && q in others ensures p.1 >= q.1 {
      if p != m {
        assert p in top;
      }
    }
  }
}
