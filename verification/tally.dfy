/**
 * Generic table operations behind the dashboard's pandas expressions:
 * a boolean-mask selection, a column projection, `value_counts`/`size`
 * counting, sorted group keys, and a sort on one column.
 */
module Tally {

  /** `xs[k]` counted: the number of positions holding `k`. */
  function Count<K(==)>(xs: seq<K>, k: K): (n: nat)
    ensures n <= |xs|
    ensures n == 0 <==> k !in xs
  {
    if xs == [] then 0
    else Count(xs[..|xs| - 1], k) + (if xs[|xs| - 1] == k then 1 else 0)
  }

  function Sum(s: seq<nat>): nat {
    if s == [] then 0 else Sum(s[..|s| - 1]) + s[|s| - 1]
  }

  /** The column of `key` values, one per row. */
  function Column<T, K>(s: seq<T>, key: T -> K): (r: seq<K>)
    ensures |r| == |s| && forall i :: 0 <= i < |s| ==> r[i] == key(s[i])
  {
    seq(|s|, i requires 0 <= i < |s| => key(s[i]))
  }

  /** The rows for which the mask `p` holds, in their original order. */
  function Select<T(!new)>(s: seq<T>, p: T -> bool): (r: seq<T>)
    ensures |r| <= |s|
    ensures forall x :: x in r ==> p(x)
  {
    if s == [] then []
    else Select(s[..|s| - 1], p) + (if p(s[|s| - 1]) then [s[|s| - 1]] else [])
  }

  /** A selection keeps every row the mask accepts, as often as it occurs, and no other. */
  lemma {:induction false} SelectMultiset<T(!new)>(s: seq<T>, p: T -> bool)
    ensures forall x :: multiset(Select(s, p))[x] == if p(x) then multiset(s)[x] else 0
  {
    if s != [] {
      var init, last := s[..|s| - 1], s[|s| - 1];
      SelectMultiset(init, p);
      assert s == init + [last];
      var tail := if p(last) then [last] else [];
      assert Select(s, p) == Select(init, p) + tail;
    }
  }

  /** Every selected row is a row of the table. */
  lemma SelectIsSubset<T(!new)>(s: seq<T>, p: T -> bool)
    ensures forall x :: x in Select(s, p) ==> x in s
  {
    SelectMultiset(s, p);
    forall x | x in Select(s, p) ensures x in s {
      assert x in multiset(Select(s, p));
    }
  }

  predicate Distinct<K(==)>(ks: seq<K>) {
    forall i, j :: 0 <= i < j < |ks| ==> ks[i] != ks[j]
  }

  ghost predicate Injective<K(!new)>(rank: K -> int) {
    forall a, b :: rank(a) == rank(b) ==> a == b
  }

  predicate StrictlyIncreasing<K>(ks: seq<K>, rank: K -> int) {
    forall i, j :: 0 <= i < j < |ks| ==> rank(ks[i]) < rank(ks[j])
  }

  predicate NonDecreasing<T>(s: seq<T>, rank: T -> int) {
    forall i, j :: 0 <= i < j < |s| ==> rank(s[i]) <= rank(s[j])
  }

  /** Adds `k` to a strictly increasing key list, unless it is already there. */
  function InsertKey<K(!new)>(ks: seq<K>, k: K, rank: K -> int): (r: seq<K>)
    requires Injective(rank) && StrictlyIncreasing(ks, rank)
    ensures StrictlyIncreasing(r, rank)
    ensures forall x :: x in r <==> x in ks || x == k
  {
    if ks == [] then [k]
    else if rank(k) < rank(ks[0]) then [k] + ks
    else if rank(k) == rank(ks[0]) then ks
    else
      var tail := InsertKey(ks[1..], k, rank);
      assert forall x :: x in ks <==> x == ks[0] || x in ks[1..];
      forall i | 0 <= i < |tail| ensures rank(ks[0]) < rank(tail[i]) {
        if tail[i] != k {
          assert tail[i] in tail;
          var j :| 0 <= j < |ks[1..]| && ks[1..][j] == tail[i];
          assert ks[1 + j] == tail[i];
        }
      }
      [ks[0]] + tail
  }

  /**
   * The distinct values of a column in increasing `rank`, as the keys of
   * a pandas `groupby` (which sorts its keys) come out.
   */
  function GroupKeys<K(!new)>(xs: seq<K>, rank: K -> int): (ks: seq<K>)
    requires Injective(rank)
    ensures StrictlyIncreasing(ks, rank)
    ensures forall x :: x in ks <==> x in xs
  {
    if xs == [] then []
    else
      var init := xs[..|xs| - 1];
      assert forall x :: x in xs <==> x in init || x == xs[|xs| - 1];
      InsertKey(GroupKeys(init, rank), xs[|xs| - 1], rank)
  }

  lemma StrictlyIncreasingIsDistinct<K>(ks: seq<K>, rank: K -> int)
    requires StrictlyIncreasing(ks, rank)
    ensures Distinct(ks)
  {
  }

  /** `count` for each key of `ks`, in order. */
  function Counts<K(==)>(xs: seq<K>, ks: seq<K>): (r: seq<nat>)
    ensures |r| == |ks| && forall j :: 0 <= j < |ks| ==> r[j] == Count(xs, ks[j])
  {
    seq(|ks|, j requires 0 <= j < |ks| => Count(xs, ks[j]))
  }

  lemma {:induction false} CountDistinctMember<K>(ks: seq<K>, x: K)
    requires Distinct(ks) && x in ks
    ensures Count(ks, x) == 1
  {
    var init := ks[..|ks| - 1];
    if ks[|ks| - 1] == x {
      assert x !in init;
    } else {
      assert x in init;
      CountDistinctMember(init, x);
    }
  }

  lemma {:induction false} SumOfZeros(s: seq<nat>)
    requires forall j :: 0 <= j < |s| ==> s[j] == 0
    ensures Sum(s) == 0
  {
    if s != [] {
      SumOfZeros(s[..|s| - 1]);
    }
  }

  /** Adding one row `x` adds one to the count of `x` and nothing elsewhere. */
  lemma {:induction false} SumCountsSnoc<K>(xs: seq<K>, x: K, ks: seq<K>)
    ensures Sum(Counts(xs + [x], ks)) == Sum(Counts(xs, ks)) + Count(ks, x)
  {
    if ks != [] {
      var init := ks[..|ks| - 1];
      assert Counts(xs + [x], ks)[..|ks| - 1] == Counts(xs + [x], init);
      assert Counts(xs, ks)[..|ks| - 1] == Counts(xs, init);
      assert (xs + [x])[..|xs|] == xs;
      SumCountsSnoc(xs, x, init);
    }
  }

  /**
   * Count conservation: counting every row under a list of distinct keys
   * that covers the column gives back the number of rows.
   */
  lemma {:induction false} CountsCover<K>(xs: seq<K>, ks: seq<K>)
    requires Distinct(ks)
    requires forall x :: x in xs ==> x in ks
    ensures Sum(Counts(xs, ks)) == |xs|
  {
    if xs == [] {
      SumOfZeros(Counts(xs, ks));
    } else {
      var init := xs[..|xs| - 1];
      assert xs == init + [xs[|xs| - 1]];
      CountsCover(init, ks);
      SumCountsSnoc(init, xs[|xs| - 1], ks);
      CountDistinctMember(ks, xs[|xs| - 1]);
    }
  }

  /** Counting `k` in a selection counts the rows that both match and hold `k`. */
  lemma {:induction false} CountOfSelect<T(!new)>(s: seq<T>, p: T -> bool, x: T)
    ensures Count(Select(s, p), x) == if p(x) then Count(s, x) else 0
  {
    if s != [] {
      var init := s[..|s| - 1];
      var last := s[|s| - 1];
      CountOfSelect(init, p, x);
      var tail := if p(last) then [last] else [];
      assert Select(s, p) == Select(init, p) + tail;
      CountSnoc(Select(init, p), tail, x);
    }
  }

  /** Dropping the last row drops the last entry of a column. */
  lemma ColumnSnoc<T, K>(s: seq<T>, key: T -> K)
    requires s != []
    ensures Column(s, key) == Column(s[..|s| - 1], key) + [key(s[|s| - 1])]
  {
  }

  /** Dropping the last row drops it from a selection too. */
  lemma SelectSnoc<T(!new)>(s: seq<T>, p: T -> bool)
    requires s != []
    ensures Select(s, p) == Select(s[..|s| - 1], p) + (if p(s[|s| - 1]) then [s[|s| - 1]] else [])
  {
  }

  /** A value accounts for every entry exactly when all entries are that value. */
  lemma {:induction false} CountAll<K>(xs: seq<K>, k: K)
    ensures Count(xs, k) == |xs| <==> forall i :: 0 <= i < |xs| ==> xs[i] == k
  {
    if xs != [] {
      var init := xs[..|xs| - 1];
      CountAll(init, k);
      if forall i :: 0 <= i < |xs| ==> xs[i] == k {
        assert forall i :: 0 <= i < |init| ==> init[i] == k;
      } else {
        var i :| 0 <= i < |xs| && xs[i] != k;
        if i < |init| {
          assert init[i] != k;
        }
      }
    }
  }

  /** A column count, one row at a time. */
  lemma CountColumnSnoc<T, K>(s: seq<T>, key: T -> K, k: K)
    requires s != []
    ensures Count(Column(s, key), k)
         == Count(Column(s[..|s| - 1], key), k) + (if key(s[|s| - 1]) == k then 1 else 0)
  {
    ColumnSnoc(s, key);
    var c := Column(s, key);
    assert c[..|c| - 1] == Column(s[..|s| - 1], key);
  }

  /** A column count over a selection, one row at a time. */
  lemma CountSelectedColumnSnoc<T(!new), K>(s: seq<T>, p: T -> bool, key: T -> K, k: K)
    requires s != []
    ensures Count(Column(Select(s, p), key), k)
         == Count(Column(Select(s[..|s| - 1], p), key), k) + (if p(s[|s| - 1]) && key(s[|s| - 1]) == k then 1 else 0)
  {
    var x := s[|s| - 1];
    var sel := Select(s[..|s| - 1], p);
    SelectSnoc(s, p);
    if p(x) {
      CountColumnSnoc(sel + [x], key, k);
      assert (sel + [x])[..|sel|] == sel;
    } else {
      assert Select(s, p) == sel;
    }
  }

  lemma CountSnoc<K>(xs: seq<K>, tail: seq<K>, x: K)
    requires |tail| <= 1
    ensures Count(xs + tail, x) == Count(xs, x) + Count(tail, x)
  {
    if tail != [] {
      var ys := xs + tail;
      assert ys[..|ys| - 1] == xs && ys[|ys| - 1] == tail[0];
      assert Count(ys, x) == Count(xs, x) + if tail[0] == x then 1 else 0;
      assert tail[..|tail| - 1] == [];
      assert Count(tail, x) == if tail[0] == x then 1 else 0;
    } else {
      assert xs + tail == xs;
    }
  }

  /** `sort_values` on one column: insertion into an ordered list. */
  function Insert<T>(s: seq<T>, x: T, rank: T -> int): (r: seq<T>)
    ensures multiset(r) == multiset(s) + multiset{x}
  {
    if s == [] then [x]
    else if rank(x) <= rank(s[0]) then [x] + s
    else
      assert s == [s[0]] + s[1..];
      [s[0]] + Insert(s[1..], x, rank)
  }

  /** Inserting into an ordered list keeps it ordered; its head is x or the old head. */
  lemma {:induction false} InsertSorted<T>(s: seq<T>, x: T, rank: T -> int)
    requires NonDecreasing(s, rank)
    ensures NonDecreasing(Insert(s, x, rank), rank)
    ensures Insert(s, x, rank)[0] == x || (s != [] && Insert(s, x, rank)[0] == s[0])
  {
    if s == [] {
    } else if rank(x) <= rank(s[0]) {
      var r := [x] + s;
      assert Insert(s, x, rank) == r;
      forall i, j | 0 <= i < j < |r| ensures rank(r[i]) <= rank(r[j]) {
        assert r[j] == s[j - 1];
        if i > 0 {
          assert r[i] == s[i - 1];
        } else {
          assert rank(s[0]) <= rank(s[j - 1]);
        }
      }
    } else {
      var rest := Insert(s[1..], x, rank);
      var r := [s[0]] + rest;
      assert Insert(s, x, rank) == r;
      assert NonDecreasing(s[1..], rank) by {
        forall i, j | 0 <= i < j < |s[1..]| ensures rank(s[1..][i]) <= rank(s[1..][j]) {
          assert s[1..][i] == s[i + 1] && s[1..][j] == s[j + 1];
        }
      }
      InsertSorted(s[1..], x, rank);
      assert rank(s[0]) <= rank(rest[0]) by {
        if rest[0] != x {
          assert rest[0] == s[1];
        }
      }
      forall i, j | 0 <= i < j < |r| ensures rank(r[i]) <= rank(r[j]) {
        assert r[j] == rest[j - 1];
        if i > 0 {
          assert r[i] == rest[i - 1];
        } else {
          assert rank(rest[0]) <= rank(rest[j - 1]);
        }
      }
    }
  }

  function SortBy<T>(s: seq<T>, rank: T -> int): (r: seq<T>)
    ensures NonDecreasing(r, rank)
    ensures multiset(r) == multiset(s)
  {
    if s == [] then []
    else
      assert s == s[..|s| - 1] + [s[|s| - 1]];
      InsertSorted(SortBy(s[..|s| - 1], rank), s[|s| - 1], rank);
      Insert(SortBy(s[..|s| - 1], rank), s[|s| - 1], rank)
  }

  /** The key column of a grouped table. */
  function Keys<K, V>(g: seq<(K, V)>): (r: seq<K>)
    ensures |r| == |g| && forall i :: 0 <= i < |g| ==> r[i] == g[i].0
  {
    seq(|g|, i requires 0 <= i < |g| => g[i].0)
  }

  /** The size column of a grouped table. */
  function Sizes<K>(g: seq<(K, nat)>): (r: seq<nat>)
    ensures |r| == |g| && forall i :: 0 <= i < |g| ==> r[i] == g[i].1
  {
    seq(|g|, i requires 0 <= i < |g| => g[i].1)
  }

  /**
   * `groupby(key).size()`: one row per distinct key, in key order, with the
   * number of rows holding that key. No row is lost and none is counted twice.
   */
  function GroupSizes<K(==,!new)>(xs: seq<K>, rank: K -> int): (g: seq<(K, nat)>)
    requires Injective(rank)
    ensures StrictlyIncreasing(Keys(g), rank)
    ensures forall x :: x in Keys(g) <==> x in xs
    ensures forall i :: 0 <= i < |g| ==> g[i].1 == Count(xs, g[i].0) && g[i].1 > 0
    ensures Sum(Sizes(g)) == |xs|
  {
    var ks := GroupKeys(xs, rank);
    var g := seq(|ks|, i requires 0 <= i < |ks| => (ks[i], Count(xs, ks[i])));
    assert Keys(g) == ks;
    assert Sizes(g) == Counts(xs, ks);
    StrictlyIncreasingIsDistinct(ks, rank);
    CountsCover(xs, ks);
    g
  }
}
