/**
 * The array built-ins the quiz relies on: slice(0, n), filter, and the stable sort that
 * Array.prototype.sort performs with a "b.score - a.score" comparator.
 */
module JsArray {

  /** slice(0, n): the first n elements, or all of them when there are fewer. */
  function Take<T>(s: seq<T>, n: nat): (r: seq<T>)
    ensures |r| == if |s| < n then |s| else n
    ensures r == s[..|r|]
    ensures multiset(r) <= multiset(s)
  {
    var r := if |s| < n then s else s[..n];
    assert s == r + s[|r|..];
    r
  }

  /** filter: the elements that satisfy `keep`, in their original order. */
  function Filter<T(!new)>(s: seq<T>, keep: T -> bool): (r: seq<T>)
    ensures |r| <= |s|
    ensures forall i :: 0 <= i < |r| ==> r[i] in s && keep(r[i])
    ensures forall i :: 0 <= i < |s| && keep(s[i]) ==> s[i] in r
  {
    if s == [] then []
    else (if keep(s[0]) then [s[0]] else []) + Filter(s[1..], keep)
  }

  /** filter keeps every occurrence of an element that passes and none of one that fails. */
  lemma {:induction false} FilterCounts<T(!new)>(s: seq<T>, keep: T -> bool)
    ensures forall x :: multiset(Filter(s, keep))[x] == if keep(x) then multiset(s)[x] else 0
  {
    if s != [] {
      FilterCounts(s[1..], keep);
      assert s == [s[0]] + s[1..];
    }
  }

  /** idx picks r out of s in order: r[i] is s[idx[i]], and the positions strictly increase. */
  ghost predicate PicksInOrder<T>(r: seq<T>, s: seq<T>, idx: seq<int>) {
    && |idx| == |r|
    && (forall i :: 0 <= i < |idx| ==> 0 <= idx[i] < |s| && s[idx[i]] == r[i])
    && (forall i, j :: 0 <= i < j < |idx| ==> idx[i] < idx[j])
  }

  /** The positions of the elements filter keeps: filter keeps them in their original order. */
  function KeptPositions<T(!new)>(s: seq<T>, keep: T -> bool): (idx: seq<int>)
    ensures PicksInOrder(Filter(s, keep), s, idx)
  {
    if s == [] then []
    else
      var rest := Filter(s[1..], keep);
      var t := KeptPositions(s[1..], keep);
      var shifted := seq(|t|, i requires 0 <= i < |t| => t[i] + 1);
      PicksShifted(rest, s, t);
      if keep(s[0]) then
        PicksConsed(rest, s, shifted);
        [0] + shifted
      else
        shifted
  }

  /** Positions into the tail of s, moved up by one, are positions into s. */
  lemma PicksShifted<T>(r: seq<T>, s: seq<T>, idx: seq<int>)
    requires s != [] && PicksInOrder(r, s[1..], idx)
    ensures PicksInOrder(r, s, seq(|idx|, i requires 0 <= i < |idx| => idx[i] + 1))
    ensures forall i :: 0 <= i < |idx| ==> idx[i] + 1 > 0
  {
    var shifted := seq(|idx|, i requires 0 <= i < |idx| => idx[i] + 1);
    forall i | 0 <= i < |idx| ensures 0 <= shifted[i] < |s| && s[shifted[i]] == r[i] {
      assert s[shifted[i]] == s[1..][idx[i]];
    }
  }

  /** Picking the first element before picks made after it keeps the picks in order. */
  lemma PicksConsed<T>(r: seq<T>, s: seq<T>, idx: seq<int>)
    requires s != [] && PicksInOrder(r, s, idx)
    requires forall i :: 0 <= i < |idx| ==> idx[i] > 0
    ensures PicksInOrder([s[0]] + r, s, [0] + idx)
  {
  }

  /** filter distributes over concatenation, so it keeps the relative order of what it keeps. */
  lemma {:induction false} FilterAppend<T(!new)>(a: seq<T>, b: seq<T>, keep: T -> bool)
    ensures Filter(a + b, keep) == Filter(a, keep) + Filter(b, keep)
  {
    if a != [] {
      assert (a + b)[0] == a[0] && (a + b)[1..] == a[1..] + b;
      FilterAppend(a[1..], b, keep);
    } else {
      assert a + b == b;
    }
  }

  /** Filtering away nothing gives the same sequence back. */
  lemma {:induction false} FilterKeepsAll<T(!new)>(s: seq<T>, keep: T -> bool)
    requires forall i :: 0 <= i < |s| ==> keep(s[i])
    ensures Filter(s, keep) == s
  {
    if s != [] {
      FilterKeepsAll(s[1..], keep);
    }
  }

  /** The elements are in non-increasing order of `key`. */
  ghost predicate SortedDesc<T>(s: seq<T>, key: T -> int) {
    forall i, j :: 0 <= i < j < |s| ==> key(s[i]) >= key(s[j])
  }

  /** The elements whose key equals k, in order. */
  function WithKey<T>(s: seq<T>, key: T -> int, k: int): seq<T> {
    if s == [] then []
    else WithKey(s[..|s| - 1], key, k) + (if key(s[|s| - 1]) == k then [s[|s| - 1]] else [])
  }

  /** The sum of the keys. */
  function SumBy<T>(s: seq<T>, key: T -> int): int {
    if s == [] then 0 else SumBy(s[..|s| - 1], key) + key(s[|s| - 1])
  }

  /** Inserts x into a sequence sorted by descending key, after every element whose key is at
      least key(x): the place a stable sort gives an element that comes last in its input. */
  function InsertDesc<T>(t: seq<T>, x: T, key: T -> int): (r: seq<T>)
    requires SortedDesc(t, key)
    ensures SortedDesc(r, key)
    ensures multiset(r) == multiset(t) + multiset{x}
    ensures |r| == |t| + 1
  {
    if t == [] || key(t[|t| - 1]) >= key(x) then
      t + [x]
    else
      var front := t[..|t| - 1];
      var last := t[|t| - 1];
      var r' := InsertDesc(front, x, key);
      assert t == front + [last];
      KeysAtLeast(r', front, x, key, key(last));
      AppendLowest(r', last, key);
      r' + [last]
  }

  /** A rearrangement of front plus x has every key at least `bound` when front and x do. */
  lemma KeysAtLeast<T>(r: seq<T>, front: seq<T>, x: T, key: T -> int, bound: int)
    requires multiset(r) == multiset(front) + multiset{x}
    requires key(x) >= bound && forall i :: 0 <= i < |front| ==> key(front[i]) >= bound
    ensures forall i :: 0 <= i < |r| ==> key(r[i]) >= bound
  {
    forall i | 0 <= i < |r| ensures key(r[i]) >= bound {
      assert r[i] in multiset(r);
      if r[i] != x {
        assert r[i] in multiset(front);
        var j :| 0 <= j < |front| && front[j] == r[i];
      }
    }
  }

  /** Appending an element whose key is no greater than any key keeps the order descending. */
  lemma AppendLowest<T>(r: seq<T>, y: T, key: T -> int)
    requires SortedDesc(r, key) && forall i :: 0 <= i < |r| ==> key(r[i]) >= key(y)
    ensures SortedDesc(r + [y], key)
  {
  }

  /** The stable sort by descending key (insertion sort, element by element from the front). */
  function SortDesc<T>(s: seq<T>, key: T -> int): (r: seq<T>)
    ensures SortedDesc(r, key)
    ensures multiset(r) == multiset(s)
    ensures |r| == |s|
  {
    if s == [] then []
    else
      assert s == s[..|s| - 1] + [s[|s| - 1]];
      InsertDesc(SortDesc(s[..|s| - 1], key), s[|s| - 1], key)
  }

  lemma {:induction false} InsertDescWithKey<T>(t: seq<T>, x: T, key: T -> int, k: int)
    requires SortedDesc(t, key)
    ensures WithKey(InsertDesc(t, x, key), key, k) == WithKey(t, key, k) + (if key(x) == k then [x] else [])
  {
    var r := InsertDesc(t, x, key);
    if t == [] || key(t[|t| - 1]) >= key(x) {
      assert r == t + [x];
      assert r[..|r| - 1] == t;
    } else {
      var front := t[..|t| - 1];
      var last := t[|t| - 1];
      var r' := InsertDesc(front, x, key);
      assert r == r' + [last];
      InsertDescWithKey(front, x, key, k);
      assert r[..|r| - 1] == r';
      assert WithKey(r, key, k) == WithKey(r', key, k) + (if key(last) == k then [last] else []);
      assert WithKey(t, key, k) == WithKey(front, key, k) + (if key(last) == k then [last] else []);
    }
  }

  /** The sort is stable: the elements that share a key keep their relative order. */
  lemma {:induction false} SortDescStable<T>(s: seq<T>, key: T -> int, k: int)
    ensures WithKey(SortDesc(s, key), key, k) == WithKey(s, key, k)
  {
    if s != [] {
      var front := s[..|s| - 1];
      SortDescStable(front, key, k);
      InsertDescWithKey(SortDesc(front, key), s[|s| - 1], key, k);
    }
  }

  lemma {:induction false} InsertDescSum<T>(t: seq<T>, x: T, key: T -> int)
    requires SortedDesc(t, key)
    ensures SumBy(InsertDesc(t, x, key), key) == SumBy(t, key) + key(x)
  {
    var r := InsertDesc(t, x, key);
    if t == [] || key(t[|t| - 1]) >= key(x) {
      assert r[..|r| - 1] == t;
    } else {
      InsertDescSum(t[..|t| - 1], x, key);
      assert r[..|r| - 1] == InsertDesc(t[..|t| - 1], x, key);
    }
  }

  /** Sorting does not change the sum of the keys. */
  lemma {:induction false} SortDescSum<T>(s: seq<T>, key: T -> int)
    ensures SumBy(SortDesc(s, key), key) == SumBy(s, key)
  {
    if s != [] {
      SortDescSum(s[..|s| - 1], key);
      InsertDescSum(SortDesc(s[..|s| - 1], key), s[|s| - 1], key);
    }
  }

  /** Keeping a prefix keeps a prefix of every same-key subsequence. */
  lemma {:induction false} WithKeyOfPrefix<T>(s: seq<T>, n: nat, key: T -> int, k: int)
    requires n <= |s|
    ensures WithKey(s[..n], key, k) <= WithKey(s, key, k)
    decreases |s|
  {
    if n < |s| {
      assert s[..|s| - 1][..n] == s[..n];
      WithKeyOfPrefix(s[..|s| - 1], n, key, k);
    } else {
      assert s[..n] == s;
    }
  }

  /** Replacing one element changes the sum of the keys by the difference of the two keys. */
  lemma {:induction false} SumByUpdate<T>(s: seq<T>, i: nat, v: T, key: T -> int)
    requires i < |s|
    ensures SumBy(s[i := v], key) == SumBy(s, key) - key(s[i]) + key(v)
    decreases |s|
  {
    var n := |s| - 1;
    if i < n {
      assert s[i := v][..n] == s[..n][i := v];
      SumByUpdate(s[..n], i, v, key);
    } else {
      assert s[i := v][..n] == s[..n];
    }
  }

  /** Sorting by descending key and keeping the first n keeps only elements of the input. */
  lemma TopFromInput<T>(s: seq<T>, key: T -> int, n: nat)
    ensures var top := Take(SortDesc(s, key), n);
      forall i :: 0 <= i < |top| ==> top[i] in s
  {
    var sorted := SortDesc(s, key);
    var top := Take(sorted, n);
    forall i | 0 <= i < |top| ensures top[i] in s {
      assert top[i] == sorted[i];
      assert sorted[i] in multiset(s);
    }
  }

  /** Sorting by descending key and keeping the first n: everything kept comes from the input,
      and everything dropped has a key no greater than anything kept. */
  lemma TopOfSorted<T>(s: seq<T>, key: T -> int, n: nat)
    ensures var top := Take(SortDesc(s, key), n);
      && (forall i :: 0 <= i < |top| ==> top[i] in s)
      && (forall x, y :: x in multiset(s) - multiset(top) && y in top ==> key(y) >= key(x))
  {
    TopFromInput(s, key, n);
    CutScoresNoHigher(SortDesc(s, key), key, Take(SortDesc(s, key), n));
  }

  /** In a descending list, whatever follows a prefix has a key no greater than anything in it. */
  lemma CutScoresNoHigher<T>(sorted: seq<T>, key: T -> int, top: seq<T>)
    requires SortedDesc(sorted, key) && |top| <= |sorted| && top == sorted[..|top|]
    ensures forall x, y :: x in multiset(sorted) - multiset(top) && y in top ==> key(y) >= key(x)
  {
    assert sorted == top + sorted[|top|..];
    forall x, y | x in multiset(sorted) - multiset(top) && y in top ensures key(y) >= key(x) {
      assert x in multiset(sorted[|top|..]);
      var j :| |top| <= j < |sorted| && sorted[j] == x;
      var i :| 0 <= i < |top| && top[i] == y;
    }
  }
}
