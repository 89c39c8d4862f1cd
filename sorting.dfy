/**
 * The row sort of every admin table: `[...rows].sort(cmp)` with the comparator
 * the pages share. ECMAScript (2019 onward) requires `Array.prototype.sort` to
 * be stable, so the result is the unique stable sort by the comparator; it is
 * specified here by the functional insertion sort `StableSort` and computed on
 * a fresh array by `SortCopy`.
 */
module Sorting {
  import opened Ordering

  datatype Direction = Asc | Desc

  function Flip(d: Direction): (r: Direction)
    ensures r != d
  {
    if d == Asc then Desc else Asc
  }

  /**
   * The pages' comparator: -1 when `a` goes first, 1 when `b` goes first,
   * 0 when their keys are equal.
   */
  function Compare<R>(key: R -> Key, dir: Direction, a: R, b: R): int
  {
    if KeyLess(key(a), key(b)) then (if dir == Asc then -1 else 1)
    else if KeyLess(key(b), key(a)) then (if dir == Asc then 1 else -1)
    else 0
  }

  /** The comparator is antisymmetric and gives 0 exactly on equal keys. */
  lemma CompareProperties<R>(key: R -> Key, dir: Direction, a: R, b: R)
    ensures Compare(key, dir, a, b) == -Compare(key, dir, b, a)
    ensures Compare(key, dir, a, b) == 0 <==> key(a) == key(b)
    ensures -1 <= Compare(key, dir, a, b) <= 1
  {
    KeyLessStrictTotal(key(a), key(b), key(a));
  }

  /** "Not after" is transitive: the comparator is consistent, as `sort` requires. */
  lemma CompareTransitive<R>(key: R -> Key, dir: Direction, a: R, b: R, c: R)
    requires Compare(key, dir, a, b) <= 0 && Compare(key, dir, b, c) <= 0
    ensures Compare(key, dir, a, c) <= 0
  {
    KeyLessStrictTotal(key(a), key(b), key(c));
    KeyLessStrictTotal(key(c), key(b), key(a));
    KeyLessStrictTotal(key(a), key(c), key(b));
  }

  /** Every pair of rows is in comparator order. */
  ghost predicate Ordered<R>(key: R -> Key, dir: Direction, s: seq<R>)
  {
    forall i, j :: 0 <= i < j < |s| ==> Compare(key, dir, s[i], s[j]) <= 0
  }

  /** The rows of `s` whose key is `k`, in their order in `s`. */
  function WithKey<R>(key: R -> Key, s: seq<R>, k: Key): seq<R>
  {
    if s == [] then []
    else WithKey(key, s[..|s| - 1], k) + (if key(s[|s| - 1]) == k then [s[|s| - 1]] else [])
  }

  /** Stability: every group of rows with equal keys keeps its input order. */
  ghost predicate Stable<R>(key: R -> Key, input: seq<R>, output: seq<R>)
  {
    forall k :: WithKey(key, output, k) == WithKey(key, input, k)
  }

  /** Insert `x` into `s` after every row that does not go strictly after it. */
  function Insert<R>(key: R -> Key, dir: Direction, s: seq<R>, x: R): seq<R>
  {
    if s == [] || Compare(key, dir, x, s[|s| - 1]) >= 0 then s + [x]
    else Insert(key, dir, s[..|s| - 1], x) + [s[|s| - 1]]
  }

  function StableSort<R>(key: R -> Key, dir: Direction, xs: seq<R>): seq<R>
  {
    if xs == [] then [] else Insert(key, dir, StableSort(key, dir, xs[..|xs| - 1]), xs[|xs| - 1])
  }

  lemma {:induction false} WithKeyAppend<R>(key: R -> Key, s: seq<R>, t: seq<R>, k: Key)
    ensures WithKey(key, s + t, k) == WithKey(key, s, k) + WithKey(key, t, k)
    decreases |t|
  {
    if t == [] {
      assert s + t == s;
    } else {
      assert (s + t)[..|s + t| - 1] == s + t[..|t| - 1];
      WithKeyAppend(key, s, t[..|t| - 1], k);
    }
  }

  lemma {:induction false} InsertMultiset<R>(key: R -> Key, dir: Direction, s: seq<R>, x: R)
    ensures multiset(Insert(key, dir, s, x)) == multiset(s) + multiset{x}
    decreases |s|
  {
    if s != [] && Compare(key, dir, x, s[|s| - 1]) < 0 {
      InsertMultiset(key, dir, s[..|s| - 1], x);
      assert s == s[..|s| - 1] + [s[|s| - 1]];
    }
  }

  lemma WithKeySingleton<R>(key: R -> Key, y: R, k: Key)
    ensures WithKey(key, [y], k) == if key(y) == k then [y] else []
  {
    assert [y][..0] == [];
  }

  /** Two rows of different keys can trade places without changing any group. */
  lemma SwapGroups<R>(key: R -> Key, init: seq<R>, x: R, y: R, k: Key)
    requires key(x) != key(y)
    ensures WithKey(key, init + [x], k) + WithKey(key, [y], k)
         == WithKey(key, init + [y], k) + WithKey(key, [x], k)
  {
    WithKeyAppend(key, init, [x], k);
    WithKeyAppend(key, init, [y], k);
    WithKeySingleton(key, x, k);
    WithKeySingleton(key, y, k);
  }

  /** Inserting `x` keeps each group as appending `x` would. */
  lemma {:induction false} InsertStable<R>(key: R -> Key, dir: Direction, s: seq<R>, x: R, k: Key)
    ensures WithKey(key, Insert(key, dir, s, x), k) == WithKey(key, s + [x], k)
    decreases |s|
  {
    if s != [] && Compare(key, dir, x, s[|s| - 1]) < 0 {
      var init, last := s[..|s| - 1], s[|s| - 1];
      var r := Insert(key, dir, init, x);
      assert Insert(key, dir, s, x) == r + [last];
      CompareProperties(key, dir, x, last);
      WithKeyAppend(key, r, [last], k);
      InsertStable(key, dir, init, x, k);
      SwapGroups(key, init, x, last, k);
      assert s == init + [last];
      WithKeyAppend(key, s, [x], k);
    }
  }

  /** Dropping the last row keeps a sequence ordered. */
  lemma OrderedPrefix<R>(key: R -> Key, dir: Direction, s: seq<R>)
    requires Ordered(key, dir, s) && s != []
    ensures Ordered(key, dir, s[..|s| - 1])
  {
  }

  /** Appending a row that no row goes after keeps a sequence ordered. */
  lemma OrderedSnoc<R>(key: R -> Key, dir: Direction, s: seq<R>, y: R)
    requires Ordered(key, dir, s)
    requires forall e :: e in s ==> Compare(key, dir, e, y) <= 0
    ensures Ordered(key, dir, s + [y])
  {
    var t := s + [y];
    forall i, j | 0 <= i < j < |t| ensures Compare(key, dir, t[i], t[j]) <= 0 {
      assert t[i] == s[i];
      if j == |s| {
        assert s[i] in s;
      } else {
        assert t[j] == s[j];
      }
    }
  }

  /** Appending `x` at the end, where the scan stops at once. */
  lemma InsertOrderedAtEnd<R>(key: R -> Key, dir: Direction, s: seq<R>, x: R)
    requires Ordered(key, dir, s) && s != [] && Compare(key, dir, x, s[|s| - 1]) >= 0
    ensures Ordered(key, dir, s + [x])
  {
    var last := s[|s| - 1];
    CompareProperties(key, dir, x, last);
    forall e | e in s ensures Compare(key, dir, e, x) <= 0 {
      NotAfterLast(key, dir, s, e);
      CompareTransitive(key, dir, e, last, x);
    }
    OrderedSnoc(key, dir, s, x);
  }

  lemma {:induction false} InsertOrdered<R>(key: R -> Key, dir: Direction, s: seq<R>, x: R)
    requires Ordered(key, dir, s)
    ensures Ordered(key, dir, Insert(key, dir, s, x))
    decreases |s|
  {
    if s == [] {
      assert Insert(key, dir, s, x) == [x];
    } else if Compare(key, dir, x, s[|s| - 1]) >= 0 {
      InsertOrderedAtEnd(key, dir, s, x);
    } else {
      var init, last := s[..|s| - 1], s[|s| - 1];
      var r := Insert(key, dir, init, x);
      assert Insert(key, dir, s, x) == r + [last];
      OrderedPrefix(key, dir, s);
      InsertOrdered(key, dir, init, x);
      InsertMultiset(key, dir, init, x);
      forall e | e in r ensures Compare(key, dir, e, last) <= 0 {
        assert e in multiset(r);
        if e == x {
          CompareProperties(key, dir, x, last);
        } else {
          assert e in multiset(init);
          assert e in s;
          NotAfterLast(key, dir, s, e);
        }
      }
      OrderedSnoc(key, dir, r, last);
    }
  }

  /** The sorted rows are a permutation of the input. */
  lemma {:induction false} SortPermutation<R>(key: R -> Key, dir: Direction, xs: seq<R>)
    ensures multiset(StableSort(key, dir, xs)) == multiset(xs)
    ensures |StableSort(key, dir, xs)| == |xs|
    decreases |xs|
  {
    if xs != [] {
      SortPermutation(key, dir, xs[..|xs| - 1]);
      InsertMultiset(key, dir, StableSort(key, dir, xs[..|xs| - 1]), xs[|xs| - 1]);
      assert xs == xs[..|xs| - 1] + [xs[|xs| - 1]];
    }
  }

  /** The sorted rows are in comparator order. */
  lemma {:induction false} SortOrdered<R>(key: R -> Key, dir: Direction, xs: seq<R>)
    ensures Ordered(key, dir, StableSort(key, dir, xs))
    decreases |xs|
  {
    if xs != [] {
      SortOrdered(key, dir, xs[..|xs| - 1]);
      InsertOrdered(key, dir, StableSort(key, dir, xs[..|xs| - 1]), xs[|xs| - 1]);
    }
  }

  /** One more row: inserting into a sequence with the prefix's groups gives the longer prefix's groups. */
  lemma GroupStep<R>(key: R -> Key, dir: Direction, sorted: seq<R>, init: seq<R>, last: R, k: Key)
    requires WithKey(key, sorted, k) == WithKey(key, init, k)
    ensures WithKey(key, Insert(key, dir, sorted, last), k) == WithKey(key, init + [last], k)
  {
    InsertStable(key, dir, sorted, last, k);
    WithKeyAppend(key, sorted, [last], k);
    WithKeyAppend(key, init, [last], k);
  }

  /** The group of key `k` of the sorted rows is the input's. */
  lemma {:induction false} SortKeepsGroup<R>(key: R -> Key, dir: Direction, xs: seq<R>, k: Key)
    ensures WithKey(key, StableSort(key, dir, xs), k) == WithKey(key, xs, k)
    decreases |xs|
  {
    if xs != [] {
      var init, last := xs[..|xs| - 1], xs[|xs| - 1];
      SortKeepsGroup(key, dir, init, k);
      GroupStep(key, dir, StableSort(key, dir, init), init, last, k);
      assert xs == init + [last];
    }
  }

  /** Rows with equal keys keep their input order. */
  lemma SortStable<R>(key: R -> Key, dir: Direction, xs: seq<R>)
    ensures Stable(key, xs, StableSort(key, dir, xs))
  {
    forall k ensures WithKey(key, StableSort(key, dir, xs), k) == WithKey(key, xs, k) {
      SortKeepsGroup(key, dir, xs, k);
    }
  }

  /** In comparator order means non-decreasing keys for 'asc' and non-increasing keys for 'desc'. */
  lemma OrderedMeansMonotoneKeys<R>(key: R -> Key, dir: Direction, s: seq<R>, i: int, j: int)
    requires Ordered(key, dir, s) && 0 <= i < j < |s|
    ensures dir == Asc ==> !KeyLess(key(s[j]), key(s[i]))
    ensures dir == Desc ==> !KeyLess(key(s[i]), key(s[j]))
  {
    assert Compare(key, dir, s[i], s[j]) <= 0;
    KeyLessStrictTotal(key(s[i]), key(s[j]), key(s[i]));
  }

  lemma {:induction false} WithKeyMember<R>(key: R -> Key, s: seq<R>, k: Key, y: R)
    requires y in WithKey(key, s, k)
    ensures y in s && key(y) == k
    decreases |s|
  {
    if y !in WithKey(key, s[..|s| - 1], k) {
      assert y == s[|s| - 1];
    } else {
      WithKeyMember(key, s[..|s| - 1], k, y);
    }
  }

  /** No row of an ordered sequence goes after its last row. */
  lemma NotAfterLast<R>(key: R -> Key, dir: Direction, s: seq<R>, x: R)
    requires Ordered(key, dir, s) && x in s
    ensures Compare(key, dir, x, s[|s| - 1]) <= 0
  {
    var i :| 0 <= i < |s| && s[i] == x;
    if i == |s| - 1 {
      CompareProperties(key, dir, x, x);
    }
  }

  /** The last row of `s` does not go after the last row of `t`, when both have the same groups. */
  lemma LastNotAfterLast<R>(key: R -> Key, dir: Direction, s: seq<R>, t: seq<R>)
    requires Ordered(key, dir, t) && s != [] && t != []
    requires forall k :: WithKey(key, s, k) == WithKey(key, t, k)
    ensures Compare(key, dir, s[|s| - 1], t[|t| - 1]) <= 0
  {
    var a := s[|s| - 1];
    assert a in WithKey(key, s, key(a));
    WithKeyMember(key, t, key(a), a);
    NotAfterLast(key, dir, t, a);
  }

  /** The last rows of two ordered sequences with the same groups have equal keys. */
  lemma LastKeysAgree<R>(key: R -> Key, dir: Direction, s: seq<R>, t: seq<R>)
    requires Ordered(key, dir, s) && Ordered(key, dir, t) && s != [] && t != []
    requires forall k :: WithKey(key, s, k) == WithKey(key, t, k)
    ensures key(s[|s| - 1]) == key(t[|t| - 1])
  {
    LastNotAfterLast(key, dir, s, t);
    LastNotAfterLast(key, dir, t, s);
    CompareProperties(key, dir, s[|s| - 1], t[|t| - 1]);
  }

  /** Removing last rows of equal key from sequences with the same groups keeps the groups equal. */
  lemma DropLastGroups<R>(key: R -> Key, s: seq<R>, t: seq<R>, s': seq<R>, t': seq<R>)
    requires s != [] && t != [] && key(s[|s| - 1]) == key(t[|t| - 1])
    requires s' == s[..|s| - 1] && t' == t[..|t| - 1]
    requires forall k :: WithKey(key, s, k) == WithKey(key, t, k)
    ensures s[|s| - 1] == t[|t| - 1]
    ensures forall k :: WithKey(key, s', k) == WithKey(key, t', k)
  {
    var a, b := s[|s| - 1], t[|t| - 1];
    var ka := key(a);
    var u := WithKey(key, s, ka);
    assert u == WithKey(key, t, ka);
    assert u == WithKey(key, s', ka) + [a];
    assert u == WithKey(key, t', ka) + [b];
    assert a == u[|u| - 1] == b;
    forall k ensures WithKey(key, s', k) == WithKey(key, t', k) {
      var v := WithKey(key, s, k);
      assert v == WithKey(key, t, k);
      if ka == k {
        assert WithKey(key, s', k) == v[..|v| - 1] == WithKey(key, t', k);
      } else {
        assert v == WithKey(key, s', k);
        assert v == WithKey(key, t', k);
      }
    }
  }

  /** A non-empty sequence has a non-empty group: the one of its last row. */
  lemma LastGroupNonEmpty<R>(key: R -> Key, s: seq<R>)
    requires s != []
    ensures WithKey(key, s, key(s[|s| - 1])) != []
  {
  }

  /** Both sequences lose the same last row and stay ordered with equal groups. */
  lemma DropLastOrdered<R>(key: R -> Key, dir: Direction, s: seq<R>, t: seq<R>, s': seq<R>, t': seq<R>)
    requires Ordered(key, dir, s) && Ordered(key, dir, t) && s != [] && t != []
    requires s' == s[..|s| - 1] && t' == t[..|t| - 1]
    requires forall k :: WithKey(key, s, k) == WithKey(key, t, k)
    ensures s[|s| - 1] == t[|t| - 1]
    ensures Ordered(key, dir, s') && Ordered(key, dir, t')
    ensures forall k :: WithKey(key, s', k) == WithKey(key, t', k)
  {
    LastKeysAgree(key, dir, s, t);
    DropLastGroups(key, s, t, s', t');
    OrderedPrefix(key, dir, s);
    OrderedPrefix(key, dir, t);
  }

  /** A sequence whose groups are all empty is empty. */
  lemma NoGroupsNoRows<R>(key: R -> Key, s: seq<R>, t: seq<R>)
    requires s == [] || t == []
    requires forall k :: WithKey(key, s, k) == WithKey(key, t, k)
    ensures s == [] && t == []
  {
    if s != [] { LastGroupNonEmpty(key, s); }
    if t != [] { LastGroupNonEmpty(key, t); }
  }

  /**
   * Two sequences in comparator order whose equal-key groups agree are equal.
   * So any stable sort (the engine's own included) gives StableSort's result.
   */
  lemma {:induction false} OrderedGroupsDetermine<R>(key: R -> Key, dir: Direction, s: seq<R>, t: seq<R>)
    requires Ordered(key, dir, s) && Ordered(key, dir, t)
    requires forall k :: WithKey(key, s, k) == WithKey(key, t, k)
    ensures s == t
    decreases |s| + |t|
  {
    if s == [] || t == [] {
      NoGroupsNoRows(key, s, t);
    } else {
      var s', t' := s[..|s| - 1], t[..|t| - 1];
      DropLastOrdered(key, dir, s, t, s', t');
      OrderedGroupsDetermine(key, dir, s', t');
      assert s == s' + [s[|s| - 1]] && t == t' + [t[|t| - 1]];
    }
  }

  /** StableSort is the only ordered, stable rearrangement of the rows. */
  lemma StableSortUnique<R>(key: R -> Key, dir: Direction, xs: seq<R>, t: seq<R>)
    requires Ordered(key, dir, t) && Stable(key, xs, t)
    ensures t == StableSort(key, dir, xs)
  {
    SortOrdered(key, dir, xs);
    SortStable(key, dir, xs);
    OrderedGroupsDetermine(key, dir, t, StableSort(key, dir, xs));
  }

  /** StableSort of a one-longer prefix inserts the next row. */
  lemma SortPrefixStep<R>(key: R -> Key, dir: Direction, xs: seq<R>, i: int)
    requires 0 <= i < |xs|
    ensures StableSort(key, dir, xs[..i + 1]) == Insert(key, dir, StableSort(key, dir, xs[..i]), xs[i])
  {
    assert xs[..i + 1][..i] == xs[..i];
  }

  /** Moving `x` left past `sorted[j - 1]`, which goes strictly after it. */
  lemma InsertShift<R>(key: R -> Key, dir: Direction, sorted: seq<R>, x: R, j: int)
    requires 0 < j <= |sorted| && Compare(key, dir, x, sorted[j - 1]) < 0
    requires Insert(key, dir, sorted, x) == Insert(key, dir, sorted[..j], x) + sorted[j..]
    ensures Insert(key, dir, sorted, x) == Insert(key, dir, sorted[..j - 1], x) + sorted[j - 1..]
  {
    assert sorted[..j][..j - 1] == sorted[..j - 1];
    assert sorted[j - 1..] == [sorted[j - 1]] + sorted[j..];
  }

  /** Where the scan stops, `x` is put between the two parts of the prefix. */
  lemma InsertFinish<R>(key: R -> Key, dir: Direction, sorted: seq<R>, x: R, j: int)
    requires 0 <= j <= |sorted| && (j == 0 || Compare(key, dir, x, sorted[j - 1]) >= 0)
    requires Insert(key, dir, sorted, x) == Insert(key, dir, sorted[..j], x) + sorted[j..]
    ensures Insert(key, dir, sorted, x) == sorted[..j] + [x] + sorted[j..]
  {
  }

  /**
   * The scan of an insertion step: from the end of the sorted prefix
   * `a[..i]`, step left past every row that goes strictly after `x`.
   */
  method FindSlot<R>(a: array<R>, i: int, x: R, key: R -> Key, dir: Direction) returns (j: int)
    requires 0 <= i <= a.Length
    ensures 0 <= j <= i
    ensures Insert(key, dir, a[..i], x) == a[..j] + [x] + a[j..i]
  {
    ghost var sorted := a[..i];
    j := i;
    assert sorted[..j] == sorted && sorted[j..] == [];
    while j > 0 && Compare(key, dir, x, a[j - 1]) < 0
      invariant 0 <= j <= i
      invariant Insert(key, dir, sorted, x) == Insert(key, dir, sorted[..j], x) + sorted[j..]
    {
      InsertShift(key, dir, sorted, x, j);
      j := j - 1;
    }
    InsertFinish(key, dir, sorted, x, j);
    assert sorted[..j] == a[..j] && sorted[j..] == a[j..i];
  }

  /** Move the rows `a[j..i]` one place to the right, over `a[i]`. */
  method ShiftRight<R>(a: array<R>, j: int, i: int)
    requires 0 <= j <= i < a.Length
    modifies a
    ensures a[..j] == old(a[..j])
    ensures a[j + 1..i + 1] == old(a[j..i])
    ensures a[i + 1..] == old(a[i + 1..])
  {
    var k := i;
    while k > j
      invariant j <= k <= i
      invariant forall m :: 0 <= m <= k ==> a[m] == old(a[m])
      invariant forall m :: k < m <= i ==> a[m] == old(a[m - 1])
      invariant forall m :: i < m < a.Length ==> a[m] == old(a[m])
    {
      a[k] := a[k - 1];
      k := k - 1;
    }
  }

  /** One step of the insertion sort: `a[i]` moves into its place in the sorted prefix `a[..i]`. */
  method InsertStep<R>(a: array<R>, i: int, key: R -> Key, dir: Direction)
    requires 0 <= i < a.Length
    modifies a
    ensures a[..i + 1] == Insert(key, dir, old(a[..i]), old(a[i]))
    ensures a[i + 1..] == old(a[i + 1..])
  {
    var x := a[i];
    var j := FindSlot(a, i, x, key, dir);
    ShiftRight(a, j, i);
    a[j] := x;
    assert a[..i + 1] == a[..j] + [a[j]] + a[j + 1..i + 1];
  }

  /**
   * `[...xs].sort(cmp)`: copy the rows into a fresh array and sort it in place
   * by straight insertion, which is stable.
   */
  method SortCopy<R>(xs: seq<R>, key: R -> Key, dir: Direction) returns (a: array<R>)
    ensures fresh(a)
    ensures a[..] == StableSort(key, dir, xs)
  {
    a := new R[|xs|](k requires 0 <= k < |xs| => xs[k]);
    assert a[..] == xs;
    var i := 0;
    while i < a.Length
      invariant 0 <= i <= a.Length == |xs|
      invariant a[..i] == StableSort(key, dir, xs[..i])
      invariant a[i..] == xs[i..]
    {
      assert a[i] == xs[i] && a[i + 1..] == xs[i + 1..];
      InsertStep(a, i, key, dir);
      SortPrefixStep(key, dir, xs, i);
      i := i + 1;
    }
    assert xs[..a.Length] == xs;
  }
}
