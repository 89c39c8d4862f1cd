/**
 * The list edits the pages apply to their state lists: `filter`, removing
 * every copy of a value, the "filter or append" membership toggle, the
 * checkbox update, and removal by index through `filter((_, i) => i !== index)`.
 */
module ListOps {

  /** `xs.filter(p)`. */
  function Filter<T(!new)>(xs: seq<T>, p: T -> bool): (r: seq<T>)
    ensures |r| <= |xs|
    ensures forall y :: y in r <==> y in xs && p(y)
  {
    if |xs| == 0 then [] else (if p(xs[0]) then [xs[0]] else []) + Filter(xs[1..], p)
  }

  /** Filtering a concatenation filters each part, in order. */
  lemma {:induction false} FilterAppend<T(!new)>(xs: seq<T>, ys: seq<T>, p: T -> bool)
    ensures Filter(xs + ys, p) == Filter(xs, p) + Filter(ys, p)
    decreases |xs|
  {
    if |xs| > 0 {
      assert (xs + ys)[1..] == xs[1..] + ys;
      FilterAppend(xs[1..], ys, p);
    } else {
      assert xs + ys == ys;
    }
  }

  /** A filter that keeps every element keeps the list. */
  lemma {:induction false} FilterAll<T(!new)>(xs: seq<T>, p: T -> bool)
    requires forall y :: y in xs ==> p(y)
    ensures Filter(xs, p) == xs
    decreases |xs|
  {
    if |xs| > 0 {
      assert forall y :: y in xs[1..] ==> y in xs;
      FilterAll(xs[1..], p);
      assert [xs[0]] + xs[1..] == xs;
    }
  }

  /** `xs.filter(y => y !== x)`: every copy of x removed, the rest in order. */
  function RemoveAll<T(==,!new)>(xs: seq<T>, x: T): (r: seq<T>)
    ensures x !in r
    ensures forall y :: y in r <==> y in xs && y != x
    ensures |r| <= |xs|
  {
    if |xs| == 0 then [] else (if xs[0] == x then [] else [xs[0]]) + RemoveAll(xs[1..], x)
  }

  /** Removing a value that is absent changes nothing. */
  lemma {:induction false} RemoveAbsent<T(!new)>(xs: seq<T>, x: T)
    requires x !in xs
    ensures RemoveAll(xs, x) == xs
    decreases |xs|
  {
    if |xs| > 0 {
      assert x !in xs[1..];
      RemoveAbsent(xs[1..], x);
      assert [xs[0]] + xs[1..] == xs;
    }
  }

  /** Removing from a concatenation removes from each part. */
  lemma {:induction false} RemoveAllAppend<T(!new)>(xs: seq<T>, ys: seq<T>, x: T)
    ensures RemoveAll(xs + ys, x) == RemoveAll(xs, x) + RemoveAll(ys, x)
    decreases |xs|
  {
    if |xs| > 0 {
      assert (xs + ys)[1..] == xs[1..] + ys;
      RemoveAllAppend(xs[1..], ys, x);
    } else {
      assert xs + ys == ys;
    }
  }

  /** Removing a value twice is removing it once. */
  lemma RemoveAllIdempotent<T(!new)>(xs: seq<T>, x: T)
    ensures RemoveAll(RemoveAll(xs, x), x) == RemoveAll(xs, x)
  {
    RemoveAbsent(RemoveAll(xs, x), x);
  }

  /**
   * The "includes, then filter or append" toggle: a present x loses every
   * copy, an absent x is appended at the end; other values keep their presence.
   */
  function Toggle<T(==,!new)>(xs: seq<T>, x: T): (r: seq<T>)
    ensures x in r <==> x !in xs
    ensures forall y :: y != x ==> (y in r <==> y in xs)
  {
    if x in xs then RemoveAll(xs, x) else xs + [x]
  }

  /** Toggling x leaves the rest of the list, order included, as it was. */
  lemma ToggleKeepsOthers<T(!new)>(xs: seq<T>, x: T)
    ensures RemoveAll(Toggle(xs, x), x) == RemoveAll(xs, x)
  {
    if x in xs {
      RemoveAllIdempotent(xs, x);
    } else {
      RemoveAllAppend(xs, [x], x);
      assert RemoveAll([x], x) == [];
    }
  }

  /** Toggling a value the list does not hold, twice, gives back the list. */
  lemma ToggleTwiceAbsent<T(!new)>(xs: seq<T>, x: T)
    requires x !in xs
    ensures Toggle(xs, x) == xs + [x]
    ensures Toggle(Toggle(xs, x), x) == xs
  {
    RemoveAllAppend(xs, [x], x);
    assert RemoveAll([x], x) == [];
    RemoveAbsent(xs, x);
  }

  /** Toggling a value the list holds, twice, moves it to the end as a single copy. */
  lemma ToggleTwicePresent<T(!new)>(xs: seq<T>, x: T)
    requires x in xs
    ensures Toggle(Toggle(xs, x), x) == RemoveAll(xs, x) + [x]
  {
  }

  /** The checkbox update: checked appends x, unchecked removes every copy of x. */
  function SetChecked<T(==,!new)>(xs: seq<T>, x: T, checked: bool): (r: seq<T>)
    ensures checked ==> |r| == |xs| + 1 && r[..|xs|] == xs && r[|xs|] == x
    ensures !checked ==> x !in r
    ensures RemoveAll(r, x) == RemoveAll(xs, x)
  {
    if checked then
      RemoveAllAppend(xs, [x], x);
      assert RemoveAll([x], x) == [];
      xs + [x]
    else
      RemoveAllIdempotent(xs, x);
      RemoveAll(xs, x)
  }

  /** `xs.filter((_, j) => j !== i)`: the element at i dropped, or nothing when i is out of range. */
  function RemoveAt<T>(xs: seq<T>, i: int): (r: seq<T>)
    ensures 0 <= i < |xs| ==>
              (|r| == |xs| - 1
               && (forall k :: 0 <= k < i ==> r[k] == xs[k])
               && (forall k :: i <= k < |r| ==> r[k] == xs[k + 1]))
    ensures !(0 <= i < |xs|) ==> r == xs
  {
    if 0 <= i < |xs| then xs[..i] + xs[i + 1..] else xs
  }
}
