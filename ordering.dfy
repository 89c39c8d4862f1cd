/**
 * The ordering JavaScript's `<` and `>` give the sort keys of the admin tables:
 * numbers by value, strings lexicographically by character (a proper prefix
 * comes first). Dafny's own `<` on sequences means "proper prefix", so the
 * lexicographic order is defined here.
 */
module Ordering {

  /** `a < b` on two JavaScript strings. */
  predicate LexLess(a: string, b: string)
    decreases |a|
  {
    |b| > 0 && (|a| == 0 || a[0] < b[0] || (a[0] == b[0] && LexLess(a[1..], b[1..])))
  }

  /** The textbook definition: a proper prefix, or a first differing position where `a` is smaller. */
  ghost predicate LexLessByPosition(a: string, b: string)
  {
    (|a| < |b| && a == b[..|a|]) ||
    (exists k :: 0 <= k < |a| && k < |b| && a[..k] == b[..k] && a[k] < b[k])
  }

  lemma {:induction false} LexLessMeansPosition(a: string, b: string)
    requires LexLess(a, b)
    ensures LexLessByPosition(a, b)
    decreases |a|
  {
    if |a| == 0 {
    } else if a[0] < b[0] {
      assert a[..0] == b[..0];
    } else {
      LexLessMeansPosition(a[1..], b[1..]);
      if |a[1..]| < |b[1..]| && a[1..] == b[1..][..|a[1..]|] {
        assert a == [a[0]] + a[1..];
        assert b[..|a|] == [b[0]] + b[1..][..|a[1..]|];
      } else {
        var k :| 0 <= k < |a[1..]| && k < |b[1..]| && a[1..][..k] == b[1..][..k] && a[1..][k] < b[1..][k];
        assert a[..k + 1] == [a[0]] + a[1..][..k];
        assert b[..k + 1] == [b[0]] + b[1..][..k];
        assert a[k + 1] == a[1..][k] && b[k + 1] == b[1..][k];
      }
    }
  }

  lemma {:induction false} PositionMeansLexLess(a: string, b: string)
    requires LexLessByPosition(a, b)
    ensures LexLess(a, b)
    decreases |a|
  {
    if |a| == 0 {
    } else if |a| < |b| && a == b[..|a|] {
      assert a[0] == b[0];
      assert a[1..] == b[1..][..|a[1..]|];
      PositionMeansLexLess(a[1..], b[1..]);
    } else {
      var k :| 0 <= k < |a| && k < |b| && a[..k] == b[..k] && a[k] < b[k];
      if k > 0 {
        assert a[0] == a[..k][0] == b[..k][0] == b[0];
        assert a[1..][..k - 1] == a[..k][1..] == b[..k][1..] == b[1..][..k - 1];
        assert a[1..][k - 1] == a[k] && b[1..][k - 1] == b[k];
        PositionMeansLexLess(a[1..], b[1..]);
      }
    }
  }

  /** Dafny's proper-prefix order is contained in the lexicographic one. */
  lemma ProperPrefixIsLexLess(a: string, b: string)
    requires a < b
    ensures LexLess(a, b)
  {
    PositionMeansLexLess(a, b);
  }

  lemma {:induction false} LexLessIrreflexive(a: string)
    ensures !LexLess(a, a)
    decreases |a|
  {
    if |a| > 0 {
      LexLessIrreflexive(a[1..]);
    }
  }

  lemma {:induction false} LexLessTransitive(a: string, b: string, c: string)
    requires LexLess(a, b) && LexLess(b, c)
    ensures LexLess(a, c)
    decreases |a|
  {
    if |a| > 0 && a[0] == b[0] == c[0] {
      LexLessTransitive(a[1..], b[1..], c[1..]);
    }
  }

  /** Two different strings are always ordered one way or the other, and never both. */
  lemma {:induction false} LexLessTotal(a: string, b: string)
    ensures a == b || LexLess(a, b) || LexLess(b, a)
    ensures !(LexLess(a, b) && LexLess(b, a))
    decreases |a|
  {
    if |a| > 0 && |b| > 0 && a[0] == b[0] {
      LexLessTotal(a[1..], b[1..]);
      if a[1..] == b[1..] {
        assert a == [a[0]] + a[1..] && b == [b[0]] + b[1..];
      }
    }
  }

  /** A sort key: the value of one record field, a number or a string. */
  datatype Key = Num(n: int) | Str(s: string)

  /**
   * `a < b` on two keys. Keys of one table column are all of one kind, so the
   * mixed cases never arise; they are ordered (numbers first) only to make the
   * order total.
   */
  predicate KeyLess(a: Key, b: Key)
  {
    match (a, b)
    case (Num(x), Num(y)) => x < y
    case (Str(x), Str(y)) => LexLess(x, y)
    case (Num(_), Str(_)) => true
    case (Str(_), Num(_)) => false
  }

  /** KeyLess is a strict total order. */
  lemma KeyLessStrictTotal(a: Key, b: Key, c: Key)
    ensures !KeyLess(a, a)
    ensures a == b || KeyLess(a, b) || KeyLess(b, a)
    ensures !(KeyLess(a, b) && KeyLess(b, a))
    ensures KeyLess(a, b) && KeyLess(b, c) ==> KeyLess(a, c)
  {
    if a.Str? { LexLessIrreflexive(a.s); }
    if a.Str? && b.Str? { LexLessTotal(a.s, b.s); }
    if a.Str? && b.Str? && c.Str? && LexLess(a.s, b.s) && LexLess(b.s, c.s) {
      LexLessTransitive(a.s, b.s, c.s);
    }
  }
}
