/**
 * The currency text codec of the admin pages: `formatCurrency` writes a
 * number with its decimal digits grouped in threes from the right,
 * `value.toString().replace(/\B(?=(\d{3})+(?!\d))/g, sep)`, with `,` on the
 * customer page and `.` elsewhere; `parseCurrency` keeps the ASCII digits
 * of a text, `value.replace(/[^\d]/g, '')`, and reads them with `parseInt`.
 */
module Currency {
  import opened Wrappers
  import opened ListOps

  /** `\d`: an ASCII digit. */
  predicate IsDigit(c: char)
  {
    '0' <= c <= '9'
  }

  predicate AllDigits(s: string)
  {
    forall k :: 0 <= k < |s| ==> IsDigit(s[k])
  }

  function DigitChar(d: nat): (c: char)
    requires d < 10
    ensures IsDigit(c) && c as int - '0' as int == d
  {
    ('0' as int + d) as char
  }

  /** `n.toString()` for a natural number: its decimal digits, no leading zero, "0" for 0. */
  function Digits(n: nat): (r: string)
    ensures |r| >= 1 && AllDigits(r)
    ensures r[0] == '0' ==> n == 0
  {
    if n < 10 then [DigitChar(n)]
    else
      var r := Digits(n / 10) + [DigitChar(n % 10)];
      assert r[0] == Digits(n / 10)[0];
      r
  }

  /** Numbers below 1000 have at most three digits. */
  lemma SmallHasFewDigits(n: nat)
    requires n < 1000
    ensures |Digits(n)| <= 3
  {
    if n >= 10 {
      assert |Digits(n)| == |Digits(n / 10)| + 1;
      if n / 10 >= 10 {
        assert |Digits(n / 10)| == |Digits(n / 100)| + 1;
      }
    }
  }

  /** The number a digit string denotes, as `parseInt` reads it (leading zeros allowed). */
  function DecimalValue(ds: string): nat
    requires AllDigits(ds)
  {
    if |ds| == 0 then 0
    else DecimalValue(ds[..|ds| - 1]) * 10 + (ds[|ds| - 1] as int - '0' as int)
  }

  /** Reading back the digits of n gives n. */
  lemma {:induction false} DigitsValue(n: nat)
    ensures DecimalValue(Digits(n)) == n
  {
    if n >= 10 {
      var ds := Digits(n);
      assert ds[..|ds| - 1] == Digits(n / 10);
      DigitsValue(n / 10);
    }
  }

  /** The separators the pages use: `,` on the customer page, `.` on the others. */
  datatype Separator = Comma | Dot

  function SepChar(sep: Separator): (c: char)
    ensures !IsDigit(c)
  {
    match sep
    case Comma => ','
    case Dot => '.'
  }

  /**
   * Whether the regex matches in front of a digit that has `rest` digits
   * after it: `(?=(\d{3})+(?!\d))` asks for a positive multiple of three
   * digits and then the end of the run.
   */
  predicate Lookahead(rest: nat)
  {
    rest > 0 && rest % 3 == 0
  }

  /**
   * The global replacement on a run of digits, left to right: after each
   * digit, the separator goes in when the digits still to come satisfy the
   * lookahead. `\B` rules out the front of the run, which is never tested.
   */
  function Group(ds: string, sep: char): string
  {
    if |ds| == 0 then []
    else [ds[0]] + (if Lookahead(|ds| - 1) then [sep] else []) + Group(ds[1..], sep)
  }

  /** Grouping written the other way: the last three digits split off, the rest grouped. */
  function GroupByChunks(ds: string, sep: char): string
  {
    if |ds| <= 3 then ds
    else GroupByChunks(ds[..|ds| - 3], sep) + [sep] + ds[|ds| - 3..]
  }

  /** Runs of at most three digits get no separator. */
  lemma {:induction false} ShortRunUnchanged(ds: string, sep: char)
    requires |ds| <= 3
    ensures Group(ds, sep) == ds
  {
    if |ds| > 0 {
      ShortRunUnchanged(ds[1..], sep);
      assert [ds[0]] + ds[1..] == ds;
    }
  }

  /** Grouping a run of four or more: the grouped front, a separator, the last three digits. */
  lemma {:induction false} GroupSplitsLastThree(ds: string, sep: char)
    requires |ds| > 3
    ensures Group(ds, sep) == Group(ds[..|ds| - 3], sep) + [sep] + ds[|ds| - 3..]
  {
    var n := |ds|;
    var mark: string := if Lookahead(n - 1) then [sep] else [];
    var tail := ds[1..];
    if n == 4 {
      ShortRunUnchanged(tail, sep);
      assert ds[..1] == [ds[0]];
      assert Group([ds[0]], sep) == [ds[0]];
      assert ds[1..] == ds[n - 3..];
    } else {
      GroupSplitsLastThree(tail, sep);
      var front := ds[..n - 3];
      assert front[1..] == tail[..|tail| - 3];
      assert tail[|tail| - 3..] == ds[n - 3..];
      assert Lookahead(|front| - 1) == Lookahead(n - 1);
      assert Group(front, sep) == [ds[0]] + mark + Group(front[1..], sep);
    }
  }

  /** The left-to-right replacement equals the chunk-by-chunk grouping. */
  lemma {:induction false} GroupIsChunked(ds: string, sep: char)
    ensures Group(ds, sep) == GroupByChunks(ds, sep)
    decreases |ds|
  {
    if |ds| <= 3 {
      ShortRunUnchanged(ds, sep);
    } else {
      GroupSplitsLastThree(ds, sep);
      GroupIsChunked(ds[..|ds| - 3], sep);
    }
  }

  /** One digit, then a separator or nothing, then the rest: only the digits survive the filter. */
  lemma UngroupStep(d: char, mark: string, sep: char, g: string, rest: string)
    requires IsDigit(d) && !IsDigit(sep) && (mark == [] || mark == [sep])
    requires Filter(g, IsDigit) == rest
    ensures Filter([d] + mark + g, IsDigit) == [d] + rest
  {
    FilterAppend([d] + mark, g, IsDigit);
    FilterAppend([d], mark, IsDigit);
    FilterOne(d);
    if mark != [] {
      FilterOne(sep);
    }
  }

  /** The filter on a single character. */
  lemma FilterOne(c: char)
    ensures Filter([c], IsDigit) == if IsDigit(c) then [c] else []
  {
    assert [c][1..] == [];
  }

  /** Deleting the separators from the grouped digits gives back the digits. */
  lemma {:induction false} Ungroup(ds: string, sep: char)
    requires AllDigits(ds) && !IsDigit(sep)
    ensures Filter(Group(ds, sep), IsDigit) == ds
  {
    if |ds| > 0 {
      var mark: string := if Lookahead(|ds| - 1) then [sep] else [];
      Ungroup(ds[1..], sep);
      UngroupStep(ds[0], mark, sep, Group(ds[1..], sep), ds[1..]);
      assert [ds[0]] + ds[1..] == ds;
    }
  }

  /**
   * The shape of a grouped run of digits: one separator for every full group
   * of three after the first digit, the first and last characters are digits
   * of the run, not separators.
   */
  lemma {:induction false} GroupShape(ds: string, sep: char)
    requires |ds| >= 1
    ensures |Group(ds, sep)| == |ds| + (|ds| - 1) / 3
    ensures Group(ds, sep)[0] == ds[0]
    ensures Group(ds, sep)[|Group(ds, sep)| - 1] == ds[|ds| - 1]
  {
    if |ds| > 1 {
      GroupShape(ds[1..], sep);
    }
  }

  /**
   * `formatCurrency(value)`: the digits of `value.toString()` grouped with
   * the page's separator; a minus sign is not a digit and stays in front.
   */
  function FormatCurrency(value: int, sep: Separator): (r: string)
    ensures value >= 0 ==> Filter(r, IsDigit) == Digits(value)
    ensures value < 0 ==> |r| > 0 && r[0] == '-' && Filter(r, IsDigit) == Digits(-value)
  {
    if value >= 0 then
      Ungroup(Digits(value), SepChar(sep));
      Group(Digits(value), SepChar(sep))
    else
      Ungroup(Digits(-value), SepChar(sep));
      FilterAppend("-", Group(Digits(-value), SepChar(sep)), IsDigit);
      "-" + Group(Digits(-value), SepChar(sep))
  }

  /** Below 1000 the formatted number is just its digits. */
  lemma NoSeparatorBelowThousand(n: nat, sep: Separator)
    requires n < 1000
    ensures FormatCurrency(n, sep) == Digits(n)
  {
    SmallHasFewDigits(n);
    ShortRunUnchanged(Digits(n), SepChar(sep));
  }

  /** `value.replace(/[^\d]/g, '')`. */
  function KeepDigits(s: string): (r: string)
    ensures AllDigits(r)
  {
    Filter(s, IsDigit)
  }

  /**
   * `parseCurrency(value)`: parseInt of the digits of the text; a text with no
   * digit reads as NaN, here None.
   */
  function ParseCurrency(s: string): (r: Option<nat>)
    ensures r == None <==> forall k :: 0 <= k < |s| ==> !IsDigit(s[k])
    ensures r != None ==> r.value == DecimalValue(KeepDigits(s))
  {
    var ds := KeepDigits(s);
    if |ds| == 0 then
      assert forall k :: 0 <= k < |s| ==> !IsDigit(s[k]) by {
        forall k | 0 <= k < |s| ensures !IsDigit(s[k]) {
          assert s[k] in s;
        }
      }
      None
    else
      assert ds[0] in s;
      Some(DecimalValue(ds))
  }

  /** What a text field bound to an amount displays: NaN prints as "NaN". */
  function FormatAmount(a: Option<nat>, sep: Separator): (r: string)
    ensures a == None ==> r == "NaN"
  {
    match a
    case None => "NaN"
    case Some(n) => FormatCurrency(n, sep)
  }

  /** The "Rp " prefix of the inputs adds no digit. */
  lemma PrefixAddsNoDigit(f: string)
    ensures KeepDigits("Rp " + f) == KeepDigits(f)
  {
    FilterAppend("Rp ", f, IsDigit);
  }

  /** A text whose digits are those of `n`, behind the "Rp " prefix, reads as `n`. */
  lemma ParseDigitsOf(f: string, n: nat)
    requires KeepDigits(f) == Digits(n)
    ensures ParseCurrency("Rp " + f) == Some(n)
  {
    PrefixAddsNoDigit(f);
    DigitsValue(n);
    var s := "Rp " + f;
    assert Digits(n)[0] in KeepDigits(s);
  }

  /** Reading back a formatted amount behind the "Rp " prefix gives the amount. */
  lemma ParseFormatted(n: nat, sep: Separator)
    ensures ParseCurrency("Rp " + FormatCurrency(n, sep)) == Some(n)
  {
    ParseDigitsOf(FormatCurrency(n, sep), n);
  }

  /**
   * The credit-limit inputs round-trip every state they can hold: the number
   * typed so far, or NaN after a text without digits.
   */
  lemma AmountRoundTrip(a: Option<nat>, sep: Separator)
    ensures ParseCurrency("Rp " + FormatAmount(a, sep)) == a
  {
    match a
    case None =>
      assert !IsDigit(("Rp " + FormatAmount(a, sep))[4]);
    case Some(n) => ParseFormatted(n, sep);
  }

  /** A negative number loses its sign on the way back. */
  lemma NegativeLosesSign(v: int, sep: Separator)
    requires v < 0
    ensures ParseCurrency("Rp " + FormatCurrency(v, sep)) == Some(-v)
  {
    ParseDigitsOf(FormatCurrency(v, sep), -v);
  }
}
