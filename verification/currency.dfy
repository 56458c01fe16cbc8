/**
 * Rendering a forecast as rupiah text: int() truncation toward zero, Python's
 * thousands grouping of the decimal digits with ',', the prefix "Rp. ", and then
 * every ',' replaced by '.'.
 */
module Currency {

  /** Python's int() on a number: truncation toward zero (not rounding). */
  function Trunc(x: real): (v: int)
    ensures 0.0 <= x ==> v as real <= x < v as real + 1.0
    ensures x < 0.0 ==> v as real - 1.0 < x <= v as real
  {
    if x >= 0.0 then x.Floor else -((-x).Floor)
  }

  function Abs(v: int): nat {
    if v < 0 then -v else v
  }

  predicate IsDigit(c: char) {
    '0' <= c <= '9'
  }

  predicate AllDigits(s: string) {
    forall i :: 0 <= i < |s| ==> IsDigit(s[i])
  }

  function DigitChar(d: nat): (c: char)
    requires d < 10
    ensures IsDigit(c)
  {
    ('0' as int + d) as char
  }

  function DigitValue(c: char): (d: nat)
    requires IsDigit(c)
    ensures d < 10 && DigitChar(d) == c
  {
    c as int - '0' as int
  }

  /** The number a string of decimal digits denotes, most significant digit first. */
  function ValueOf(s: string): nat
    requires AllDigits(s)
  {
    if |s| == 0 then 0 else 10 * ValueOf(s[..|s| - 1]) + DigitValue(s[|s| - 1])
  }

  /** A digit string in canonical form: non-empty, with no leading zero unless it is "0". */
  predicate Canonical(s: string) {
    |s| >= 1 && AllDigits(s) && (s[0] == '0' ==> |s| == 1)
  }

  /** The decimal digits of n (Python's str on a non-negative int). */
  function Digits(n: nat): (s: string)
    ensures Canonical(s)
    ensures ValueOf(s) == n
    decreases n
  {
    if n < 10 then [DigitChar(n)]
    else
      var init := Digits(n / 10);
      var s := init + [DigitChar(n % 10)];
      assert s[..|s| - 1] == init;
      s
  }

  /** Conversely, a canonical digit string is the digit string of its value. */
  lemma {:induction false} DigitsOfValue(s: string)
    requires Canonical(s)
    ensures Digits(ValueOf(s)) == s
    decreases |s|
  {
    var init := s[..|s| - 1];
    var d := DigitValue(s[|s| - 1]);
    assert ValueOf(s) == 10 * ValueOf(init) + d;
    if |s| == 1 {
      assert s == [DigitChar(d)];
    } else {
      assert Canonical(init);
      DigitsOfValue(init);
      // A canonical string of two or more digits has a non-zero leading digit.
      LeadingDigitPositive(init);
      DigitsAppend(ValueOf(init), d);
      assert s == init + [DigitChar(d)];
    }
  }

  /** A canonical string that does not start with '0' denotes a positive number. */
  lemma {:induction false} LeadingDigitPositive(s: string)
    requires |s| >= 1 && AllDigits(s) && s[0] != '0'
    ensures ValueOf(s) > 0
    decreases |s|
  {
    if |s| > 1 {
      LeadingDigitPositive(s[..|s| - 1]);
    }
  }

  /** Python's str on an int: a '-' for negatives, then the digits of the magnitude. */
  function Decimal(v: int): (s: string)
    ensures (|s| >= 1 && s[0] == '-' && AllDigits(s[1..])) || AllDigits(s)
    ensures v >= 0 ==> Canonical(s)
    ensures v < 0 ==> |s| >= 2 && s[0] == '-' && Canonical(s[1..]) && s[1] != '0'
    ensures ParseDecimal(s) == v
  {
    var d := Digits(Abs(v));
    if v < 0 then
      assert ("-" + d)[1..] == d;
      "-" + d
    else
      assert "" + d == d;
      d
  }

  /** Reads back a string written by Decimal. */
  function ParseDecimal(s: string): int
    requires (|s| >= 1 && s[0] == '-' && AllDigits(s[1..])) || AllDigits(s)
  {
    if |s| >= 1 && s[0] == '-' then -(ValueOf(s[1..]) as int) else ValueOf(s)
  }

  // Thousands grouping.

  /** The digits of ds in groups of three from the right, groups joined by sep. */
  function Group(ds: string, sep: char): string {
    if |ds| <= 3 then ds else Group(ds[..|ds| - 3], sep) + [sep] + ds[|ds| - 3..]
  }

  /** Every character of s except the occurrences of c. */
  function Remove(s: string, c: char): (r: string)
    ensures c !in r
    ensures |r| <= |s|
  {
    if |s| == 0 then []
    else Remove(s[..|s| - 1], c) + (if s[|s| - 1] == c then [] else [s[|s| - 1]])
  }

  /** s with every occurrence of a replaced by b (Python's str.replace on one character). */
  function ReplaceAll(s: string, a: char, b: char): (r: string)
    ensures |r| == |s|
    ensures forall i :: 0 <= i < |s| ==> r[i] == (if s[i] == a then b else s[i])
  {
    if |s| == 0 then []
    else ReplaceAll(s[..|s| - 1], a, b) + [if s[|s| - 1] == a then b else s[|s| - 1]]
  }

  lemma {:induction false} RemoveAppend(s: string, t: string, c: char)
    ensures Remove(s + t, c) == Remove(s, c) + Remove(t, c)
    decreases |t|
  {
    if |t| == 0 {
      assert s + t == s;
    } else {
      assert (s + t)[..|s + t| - 1] == s + t[..|t| - 1];
      RemoveAppend(s, t[..|t| - 1], c);
    }
  }

  lemma {:induction false} RemoveAbsent(s: string, c: char)
    requires c !in s
    ensures Remove(s, c) == s
    decreases |s|
  {
    if |s| > 0 {
      RemoveAbsent(s[..|s| - 1], c);
    }
  }

  lemma SliceAbsent(s: string, c: char, lo: nat, hi: nat)
    requires lo <= hi <= |s| && c !in s
    ensures c !in s[lo..hi]
  {
    forall j | 0 <= j < hi - lo
      ensures s[lo..hi][j] != c
    {
      assert s[lo..hi][j] == s[lo + j];
      assert s[lo + j] in s;
    }
  }

  /** A group of n >= 1 digits has n + (n - 1) / 3 characters. */
  lemma {:induction false} GroupLength(ds: string, sep: char)
    requires |ds| >= 1
    ensures |Group(ds, sep)| == |ds| + (|ds| - 1) / 3
    decreases |ds|
  {
    if |ds| > 3 {
      GroupLength(ds[..|ds| - 3], sep);
    }
  }

  /** The occurrences of sep in g are exactly at the positions a non-zero multiple of four from its end. */
  predicate SeparatorsEveryFourth(g: string, sep: char) {
    forall i :: 0 <= i < |g| ==> (g[i] == sep <==> i > 0 && (|g| - i) % 4 == 0)
  }

  /**
   * The separators of a grouped digit string sit exactly at the positions that are a
   * multiple of four characters from its end, and never in front.
   */
  lemma {:induction false} GroupSeparators(ds: string, sep: char)
    requires |ds| >= 1 && sep !in ds
    ensures SeparatorsEveryFourth(Group(ds, sep), sep)
    decreases |ds|
  {
    var g := Group(ds, sep);
    if |ds| > 3 {
      var front := ds[..|ds| - 3];
      var last := ds[|ds| - 3..];
      SliceAbsent(ds, sep, 0, |ds| - 3);
      SliceAbsent(ds, sep, |ds| - 3, |ds|);
      GroupSeparators(front, sep);
      SeparatorsStep(Group(front, sep), sep, last);
    } else {
      forall i | 0 <= i < |g|
        ensures g[i] != sep && (|g| - i) % 4 != 0
      {
        assert g[i] in ds;
      }
    }
  }

  /** Appending a separator and a full group of three keeps the separators at every fourth place from the end. */
  lemma SeparatorsStep(gf: string, sep: char, last: string)
    requires |gf| >= 1 && |last| == 3 && sep !in last
    requires SeparatorsEveryFourth(gf, sep)
    ensures SeparatorsEveryFourth(gf + [sep] + last, sep)
  {
    var g := gf + [sep] + last;
    forall i | 0 <= i < |g|
      ensures g[i] == sep <==> i > 0 && (|g| - i) % 4 == 0
    {
      if i < |gf| {
        assert g[i] == gf[i];
        assert (|g| - i) % 4 == (|gf| - i) % 4;
      } else if i > |gf| {
        assert g[i] == last[i - |gf| - 1];
        assert g[i] in last;
      }
    }
  }

  /** Deleting the separators of a grouped string gives back the digits. */
  lemma {:induction false} GroupRemove(ds: string, sep: char)
    requires sep !in ds
    ensures Remove(Group(ds, sep), sep) == ds
    decreases |ds|
  {
    if |ds| <= 3 {
      RemoveAbsent(ds, sep);
    } else {
      var front := ds[..|ds| - 3];
      var last := ds[|ds| - 3..];
      assert front + last == ds;
      SliceAbsent(ds, sep, 0, |ds| - 3);
      SliceAbsent(ds, sep, |ds| - 3, |ds|);
      GroupRemove(front, sep);
      var gf := Group(front, sep);
      assert Group(ds, sep) == (gf + [sep]) + last;
      RemoveAppend(gf + [sep], last, sep);
      RemoveAppend(gf, [sep], sep);
      assert Remove([sep], sep) == [] by {
        assert [sep][..0] == [];
      }
      RemoveAbsent(last, sep);
      assert Remove(gf + [sep], sep) == front;
    }
  }

  /** Replacing the separator of a grouped digit string gives the grouping with the new separator. */
  lemma {:induction false} GroupReplace(ds: string, a: char, b: char)
    requires a !in ds
    ensures ReplaceAll(Group(ds, a), a, b) == Group(ds, b)
    decreases |ds|
  {
    var g := Group(ds, a);
    var r := ReplaceAll(g, a, b);
    if |ds| <= 3 {
      forall i | 0 <= i < |ds| ensures r[i] == ds[i] {
        assert ds[i] in ds;
      }
    } else {
      var front := ds[..|ds| - 3];
      var last := ds[|ds| - 3..];
      assert forall c :: c in front ==> c in ds;
      GroupReplace(front, a, b);
      var gf := Group(front, a);
      assert g == gf + [a] + last;
      var rf := ReplaceAll(gf, a, b);
      forall i | 0 <= i < |r| ensures r[i] == (rf + [b] + last)[i] {
        if i < |gf| {
          assert g[i] == gf[i];
        } else if i > |gf| {
          assert g[i] == last[i - |gf| - 1];
          assert g[i] in ds;
        }
      }
    }
  }

  // The rupiah text.

  /** Python's format(v, ","): the sign, then the digits of |v| grouped with ','. */
  function Thousands(v: int): string {
    (if v < 0 then "-" else "") + Group(Digits(Abs(v)), ',')
  }

  /** Deleting the commas of format(v, ",") gives str(v). */
  lemma ThousandsDigits(v: int)
    ensures Remove(Thousands(v), ',') == Decimal(v)
  {
    var ds := Digits(Abs(v));
    NotADigit(Abs(v), ',');
    StripGrouping(if v < 0 then "-" else "", ds, ',');
  }

  /**
   * The displayed amount of a forecast x. It starts with "Rp. "; deleting that prefix
   * and every '.' leaves str(int(x)), which reads back as int(x).
   */
  function Rupiah(x: real): (text: string)
    ensures |text| > 4 && text[..4] == "Rp. "
    ensures Remove(text[4..], '.') == Decimal(Trunc(x))
    ensures ParseDecimal(Remove(text[4..], '.')) == Trunc(x)
  {
    DisplayedDigits(Trunc(x));
    ReplaceAll("Rp. " + Thousands(Trunc(x)), ',', '.')
  }

  /** The text after "Rp. " is the grouped decimal of v, and its digits are those of str(v). */
  lemma DisplayedDigits(v: int)
    ensures var text := ReplaceAll("Rp. " + Thousands(v), ',', '.');
            |text| > 4 && text[..4] == "Rp. " && Remove(text[4..], '.') == Decimal(v)
  {
    var tail := (if v < 0 then "-" else "") + Group(Digits(Abs(v)), '.');
    ReplacedThousands(v);
    assert ReplaceAll("Rp. " + Thousands(v), ',', '.') == "Rp. " + tail;
    GroupedDecimal(v);
    assert ("Rp. " + tail)[4..] == tail;
    assert ("Rp. " + tail)[..4] == "Rp. ";
  }

  /** The sign of v followed by its digits grouped with '.': non-empty, and str(v) once the dots are gone. */
  lemma GroupedDecimal(v: int)
    ensures var tail := (if v < 0 then "-" else "") + Group(Digits(Abs(v)), '.');
            |tail| >= 1 && Remove(tail, '.') == Decimal(v)
  {
    var ds := Digits(Abs(v));
    GroupLength(ds, '.');
    NotADigit(Abs(v), '.');
    StripGrouping(if v < 0 then "-" else "", ds, '.');
  }

  /** A character that is not a digit never occurs in the digits of a number. */
  lemma NotADigit(n: nat, c: char)
    requires !IsDigit(c)
    ensures c !in Digits(n)
  {
  }

  /** Replacing ',' by '.' in "Rp. " + format(v, ",") regroups the digits with '.'. */
  lemma ReplacedThousands(v: int)
    ensures ReplaceAll("Rp. " + Thousands(v), ',', '.')
         == "Rp. " + (if v < 0 then "-" else "") + Group(Digits(Abs(v)), '.')
  {
    var ds := Digits(Abs(v));
    var sign := if v < 0 then "-" else "";
    var head := "Rp. " + sign;
    assert Thousands(v) == sign + Group(ds, ',');
    assert "Rp. " + (sign + Group(ds, ',')) == head + Group(ds, ',');
    assert ',' !in head;
    NotADigit(Abs(v), ',');
    ReplaceAppend(head, Group(ds, ','), ',', '.');
    ReplaceAbsent(head, ',', '.');
    GroupReplace(ds, ',', '.');
  }

  lemma {:induction false} ReplaceAppend(s: string, t: string, a: char, b: char)
    ensures ReplaceAll(s + t, a, b) == ReplaceAll(s, a, b) + ReplaceAll(t, a, b)
  {
    var l := ReplaceAll(s + t, a, b);
    var r := ReplaceAll(s, a, b) + ReplaceAll(t, a, b);
    forall i | 0 <= i < |l| ensures l[i] == r[i] {
      if i < |s| {
        assert (s + t)[i] == s[i];
      } else {
        assert (s + t)[i] == t[i - |s|];
      }
    }
  }

  lemma ReplaceAbsent(s: string, a: char, b: char)
    requires a !in s
    ensures ReplaceAll(s, a, b) == s
  {
    var r := ReplaceAll(s, a, b);
    forall i | 0 <= i < |s| ensures r[i] == s[i] {
      assert s[i] in s;
    }
  }

  /** The shape of the displayed amount: "Rp. ", a '-' for negatives, and digits grouped with '.'. */
  lemma RupiahShape(x: real)
    ensures Rupiah(x)
         == "Rp. " + (if Trunc(x) < 0 then "-" else "") + Group(Digits(Abs(Trunc(x))), '.')
  {
    ReplacedThousands(Trunc(x));
  }

  /** Deleting the separators from a signed grouped digit string leaves the sign and the digits. */
  lemma StripGrouping(sign: string, ds: string, sep: char)
    requires sep !in sign && sep !in ds
    ensures Remove(sign + Group(ds, sep), sep) == sign + ds
  {
    GroupRemove(ds, sep);
    RemoveAppend(sign, Group(ds, sep), sep);
    RemoveAbsent(sign, sep);
  }

  /** Two forecasts are displayed alike exactly when they truncate to the same integer. */
  lemma RupiahInjective(x: real, y: real)
    ensures Rupiah(x) == Rupiah(y) <==> Trunc(x) == Trunc(y)
  {
    if Rupiah(x) == Rupiah(y) {
      assert Decimal(Trunc(x)) == Decimal(Trunc(y));
    }
  }

  /** Appending a digit d to the digits of n >= 1 gives the digits of 10 n + d. */
  lemma DigitsAppend(n: nat, d: nat)
    requires n >= 1 && d < 10
    ensures Digits(10 * n + d) == Digits(n) + [DigitChar(d)]
  {
  }

  lemma DigitsOfMillions()
    ensures Digits(1234567) == "1234567"
  {
    DigitsAppend(1, 2);
    DigitsAppend(12, 3);
    DigitsAppend(123, 4);
    DigitsAppend(1234, 5);
    DigitsAppend(12345, 6);
    DigitsAppend(123456, 7);
  }

  lemma GroupOfMillions()
    ensures Group("1234567", '.') == "1.234.567"
  {
    assert Group("1234", '.') == "1.234";
  }

  /** 1234567 is shown as "Rp. 1.234.567". */
  lemma ExampleMillions()
    ensures Rupiah(1234567.0) == "Rp. 1.234.567"
  {
    DigitsOfMillions();
    GroupOfMillions();
    RupiahShape(1234567.0);
  }

  /** -500 is shown as "Rp. -500". */
  lemma ExampleNegative()
    ensures Rupiah(-500.0) == "Rp. -500"
  {
    DigitsAppend(5, 0);
    DigitsAppend(50, 0);
    assert Digits(500) == "500";
    RupiahShape(-500.0);
  }

  /** The fraction is cut off, not rounded: 1234.99 is shown as "Rp. 1.234". */
  lemma ExampleTruncates()
    ensures Rupiah(1234.99) == "Rp. 1.234"
  {
    DigitsAppend(1, 2);
    DigitsAppend(12, 3);
    DigitsAppend(123, 4);
    assert Digits(1234) == "1234";
    assert Group("1234", '.') == "1.234";
    RupiahShape(1234.99);
  }

  /** Truncation toward zero: -0.5 becomes 0, shown without a sign. */
  lemma ExampleSmallNegative()
    ensures Rupiah(-0.5) == "Rp. 0"
  {
    assert Digits(0) == "0";
    RupiahShape(-0.5);
  }
}
