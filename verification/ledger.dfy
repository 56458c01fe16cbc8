/**
 * Monthly aggregation of the uploaded transactions: every date is truncated to its
 * calendar month, amounts are summed per (month, category), and the result is split
 * into one chronological series of monthly totals per category.
 */
module Ledger {

  type Month = m: int | 1 <= m <= 12 witness 1

  type Day = d: int | 1 <= d <= 31 witness 1

  /** A calendar date as parsed from the upload's date column. */
  datatype Date = Date(year: int, month: Month, day: Day)

  /** One transaction: when, which spending category, and how much. */
  datatype Row = Row(date: Date, category: string, amount: real)

  /** A calendar month, the bucket a date falls into. */
  datatype Period = Period(year: int, month: Month)

  /** The month containing d (pandas' to_period('M')). */
  function PeriodOf(d: Date): (p: Period)
    ensures p.year == d.year && p.month == d.month
  {
    Period(d.year, d.month)
  }

  /** Strict chronological order of months. */
  predicate Before(p: Period, q: Period) {
    p.year < q.year || (p.year == q.year && p.month < q.month)
  }

  /** The total of one category in one month. */
  datatype Observation = Observation(period: Period, total: real)

  /** Strictly increasing months, hence at most one entry per month. */
  predicate Chronological(s: seq<Observation>) {
    forall i, j :: 0 <= i < j < |s| ==> Before(s[i].period, s[j].period)
  }

  /** The months that have an entry. */
  function Periods(s: seq<Observation>): set<Period> {
    set i | 0 <= i < |s| :: s[i].period
  }

  /** The sum of the entries for month p (at most one in a chronological series). */
  function ValueAt(s: seq<Observation>, p: Period): real {
    if |s| == 0 then 0.0
    else (if s[0].period == p then s[0].total else 0.0) + ValueAt(s[1..], p)
  }

  /** The sum of all entries. */
  function SeriesTotal(s: seq<Observation>): real {
    if |s| == 0 then 0.0 else s[0].total + SeriesTotal(s[1..])
  }

  /** The monthly totals alone, in order: the y column a model is fitted on. */
  function Values(s: seq<Observation>): (ys: seq<real>)
    ensures |ys| == |s|
    ensures forall i :: 0 <= i < |s| ==> ys[i] == s[i].total
  {
    seq(|s|, i requires 0 <= i < |s| => s[i].total)
  }

  /**
   * Adds amount a to month p of a chronological series: to the existing entry for p
   * if there is one, else as a new entry at its place in time.
   */
  function Insert(s: seq<Observation>, p: Period, a: real): (r: seq<Observation>)
    requires Chronological(s)
    ensures Chronological(r)
    ensures Periods(r) == Periods(s) + {p}
    ensures forall q :: ValueAt(r, q) == ValueAt(s, q) + (if q == p then a else 0.0)
    ensures SeriesTotal(r) == SeriesTotal(s) + a
    decreases |s|
  {
    if |s| == 0 then
      var r := [Observation(p, a)];
      assert r[0].period == p;
      r
    else if s[0].period == p then
      var r := [Observation(p, s[0].total + a)] + s[1..];
      assert r[1..] == s[1..];
      ChronologicalSamePeriods(s, r);
      r
    else if Before(p, s[0].period) then
      var r := [Observation(p, a)] + s;
      assert r[1..] == s;
      PeriodsCons(Observation(p, a), s);
      AllAfter(s, p);
      r
    else
      var rest := Insert(s[1..], p, a);
      var r := [s[0]] + rest;
      assert r[1..] == rest;
      PeriodsCons(s[0], rest);
      PeriodsCons(s[0], s[1..]);
      assert s == [s[0]] + s[1..];
      TailAfterHead(s);
      ChronologicalCons(s[0], rest);
      r
  }

  lemma PeriodsCons(o: Observation, s: seq<Observation>)
    ensures Periods([o] + s) == {o.period} + Periods(s)
  {
    var t := [o] + s;
    forall q | q in Periods(t) ensures q in {o.period} + Periods(s) {
      var i :| 0 <= i < |t| && t[i].period == q;
      if i > 0 {
        assert s[i - 1].period == q;
      }
    }
    forall q | q in Periods(s) ensures q in Periods(t) {
      var i :| 0 <= i < |s| && s[i].period == q;
      assert t[i + 1].period == q;
    }
    assert t[0].period == o.period;
  }

  /** Every month of a chronological series comes after its first month. */
  lemma TailAfterHead(s: seq<Observation>)
    requires |s| >= 1 && Chronological(s)
    ensures Chronological(s[1..])
    ensures forall q :: q in Periods(s[1..]) ==> Before(s[0].period, q)
  {
    forall q | q in Periods(s[1..]) ensures Before(s[0].period, q) {
      var i :| 0 <= i < |s[1..]| && s[1..][i].period == q;
      assert s[i + 1].period == q;
    }
  }

  /** If p comes before the first month of a chronological series, it comes before all of them. */
  lemma AllAfter(s: seq<Observation>, p: Period)
    requires |s| >= 1 && Chronological(s) && Before(p, s[0].period)
    ensures Chronological([Observation(p, 0.0)] + s)
    ensures forall i :: 0 <= i < |s| ==> Before(p, s[i].period)
  {
  }

  /** Prepending an entry earlier than every month of a chronological series keeps it chronological. */
  lemma ChronologicalCons(o: Observation, s: seq<Observation>)
    requires Chronological(s)
    requires forall q :: q in Periods(s) ==> Before(o.period, q)
    ensures Chronological([o] + s)
  {
    var t := [o] + s;
    forall i, j | 0 <= i < j < |t| ensures Before(t[i].period, t[j].period) {
      assert t[j] == s[j - 1];
      if i == 0 {
        assert s[j - 1].period in Periods(s);
      } else {
        assert t[i] == s[i - 1];
      }
    }
  }

  /** Changing only the total of the first entry keeps the months, hence chronology. */
  lemma ChronologicalSamePeriods(s: seq<Observation>, r: seq<Observation>)
    requires Chronological(s) && |r| == |s|
    requires forall i :: 0 <= i < |s| ==> r[i].period == s[i].period
    ensures Chronological(r)
    ensures Periods(r) == Periods(s)
  {
    forall q | q in Periods(r) ensures q in Periods(s) {
      var i :| 0 <= i < |r| && r[i].period == q;
      assert s[i].period == q;
    }
    forall q | q in Periods(s) ensures q in Periods(r) {
      var i :| 0 <= i < |s| && s[i].period == q;
      assert r[i].period == q;
    }
  }

  // Reference definitions over the rows.

  /** The distinct categories of the rows. */
  function Categories(rows: seq<Row>): set<string> {
    set i | 0 <= i < |rows| :: rows[i].category
  }

  /** The months in which category c has at least one row. */
  function MonthsOf(rows: seq<Row>, c: string): set<Period> {
    set i | 0 <= i < |rows| && rows[i].category == c :: PeriodOf(rows[i].date)
  }

  /** The sum of the amounts of category c dated in month p. */
  function MonthTotal(rows: seq<Row>, c: string, p: Period): real {
    if |rows| == 0 then 0.0
    else
      var r := rows[|rows| - 1];
      MonthTotal(rows[..|rows| - 1], c, p) + (if r.category == c && PeriodOf(r.date) == p then r.amount else 0.0)
  }

  /** The sum of all amounts of category c. */
  function CategoryTotal(rows: seq<Row>, c: string): real {
    if |rows| == 0 then 0.0
    else
      var r := rows[|rows| - 1];
      CategoryTotal(rows[..|rows| - 1], c) + (if r.category == c then r.amount else 0.0)
  }

  /**
   * The monthly series of every category: group by (month, category), sum the
   * amounts, and order each category's months in time.
   */
  function Aggregate(rows: seq<Row>): (m: map<string, seq<Observation>>)
    ensures m.Keys == Categories(rows)
    ensures forall c :: c in m ==> Chronological(m[c])
    ensures forall c :: c in m ==> Periods(m[c]) == MonthsOf(rows, c)
    ensures forall c, p :: c in m ==> ValueAt(m[c], p) == MonthTotal(rows, c, p)
    ensures forall c :: c in m ==> SeriesTotal(m[c]) == CategoryTotal(rows, c)
    decreases |rows|
  {
    if |rows| == 0 then map[]
    else
      var init := rows[..|rows| - 1];
      var r := rows[|rows| - 1];
      assert rows == init + [r];
      var m0 := Aggregate(init);
      StepPeriods(init, r, m0);
      StepValues(init, r, m0);
      StepTotals(init, r, m0);
      AddRow(m0, r)
  }

  /** The series of category c, empty if it has none yet. */
  function SeriesOf(m: map<string, seq<Observation>>, c: string): seq<Observation> {
    if c in m then m[c] else []
  }

  /** Adds one row to the per-category series. */
  function AddRow(m: map<string, seq<Observation>>, r: Row): (m': map<string, seq<Observation>>)
    requires forall c :: c in m ==> Chronological(m[c])
    ensures m'.Keys == m.Keys + {r.category}
    ensures forall c :: c in m' ==> Chronological(m'[c])
    ensures forall c :: c in m && c != r.category ==> m'[c] == m[c]
  {
    m[r.category := Insert(SeriesOf(m, r.category), PeriodOf(r.date), r.amount)]
  }

  /** One more row: the categories and each category's months follow the rows. */
  lemma StepPeriods(init: seq<Row>, r: Row, m0: map<string, seq<Observation>>)
    requires m0.Keys == Categories(init)
    requires forall c :: c in m0 ==> Chronological(m0[c])
    requires forall c :: c in m0 ==> Periods(m0[c]) == MonthsOf(init, c)
    ensures var m := AddRow(m0, r);
            && m.Keys == Categories(init + [r])
            && (forall c :: c in m ==> Periods(m[c]) == MonthsOf(init + [r], c))
  {
    var rows := init + [r];
    assert rows[..|rows| - 1] == init;
    SplitLast(rows);
    if r.category !in m0 {
      Absent(init, r.category);
    }
    assert Periods(SeriesOf(m0, r.category)) == MonthsOf(init, r.category);
  }

  /** One more row: each series entry is still the month's total. */
  lemma StepValues(init: seq<Row>, r: Row, m0: map<string, seq<Observation>>)
    requires m0.Keys == Categories(init)
    requires forall c :: c in m0 ==> Chronological(m0[c])
    requires forall c, p :: c in m0 ==> ValueAt(m0[c], p) == MonthTotal(init, c, p)
    ensures var m := AddRow(m0, r);
            forall c, p :: c in m ==> ValueAt(m[c], p) == MonthTotal(init + [r], c, p)
  {
    var rows := init + [r];
    assert rows[..|rows| - 1] == init;
    if r.category !in m0 {
      Absent(init, r.category);
    }
    var m := AddRow(m0, r);
    assert forall p :: ValueAt(SeriesOf(m0, r.category), p) == MonthTotal(init, r.category, p);
    forall c, p | c in m ensures ValueAt(m[c], p) == MonthTotal(rows, c, p) {
      assert MonthTotal(rows, c, p)
          == MonthTotal(init, c, p) + (if r.category == c && PeriodOf(r.date) == p then r.amount else 0.0);
    }
  }

  /** One more row: each series still sums to its category's total. */
  lemma StepTotals(init: seq<Row>, r: Row, m0: map<string, seq<Observation>>)
    requires m0.Keys == Categories(init)
    requires forall c :: c in m0 ==> Chronological(m0[c])
    requires forall c :: c in m0 ==> SeriesTotal(m0[c]) == CategoryTotal(init, c)
    ensures var m := AddRow(m0, r);
            forall c :: c in m ==> SeriesTotal(m[c]) == CategoryTotal(init + [r], c)
  {
    var rows := init + [r];
    assert rows[..|rows| - 1] == init;
    if r.category !in m0 {
      Absent(init, r.category);
    }
    var m := AddRow(m0, r);
    assert SeriesTotal(SeriesOf(m0, r.category)) == CategoryTotal(init, r.category);
    forall c | c in m ensures SeriesTotal(m[c]) == CategoryTotal(rows, c) {
      assert CategoryTotal(rows, c) == CategoryTotal(init, c) + (if r.category == c then r.amount else 0.0);
    }
  }

  /** The reference definitions, split at the last row. */
  lemma SplitLast(rows: seq<Row>)
    requires |rows| > 0
    ensures var init := rows[..|rows| - 1];
            var r := rows[|rows| - 1];
            && Categories(rows) == Categories(init) + {r.category}
            && (forall c :: MonthsOf(rows, c) == MonthsOf(init, c) + (if c == r.category then {PeriodOf(r.date)} else {}))
  {
    var init := rows[..|rows| - 1];
    var r := rows[|rows| - 1];
    forall c ensures MonthsOf(rows, c) == MonthsOf(init, c) + (if c == r.category then {PeriodOf(r.date)} else {}) {
      forall q | q in MonthsOf(rows, c)
        ensures q in MonthsOf(init, c) + (if c == r.category then {PeriodOf(r.date)} else {})
      {
        var i :| 0 <= i < |rows| && rows[i].category == c && PeriodOf(rows[i].date) == q;
        if i < |init| {
          assert init[i] == rows[i];
        }
      }
      forall q | q in MonthsOf(init, c) ensures q in MonthsOf(rows, c) {
        var i :| 0 <= i < |init| && init[i].category == c && PeriodOf(init[i].date) == q;
        assert rows[i] == init[i];
      }
      if c == r.category {
        assert PeriodOf(rows[|rows| - 1].date) in MonthsOf(rows, c);
      }
    }
    forall k | k in Categories(rows) ensures k in Categories(init) + {r.category} {
      var i :| 0 <= i < |rows| && rows[i].category == k;
      if i < |init| {
        assert init[i] == rows[i];
      }
    }
    forall k | k in Categories(init) ensures k in Categories(rows) {
      var i :| 0 <= i < |init| && init[i].category == k;
      assert rows[i] == init[i];
    }
    assert rows[|rows| - 1].category in Categories(rows);
  }

  /** A category without rows has no months and nothing to sum. */
  lemma {:induction false} Absent(rows: seq<Row>, c: string)
    requires c !in Categories(rows)
    ensures MonthsOf(rows, c) == {}
    ensures forall p :: MonthTotal(rows, c, p) == 0.0
    ensures CategoryTotal(rows, c) == 0.0
    decreases |rows|
  {
    if |rows| > 0 {
      SplitLast(rows);
      Absent(rows[..|rows| - 1], c);
    }
  }

  // Consequences for the series handed to the forecasters.

  /** A month without an entry contributes nothing. */
  lemma {:induction false} ValueAtAbsent(s: seq<Observation>, p: Period)
    requires p !in Periods(s)
    ensures ValueAt(s, p) == 0.0
    decreases |s|
  {
    if |s| > 0 {
      assert s[0].period in Periods(s);
      assert Periods(s[1..]) <= Periods(s) by {
        forall q | q in Periods(s[1..]) ensures q in Periods(s) {
          var i :| 0 <= i < |s[1..]| && s[1..][i].period == q;
          assert s[i + 1].period == q;
        }
      }
      ValueAtAbsent(s[1..], p);
    }
  }

  /** In a chronological series each entry is the whole of its month's value. */
  lemma {:induction false} EntryIsValueAt(s: seq<Observation>, i: nat)
    requires Chronological(s) && i < |s|
    ensures ValueAt(s, s[i].period) == s[i].total
    decreases |s|
  {
    TailAfterHead(s);
    if i == 0 {
      assert s[0].period !in Periods(s[1..]);
      ValueAtAbsent(s[1..], s[0].period);
    } else {
      assert s[1..][i - 1] == s[i];
      EntryIsValueAt(s[1..], i - 1);
      assert s[0].period != s[i].period;
    }
  }

  /** A chronological series has exactly one entry per month it covers. */
  lemma {:induction false} MonthCount(s: seq<Observation>)
    requires Chronological(s)
    ensures |Periods(s)| == |s|
    decreases |s|
  {
    if |s| > 0 {
      TailAfterHead(s);
      MonthCount(s[1..]);
      assert s == [s[0]] + s[1..];
      PeriodsCons(s[0], s[1..]);
      assert s[0].period !in Periods(s[1..]);
    }
  }

  /**
   * The aggregation, entry by entry: every entry of a category's series is the sum of
   * that category's amounts in that month, and no category's series is empty.
   */
  lemma AggregateEntries(rows: seq<Row>, c: string)
    requires c in Categories(rows)
    ensures c in Aggregate(rows)
    ensures |Aggregate(rows)[c]| >= 1
    ensures forall i :: 0 <= i < |Aggregate(rows)[c]| ==>
              Aggregate(rows)[c][i].total == MonthTotal(rows, c, Aggregate(rows)[c][i].period)
  {
    var s := Aggregate(rows)[c];
    var k :| 0 <= k < |rows| && rows[k].category == c;
    assert PeriodOf(rows[k].date) in MonthsOf(rows, c);
    assert |s| >= 1;
    forall i | 0 <= i < |s| ensures s[i].total == MonthTotal(rows, c, s[i].period) {
      EntryIsValueAt(s, i);
    }
  }

  /** Each category's series has one entry per distinct month in which the category has a row. */
  lemma AggregateMonthCount(rows: seq<Row>, c: string)
    requires c in Categories(rows)
    ensures c in Aggregate(rows)
    ensures |Aggregate(rows)[c]| == |MonthsOf(rows, c)| >= 1
  {
    var s := Aggregate(rows)[c];
    MonthCount(s);
    var k :| 0 <= k < |rows| && rows[k].category == c;
    assert PeriodOf(rows[k].date) in MonthsOf(rows, c);
  }
}
