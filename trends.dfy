/** The daily series behind the trends chart (components/TrendsChart.tsx): the records, sorted by date on a
    copy, grouped per date into income and expense sums, in ascending date order. */
module Trends {
  import opened Types
  import opened Ledger

  /** Dates are `YYYY-MM-DD` strings; their order is the lexicographic order of their characters. */
  predicate DateBefore(a: string, b: string)
    decreases |a|
  {
    if a == [] then b != []
    else if b == [] then false
    else a[0] < b[0] || (a[0] == b[0] && DateBefore(a[1..], b[1..]))
  }

  predicate DateAtMost(a: string, b: string) { a == b || DateBefore(a, b) }

  lemma {:induction false} DateBeforeIrreflexive(a: string)
    ensures !DateBefore(a, a)
    decreases |a|
  {
    if a != [] {
      DateBeforeIrreflexive(a[1..]);
    }
  }

  lemma {:induction false} DateBeforeTransitive(a: string, b: string, c: string)
    requires DateBefore(a, b) && DateBefore(b, c)
    ensures DateBefore(a, c)
    decreases |a|
  {
    if a != [] && a[0] == b[0] && b[0] == c[0] {
      DateBeforeTransitive(a[1..], b[1..], c[1..]);
    }
  }

  /** Of two different dates, one comes first. */
  lemma {:induction false} DateBeforeTotal(a: string, b: string)
    requires a != b
    ensures DateBefore(a, b) || DateBefore(b, a)
    decreases |a|
  {
    if a != [] && b != [] && a[0] == b[0] {
      assert a == [a[0]] + a[1..] && b == [b[0]] + b[1..];
      DateBeforeTotal(a[1..], b[1..]);
    }
  }

  lemma DateAtMostTransitive(a: string, b: string, c: string)
    requires DateAtMost(a, b) && DateAtMost(b, c)
    ensures DateAtMost(a, c)
  {
    if DateBefore(a, b) && DateBefore(b, c) {
      DateBeforeTransitive(a, b, c);
    }
  }

  predicate SortedByDate(s: seq<Transaction>)
  {
    forall i, j :: 0 <= i < j < |s| ==> DateAtMost(s[i].date, s[j].date)
  }

  /** Places `t` before the first record of a sorted list that is not earlier than it. */
  function Insert(t: Transaction, s: seq<Transaction>): (r: seq<Transaction>)
    requires SortedByDate(s)
    ensures SortedByDate(r)
    ensures multiset(r) == multiset(s) + multiset{t}
  {
    if s == [] then [t]
    else if DateAtMost(t.date, s[0].date) then
      forall j | 0 <= j < |s| ensures DateAtMost(t.date, s[j].date) {
        if j > 0 {
          DateAtMostTransitive(t.date, s[0].date, s[j].date);
        }
      }
      [t] + s
    else
      var rest := Insert(t, s[1..]);
      assert s == [s[0]] + s[1..];
      forall x | x in rest ensures DateAtMost(s[0].date, x.date) {
        assert x in multiset(rest);
        if x != t {
          assert x in s[1..];
        } else {
          DateBeforeTotal(t.date, s[0].date);
        }
      }
      [s[0]] + rest
  }

  /** `[...transactions].sort(by date)`: a stable sort of a copy. */
  function SortByDate(txs: seq<Transaction>): (r: seq<Transaction>)
    ensures SortedByDate(r)
    ensures multiset(r) == multiset(txs)
  {
    if txs == [] then []
    else
      assert txs == [txs[0]] + txs[1..];
      Insert(txs[0], SortByDate(txs[1..]))
  }

  /** What record `t` adds to the `kind` sum of date `d`. */
  function Share(t: Transaction, d: string, kind: TransactionType): int
  {
    if t.date == d && t.kind == kind then t.amount else 0
  }

  /** The sum of the `kind` amounts recorded on date `d`. */
  function DayTotal(txs: seq<Transaction>, d: string, kind: TransactionType): int
  {
    if txs == [] then 0 else Share(txs[0], d, kind) + DayTotal(txs[1..], d, kind)
  }

  lemma {:induction false} DayTotalSnoc(s: seq<Transaction>, t: Transaction, d: string, kind: TransactionType)
    ensures DayTotal(s + [t], d, kind) == DayTotal(s, d, kind) + Share(t, d, kind)
  {
    if s != [] {
      assert (s + [t])[1..] == s[1..] + [t];
      DayTotalSnoc(s[1..], t, d, kind);
    }
  }

  lemma {:induction false} DayTotalInsert(t: Transaction, s: seq<Transaction>, d: string, kind: TransactionType)
    requires SortedByDate(s)
    ensures DayTotal(Insert(t, s), d, kind) == Share(t, d, kind) + DayTotal(s, d, kind)
  {
    if s != [] && !DateAtMost(t.date, s[0].date) {
      DayTotalInsert(t, s[1..], d, kind);
      assert Insert(t, s)[1..] == Insert(t, s[1..]);
    }
  }

  /** Sorting does not change any date's sums. */
  lemma {:induction false} DayTotalSorted(txs: seq<Transaction>, d: string, kind: TransactionType)
    ensures DayTotal(SortByDate(txs), d, kind) == DayTotal(txs, d, kind)
  {
    if txs != [] {
      DayTotalSorted(txs[1..], d, kind);
      DayTotalInsert(txs[0], SortByDate(txs[1..]), d, kind);
    }
  }

  function DatesOf(txs: seq<Transaction>): set<string>
  {
    set t | t in txs :: t.date
  }

  /** The distinct dates of the records, in the order they first occur. */
  function Dates(txs: seq<Transaction>): (r: seq<string>)
    ensures forall d :: d in r <==> d in DatesOf(txs)
    ensures forall i, j :: 0 <= i < j < |r| ==> r[i] != r[j]
  {
    if txs == [] then []
    else
      var s, t := txs[..|txs| - 1], txs[|txs| - 1];
      assert txs == s + [t];
      var d := Dates(s);
      if t.date in d then d else d + [t.date]
  }

  lemma DatesSnoc(s: seq<Transaction>, t: Transaction)
    ensures Dates(s + [t]) == if t.date in Dates(s) then Dates(s) else Dates(s) + [t.date]
  {
    assert (s + [t])[..|s|] == s;
  }

  /** A date no record carries has zero sums. */
  lemma {:induction false} DayTotalAbsent(txs: seq<Transaction>, d: string, kind: TransactionType)
    requires d !in DatesOf(txs)
    ensures DayTotal(txs, d, kind) == 0
  {
    if txs != [] {
      assert txs[0] in txs;
      assert DatesOf(txs[1..]) <= DatesOf(txs);
      DayTotalAbsent(txs[1..], d, kind);
    }
  }

  /** In a sorted list every date before the last record is at most the last record's date. */
  lemma EarlierDate(p: seq<Transaction>, t: Transaction, d: string)
    requires SortedByDate(p + [t]) && d in DatesOf(p)
    ensures DateAtMost(d, t.date)
  {
    var x :| x in p && x.date == d;
    var k :| 0 <= k < |p| && p[k] == x;
    assert (p + [t])[k] == x && (p + [t])[|p|] == t;
  }

  /** The dates of a sorted list, in first-occurrence order, strictly ascend. */
  lemma {:induction false} DatesAscend(s: seq<Transaction>)
    requires SortedByDate(s)
    ensures forall i, j :: 0 <= i < j < |Dates(s)| ==> DateBefore(Dates(s)[i], Dates(s)[j])
  {
    if s != [] {
      var p, t := s[..|s| - 1], s[|s| - 1];
      assert s == p + [t];
      assert SortedByDate(p);
      DatesAscend(p);
      DatesSnoc(p, t);
      var d := Dates(p);
      if t.date !in d {
        forall i | 0 <= i < |d| ensures DateBefore(d[i], t.date) {
          EarlierDate(p, t, d[i]);
        }
      }
    }
  }

  /** Σ over `keys` of the `kind` sum of each date. */
  function SumDays(keys: seq<string>, txs: seq<Transaction>, kind: TransactionType): int
  {
    if keys == [] then 0 else DayTotal(txs, keys[0], kind) + SumDays(keys[1..], txs, kind)
  }

  lemma {:induction false} SumDaysAppend(keys: seq<string>, d: string, txs: seq<Transaction>, kind: TransactionType)
    ensures SumDays(keys + [d], txs, kind) == SumDays(keys, txs, kind) + DayTotal(txs, d, kind)
  {
    if keys != [] {
      assert (keys + [d])[1..] == keys[1..] + [d];
      SumDaysAppend(keys[1..], d, txs, kind);
    }
  }

  /** Adding a record adds its amount to exactly one of several distinct dates, if its date is among them. */
  lemma {:induction false} SumDaysSnoc(keys: seq<string>, s: seq<Transaction>, t: Transaction, kind: TransactionType)
    requires forall i, j :: 0 <= i < j < |keys| ==> keys[i] != keys[j]
    ensures SumDays(keys, s + [t], kind) ==
      SumDays(keys, s, kind) + (if t.date in keys && t.kind == kind then t.amount else 0)
  {
    if keys != [] {
      DayTotalSnoc(s, t, keys[0], kind);
      SumDaysSnoc(keys[1..], s, t, kind);
      assert keys == [keys[0]] + keys[1..];
      assert t.date == keys[0] ==> t.date !in keys[1..];
    }
  }

  /** Summed over all dates, the daily sums are the list's income and expense. */
  lemma {:induction false} SumDaysTotals(s: seq<Transaction>)
    ensures SumDays(Dates(s), s, Income) == IncomeOf(s)
    ensures SumDays(Dates(s), s, Expense) == ExpenseOf(s)
  {
    if s != [] {
      var p, t := s[..|s| - 1], s[|s| - 1];
      assert s == p + [t];
      SumDaysTotals(p);
      DatesSnoc(p, t);
      IncomeOfConcat(p, [t]);
      ExpenseOfConcat(p, [t]);
      var d := Dates(p);
      SumDaysSnoc(d, p, t, Income);
      SumDaysSnoc(d, p, t, Expense);
      if t.date !in d {
        SumDaysAppend(d, t.date, s, Income);
        SumDaysAppend(d, t.date, s, Expense);
        DayTotalSnoc(p, t, t.date, Income);
        DayTotalSnoc(p, t, t.date, Expense);
        DayTotalAbsent(p, t.date, Income);
        DayTotalAbsent(p, t.date, Expense);
      }
    }
  }

  function SeriesIncome(series: seq<DailyStats>): int
  {
    if series == [] then 0 else series[0].income + SeriesIncome(series[1..])
  }

  function SeriesExpense(series: seq<DailyStats>): int
  {
    if series == [] then 0 else series[0].expense + SeriesExpense(series[1..])
  }

  lemma {:induction false} SeriesSums(series: seq<DailyStats>, keys: seq<string>, txs: seq<Transaction>)
    requires |series| == |keys|
    requires forall k :: 0 <= k < |series| ==>
      series[k].income == DayTotal(txs, keys[k], Income) && series[k].expense == DayTotal(txs, keys[k], Expense)
    ensures SeriesIncome(series) == SumDays(keys, txs, Income)
    ensures SeriesExpense(series) == SumDays(keys, txs, Expense)
  {
    if series != [] {
      SeriesSums(series[1..], keys[1..], txs);
    }
  }

  /** A date's running sums in the map. */
  datatype Sums = Sums(income: int, expense: int)

  /** The map holds an entry for exactly the dates in `keys`, each with that date's sums over `s`. */
  ghost predicate Tracks(m: map<string, Sums>, keys: seq<string>, s: seq<Transaction>)
  {
    && (forall d :: d in m <==> d in keys)
    && (forall d :: d in m ==> m[d] == Sums(DayTotal(s, d, Income), DayTotal(s, d, Expense)))
  }

  /** The sums of a date after one more record of that date. */
  function Added(was: Sums, tx: Transaction): (now: Sums)
    ensures tx.kind == Income ==> now.income - was.income == tx.amount && now.expense == was.expense
    ensures tx.kind == Expense ==> now.expense - was.expense == tx.amount && now.income == was.income
  {
    if tx.kind == Income then Sums(was.income + tx.amount, was.expense)
    else Sums(was.income, was.expense + tx.amount)
  }

  /** One accumulation step keeps the map and its key order in step with one more record. */
  lemma TracksStep(m: map<string, Sums>, keys: seq<string>, s: seq<Transaction>, tx: Transaction)
    requires keys == Dates(s) && Tracks(m, keys, s)
    ensures var was := if tx.date in m then m[tx.date] else Sums(0, 0);
      && (if tx.date in m then keys else keys + [tx.date]) == Dates(s + [tx])
      && Tracks(m[tx.date := Added(was, tx)], Dates(s + [tx]), s + [tx])
  {
    DatesSnoc(s, tx);
    if tx.date !in m {
      DayTotalAbsent(s, tx.date, Income);
      DayTotalAbsent(s, tx.date, Expense);
    }
    SumsStep(m, s, tx);
  }

  /** Adding the record to its date's entry keeps every entry equal to that date's sums. */
  lemma SumsStep(m: map<string, Sums>, s: seq<Transaction>, tx: Transaction)
    requires forall d :: d in m ==> m[d] == Sums(DayTotal(s, d, Income), DayTotal(s, d, Expense))
    requires tx.date !in m ==> DayTotal(s, tx.date, Income) == 0 && DayTotal(s, tx.date, Expense) == 0
    ensures var m' := m[tx.date := Added(if tx.date in m then m[tx.date] else Sums(0, 0), tx)];
      forall d :: d in m' ==> m'[d] == Sums(DayTotal(s + [tx], d, Income), DayTotal(s + [tx], d, Expense))
  {
    var m' := m[tx.date := Added(if tx.date in m then m[tx.date] else Sums(0, 0), tx)];
    forall d | d in m'
      ensures m'[d] == Sums(DayTotal(s + [tx], d, Income), DayTotal(s + [tx], d, Expense))
    {
      DayTotalSnoc(s, tx, d, Income);
      DayTotalSnoc(s, tx, d, Expense);
    }
  }

  /** The `forEach` callback for one record `tx`: the entry of its date is created at zero the first time
      the date is met, then the amount goes to income for INCOME and to expense for anything else. `keys`
      keeps the entries' insertion order. */
  method AccumulateOne(dailyMap: map<string, Sums>, keys: seq<string>, tx: Transaction)
    returns (dailyMap': map<string, Sums>, keys': seq<string>)
    ensures var was := if tx.date in dailyMap then dailyMap[tx.date] else Sums(0, 0);
      dailyMap' == dailyMap[tx.date := Added(was, tx)]
    ensures keys' == if tx.date in dailyMap then keys else keys + [tx.date]
  {
    var dateKey := tx.date;
    dailyMap', keys' := dailyMap, keys;
    if dateKey !in dailyMap' {
      dailyMap' := dailyMap'[dateKey := Sums(0, 0)];
      keys' := keys' + [dateKey];
    }
    if tx.kind == Income {
      dailyMap' := dailyMap'[dateKey := Sums(dailyMap'[dateKey].income + tx.amount, dailyMap'[dateKey].expense)];
    } else {
      dailyMap' := dailyMap'[dateKey := Sums(dailyMap'[dateKey].income, dailyMap'[dateKey].expense + tx.amount)];
    }
  }

  /** The `forEach` over the sorted copy, starting from an empty map. */
  method Accumulate(sorted: seq<Transaction>) returns (dailyMap: map<string, Sums>, keys: seq<string>)
    ensures keys == Dates(sorted)
    ensures Tracks(dailyMap, keys, sorted)
  {
    dailyMap, keys := map[], [];
    var i := 0;
    while i < |sorted|
      invariant 0 <= i <= |sorted|
      invariant keys == Dates(sorted[..i])
      invariant Tracks(dailyMap, keys, sorted[..i])
    {
      assert sorted[..i + 1] == sorted[..i] + [sorted[i]];
      TracksStep(dailyMap, keys, sorted[..i], sorted[i]);
      dailyMap, keys := AccumulateOne(dailyMap, keys, sorted[i]);
      i := i + 1;
    }
    assert sorted[..|sorted|] == sorted;
  }

  /** The `useMemo` body: sort a copy by date, accumulate per date, then list the entries in insertion
      order (`Object.entries`; date keys are not array indices, so insertion order is kept). */
  method DailySeries(txs: seq<Transaction>) returns (series: seq<DailyStats>)
    ensures series == [] <==> txs == []
    ensures forall i, j :: 0 <= i < j < |series| ==> DateBefore(series[i].date, series[j].date)
    ensures forall i, j :: 0 <= i < j < |series| ==> series[i].date != series[j].date
    ensures forall d :: d in DatesOf(txs) <==> exists k :: 0 <= k < |series| && series[k].date == d
    ensures forall k :: 0 <= k < |series| ==>
      && series[k].income == DayTotal(txs, series[k].date, Income)
      && series[k].expense == DayTotal(txs, series[k].date, Expense)
    ensures SeriesIncome(series) == IncomeOf(txs) && SeriesExpense(series) == ExpenseOf(txs)
  {
    var sorted := SortByDate(txs);
    var dailyMap, keys := Accumulate(sorted);
    series := seq(|keys|, k requires 0 <= k < |keys| => DailyStats(keys[k], dailyMap[keys[k]].income, dailyMap[keys[k]].expense));
    assert Lists(series, keys, sorted);
    SeriesOrder(txs, sorted, keys, series);
    SeriesValues(txs, sorted, keys, series);
    SeriesTotals(txs, sorted, keys, series);
    forall i, j | 0 <= i < j < |series| ensures series[i].date != series[j].date {
      DateBeforeIrreflexive(series[i].date);
    }
  }

  predicate Lists(series: seq<DailyStats>, keys: seq<string>, s: seq<Transaction>)
  {
    && |series| == |keys|
    && forall k :: 0 <= k < |series| ==>
      && series[k].date == keys[k]
      && series[k].income == DayTotal(s, keys[k], Income)
      && series[k].expense == DayTotal(s, keys[k], Expense)
  }

  lemma SameDates(txs: seq<Transaction>)
    ensures DatesOf(SortByDate(txs)) == DatesOf(txs)
  {
    var sorted := SortByDate(txs);
    forall t ensures t in sorted <==> t in txs {
      assert t in sorted <==> t in multiset(sorted);
      assert t in txs <==> t in multiset(txs);
    }
  }

  /** The series lists each date of the input once, in ascending order, and is empty only for no input. */
  lemma SeriesOrder(txs: seq<Transaction>, sorted: seq<Transaction>, keys: seq<string>, series: seq<DailyStats>)
    requires sorted == SortByDate(txs) && keys == Dates(sorted) && Lists(series, keys, sorted)
    ensures series == [] <==> txs == []
    ensures forall i, j :: 0 <= i < j < |series| ==> DateBefore(series[i].date, series[j].date)
    ensures forall d :: d in DatesOf(txs) <==> exists k :: 0 <= k < |series| && series[k].date == d
  {
    SameDates(txs);
    SeriesAscend(sorted, keys, series);
    SeriesCovers(sorted, keys, series);
    if txs != [] {
      assert txs[0].date in DatesOf(txs);
    }
  }

  lemma SeriesAscend(sorted: seq<Transaction>, keys: seq<string>, series: seq<DailyStats>)
    requires SortedByDate(sorted) && keys == Dates(sorted) && Lists(series, keys, sorted)
    ensures forall i, j :: 0 <= i < j < |series| ==> DateBefore(series[i].date, series[j].date)
  {
    DatesAscend(sorted);
    forall i, j | 0 <= i < j < |series| ensures DateBefore(series[i].date, series[j].date) {
      assert series[i].date == keys[i] && series[j].date == keys[j];
    }
  }

  lemma SeriesCovers(sorted: seq<Transaction>, keys: seq<string>, series: seq<DailyStats>)
    requires keys == Dates(sorted) && Lists(series, keys, sorted)
    ensures forall d :: d in DatesOf(sorted) <==> exists k :: 0 <= k < |series| && series[k].date == d
  {
    forall d | d in DatesOf(sorted) ensures exists k :: 0 <= k < |series| && series[k].date == d {
      var k :| 0 <= k < |keys| && keys[k] == d;
      assert series[k].date == d;
    }
  }

  lemma SeriesValues(txs: seq<Transaction>, sorted: seq<Transaction>, keys: seq<string>, series: seq<DailyStats>)
    requires sorted == SortByDate(txs) && Lists(series, keys, sorted)
    ensures forall k :: 0 <= k < |series| ==>
      && series[k].income == DayTotal(txs, series[k].date, Income)
      && series[k].expense == DayTotal(txs, series[k].date, Expense)
  {
    forall k | 0 <= k < |series|
      ensures series[k].income == DayTotal(txs, series[k].date, Income)
      ensures series[k].expense == DayTotal(txs, series[k].date, Expense)
    {
      DayTotalSorted(txs, keys[k], Income);
      DayTotalSorted(txs, keys[k], Expense);
    }
  }

  lemma SeriesTotals(txs: seq<Transaction>, sorted: seq<Transaction>, keys: seq<string>, series: seq<DailyStats>)
    requires sorted == SortByDate(txs) && keys == Dates(sorted) && Lists(series, keys, sorted)
    ensures SeriesIncome(series) == IncomeOf(txs) && SeriesExpense(series) == ExpenseOf(txs)
  {
    SeriesSums(series, keys, sorted);
    SumDaysTotals(sorted);
    IncomeSorted(txs);
  }

  /** Sorting does not change the list's totals. */
  lemma {:induction false} IncomeSorted(txs: seq<Transaction>)
    ensures IncomeOf(SortByDate(txs)) == IncomeOf(txs) && ExpenseOf(SortByDate(txs)) == ExpenseOf(txs)
  {
    if txs != [] {
      IncomeSorted(txs[1..]);
      InsertTotals(txs[0], SortByDate(txs[1..]));
    }
  }

  lemma {:induction false} InsertTotals(t: Transaction, s: seq<Transaction>)
    requires SortedByDate(s)
    ensures IncomeOf(Insert(t, s)) == IncomeOf([t]) + IncomeOf(s)
    ensures ExpenseOf(Insert(t, s)) == ExpenseOf([t]) + ExpenseOf(s)
  {
    if s == [] || DateAtMost(t.date, s[0].date) {
      assert Insert(t, s) == [t] + s;
      IncomeOfConcat([t], s);
      ExpenseOfConcat([t], s);
    } else {
      var r := Insert(t, s[1..]);
      InsertTotals(t, s[1..]);
      assert Insert(t, s) == [s[0]] + r;
      IncomeOfConcat([s[0]], r);
      ExpenseOfConcat([s[0]], r);
      assert [s[0]] + s[1..] == s;
      IncomeOfConcat([s[0]], s[1..]);
      ExpenseOfConcat([s[0]], s[1..]);
    }
  }
}
