/** The pure derivations of App.tsx: per-user partitions of the shared store, the month view and its totals. */
module Ledger {
  import opened Types
  import opened Seqs

  /** The records of one user, in store order (the filter of the load effect). */
  function ForUser(txs: seq<Transaction>, uid: string): (r: seq<Transaction>)
    ensures forall t :: t in r <==> t in txs && t.userId == uid
    ensures |r| <= |txs|
    ensures SubsequenceOf(r, txs)
    ensures forall t :: multiset(r)[t] == if t.userId == uid then multiset(txs)[t] else 0
  {
    if txs == [] then []
    else
      assert txs == [txs[0]] + txs[1..];
      if txs[0].userId == uid then
        var r := [txs[0]] + ForUser(txs[1..], uid);
        assert r[1..] == ForUser(txs[1..], uid);
        r
      else ForUser(txs[1..], uid)
  }

  /** The records of every other user, in store order. */
  function OtherUsers(txs: seq<Transaction>, uid: string): (r: seq<Transaction>)
    ensures forall t :: t in r <==> t in txs && t.userId != uid
    ensures |r| <= |txs|
    ensures SubsequenceOf(r, txs)
    ensures forall t :: multiset(r)[t] == if t.userId != uid then multiset(txs)[t] else 0
  {
    if txs == [] then []
    else
      assert txs == [txs[0]] + txs[1..];
      if txs[0].userId != uid then
        var r := [txs[0]] + OtherUsers(txs[1..], uid);
        assert r[1..] == OtherUsers(txs[1..], uid);
        r
      else OtherUsers(txs[1..], uid)
  }

  predicate OwnedBy(txs: seq<Transaction>, uid: string)
  {
    forall t :: t in txs ==> t.userId == uid
  }

  lemma {:induction false} ForUserConcat(a: seq<Transaction>, b: seq<Transaction>, u: string)
    ensures ForUser(a + b, u) == ForUser(a, u) + ForUser(b, u)
  {
    if a == [] {
      assert a + b == b;
    } else {
      assert (a + b)[0] == a[0];
      assert (a + b)[1..] == a[1..] + b;
      ForUserConcat(a[1..], b, u);
    }
  }

  lemma {:induction false} ForUserOwned(txs: seq<Transaction>, uid: string, u: string)
    requires OwnedBy(txs, uid)
    ensures ForUser(txs, u) == if u == uid then txs else []
  {
    if txs != [] {
      ForUserOwned(txs[1..], uid, u);
    }
  }

  lemma {:induction false} ForUserOfOthers(txs: seq<Transaction>, uid: string, u: string)
    ensures ForUser(OtherUsers(txs, uid), u) == if u == uid then [] else ForUser(txs, u)
  {
    if txs != [] {
      ForUserOfOthers(txs[1..], uid, u);
    }
  }

  /** The shared store after the current user's partition is replaced by `newTxs`. */
  function Merged(blob: seq<Transaction>, uid: string, newTxs: seq<Transaction>): (r: seq<Transaction>)
    ensures forall t :: t in r <==> (t in blob && t.userId != uid) || t in newTxs
    ensures |newTxs| <= |r| <= |blob| + |newTxs| && r[|r| - |newTxs|..] == newTxs
  {
    OtherUsers(blob, uid) + newTxs
  }

  /** Replacing one user's partition leaves every other user's partition exactly as it was. */
  lemma MergedKeepsOthers(blob: seq<Transaction>, uid: string, newTxs: seq<Transaction>, u: string)
    requires OwnedBy(newTxs, uid)
    requires u != uid
    ensures ForUser(Merged(blob, uid, newTxs), u) == ForUser(blob, u)
  {
    ForUserConcat(OtherUsers(blob, uid), newTxs, u);
    ForUserOwned(newTxs, uid, u);
    ForUserOfOthers(blob, uid, u);
  }

  /** Every partition but `uid`'s is the same in both stores. */
  ghost predicate SameOtherPartitions(b1: seq<Transaction>, b2: seq<Transaction>, uid: string)
  {
    forall u :: u != uid ==> ForUser(b1, u) == ForUser(b2, u)
  }

  lemma MergedKeepsAllOthers(blob: seq<Transaction>, uid: string, newTxs: seq<Transaction>)
    requires OwnedBy(newTxs, uid)
    ensures SameOtherPartitions(Merged(blob, uid, newTxs), blob, uid)
  {
    forall u | u != uid
      ensures ForUser(Merged(blob, uid, newTxs), u) == ForUser(blob, u)
    {
      MergedKeepsOthers(blob, uid, newTxs, u);
    }
  }

  /** After the replacement the current user's partition is exactly `newTxs`. */
  lemma MergedOwnPartition(blob: seq<Transaction>, uid: string, newTxs: seq<Transaction>)
    requires OwnedBy(newTxs, uid)
    ensures ForUser(Merged(blob, uid, newTxs), uid) == newTxs
  {
    var others := OtherUsers(blob, uid);
    assert Merged(blob, uid, newTxs) == others + newTxs;
    ForUserConcat(others, newTxs, uid);
    ForUserOfOthers(blob, uid, uid);
    assert ForUser(others, uid) == [];
    ForUserOwned(newTxs, uid, uid);
    assert ForUser(newTxs, uid) == newTxs;
    assert [] + newTxs == newTxs;
  }

  /** `newData.map(t => ({ ...t, userId }))`: same records, same order, same ids, new owner. */
  function Stamped(txs: seq<Transaction>, uid: string): (r: seq<Transaction>)
    ensures |r| == |txs|
    ensures forall i :: 0 <= i < |txs| ==> r[i] == txs[i].(userId := uid)
    ensures OwnedBy(r, uid)
  {
    seq(|txs|, i requires 0 <= i < |txs| => WithUserId(txs[i], uid))
  }

  /** `transactions.filter(t => t.id !== id)`: every record with that id goes, the rest stay in order. */
  function WithoutId(txs: seq<Transaction>, id: string): (r: seq<Transaction>)
    ensures forall t :: t in r <==> t in txs && t.id != id
    ensures |r| <= |txs|
    ensures SubsequenceOf(r, txs)
    ensures forall t :: multiset(r)[t] == if t.id != id then multiset(txs)[t] else 0
  {
    if txs == [] then []
    else
      assert txs == [txs[0]] + txs[1..];
      if txs[0].id != id then
        var r := [txs[0]] + WithoutId(txs[1..], id);
        assert r[1..] == WithoutId(txs[1..], id);
        r
      else WithoutId(txs[1..], id)
  }

  predicate StartsWith(s: string, prefix: string)
  {
    |prefix| <= |s| && s[..|prefix|] == prefix
  }

  /** `transactions.filter(t => t.date.startsWith(viewDate))`. */
  function InMonth(txs: seq<Transaction>, viewDate: string): (r: seq<Transaction>)
    ensures forall t :: t in r <==> t in txs && StartsWith(t.date, viewDate)
    ensures |r| <= |txs|
    ensures SubsequenceOf(r, txs)
    ensures forall t :: multiset(r)[t] == if StartsWith(t.date, viewDate) then multiset(txs)[t] else 0
  {
    if txs == [] then []
    else
      assert txs == [txs[0]] + txs[1..];
      if StartsWith(txs[0].date, viewDate) then
        var r := [txs[0]] + InMonth(txs[1..], viewDate);
        assert r[1..] == InMonth(txs[1..], viewDate);
        r
      else InMonth(txs[1..], viewDate)
  }

  /** A record dated `YYYY-MM-DD` is in month `YYYY-MM` exactly when its first seven characters are the key. */
  lemma MonthKeyIsDatePrefix(date: string, viewDate: string)
    requires |date| == 10 && |viewDate| == 7
    ensures StartsWith(date, viewDate) <==> date[..7] == viewDate
  {
  }

  /** Σ amount, `reduce((sum, t) => sum + t.amount, 0)`. */
  function SumAmounts(txs: seq<Transaction>): (r: int)
    ensures txs == [] ==> r == 0
    ensures (forall k :: 0 <= k < |txs| ==> txs[k].amount >= 0) ==> r >= 0
  {
    if txs == [] then 0 else txs[0].amount + SumAmounts(txs[1..])
  }

  /** `transactions.filter(t => t.type === kind)`. */
  function OfKind(txs: seq<Transaction>, kind: TransactionType): (r: seq<Transaction>)
    ensures forall t :: t in r <==> t in txs && t.kind == kind
    ensures SubsequenceOf(r, txs)
    ensures forall t :: multiset(r)[t] == if t.kind == kind then multiset(txs)[t] else 0
  {
    if txs == [] then []
    else
      assert txs == [txs[0]] + txs[1..];
      if txs[0].kind == kind then
        var r := [txs[0]] + OfKind(txs[1..], kind);
        assert r[1..] == OfKind(txs[1..], kind);
        r
      else OfKind(txs[1..], kind)
  }

  /** Reference definitions, one record at a time. */
  function IncomeOf(txs: seq<Transaction>): int
  {
    if txs == [] then 0 else (if txs[0].kind == Income then txs[0].amount else 0) + IncomeOf(txs[1..])
  }

  function ExpenseOf(txs: seq<Transaction>): int
  {
    if txs == [] then 0 else (if txs[0].kind == Expense then txs[0].amount else 0) + ExpenseOf(txs[1..])
  }

  /** The signed effect of each record on the balance: `+amount` for income, `-amount` for expense. */
  function Net(txs: seq<Transaction>): int
  {
    if txs == [] then 0
    else (match txs[0].kind case Income => txs[0].amount case Expense => -txs[0].amount) + Net(txs[1..])
  }

  lemma {:induction false} SumIncomeIsIncomeOf(txs: seq<Transaction>)
    ensures SumAmounts(OfKind(txs, Income)) == IncomeOf(txs)
  {
    if txs != [] {
      SumIncomeIsIncomeOf(txs[1..]);
    }
  }

  lemma {:induction false} SumExpenseIsExpenseOf(txs: seq<Transaction>)
    ensures SumAmounts(OfKind(txs, Expense)) == ExpenseOf(txs)
  {
    if txs != [] {
      SumExpenseIsExpenseOf(txs[1..]);
    }
  }

  lemma {:induction false} NetIsIncomeMinusExpense(txs: seq<Transaction>)
    ensures Net(txs) == IncomeOf(txs) - ExpenseOf(txs)
  {
    if txs != [] {
      NetIsIncomeMinusExpense(txs[1..]);
    }
  }

  datatype Stats = Stats(income: int, expense: int, profit: int)

  /** The `stats` memo: income and expense summed separately, profit their difference. */
  function Totals(txs: seq<Transaction>): (r: Stats)
    ensures r.income == IncomeOf(txs) && r.expense == ExpenseOf(txs)
    ensures r.profit == r.income - r.expense == Net(txs)
    ensures txs == [] ==> r == Stats(0, 0, 0)
  {
    var income := SumAmounts(OfKind(txs, Income));
    var expense := SumAmounts(OfKind(txs, Expense));
    SumIncomeIsIncomeOf(txs);
    SumExpenseIsExpenseOf(txs);
    NetIsIncomeMinusExpense(txs);
    Stats(income, expense, income - expense)
  }

  lemma {:induction false} IncomeOfConcat(a: seq<Transaction>, b: seq<Transaction>)
    ensures IncomeOf(a + b) == IncomeOf(a) + IncomeOf(b)
  {
    if a == [] {
      assert a + b == b;
    } else {
      assert (a + b)[1..] == a[1..] + b;
      IncomeOfConcat(a[1..], b);
    }
  }

  lemma {:induction false} ExpenseOfConcat(a: seq<Transaction>, b: seq<Transaction>)
    ensures ExpenseOf(a + b) == ExpenseOf(a) + ExpenseOf(b)
  {
    if a == [] {
      assert a + b == b;
    } else {
      assert (a + b)[1..] == a[1..] + b;
      ExpenseOfConcat(a[1..], b);
    }
  }

  /** Totals of two record lists put together are the sums of their totals. */
  lemma TotalsConcat(a: seq<Transaction>, b: seq<Transaction>)
    ensures Totals(a + b).income == Totals(a).income + Totals(b).income
    ensures Totals(a + b).expense == Totals(a).expense + Totals(b).expense
    ensures Totals(a + b).profit == Totals(a).profit + Totals(b).profit
  {
    IncomeOfConcat(a, b);
    ExpenseOfConcat(a, b);
  }

  /** Two records in June: a sale of 100 and rent of 40 give income 100, expense 40, profit 60. */
  lemma JuneScenario()
    ensures var sale := Transaction("1", "Sale", 100, Income, "sales", "2024-06-01", "u");
            var rent := Transaction("2", "Rent", 40, Expense, "rent", "2024-06-02", "u");
            Totals(InMonth([sale, rent], "2024-06")) == Stats(100, 40, 60)
  {
    var sale := Transaction("1", "Sale", 100, Income, "sales", "2024-06-01", "u");
    var rent := Transaction("2", "Rent", 40, Expense, "rent", "2024-06-02", "u");
    assert StartsWith(sale.date, "2024-06") && StartsWith(rent.date, "2024-06");
    assert [sale, rent][1..] == [rent];
    assert InMonth([sale, rent], "2024-06") == [sale, rent];
    assert [rent][1..] == [];
    assert IncomeOf([rent]) == 0 && ExpenseOf([rent]) == 40;
    assert IncomeOf([sale, rent]) == 100 && ExpenseOf([sale, rent]) == 40;
  }

  /** The month view is a prefix match: `2024-3-1` is not in month `2024-03`, `2024-03-31` is. */
  lemma PrefixScenario()
    ensures var late := Transaction("1", "a", 5, Income, "c", "2024-03-31", "u");
            var odd := Transaction("2", "b", 7, Income, "c", "2024-3-1", "u");
            InMonth([late, odd], "2024-03") == [late]
  {
    var late := Transaction("1", "a", 5, Income, "c", "2024-03-31", "u");
    var odd := Transaction("2", "b", 7, Income, "c", "2024-3-1", "u");
    assert StartsWith(late.date, "2024-03");
    assert odd.date[..7] != "2024-03" by { assert odd.date[5] != "2024-03"[5]; }
    assert [late, odd][1..] == [odd];
  }
}
