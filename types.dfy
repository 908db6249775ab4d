/** The records of the shop ledger (types.ts). */
module Types {

  datatype Option<+T> = None | Some(value: T)

  /** The two kinds of transaction; `TypeValue` gives the string each is stored as. */
  datatype TransactionType = Income | Expense

  function TypeValue(k: TransactionType): (s: string)
    ensures |s| > 0
    ensures k == Income <==> s == "Income"
    ensures k == Expense <==> s == "Expense"
  {
    match k
    case Income => "Income"
    case Expense => "Expense"
  }

  /** Reads a stored type string back; the only strings accepted are the two stored values. */
  function ParseType(s: string): (r: Option<TransactionType>)
    ensures r.Some? <==> s == "Income" || s == "Expense"
    ensures r.Some? ==> TypeValue(r.value) == s
  {
    if s == "Income" then Some(Income)
    else if s == "Expense" then Some(Expense)
    else None
  }

  lemma TypeValueRoundTrip(k: TransactionType)
    ensures ParseType(TypeValue(k)) == Some(k)
  {
  }

  /** A ledger record: amounts are whole cents, dates `YYYY-MM-DD` strings. */
  datatype Transaction = Transaction(
    id: string,
    description: string,
    amount: int,
    kind: TransactionType,
    category: string,
    date: string,
    userId: string)

  datatype User = User(id: string, name: string, email: string, avatar: Option<string>)

  datatype DailyStats = DailyStats(date: string, income: int, expense: int)

  /** The record with its owner replaced, every other field kept (`{ ...t, userId }`). */
  function WithUserId(t: Transaction, uid: string): (r: Transaction)
    ensures r.userId == uid
    ensures r.(userId := t.userId) == t
  {
    t.(userId := uid)
  }
}
