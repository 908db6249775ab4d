/** The entry form for a new transaction (TransactionForm.tsx): five editable fields and the owner it was
    opened for. */
module Form {
  import opened Types
  import Text

  /** The category the form starts with ("sale of goods"). */
  const DefaultCategory: string := "পণ্য বিক্রয়"

  /** The calendar-day part of an ISO timestamp: the text before the first `T`. */
  function DayOf(isoNow: string): (d: string)
    ensures 'T' !in d
    ensures 'T' !in isoNow ==> d == isoNow
    ensures d <= isoNow
    ensures 'T' in isoNow ==> |d| < |isoNow| && isoNow[|d|] == 'T'
  {
    Text.SplitHead(isoNow, 'T');
    Text.Split(isoNow, 'T')[0]
  }

  class TransactionForm {
    var description: string
    /** The amount exactly as typed; it is parsed only on submission. */
    var amount: string
    var kind: TransactionType
    var category: string
    var date: string
    const userId: string

    /** A fresh form: empty text fields, an income, the default category and today's date. */
    constructor (isoNow: string, owner: string)
      ensures description == "" && amount == ""
      ensures kind == Income && category == DefaultCategory
      ensures date == DayOf(isoNow) && userId == owner
    {
      description := "";
      amount := "";
      kind := Income;
      category := DefaultCategory;
      date := DayOf(isoNow);
      userId := owner;
    }

    /** The field edits of the inputs; the owner is fixed. */
    method Edit(newDescription: string, newAmount: string, newKind: TransactionType, newCategory: string, newDate: string)
      modifies this
      ensures description == newDescription && amount == newAmount && kind == newKind
      ensures category == newCategory && date == newDate
    {
      description, amount, kind, category := newDescription, newAmount, newKind, newCategory;
      date := newDate;
    }

    /** Submitting the form. A blank description or a blank amount sends nothing and changes nothing.
        Otherwise the record built from the fields, with the fresh id and the parsed amount, is sent
        exactly once, and the description and amount are cleared for the next entry while the type,
        category and date stay as they were. */
    method Submit(freshId: string, parseAmount: string -> int) returns (added: Option<Transaction>)
      modifies this
      ensures old(description) == "" || old(amount) == "" ==> added == None && unchanged(this)
      ensures old(description) != "" && old(amount) != "" ==>
        && added == Some(Transaction(freshId, old(description), parseAmount(old(amount)), old(kind),
                                     old(category), old(date), userId))
        && description == "" && amount == ""
        && kind == old(kind) && category == old(category) && date == old(date)
    {
      if description == "" || amount == "" {
        return None;
      }
      var tx := Transaction(freshId, description, parseAmount(amount), kind, category, date, userId);
      added := Some(tx);
      description := "";
      amount := "";
    }
  }
}
