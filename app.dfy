/** The ledger state of the App component (App.tsx): the session, the in-memory list and the shared store. */
module App {
  import opened Types
  import opened Ledger
  import Advisor

  const NoDataThisMonth: string := "এই মাসে কোনো ডাটা নেই।"
  const InsightFailed: string := "AI বিশ্লেষণ ব্যর্থ হয়েছে।"

  class Shop {
    /** The logged-in user (`user` state). */
    var user: Option<User>
    /** The in-memory list of the logged-in user's records (`transactions` state). */
    var transactions: seq<Transaction>
    /** The all-users store kept under the `shop_ai_cloud_data` key; `blobStored` is false while the key is absent. */
    var blob: seq<Transaction>
    var blobStored: bool
    /** The session kept under the `shop_ai_user` key. */
    var savedUser: Option<User>
    /** The `YYYY-MM` key of the month on view. */
    var viewDate: string
    var insight: Option<string>
    var showForm: bool
    var showSync: bool
    var showProfileMenu: bool

    /** The in-memory list holds only the current user's records, and nothing when nobody is logged in. */
    ghost predicate Valid()
      reads this
    {
      && (user.None? ==> transactions == [])
      && (user.Some? ==> OwnedBy(transactions, user.value.id))
      && (user.Some? ==> savedUser == user)
      && (!blobStored ==> blob == [])
    }

    /** Mount: nobody logged in yet, the stored keys as the browser holds them, `thisMonth` from the clock. */
    constructor (storedUser: Option<User>, storedBlob: Option<seq<Transaction>>, thisMonth: string)
      ensures Valid()
      ensures user == None && transactions == [] && insight == None
      ensures savedUser == storedUser && viewDate == thisMonth
      ensures blobStored == storedBlob.Some? && blob == (if storedBlob.Some? then storedBlob.value else [])
      ensures !showForm && !showSync && !showProfileMenu
    {
      user := None;
      transactions := [];
      blobStored := storedBlob.Some?;
      blob := if storedBlob.Some? then storedBlob.value else [];
      savedUser := storedUser;
      viewDate := thisMonth;
      insight := None;
      showForm, showSync, showProfileMenu := false, false, false;
    }

    /** The mount effect: a saved session becomes the current user. */
    method RestoreSession()
      requires Valid()
      modifies this
      ensures Valid()
      ensures user == (if old(savedUser).Some? then old(savedUser) else old(user))
      ensures transactions == old(transactions) && blob == old(blob) && blobStored == old(blobStored)
      ensures savedUser == old(savedUser) && viewDate == old(viewDate) && insight == old(insight)
      ensures showForm == old(showForm) && showSync == old(showSync) && showProfileMenu == old(showProfileMenu)
    {
      if savedUser.Some? {
        user := savedUser;
      }
    }

    /** `handleLogin`: only reachable from the login screen, which is shown while nobody is logged in. */
    method Login(newUser: User, thisMonth: string)
      requires Valid() && user.None?
      modifies this
      ensures Valid()
      ensures user == Some(newUser) && savedUser == Some(newUser) && viewDate == thisMonth
      ensures transactions == [] && blob == old(blob) && blobStored == old(blobStored)
      ensures insight == old(insight)
      ensures showForm == old(showForm) && showSync == old(showSync) && showProfileMenu == old(showProfileMenu)
    {
      savedUser := Some(newUser);
      user := Some(newUser);
      viewDate := thisMonth;
    }

    /** The effect that runs when `user` changes: load exactly this user's records from the store. */
    method Load()
      requires Valid()
      modifies this`transactions
      ensures Valid()
      ensures user.None? ==> transactions == []
      ensures user.Some? && blobStored ==> transactions == ForUser(blob, user.value.id)
      ensures user.Some? && !blobStored ==> transactions == old(transactions)
    {
      if user.Some? {
        if blobStored {
          transactions := ForUser(blob, user.value.id);
        }
      } else {
        transactions := [];
      }
    }

    /** `saveToCloud`: replace the current user's partition of the store by `newTransactions`. */
    method SaveToCloud(newTransactions: seq<Transaction>)
      requires Valid()
      modifies this`blob, this`blobStored, this`transactions
      ensures user.None? ==> blob == old(blob) && blobStored == old(blobStored) && transactions == old(transactions)
      ensures user.Some? ==> blob == Merged(old(blob), user.value.id, newTransactions)
      ensures user.Some? ==> blobStored && transactions == newTransactions
      ensures user.Some? && OwnedBy(newTransactions, user.value.id) ==>
        && Valid()
        && ForUser(blob, user.value.id) == newTransactions
        && SameOtherPartitions(blob, old(blob), user.value.id)
    {
      if user.None? {
        return;
      }
      var uid := user.value.id;
      var allData := if blobStored then blob else [];
      assert allData == old(blob);
      var otherUsersData := OtherUsers(allData, uid);
      blob := otherUsersData + newTransactions;
      blobStored := true;
      transactions := newTransactions;
      assert blob == Merged(old(blob), uid, newTransactions);
      if OwnedBy(newTransactions, uid) {
        assert ForUser(blob, uid) == newTransactions by {
          MergedOwnPartition(old(blob), uid, newTransactions);
        }
        assert SameOtherPartitions(blob, old(blob), uid) by {
          MergedKeepsAllOthers(old(blob), uid, newTransactions);
        }
      }
    }

    /** `addTransaction`: the record, stamped with the user's id, goes in front of the list. */
    method Add(newTx: Transaction)
      requires Valid()
      modifies this`blob, this`blobStored, this`transactions, this`showForm
      ensures Valid()
      ensures user.None? ==> unchanged(this)
      ensures user.Some? ==>
        && transactions == [WithUserId(newTx, user.value.id)] + old(transactions)
        && blob == Merged(old(blob), user.value.id, transactions)
        && ForUser(blob, user.value.id) == transactions
        && !showForm
      ensures user.Some? ==> SameOtherPartitions(blob, old(blob), user.value.id)
    {
      if user.None? {
        return;
      }
      var txWithUser := WithUserId(newTx, user.value.id);
      SaveToCloud([txWithUser] + transactions);
      showForm := false;
    }

    /** `deleteTransaction`: after confirmation, every record with that id leaves the list and the store. */
    method Delete(id: string, confirmed: bool)
      requires Valid()
      modifies this`blob, this`blobStored, this`transactions
      ensures Valid()
      ensures !confirmed || user.None? ==> unchanged(this)
      ensures confirmed && user.Some? ==>
        && transactions == WithoutId(old(transactions), id)
        && blob == Merged(old(blob), user.value.id, transactions)
        && ForUser(blob, user.value.id) == transactions
      ensures user.Some? ==> SameOtherPartitions(blob, old(blob), user.value.id)
    {
      if confirmed {
        var updated := WithoutId(transactions, id);
        SaveToCloud(updated);
      }
    }

    /** `handleImportData`: the imported records, re-owned but keeping their ids, REPLACE the user's partition. */
    method Import(newData: seq<Transaction>)
      requires Valid()
      modifies this`blob, this`blobStored, this`transactions, this`showSync
      ensures Valid()
      ensures user.None? ==> unchanged(this)
      ensures user.Some? ==>
        && transactions == Stamped(newData, user.value.id)
        && blob == Merged(old(blob), user.value.id, transactions)
        && ForUser(blob, user.value.id) == transactions
        && !showSync
      ensures user.Some? ==> SameOtherPartitions(blob, old(blob), user.value.id)
    {
      if user.Some? {
        var txsWithId := Stamped(newData, user.value.id);
        SaveToCloud(txsWithId);
        showSync := false;
      }
    }

    /** `handleLogout`: nothing of the session stays visible; the shared store is kept. */
    method Logout()
      requires Valid()
      modifies this
      ensures Valid()
      ensures user == None && savedUser == None && transactions == [] && insight == None
      ensures !showProfileMenu && !showForm && !showSync
      ensures blob == old(blob) && blobStored == old(blobStored) && viewDate == old(viewDate)
    {
      savedUser := None;
      user := None;
      transactions := [];
      insight := None;
      showProfileMenu := false;
      showForm := false;
      showSync := false;
    }

    /** The month picker. */
    method SetViewDate(month: string)
      requires Valid()
      modifies this`viewDate
      ensures Valid() && viewDate == month
    {
      viewDate := month;
    }

    /** `filteredTransactions`. */
    function Filtered(): (r: seq<Transaction>)
      reads this
      ensures r == InMonth(transactions, viewDate)
      ensures forall t :: t in r <==> t in transactions && StartsWith(t.date, viewDate)
    {
      InMonth(transactions, viewDate)
    }

    /** `stats`. */
    function MonthStats(): (r: Stats)
      reads this
      ensures r.profit == r.income - r.expense
      ensures r.income == IncomeOf(Filtered()) && r.expense == ExpenseOf(Filtered())
    {
      Totals(Filtered())
    }

    /** `handleGetAiInsight`: an empty month answers at once and asks nothing; otherwise the month's records go
        to the advisory service (`sent` is the prompt it receives) and its answer becomes the insight, or a
        fixed message when the service could not even be started. */
    method GetAiInsight(response: Advisor.Response, showAmount: int -> string) returns (sent: Option<string>)
      requires Valid()
      modifies this`insight
      ensures Valid()
      ensures Filtered() == [] ==> insight == Some(NoDataThisMonth) && sent == None
      ensures Filtered() != [] && response.ClientFailed? ==> insight == Some(InsightFailed) && sent == None
      ensures Filtered() != [] && !response.ClientFailed? ==>
        && sent == Some(Advisor.Prompt(Filtered(), showAmount))
        && insight == Advisor.Analyze(response)
    {
      var month := Filtered();
      if |month| == 0 {
        insight := Some(NoDataThisMonth);
        return None;
      }
      var answer := Advisor.Analyze(response);
      if answer.None? {
        insight := Some(InsightFailed);
        sent := None;
      } else {
        sent := Some(Advisor.Prompt(month, showAmount));
        insight := answer;
      }
    }
  }

  /** Whatever the logged-in user adds, imports or deletes, another user's partition of the store stays as it was. */
  method EditsKeepOtherPartition(shop: Shop, tx: Transaction, data: seq<Transaction>, id: string, confirmed: bool, other: string)
    requires shop.Valid() && shop.user.Some? && other != shop.user.value.id
    modifies shop
    ensures shop.Valid()
    ensures ForUser(shop.blob, other) == old(ForUser(shop.blob, other))
  {
    ghost var b0 := shop.blob;
    shop.Add(tx);
    ghost var b1 := shop.blob;
    assert ForUser(b1, other) == ForUser(b0, other);
    shop.Import(data);
    ghost var b2 := shop.blob;
    assert ForUser(b2, other) == ForUser(b1, other);
    shop.Delete(id, confirmed);
  }
}
