/** The mutable state of money.js: the ledger with its add, delete and undo handlers,
    the list filter, and the settings object. */
module Tracker {
  import opened Transactions
  import opened Views
  import opened Formatting

  /** The module-level `transactions` array, the snapshot last written to local storage
      by `saveTransactions`, and `currentFilter`. */
  class MoneyTracker {
    var transactions: seq<Transaction>
    var stored: seq<Transaction>
    var currentFilter: Filter

    /** Every change to the ledger is followed by a save, so storage holds the ledger. */
    ghost predicate Valid()
      reads this
    {
      stored == transactions
    }

    /** `loadTransactions` at start-up: the stored ledger if there is one, else an empty one. */
    constructor Load(snapshot: Option<seq<Transaction>>)
      ensures Valid() && currentFilter == All
      ensures transactions == if snapshot.Some? then snapshot.value else []
    {
      transactions := if snapshot.Some? then snapshot.value else [];
      stored := transactions;
      currentFilter := All;
    }

    /** `handleAddTransaction`: validate the form, then put the new record first and save.
        `id` stands for `generateId()` and `now` for the current time. */
    method Add(description: string, amount: ParsedAmount, kind: Kind, id: int, now: int)
      returns (r: Result<Transaction, AddError>)
      requires Valid()
      modifies this
      ensures Valid() && currentFilter == old(currentFilter)
      ensures r.Failure? <==> Validate(description, amount).Failure?
      ensures r.Failure? ==> transactions == old(transactions)
      ensures r.Success? ==> r.value == Transaction(id, Trim(description), amount.value, kind, now)
                             && transactions == [r.value] + old(transactions)
      ensures AllPositive(old(transactions)) ==> AllPositive(transactions)
    {
      var checked := Validate(description, amount);
      if checked.Failure? {
        return Failure(checked.error);
      }
      var t := Transaction(id, checked.value.0, checked.value.1, kind, now);
      PrependPositive(t, transactions);
      transactions := [t] + transactions;
      stored := transactions;
      r := Success(t);
    }

    /** `deleteTransaction`: capture the first record with the id for the undo toast, drop
        every record with that id, and save. */
    method Delete(id: int) returns (captured: Option<Transaction>)
      requires Valid()
      modifies this
      ensures Valid() && currentFilter == old(currentFilter)
      ensures captured == FindFirst(old(transactions), id)
      ensures transactions == RemoveId(old(transactions), id)
    {
      captured := FindFirst(transactions, id);
      transactions := RemoveId(transactions, id);
      stored := transactions;
    }

    /** The toast's UNDO button: put the captured record back in front, whatever is in the
        ledger now, and save. */
    method Undo(captured: Transaction)
      requires Valid()
      modifies this
      ensures Valid() && currentFilter == old(currentFilter)
      ensures transactions == [captured] + old(transactions)
    {
      transactions := [captured] + transactions;
      stored := transactions;
    }

    /** `handleFilter`: remember the pressed filter button. */
    method SetFilter(f: Filter)
      modifies this`currentFilter
      ensures currentFilter == f
    {
      currentFilter := f;
    }

    /** `getFilteredTransactions` on the current state: the ledger for 'all', otherwise its records
        of the selected type in ledger order, each as often as in the ledger. */
    function Visible(): (r: seq<Transaction>)
      reads this
      ensures currentFilter.All? ==> r == transactions
      ensures currentFilter.OnlyKind? ==> IsSubsequence(r, transactions)
      ensures forall t :: multiset(r)[t] == if currentFilter.All? || t.kind == currentFilter.kind then multiset(transactions)[t] else 0
    {
      ViewCounts(transactions, currentFilter);
      View(transactions, currentFilter)
    }
  }

  /** Undoing the delete of a record whose id is unique brings back exactly the records
      the ledger had, the restored one now first. */
  lemma {:induction false} UndoRestoresRecords(s: seq<Transaction>, id: int)
    requires CountId(s, id) == 1
    ensures FindFirst(s, id).Some?
    ensures multiset([FindFirst(s, id).value] + RemoveId(s, id)) == multiset(s)
  {
    assert s == [s[0]] + s[1..];
    if s[0].id == id {
      assert CountId(s[1..], id) == 0;
    } else {
      UndoRestoresRecords(s[1..], id);
    }
  }

  /** When the deleted record was the newest and its id unique, undo gives back the very same ledger. */
  lemma UndoRestoresNewest(s: seq<Transaction>, id: int)
    requires s != [] && s[0].id == id && CountId(s, id) == 1
    ensures FindFirst(s, id) == Some(s[0])
    ensures [s[0]] + RemoveId(s, id) == s
  {
    assert CountId(s[1..], id) == 0;
  }

  /** When several records share the id, delete drops them all and undo brings back one:
      the ledger ends up shorter than it was. */
  lemma UndoAfterSharedId(s: seq<Transaction>, id: int)
    requires CountId(s, id) >= 2
    ensures FindFirst(s, id).Some?
    ensures |[FindFirst(s, id).value] + RemoveId(s, id)| == |s| - CountId(s, id) + 1 < |s|
  {
    RemoveIdCounts(s, id, s[0]);
  }

  /** The `settings` object: theme, currency code, profile name and picture. */
  class Settings {
    var theme: string
    var currency: string
    var profileName: string
    var profileImage: string

    /** The defaults in effect when nothing is stored. */
    constructor ()
      ensures theme == "light" && currency == "USD" && profileName == [] && profileImage == []
    {
      theme := "light";
      currency := "USD";
      profileName := [];
      profileImage := [];
    }

    /** `setTheme`: only the theme changes. */
    method SetTheme(t: string)
      modifies this`theme
      ensures theme == t
    {
      theme := t;
    }

    /** `setCurrency`: only the currency code changes; amounts are shown with its symbol from now on. */
    method SetCurrency(code: string)
      modifies this`currency
      ensures currency == code
      ensures forall x :: FormatCurrency(x, currency)[..1] == Symbol(code)
    {
      currency := code;
      forall x ensures FormatCurrency(x, currency)[..1] == Symbol(code) {
        FormatCurrencyShape(x, code);
      }
    }

    /** The profile name field's blur handler: the trimmed text is stored. */
    method SetProfileName(raw: string)
      modifies this`profileName
      ensures profileName == Trim(raw)
    {
      profileName := Trim(raw);
    }

    /** `updateGreeting` with the clock's hour: the salutation of the hour, followed by
        ", name!" when a profile name is set. */
    function GreetingAt(hour: int): (r: string)
      reads this
      ensures |Salutation(PartOfDay(hour))| <= |r| && r[..|Salutation(PartOfDay(hour))|] == Salutation(PartOfDay(hour))
      ensures profileName == [] <==> r == Salutation(PartOfDay(hour))
      ensures profileName != [] ==> r[|Salutation(PartOfDay(hour))|..] == ", " + profileName + "!"
    {
      Greeting(hour, profileName)
    }
  }
}
