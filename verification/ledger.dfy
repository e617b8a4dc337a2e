/**
 * The expense ledger: the record type, the seed ledger and the "add expense"
 * update, which puts an accepted record at the front of the ledger.
 */
module Ledger {

  import opened Catalog

  /**
   * One spending record. `id` and `date` come from the clock in the app; here
   * they are opaque strings supplied by the caller.
   */
  datatype Expense = Expense(id: string, title: string, amount: real, category: string, date: string)

  /** The ledger the screen starts with, given the three ISO dates computed at start-up. */
  function InitialExpenses(today: string, yesterday: string, twoDaysAgo: string): (r: seq<Expense>)
    ensures |r| == 3
    ensures r[0].amount == 150.0 && r[1].amount == 40.0 && r[2].amount == 650.0
    ensures r[0].category == Categories[0].name
    ensures r[1].category == Categories[1].name
    ensures r[2].category == Categories[2].name
  {
    [
      Expense("101", "Lunch at Canteen", 150.0, "Food & Dining", today),
      Expense("102", "Bus Fare", 40.0, "Transport", yesterday),
      Expense("103", "Calculus Textbook", 650.0, "Books & Supplies", twoDaysAgo)
    ]
  }

  /**
   * The add-expense form: the two text fields as typed and the selected
   * category chip.
   */
  datatype Draft = Draft(title: string, amountText: string, selected: Category)

  /** The guard of the add handler: both text fields are non-empty. Nothing else is checked. */
  predicate Accepts(d: Draft) {
    d.title != "" && d.amountText != ""
  }

  /**
   * The add handler. `parsed` is what `parseFloat` made of `d.amountText`;
   * it is not checked for sign. A rejected draft leaves the ledger as it was.
   */
  function AddExpense(ledger: seq<Expense>, d: Draft, parsed: real, id: string, date: string): (r: seq<Expense>)
    ensures !Accepts(d) ==> r == ledger
    ensures Accepts(d) ==> |r| == |ledger| + 1
    ensures Accepts(d) ==> r[0] == Expense(id, d.title, parsed, d.selected.name, date)
    ensures Accepts(d) ==> forall i | 0 <= i < |ledger| :: r[i + 1] == ledger[i]
  {
    if Accepts(d) then [Expense(id, d.title, parsed, d.selected.name, date)] + ledger
    else ledger
  }

  /** Every record names a category `catalog` knows. */
  predicate KnownCategories(catalog: seq<Category>, ledger: seq<Expense>) {
    forall i | 0 <= i < |ledger| :: Find(catalog, ledger[i].category).Some?
  }

  /** The seed ledger only uses catalog categories. */
  lemma {:induction false} InitialExpensesKnown(today: string, yesterday: string, twoDaysAgo: string)
    ensures KnownCategories(Categories, InitialExpenses(today, yesterday, twoDaysAgo))
  {
    var r := InitialExpenses(today, yesterday, twoDaysAgo);
    forall i | 0 <= i < |r|
      ensures Find(Categories, r[i].category).Some?
    {
      assert r[i].category == Categories[i].name;
    }
  }

  /**
   * The selected chip is always a catalog entry, so adding keeps every record's
   * category known: the breakdown lookup never has to fall back for it.
   */
  lemma {:induction false} AddExpenseKeepsCategoriesKnown(catalog: seq<Category>, ledger: seq<Expense>, d: Draft, parsed: real, id: string, date: string)
    requires KnownCategories(catalog, ledger)
    requires d.selected in catalog
    ensures KnownCategories(catalog, AddExpense(ledger, d, parsed, id, date))
  {
    var r := AddExpense(ledger, d, parsed, id, date);
    if Accepts(d) {
      forall i | 0 <= i < |r|
        ensures Find(catalog, r[i].category).Some?
      {
        if i > 0 {
          assert r[i] == ledger[i - 1];
        }
      }
    }
  }
}
