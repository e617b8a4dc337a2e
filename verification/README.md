# Expense ledger and category breakdown

A Dafny model of the computing part of the expense-tracker screen of
CampusFlow (`frontend/app/features/expense.tsx`). The screen keeps a ledger of
expense records, newest first. From the ledger it derives the total spent,
the rounded daily average, and a per-category breakdown. Each breakdown row
carries a category's summed amount, its percentage of the total, and the
colour and icon the fixed category catalog gives it. Rows are sorted by
amount, largest first.

Amounts are exact `real`s, so sums and percentages are exact rather than
rounded. Everything is a pure function over `seq<Expense>`. The breakdown
takes the category catalog as a parameter; the screen always passes the
fixed five-entry `Catalog.Categories`, and the general lemmas hold for any
catalog.

| module | file | what it holds |
|---|---|---|
| `Wrappers` | `wrappers.dfy` | `Option` for lookups that may find nothing |
| `Catalog` | `catalog.dfy` | `Category`, the five-entry catalog, `find`-style lookup, colour/icon with fallback |
| `Ledger` | `ledger.dfy` | `Expense`, the seed ledger, the add-expense guard and prepend |
| `Totals` | `totals.dfy` | the `reduce` total, per-category sums, `Math.round(total / 30)` |
| `Grouping` | `grouping.dfy` | the `forEach` group-by into an insertion-ordered record |
| `StableSort` | `stable_sort.dfy` | the stable descending sort and its characterisation |
| `Breakdown` | `breakdown.dfy` | percentages, decoration, the sorted breakdown and its properties |
| `InitialLedger` | `initial_ledger.dfy` | the figures for the seed ledger |

Three facts about the code shape the model:

- The add handler only checks that the title text and the amount text are non-empty. A zero or negative parsed amount is accepted.
- A zero total gives NaN or ±Infinity percentages, not 0. `Breakdown.Percentage` models these JavaScript values as `JsNumber`.
- The ring chart uses a fixed 70/25 split, not fractions derived from the data (see "Left out").

## Model

| member | source | states |
|---|---|---|
| Catalog.FindIndex | frontend/app/features/expense.tsx:61-62 | the index found holds the name and no earlier entry does; no index exactly when no entry has the name |
| Catalog.Find | frontend/app/features/expense.tsx:61-62 | the entry found is in the catalog and has the name; nothing is found iff no entry has it; with unique names a catalog entry finds itself |
| Catalog.UnknownNameFallsBack | frontend/app/features/expense.tsx:61-62 | a name the catalog lacks gets exactly the fallback colour and icon |
| Catalog.KnownNameKeepsDecoration | frontend/app/features/expense.tsx:61-62 | with unique names and non-empty fields, a catalog name gets its own entry's colour and icon |
| Catalog.CategoriesWellFormed | frontend/app/features/expense.tsx:28-34 | the shipped catalog has unique names and non-empty colours and icons |
| Catalog.CatalogAvoidsFallbacks | frontend/app/features/expense.tsx:28-34 | no entry of the shipped catalog has the colour '#ccc' or the icon 'ellipse' |
| Ledger.InitialExpenses | frontend/app/features/expense.tsx:36-40 | the seed ledger holds 150, 40 and 650, in the first three catalog categories |
| Ledger.AddExpense | frontend/app/features/expense.tsx:66-77 | an empty title or amount text leaves the ledger unchanged; otherwise the length grows by one, the new record is at index 0 and every old record moves to index + 1 |
| Ledger.InitialExpensesKnown | frontend/app/features/expense.tsx:36-40 | every seed record names a catalog category |
| Ledger.AddExpenseKeepsCategoriesKnown | frontend/app/features/expense.tsx:66-77 | when the selected chip is a catalog entry, adding keeps every record's category in the catalog |
| Totals.TotalSpentAppend | frontend/app/features/expense.tsx:50 | the total of a concatenation is the sum of the two totals |
| Totals.TotalSpentIsSum | frontend/app/features/expense.tsx:50 | the left fold from 0 equals the sum of all amounts taken from the front; the empty ledger totals 0 |
| Totals.AddExpenseTotal | frontend/app/features/expense.tsx:50 | an accepted add raises the total by exactly the parsed amount; a rejected one leaves it |
| Totals.CategorySumSnoc | frontend/app/features/expense.tsx:54-56 | one more record adds its amount to its own category's sum and to no other |
| Totals.AddExpenseCategorySum | frontend/app/features/expense.tsx:54-56 | an accepted add raises only the selected category's sum, by the parsed amount |
| Totals.JsRound | frontend/app/features/expense.tsx:168 | the result is the integer within one half below and strictly less than one half above its argument |
| Totals.AverageDaily | frontend/app/features/expense.tsx:168 | thirty times the daily figure is within 15 of the total, inclusive below and exclusive above |
| Grouping.Bump | frontend/app/features/expense.tsx:55 | an existing key keeps the key list; a new key is appended at the end |
| Grouping.BumpAmounts | frontend/app/features/expense.tsx:55 | with unique keys, only the bumped key's value grows, by the amount; a new key holds the amount |
| Grouping.BumpSum | frontend/app/features/expense.tsx:55 | bumping adds the amount to the sum of the record's values |
| Grouping.Group | frontend/app/features/expense.tsx:53-56 | the record has no repeated key |
| Grouping.GroupKeys | frontend/app/features/expense.tsx:53-56 | a name is a key exactly when some record of the ledger has that category |
| Grouping.GroupTotal | frontend/app/features/expense.tsx:50-56 | the grouped values add up to the total spent |
| Grouping.BumpCategorySum | frontend/app/features/expense.tsx:54-56 | if a record's keys and values are right for a ledger, then after one more record's bump each value is its category's sum over the longer ledger |
| Grouping.GroupAmounts | frontend/app/features/expense.tsx:54-56 | each key holds the total of exactly its category's records |
| Grouping.GroupOrder | frontend/app/features/expense.tsx:54-57 | keys are ordered by where their category first appears in the ledger |
| StableSort.SortDescPermutes | frontend/app/features/expense.tsx:63 | the result is a permutation of the input (equal multisets) |
| StableSort.SortDescMember | frontend/app/features/expense.tsx:63 | an element is in the result exactly when it is in the input |
| StableSort.SortDescSorted | frontend/app/features/expense.tsx:63 | the result has non-increasing keys |
| StableSort.SortDescStable | frontend/app/features/expense.tsx:63 | elements with equal keys keep their input order |
| StableSort.SortDescInjective | frontend/app/features/expense.tsx:63 | elements with distinct ranks keep distinct ranks |
| StableSort.SortDescSum | frontend/app/features/expense.tsx:63 | any sum over the elements is unchanged by sorting |
| Breakdown.Percentage | frontend/app/features/expense.tsx:60 | a non-zero total gives a finite p with p * total = amount * 100; a zero total gives NaN for a zero amount and an infinity of the amount's sign otherwise |
| Breakdown.Decorate | frontend/app/features/expense.tsx:57-62 | a row keeps its record key's name and amount; its percentage is finite exactly when the total is non-zero; a name missing from the catalog gets '#ccc' and 'ellipse' |
| Breakdown.BreakdownRow | frontend/app/features/expense.tsx:57-63 | every row is the decoration of one group of the ledger |
| Breakdown.BreakdownCategories | frontend/app/features/expense.tsx:53-57 | one row per category present in the ledger, with no name repeated; an empty ledger gives no rows |
| Breakdown.BreakdownRows | frontend/app/features/expense.tsx:54-62 | each row's amount is its category's sum, its percentage is amount / total * 100, and its colour and icon are the catalog lookups with fallbacks '#ccc' and 'ellipse' |
| Breakdown.BreakdownOrder | frontend/app/features/expense.tsx:57-63 | rows are sorted by amount, largest first; equal amounts keep first-appearance order |
| Breakdown.BreakdownPartitionsTotal | frontend/app/features/expense.tsx:50-63 | the row amounts add up to the total spent |
| Breakdown.DecoratedPercentages | frontend/app/features/expense.tsx:60 | rows decorated against the sum of their own values have percentages summing to exactly 100 |
| Breakdown.BreakdownPercentages | frontend/app/features/expense.tsx:50-60 | with a non-zero total, every percentage is finite and the percentages sum to exactly 100 |
| Breakdown.BreakdownZeroTotal | frontend/app/features/expense.tsx:50-60 | with a zero total no percentage is finite: a zero amount shows NaN, a positive one Infinity, a negative one -Infinity |
| Breakdown.KnownRow | frontend/app/features/expense.tsx:61-62 | for a catalog whose entries all have a colour and an icon, and a ledger of its categories, a row's name is in the catalog and its colour and icon are the first matching entry's |
| Breakdown.BreakdownOfKnownCategories | frontend/app/features/expense.tsx:61-62 | for such a catalog and ledger, every row takes its catalog entry's colour and icon |
| Breakdown.BreakdownNeverFallsBack | frontend/app/features/expense.tsx:61-62 | with the shipped catalog, a ledger of catalog categories never shows '#ccc' or 'ellipse' in its breakdown |
| InitialLedger.InitialTotals | frontend/app/features/expense.tsx:36-50 | the seed ledger totals 840, and Math.round(840 / 30) = 28 |
| InitialLedger.InitialGroup | frontend/app/features/expense.tsx:36-57 | grouping the seed ledger gives Food & Dining 150, Transport 40, Books & Supplies 650, in that order |
| InitialLedger.InitialDecoration | frontend/app/features/expense.tsx:28-34 | the seed categories get their catalog colours and icons and their share of 840 |
| InitialLedger.InitialDecorateAll | frontend/app/features/expense.tsx:57-62 | decorating the three seed groups against 840 gives, in ledger order, their catalog colours, icons and shares |
| InitialLedger.SortThree | frontend/app/features/expense.tsx:63 | rows with middle, smallest and largest amounts come out largest, middle, smallest |
| InitialLedger.InitialBreakdown | frontend/app/features/expense.tsx:36-64 | the seed breakdown is Books & Supplies 650, then Food & Dining 150, then Transport 40, with their catalog colours and icons |

## Left out

- The ring chart (`frontend/app/features/expense.tsx:11`, 126-165): π and floating-point geometry. Its 0.7/0.25 split and its rotation of 360 * 0.7 are constants, not derived from the ledger, so no data-driven behaviour is left to state.
- Budget share and number formatting (lines 87, 95, 100, 191): `toFixed`, `toLocaleString` and the fixed 50,000 income are display only.
- Record dates and new record ids (lines 37-39, 70, 74): the seed dates and the id of an added record come from the clock. The model takes them as opaque strings from the caller. The seed ids '101', '102' and '103' are literals and are modelled as such.
- `parseFloat` (line 72): a foreign call. The model takes its result as an input `real` beside the amount text.
- NaN amounts: `parseFloat` of a non-numeric text gives NaN, which the guard at line 67 lets through. Exact reals cannot represent NaN, so ledgers holding NaN amounts are not modelled. Infinite amounts are not modelled either.
- Floating-point arithmetic: sums and percentages are exact reals, and the difference from doubles is not bounded. When a large amount absorbs a small one, the JavaScript total can be off by any amount. For example, for amounts 1e20 (A), 1 (B), -1e20 (A), 1 (B) the fold at line 50 gives 1 while the category sums give A = 0 and B = 2, so B shows 200%. Whether the total is zero can differ too: 1e20 (A), 1 (B), -1e20 (C) totals 0 in JavaScript, giving infinite percentages, but 1 in the model. Finite amounts can also overflow to Infinity. `Breakdown.BreakdownPercentages`, `Breakdown.BreakdownZeroTotal` and `Breakdown.BreakdownPartitionsTotal` hold for exact sums only, and the zero/non-zero case split itself can differ under doubles.
- Special keys of the plain object at line 53. JavaScript lists integer-like keys such as "7" before all others. Inherited names such as "toString", "valueOf" or "constructor" read an inherited function at line 55, so the sum becomes a string and the percentage NaN. A "__proto__" key is never stored, so `Object.keys` at line 57 omits it and the rows no longer add up to the total. The model is a plain insertion-ordered map, so `Breakdown.BreakdownCategories` and `Breakdown.BreakdownPartitionsTotal` are stated for every ledger. That matches the code only for ledgers free of such names, which holds on the screen because every category reaching the ledger is a catalog name.
- The sort algorithm: the engine's own stable sort is replaced by an insertion sort. `StableSort` proves the result sorted, a permutation, and stable. Those three facts fix the output once the tie ranks are distinct, which they are for the breakdown.
- Transaction list decoration (lines 209-211): it repeats the same catalog lookup with fallbacks 'cash' and '#666'. It is rendering, not modelled separately.
- Modal state, form resets, category chip rendering, animations and navigation (lines 78-80, 83-297), plus `frontend/app/auth/register.tsx`, `frontend/app/open.tsx` and `frontend/app/auth/forgot.tsx`: layout and UI with no computation.
- `backend/server.js`: an HTTP health endpoint over a database client; network and database I/O only.
