/**
 * The total spent, the per-category sums it splits into, and the rounded
 * daily average shown in the middle of the chart.
 */
module Totals {

  import opened Ledger

  /** `reduce` from 0 adding each amount: a left fold over the ledger. */
  function TotalSpent(es: seq<Expense>): real {
    if |es| == 0 then 0.0 else TotalSpent(es[..|es| - 1]) + es[|es| - 1].amount
  }

  /** Reference sum, taken from the front. */
  function Sum(es: seq<Expense>): real {
    if |es| == 0 then 0.0 else es[0].amount + Sum(es[1..])
  }

  /** The left fold splits over concatenation. */
  lemma {:induction false} TotalSpentAppend(a: seq<Expense>, b: seq<Expense>)
    ensures TotalSpent(a + b) == TotalSpent(a) + TotalSpent(b)
    decreases |b|
  {
    if |b| == 0 {
      assert a + b == a;
    } else {
      var b' := b[..|b| - 1];
      assert (a + b)[..|a + b| - 1] == a + b';
      assert (a + b)[|a + b| - 1] == b[|b| - 1];
      TotalSpentAppend(a, b');
    }
  }

  /** The fold agrees with the front-first sum: the total is the sum of all amounts. */
  lemma {:induction false} TotalSpentIsSum(es: seq<Expense>)
    ensures TotalSpent(es) == Sum(es)
    decreases |es|
  {
    if |es| > 0 {
      TotalSpentAppend([es[0]], es[1..]);
      assert [es[0]] + es[1..] == es;
      assert TotalSpent([es[0]]) == es[0].amount by {
        assert [es[0]][..0] == [];
      }
      TotalSpentIsSum(es[1..]);
    }
  }

  /** Adding a record raises the total by exactly its parsed amount; a rejected draft leaves it. */
  lemma AddExpenseTotal(ledger: seq<Expense>, d: Draft, parsed: real, id: string, date: string)
    ensures TotalSpent(AddExpense(ledger, d, parsed, id, date))
         == TotalSpent(ledger) + (if Accepts(d) then parsed else 0.0)
  {
    if Accepts(d) {
      var e := Expense(id, d.title, parsed, d.selected.name, date);
      TotalSpentAppend([e], ledger);
      assert [e][..0] == [];
    }
  }

  /** The records of category `c`, in ledger order. */
  function OfCategory(es: seq<Expense>, c: string): (r: seq<Expense>)
    ensures |r| <= |es|
    ensures forall i | 0 <= i < |r| :: r[i].category == c
  {
    if |es| == 0 then []
    else (if es[0].category == c then [es[0]] else []) + OfCategory(es[1..], c)
  }

  /** Whether some record has category `c`. */
  predicate Occurs(es: seq<Expense>, c: string) {
    exists k | 0 <= k < |es| :: es[k].category == c
  }

  /** Filtering splits over concatenation. */
  lemma {:induction false} OfCategoryAppend(a: seq<Expense>, b: seq<Expense>, c: string)
    ensures OfCategory(a + b, c) == OfCategory(a, c) + OfCategory(b, c)
    decreases |a|
  {
    if |a| == 0 {
      assert a + b == b;
    } else {
      assert (a + b)[1..] == a[1..] + b;
      OfCategoryAppend(a[1..], b, c);
    }
  }

  /** A category that does not occur has no records. */
  lemma {:induction false} OfCategoryAbsent(es: seq<Expense>, c: string)
    requires !Occurs(es, c)
    ensures OfCategory(es, c) == []
    decreases |es|
  {
    if |es| > 0 {
      assert !Occurs(es[1..], c) by {
        forall k | 0 <= k < |es[1..]|
          ensures es[1..][k].category != c
        {
          assert es[1..][k] == es[k + 1];
        }
      }
      OfCategoryAbsent(es[1..], c);
    }
  }

  /** Amount spent in category `c`: the total of its records. */
  function CategorySum(es: seq<Expense>, c: string): real {
    TotalSpent(OfCategory(es, c))
  }

  /** Appending one record adds its amount to its own category only. */
  lemma CategorySumSnoc(es: seq<Expense>, e: Expense, c: string)
    ensures CategorySum(es + [e], c) == CategorySum(es, c) + (if e.category == c then e.amount else 0.0)
  {
    OfCategoryAppend(es, [e], c);
    assert [e][1..] == [];
    var tail := if e.category == c then [e] else [];
    assert OfCategory([e], c) == tail;
    TotalSpentAppend(OfCategory(es, c), tail);
    if e.category == c {
      assert tail[..0] == [];
    }
  }

  /** An accepted record adds its parsed amount to the sum of the selected category only. */
  lemma AddExpenseCategorySum(ledger: seq<Expense>, d: Draft, parsed: real, id: string, date: string, c: string)
    ensures CategorySum(AddExpense(ledger, d, parsed, id, date), c)
         == CategorySum(ledger, c) + (if Accepts(d) && d.selected.name == c then parsed else 0.0)
  {
    if Accepts(d) {
      var r := AddExpense(ledger, d, parsed, id, date);
      assert r[1..] == ledger;
      var head := if d.selected.name == c then [r[0]] else [];
      assert OfCategory(r, c) == head + OfCategory(ledger, c);
      TotalSpentAppend(head, OfCategory(ledger, c));
      if d.selected.name == c {
        assert head[..0] == [];
      }
    }
  }

  /** `Math.round`: the nearest integer, halves rounded up. */
  function JsRound(x: real): (r: int)
    ensures r as real - 0.5 <= x < r as real + 0.5
  {
    (x + 0.5).Floor
  }

  /** `Math.round(totalSpent / 30)`: the daily average over a thirty-day month. */
  function AverageDaily(es: seq<Expense>): (r: int)
    ensures 30.0 * (r as real) - 15.0 <= TotalSpent(es) < 30.0 * (r as real) + 15.0
  {
    JsRound(TotalSpent(es) / 30.0)
  }
}
