/**
 * The category breakdown: the grouped sums decorated with a percentage of the
 * total and the catalog colour and icon, sorted largest amount first.
 */
module Breakdown {

  import opened Catalog
  import opened Ledger
  import opened Totals
  import opened Grouping
  import opened StableSort

  /** A JavaScript number as far as the breakdown can produce one: exact when finite. */
  datatype JsNumber = Finite(value: real) | PositiveInfinity | NegativeInfinity | NotANumber

  /**
   * `(amount / total) * 100`. Dividing by a zero total yields an infinity of
   * the amount's sign, or NaN for a zero amount, and `* 100` keeps it.
   */
  function Percentage(amount: real, total: real): (r: JsNumber)
    ensures total != 0.0 ==> r.Finite? && r.value * total == amount * 100.0
    ensures total == 0.0 ==> !r.Finite?
    ensures total == 0.0 ==> (r.NotANumber? <==> amount == 0.0)
    ensures total == 0.0 ==> (r.PositiveInfinity? <==> amount > 0.0)
  {
    if total != 0.0 then Finite(amount / total * 100.0)
    else if amount > 0.0 then PositiveInfinity
    else if amount < 0.0 then NegativeInfinity
    else NotANumber
  }

  /** One row of the breakdown. */
  datatype Entry = Entry(name: string, amount: real, percentage: JsNumber, color: string, icon: string)

  /** The sort key: the comparator is `(a, b) => b.amount - a.amount`. */
  function AmountOf(e: Entry): real {
    e.amount
  }

  /** A finite percentage, or 0 for the non-finite ones. */
  function PercentOf(e: Entry): real {
    if e.percentage.Finite? then e.percentage.value else 0.0
  }

  /** The `map` step: one record key becomes one row, decorated from `catalog`. */
  function Decorate(catalog: seq<Category>, b: Bucket, total: real): (e: Entry)
    ensures e.name == b.name && e.amount == b.amount
    ensures e.percentage.Finite? <==> total != 0.0
    ensures (forall i | 0 <= i < |catalog| :: catalog[i].name != b.name) ==>
      e.color == FallbackColor && e.icon == FallbackIcon
  {
    Entry(b.name, b.amount, Percentage(b.amount, total),
          ColorOr(catalog, b.name, FallbackColor),
          IconOr(catalog, b.name, FallbackIcon))
  }

  function DecorateAll(catalog: seq<Category>, book: seq<Bucket>, total: real): (r: seq<Entry>)
    ensures |r| == |book|
    ensures forall i | 0 <= i < |book| :: r[i] == Decorate(catalog, book[i], total)
  {
    if |book| == 0 then [] else [Decorate(catalog, book[0], total)] + DecorateAll(catalog, book[1..], total)
  }

  /**
   * The breakdown: group, decorate, sort. The screen always passes the fixed
   * `Categories`; the catalog is a parameter so that the lemmas hold for any.
   */
  function CategoryBreakdown(catalog: seq<Category>, es: seq<Expense>): (r: seq<Entry>)
    ensures |r| == |Group(es)|
  {
    SortDesc(DecorateAll(catalog, Group(es), TotalSpent(es)), AmountOf)
  }

  /** Every row of the breakdown is the decoration of one group of the ledger. */
  lemma {:induction false} BreakdownRow(catalog: seq<Category>, es: seq<Expense>, i: nat)
    requires i < |CategoryBreakdown(catalog, es)|
    ensures exists k | 0 <= k < |Group(es)| :: CategoryBreakdown(catalog, es)[i] == Decorate(catalog, Group(es)[k], TotalSpent(es))
  {
    var d := DecorateAll(catalog, Group(es), TotalSpent(es));
    SortDescMember(d, AmountOf, CategoryBreakdown(catalog, es)[i]);
  }

  /** Rows in the order of first appearance, before sorting, are strictly ranked. */
  lemma {:induction false} DecoratedOrder(catalog: seq<Category>, es: seq<Expense>)
    ensures forall i, j | 0 <= i < j < |DecorateAll(catalog, Group(es), TotalSpent(es))| ::
      FirstIndex(es, DecorateAll(catalog, Group(es), TotalSpent(es))[i].name)
        < FirstIndex(es, DecorateAll(catalog, Group(es), TotalSpent(es))[j].name)
  {
    GroupOrder(es);
  }

  /**
   * Exactly one row per category present in the ledger: every row names a
   * category that occurs, every occurring category has a row, and no name
   * repeats. An empty ledger gives no rows.
   */
  lemma {:induction false} BreakdownCategories(catalog: seq<Category>, es: seq<Expense>)
    ensures forall i | 0 <= i < |CategoryBreakdown(catalog, es)| :: Occurs(es, CategoryBreakdown(catalog, es)[i].name)
    ensures forall k | 0 <= k < |es| ::
      exists i | 0 <= i < |CategoryBreakdown(catalog, es)| :: CategoryBreakdown(catalog, es)[i].name == es[k].category
    ensures forall i, j | 0 <= i < j < |CategoryBreakdown(catalog, es)| ::
      CategoryBreakdown(catalog, es)[i].name != CategoryBreakdown(catalog, es)[j].name
    ensures |es| == 0 ==> CategoryBreakdown(catalog, es) == []
  {
    var g := Group(es);
    var total := TotalSpent(es);
    var d := DecorateAll(catalog, g, total);
    var r := CategoryBreakdown(catalog, es);
    GroupKeys(es);
    forall i | 0 <= i < |r|
      ensures Occurs(es, r[i].name)
    {
      BreakdownRow(catalog, es, i);
      var k :| 0 <= k < |g| && r[i] == Decorate(catalog, g[k], total);
      assert Names(g)[k] == r[i].name;
    }
    forall k | 0 <= k < |es|
      ensures exists i | 0 <= i < |r| :: r[i].name == es[k].category
    {
      var c := es[k].category;
      assert Occurs(es, c);
      var m :| 0 <= m < |g| && Names(g)[m] == c;
      SortDescMember(d, AmountOf, d[m]);
      var i :| 0 <= i < |r| && r[i] == d[m];
      assert r[i].name == c;
    }
    var rank := (e: Entry) => FirstIndex(es, e.name) as int;
    DecoratedOrder(catalog, es);
    assert RankInjective(d, rank);
    SortDescInjective(d, AmountOf, rank);
  }

  /**
   * Each row carries the sum of its category, its percentage of the total,
   * and the catalog colour and icon with the breakdown's fallbacks.
   */
  lemma {:induction false} BreakdownRows(catalog: seq<Category>, es: seq<Expense>)
    ensures forall i | 0 <= i < |CategoryBreakdown(catalog, es)| ::
      var e := CategoryBreakdown(catalog, es)[i];
      && e.amount == CategorySum(es, e.name)
      && e.percentage == Percentage(e.amount, TotalSpent(es))
      && e.color == ColorOr(catalog, e.name, FallbackColor)
      && e.icon == IconOr(catalog, e.name, FallbackIcon)
  {
    var g := Group(es);
    var total := TotalSpent(es);
    var r := CategoryBreakdown(catalog, es);
    GroupAmounts(es);
    forall i | 0 <= i < |r|
      ensures r[i].amount == CategorySum(es, r[i].name)
      ensures r[i].percentage == Percentage(r[i].amount, total)
      ensures r[i].color == ColorOr(catalog, r[i].name, FallbackColor)
      ensures r[i].icon == IconOr(catalog, r[i].name, FallbackIcon)
    {
      BreakdownRow(catalog, es, i);
      var k :| 0 <= k < |g| && r[i] == Decorate(catalog, g[k], total);
    }
  }

  /**
   * Rows are sorted by amount, largest first, and rows with equal amounts keep
   * the order in which their categories first appear in the ledger.
   */
  lemma {:induction false} BreakdownOrder(catalog: seq<Category>, es: seq<Expense>)
    ensures forall i, j | 0 <= i < j < |CategoryBreakdown(catalog, es)| ::
      CategoryBreakdown(catalog, es)[i].amount >= CategoryBreakdown(catalog, es)[j].amount
    ensures forall i, j | 0 <= i < j < |CategoryBreakdown(catalog, es)| &&
      CategoryBreakdown(catalog, es)[i].amount == CategoryBreakdown(catalog, es)[j].amount ::
      FirstIndex(es, CategoryBreakdown(catalog, es)[i].name) < FirstIndex(es, CategoryBreakdown(catalog, es)[j].name)
  {
    var d := DecorateAll(catalog, Group(es), TotalSpent(es));
    var rank := (e: Entry) => FirstIndex(es, e.name) as int;
    SortDescSorted(d, AmountOf);
    DecoratedOrder(catalog, es);
    assert TiesRanked(d, AmountOf, rank);
    SortDescStable(d, AmountOf, rank);
  }

  lemma {:induction false} DecorateAllSums(catalog: seq<Category>, book: seq<Bucket>, total: real)
    ensures SumBy(DecorateAll(catalog, book, total), AmountOf) == SumBuckets(book)
    ensures total != 0.0 ==> SumBy(DecorateAll(catalog, book, total), PercentOf) * total == SumBuckets(book) * 100.0
    decreases |book|
  {
    if |book| > 0 {
      var d := DecorateAll(catalog, book, total);
      assert d[1..] == DecorateAll(catalog, book[1..], total);
      DecorateAllSums(catalog, book[1..], total);
      if total != 0.0 {
        var p := PercentOf(d[0]);
        var rest := SumBy(d[1..], PercentOf);
        assert p * total == book[0].amount * 100.0;
        assert (p + rest) * total == p * total + rest * total;
      }
    }
  }

  /** The row amounts add up to the total spent: the breakdown partitions the total. */
  lemma {:induction false} BreakdownPartitionsTotal(catalog: seq<Category>, es: seq<Expense>)
    ensures SumBy(CategoryBreakdown(catalog, es), AmountOf) == TotalSpent(es)
  {
    var d := DecorateAll(catalog, Group(es), TotalSpent(es));
    SortDescSum(d, AmountOf, AmountOf);
    DecorateAllSums(catalog, Group(es), TotalSpent(es));
    GroupTotal(es);
  }

  /** Cancelling a non-zero factor. */
  lemma CancelFactor(x: real, y: real, t: real)
    requires t != 0.0 && x * t == y * t
    ensures x == y
  {
    assert (x - y) * t == 0.0;
  }

  /** Rows decorated against the sum of their own values have percentages summing to 100. */
  lemma {:induction false} DecoratedPercentages(catalog: seq<Category>, book: seq<Bucket>, total: real)
    requires total != 0.0 && SumBuckets(book) == total
    ensures SumBy(DecorateAll(catalog, book, total), PercentOf) == 100.0
  {
    DecorateAllSums(catalog, book, total);
    CancelFactor(SumBy(DecorateAll(catalog, book, total), PercentOf), 100.0, total);
  }

  /** With a non-zero total every percentage is finite and they sum to exactly 100. */
  lemma {:induction false} BreakdownPercentages(catalog: seq<Category>, es: seq<Expense>)
    requires TotalSpent(es) != 0.0
    ensures forall i | 0 <= i < |CategoryBreakdown(catalog, es)| :: CategoryBreakdown(catalog, es)[i].percentage.Finite?
    ensures SumBy(CategoryBreakdown(catalog, es), PercentOf) == 100.0
  {
    var total := TotalSpent(es);
    var g := Group(es);
    BreakdownRows(catalog, es);
    GroupTotal(es);
    DecoratedPercentages(catalog, g, total);
    SortDescSum(DecorateAll(catalog, g, total), AmountOf, PercentOf);
  }

  /**
   * With a zero total (an empty ledger, or amounts cancelling out) no row has a
   * finite percentage: a row whose amount is zero shows NaN, a positive one
   * Infinity and a negative one -Infinity.
   */
  lemma {:induction false} BreakdownZeroTotal(catalog: seq<Category>, es: seq<Expense>)
    requires TotalSpent(es) == 0.0
    ensures forall i | 0 <= i < |CategoryBreakdown(catalog, es)| ::
      var e := CategoryBreakdown(catalog, es)[i];
      && !e.percentage.Finite?
      && (e.percentage.NotANumber? <==> e.amount == 0.0)
      && (e.percentage.PositiveInfinity? <==> e.amount > 0.0)
  {
    BreakdownRows(catalog, es);
  }

  /** One row of a ledger whose records all name catalog categories. */
  lemma {:induction false} KnownRow(catalog: seq<Category>, es: seq<Expense>, i: nat)
    requires Decorated(catalog) && KnownCategories(catalog, es)
    requires i < |CategoryBreakdown(catalog, es)|
    ensures Find(catalog, CategoryBreakdown(catalog, es)[i].name).Some?
    ensures CategoryBreakdown(catalog, es)[i].color == Find(catalog, CategoryBreakdown(catalog, es)[i].name).value.color
    ensures CategoryBreakdown(catalog, es)[i].icon == Find(catalog, CategoryBreakdown(catalog, es)[i].name).value.icon
  {
    var e := CategoryBreakdown(catalog, es)[i];
    BreakdownCategories(catalog, es);
    var m :| 0 <= m < |es| && es[m].category == e.name;
    assert Find(catalog, e.name).Some?;
    var c := Find(catalog, e.name).value;
    var k :| 0 <= k < |catalog| && catalog[k] == c;
    assert c.color != "" && c.icon != "";
    BreakdownRows(catalog, es);
  }

  /**
   * When every record names a catalog category and every catalog entry has a
   * colour and an icon, each row takes its catalog entry's colour and icon.
   */
  lemma {:induction false} BreakdownOfKnownCategories(catalog: seq<Category>, es: seq<Expense>)
    requires Decorated(catalog) && KnownCategories(catalog, es)
    ensures forall i | 0 <= i < |CategoryBreakdown(catalog, es)| ::
      && Find(catalog, CategoryBreakdown(catalog, es)[i].name).Some?
      && CategoryBreakdown(catalog, es)[i].color == Find(catalog, CategoryBreakdown(catalog, es)[i].name).value.color
      && CategoryBreakdown(catalog, es)[i].icon == Find(catalog, CategoryBreakdown(catalog, es)[i].name).value.icon
  {
    forall i | 0 <= i < |CategoryBreakdown(catalog, es)|
      ensures Find(catalog, CategoryBreakdown(catalog, es)[i].name).Some?
      ensures CategoryBreakdown(catalog, es)[i].color == Find(catalog, CategoryBreakdown(catalog, es)[i].name).value.color
      ensures CategoryBreakdown(catalog, es)[i].icon == Find(catalog, CategoryBreakdown(catalog, es)[i].name).value.icon
    {
      KnownRow(catalog, es, i);
    }
  }

  /**
   * On the screen's own catalog, a ledger of catalog categories never shows
   * the '#ccc' colour or the 'ellipse' icon in its breakdown.
   */
  lemma {:induction false} BreakdownNeverFallsBack(es: seq<Expense>)
    requires KnownCategories(Categories, es)
    ensures forall i | 0 <= i < |CategoryBreakdown(Categories, es)| ::
      CategoryBreakdown(Categories, es)[i].color != FallbackColor
      && CategoryBreakdown(Categories, es)[i].icon != FallbackIcon
  {
    CategoriesWellFormed();
    BreakdownOfKnownCategories(Categories, es);
    forall i | 0 <= i < |CategoryBreakdown(Categories, es)|
      ensures CategoryBreakdown(Categories, es)[i].color != FallbackColor
      ensures CategoryBreakdown(Categories, es)[i].icon != FallbackIcon
    {
      var c := Find(Categories, CategoryBreakdown(Categories, es)[i].name).value;
      CatalogAvoidsFallbacks(c);
    }
  }
}
