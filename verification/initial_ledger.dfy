/** The figures the screen shows for its seed ledger. */
module InitialLedger {

  import opened Catalog
  import opened Ledger
  import opened Totals
  import opened Grouping
  import opened StableSort
  import opened Breakdown

  /** The seed ledger spends 840 in all, 28 a day on average. */
  lemma InitialTotals(today: string, yesterday: string, twoDaysAgo: string)
    ensures TotalSpent(InitialExpenses(today, yesterday, twoDaysAgo)) == 840.0
    ensures AverageDaily(InitialExpenses(today, yesterday, twoDaysAgo)) == 28
  {
    var es := InitialExpenses(today, yesterday, twoDaysAgo);
    assert es[..1][..0] == [];
    assert TotalSpent(es[..1]) == 150.0;
    assert es[..2][..1] == es[..1];
    assert TotalSpent(es[..2]) == 190.0;
  }

  /** Grouping the seed ledger keeps its categories in ledger order. */
  lemma InitialGroup(today: string, yesterday: string, twoDaysAgo: string)
    ensures Group(InitialExpenses(today, yesterday, twoDaysAgo))
         == [Bucket("Food & Dining", 150.0), Bucket("Transport", 40.0), Bucket("Books & Supplies", 650.0)]
  {
    var es := InitialExpenses(today, yesterday, twoDaysAgo);
    assert es[..1][..0] == [];
    assert Group(es[..1]) == [Bucket("Food & Dining", 150.0)];
    assert es[..2][..1] == es[..1];
    assert Bump([Bucket("Food & Dining", 150.0)], "Transport", 40.0)
        == [Bucket("Food & Dining", 150.0), Bucket("Transport", 40.0)];
    assert Group(es[..2]) == [Bucket("Food & Dining", 150.0), Bucket("Transport", 40.0)];
    assert Bump([Bucket("Transport", 40.0)], "Books & Supplies", 650.0)
        == [Bucket("Transport", 40.0), Bucket("Books & Supplies", 650.0)];
  }

  /** The three seed categories are decorated from the catalog. */
  lemma InitialDecoration()
    ensures Decorate(Categories, Bucket("Food & Dining", 150.0), 840.0)
         == Entry("Food & Dining", 150.0, Finite(150.0 / 840.0 * 100.0), "#FF6B6B", "fast-food")
    ensures Decorate(Categories, Bucket("Transport", 40.0), 840.0)
         == Entry("Transport", 40.0, Finite(40.0 / 840.0 * 100.0), "#4ECDC4", "bus")
    ensures Decorate(Categories, Bucket("Books & Supplies", 650.0), 840.0)
         == Entry("Books & Supplies", 650.0, Finite(650.0 / 840.0 * 100.0), "#45B7D1", "book")
  {
    CategoriesWellFormed();
    KnownNameKeepsDecoration(Categories, 0, FallbackColor, FallbackIcon);
    KnownNameKeepsDecoration(Categories, 1, FallbackColor, FallbackIcon);
    KnownNameKeepsDecoration(Categories, 2, FallbackColor, FallbackIcon);
  }

  /** Decorating the seed groups against the seed total, in ledger order. */
  lemma InitialDecorateAll()
    ensures DecorateAll(Categories, [Bucket("Food & Dining", 150.0), Bucket("Transport", 40.0), Bucket("Books & Supplies", 650.0)], 840.0) == [
      Entry("Food & Dining", 150.0, Finite(150.0 / 840.0 * 100.0), "#FF6B6B", "fast-food"),
      Entry("Transport", 40.0, Finite(40.0 / 840.0 * 100.0), "#4ECDC4", "bus"),
      Entry("Books & Supplies", 650.0, Finite(650.0 / 840.0 * 100.0), "#45B7D1", "book")
    ]
  {
    var d := DecorateAll(Categories, [Bucket("Food & Dining", 150.0), Bucket("Transport", 40.0), Bucket("Books & Supplies", 650.0)], 840.0);
    InitialDecoration();
    assert d == [d[0], d[1], d[2]];
  }

  /** Rows arriving with the middle, smallest and largest amount leave largest, middle, smallest. */
  lemma SortThree(a: Entry, b: Entry, c: Entry)
    requires c.amount > a.amount > b.amount
    ensures SortDesc([a, b, c], AmountOf) == [c, a, b]
  {
    assert [a, b, c][1..] == [b, c];
    assert [b, c][1..] == [c];
    assert SortDesc([c], AmountOf) == [c];
    assert [c][1..] == [];
    assert Insert(b, [c], AmountOf) == [c, b];
    assert SortDesc([b, c], AmountOf) == [c, b];
    assert Insert(a, [b], AmountOf) == [a, b];
  }

  /**
   * The seed breakdown: Books & Supplies 650, then Food & Dining 150, then
   * Transport 40, each with its catalog colour and icon.
   */
  lemma InitialBreakdown(today: string, yesterday: string, twoDaysAgo: string)
    ensures CategoryBreakdown(Categories, InitialExpenses(today, yesterday, twoDaysAgo)) == [
      Entry("Books & Supplies", 650.0, Finite(650.0 / 840.0 * 100.0), "#45B7D1", "book"),
      Entry("Food & Dining", 150.0, Finite(150.0 / 840.0 * 100.0), "#FF6B6B", "fast-food"),
      Entry("Transport", 40.0, Finite(40.0 / 840.0 * 100.0), "#4ECDC4", "bus")
    ]
  {
    var es := InitialExpenses(today, yesterday, twoDaysAgo);
    var g := [Bucket("Food & Dining", 150.0), Bucket("Transport", 40.0), Bucket("Books & Supplies", 650.0)];
    var food := Entry("Food & Dining", 150.0, Finite(150.0 / 840.0 * 100.0), "#FF6B6B", "fast-food");
    var bus := Entry("Transport", 40.0, Finite(40.0 / 840.0 * 100.0), "#4ECDC4", "bus");
    var books := Entry("Books & Supplies", 650.0, Finite(650.0 / 840.0 * 100.0), "#45B7D1", "book");
    calc {
      CategoryBreakdown(Categories, es);
      { InitialTotals(today, yesterday, twoDaysAgo);
        InitialGroup(today, yesterday, twoDaysAgo); }
      SortDesc(DecorateAll(Categories, g, 840.0), AmountOf);
      { InitialDecorateAll(); }
      SortDesc([food, bus, books], AmountOf);
      { SortThree(food, bus, books); }
      [books, food, bus];
    }
  }
}
