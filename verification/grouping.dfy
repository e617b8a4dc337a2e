/**
 * The group-by of the breakdown: one pass over the ledger accumulates, per
 * category name, the running sum of its amounts. The JavaScript record is an
 * association list whose keys keep their insertion order.
 */
module Grouping {

  import opened Ledger
  import opened Totals

  /** One key of the accumulating record and its running sum. */
  datatype Bucket = Bucket(name: string, amount: real)

  /** The keys of the record, in insertion order. */
  function Names(book: seq<Bucket>): (r: seq<string>)
    ensures |r| == |book|
    ensures forall i | 0 <= i < |book| :: r[i] == book[i].name
  {
    if |book| == 0 then [] else [book[0].name] + Names(book[1..])
  }

  predicate Distinct(s: seq<string>) {
    forall i, j | 0 <= i < j < |s| :: s[i] != s[j]
  }

  /**
   * `record[name] = (record[name] || 0) + amount`: an existing key keeps its
   * place and grows by `amount`; a new key is appended holding `amount`.
   */
  function Bump(book: seq<Bucket>, name: string, amount: real): (r: seq<Bucket>)
    ensures Names(r) == if name in Names(book) then Names(book) else Names(book) + [name]
    decreases |book|
  {
    if |book| == 0 then [Bucket(name, amount)]
    else if book[0].name == name then
      var r := [Bucket(name, book[0].amount + amount)] + book[1..];
      assert Names(r) == Names(book) by {
        assert Names(r)[0] == Names(book)[0];
        forall i | 1 <= i < |book|
          ensures Names(r)[i] == Names(book)[i]
        {
          assert r[i] == book[i];
        }
      }
      r
    else
      var rest := Bump(book[1..], name, amount);
      assert Names(book) == [book[0].name] + Names(book[1..]);
      [book[0]] + rest
  }

  /**
   * In a record with unique keys, bumping adds `amount` to the value of key
   * `name`, leaves every other entry alone, and a new key holds `amount`.
   */
  lemma {:induction false} BumpAmounts(book: seq<Bucket>, name: string, amount: real)
    requires Distinct(Names(book))
    ensures forall i | 0 <= i < |book| && book[i].name == name ::
      Bump(book, name, amount)[i].amount == book[i].amount + amount
    ensures forall i | 0 <= i < |book| && book[i].name != name :: Bump(book, name, amount)[i] == book[i]
    ensures name !in Names(book) ==> Bump(book, name, amount)[|book|].amount == amount
    decreases |book|
  {
    if |book| > 0 && book[0].name != name {
      var tail := book[1..];
      var r := Bump(book, name, amount);
      var rt := Bump(tail, name, amount);
      assert Distinct(Names(tail)) by {
        forall i, j | 0 <= i < j < |tail|
          ensures Names(tail)[i] != Names(tail)[j]
        {
          assert Names(tail)[i] == Names(book)[i + 1];
          assert Names(tail)[j] == Names(book)[j + 1];
        }
      }
      BumpAmounts(tail, name, amount);
      assert r == [book[0]] + rt;
      forall i | 0 <= i < |book|
        ensures book[i].name == name ==> r[i].amount == book[i].amount + amount
        ensures book[i].name != name ==> r[i] == book[i]
      {
        if i > 0 {
          assert r[i] == rt[i - 1] && book[i] == tail[i - 1];
        }
      }
      if name !in Names(book) {
        assert name !in Names(tail) by {
          assert Names(book) == [book[0].name] + Names(tail);
        }
        assert r[|book|] == rt[|tail|];
      }
    } else if |book| > 0 {
      forall i | 1 <= i < |book|
        ensures book[i].name != name
      {
        assert Names(book)[0] == name && Names(book)[i] == book[i].name;
      }
    }
  }

  /** A category occurs in a ledger with one more record iff it occurred before or is that record's. */
  lemma {:induction false} OccursSnoc(es: seq<Expense>, c: string)
    requires |es| > 0
    ensures Occurs(es, c) <==> Occurs(es[..|es| - 1], c) || es[|es| - 1].category == c
  {
    if Occurs(es[..|es| - 1], c) {
      var k :| 0 <= k < |es| - 1 && es[..|es| - 1][k].category == c;
      assert es[k].category == c;
    }
    if Occurs(es, c) && es[|es| - 1].category != c {
      var k :| 0 <= k < |es| && es[k].category == c;
      assert es[..|es| - 1][k].category == c;
    }
  }

  /** The `forEach` over the ledger in ledger order, newest record first, building the record. Keys never repeat. */
  function Group(es: seq<Expense>): (r: seq<Bucket>)
    ensures Distinct(Names(r))
  {
    if |es| == 0 then []
    else
      var last := es[|es| - 1];
      Bump(Group(es[..|es| - 1]), last.category, last.amount)
  }

  /** The keys of the record are exactly the categories occurring in the ledger. */
  lemma {:induction false} GroupKeys(es: seq<Expense>)
    ensures forall c :: c in Names(Group(es)) <==> Occurs(es, c)
    decreases |es|
  {
    if |es| > 0 {
      GroupKeys(es[..|es| - 1]);
      forall c
        ensures c in Names(Group(es)) <==> Occurs(es, c)
      {
        OccursSnoc(es, c);
      }
    }
  }

  /** Sum of the record's values. */
  function SumBuckets(book: seq<Bucket>): real {
    if |book| == 0 then 0.0 else book[0].amount + SumBuckets(book[1..])
  }

  /** Bumping any key adds `amount` to the sum of values. */
  lemma {:induction false} BumpSum(book: seq<Bucket>, name: string, amount: real)
    ensures SumBuckets(Bump(book, name, amount)) == SumBuckets(book) + amount
    decreases |book|
  {
    if |book| > 0 && book[0].name != name {
      BumpSum(book[1..], name, amount);
    } else if |book| > 0 {
      assert Bump(book, name, amount)[1..] == book[1..];
    }
  }

  /** The values of the record add up to the total spent: the groups partition the total. */
  lemma {:induction false} GroupTotal(es: seq<Expense>)
    ensures SumBuckets(Group(es)) == TotalSpent(es)
    decreases |es|
  {
    if |es| > 0 {
      var last := es[|es| - 1];
      GroupTotal(es[..|es| - 1]);
      BumpSum(Group(es[..|es| - 1]), last.category, last.amount);
    }
  }

  /**
   * One key after bumping with one more record `last`, given a record `g` whose
   * keys and values are right for the ledger before it.
   */
  lemma {:induction false} BumpCategorySum(g: seq<Bucket>, prefix: seq<Expense>, last: Expense, i: nat)
    requires Distinct(Names(g))
    requires forall j | 0 <= j < |g| :: g[j].amount == CategorySum(prefix, g[j].name)
    requires forall c :: c in Names(g) <==> Occurs(prefix, c)
    requires i < |Bump(g, last.category, last.amount)|
    ensures Bump(g, last.category, last.amount)[i].amount
         == CategorySum(prefix + [last], Bump(g, last.category, last.amount)[i].name)
  {
    var r := Bump(g, last.category, last.amount);
    var name := r[i].name;
    BumpAmounts(g, last.category, last.amount);
    CategorySumSnoc(prefix, last, name);
    if i < |g| {
      assert Names(r)[i] == Names(g)[i];
      assert g[i].amount == CategorySum(prefix, name);
      if name == last.category {
        assert r[i].amount == g[i].amount + last.amount;
      } else {
        assert r[i] == g[i];
      }
    } else {
      assert last.category !in Names(g);
      assert Names(r)[i] == last.category;
      assert r[i].amount == last.amount;
      assert CategorySum(prefix, last.category) == 0.0 by {
        OfCategoryAbsent(prefix, last.category);
      }
    }
  }

  /** Each key holds the sum of the amounts of exactly the records of that category. */
  lemma {:induction false} GroupAmounts(es: seq<Expense>)
    ensures forall i | 0 <= i < |Group(es)| :: Group(es)[i].amount == CategorySum(es, Group(es)[i].name)
    decreases |es|
  {
    if |es| > 0 {
      var prefix := es[..|es| - 1];
      var last := es[|es| - 1];
      assert prefix + [last] == es;
      var g := Group(prefix);
      assert Group(es) == Bump(g, last.category, last.amount);
      GroupAmounts(prefix);
      GroupKeys(prefix);
      forall i | 0 <= i < |Group(es)|
        ensures Group(es)[i].amount == CategorySum(es, Group(es)[i].name)
      {
        BumpCategorySum(g, prefix, last, i);
      }
    }
  }

  /** Position of the first record of category `c`, or `|es|` if there is none. */
  function FirstIndex(es: seq<Expense>, c: string): (r: nat)
    ensures r <= |es|
    ensures r < |es| <==> Occurs(es, c)
    ensures r < |es| ==> es[r].category == c
    ensures forall k | 0 <= k < r :: es[k].category != c
  {
    if |es| == 0 then 0
    else if es[0].category == c then 0
    else
      var r := 1 + FirstIndex(es[1..], c);
      assert forall k | 1 <= k < |es| :: es[1..][k - 1] == es[k];
      r
  }

  /** Appending a record leaves the first index of every category that already occurs. */
  lemma {:induction false} FirstIndexSnoc(es: seq<Expense>, e: Expense, c: string)
    ensures Occurs(es, c) ==> FirstIndex(es + [e], c) == FirstIndex(es, c)
    ensures !Occurs(es, c) && e.category == c ==> FirstIndex(es + [e], c) == |es|
  {
    var s := es + [e];
    var f := FirstIndex(s, c);
    if Occurs(es, c) {
      var g := FirstIndex(es, c);
      assert s[g] == es[g];
      assert Occurs(s, c);
    } else if e.category == c {
      assert s[|es|] == e;
      assert Occurs(s, c);
    }
  }

  /** Keys sit in the order in which their categories first appear in the ledger. */
  lemma {:induction false} GroupOrder(es: seq<Expense>)
    ensures forall i, j | 0 <= i < j < |Group(es)| ::
      FirstIndex(es, Group(es)[i].name) < FirstIndex(es, Group(es)[j].name)
    decreases |es|
  {
    if |es| > 0 {
      var prefix := es[..|es| - 1];
      var last := es[|es| - 1];
      assert prefix + [last] == es;
      var g := Group(prefix);
      var r := Group(es);
      GroupOrder(prefix);
      GroupKeys(prefix);
      forall i | 0 <= i < |r|
        ensures r[i].name in Names(g) ==> FirstIndex(es, r[i].name) == FirstIndex(prefix, r[i].name) < |prefix|
        ensures r[i].name !in Names(g) ==> i == |g| && FirstIndex(es, r[i].name) == |prefix|
      {
        assert Names(r)[i] == r[i].name;
        FirstIndexSnoc(prefix, last, r[i].name);
        if i < |g| {
          assert Names(g)[i] == r[i].name;
        }
      }
      forall i, j | 0 <= i < j < |r|
        ensures FirstIndex(es, r[i].name) < FirstIndex(es, r[j].name)
      {
        assert Names(r)[i] == r[i].name && Names(r)[j] == r[j].name;
        if j < |g| {
          assert Names(g)[i] == r[i].name && Names(g)[j] == r[j].name;
          assert g[i].name == r[i].name && g[j].name == r[j].name;
        } else {
          assert Names(g)[i] == r[i].name;
        }
      }
    }
  }
}
