/**
 * The stable sort of the breakdown, largest amount first, with the comparator
 * `(a, b) => key(b) - key(a)`. Written as an insertion sort; any stable sort
 * with that comparator yields the same order, and the lemmas below state
 * that order: non-increasing keys, the same elements, and tied elements kept
 * in their input order.
 */
module StableSort {

  /** Keys never increase from left to right. */
  predicate SortedDesc<T>(s: seq<T>, key: T -> real) {
    forall i, j | 0 <= i < j < |s| :: key(s[i]) >= key(s[j])
  }

  /** Among elements with equal keys, `rank` strictly increases from left to right. */
  predicate TiesRanked<T>(s: seq<T>, key: T -> real, rank: T -> int) {
    forall i, j | 0 <= i < j < |s| && key(s[i]) == key(s[j]) :: rank(s[i]) < rank(s[j])
  }

  /** No two elements share a rank. */
  predicate RankInjective<T>(s: seq<T>, rank: T -> int) {
    forall i, j | 0 <= i < j < |s| :: rank(s[i]) != rank(s[j])
  }

  /** Sum of `f` over the elements. */
  function SumBy<T>(s: seq<T>, f: T -> real): real {
    if |s| == 0 then 0.0 else f(s[0]) + SumBy(s[1..], f)
  }

  /** Places `x` before the first element whose key is not larger than its own. */
  function Insert<T>(x: T, t: seq<T>, key: T -> real): (r: seq<T>)
    ensures |r| == |t| + 1
  {
    if |t| == 0 then [x]
    else if key(x) >= key(t[0]) then [x] + t
    else [t[0]] + Insert(x, t[1..], key)
  }

  /** Insertion sort: the head is inserted into the sorted tail, ahead of its ties. */
  function SortDesc<T>(s: seq<T>, key: T -> real): (r: seq<T>)
    ensures |r| == |s|
  {
    if |s| == 0 then [] else Insert(s[0], SortDesc(s[1..], key), key)
  }

  /** Inserting adds exactly one occurrence of `x`. */
  lemma {:induction false} InsertPermutes<T>(x: T, t: seq<T>, key: T -> real)
    ensures multiset(Insert(x, t, key)) == multiset(t) + multiset{x}
    decreases |t|
  {
    if |t| > 0 && key(x) < key(t[0]) {
      InsertPermutes(x, t[1..], key);
      assert t == [t[0]] + t[1..];
    }
  }

  /** The result is a permutation of the input. */
  lemma {:induction false} SortDescPermutes<T>(s: seq<T>, key: T -> real)
    ensures multiset(SortDesc(s, key)) == multiset(s)
    decreases |s|
  {
    if |s| > 0 {
      SortDescPermutes(s[1..], key);
      InsertPermutes(s[0], SortDesc(s[1..], key), key);
      assert s == [s[0]] + s[1..];
    }
  }

  /** Sorting keeps exactly the members of the input. */
  lemma SortDescMember<T>(s: seq<T>, key: T -> real, y: T)
    ensures y in SortDesc(s, key) <==> y in s
  {
    SortDescPermutes(s, key);
    assert y in SortDesc(s, key) <==> y in multiset(SortDesc(s, key));
    assert y in s <==> y in multiset(s);
  }

  /** An element of a sequence is an element of every sequence with the same multiset. */
  lemma SameMember<T>(a: seq<T>, b: seq<T>, y: T)
    requires multiset(a) == multiset(b)
    requires y in a
    ensures y in b
  {
    assert y in multiset(a);
  }

  lemma {:induction false} InsertSorted<T>(x: T, t: seq<T>, key: T -> real)
    requires SortedDesc(t, key)
    ensures SortedDesc(Insert(x, t, key), key)
    decreases |t|
  {
    if |t| > 0 && key(x) < key(t[0]) {
      var rest := Insert(x, t[1..], key);
      InsertSorted(x, t[1..], key);
      forall j | 0 <= j < |rest|
        ensures key(t[0]) >= key(rest[j])
      {
        InsertPermutes(x, t[1..], key);
        SameMember(rest, t[1..] + [x], rest[j]);
      }
    }
  }

  /** The result is sorted, largest key first. */
  lemma {:induction false} SortDescSorted<T>(s: seq<T>, key: T -> real)
    ensures SortedDesc(SortDesc(s, key), key)
    decreases |s|
  {
    if |s| > 0 {
      SortDescSorted(s[1..], key);
      InsertSorted(s[0], SortDesc(s[1..], key), key);
    }
  }

  lemma {:induction false} InsertTies<T>(x: T, t: seq<T>, key: T -> real, rank: T -> int)
    requires SortedDesc(t, key) && TiesRanked(t, key, rank)
    requires forall j | 0 <= j < |t| && key(t[j]) == key(x) :: rank(x) < rank(t[j])
    ensures TiesRanked(Insert(x, t, key), key, rank)
    decreases |t|
  {
    if |t| > 0 && key(x) < key(t[0]) {
      var rest := Insert(x, t[1..], key);
      InsertTies(x, t[1..], key, rank);
      var r := Insert(x, t, key);
      forall i, j | 0 <= i < j < |r| && key(r[i]) == key(r[j])
        ensures rank(r[i]) < rank(r[j])
      {
        if i == 0 {
          assert r[j] == rest[j - 1];
          InsertPermutes(x, t[1..], key);
          SameMember(rest, t[1..] + [x], rest[j - 1]);
          if r[j] != x {
            var m :| 0 <= m < |t[1..]| && t[1..][m] == r[j];
            assert t[m + 1] == r[j];
          }
        } else {
          assert r[i] == rest[i - 1] && r[j] == rest[j - 1];
        }
      }
    }
  }

  /** Stability: elements with equal keys keep the relative order `rank` gives them in the input. */
  lemma {:induction false} SortDescStable<T>(s: seq<T>, key: T -> real, rank: T -> int)
    requires TiesRanked(s, key, rank)
    ensures TiesRanked(SortDesc(s, key), key, rank)
    decreases |s|
  {
    if |s| > 0 {
      var rest := SortDesc(s[1..], key);
      SortDescStable(s[1..], key, rank);
      SortDescSorted(s[1..], key);
      forall j | 0 <= j < |rest| && key(rest[j]) == key(s[0])
        ensures rank(s[0]) < rank(rest[j])
      {
        SortDescMember(s[1..], key, rest[j]);
        var m :| 0 <= m < |s[1..]| && s[1..][m] == rest[j];
        assert s[m + 1] == rest[j];
      }
      InsertTies(s[0], rest, key, rank);
    }
  }

  lemma {:induction false} InsertInjective<T>(x: T, t: seq<T>, key: T -> real, rank: T -> int)
    requires RankInjective(t, rank)
    requires forall j | 0 <= j < |t| :: rank(x) != rank(t[j])
    ensures RankInjective(Insert(x, t, key), rank)
    decreases |t|
  {
    if |t| > 0 && key(x) < key(t[0]) {
      var rest := Insert(x, t[1..], key);
      InsertInjective(x, t[1..], key, rank);
      var r := Insert(x, t, key);
      forall i, j | 0 <= i < j < |r|
        ensures rank(r[i]) != rank(r[j])
      {
        if i == 0 {
          assert r[j] == rest[j - 1];
          InsertPermutes(x, t[1..], key);
          SameMember(rest, t[1..] + [x], rest[j - 1]);
          if r[j] != x {
            var m :| 0 <= m < |t[1..]| && t[1..][m] == r[j];
            assert t[m + 1] == r[j];
          }
        } else {
          assert r[i] == rest[i - 1] && r[j] == rest[j - 1];
        }
      }
    }
  }

  /** Distinct ranks stay distinct. */
  lemma {:induction false} SortDescInjective<T>(s: seq<T>, key: T -> real, rank: T -> int)
    requires RankInjective(s, rank)
    ensures RankInjective(SortDesc(s, key), rank)
    decreases |s|
  {
    if |s| > 0 {
      var rest := SortDesc(s[1..], key);
      SortDescInjective(s[1..], key, rank);
      forall j | 0 <= j < |rest|
        ensures rank(s[0]) != rank(rest[j])
      {
        SortDescMember(s[1..], key, rest[j]);
        var m :| 0 <= m < |s[1..]| && s[1..][m] == rest[j];
        assert s[m + 1] == rest[j];
      }
      InsertInjective(s[0], rest, key, rank);
    }
  }

  lemma {:induction false} InsertSum<T>(x: T, t: seq<T>, key: T -> real, f: T -> real)
    ensures SumBy(Insert(x, t, key), f) == f(x) + SumBy(t, f)
    decreases |t|
  {
    if |t| > 0 {
      if key(x) >= key(t[0]) {
        assert ([x] + t)[1..] == t;
      } else {
        InsertSum(x, t[1..], key, f);
        assert ([t[0]] + Insert(x, t[1..], key))[1..] == Insert(x, t[1..], key);
      }
    }
  }

  /** Sorting does not change any sum over the elements. */
  lemma {:induction false} SortDescSum<T>(s: seq<T>, key: T -> real, f: T -> real)
    ensures SumBy(SortDesc(s, key), f) == SumBy(s, f)
    decreases |s|
  {
    if |s| > 0 {
      SortDescSum(s[1..], key, f);
      InsertSum(s[0], SortDesc(s[1..], key), key, f);
    }
  }
}
