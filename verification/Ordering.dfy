/**
 Sorting as the standard library does it: a stable insertion sort specification,
 with the fact the callers need, namely that a total order and a multiset of
 elements determine the sorted sequence.
 */
module Ordering {
  import opened Prelude

  ghost predicate TotalOrder<T(!new)>(le: (T, T) -> bool) {
    && (forall x, y :: le(x, y) || le(y, x))
    && (forall x, y, z :: le(x, y) && le(y, z) ==> le(x, z))
  }

  ghost predicate Sorted<T>(le: (T, T) -> bool, s: seq<T>) {
    forall i, j :: 0 <= i < j < |s| ==> le(s[i], s[j])
  }

  function Insert<T>(le: (T, T) -> bool, x: T, s: seq<T>): seq<T> {
    if s == [] then [x]
    else if le(x, s[0]) then [x] + s
    else [s[0]] + Insert(le, x, s[1..])
  }

  /** Insertion from the right, so equal elements keep their order. */
  function Sort<T>(le: (T, T) -> bool, s: seq<T>): seq<T> {
    if s == [] then [] else Insert(le, s[0], Sort(le, s[1..]))
  }

  lemma {:induction false} InsertPermutes<T>(le: (T, T) -> bool, x: T, s: seq<T>)
    ensures multiset(Insert(le, x, s)) == multiset{x} + multiset(s)
  {
    if s == [] {
    } else if le(x, s[0]) {
    } else {
      InsertPermutes(le, x, s[1..]);
      assert s == [s[0]] + s[1..];
    }
  }

  lemma {:induction false} SortPermutes<T>(le: (T, T) -> bool, s: seq<T>)
    ensures multiset(Sort(le, s)) == multiset(s)
  {
    if s != [] {
      SortPermutes(le, s[1..]);
      InsertPermutes(le, s[0], Sort(le, s[1..]));
      assert s == [s[0]] + s[1..];
    }
  }

  lemma SortSameElements<T>(le: (T, T) -> bool, s: seq<T>)
    ensures |Sort(le, s)| == |s|
    ensures forall x :: x in Sort(le, s) <==> x in s
  {
    SortPermutes(le, s);
    var t := Sort(le, s);
    assert |multiset(t)| == |t| && |multiset(s)| == |s|;
    forall x ensures x in t <==> x in s {
      assert x in multiset(t) <==> x in t;
      assert x in multiset(s) <==> x in s;
    }
  }

  lemma {:induction false} InsertSorted<T(!new)>(le: (T, T) -> bool, x: T, s: seq<T>)
    requires TotalOrder(le) && Sorted(le, s)
    ensures Sorted(le, Insert(le, x, s))
  {
    if s != [] && !le(x, s[0]) {
      var rest := Insert(le, x, s[1..]);
      InsertSorted(le, x, s[1..]);
      InsertPermutes(le, x, s[1..]);
      forall k | 0 <= k < |rest| ensures le(s[0], rest[k]) {
        assert rest[k] in multiset(rest);
        if rest[k] != x {
          assert rest[k] in multiset(s[1..]);
          assert rest[k] in s[1..];
        }
      }
    }
  }

  lemma {:induction false} SortSorted<T(!new)>(le: (T, T) -> bool, s: seq<T>)
    requires TotalOrder(le)
    ensures Sorted(le, Sort(le, s))
  {
    if s != [] {
      SortSorted(le, s[1..]);
      InsertSorted(le, s[0], Sort(le, s[1..]));
    }
  }

  /** Elements that compare both ways are equal: the order decides every tie. */
  ghost predicate Decides<T>(le: (T, T) -> bool, s: seq<T>) {
    forall x, y :: x in s && y in s && le(x, y) && le(y, x) ==> x == y
  }

  lemma SortedHead<T>(le: (T, T) -> bool, s: seq<T>, x: T)
    requires Sorted(le, s) && x in s && le(x, x)
    ensures le(s[0], x)
  {
    var i :| 0 <= i < |s| && s[i] == x;
  }

  lemma SameElements<T>(s: seq<T>, t: seq<T>, x: T)
    requires multiset(s) == multiset(t) && x in s
    ensures x in t
  {
    assert x in multiset(s);
    assert x in multiset(t);
  }

  lemma TailMultiset<T>(s: seq<T>)
    requires s != []
    ensures multiset(s[1..]) == multiset(s) - multiset{s[0]}
  {
    assert s == [s[0]] + s[1..];
  }

  /** Two sorted sequences with the same elements are the same sequence. */
  lemma {:induction false} SortedUnique<T(!new)>(le: (T, T) -> bool, s: seq<T>, t: seq<T>)
    requires TotalOrder(le)
    requires Sorted(le, s) && Sorted(le, t)
    requires multiset(s) == multiset(t)
    requires Decides(le, s)
    ensures s == t
  {
    if s == [] {
      assert |multiset(t)| == |t|;
    } else {
      SameElements(s, t, s[0]);
      SameElements(t, s, t[0]);
      SortedHead(le, s, t[0]);
      SortedHead(le, t, s[0]);
      TailMultiset(s);
      TailMultiset(t);
      assert Decides(le, s[1..]) by {
        forall x, y | x in s[1..] && y in s[1..] && le(x, y) && le(y, x) ensures x == y {
          assert x in s && y in s;
        }
      }
      SortedUnique(le, s[1..], t[1..]);
    }
  }

  /** Sorting forgets the order of its input. */
  lemma SortForgetsOrder<T(!new)>(le: (T, T) -> bool, s: seq<T>, t: seq<T>)
    requires TotalOrder(le)
    requires multiset(s) == multiset(t)
    requires Decides(le, s)
    ensures Sort(le, s) == Sort(le, t)
  {
    SortPermutes(le, s);
    SortPermutes(le, t);
    SortSorted(le, s);
    SortSorted(le, t);
    SortSameElements(le, s);
    SortedUnique(le, Sort(le, s), Sort(le, t));
  }

  /** A sequence has no repetition exactly when every element occurs once. */
  lemma {:induction false} DistinctCounts<T(!new)>(s: seq<T>)
    ensures Distinct(s) <==> forall x :: multiset(s)[x] <= 1
  {
    if s != [] {
      DistinctCounts(s[1..]);
      assert s == [s[0]] + s[1..];
      assert multiset(s) == multiset{s[0]} + multiset(s[1..]);
      if Distinct(s) {
        assert Distinct(s[1..]);
        assert s[0] !in multiset(s[1..]);
      }
      if forall x :: multiset(s)[x] <= 1 {
        forall x ensures multiset(s[1..])[x] <= 1 {
          assert multiset(s)[x] <= 1;
        }
        assert multiset(s)[s[0]] <= 1;
        assert s[0] !in multiset(s[1..]);
        assert Distinct(s[1..]);
        forall i, j | 0 <= i < j < |s| ensures s[i] != s[j] {
          if i > 0 {
            assert s[i] == s[1..][i - 1];
          }
          assert s[j] == s[1..][j - 1];
        }
      }
    }
  }

  lemma PermutationDistinct<T(!new)>(s: seq<T>, t: seq<T>)
    requires multiset(s) == multiset(t) && Distinct(s)
    ensures Distinct(t)
  {
    DistinctCounts(s);
    DistinctCounts(t);
  }

  /** Two repetition-free sequences with the same elements are permutations of each other. */
  lemma SameElementsPermute<T(!new)>(s: seq<T>, t: seq<T>)
    requires Distinct(s) && Distinct(t)
    requires forall x :: x in s <==> x in t
    ensures multiset(s) == multiset(t)
  {
    DistinctCounts(s);
    DistinctCounts(t);
    forall x ensures multiset(s)[x] == multiset(t)[x] {
      assert x in multiset(s) <==> x in s;
      assert x in multiset(t) <==> x in t;
    }
  }
}
