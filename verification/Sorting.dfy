/** Sorting under a total order: `sort`, `dedup`, and why the result depends on the elements only. */
module Sorting {

  /** Any two elements compare, and comparisons chain. */
  ghost predicate Preorder<T(!new)>(leq: (T, T) -> bool) {
    (forall a, b :: leq(a, b) || leq(b, a)) && (forall a, b, c :: leq(a, b) && leq(b, c) ==> leq(a, c))
  }

  ghost predicate TotalOrder<T(!new)>(leq: (T, T) -> bool) {
    Preorder(leq) && forall a, b :: leq(a, b) && leq(b, a) ==> a == b
  }

  ghost predicate Sorted<T>(s: seq<T>, leq: (T, T) -> bool) {
    forall i, j :: 0 <= i < j < |s| ==> leq(s[i], s[j])
  }

  ghost predicate Distinct<T>(s: seq<T>) {
    forall i, j :: 0 <= i < j < |s| ==> s[i] != s[j]
  }

  function Insert<T>(x: T, s: seq<T>, leq: (T, T) -> bool): seq<T> {
    if s == [] || leq(x, s[0]) then [x] + s else [s[0]] + Insert(x, s[1..], leq)
  }

  /** A stable sort. */
  function Sort<T>(s: seq<T>, leq: (T, T) -> bool): seq<T> {
    if s == [] then [] else Insert(s[0], Sort(s[1..], leq), leq)
  }

  /** `dedup`: drops elements equal to their left neighbour. */
  function Dedup<T(==)>(s: seq<T>): (r: seq<T>)
    ensures |r| <= |s|
  {
    if |s| <= 1 then s else if s[0] == s[1] then Dedup(s[1..]) else [s[0]] + Dedup(s[1..])
  }

  lemma {:induction false} InsertElements<T>(x: T, s: seq<T>, leq: (T, T) -> bool)
    ensures multiset(Insert(x, s, leq)) == multiset(s) + multiset{x}
    ensures |Insert(x, s, leq)| == |s| + 1
  {
    if s != [] && !leq(x, s[0]) {
      InsertElements(x, s[1..], leq);
      assert s == [s[0]] + s[1..];
    }
  }

  lemma {:induction false} InsertSorted<T(!new)>(x: T, s: seq<T>, leq: (T, T) -> bool)
    requires Preorder(leq) && Sorted(s, leq)
    ensures Sorted(Insert(x, s, leq), leq)
  {
    if s == [] {
    } else if leq(x, s[0]) {
      forall j | 0 <= j < |s| ensures leq(x, s[j]) {
        assert j == 0 || leq(s[0], s[j]);
      }
    } else {
      var rest := Insert(x, s[1..], leq);
      InsertSorted(x, s[1..], leq);
      InsertElements(x, s[1..], leq);
      forall j | 0 <= j < |rest| ensures leq(s[0], rest[j]) {
        assert rest[j] in multiset(rest);
        assert rest[j] == x || rest[j] in s[1..];
      }
    }
  }

  lemma {:induction false} SortElements<T>(s: seq<T>, leq: (T, T) -> bool)
    ensures multiset(Sort(s, leq)) == multiset(s) && |Sort(s, leq)| == |s|
  {
    if s != [] {
      SortElements(s[1..], leq);
      InsertElements(s[0], Sort(s[1..], leq), leq);
      assert s == [s[0]] + s[1..];
    }
  }

  lemma {:induction false} SortSorted<T(!new)>(s: seq<T>, leq: (T, T) -> bool)
    requires Preorder(leq)
    ensures Sorted(Sort(s, leq), leq)
  {
    if s != [] {
      SortSorted(s[1..], leq);
      InsertSorted(s[0], Sort(s[1..], leq), leq);
    }
  }

  /** Two sorted sequences of the same elements are equal. */
  lemma {:induction false} SortedUnique<T(!new)>(s: seq<T>, t: seq<T>, leq: (T, T) -> bool)
    requires TotalOrder(leq) && Sorted(s, leq) && Sorted(t, leq) && multiset(s) == multiset(t)
    ensures s == t
  {
    assert |s| == |multiset(s)| == |multiset(t)| == |t|;
    if s != [] {
      SameFirst(s, t, leq);
      WithoutFirst(s);
      WithoutFirst(t);
      SortedUnique(s[1..], t[1..], leq);
    }
  }

  lemma SameFirst<T(!new)>(s: seq<T>, t: seq<T>, leq: (T, T) -> bool)
    requires TotalOrder(leq) && Sorted(s, leq) && Sorted(t, leq) && multiset(s) == multiset(t) && s != [] && t != []
    ensures s[0] == t[0]
  {
    assert s[0] in multiset(t) && t[0] in multiset(s);
    assert s[0] in t && t[0] in s;
    assert leq(t[0], s[0]) && leq(s[0], t[0]);
  }

  lemma WithoutFirst<T>(s: seq<T>)
    requires s != []
    ensures s == [s[0]] + s[1..] && multiset(s[1..]) == multiset(s) - multiset{s[0]}
  {
    assert s == [s[0]] + s[1..];
  }

  /** Sorting forgets the original order. */
  lemma {:induction false} SortCanonical<T(!new)>(s: seq<T>, t: seq<T>, leq: (T, T) -> bool)
    requires TotalOrder(leq) && multiset(s) == multiset(t)
    ensures Sort(s, leq) == Sort(t, leq)
  {
    SortElements(s, leq);
    SortElements(t, leq);
    SortSorted(s, leq);
    SortSorted(t, leq);
    SortedUnique(Sort(s, leq), Sort(t, leq), leq);
  }

  /** On a sorted sequence, dropping equal neighbours shortens it exactly when something is repeated. */
  lemma {:induction false} DedupLength<T(!new)>(s: seq<T>, leq: (T, T) -> bool)
    requires TotalOrder(leq) && Sorted(s, leq)
    ensures |Dedup(s)| == |s| <==> Distinct(s)
    ensures Distinct(s) ==> Dedup(s) == s
  {
    if |s| > 1 {
      var t := s[1..];
      DedupLength(t, leq);
      if s[0] != s[1] {
        forall j | 1 <= j < |s| ensures s[0] != s[j] {
          assert leq(s[0], s[1]) && (j == 1 || leq(s[1], s[j]));
        }
      }
      assert forall i :: 1 <= i < |s| ==> s[i] == t[i - 1];
    }
  }

  lemma {:induction false} DistinctMultiplicity<T>(s: seq<T>)
    ensures Distinct(s) <==> forall x :: x in s ==> multiset(s)[x] == 1
  {
    if s != [] {
      var t := s[1..];
      DistinctMultiplicity(t);
      assert s == [s[0]] + t;
      assert multiset(s) == multiset{s[0]} + multiset(t);
      assert forall i :: 1 <= i < |s| ==> s[i] == t[i - 1];
      if Distinct(s) {
        assert s[0] !in t;
        assert Distinct(t);
      }
      if forall x :: x in s ==> multiset(s)[x] == 1 {
        assert multiset(s)[s[0]] == 1;
        assert s[0] !in t;
        forall x | x in t ensures multiset(t)[x] == 1 {
          assert x in s;
        }
      }
    }
  }

  lemma DistinctPermutation<T>(s: seq<T>, t: seq<T>)
    requires multiset(s) == multiset(t)
    ensures Distinct(s) <==> Distinct(t)
  {
    DistinctMultiplicity(s);
    DistinctMultiplicity(t);
    assert forall x :: x in s <==> x in multiset(s);
    assert forall x :: x in t <==> x in multiset(t);
  }
}
