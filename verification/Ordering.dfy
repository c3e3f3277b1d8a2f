/** Python's `sorted`, over any total order. */
module Ordering {

  ghost predicate TotalOrder<T(!new)>(leq: (T, T) -> bool) {
    && (forall x, y :: leq(x, y) || leq(y, x))
    && (forall x, y :: leq(x, y) && leq(y, x) ==> x == y)
    && (forall x, y, z :: leq(x, y) && leq(y, z) ==> leq(x, z))
  }

  predicate Sorted<T>(s: seq<T>, leq: (T, T) -> bool) {
    forall i, j :: 0 <= i < j < |s| ==> leq(s[i], s[j])
  }

  predicate Distinct<T(==)>(s: seq<T>) {
    forall i, j :: 0 <= i < j < |s| ==> s[i] != s[j]
  }

  function AsSet<T(==)>(s: seq<T>): set<T> {
    set x | x in s
  }

  function Insert<T>(x: T, s: seq<T>, leq: (T, T) -> bool): seq<T> {
    if s == [] then [x]
    else if leq(x, s[0]) then [x] + s
    else [s[0]] + Insert(x, s[1..], leq)
  }

  function Sort<T>(s: seq<T>, leq: (T, T) -> bool): seq<T> {
    if s == [] then [] else Insert(s[0], Sort(s[1..], leq), leq)
  }

  lemma {:induction false} InsertHolds<T>(x: T, s: seq<T>, leq: (T, T) -> bool)
    ensures multiset(Insert(x, s, leq)) == multiset(s) + multiset{x}
  {
    if s != [] && !leq(x, s[0]) {
      InsertHolds(x, s[1..], leq);
      assert s == [s[0]] + s[1..];
    }
  }

  lemma {:induction false} InsertSorts<T(!new)>(x: T, s: seq<T>, leq: (T, T) -> bool)
    requires TotalOrder(leq) && Sorted(s, leq)
    ensures Sorted(Insert(x, s, leq), leq)
  {
    if s != [] && !leq(x, s[0]) {
      var rest := Insert(x, s[1..], leq);
      InsertSorts(x, s[1..], leq);
      InsertHolds(x, s[1..], leq);
      forall k | 0 <= k < |rest|
        ensures leq(s[0], rest[k])
      {
        assert rest[k] in multiset(rest);
        assert rest[k] == x || rest[k] in s[1..];
      }
    }
  }

  /** The result is in order and holds the same items. */
  lemma {:induction false} SortSorts<T(!new)>(s: seq<T>, leq: (T, T) -> bool)
    requires TotalOrder(leq)
    ensures Sorted(Sort(s, leq), leq)
    ensures multiset(Sort(s, leq)) == multiset(s)
    ensures |Sort(s, leq)| == |s|
  {
    hide TotalOrder, Insert;
    if s != [] {
      SortSorts(s[1..], leq);
      InsertSorts(s[0], Sort(s[1..], leq), leq);
      InsertHolds(s[0], Sort(s[1..], leq), leq);
      assert s == [s[0]] + s[1..];
    }
    assert |Sort(s, leq)| == |multiset(Sort(s, leq))|;
  }

  /** An ordered list starts with its least item. */
  lemma LeastFirst<T(!new)>(a: seq<T>, x: T, leq: (T, T) -> bool)
    requires TotalOrder(leq) && Sorted(a, leq) && x in a
    ensures leq(a[0], x)
  {
    var i :| 0 <= i < |a| && a[i] == x;
    assert leq(a[0], a[0]);
  }

  /** Two ordered lists of the same items are the same list. */
  lemma {:induction false} SortedUnique<T(!new)>(a: seq<T>, b: seq<T>, leq: (T, T) -> bool)
    requires TotalOrder(leq) && Sorted(a, leq) && Sorted(b, leq)
    requires multiset(a) == multiset(b)
    ensures a == b
  {
    hide TotalOrder, Sorted;
    assert |a| == |multiset(a)| && |b| == |multiset(b)|;
    if a != [] {
      SameFirst(a, b, leq);
      RestOf(a, leq);
      RestOf(b, leq);
      SortedUnique(a[1..], b[1..], leq);
    }
  }

  lemma SameFirst<T(!new)>(a: seq<T>, b: seq<T>, leq: (T, T) -> bool)
    requires TotalOrder(leq) && Sorted(a, leq) && Sorted(b, leq)
    requires multiset(a) == multiset(b) && a != [] && b != []
    ensures a[0] == b[0]
  {
    hide Sorted;
    assert a[0] in multiset(b) && b[0] in multiset(a);
    LeastFirst(a, b[0], leq);
    LeastFirst(b, a[0], leq);
  }

  lemma RestOf<T>(a: seq<T>, leq: (T, T) -> bool)
    requires Sorted(a, leq) && a != []
    ensures Sorted(a[1..], leq) && a == [a[0]] + a[1..]
    ensures multiset(a[1..]) == multiset(a) - multiset{a[0]}
  {
    assert a == [a[0]] + a[1..];
    assert multiset(a) == multiset{a[0]} + multiset(a[1..]);
  }

  /** Sorting does not depend on the order of its input. */
  lemma SortOfPermutation<T(!new)>(a: seq<T>, b: seq<T>, leq: (T, T) -> bool)
    requires TotalOrder(leq) && multiset(a) == multiset(b)
    ensures Sort(a, leq) == Sort(b, leq)
  {
    SortSorts(a, leq);
    SortSorts(b, leq);
    SortedUnique(Sort(a, leq), Sort(b, leq), leq);
  }

  /** The last item of `a` can be taken out of any permutation `b` of `a`. */
  lemma TakeOut<T>(a: seq<T>, b: seq<T>) returns (i: nat)
    requires a != [] && multiset(a) == multiset(b)
    ensures i < |b| && b[i] == a[|a| - 1]
    ensures multiset(a[..|a| - 1]) == multiset(b[..i] + b[i + 1..])
  {
    var n := |a| - 1;
    assert a[n] in multiset(b);
    i :| 0 <= i < |b| && b[i] == a[n];
    assert a == a[..n] + [a[n]];
    assert b == b[..i] + [b[i]] + b[i + 1..];
    var x := multiset{a[n]};
    assert multiset(a[..n]) + x == multiset(a);
    assert multiset(b[..i] + b[i + 1..]) + x == multiset(b) by {
      assert multiset(b) == multiset(b[..i]) + x + multiset(b[i + 1..]);
      assert multiset(b[..i] + b[i + 1..]) == multiset(b[..i]) + multiset(b[i + 1..]);
    }
    assert multiset(a[..n]) == (multiset(a[..n]) + x) - x;
    assert multiset(b[..i] + b[i + 1..]) == (multiset(b[..i] + b[i + 1..]) + x) - x;
  }

  // ----- sorted listings of sets --------------------------------------------

  /** `r` lists exactly the members of `s`, once each and in order. */
  ghost predicate Lists<T(!new)>(r: seq<T>, s: set<T>, leq: (T, T) -> bool) {
    Sorted(r, leq) && Distinct(r) && forall x :: x in r <==> x in s
  }

  lemma DistinctMultiset<T>(r: seq<T>, x: T)
    requires Distinct(r)
    ensures multiset(r)[x] == if x in r then 1 else 0
  {
    if r != [] {
      DistinctMultiset(r[1..], x);
      assert r == [r[0]] + r[1..];
      assert r[0] !in r[1..];
    }
  }

  /** There is only one such listing. */
  lemma ListingUnique<T(!new)>(a: seq<T>, b: seq<T>, s: set<T>, leq: (T, T) -> bool)
    requires TotalOrder(leq) && Lists(a, s, leq) && Lists(b, s, leq)
    ensures a == b
  {
    forall x
      ensures multiset(a)[x] == multiset(b)[x]
    {
      DistinctMultiset(a, x);
      DistinctMultiset(b, x);
    }
    SortedUnique(a, b, leq);
  }

  /** `sorted(s)` for a set. */
  method SortSet<T(!new, ==)>(s: set<T>, leq: (T, T) -> bool) returns (r: seq<T>)
    requires TotalOrder(leq)
    ensures Lists(r, s, leq)
  {
    r := [];
    var todo := s;
    while todo != {}
      invariant todo <= s
      invariant Lists(r, s - todo, leq)
      decreases todo
    {
      var x :| x in todo;
      InsertLists(x, r, s - todo, leq);
      r := Insert(x, r, leq);
      assert s - (todo - {x}) == (s - todo) + {x};
      todo := todo - {x};
    }
    assert s - {} == s;
  }

  /** The listing of a set. */
  ghost function Listing<T(!new)>(s: set<T>, leq: (T, T) -> bool): (r: seq<T>)
    requires TotalOrder(leq)
    ensures Lists(r, s, leq)
  {
    if s == {} then []
    else
      var x :| x in s;
      InsertLists(x, Listing(s - {x}, leq), s - {x}, leq);
      assert s == (s - {x}) + {x};
      Insert(x, Listing(s - {x}, leq), leq)
  }

  lemma InsertLists<T(!new)>(x: T, r: seq<T>, s: set<T>, leq: (T, T) -> bool)
    requires TotalOrder(leq) && Lists(r, s, leq) && x !in s
    ensures Lists(Insert(x, r, leq), s + {x}, leq)
  {
    var q := Insert(x, r, leq);
    InsertSorts(x, r, leq);
    InsertHolds(x, r, leq);
    forall y
      ensures multiset(q)[y] == if y in s + {x} then 1 else 0
    {
      DistinctMultiset(r, y);
    }
    DistinctWhen(q);
    forall y
      ensures y in q <==> y in s + {x}
    {
      assert y in q <==> y in multiset(q);
    }
  }

  lemma {:induction false} DistinctWhen<T(!new)>(q: seq<T>)
    requires forall y :: multiset(q)[y] <= 1
    ensures Distinct(q)
  {
    forall i, j | 0 <= i < j < |q|
      ensures q[i] != q[j]
    {
      TwiceListed(q, i, j);
    }
  }

  lemma TwiceListed<T>(q: seq<T>, i: nat, j: nat)
    requires i < j < |q|
    ensures q[i] == q[j] ==> multiset(q)[q[i]] >= 2
  {
    assert q == q[..i] + [q[i]] + q[i + 1..j] + [q[j]] + q[j + 1..];
  }

  // ----- the order of strings -----------------------------------------------

  /** Python compares strings code point by code point. */
  predicate StringLeq(a: string, b: string) {
    a == "" || (b != "" && (a[0] < b[0] || (a[0] == b[0] && StringLeq(a[1..], b[1..]))))
  }

  lemma {:induction false} StringLeqTotal(a: string, b: string)
    ensures StringLeq(a, b) || StringLeq(b, a)
    ensures StringLeq(a, b) && StringLeq(b, a) ==> a == b
  {
    if a != "" && b != "" {
      StringLeqTotal(a[1..], b[1..]);
      assert a == [a[0]] + a[1..] && b == [b[0]] + b[1..];
    }
  }

  lemma {:induction false} StringLeqTransitive(a: string, b: string, c: string)
    requires StringLeq(a, b) && StringLeq(b, c)
    ensures StringLeq(a, c)
  {
    if a != "" && a[0] == b[0] == c[0] {
      StringLeqTransitive(a[1..], b[1..], c[1..]);
    }
  }

  lemma StringOrder()
    ensures TotalOrder(StringLeq)
  {
    forall x, y
      ensures StringLeq(x, y) || StringLeq(y, x)
      ensures StringLeq(x, y) && StringLeq(y, x) ==> x == y
    {
      StringLeqTotal(x, y);
    }
    forall x, y, z | StringLeq(x, y) && StringLeq(y, z)
      ensures StringLeq(x, z)
    {
      StringLeqTransitive(x, y, z);
    }
  }

  /** The order of Python strings: a prefix comes first, otherwise the first different character decides. */
  lemma {:induction false} StringLeqIs(a: string, b: string)
    ensures StringLeq(a, b) <==> a <= b || exists k :: FirstDifference(a, b, k) && a[k] < b[k]
  {
    if a != "" && b != "" {
      if a[0] == b[0] {
        StringLeqIs(a[1..], b[1..]);
        assert a <= b <==> a[1..] <= b[1..];
        forall k: nat
          ensures FirstDifference(a[1..], b[1..], k) <==> FirstDifference(a, b, k + 1)
        {
          DifferenceShifts(a, b, k);
        }
        if exists k :: FirstDifference(a, b, k) && a[k] < b[k] {
          var k :| FirstDifference(a, b, k) && a[k] < b[k];
          assert k > 0;
          assert FirstDifference(a[1..], b[1..], k - 1);
        }
        if exists k :: FirstDifference(a[1..], b[1..], k) && a[1..][k] < b[1..][k] {
          var k :| FirstDifference(a[1..], b[1..], k) && a[1..][k] < b[1..][k];
          assert FirstDifference(a, b, k + 1);
        }
      } else {
        assert FirstDifference(a, b, 0);
      }
    }
  }

  ghost predicate FirstDifference(a: string, b: string, k: int) {
    0 <= k < |a| && k < |b| && a[..k] == b[..k] && a[k] != b[k]
  }

  lemma DifferenceShifts(a: string, b: string, k: nat)
    requires a != "" && b != "" && a[0] == b[0]
    ensures FirstDifference(a[1..], b[1..], k) <==> FirstDifference(a, b, k + 1)
  {
    if k < |a| - 1 && k < |b| - 1 {
      assert a[..k + 1] == [a[0]] + a[1..][..k] && b[..k + 1] == [b[0]] + b[1..][..k];
      assert a[..k + 1][1..] == a[1..][..k] && b[..k + 1][1..] == b[1..][..k];
    }
  }
}
