/** Lists gathered item by item. */
module Lists {
  import opened Ordering

  /** The lists `f` gives for the items of `s`, one after another. */
  function FlatMap<T, U>(s: seq<T>, f: T -> seq<U>): seq<U> {
    if s == [] then [] else FlatMap(s[..|s| - 1], f) + f(s[|s| - 1])
  }

  lemma FlatMapNext<T, U>(s: seq<T>, k: nat, f: T -> seq<U>)
    requires k < |s|
    ensures FlatMap(s[..k + 1], f) == FlatMap(s[..k], f) + f(s[k])
  {
    assert s[..k + 1][..k] == s[..k];
  }

  lemma {:induction false} FlatMapAppend<T, U>(a: seq<T>, b: seq<T>, f: T -> seq<U>)
    ensures FlatMap(a + b, f) == FlatMap(a, f) + FlatMap(b, f)
  {
    if b == [] {
      assert a + b == a;
    } else {
      var n := |b| - 1;
      assert (a + b)[..|a + b| - 1] == a + b[..n];
      FlatMapAppend(a, b[..n], f);
      assert FlatMap(a, f) + FlatMap(b[..n], f) + f(b[n]) == FlatMap(a, f) + (FlatMap(b[..n], f) + f(b[n]));
    }
  }

  lemma FlatMapMiddle<T, U>(b: seq<T>, i: nat, f: T -> seq<U>)
    requires i < |b|
    ensures FlatMap(b, f) == FlatMap(b[..i], f) + f(b[i]) + FlatMap(b[i + 1..], f)
  {
    assert b == b[..i + 1] + b[i + 1..];
    FlatMapAppend(b[..i + 1], b[i + 1..], f);
    FlatMapNext(b, i, f);
  }

  /** The order of the items does not change what is gathered. */
  lemma {:induction false} FlatMapPermutation<T, U>(a: seq<T>, b: seq<T>, f: T -> seq<U>)
    requires multiset(a) == multiset(b)
    ensures multiset(FlatMap(a, f)) == multiset(FlatMap(b, f))
  {
    if a == [] {
      assert |multiset(b)| == 0;
    } else {
      var n := |a| - 1;
      var i := TakeOut(a, b);
      FlatMapPermutation(a[..n], b[..i] + b[i + 1..], f);
      FlatMapMiddle(b, i, f);
      FlatMapAppend(b[..i], b[i + 1..], f);
      hide FlatMap;
      var x, y, z := FlatMap(b[..i], f), f(b[i]), FlatMap(b[i + 1..], f);
      MultisetMiddle(FlatMap(a[..n], f), x, y, z);
      assert FlatMap(a, f) == FlatMap(a[..n], f) + y by {
        FlatMapNext(a, n, f);
        assert a[..n + 1] == a;
      }
    }
  }

  lemma MultisetMiddle<U>(w: seq<U>, x: seq<U>, y: seq<U>, z: seq<U>)
    requires multiset(w) == multiset(x + z)
    ensures multiset(w + y) == multiset(x + y + z)
  {
    assert multiset(x + z) == multiset(x) + multiset(z);
    assert multiset(x + y + z) == multiset(x) + multiset(y) + multiset(z);
  }
}
