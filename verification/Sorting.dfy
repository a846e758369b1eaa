/** Sorting by a comparison function, as sort.Slice is used: the result is a permutation, and it is
    ordered when the comparison is a strict weak order on the elements. */
module Sorting {

  ghost predicate WeakOrder<T(!new)>(before: (T, T) -> bool, s: seq<T>) {
    && (forall a, b :: a in s && b in s && before(a, b) ==> !before(b, a))
    && (forall a, b, c :: a in s && b in s && c in s && !before(b, a) && !before(c, b) ==> !before(c, a))
  }

  ghost predicate Ordered<T>(before: (T, T) -> bool, s: seq<T>) {
    forall i, j :: 0 <= i < j < |s| ==> !before(s[j], s[i])
  }

  function Insert<T>(s: seq<T>, x: T, before: (T, T) -> bool): (r: seq<T>)
    ensures multiset(r) == multiset(s) + multiset{x}
  {
    if s != [] && before(x, s[|s| - 1]) then
      assert s == s[..|s| - 1] + [s[|s| - 1]];
      Insert(s[..|s| - 1], x, before) + [s[|s| - 1]]
    else s + [x]
  }

  function Sort<T>(s: seq<T>, before: (T, T) -> bool): (r: seq<T>)
    ensures multiset(r) == multiset(s)
  {
    if s == [] then []
    else
      assert s == s[..|s| - 1] + [s[|s| - 1]];
      Insert(Sort(s[..|s| - 1], before), s[|s| - 1], before)
  }

  lemma SameMembers<T>(a: seq<T>, b: seq<T>)
    requires multiset(a) == multiset(b)
    ensures |a| == |b|
    ensures forall x :: x in a <==> x in b
  {
    assert |multiset(a)| == |multiset(b)|;
    forall x
      ensures x in a <==> x in b
    {
      assert x in a <==> x in multiset(a);
      assert x in b <==> x in multiset(b);
    }
  }

  lemma {:induction false} InsertOrdered<T(!new)>(s: seq<T>, x: T, before: (T, T) -> bool)
    requires WeakOrder(before, s + [x]) && Ordered(before, s)
    ensures Ordered(before, Insert(s, x, before))
  {
    if s != [] {
      var n := |s| - 1;
      var last := s[n];
      assert s == s[..n] + [last];
      if before(x, last) {
        InsertOrdered(s[..n], x, before);
        var r := Insert(s[..n], x, before);
        SameMembers(r, s[..n] + [x]);
        forall y | y in r
          ensures !before(last, y)
        {
          if y != x {
            assert y in s[..n];
          }
        }
      } else {
        forall y | y in s
          ensures !before(x, y)
        {
          assert y != last ==> y in s[..n];
        }
      }
    }
  }

  lemma {:induction false} SortOrdered<T(!new)>(s: seq<T>, before: (T, T) -> bool)
    requires WeakOrder(before, s)
    ensures Ordered(before, Sort(s, before))
  {
    if s != [] {
      var n := |s| - 1;
      assert s == s[..n] + [s[n]];
      SortOrdered(s[..n], before);
      SameMembers(Sort(s[..n], before), s[..n]);
      InsertOrdered(Sort(s[..n], before), s[n], before);
    }
  }
}
