/** Stable sorting by a strict order: what the program's sorted(...) calls rely on. */
module Sorting {

  /** less is the strict part of a total preorder, as comparing by a key is. */
  ghost predicate KeyOrder<T(!new)>(less: (T, T) -> bool) {
    && (forall a, b :: less(a, b) ==> !less(b, a))
    && (forall a, b, c :: !less(a, b) && !less(b, c) ==> !less(a, c))
  }

  ghost predicate SortedBy<T>(s: seq<T>, less: (T, T) -> bool) {
    forall i, j :: 0 <= i < j < |s| ==> !less(s[j], s[i])
  }

  /** Where an element goes: behind everything it is not less than. */
  function Place<T>(s: seq<T>, x: T, less: (T, T) -> bool): (p: nat)
    ensures p <= |s|
  {
    if s != [] && less(x, s[|s| - 1]) then Place(s[..|s| - 1], x, less) else |s|
  }

  function Insert<T>(s: seq<T>, x: T, less: (T, T) -> bool): seq<T> {
    var p := Place(s, x, less);
    s[..p] + [x] + s[p..]
  }

  /** sorted(xs): elements with equal keys keep their order. */
  function StableSort<T>(xs: seq<T>, less: (T, T) -> bool): seq<T> {
    if xs == [] then []
    else Insert(StableSort(xs[..|xs| - 1], less), xs[|xs| - 1], less)
  }

  lemma {:induction false} PlaceSplits<T(!new)>(s: seq<T>, x: T, less: (T, T) -> bool)
    requires KeyOrder(less) && SortedBy(s, less)
    ensures var p := Place(s, x, less);
            && (forall i :: 0 <= i < p ==> !less(x, s[i]))
            && (forall i :: p <= i < |s| ==> less(x, s[i]))
  {
    if s != [] {
      if less(x, s[|s| - 1]) {
        PlaceSplits(s[..|s| - 1], x, less);
      } else {
        forall i | 0 <= i < |s|
          ensures !less(x, s[i])
        {
          assert i == |s| - 1 || !less(s[|s| - 1], s[i]);
        }
      }
    }
  }

  lemma InsertSorts<T(!new)>(s: seq<T>, x: T, less: (T, T) -> bool)
    requires KeyOrder(less) && SortedBy(s, less)
    ensures SortedBy(Insert(s, x, less), less)
  {
    PlaceSplits(s, x, less);
    var p, t := Place(s, x, less), Insert(s, x, less);
    forall i, j | 0 <= i < j < |t|
      ensures !less(t[j], t[i])
    {
      if i != p && j != p {
        assert t[i] == s[if i < p then i else i - 1] && t[j] == s[if j < p then j else j - 1];
      }
    }
  }

  lemma InsertPermutes<T>(s: seq<T>, x: T, less: (T, T) -> bool)
    ensures multiset(Insert(s, x, less)) == multiset(s) + multiset{x}
  {
    var p := Place(s, x, less);
    assert s == s[..p] + s[p..];
  }

  lemma {:induction false} StableSortSorts<T(!new)>(xs: seq<T>, less: (T, T) -> bool)
    requires KeyOrder(less)
    ensures SortedBy(StableSort(xs, less), less)
  {
    if xs != [] {
      StableSortSorts(xs[..|xs| - 1], less);
      InsertSorts(StableSort(xs[..|xs| - 1], less), xs[|xs| - 1], less);
    }
  }

  lemma {:induction false} StableSortPermutes<T>(xs: seq<T>, less: (T, T) -> bool)
    ensures multiset(StableSort(xs, less)) == multiset(xs)
    ensures |StableSort(xs, less)| == |xs|
  {
    if xs != [] {
      StableSortPermutes(xs[..|xs| - 1], less);
      InsertPermutes(StableSort(xs[..|xs| - 1], less), xs[|xs| - 1], less);
      assert xs == xs[..|xs| - 1] + [xs[|xs| - 1]];
    }
    assert |multiset(StableSort(xs, less))| == |multiset(xs)|;
  }

  /** What is sorted already stays as it is. */
  lemma {:induction false} SortOfSorted<T(!new)>(xs: seq<T>, less: (T, T) -> bool)
    requires KeyOrder(less) && SortedBy(xs, less)
    ensures StableSort(xs, less) == xs
  {
    if xs != [] {
      var init, x := xs[..|xs| - 1], xs[|xs| - 1];
      SortOfSorted(init, less);
      assert init != [] ==> !less(x, init[|init| - 1]);
      assert xs == init + [x];
    }
  }

  /** Sorting a longer list inserts its last element into the sorted rest. */
  lemma SortAppends<T>(xs: seq<T>, x: T, less: (T, T) -> bool)
    ensures StableSort(xs + [x], less) == Insert(StableSort(xs, less), x, less)
  {
    assert (xs + [x])[..|xs|] == xs;
  }

  ghost predicate KeysDistinct<T>(s: seq<T>, less: (T, T) -> bool) {
    forall x, y :: x in s && y in s && x != y ==> less(x, y) || less(y, x)
  }

  lemma LastsAgree<T(!new)>(a: seq<T>, b: seq<T>, less: (T, T) -> bool)
    requires KeyOrder(less) && SortedBy(a, less) && SortedBy(b, less) && KeysDistinct(a, less)
    requires a != [] && b != []
    requires forall x :: x in a <==> x in b
    ensures a[|a| - 1] == b[|b| - 1]
  {
    var x, y := a[|a| - 1], b[|b| - 1];
    assert x in b && y in a;
    var i :| 0 <= i < |a| && a[i] == y;
    var j :| 0 <= j < |b| && b[j] == x;
    assert !less(x, y) by {
      assert i == |a| - 1 || !less(a[|a| - 1], a[i]);
    }
    assert !less(y, x) by {
      assert j == |b| - 1 || !less(b[|b| - 1], b[j]);
    }
  }

  lemma SameElements<T>(a: seq<T>, b: seq<T>)
    requires multiset(a) == multiset(b)
    ensures |a| == |b|
    ensures forall x :: x in a <==> x in b
  {
    assert |multiset(a)| == |a| && |multiset(b)| == |b|;
    forall x
      ensures x in a <==> x in b
    {
      assert x in a <==> x in multiset(a);
      assert x in b <==> x in multiset(b);
    }
  }

  /** Every element of one arrangement stands somewhere in the other. */
  lemma FoundIn<T>(a: seq<T>, b: seq<T>, i: nat)
    requires multiset(a) == multiset(b) && i < |a|
    ensures |a| == |b| && exists j :: 0 <= j < |b| && b[j] == a[i]
  {
    SameElements(a, b);
    assert a[i] in b;
  }

  lemma DropLast<T>(a: seq<T>)
    requires a != []
    ensures multiset(a[..|a| - 1]) == multiset(a) - multiset{a[|a| - 1]}
  {
    assert a == a[..|a| - 1] + [a[|a| - 1]];
  }

  lemma PrefixKeeps<T>(a: seq<T>, less: (T, T) -> bool)
    requires a != [] && SortedBy(a, less) && KeysDistinct(a, less)
    ensures SortedBy(a[..|a| - 1], less) && KeysDistinct(a[..|a| - 1], less)
  {
    var init := a[..|a| - 1];
    assert forall x :: x in init ==> x in a;
  }

  lemma SameInitAndLast<T>(a: seq<T>, b: seq<T>)
    requires a != [] && b != [] && a[..|a| - 1] == b[..|b| - 1] && a[|a| - 1] == b[|b| - 1]
    ensures a == b
  {
    assert a == a[..|a| - 1] + [a[|a| - 1]] && b == b[..|b| - 1] + [b[|b| - 1]];
  }

  /** The last elements agree, and so do the arrangements without them. */
  lemma DropSharedLast<T(!new)>(a: seq<T>, b: seq<T>, less: (T, T) -> bool)
    requires KeyOrder(less)
    requires SortedBy(a, less) && KeysDistinct(a, less) && SortedBy(b, less) && KeysDistinct(b, less)
    requires multiset(a) == multiset(b) && a != []
    ensures b != [] && a[|a| - 1] == b[|b| - 1]
    ensures multiset(a[..|a| - 1]) == multiset(b[..|b| - 1])
  {
    SameElements(a, b);
    LastsAgree(a, b, less);
    DropLast(a);
    DropLast(b);
  }

  /** A sorted arrangement is determined by its elements when no two of them have equal keys. */
  lemma {:induction false} SortedIsUnique<T(!new)>(a: seq<T>, b: seq<T>, less: (T, T) -> bool)
    requires KeyOrder(less)
    requires SortedBy(a, less) && KeysDistinct(a, less) && SortedBy(b, less) && KeysDistinct(b, less)
    requires multiset(a) == multiset(b)
    ensures a == b
    decreases |a|
  {
    if a == [] {
      SameElements(a, b);
    } else {
      DropSharedLast(a, b, less);
      PrefixKeeps(a, less);
      PrefixKeeps(b, less);
      SortedIsUnique(a[..|a| - 1], b[..|b| - 1], less);
      SameInitAndLast(a, b);
    }
  }

  // ----- orders that separate any two elements -------------------------------------------------------

  ghost predicate StrictlySorted<T>(s: seq<T>, less: (T, T) -> bool) {
    forall i, j :: 0 <= i < j < |s| ==> less(s[i], s[j])
  }

  ghost predicate Separated<T>(s: seq<T>, less: (T, T) -> bool) {
    forall i, j :: 0 <= i < j < |s| ==> less(s[i], s[j]) || less(s[j], s[i])
  }

  lemma {:induction false} AtMostOnce<T(!new)>(s: seq<T>, x: T, less: (T, T) -> bool)
    requires KeyOrder(less) && Separated(s, less)
    ensures multiset(s)[x] <= 1
  {
    if s != [] {
      var init := s[..|s| - 1];
      assert s == init + [s[|s| - 1]];
      AtMostOnce(init, x, less);
      forall i | 0 <= i < |init|
        ensures init[i] != s[|s| - 1]
      {
        assert less(s[i], s[|s| - 1]) || less(s[|s| - 1], s[i]);
      }
    }
  }

  /** Sorting elements that the order separates puts them in strict order and keeps each of them. */
  lemma StrictSort<T(!new)>(xs: seq<T>, less: (T, T) -> bool)
    requires KeyOrder(less) && Separated(xs, less)
    ensures var r := StableSort(xs, less);
            StrictlySorted(r, less) && |r| == |xs| && forall x :: x in r <==> x in xs
  {
    var r := StableSort(xs, less);
    StableSortSorts(xs, less);
    StableSortPermutes(xs, less);
    SameElements(r, xs);
    forall i, j | 0 <= i < j < |r|
      ensures less(r[i], r[j])
    {
      assert !less(r[j], r[i]);
      NoRepeats(r, xs, less, i, j);
      EitherWay(xs, less, r[i], r[j]);
    }
  }

  lemma EitherWay<T(!new)>(xs: seq<T>, less: (T, T) -> bool, x: T, y: T)
    requires Separated(xs, less) && x in xs && y in xs && x != y
    ensures less(x, y) || less(y, x)
  {
    var i :| 0 <= i < |xs| && xs[i] == x;
    var j :| 0 <= j < |xs| && xs[j] == y;
  }

  /** An arrangement of separated elements repeats none. */
  lemma NoRepeats<T(!new)>(r: seq<T>, xs: seq<T>, less: (T, T) -> bool, i: nat, j: nat)
    requires KeyOrder(less) && Separated(xs, less) && multiset(r) == multiset(xs) && i < j < |r|
    ensures r[i] != r[j]
  {
    AtMostOnce(xs, r[i], less);
    Parted(r, i, j);
  }

  lemma Parted<T>(r: seq<T>, i: nat, j: nat)
    requires i < j < |r|
    ensures r[i] == r[j] ==> multiset(r)[r[i]] >= 2
  {
    assert r == r[..i] + [r[i]] + r[i + 1..j] + [r[j]] + r[j + 1..];
  }

  lemma WithoutLast<T(!new)>(a: seq<T>, b: seq<T>, less: (T, T) -> bool, x: T)
    requires KeyOrder(less) && StrictlySorted(a, less) && StrictlySorted(b, less)
    requires a != [] && b != [] && a[|a| - 1] == b[|b| - 1]
    requires forall y :: y in a ==> y in b
    requires x in a[..|a| - 1]
    ensures x in b[..|b| - 1]
  {
    var i :| 0 <= i < |a| - 1 && a[i] == x;
    assert less(x, a[|a| - 1]);
    assert x in a;
    var j :| 0 <= j < |b| && b[j] == x;
    assert j != |b| - 1;
    assert b[..|b| - 1][j] == x;
  }

  lemma SameEmptiness<T>(a: seq<T>, b: seq<T>)
    requires forall x :: x in a ==> x in b
    ensures b == [] ==> a == []
  {
    if a != [] {
      assert a[0] in a;
    }
  }

  /** Two strictly sorted lists with the same elements are the same list. */
  lemma {:induction false} StrictIsUnique<T(!new)>(a: seq<T>, b: seq<T>, less: (T, T) -> bool)
    requires KeyOrder(less) && StrictlySorted(a, less) && StrictlySorted(b, less)
    requires forall x :: x in a <==> x in b
    ensures a == b
    decreases |a|
  {
    if a == [] {
      SameEmptiness(b, a);
    } else {
      SameEmptiness(a, b);
      LastsAgree(a, b, less);
      var a', b' := a[..|a| - 1], b[..|b| - 1];
      forall x | x in a'
        ensures x in b'
      {
        WithoutLast(a, b, less, x);
      }
      forall x | x in b'
        ensures x in a'
      {
        WithoutLast(b, a, less, x);
      }
      StrictIsUnique(a', b', less);
      SameInitAndLast(a, b);
    }
  }
}
