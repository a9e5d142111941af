/** `Array.prototype.sort`, which is stable: insertion sort has the same result. */
module Sorting {

  ghost predicate TotalPreorder<T(!new)>(le: (T, T) -> bool) {
    && (forall a, b :: le(a, b) || le(b, a))
    && (forall a, b, c :: le(a, b) && le(b, c) ==> le(a, c))
  }

  ghost predicate Antisymmetric<T(!new)>(le: (T, T) -> bool) {
    forall a, b :: le(a, b) && le(b, a) ==> a == b
  }

  ghost predicate Sorted<T>(s: seq<T>, le: (T, T) -> bool) {
    forall i, j :: 0 <= i < j < |s| ==> le(s[i], s[j])
  }

  /** Puts `x` behind everything that may stay before it. */
  function Insert<T>(s: seq<T>, x: T, le: (T, T) -> bool): seq<T> {
    if s == [] || le(s[|s| - 1], x) then s + [x]
    else Insert(s[..|s| - 1], x, le) + [s[|s| - 1]]
  }

  function Sort<T>(s: seq<T>, le: (T, T) -> bool): seq<T> {
    if s == [] then [] else Insert(Sort(s[..|s| - 1], le), s[|s| - 1], le)
  }

  lemma ButLast<T>(a: seq<T>)
    requires a != []
    ensures a == a[..|a| - 1] + [a[|a| - 1]]
    ensures multiset(a) == multiset(a[..|a| - 1]) + multiset{a[|a| - 1]}
  {
    assert a == a[..|a| - 1] + [a[|a| - 1]];
  }

  lemma {:induction false} InsertMultiset<T>(s: seq<T>, x: T, le: (T, T) -> bool)
    ensures multiset(Insert(s, x, le)) == multiset(s) + multiset{x}
    ensures |Insert(s, x, le)| == |s| + 1
  {
    if s != [] && !le(s[|s| - 1], x) {
      InsertMultiset(s[..|s| - 1], x, le);
      ButLast(s);
    }
  }

  lemma {:induction false} InsertMembers<T>(s: seq<T>, x: T, le: (T, T) -> bool, y: T)
    requires y in Insert(s, x, le)
    ensures y == x || y in s
  {
    if s != [] && !le(s[|s| - 1], x) && y != s[|s| - 1] {
      InsertMembers(s[..|s| - 1], x, le, y);
    }
  }

  lemma {:induction false} InsertSorted<T(!new)>(s: seq<T>, x: T, le: (T, T) -> bool)
    requires TotalPreorder(le) && Sorted(s, le)
    ensures Sorted(Insert(s, x, le), le)
  {
    if s == [] {
    } else if le(s[|s| - 1], x) {
      var n := |s| - 1;
      forall i | 0 <= i < |s| ensures le(s[i], x) {
        if i < n { assert le(s[i], s[n]) && le(s[n], x); }
      }
    } else {
      var n := |s| - 1;
      InsertSorted(s[..n], x, le);
      var r := Insert(s[..n], x, le);
      forall i | 0 <= i < |r| ensures le(r[i], s[n]) {
        InsertMembers(s[..n], x, le, r[i]);
        if r[i] != x {
          var j :| 0 <= j < n && s[..n][j] == r[i];
          assert le(s[j], s[n]);
        }
      }
    }
  }

  lemma {:induction false} SortMultiset<T>(s: seq<T>, le: (T, T) -> bool)
    ensures multiset(Sort(s, le)) == multiset(s) && |Sort(s, le)| == |s|
  {
    if s != [] {
      SortMultiset(s[..|s| - 1], le);
      InsertMultiset(Sort(s[..|s| - 1], le), s[|s| - 1], le);
      ButLast(s);
    }
  }

  lemma SortKeepsMembers<T>(s: seq<T>, le: (T, T) -> bool, x: T)
    ensures x in Sort(s, le) <==> x in s
  {
    SortMultiset(s, le);
    assert x in multiset(Sort(s, le)) <==> x in multiset(s);
  }

  lemma {:induction false} SortSorts<T(!new)>(s: seq<T>, le: (T, T) -> bool)
    requires TotalPreorder(le)
    ensures Sorted(Sort(s, le), le)
  {
    if s != [] {
      SortSorts(s[..|s| - 1], le);
      InsertSorted(Sort(s[..|s| - 1], le), s[|s| - 1], le);
    }
  }

  lemma SortShape<T(!new)>(s: seq<T>, le: (T, T) -> bool)
    requires TotalPreorder(le)
    ensures Sorted(Sort(s, le), le)
    ensures multiset(Sort(s, le)) == multiset(s) && |Sort(s, le)| == |s|
  {
    SortSorts(s, le);
    SortMultiset(s, le);
  }

  lemma SortMembers<T(!new)>(s: seq<T>, le: (T, T) -> bool)
    requires TotalPreorder(le)
    ensures |Sort(s, le)| == |s|
    ensures forall x :: x in Sort(s, le) <==> x in s
  {
    SortShape(s, le);
    forall x ensures x in Sort(s, le) <==> x in s {
      assert x in multiset(Sort(s, le)) <==> x in multiset(s);
    }
  }

  /** The last element of a sorted arrangement is above everything in it. */
  lemma LastIsTop<T(!new)>(a: seq<T>, x: T, le: (T, T) -> bool)
    requires TotalPreorder(le) && Sorted(a, le) && x in a
    ensures le(x, a[|a| - 1])
  {
    var i :| 0 <= i < |a| && a[i] == x;
    if i == |a| - 1 { assert le(x, x); }
  }

  /** Two sorted arrangements of the same elements end with the same element. */
  lemma SameTop<T(!new)>(a: seq<T>, b: seq<T>, le: (T, T) -> bool)
    requires TotalPreorder(le) && Antisymmetric(le) && Sorted(a, le) && Sorted(b, le)
    requires multiset(a) == multiset(b) && a != [] && b != []
    ensures a[|a| - 1] == b[|b| - 1]
  {
    var x, y := a[|a| - 1], b[|b| - 1];
    assert x in multiset(b) && y in multiset(a);
    LastIsTop(a, y, le);
    LastIsTop(b, x, le);
  }

  lemma SameLength<T>(a: seq<T>, b: seq<T>)
    requires multiset(a) == multiset(b)
    ensures |a| == |b|
  {
    assert |multiset(a)| == |multiset(b)|;
  }

  lemma SameBelowTop<T>(a: seq<T>, b: seq<T>)
    requires |a| == |b| && a != [] && a[|a| - 1] == b[|b| - 1] && multiset(a) == multiset(b)
    ensures multiset(a[..|a| - 1]) == multiset(b[..|b| - 1])
  {
    ButLast(a);
    ButLast(b);
    var n, top := |a| - 1, multiset{a[|a| - 1]};
    assert multiset(a[..n]) == multiset(a) - top && multiset(b[..n]) == multiset(b) - top;
  }

  /** A sorted arrangement is determined by what it contains if no two elements tie. */
  lemma {:induction false} SortedUnique<T(!new)>(a: seq<T>, b: seq<T>, le: (T, T) -> bool)
    requires TotalPreorder(le) && Antisymmetric(le) && Sorted(a, le) && Sorted(b, le)
    requires multiset(a) == multiset(b)
    ensures a == b
  {
    SameLength(a, b);
    if a != [] {
      SameTop(a, b, le);
      SameBelowTop(a, b);
      SortedUnique(a[..|a| - 1], b[..|b| - 1], le);
      assert a == a[..|a| - 1] + [a[|a| - 1]] && b == b[..|b| - 1] + [b[|b| - 1]];
    }
  }

  /** Without ties the result of a sort does not depend on the order of the input. */
  lemma SortIgnoresOrder<T(!new)>(a: seq<T>, b: seq<T>, le: (T, T) -> bool)
    requires TotalPreorder(le) && Antisymmetric(le) && multiset(a) == multiset(b)
    ensures Sort(a, le) == Sort(b, le)
  {
    SortShape(a, le);
    SortShape(b, le);
    SortedUnique(Sort(a, le), Sort(b, le), le);
  }

  lemma {:induction false} SortDistinct<T(!new)>(s: seq<T>, le: (T, T) -> bool)
    requires TotalPreorder(le)
    requires forall i, j :: 0 <= i < j < |s| ==> s[i] != s[j]
    ensures forall i, j :: 0 <= i < j < |s| ==> |Sort(s, le)| == |s| && Sort(s, le)[i] != Sort(s, le)[j]
  {
    SortShape(s, le);
    var r := Sort(s, le);
    forall i, j | 0 <= i < j < |s| ensures r[i] != r[j] {
      if r[i] == r[j] {
        assert r == r[..i] + [r[i]] + r[i + 1..j] + [r[j]] + r[j + 1..];
        assert multiset(r)[r[i]] >= 2;
        OnceIfDistinct(s, r[i]);
      }
    }
  }

  lemma {:induction false} OnceIfDistinct<T>(s: seq<T>, x: T)
    requires forall i, j :: 0 <= i < j < |s| ==> s[i] != s[j]
    ensures multiset(s)[x] <= 1
  {
    if s != [] {
      var n := |s| - 1;
      OnceIfDistinct(s[..n], x);
      assert s == s[..n] + [s[n]];
      if s[n] == x { assert x !in s[..n]; }
    }
  }
}
