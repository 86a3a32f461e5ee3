/**
 The library sort the sources call (`Array.prototype.sort`, which is stable), as a
 functional insertion sort under a comparison, with the facts the callers rely on: it
 permutes, it orders, and on elements the comparison tells apart its result depends only
 on which elements went in. The three orders used by the program are given at the end.
 */
module Sorting {
  import opened Basics

  ghost predicate StrictWeak<T(!new)>(less: (T, T) -> bool) {
    && (forall x :: !less(x, x))
    && (forall x, y, z :: less(x, y) && less(y, z) ==> less(x, z))
    && (forall x, y, z :: !less(x, y) && !less(y, z) ==> !less(x, z))
  }

  ghost predicate SortedBy<T>(less: (T, T) -> bool, s: seq<T>) {
    forall i, j :: 0 <= i < j < |s| ==> !less(s[j], s[i])
  }

  /** No two different members compare as equal. */
  ghost predicate Separates<T>(less: (T, T) -> bool, s: seq<T>) {
    forall x, y :: x in s && y in s && x != y ==> less(x, y) || less(y, x)
  }

  /** Places x after every member it is not below (stability). */
  function Insert<T>(less: (T, T) -> bool, s: seq<T>, x: T): (r: seq<T>)
    ensures |r| == |s| + 1
    ensures multiset(r) == multiset(s) + multiset{x}
  {
    if s == [] then [x]
    else
      var last := |s| - 1;
      assert s == s[..last] + [s[last]];
      if less(x, s[last]) then Insert(less, s[..last], x) + [s[last]]
      else s + [x]
  }

  function Sort<T>(less: (T, T) -> bool, s: seq<T>): (r: seq<T>)
    ensures |r| == |s|
    ensures multiset(r) == multiset(s)
  {
    if s == [] then []
    else
      assert s == s[..|s| - 1] + [s[|s| - 1]];
      Insert(less, Sort(less, s[..|s| - 1]), s[|s| - 1])
  }

  lemma {:induction false} InsertSorted<T(!new)>(less: (T, T) -> bool, s: seq<T>, x: T)
    requires StrictWeak(less) && SortedBy(less, s)
    ensures SortedBy(less, Insert(less, s, x))
  {
    if s != [] {
      var last := |s| - 1;
      var r := Insert(less, s, x);
      if less(x, s[last]) {
        var front := Insert(less, s[..last], x);
        InsertSorted(less, s[..last], x);
        forall i | 0 <= i < |front| ensures !less(s[last], front[i]) {
          assert front[i] in multiset(front);
          if front[i] != x {
            assert front[i] in multiset(s[..last]);
            assert front[i] in s[..last];
          }
        }
      } else {
        forall i | 0 <= i < last ensures !less(x, s[i]) {
          assert !less(s[last], s[i]);
        }
      }
    }
  }

  lemma {:induction false} SortSorts<T(!new)>(less: (T, T) -> bool, s: seq<T>)
    requires StrictWeak(less)
    ensures SortedBy(less, Sort(less, s))
  {
    if s != [] {
      SortSorts(less, s[..|s| - 1]);
      InsertSorted(less, Sort(less, s[..|s| - 1]), s[|s| - 1]);
    }
  }

  lemma SameMembers<T>(s: seq<T>, t: seq<T>)
    requires multiset(s) == multiset(t)
    ensures |s| == |t|
    ensures forall x :: x in s <==> x in t
  {
    assert |multiset(s)| == |multiset(t)|;
    forall x ensures x in s <==> x in t {
      assert x in s <==> x in multiset(s);
      assert x in t <==> x in multiset(t);
    }
  }

  lemma LastsAgree<T>(less: (T, T) -> bool, s: seq<T>, t: seq<T>)
    requires s != [] && t != []
    requires Separates(less, s) && SortedBy(less, s) && SortedBy(less, t)
    requires s[|s| - 1] in t && t[|t| - 1] in s
    ensures s[|s| - 1] == t[|t| - 1]
  {
    var x, y := s[|s| - 1], t[|t| - 1];
    var i :| 0 <= i < |t| && t[i] == x;
    var j :| 0 <= j < |s| && s[j] == y;
    assert x in s;
  }

  lemma WithoutLast<T>(s: seq<T>)
    requires s != []
    ensures s == s[..|s| - 1] + [s[|s| - 1]]
    ensures multiset(s[..|s| - 1]) == multiset(s) - multiset{s[|s| - 1]}
  {
    assert s == s[..|s| - 1] + [s[|s| - 1]];
  }

  /** Two ordered arrangements of the same members are the same sequence. */
  lemma {:induction false} SortedUnique<T>(less: (T, T) -> bool, s: seq<T>, t: seq<T>)
    requires Separates(less, s)
    requires SortedBy(less, s) && SortedBy(less, t)
    requires multiset(s) == multiset(t)
    ensures s == t
  {
    SameMembers(s, t);
    if s != [] {
      var last := |s| - 1;
      assert s[last] in s && t[last] in t;
      LastsAgree(less, s, t);
      WithoutLast(s);
      WithoutLast(t);
      SortedUnique(less, s[..last], t[..last]);
    }
  }

  lemma SortOfShuffle<T(!new)>(less: (T, T) -> bool, s: seq<T>, t: seq<T>)
    requires StrictWeak(less) && Separates(less, s)
    requires multiset(s) == multiset(t)
    ensures Sort(less, s) == Sort(less, t)
  {
    SortSorts(less, s);
    SortSorts(less, t);
    SameMembers(s, Sort(less, s));
    SortedUnique(less, Sort(less, s), Sort(less, t));
  }

  /** A stable sort leaves an ordered sequence alone (no uniqueness needed). */
  lemma {:induction false} SortIsIdentityOnSorted<T>(less: (T, T) -> bool, s: seq<T>)
    requires SortedBy(less, s)
    ensures Sort(less, s) == s
  {
    if s != [] {
      var last := |s| - 1;
      SortIsIdentityOnSorted(less, s[..last]);
      assert s == s[..last] + [s[last]];
      if last > 0 {
        assert !less(s[last], s[last - 1]);
      }
    }
  }

  lemma SortKeepsMembers<T>(less: (T, T) -> bool, s: seq<T>)
    ensures forall x :: x in Sort(less, s) <==> x in s
  {
    SameMembers(s, Sort(less, s));
  }

  lemma DistinctIsMultiplicityOne<T>(s: seq<T>)
    requires Distinct(s)
    ensures forall x :: x in s ==> multiset(s)[x] == 1
  {
    forall x | x in s ensures multiset(s)[x] == 1 {
      DistinctOnce(s, x);
    }
  }

  lemma {:induction false} DistinctOnce<T>(s: seq<T>, x: T)
    requires Distinct(s) && x in s
    ensures multiset(s)[x] == 1
  {
    var last := |s| - 1;
    assert s == s[..last] + [s[last]];
    if s[last] == x {
      assert x !in s[..last];
    } else {
      DistinctOnce(s[..last], x);
    }
  }

  lemma {:induction false} OnceIsDistinct<T>(s: seq<T>)
    requires forall x :: x in s ==> multiset(s)[x] == 1
    ensures Distinct(s)
  {
    forall i, j | 0 <= i < j < |s| ensures s[i] != s[j] {
      var before, after := s[..j], s[j..];
      assert s == before + after;
      assert s[i] in before && s[j] in after;
      assert multiset(s)[s[i]] == multiset(before)[s[i]] + multiset(after)[s[i]];
    }
  }

  lemma SortKeepsDistinct<T>(less: (T, T) -> bool, s: seq<T>)
    requires Distinct(s)
    ensures Distinct(Sort(less, s))
  {
    DistinctIsMultiplicityOne(s);
    SameMembers(s, Sort(less, s));
    OnceIsDistinct(Sort(less, s));
  }

  // --- Integers ascending ---

  function IntLess(): (int, int) -> bool { (a: int, b: int) => a < b }

  /** Times that may stand still but never go back. */
  ghost predicate NeverBack(ts: seq<int>) {
    forall i, j :: 0 <= i < j < |ts| ==> ts[i] <= ts[j]
  }

  ghost predicate Ascending(s: seq<int>) {
    forall i, j :: 0 <= i < j < |s| ==> s[i] < s[j]
  }

  /** The members of s that are natural numbers below n, ascending. */
  function AscendingBelow(s: set<int>, n: nat): (r: seq<int>)
    ensures Ascending(r)
    ensures forall x :: x in r <==> x in s && 0 <= x < n
  {
    if n == 0 then []
    else if n - 1 in s then
      var rest := AscendingBelow(s, n - 1);
      assert forall i :: 0 <= i < |rest| ==> rest[i] in rest;
      rest + [n - 1]
    else AscendingBelow(s, n - 1)
  }

  lemma LastIsGreatest(s: seq<int>, x: int)
    requires Ascending(s) && x in s
    ensures x <= s[|s| - 1]
    ensures x in s[..|s| - 1] <==> x != s[|s| - 1]
  {
    var last := |s| - 1;
    var k :| 0 <= k < |s| && s[k] == x;
    if k < last { assert s[..last][k] == x; }
    if x in s[..last] {
      var m :| 0 <= m < last && s[..last][m] == x;
      assert s[m] < s[last];
    }
  }

  lemma {:induction false} AscendingUnique(s: seq<int>, t: seq<int>)
    requires Ascending(s) && Ascending(t)
    requires forall x :: x in s <==> x in t
    ensures s == t
  {
    assert s != [] ==> s[0] in s;
    assert t != [] ==> t[0] in t;
    if s != [] && t != [] {
      var a, b := |s| - 1, |t| - 1;
      assert s[a] in s && t[b] in t;
      LastIsGreatest(s, t[b]);
      LastIsGreatest(t, s[a]);
      forall x ensures x in s[..a] <==> x in t[..b] {
        if x in s { LastIsGreatest(s, x); LastIsGreatest(t, x); }
      }
      AscendingUnique(s[..a], t[..b]);
      assert s == s[..a] + [s[a]] && t == t[..b] + [t[b]];
    }
  }

  // --- User ids, by code unit ---

  predicate StringLess(a: string, b: string) {
    if b == [] then false
    else if a == [] then true
    else a[0] < b[0] || (a[0] == b[0] && StringLess(a[1..], b[1..]))
  }

  lemma {:induction false} StringIrreflexive(a: string)
    ensures !StringLess(a, a)
  {
    if a != [] { StringIrreflexive(a[1..]); }
  }

  lemma {:induction false} StringTotal(a: string, b: string)
    ensures a == b || StringLess(a, b) || StringLess(b, a)
  {
    if a != [] && b != [] {
      if a[0] == b[0] {
        StringTotal(a[1..], b[1..]);
        assert a == [a[0]] + a[1..] && b == [b[0]] + b[1..];
      }
    }
  }

  lemma {:induction false} StringTransitive(a: string, b: string, c: string)
    requires StringLess(a, b) && StringLess(b, c)
    ensures StringLess(a, c)
  {
    if a != [] && a[0] == b[0] && b[0] == c[0] {
      StringTransitive(a[1..], b[1..], c[1..]);
    }
  }

  /** A named comparison, so that a quantifier has a term to hang on. */
  function IdLess(): (string, string) -> bool { (a: string, b: string) => StringLess(a, b) }

  lemma StringOrderIsTotal()
    ensures StrictWeak(IdLess())
    ensures forall a, b :: a == b || StringLess(a, b) || StringLess(b, a)
    ensures forall a, b :: !(StringLess(a, b) && StringLess(b, a))
  {
    forall a ensures !StringLess(a, a) { StringIrreflexive(a); }
    forall a, b ensures a == b || StringLess(a, b) || StringLess(b, a) { StringTotal(a, b); }
    forall a, b, c | StringLess(a, b) && StringLess(b, c) ensures StringLess(a, c) {
      StringTransitive(a, b, c);
    }
  }
}
