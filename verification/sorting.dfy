/** Python's ordering of strings (code point by code point) and sorted() on a list of strings. */
module Sorting {

  /** a <= b in Python's lexicographic string order. */
  predicate LessEq(a: string, b: string)
  {
    a == [] || (b != [] && (a[0] < b[0] || (a[0] == b[0] && LessEq(a[1..], b[1..]))))
  }

  lemma {:induction false} LessEqTotal(a: string, b: string)
    ensures LessEq(a, b) || LessEq(b, a)
  {
    if a != [] && b != [] && a[0] == b[0] {
      LessEqTotal(a[1..], b[1..]);
    }
  }

  lemma {:induction false} LessEqTransitive(a: string, b: string, c: string)
    requires LessEq(a, b) && LessEq(b, c)
    ensures LessEq(a, c)
  {
    if a != [] && b != [] && c != [] && a[0] == b[0] == c[0] {
      LessEqTransitive(a[1..], b[1..], c[1..]);
    }
  }

  lemma {:induction false} LessEqAntisymmetric(a: string, b: string)
    requires LessEq(a, b) && LessEq(b, a)
    ensures a == b
  {
    if a != [] && b != [] {
      LessEqAntisymmetric(a[1..], b[1..]);
      assert a == [a[0]] + a[1..] && b == [b[0]] + b[1..];
    }
  }

  predicate Sorted(s: seq<string>)
  {
    forall i, j :: 0 <= i < j < |s| ==> LessEq(s[i], s[j])
  }

  predicate NoDuplicates<T(==)>(s: seq<T>)
  {
    forall i, j :: 0 <= i < j < |s| ==> s[i] != s[j]
  }

  /** A lower bound of every element of u and of x bounds every element of a list holding exactly those. */
  lemma {:induction false} BelowAll(b: string, x: string, u: seq<string>, t: seq<string>)
    requires forall k :: 0 <= k < |u| ==> LessEq(b, u[k])
    requires LessEq(b, x)
    requires multiset(t) == multiset(u) + multiset{x}
    ensures forall k :: 0 <= k < |t| ==> LessEq(b, t[k])
  {
    forall k | 0 <= k < |t| ensures LessEq(b, t[k]) {
      assert t[k] in multiset(t);
      if t[k] != x {
        assert t[k] in multiset(u);
        var j :| 0 <= j < |u| && u[j] == t[k];
      }
    }
  }

  /** A sorted list stays sorted with a lower bound of its elements put in front. */
  lemma {:induction false} ConsSorted(a: string, t: seq<string>)
    requires Sorted(t)
    requires forall k :: 0 <= k < |t| ==> LessEq(a, t[k])
    ensures Sorted([a] + t)
  {
    var r := [a] + t;
    forall i, j | 0 <= i < j < |r| ensures LessEq(r[i], r[j]) {
      assert r[j] == t[j - 1];
      if i > 0 {
        assert r[i] == t[i - 1];
      }
    }
  }

  /** x put before the first element of s it does not exceed. */
  function Insert(x: string, s: seq<string>): (r: seq<string>)
    requires Sorted(s)
    ensures Sorted(r)
    ensures multiset(r) == multiset(s) + multiset{x}
  {
    if s == [] then [x]
    else if LessEq(x, s[0]) then
      assert forall j :: 0 <= j < |s| ==> LessEq(x, s[j]) by {
        forall j | 0 < j < |s| ensures LessEq(x, s[j]) { LessEqTransitive(x, s[0], s[j]); }
      }
      ConsSorted(x, s);
      [x] + s
    else
      LessEqTotal(x, s[0]);
      var u := s[1..];
      var t := Insert(x, u);
      assert s == [s[0]] + u;
      assert forall k :: 0 <= k < |u| ==> LessEq(s[0], u[k]) by {
        forall k | 0 <= k < |u| ensures LessEq(s[0], u[k]) { assert u[k] == s[k + 1]; }
      }
      BelowAll(s[0], x, u, t);
      ConsSorted(s[0], t);
      [s[0]] + t
  }

  /** sorted(s) */
  function Sort(s: seq<string>): (r: seq<string>)
    ensures Sorted(r)
    ensures multiset(r) == multiset(s)
  {
    if s == [] then [] else
      var t := Sort(s[1..]);
      assert s == [s[0]] + s[1..];
      Insert(s[0], t)
  }

  /** Sorting keeps exactly the elements, and a list without duplicates stays without them. */
  lemma {:induction false} SortKeepsElements(s: seq<string>)
    ensures forall x :: x in Sort(s) <==> x in s
    ensures NoDuplicates(s) ==> NoDuplicates(Sort(s))
  {
    var r := Sort(s);
    forall x ensures x in r <==> x in s {
      assert x in r <==> x in multiset(r);
      assert x in s <==> x in multiset(s);
    }
    if NoDuplicates(s) {
      DistinctMultiset(s);
      forall i, j | 0 <= i < j < |r| ensures r[i] != r[j] {
        if r[i] == r[j] {
          MultiplicityAtLeastTwo(r, i, j);
          assert false;
        }
      }
    }
  }

  lemma {:induction false} DistinctMultiset(s: seq<string>)
    requires NoDuplicates(s)
    ensures forall x :: multiset(s)[x] <= 1
  {
    if s != [] {
      assert s == [s[0]] + s[1..];
      DistinctMultiset(s[1..]);
      assert s[0] !in s[1..];
    }
  }

  lemma {:induction false} MultiplicityAtLeastTwo(r: seq<string>, i: nat, j: nat)
    requires i < j < |r| && r[i] == r[j]
    ensures multiset(r)[r[i]] >= 2
  {
    var x := r[i];
    assert r == r[..i] + [x] + r[i + 1..j] + [x] + r[j + 1..];
  }
}
