/** The orders the ordered containers of the C++ code keep their keys
    in: std::string comparison for std::map<std::string, …> keys, and
    std::filesystem::path comparison for std::set<path> of canonical
    paths (comparing the component lists lexicographically is comparing
    the strings with '/' ranked below every other character). */
module Ordering {

  /** The rank of a character: its code, except that '/' ranks lowest
      when paths are compared. */
  function Rank(c: char, paths: bool): int
  {
    if paths && c == '/' then -1 else c as int
  }

  /** Strict lexicographic order on strings. */
  predicate Less(a: string, b: string, paths: bool)
    decreases |a|
  {
    if a == [] then b != []
    else if b == [] then false
    else if a[0] != b[0] then Rank(a[0], paths) < Rank(b[0], paths)
    else Less(a[1..], b[1..], paths)
  }

  lemma {:induction false} LessIrreflexive(a: string, paths: bool)
    ensures !Less(a, a, paths)
    decreases |a|
  {
    if a != [] {
      LessIrreflexive(a[1..], paths);
    }
  }

  lemma {:induction false} LessTransitive(a: string, b: string, c: string, paths: bool)
    requires Less(a, b, paths) && Less(b, c, paths)
    ensures Less(a, c, paths)
    decreases |a|
  {
    if a != [] && a[0] == b[0] && b[0] == c[0] {
      LessTransitive(a[1..], b[1..], c[1..], paths);
    }
  }

  lemma {:induction false} LessTotal(a: string, b: string, paths: bool)
    ensures a == b || Less(a, b, paths) || Less(b, a, paths)
    decreases |a|
  {
    if a != [] && b != [] && a[0] == b[0] {
      LessTotal(a[1..], b[1..], paths);
      if a[1..] == b[1..] {
        assert a == [a[0]] + a[1..] && b == [b[0]] + b[1..];
      }
    }
  }

  lemma LessAsymmetric(a: string, b: string, paths: bool)
    requires Less(a, b, paths)
    ensures !Less(b, a, paths)
  {
    if Less(b, a, paths) {
      LessTransitive(a, b, a, paths);
      LessIrreflexive(a, paths);
    }
  }

  /** Strictly increasing: sorted and free of duplicates. */
  predicate Sorted(xs: seq<string>, paths: bool)
  {
    forall i, j :: 0 <= i < j < |xs| ==> Less(xs[i], xs[j], paths)
  }

  function Elems(xs: seq<string>): set<string>
  {
    set x | x in xs
  }

  /** Each string at most once. */
  predicate Distinct(s: seq<string>)
  {
    forall i, j :: 0 <= i < j < |s| ==> s[i] != s[j]
  }

  /** A strictly sorted sequence holds each string once. */
  lemma SortedDistinct(xs: seq<string>, paths: bool, i: nat, j: nat)
    requires Sorted(xs, paths) && i < j < |xs|
    ensures xs[i] != xs[j]
  {
    LessIrreflexive(xs[i], paths);
  }

  /** Two strictly sorted sequences of the same strings are equal: an
      ordered container has one iteration order. */
  lemma {:induction false} SortedUnique(a: seq<string>, b: seq<string>, paths: bool)
    requires Sorted(a, paths) && Sorted(b, paths) && Elems(a) == Elems(b)
    ensures a == b
  {
    if a == [] {
      assert forall k :: 0 <= k < |b| ==> b[k] in Elems(b);
    } else {
      assert a[0] in Elems(b);
      assert b != [];
      assert b[0] in Elems(a);
      var i :| 0 <= i < |a| && a[i] == b[0];
      var j :| 0 <= j < |b| && b[j] == a[0];
      if i > 0 && j > 0 {
        LessAsymmetric(a[0], a[i], paths);
      }
      assert a[0] == b[0];
      forall x
        ensures x in Elems(a[1..]) <==> x in Elems(b[1..])
      {
        if x in Elems(a[1..]) {
          var k :| 0 <= k < |a[1..]| && a[1..][k] == x;
          SortedDistinct(a, paths, 0, k + 1);
          assert x in Elems(b);
        }
        if x in Elems(b[1..]) {
          var k :| 0 <= k < |b[1..]| && b[1..][k] == x;
          SortedDistinct(b, paths, 0, k + 1);
          assert x in Elems(a);
        }
      }
      SortedUnique(a[1..], b[1..], paths);
      assert a == [a[0]] + a[1..] && b == [b[0]] + b[1..];
    }
  }

  /** Insertion into an ordered set held as a sorted sequence
      (std::set::insert). */
  function Insert(xs: seq<string>, x: string, paths: bool): (r: seq<string>)
    requires Sorted(xs, paths)
    ensures Sorted(r, paths)
    ensures Elems(r) == Elems(xs) + {x}
  {
    if xs == [] then [x]
    else if x == xs[0] then xs
    else if Less(x, xs[0], paths) then
      assert forall j :: 0 < j < |xs| ==> Less(x, xs[j], paths) by {
        forall j | 0 < j < |xs| {
          LessTransitive(x, xs[0], xs[j], paths);
        }
      }
      [x] + xs
    else
      LessTotal(x, xs[0], paths);
      var rest := Insert(xs[1..], x, paths);
      forall y | y in rest
        ensures Less(xs[0], y, paths)
      {
        assert y in Elems(rest);
        if y != x {
          assert y in Elems(xs[1..]);
          var k :| 0 <= k < |xs[1..]| && xs[1..][k] == y;
          assert xs[k + 1] == y;
        }
      }
      assert Elems(xs) == {xs[0]} + Elems(xs[1..]) by {
        assert xs == [xs[0]] + xs[1..];
      }
      assert Elems([xs[0]] + rest) == {xs[0]} + Elems(rest);
      [xs[0]] + rest
  }

  /** Every non-empty finite set of strings has a least element. */
  lemma {:induction false} HasLeast(s: set<string>, paths: bool)
    requires s != {}
    ensures exists m :: m in s && forall x :: x in s && x != m ==> Less(m, x, paths)
    decreases |s|
  {
    var y :| y in s;
    if s == {y} {
      assert forall x :: x in s && x != y ==> Less(y, x, paths);
    } else {
      var rest := s - {y};
      HasLeast(rest, paths);
      var m :| m in rest && forall x :: x in rest && x != m ==> Less(m, x, paths);
      LessTotal(m, y, paths);
      if Less(m, y, paths) {
        assert forall x :: x in s && x != m ==> Less(m, x, paths);
      } else {
        forall x | x in s && x != y
          ensures Less(y, x, paths)
        {
          if x != m {
            LessTransitive(y, m, x, paths);
          }
        }
      }
    }
  }

  /** The least element of a non-empty set. */
  function Least(s: set<string>, paths: bool): (m: string)
    requires s != {}
    ensures m in s && forall x :: x in s && x != m ==> Less(m, x, paths)
  {
    HasLeast(s, paths);
    var m :| m in s && forall x :: x in s && x != m ==> Less(m, x, paths);
    assert forall m' :: m' in s && (forall x :: x in s && x != m' ==> Less(m', x, paths)) ==> m' == m by {
      forall m' | m' in s && (forall x :: x in s && x != m' ==> Less(m', x, paths))
        ensures m' == m
      {
        if m' != m {
          LessAsymmetric(m, m', paths);
        }
      }
    }
    m
  }

  /** The elements of a set in increasing order: the order in which an
      ordered container iterates its keys. */
  function InOrder(s: set<string>, paths: bool): (r: seq<string>)
    ensures |r| == |s|
    decreases |s|
  {
    if s == {} then []
    else
      var m := Least(s, paths);
      [m] + InOrder(s - {m}, paths)
  }

  /** InOrder lists exactly the set's elements, strictly increasing. */
  lemma {:induction false} InOrderSorted(s: set<string>, paths: bool)
    ensures Sorted(InOrder(s, paths), paths)
    ensures Elems(InOrder(s, paths)) == s
    decreases |s|
  {
    if s != {} {
      var m := Least(s, paths);
      var rest := InOrder(s - {m}, paths);
      InOrderSorted(s - {m}, paths);
      assert InOrder(s, paths) == [m] + rest;
      SortedCons(m, rest, paths);
    }
  }

  /** A string below every element of a sorted list heads a sorted list. */
  lemma SortedCons(m: string, rest: seq<string>, paths: bool)
    requires Sorted(rest, paths)
    requires forall x :: x in Elems(rest) ==> Less(m, x, paths)
    ensures Sorted([m] + rest, paths)
    ensures Elems([m] + rest) == {m} + Elems(rest)
  {
    var r := [m] + rest;
    forall i, j | 0 <= i < j < |r|
      ensures Less(r[i], r[j], paths)
    {
      assert r[j] == rest[j - 1];
      if i == 0 {
        assert rest[j - 1] in Elems(rest);
      } else {
        assert r[i] == rest[i - 1];
      }
    }
  }

  /** Every listed element is in the set. */
  lemma InOrderMember(s: set<string>, paths: bool, i: nat)
    requires i < |InOrder(s, paths)|
    ensures InOrder(s, paths)[i] in s
  {
    InOrderSorted(s, paths);
    assert InOrder(s, paths)[i] in Elems(InOrder(s, paths));
  }

  lemma InOrderDistinct(s: set<string>, paths: bool)
    ensures Distinct(InOrder(s, paths))
  {
    var r := InOrder(s, paths);
    InOrderSorted(s, paths);
    forall i, j | 0 <= i < j < |r|
      ensures r[i] != r[j]
    {
      SortedDistinct(r, paths, i, j);
    }
  }
}
