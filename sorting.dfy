/**
  The listing's sort: URLs into descending order of their last path
  component. It is written here as an insertion sort; for URLs with distinct
  names (the entries of one directory) every correct sort gives the same
  result, which `DescendingUnique` proves, so the algorithm is not observable.
 */
module Sorting {
  import opened StringOrder
  import opened Paths

  /** No name is below the name after it: what `sorted(by: >)` guarantees. */
  predicate NonIncreasing(s: seq<Url>)
  {
    forall i :: 0 < i < |s| ==> !Below(s[i - 1].name, s[i].name)
  }

  /** Every name is below every name before it. */
  predicate StrictlyDescending(s: seq<Url>)
  {
    forall i, j :: 0 <= i < j < |s| ==> Below(s[j].name, s[i].name)
  }

  predicate DistinctNames(s: seq<Url>)
  {
    forall i, j :: 0 <= i < j < |s| ==> s[i].name != s[j].name
  }

  /** Puts `u` in front of the first element whose name is not above its own. */
  function Insert(u: Url, s: seq<Url>): (r: seq<Url>)
    requires NonIncreasing(s)
    ensures NonIncreasing(r)
    ensures multiset(r) == multiset(s) + multiset{u}
    ensures r[0] == u || (s != [] && r[0] == s[0])
  {
    if s == [] then [u]
    else if !Below(u.name, s[0].name) then [u] + s
    else
      BelowAsymmetric(u.name, s[0].name);
      assert s == [s[0]] + s[1..];
      [s[0]] + Insert(u, s[1..])
  }

  function SortByNameDesc(s: seq<Url>): (r: seq<Url>)
    ensures NonIncreasing(r)
    ensures multiset(r) == multiset(s)
  {
    if s == [] then []
    else
      assert s == [s[0]] + s[1..];
      Insert(s[0], SortByNameDesc(s[1..]))
  }

  /** A sorted sequence without repeated names is strictly descending. */
  lemma {:induction false} StrictWhenDistinct(s: seq<Url>)
    requires NonIncreasing(s) && DistinctNames(s)
    ensures StrictlyDescending(s)
  {
    if |s| > 1 {
      var t := s[1..];
      assert NonIncreasing(t) && DistinctNames(t) by {
        forall i | 0 < i < |t| ensures !Below(t[i - 1].name, t[i].name) {
          assert t[i - 1] == s[i] && t[i] == s[i + 1];
        }
      }
      StrictWhenDistinct(t);
      BelowTotal(s[0].name, s[1].name);
      forall i, j | 0 <= i < j < |s| ensures Below(s[j].name, s[i].name) {
        if i > 0 {
          assert s[i] == t[i - 1] && s[j] == t[j - 1];
        } else if j > 1 {
          assert s[j] == t[j - 1] && s[1] == t[0];
          BelowTransitive(s[j].name, s[1].name, s[0].name);
        }
      }
    }
  }

  lemma StrictIsDistinct(s: seq<Url>)
    requires StrictlyDescending(s)
    ensures DistinctNames(s)
  {
    forall i, j | 0 <= i < j < |s| ensures s[i].name != s[j].name {
      BelowIrreflexive(s[i].name);
    }
  }

  /**
    Two strictly descending sequences with the same elements are equal: the
    listing of a directory does not depend on the order in which the file
    system enumerates it, nor on the sorting algorithm.
   */
  lemma {:induction false} DescendingUnique(r1: seq<Url>, r2: seq<Url>)
    requires StrictlyDescending(r1) && StrictlyDescending(r2)
    requires forall u :: u in r1 <==> u in r2
    ensures r1 == r2
  {
    if r1 != [] {
      assert r1[0] in r2;
    }
    if r2 != [] {
      assert r2[0] in r1;
    }
    if r1 != [] {
      var k :| 0 <= k < |r2| && r2[k] == r1[0];
      var j :| 0 <= j < |r1| && r1[j] == r2[0];
      if k > 0 {
        if j > 0 {
          BelowAsymmetric(r1[j].name, r1[0].name);
        } else {
          BelowIrreflexive(r2[0].name);
        }
        assert false;
      }
      StrictIsDistinct(r1);
      StrictIsDistinct(r2);
      var t1, t2 := r1[1..], r2[1..];
      forall u ensures u in t1 <==> u in t2 {
        if u in t1 {
          var i :| 0 < i < |r1| && r1[i] == u;
          assert u in r1 && u in r2;
          var m :| 0 <= m < |r2| && r2[m] == u;
          assert m != 0;
          assert u == t2[m - 1];
        }
        if u in t2 {
          var i :| 0 < i < |r2| && r2[i] == u;
          assert u in r2 && u in r1;
          var m :| 0 <= m < |r1| && r1[m] == u;
          assert m != 0;
          assert u == t1[m - 1];
        }
      }
      assert StrictlyDescending(t1) by {
        forall i, j | 0 <= i < j < |t1| ensures Below(t1[j].name, t1[i].name) {
          assert t1[i] == r1[i + 1] && t1[j] == r1[j + 1];
        }
      }
      assert StrictlyDescending(t2) by {
        forall i, j | 0 <= i < j < |t2| ensures Below(t2[j].name, t2[i].name) {
          assert t2[i] == r2[i + 1] && t2[j] == r2[j + 1];
        }
      }
      DescendingUnique(t1, t2);
      assert r1 == [r1[0]] + t1 && r2 == [r2[0]] + t2;
    }
  }

  /**
    The sort of URLs with distinct names is strictly descending, and holds
    exactly the URLs it was given.
   */
  lemma SortedListing(s: seq<Url>)
    requires DistinctNames(s)
    ensures StrictlyDescending(SortByNameDesc(s))
    ensures forall u :: u in SortByNameDesc(s) <==> u in s
    ensures |SortByNameDesc(s)| == |s|
  {
    var r := SortByNameDesc(s);
    assert forall u :: u in r <==> u in multiset(r);
    assert forall u :: u in s <==> u in multiset(s);
    assert |r| == |multiset(r)| == |multiset(s)| == |s|;
    assert DistinctNames(r) by {
      forall i, j | 0 <= i < j < |r| ensures r[i].name != r[j].name {
        if r[i].name == r[j].name {
          assert r[i] in multiset(s) && r[j] in multiset(s);
          SameNameSameUrl(s, r[i], r[j]);
          TwoOccurrences(r, i, j);
          DistinctMultiplicity(s, r[i]);
          assert false;
        }
      }
    }
    StrictWhenDistinct(r);
  }

  lemma SameNameSameUrl(s: seq<Url>, x: Url, y: Url)
    requires DistinctNames(s) && x in s && y in s && x.name == y.name
    ensures x == y
  {
    var a :| 0 <= a < |s| && s[a] == x;
    var b :| 0 <= b < |s| && s[b] == y;
    if a < b || b < a {
      assert false;
    }
  }

  lemma DistinctMultiplicity(s: seq<Url>, u: Url)
    requires DistinctNames(s)
    ensures multiset(s)[u] <= 1
  {
    if s != [] {
      assert s == [s[0]] + s[1..];
      assert DistinctNames(s[1..]) by {
        forall i, j | 0 <= i < j < |s[1..]| ensures s[1..][i].name != s[1..][j].name {
          assert s[1..][i] == s[i + 1] && s[1..][j] == s[j + 1];
        }
      }
      DistinctMultiplicity(s[1..], u);
      if u == s[0] {
        assert u !in s[1..];
      }
    }
  }

  lemma TwoOccurrences(r: seq<Url>, i: nat, j: nat)
    requires i < j < |r| && r[i] == r[j]
    ensures multiset(r)[r[i]] >= 2
  {
    assert r == r[..j] + [r[j]] + r[j + 1..];
    assert r[..j][i] == r[i];
    assert r[i] in multiset(r[..j]);
  }
}
