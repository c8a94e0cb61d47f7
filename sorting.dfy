/**
 * Kotlin's `filter { it.startsWith(prefix) }` and `sortedBy { it }` over a
 * list of repository paths, with String.compareTo's order: character by
 * character, and a proper prefix before the longer string.
 */
module Sorting {
  import opened Text

  /** `a.compareTo(b) <= 0` for Kotlin strings. */
  predicate LexLeq(a: string, b: string)
    decreases |a|
  {
    if a == [] then true
    else if b == [] then false
    else if a[0] != b[0] then a[0] < b[0]
    else LexLeq(a[1..], b[1..])
  }

  lemma {:induction false} LexLeqTotal(a: string, b: string)
    ensures LexLeq(a, b) || LexLeq(b, a)
    decreases |a|
  {
    if a != [] && b != [] && a[0] == b[0] {
      LexLeqTotal(a[1..], b[1..]);
    }
  }

  lemma {:induction false} LexLeqTransitive(a: string, b: string, c: string)
    requires LexLeq(a, b) && LexLeq(b, c)
    ensures LexLeq(a, c)
    decreases |a|
  {
    if a != [] && b != [] && c != [] && a[0] == b[0] && b[0] == c[0] {
      LexLeqTransitive(a[1..], b[1..], c[1..]);
    }
  }

  predicate Sorted(s: seq<string>) {
    forall i, j :: 0 <= i < j < |s| ==> LexLeq(s[i], s[j])
  }

  /** An entry no greater than every entry of a sorted sequence may go in front. */
  lemma SortedCons(y: string, s: seq<string>)
    requires Sorted(s)
    requires forall j :: 0 <= j < |s| ==> LexLeq(y, s[j])
    ensures Sorted([y] + s)
  {
    var r := [y] + s;
    forall i, j | 0 <= i < j < |r| ensures LexLeq(r[i], r[j]) {
      assert r[j] == s[j - 1];
      if i > 0 {
        assert r[i] == s[i - 1];
      }
    }
  }

  /** A lower bound of `s` and of `x` bounds every entry of a permutation of s + [x]. */
  lemma BoundsPermutation(y: string, r: seq<string>, s: seq<string>, x: string)
    requires multiset(r) == multiset(s) + multiset{x}
    requires LexLeq(y, x)
    requires forall j :: 0 <= j < |s| ==> LexLeq(y, s[j])
    ensures forall j :: 0 <= j < |r| ==> LexLeq(y, r[j])
  {
    forall j | 0 <= j < |r| ensures LexLeq(y, r[j]) {
      assert r[j] in multiset(r);
      if r[j] != x {
        assert r[j] in multiset(s);
        var k :| 0 <= k < |s| && s[k] == r[j];
      }
    }
  }

  function Insert(x: string, s: seq<string>): (r: seq<string>)
    requires Sorted(s)
    ensures Sorted(r)
    ensures multiset(r) == multiset(s) + multiset{x}
  {
    if s == [] then [x]
    else if LexLeq(x, s[0]) then
      assert forall j :: 0 <= j < |s| ==> LexLeq(x, s[j]) by {
        forall j | 0 <= j < |s| ensures LexLeq(x, s[j]) {
          if j > 0 { LexLeqTransitive(x, s[0], s[j]); }
        }
      }
      SortedCons(x, s);
      [x] + s
    else
      LexLeqTotal(x, s[0]);
      var tail := s[1..];
      assert forall j :: 0 <= j < |tail| ==> LexLeq(s[0], tail[j]) by {
        forall j | 0 <= j < |tail| ensures LexLeq(s[0], tail[j]) {
          assert tail[j] == s[j + 1];
        }
      }
      var rest := Insert(x, tail);
      BoundsPermutation(s[0], rest, tail, x);
      SortedCons(s[0], rest);
      assert s == [s[0]] + tail;
      [s[0]] + rest
  }

  /** `sortedBy { it }`: the same entries in ascending order. */
  function Sort(s: seq<string>): (r: seq<string>)
    ensures Sorted(r)
    ensures multiset(r) == multiset(s)
    ensures |r| == |s|
  {
    if s == [] then []
    else
      assert s == [s[0]] + s[1..];
      var r := Insert(s[0], Sort(s[1..]));
      assert |r| == |multiset(r)|;
      r
  }

  /** `filter { it.startsWith(prefix) }`: every entry carrying the prefix, as
      often as it occurs, and nothing else; `FilterPrefixAppend` states that
      the order is kept. */
  function FilterPrefix(s: seq<string>, prefix: string): (r: seq<string>)
    ensures forall x {:trigger x in r} :: x in r <==> x in s && StartsWith(x, prefix)
    ensures forall x {:trigger multiset(r)[x]} :: multiset(r)[x] == (if StartsWith(x, prefix) then multiset(s)[x] else 0)
    ensures |r| <= |s|
  {
    if s == [] then []
    else
      assert s == [s[0]] + s[1..];
      if StartsWith(s[0], prefix) then [s[0]] + FilterPrefix(s[1..], prefix)
      else FilterPrefix(s[1..], prefix)
  }

  /** Filtering distributes over concatenation: the kept entries of `a` all
      come before those of `b`, so the filter keeps the input's order. */
  lemma {:induction false} FilterPrefixAppend(a: seq<string>, b: seq<string>, prefix: string)
    ensures FilterPrefix(a + b, prefix) == FilterPrefix(a, prefix) + FilterPrefix(b, prefix)
  {
    var fb := FilterPrefix(b, prefix);
    if a == [] {
      assert a + b == b;
      assert FilterPrefix(a, prefix) + fb == fb;
    } else {
      var ab := a + b;
      assert ab[0] == a[0] && ab[1..] == a[1..] + b;
      FilterPrefixAppend(a[1..], b, prefix);
      var fa := FilterPrefix(a[1..], prefix);
      var rest := FilterPrefix(a[1..] + b, prefix);
      assert rest == fa + fb;
      if StartsWith(a[0], prefix) {
        assert FilterPrefix(ab, prefix) == [a[0]] + rest;
        assert FilterPrefix(a, prefix) == [a[0]] + fa;
        assert [a[0]] + (fa + fb) == ([a[0]] + fa) + fb;
      } else {
        assert FilterPrefix(ab, prefix) == rest;
        assert FilterPrefix(a, prefix) == fa;
      }
    }
  }

  predicate Distinct(s: seq<string>) {
    forall i, j :: 0 <= i < j < |s| ==> s[i] != s[j]
  }

  lemma {:induction false} FilterPrefixDistinct(s: seq<string>, prefix: string)
    requires Distinct(s)
    ensures Distinct(FilterPrefix(s, prefix))
  {
    if s != [] {
      FilterPrefixDistinct(s[1..], prefix);
      var rest := FilterPrefix(s[1..], prefix);
      assert s[0] !in s[1..];
      assert s[0] !in rest;
      if StartsWith(s[0], prefix) {
        var r := [s[0]] + rest;
        forall i, j | 0 <= i < j < |r| ensures r[i] != r[j] {
          if i == 0 {
            assert r[j] == rest[j - 1];
          } else {
            assert r[i] == rest[i - 1] && r[j] == rest[j - 1];
          }
        }
      }
    }
  }

  lemma {:induction false} DuplicateCountsTwice(s: seq<string>, i: nat, j: nat)
    requires i < j < |s| && s[i] == s[j]
    ensures multiset(s)[s[i]] >= 2
  {
    assert s == s[..i] + [s[i]] + s[i + 1..j] + [s[j]] + s[j + 1..];
  }

  lemma {:induction false} DistinctCountsOnce(s: seq<string>, x: string)
    requires Distinct(s)
    ensures multiset(s)[x] <= 1
  {
    if s != [] {
      assert s == [s[0]] + s[1..];
      assert Distinct(s[1..]) by {
        forall i, j | 0 <= i < j < |s[1..]| ensures s[1..][i] != s[1..][j] {
          assert s[1..][i] == s[i + 1] && s[1..][j] == s[j + 1];
        }
      }
      DistinctCountsOnce(s[1..], x);
      if s[0] == x {
        assert x !in s[1..];
      }
    }
  }

  /** Distinctness depends only on the multiset of entries, so sorting keeps it. */
  lemma SortKeepsDistinct(s: seq<string>)
    requires Distinct(s)
    ensures Distinct(Sort(s))
  {
    var r := Sort(s);
    forall i, j | 0 <= i < j < |r| ensures r[i] != r[j] {
      if r[i] == r[j] {
        DuplicateCountsTwice(r, i, j);
        DistinctCountsOnce(s, r[i]);
      }
    }
  }
}
