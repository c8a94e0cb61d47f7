/**
 * The few pieces of Kotlin's string library the core relies on: `isBlank`,
 * `trim`, `startsWith`, `removePrefix`, `lastIndexOf`, `replace(old, "")` and
 * the decimal rendering of an `Int` in a string template.
 */
module Text {

  /** Kotlin's `Char.isWhitespace()` on the JVM: `Character.isWhitespace` or
      `Character.isSpaceChar`, i.e. the ASCII controls TAB..CR and FS..US,
      plus every space, line and paragraph separator (Zs, Zl, Zp). */
  predicate IsWhitespace(c: char) {
    || ('\t' <= c <= '\r')
    || ('\U{1C}' <= c <= '\U{20}')
    || c == '\U{A0}' || c == '\U{1680}'
    || ('\U{2000}' <= c <= '\U{200A}')
    || c == '\U{2028}' || c == '\U{2029}'
    || c == '\U{202F}' || c == '\U{205F}' || c == '\U{3000}'
  }

  predicate AllWhitespace(s: string) {
    forall i :: 0 <= i < |s| ==> IsWhitespace(s[i])
  }

  /** Kotlin's `isBlank()`: empty or whitespace only. */
  predicate IsBlank(s: string) {
    AllWhitespace(s)
  }

  predicate StartsWith(s: string, prefix: string) {
    |prefix| <= |s| && s[..|prefix|] == prefix
  }

  predicate EndsWith(s: string, suffix: string) {
    |suffix| <= |s| && s[|s| - |suffix|..] == suffix
  }

  /** Kotlin's `removePrefix`: drops `prefix` when `s` starts with it, else returns `s`. */
  function RemovePrefix(s: string, prefix: string): (r: string)
    ensures StartsWith(s, prefix) ==> s == prefix + r
    ensures !StartsWith(s, prefix) ==> r == s
  {
    if StartsWith(s, prefix) then s[|prefix|..] else s
  }

  /** Stripping a common prefix is injective on the strings that carry it. */
  lemma RemovePrefixInjective(a: string, b: string, prefix: string)
    requires StartsWith(a, prefix) && StartsWith(b, prefix)
    requires RemovePrefix(a, prefix) == RemovePrefix(b, prefix)
    ensures a == b
  {
    assert a == prefix + RemovePrefix(a, prefix);
    assert b == prefix + RemovePrefix(b, prefix);
  }

  lemma AppendCancel(prefix: string, x: string, y: string)
    requires prefix + x == prefix + y
    ensures x == y
  {
    assert x == (prefix + x)[|prefix|..];
    assert y == (prefix + y)[|prefix|..];
  }

  // ---------------------------------------------------------------- occurrences

  predicate OccursAt(s: string, p: string, i: int) {
    0 <= i && i + |p| <= |s| && s[i..i + |p|] == p
  }

  predicate Contains(s: string, p: string) {
    exists i :: 0 <= i <= |s| && OccursAt(s, p, i)
  }

  /** Searches downwards from index `i` for an occurrence of `p`. */
  function LastIndexFrom(s: string, p: string, i: int): (r: int)
    decreases i + 1
    ensures r == -1 || 0 <= r <= i
    ensures r == -1 ==> forall j :: j <= i ==> !OccursAt(s, p, j)
    ensures r != -1 ==> OccursAt(s, p, r) && forall j :: r < j <= i ==> !OccursAt(s, p, j)
  {
    if i < 0 then -1
    else if OccursAt(s, p, i) then i
    else LastIndexFrom(s, p, i - 1)
  }

  /** Kotlin's `lastIndexOf(p)`: the start of the last occurrence, or -1. */
  function LastIndexOf(s: string, p: string): (r: int)
    ensures r == -1 <==> !Contains(s, p)
    ensures r != -1 ==> OccursAt(s, p, r) && forall j :: r < j ==> !OccursAt(s, p, j)
  {
    LastIndexFrom(s, p, |s| - |p|)
  }

  /** Kotlin's `replace(p, "")` for a non-empty `p`: one left-to-right pass that
      deletes each leftmost non-overlapping occurrence. */
  function RemoveAll(s: string, p: string): (r: string)
    requires p != []
    decreases |s|
    ensures |r| <= |s|
  {
    if |s| < |p| then s
    else if s[..|p|] == p then RemoveAll(s[|p|..], p)
    else [s[0]] + RemoveAll(s[1..], p)
  }

  /** A string without the pattern passes through unchanged. */
  lemma {:induction false} RemoveAllWithoutOccurrence(s: string, p: string)
    requires p != [] && !Contains(s, p)
    ensures RemoveAll(s, p) == s
    decreases |s|
  {
    if |s| >= |p| {
      assert !OccursAt(s, p, 0);
      assert s[..|p|] != p;
      forall j | OccursAt(s[1..], p, j) ensures false {
        assert s[1..][j..j + |p|] == s[j + 1..j + 1 + |p|];
        assert OccursAt(s, p, j + 1);
      }
      RemoveAllWithoutOccurrence(s[1..], p);
      assert s == [s[0]] + s[1..];
    }
  }

  /** Removing a pattern from the front and then removing it again in the
      rest is a single pass: `replace` distributes over a leading occurrence. */
  lemma RemoveAllLeading(p: string, s: string)
    requires p != []
    ensures RemoveAll(p + s, p) == RemoveAll(s, p)
  {
    assert (p + s)[..|p|] == p;
    assert (p + s)[|p|..] == s;
  }

  /** Up to the first occurrence, the pass copies the text; it deletes that
      occurrence and goes on after it. */
  lemma {:induction false} RemoveAllUpTo(a: string, p: string, b: string)
    requires p != []
    requires forall i :: 0 <= i < |a| ==> !OccursAt(a + p + b, p, i)
    ensures RemoveAll(a + p + b, p) == a + RemoveAll(b, p)
    decreases |a|
  {
    if a == [] {
      assert a + p + b == p + b;
      RemoveAllLeading(p, b);
    } else {
      var s := a + p + b;
      var s' := a[1..] + p + b;
      assert !OccursAt(s, p, 0);
      assert s[1..] == s';
      assert RemoveAll(s, p) == [a[0]] + RemoveAll(s', p);
      NoOccurrenceShifts(a, p, b);
      RemoveAllUpTo(a[1..], p, b);
      assert a == [a[0]] + a[1..];
      AppendAssociates([a[0]], a[1..], RemoveAll(b, p));
    }
  }

  lemma AppendAssociates(x: string, y: string, z: string)
    ensures (x + y) + z == x + (y + z)
  {
  }

  lemma NoOccurrenceShifts(a: string, p: string, b: string)
    requires a != []
    requires forall i :: 0 <= i < |a| ==> !OccursAt(a + p + b, p, i)
    ensures forall i :: 0 <= i < |a| - 1 ==> !OccursAt(a[1..] + p + b, p, i)
  {
    var s := a + p + b;
    var s' := a[1..] + p + b;
    forall i | 0 <= i < |a| - 1 ensures !OccursAt(s', p, i) {
      assert !OccursAt(s, p, i + 1);
      if i + |p| <= |s'| {
        assert s'[i..i + |p|] == s[i + 1..i + 1 + |p|];
      }
    }
  }

  // ---------------------------------------------------------------- trimming

  function TrimStart(s: string): (r: string)
    ensures |r| <= |s| && r == s[|s| - |r|..]
    ensures AllWhitespace(s[..|s| - |r|])
    ensures r == [] || !IsWhitespace(r[0])
  {
    if s != [] && IsWhitespace(s[0]) then
      var r := TrimStart(s[1..]);
      var pad := s[..|s| - |r|];
      assert AllWhitespace(pad) by {
        forall i | 0 <= i < |pad| ensures IsWhitespace(pad[i]) {
          if i > 0 {
            assert pad[i] == s[1..][..|s| - 1 - |r|][i - 1];
          }
        }
      }
      r
    else s
  }

  function TrimEnd(s: string): (r: string)
    ensures |r| <= |s| && r == s[..|r|]
    ensures AllWhitespace(s[|r|..])
    ensures r == [] || !IsWhitespace(r[|r| - 1])
  {
    if s != [] && IsWhitespace(s[|s| - 1]) then
      var r := TrimEnd(s[..|s| - 1]);
      assert AllWhitespace(s[|r|..]) by {
        forall i | 0 <= i < |s| - |r| ensures IsWhitespace(s[|r|..][i]) {
          if i < |s| - 1 - |r| {
            assert s[|r|..][i] == s[..|s| - 1][|r|..][i];
          }
        }
      }
      r
    else s
  }

  /** Kotlin's `trim()`: drops leading and trailing whitespace. */
  function Trim(s: string): (r: string)
    ensures r == [] || (!IsWhitespace(r[0]) && !IsWhitespace(r[|r| - 1]))
  {
    TrimEnd(TrimStart(s))
  }

  /** Trim is determined by its result shape: whitespace padding around a core
      that neither starts nor ends with whitespace is exactly what it removes. */
  lemma {:induction false} TrimPadded(a: string, x: string, b: string)
    requires AllWhitespace(a) && AllWhitespace(b)
    requires x == [] || (!IsWhitespace(x[0]) && !IsWhitespace(x[|x| - 1]))
    ensures Trim(a + x + b) == x
  {
    if x == [] {
      assert a + x + b == a + b;
      assert AllWhitespace(a + b);
      TrimStartAllWhitespace(a + b);
    } else {
      assert a + x + b == a + (x + b);
      TrimStartPadded(a, x + b);
      TrimEndPadded(x, b);
    }
  }

  lemma {:induction false} TrimStartPadded(a: string, y: string)
    requires AllWhitespace(a)
    requires y == [] || !IsWhitespace(y[0])
    ensures TrimStart(a + y) == y
    decreases |a|
  {
    if a != [] {
      assert (a + y)[1..] == a[1..] + y;
      TrimStartPadded(a[1..], y);
    } else {
      assert a + y == y;
    }
  }

  lemma TrimStartAllWhitespace(b: string)
    requires AllWhitespace(b)
    ensures TrimStart(b) == []
  {
    TrimStartPadded(b, []);
    assert b + [] == b;
  }

  lemma {:induction false} TrimEndPadded(x: string, b: string)
    requires AllWhitespace(b)
    requires x == [] || !IsWhitespace(x[|x| - 1])
    ensures TrimEnd(x + b) == x
    decreases |b|
  {
    if b != [] {
      assert (x + b)[..|x + b| - 1] == x + b[..|b| - 1];
      TrimEndPadded(x, b[..|b| - 1]);
    } else {
      assert x + b == x;
    }
  }

  /** Trimming twice is trimming once. */
  lemma TrimIdempotent(s: string)
    ensures Trim(Trim(s)) == Trim(s)
  {
    var t := Trim(s);
    TrimPadded([], t, []);
    assert [] + t + [] == t;
  }

  /** `isBlank` is exactly "trims to nothing". */
  lemma BlankIffTrimsToEmpty(s: string)
    ensures IsBlank(s) <==> Trim(s) == []
  {
    if IsBlank(s) {
      TrimStartAllWhitespace(s);
    } else {
      var i :| 0 <= i < |s| && !IsWhitespace(s[i]);
      var t := TrimStart(s);
      assert |s| - |t| <= i;
      var e := TrimEnd(t);
      assert t[i - (|s| - |t|)] == s[i];
      assert !AllWhitespace(t);
    }
  }

  // ---------------------------------------------------------------- numbers

  function Digit(d: nat): (c: char)
    requires d < 10
    ensures '0' <= c <= '9'
  {
    (48 + d) as char
  }

  /** The decimal rendering of a natural number, as a string template prints it. */
  function NatToString(n: nat): (r: string)
    ensures |r| >= 1
    ensures forall i :: 0 <= i < |r| ==> '0' <= r[i] <= '9'
  {
    if n < 10 then [Digit(n)] else NatToString(n / 10) + [Digit(n % 10)]
  }

  /** The decimal rendering of an `Int`, with a leading '-' when negative. */
  function IntToString(i: int): (r: string)
    ensures i < 0 <==> (r != [] && r[0] == '-')
  {
    if i < 0 then "-" + NatToString(-i) else NatToString(i)
  }
}
