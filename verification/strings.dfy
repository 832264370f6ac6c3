/**
 * The two string operations the roster screen relies on: the order used to sort
 * classroom numbers and the case-insensitive containment used by the search box.
 * Swift's Unicode-aware `String <` is modelled as lexicographic order on code
 * points, and `localizedCaseInsensitiveContains` as substring search after folding
 * the ASCII letters A-Z to lower case.
 */
module Strings {

  /** Strict lexicographic order on code points; a proper prefix sorts first. */
  predicate Less(a: string, b: string)
    ensures Less(a, b) ==> a != b
    ensures |a| < |b| && a == b[..|a|] ==> Less(a, b)
    decreases |a|
  {
    if |a| == 0 then |b| > 0
    else if |b| == 0 then false
    else if a[0] != b[0] then a[0] < b[0]
    else Less(a[1..], b[1..])
  }

  lemma {:induction false} LessIrreflexive(a: string)
    ensures !Less(a, a)
  {
    if |a| > 0 {
      LessIrreflexive(a[1..]);
    }
  }

  lemma {:induction false} LessTransitive(a: string, b: string, c: string)
    requires Less(a, b) && Less(b, c)
    ensures Less(a, c)
  {
    if |a| > 0 && a[0] == b[0] && b[0] == c[0] {
      LessTransitive(a[1..], b[1..], c[1..]);
    }
  }

  /** Any two strings are equal or ordered one way or the other. */
  lemma {:induction false} LessTrichotomy(a: string, b: string)
    ensures a == b || Less(a, b) || Less(b, a)
  {
    if |a| > 0 && |b| > 0 && a[0] == b[0] {
      LessTrichotomy(a[1..], b[1..]);
      assert a == [a[0]] + a[1..];
      assert b == [b[0]] + b[1..];
    }
  }

  /** `Less` is asymmetric. */
  lemma LessAsymmetric(a: string, b: string)
    requires Less(a, b)
    ensures !Less(b, a)
  {
    if Less(b, a) {
      LessTransitive(a, b, a);
      LessIrreflexive(a);
    }
  }

  /** The complement of `Less` is transitive: "not after" chains. */
  lemma NotLessTransitive(a: string, b: string, c: string)
    requires !Less(b, a) && !Less(c, b)
    ensures !Less(c, a)
  {
    LessTrichotomy(a, b);
    if Less(c, a) {
      if Less(a, b) {
        LessTransitive(c, a, b);
      }
    }
  }

  /** ASCII upper-case letters fold to lower case; every other character is kept. */
  function FoldChar(c: char): (r: char)
    ensures 'A' <= c <= 'Z' ==> r != c && 'a' <= r <= 'z'
    ensures !('A' <= c <= 'Z') ==> r == c
  {
    if 'A' <= c <= 'Z' then (c as int - 'A' as int + 'a' as int) as char else c
  }

  function Fold(s: string): (r: string)
    ensures |r| == |s|
  {
    seq(|s|, i requires 0 <= i < |s| => FoldChar(s[i]))
  }

  /** `needle` occurs in `haystack` at offset `i`, ignoring ASCII case. */
  ghost predicate OccursAt(haystack: string, needle: string, i: int)
  {
    0 <= i && i + |needle| <= |haystack| && Fold(haystack[i..i + |needle|]) == Fold(needle)
  }

  predicate StartsWithIgnoringCase(haystack: string, needle: string)
  {
    |needle| <= |haystack| && Fold(haystack[..|needle|]) == Fold(needle)
  }

  /** Case-insensitive substring test, scanning offsets from the left. */
  function ContainsIgnoringCase(haystack: string, needle: string): (r: bool)
    ensures r <==> exists i :: OccursAt(haystack, needle, i)
    decreases |haystack|
  {
    if StartsWithIgnoringCase(haystack, needle) then
      assert OccursAt(haystack, needle, 0) by {
        assert haystack[0..|needle|] == haystack[..|needle|];
      }
      true
    else if |haystack| == 0 then
      false
    else
      var r := ContainsIgnoringCase(haystack[1..], needle);
      assert r ==> exists i :: OccursAt(haystack, needle, i) by {
        if r {
          var i :| OccursAt(haystack[1..], needle, i);
          assert haystack[1..][i..i + |needle|] == haystack[i + 1..i + 1 + |needle|];
          assert OccursAt(haystack, needle, i + 1);
        }
      }
      assert (exists i :: OccursAt(haystack, needle, i)) ==> r by {
        if exists i :: OccursAt(haystack, needle, i) {
          var i :| OccursAt(haystack, needle, i);
          assert haystack[1..][i - 1..i - 1 + |needle|] == haystack[i..i + |needle|];
          assert OccursAt(haystack[1..], needle, i - 1);
        }
      }
      r
  }

  /** Folding is idempotent: folded text has nothing left to fold. */
  lemma FoldIdempotent(s: string)
    ensures Fold(Fold(s)) == Fold(s)
  {
  }

  /** The search is blind to the case of its query. */
  lemma {:induction false} ContainsIgnoresQueryCase(haystack: string, needle: string)
    ensures ContainsIgnoringCase(haystack, needle) == ContainsIgnoringCase(haystack, Fold(needle))
  {
    FoldIdempotent(needle);
    if ContainsIgnoringCase(haystack, needle) {
      var i :| OccursAt(haystack, needle, i);
      assert OccursAt(haystack, Fold(needle), i);
    }
    if ContainsIgnoringCase(haystack, Fold(needle)) {
      var i :| OccursAt(haystack, Fold(needle), i);
      assert OccursAt(haystack, needle, i);
    }
  }
}
