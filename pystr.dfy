/**
 * The handful of Python `str` operations the catalog extractor relies on,
 * over strings as sequences of Unicode code points:
 * `k in s`, `s.startswith(p)`, `s.replace(p, '')` and `s.strip()`.
 */
module PyStr {

  /** `s.startswith(p)` */
  predicate StartsWith(s: string, p: string)
  {
    |p| <= |s| && s[..|p|] == p
  }

  /** `k` occurs in `s` starting at index `i`. */
  predicate OccursAt(s: string, k: string, i: int)
  {
    0 <= i <= |s| && StartsWith(s[i..], k)
  }

  /** `k in s` for strings: `k` occurs as a contiguous substring of `s`. */
  predicate Contains(s: string, k: string)
  {
    exists i :: 0 <= i <= |s| && OccursAt(s, k, i)
  }

  /** A one-character keyword occurs exactly when the character does. */
  lemma ContainsChar(s: string, c: char)
    ensures Contains(s, [c]) <==> c in s
  {
    if c in s {
      var i :| 0 <= i < |s| && s[i] == c;
      assert OccursAt(s, [c], i);
    }
    if Contains(s, [c]) {
      var i :| 0 <= i <= |s| && OccursAt(s, [c], i);
      assert s[i] == s[i..][0] == c;
    }
  }

  /** A non-empty keyword can only occur if its first character does. */
  lemma ContainsFirstChar(s: string, k: string)
    requires |k| > 0 && Contains(s, k)
    ensures k[0] in s
  {
    var i :| 0 <= i <= |s| && OccursAt(s, k, i);
    assert s[i] == k[0];
  }

  /** An occurrence in a tail of `s` is an occurrence in `s`. */
  lemma ContainsTail(s: string, k: string)
    requires |s| > 0
    ensures Contains(s[1..], k) ==> Contains(s, k)
  {
    if Contains(s[1..], k) {
      var i :| 0 <= i <= |s| - 1 && OccursAt(s[1..], k, i);
      assert s[1..][i..] == s[i + 1..];
      assert OccursAt(s, k, i + 1);
    }
  }

  /**
   * `s.replace(p, '')`: every non-overlapping occurrence of `p`, found
   * left to right, is deleted.
   */
  function DeleteAll(s: string, p: string): string
    requires |p| > 0
    decreases |s|
  {
    if |s| < |p| then s
    else if StartsWith(s, p) then DeleteAll(s[|p|..], p)
    else [s[0]] + DeleteAll(s[1..], p)
  }

  /** Deleting never lengthens, and a string without `p` is left as it is. */
  lemma {:induction false} DeleteAllBounds(s: string, p: string)
    requires |p| > 0
    ensures |DeleteAll(s, p)| <= |s|
    ensures !Contains(s, p) ==> DeleteAll(s, p) == s
    decreases |s|
  {
    if |s| >= |p| {
      if StartsWith(s, p) {
        DeleteAllBounds(s[|p|..], p);
        assert s[0..] == s && OccursAt(s, p, 0);
      } else {
        DeleteAllBounds(s[1..], p);
        ContainsTail(s, p);
        assert s == [s[0]] + s[1..];
      }
    }
  }

  /**
   * An occurrence of `p` cannot start inside a non-empty string free of `p`
   * and run into an appended copy of `p`, when the first character of `p`
   * does not occur again inside `p`.
   */
  lemma NoOccurrenceAcrossJoin(s: string, p: string)
    requires |p| > 0 && p[0] !in p[1..]
    requires s != [] && !Contains(s, p)
    ensures !StartsWith(s + p, p)
  {
    if |s| >= |p| {
      assert (s + p)[..|p|] == s[0..][..|p|];
      assert !OccursAt(s, p, 0);
    } else {
      assert (s + p)[|s|] == p[0];
    }
  }

  /**
   * An occurrence of `p` appended to a string free of `p` is exactly what
   * `replace` removes (given the condition above on `p`).
   */
  lemma DeleteAppended(s: string, p: string)
    requires |p| > 0 && p[0] !in p[1..]
    requires !Contains(s, p)
    ensures DeleteAll(s + p, p) == s
  {
    DeleteAcross(s, p, []);
    assert s + p + [] == s + p;
  }

  /**
   * `replace` deletes every occurrence, not only a trailing one: text free
   * of `p` before an occurrence is kept, the occurrence is dropped, and the
   * deletion carries on in the rest (given the condition above on `p`).
   */
  lemma {:induction false} DeleteAcross(x: string, p: string, y: string)
    requires |p| > 0 && p[0] !in p[1..]
    requires !Contains(x, p)
    ensures DeleteAll(x + p + y, p) == x + DeleteAll(y, p)
    decreases |x|
  {
    var t := x + p + y;
    if x == [] {
      assert t == p + y && t[..|p|] == p;
      assert t[|p|..] == y;
    } else {
      assert !StartsWith(t, p) by {
        NoOccurrenceAcrossJoin(x, p);
        assert t[..|p|] == (x + p)[..|p|];
      }
      ContainsTail(x, p);
      DeleteAcross(x[1..], p, y);
      assert t[1..] == x[1..] + p + y;
      assert DeleteAll(t, p) == [t[0]] + DeleteAll(t[1..], p);
      assert x == [x[0]] + x[1..];
    }
  }

  /** The characters `str.isspace()` accepts, which `str.strip()` removes. */
  predicate IsSpace(c: char)
  {
    ('\U{0009}' <= c <= '\U{000D}') || ('\U{001C}' <= c <= ' ') ||
    c == '\U{0085}' || c == '\U{00A0}' || c == '\U{1680}' ||
    ('\U{2000}' <= c <= '\U{200A}') || c == '\U{2028}' || c == '\U{2029}' ||
    c == '\U{202F}' || c == '\U{205F}' || c == '\U{3000}'
  }

  /** `s.lstrip()`: the suffix left after dropping the leading whitespace. */
  function TrimStart(s: string): (r: string)
    ensures |r| <= |s| && r == s[|s| - |r|..]
    ensures forall k :: 0 <= k < |s| - |r| ==> IsSpace(s[k])
    ensures r != [] ==> !IsSpace(r[0])
  {
    if s != [] && IsSpace(s[0]) then TrimStart(s[1..]) else s
  }

  /** `s.rstrip()`: the prefix left after dropping the trailing whitespace. */
  function TrimEnd(s: string): (r: string)
    ensures |r| <= |s| && r == s[..|r|]
    ensures forall k :: |r| <= k < |s| ==> IsSpace(s[k])
    ensures r != [] ==> !IsSpace(r[|r| - 1])
  {
    if s != [] && IsSpace(s[|s| - 1]) then TrimEnd(s[..|s| - 1]) else s
  }

  /** `s.strip()` */
  function Strip(s: string): (r: string)
    ensures |r| <= |s|
    ensures r != [] ==> !IsSpace(r[0]) && !IsSpace(r[|r| - 1])
    ensures r == [] <==> forall k :: 0 <= k < |s| ==> IsSpace(s[k])
    ensures (s == [] || (!IsSpace(s[0]) && !IsSpace(s[|s| - 1]))) ==> r == s
  {
    var t := TrimStart(s);
    var r := TrimEnd(t);
    assert r != [] ==> r[0] == t[0];
    r
  }

  /**
   * `r` is the slice of `s` starting at `i`, and everything of `s` before and
   * after it is whitespace.
   */
  predicate TrimmedSliceAt(s: string, r: string, i: int)
  {
    0 <= i <= |s| - |r| && r == s[i..i + |r|] &&
    (forall k :: 0 <= k < i ==> IsSpace(s[k])) &&
    (forall k :: i + |r| <= k < |s| ==> IsSpace(s[k]))
  }

  /** Whitespace after position `n` of a suffix `t` of `s` is whitespace of `s` after `i + n`. */
  lemma SpaceAfterSlice(s: string, t: string, i: int, n: int)
    requires 0 <= i <= |s| && t == s[i..] && 0 <= n <= |t|
    requires forall k :: n <= k < |t| ==> IsSpace(t[k])
    ensures forall k :: i + n <= k < |s| ==> IsSpace(s[k])
  {
    forall k | i + n <= k < |s|
      ensures IsSpace(s[k])
    {
      assert s[k] == t[k - i];
    }
  }

  /**
   * `s.strip()` is the slice of `s` between its leading and its trailing
   * run of whitespace.
   */
  lemma StripIsTrimmedSlice(s: string)
    ensures exists i :: TrimmedSliceAt(s, Strip(s), i)
  {
    var t := TrimStart(s);
    var r := TrimEnd(t);
    var i := |s| - |t|;
    SpaceAfterSlice(s, t, i, |r|);
    assert r == s[i..i + |r|] by {
      assert t == s[i..] && r == t[..|r|];
    }
    assert Strip(s) == r;
    assert TrimmedSliceAt(s, r, i);
  }
}
