/**
 * The two string operations the core relies on: Kotlin's
 * `contains(other, ignoreCase = true)` used by the name resolver, and
 * `String.trim()` used to classify the save-submission response body.
 */
module Text {
  import opened Common

  // ---------------------------------------------------------------------------
  // Case-insensitive substring search
  // ---------------------------------------------------------------------------

  /** Upper-case image of an ASCII letter; every other character is its own image. */
  function UpperChar(c: char): char {
    if 'a' <= c <= 'z' then (c as int - 'a' as int + 'A' as int) as char else c
  }

  /**
   * Kotlin's `Char.equals(other, ignoreCase = true)`: equal characters, or equal
   * upper-case images. Case mapping is limited to ASCII letters here.
   */
  predicate SameIgnoringCase(a: char, b: char) {
    a == b || UpperChar(a) == UpperChar(b)
  }

  /** The region of `hay` starting at `i` has the length of `needle` and matches it character by character. */
  predicate MatchesAt(hay: string, needle: string, i: nat) {
    && i + |needle| <= |hay|
    && forall k :: 0 <= k < |needle| ==> SameIgnoringCase(hay[i + k], needle[k])
  }

  /**
   * The scan behind `indexOf(other, startIndex, ignoreCase = true)`: candidate
   * offsets `from`, `from + 1`, ..., `|hay|` are tried in order and the first
   * matching one is returned.
   */
  function IndexOfIgnoringCase(hay: string, needle: string, from: nat): (r: Option<nat>)
    ensures r.Some? ==> from <= r.value <= |hay| && MatchesAt(hay, needle, r.value)
    ensures r.Some? ==> forall j :: from <= j < r.value ==> !MatchesAt(hay, needle, j)
    ensures r.None? <==> forall j :: from <= j <= |hay| ==> !MatchesAt(hay, needle, j)
    decreases |hay| + 1 - from
  {
    if from > |hay| then None
    else if MatchesAt(hay, needle, from) then Some(from)
    else IndexOfIgnoringCase(hay, needle, from + 1)
  }

  /** `hay.contains(needle, ignoreCase = true)`: some offset of `hay` matches `needle`. */
  predicate ContainsIgnoringCase(hay: string, needle: string) {
    exists i :: 0 <= i <= |hay| && MatchesAt(hay, needle, i)
  }

  /** Kotlin computes `contains` as `indexOf(...) >= 0`: the scan from offset 0 finds an offset exactly when one exists. */
  lemma ContainsIffIndexFound(hay: string, needle: string)
    ensures ContainsIgnoringCase(hay, needle) <==> IndexOfIgnoringCase(hay, needle, 0).Some?
  {
  }

  function UpperText(s: string): (r: string)
    ensures |r| == |s|
    ensures forall i :: 0 <= i < |s| ==> r[i] == UpperChar(s[i])
  {
    seq(|s|, i requires 0 <= i < |s| => UpperChar(s[i]))
  }

  /** The empty query occurs in every string, at offset 0. */
  lemma EmptyNeedleFound(hay: string)
    ensures IndexOfIgnoringCase(hay, "", 0) == Some(0)
    ensures ContainsIgnoringCase(hay, "")
  {
    assert MatchesAt(hay, "", 0);
  }

  /** Every string contains itself. */
  lemma ContainsItself(s: string)
    ensures ContainsIgnoringCase(s, s)
  {
    assert MatchesAt(s, s, 0);
  }

  /** Changing the case of the query's letters never changes the answer. */
  lemma CaseOfQueryIrrelevant(hay: string, needle: string)
    ensures ContainsIgnoringCase(hay, UpperText(needle)) == ContainsIgnoringCase(hay, needle)
  {
    var up := UpperText(needle);
    assert UpperChar('a') == 'A';
    forall i | 0 <= i <= |hay|
      ensures MatchesAt(hay, up, i) <==> MatchesAt(hay, needle, i)
    {
      if i + |needle| <= |hay| {
        forall k | 0 <= k < |needle|
          ensures SameIgnoringCase(hay[i + k], up[k]) <==> SameIgnoringCase(hay[i + k], needle[k])
        {
          assert UpperChar(up[k]) == UpperChar(needle[k]);
        }
      }
    }
  }

  // ---------------------------------------------------------------------------
  // Trimming
  // ---------------------------------------------------------------------------

  /**
   * Kotlin's `Char.isWhitespace()` on the JVM: the ASCII control separators
   * (tab through carriage return, and the four information separators) and
   * every Unicode space, line or paragraph separator.
   */
  predicate IsWhitespace(c: char) {
    var n := c as int;
    || 0x09 <= n <= 0x0D
    || 0x1C <= n <= 0x20
    || n == 0xA0 || n == 0x1680
    || 0x2000 <= n <= 0x200A
    || n == 0x2028 || n == 0x2029 || n == 0x202F || n == 0x205F
    || n == 0x3000
  }

  predicate AllWhitespace(s: string) {
    forall i :: 0 <= i < |s| ==> IsWhitespace(s[i])
  }

  /** The first offset at or after `i` that holds a non-whitespace character, or `|s|` if there is none. */
  function SkipLeading(s: string, i: nat): (j: nat)
    requires i <= |s|
    ensures i <= j <= |s|
    ensures forall k :: i <= k < j ==> IsWhitespace(s[k])
    ensures j < |s| ==> !IsWhitespace(s[j])
    decreases |s| - i
  {
    if i < |s| && IsWhitespace(s[i]) then SkipLeading(s, i + 1) else i
  }

  /** The least offset `e`, not below `lo`, such that `s[e..j]` is all whitespace. */
  function SkipTrailing(s: string, lo: nat, j: nat): (e: nat)
    requires lo <= j <= |s|
    ensures lo <= e <= j
    ensures forall k :: e <= k < j ==> IsWhitespace(s[k])
    ensures e > lo ==> !IsWhitespace(s[e - 1])
    decreases j - lo
  {
    if j > lo && IsWhitespace(s[j - 1]) then SkipTrailing(s, lo, j - 1) else j
  }

  /** `String.trim()`: the part of `s` between its leading and its trailing whitespace. */
  function Trim(s: string): (r: string)
    ensures |r| > 0 ==> !IsWhitespace(r[0]) && !IsWhitespace(r[|r| - 1])
    ensures |r| == 0 <==> AllWhitespace(s)
  {
    var start := SkipLeading(s, 0);
    var end := SkipTrailing(s, start, |s|);
    assert end > start ==> !IsWhitespace(s[start]);
    s[start..end]
  }

  /** Only whitespace is removed: `s` is whitespace, then `Trim(s)`, then whitespace. */
  lemma TrimRemovesOnlyWhitespace(s: string)
    ensures exists p, q :: AllWhitespace(p) && AllWhitespace(q) && s == p + Trim(s) + q
  {
    var start := SkipLeading(s, 0);
    var end := SkipTrailing(s, start, |s|);
    var p, m, q := s[..start], s[start..end], s[end..];
    assert Trim(s) == m;
    assert s == p + m + q;
    forall k | 0 <= k < |p| ensures IsWhitespace(p[k]) {
      assert p[k] == s[k];
    }
    forall k | 0 <= k < |q| ensures IsWhitespace(q[k]) {
      assert q[k] == s[end + k];
    }
    assert AllWhitespace(p) && AllWhitespace(q);
  }

  /**
   * Trimming is determined by its result: `p + m + q` with whitespace-only padding
   * `p`, `q` and a core `m` that neither starts nor ends with whitespace trims to `m`.
   */
  lemma TrimOfPadded(p: string, m: string, q: string)
    requires AllWhitespace(p) && AllWhitespace(q)
    requires |m| > 0 ==> !IsWhitespace(m[0]) && !IsWhitespace(m[|m| - 1])
    ensures Trim(p + m + q) == m
  {
    var s := p + m + q;
    var start := SkipLeading(s, 0);
    var end := SkipTrailing(s, start, |s|);
    if |m| > 0 {
      assert s[|p|] == m[0];
      assert start == |p|;
      assert s[|p| + |m| - 1] == m[|m| - 1];
      assert end == |p| + |m|;
      assert s[start..end] == m;
    } else {
      assert forall k :: 0 <= k < |s| ==> IsWhitespace(s[k]);
      assert start == |s|;
    }
  }

  /**
   * The loop Kotlin's `CharSequence.trim(predicate)` runs: advance `start` past
   * leading whitespace, then retreat `end` over trailing whitespace, and return
   * the range between. It computes exactly `Trim`.
   */
  method TrimByScan(s: string) returns (r: string)
    ensures r == Trim(s)
  {
    var start := 0;
    var end := |s| - 1;
    var startFound := false;
    while start <= end
      invariant 0 <= start <= end + 1 <= |s|
      invariant forall k :: 0 <= k < start ==> IsWhitespace(s[k])
      invariant forall k :: end < k < |s| ==> IsWhitespace(s[k])
      invariant startFound ==> start <= end && !IsWhitespace(s[start])
      decreases end - start + (if startFound then 0 else 1)
    {
      if !startFound {
        if !IsWhitespace(s[start]) {
          startFound := true;
        } else {
          start := start + 1;
        }
      } else {
        if !IsWhitespace(s[end]) {
          break;
        }
        end := end - 1;
      }
    }
    ScanBoundsTrim(s, start, end);
    r := s[start..end + 1];
  }

  /** Whitespace before `start` and after `end`, and none at either bound, leave exactly `Trim(s)` between. */
  lemma ScanBoundsTrim(s: string, start: nat, end: int)
    requires start <= end + 1 <= |s|
    requires forall k :: 0 <= k < start ==> IsWhitespace(s[k])
    requires forall k :: end < k < |s| ==> IsWhitespace(s[k])
    requires start <= end ==> !IsWhitespace(s[start]) && !IsWhitespace(s[end])
    ensures s[start..end + 1] == Trim(s)
  {
    var r := s[start..end + 1];
    assert s == s[..start] + r + s[end + 1..];
    assert AllWhitespace(s[..start]);
    assert AllWhitespace(s[end + 1..]);
    TrimOfPadded(s[..start], r, s[end + 1..]);
  }
}
