/** The Python string operations the planner and the routers rely on:
    `sep in s`, `s.split(sep)`, `s.strip()` and `s.endswith(suffix)`. */
module PyStr {
  import opened Wrappers

  /** The characters for which Python's `str.isspace()` holds; `str.strip()`
      with no argument removes exactly these. */
  predicate IsSpace(c: char) {
    || c == ' ' || c == '\t' || c == '\n' || c == '\r'
    || c == '\U{000B}' || c == '\U{000C}'
    || ('\U{001C}' <= c <= '\U{001F}')
    || c == '\U{0085}' || c == '\U{00A0}' || c == '\U{1680}'
    || ('\U{2000}' <= c <= '\U{200A}')
    || c == '\U{2028}' || c == '\U{2029}' || c == '\U{202F}'
    || c == '\U{205F}' || c == '\U{3000}'
  }

  /** True when every character of `s` is whitespace. */
  predicate AllSpace(s: string) {
    forall k :: 0 <= k < |s| ==> IsSpace(s[k])
  }

  /** `sep` occurs in `s` starting at index `i`. */
  ghost predicate OccursAt(s: string, sep: string, i: int) {
    0 <= i && i + |sep| <= |s| && s[i..i + |sep|] == sep
  }

  /** The index of the first occurrence of `sep` in `s` (Python's `s.find(sep)`,
      with `None` for -1). */
  function IndexOf(s: string, sep: string): (r: Option<nat>)
    ensures r.Some? ==> OccursAt(s, sep, r.value)
    ensures r.Some? ==> forall j :: 0 <= j < r.value ==> !OccursAt(s, sep, j)
    ensures r.None? ==> forall j :: !OccursAt(s, sep, j)
    decreases |s|
  {
    if |s| < |sep| then None
    else if s[..|sep|] == sep then Some(0)
    else
      var tail := IndexOf(s[1..], sep);
      ShiftOccurrence(s, sep);
      match tail
      case None => None
      case Some(k) => Some(k + 1)
  }

  /** Occurrences in `s[1..]` are the occurrences in `s` shifted by one. */
  lemma ShiftOccurrence(s: string, sep: string)
    requires s != []
    ensures forall j :: 1 <= j ==> (OccursAt(s, sep, j) <==> OccursAt(s[1..], sep, j - 1))
  {
    forall j | 1 <= j ensures OccursAt(s, sep, j) <==> OccursAt(s[1..], sep, j - 1) {
      if j + |sep| <= |s| {
        assert s[1..][j - 1..j - 1 + |sep|] == s[j..j + |sep|];
      }
    }
  }

  /** Python's `sep in s`. */
  predicate Contains(s: string, sep: string) {
    IndexOf(s, sep).Some?
  }

  /** The part of `s` before the first occurrence of `sep`, or all of `s`. */
  function Before(s: string, sep: string): string {
    match IndexOf(s, sep)
    case None => s
    case Some(i) => s[..i]
  }

  /** The part of `s` after the first occurrence of `sep`. */
  function After(s: string, sep: string): string
    requires Contains(s, sep)
  {
    var i := IndexOf(s, sep).value;
    s[i + |sep|..]
  }

  /** Python's `s.split(sep)` for a non-empty separator: the pieces between
      the non-overlapping occurrences of `sep`, found from left to right. */
  function Split(s: string, sep: string): (pieces: seq<string>)
    requires sep != ""
    ensures |pieces| >= 1
    ensures |pieces| >= 2 <==> Contains(s, sep)
    decreases |s|
  {
    match IndexOf(s, sep)
    case None => [s]
    case Some(i) => [s[..i]] + Split(s[i + |sep|..], sep)
  }

  /** The index of the first non-whitespace character of `s` at or after
      `i`, or `|s|` when there is none. */
  function SkipSpace(s: string, i: nat): (r: nat)
    requires i <= |s|
    ensures i <= r <= |s|
    ensures forall k :: i <= k < r ==> IsSpace(s[k])
    ensures r < |s| ==> !IsSpace(s[r])
    decreases |s| - i
  {
    if i < |s| && IsSpace(s[i]) then SkipSpace(s, i + 1) else i
  }

  /** The index just past the last non-whitespace character of `s` in
      `[lo, j)`, or `lo` when there is none. */
  function SkipSpaceBack(s: string, lo: nat, j: nat): (r: nat)
    requires lo <= j <= |s|
    ensures lo <= r <= j
    ensures forall k :: r <= k < j ==> IsSpace(s[k])
    ensures r > lo ==> !IsSpace(s[r - 1])
    decreases j
  {
    if j > lo && IsSpace(s[j - 1]) then SkipSpaceBack(s, lo, j - 1) else j
  }

  /** Python's `s.strip()`: `s` without its leading and trailing whitespace.
      The result is the slice of `s` that starts at its first non-whitespace
      character, everything outside it is whitespace, and it neither starts
      nor ends with whitespace. */
  function Strip(s: string): (r: string)
    ensures r != [] ==> !IsSpace(r[0]) && !IsSpace(r[|r| - 1])
    ensures var d := SkipSpace(s, 0); d + |r| <= |s| && r == s[d..d + |r|]
    ensures var d := SkipSpace(s, 0);
      forall k :: 0 <= k < |s| && !(d <= k < d + |r|) ==> IsSpace(s[k])
  {
    var d := SkipSpace(s, 0);
    s[d..SkipSpaceBack(s, d, |s|)]
  }

  /** The first non-whitespace index is determined by its two defining
      properties. */
  lemma SkipSpaceIs(s: string, i: nat, n: nat)
    requires i <= n <= |s|
    requires forall k :: i <= k < n ==> IsSpace(s[k])
    requires n < |s| ==> !IsSpace(s[n])
    ensures SkipSpace(s, i) == n
  {
  }

  /** So is the end of the last non-whitespace run. */
  lemma SkipSpaceBackIs(s: string, lo: nat, j: nat, m: nat)
    requires lo <= m <= j <= |s|
    requires forall k :: m <= k < j ==> IsSpace(s[k])
    requires m > lo ==> !IsSpace(s[m - 1])
    ensures SkipSpaceBack(s, lo, j) == m
  {
  }

  /** Python's `s.endswith(suffix)`. */
  function EndsWith(s: string, suffix: string): (b: bool)
    ensures b <==> |suffix| <= |s| && s[..|s| - |suffix|] + suffix == s
  {
    |suffix| <= |s| && s[|s| - |suffix|..] == suffix
  }

  // ---------------------------------------------------------------------
  // Properties of the primitives

  /** `Contains` is "occurs somewhere". */
  lemma ContainsIff(s: string, sep: string)
    ensures Contains(s, sep) <==> exists i :: OccursAt(s, sep, i)
  {
    if Contains(s, sep) {
      assert OccursAt(s, sep, IndexOf(s, sep).value);
    }
  }

  /** When `sep` is a prefix of `longer`, every occurrence of `longer` is an
      occurrence of `sep`; so `longer in s` implies `sep in s`. */
  lemma PrefixOccurs(s: string, sep: string, longer: string, i: int)
    requires |sep| <= |longer| && longer[..|sep|] == sep
    requires OccursAt(s, longer, i)
    ensures OccursAt(s, sep, i)
  {
    assert s[i..i + |sep|] == s[i..i + |longer|][..|sep|];
  }

  /** The first piece of `s.split(sep)` is the text before the first `sep`. */
  lemma SplitFirst(s: string, sep: string)
    requires sep != ""
    ensures Split(s, sep)[0] == Before(s, sep)
  {
  }

  /** The second piece of `s.split(sep)` is the text after the first `sep`,
      up to the next `sep` or the end of the string. */
  lemma SplitSecond(s: string, sep: string)
    requires sep != "" && Contains(s, sep)
    ensures Split(s, sep)[1] == Before(After(s, sep), sep)
  {
    var i := IndexOf(s, sep).value;
    var rest := s[i + |sep|..];
    assert After(s, sep) == rest;
    assert Split(s, sep)[1] == Split(rest, sep)[0];
    SplitFirst(rest, sep);
  }

  /** The text before the first `sep` holds no `sep`. */
  lemma BeforeHasNone(s: string, sep: string)
    requires sep != ""
    ensures !Contains(Before(s, sep), sep)
  {
    var b := Before(s, sep);
    ContainsIff(b, sep);
    if IndexOf(s, sep).Some? {
      var i := IndexOf(s, sep).value;
      forall j | OccursAt(b, sep, j) ensures false {
        assert b[j..j + |sep|] == s[j..j + |sep|];
        assert OccursAt(s, sep, j);
      }
    }
  }

  /** Slicing a slice is slicing the whole at shifted bounds. */
  lemma SliceOfSlice(s: string, lo: int, hi: int, a: int, b: int)
    requires 0 <= lo <= hi <= |s| && 0 <= a <= b <= hi - lo
    ensures s[lo..hi][a..b] == s[lo + a..lo + b]
  {
    forall k | 0 <= k < b - a ensures s[lo..hi][a..b][k] == s[lo + a..lo + b][k] {
      assert s[lo..hi][a..b][k] == s[lo..hi][a + k] == s[lo + a + k];
    }
  }

  /** Occurrences in a prefix are the occurrences that end inside it. */
  lemma PrefixOccurrence(s: string, k: int, sep: string, j: int)
    requires 0 <= k <= |s|
    ensures OccursAt(s[..k], sep, j) <==> OccursAt(s, sep, j) && j + |sep| <= k
  {
    if 0 <= j && j + |sep| <= k {
      SliceOfSlice(s, 0, k, j, j + |sep|);
    }
  }

  /** A character that differs from the separator's rules out an occurrence. */
  lemma NotAt(s: string, sep: string, j: int, k: int)
    requires 0 <= j && 0 <= k < |sep| && j + k < |s| && s[j + k] != sep[k]
    ensures !OccursAt(s, sep, j)
  {
  }

  /** A slice of a string without `sep` has no `sep` either. */
  lemma SliceHasNone(s: string, sep: string, lo: int, hi: int)
    requires 0 <= lo <= hi <= |s|
    requires !Contains(s, sep)
    ensures !Contains(s[lo..hi], sep)
  {
    var t := s[lo..hi];
    ContainsIff(s, sep);
    ContainsIff(t, sep);
    forall j | OccursAt(t, sep, j) ensures false {
      SliceOfSlice(s, lo, hi, j, j + |sep|);
      assert OccursAt(s, sep, lo + j);
    }
  }

  /** Stripping a string that has no `sep` leaves none. */
  lemma StripHasNone(s: string, sep: string)
    requires !Contains(s, sep)
    ensures !Contains(Strip(s), sep)
  {
    var d := SkipSpace(s, 0);
    SliceHasNone(s, sep, d, d + |Strip(s)|);
  }

  /** Whitespace around a string without leading or trailing whitespace is
      exactly what `strip` removes. */
  lemma StripPadded(pre: string, j: string, post: string)
    requires AllSpace(pre) && AllSpace(post)
    requires j != [] ==> !IsSpace(j[0]) && !IsSpace(j[|j| - 1])
    ensures Strip(pre + j + post) == j
  {
    var t := pre + j + post;
    var n := |pre| + |j|;
    assert forall k :: 0 <= k < |pre| ==> t[k] == pre[k];
    assert forall k :: n <= k < |t| ==> t[k] == post[k - n];
    if j == [] {
      SkipSpaceIs(t, 0, |t|);
      SkipSpaceBackIs(t, |t|, |t|, |t|);
    } else {
      assert t[|pre|] == j[0] && t[n - 1] == j[|j| - 1];
      SkipSpaceIs(t, 0, |pre|);
      SkipSpaceBackIs(t, |pre|, |t|, n);
      assert t[|pre|..n] == j;
    }
  }
}
