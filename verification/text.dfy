/**
 * The slice of Rust's `str` API the core relies on: `trim`, `trim_start_matches`,
 * `trim_end_matches` and the comparison of a lower-cased string with an ASCII
 * literal. Strings are sequences of Unicode scalar values, as Rust's `char`s are.
 *
 * The functions carry no contracts of their own; what they guarantee is stated
 * by the lemmas after them, which callers invoke where they need the facts.
 */
module Text {

  /** Unicode White_Space: the characters `char::is_whitespace` accepts and `str::trim` removes. */
  predicate IsWhitespace(c: char) {
    || ('\t' <= c <= '\r')
    || c == ' '
    || c == '\U{0085}'
    || c == '\U{00A0}'
    || c == '\U{1680}'
    || ('\U{2000}' <= c <= '\U{200A}')
    || c == '\U{2028}'
    || c == '\U{2029}'
    || c == '\U{202F}'
    || c == '\U{205F}'
    || c == '\U{3000}'
  }

  /** Every character of `s` is whitespace (true of the empty string). */
  predicate AllWhitespace(s: string) {
    forall i :: 0 <= i < |s| ==> IsWhitespace(s[i])
  }

  /** Neither the first nor the last character is whitespace. */
  predicate Trimmed(s: string) {
    s == [] || (!IsWhitespace(s[0]) && !IsWhitespace(s[|s| - 1]))
  }

  predicate EndsWith(s: string, suffix: string) {
    |suffix| <= |s| && s[|s| - |suffix|..] == suffix
  }

  /** `t` is a contiguous piece of `s`. */
  ghost predicate IsSlice(t: string, s: string) {
    exists i, j :: 0 <= i <= j <= |s| && t == s[i..j]
  }

  /** `s` written out `k` times. */
  function Repeat(s: string, k: nat): string {
    if k == 0 then [] else s + Repeat(s, k - 1)
  }

  /** `str::trim_start`. */
  function TrimStart(s: string): string {
    if |s| > 0 && IsWhitespace(s[0]) then TrimStart(s[1..]) else s
  }

  /** `str::trim_end`. */
  function TrimEnd(s: string): string {
    if |s| > 0 && IsWhitespace(s[|s| - 1]) then TrimEnd(s[..|s| - 1]) else s
  }

  /** `str::trim`. */
  function Trim(s: string): string {
    TrimEnd(TrimStart(s))
  }

  /** `str::trim_start_matches` with a string pattern. */
  function TrimStartMatches(s: string, p: string): string
    decreases |s|
  {
    if p != [] && p <= s then TrimStartMatches(s[|p|..], p) else s
  }

  /** `str::trim_end_matches` with a string pattern. */
  function TrimEndMatches(s: string, p: string): string
    decreases |s|
  {
    if p != [] && EndsWith(s, p) then TrimEndMatches(s[..|s| - |p|], p) else s
  }

  /** ASCII lower-casing of one character; every other character is left alone. */
  function LowerAsciiChar(c: char): char {
    if 'A' <= c <= 'Z' then (c as int - 'A' as int + 'a' as int) as char else c
  }

  /** `str::to_lowercase` restricted to ASCII letters. */
  function LowerAscii(s: string): string {
    seq(|s|, i requires 0 <= i < |s| => LowerAsciiChar(s[i]))
  }

  // ---------------------------------------------------------------------------
  // Trimming whitespace

  /** `trim_start` drops the longest whitespace prefix and keeps the rest. */
  lemma {:induction false} TrimStartSpec(s: string)
    ensures var r := TrimStart(s);
      && |r| <= |s| && r == s[|s| - |r|..]
      && AllWhitespace(s[..|s| - |r|])
      && (r == [] || !IsWhitespace(r[0]))
    decreases |s|
  {
    if |s| > 0 && IsWhitespace(s[0]) {
      var t := s[1..];
      var r := TrimStart(t);
      assert TrimStart(s) == r;
      TrimStartSpec(t);
      SuffixOfDrop(s, 1, r);
      WhitespaceCons(s, |s| - |r|);
    }
  }

  /** A whitespace character followed by a whitespace run is a whitespace run. */
  lemma WhitespaceCons(s: string, n: nat)
    requires 1 <= n <= |s| && IsWhitespace(s[0]) && AllWhitespace(s[1..][..n - 1])
    ensures AllWhitespace(s[..n])
  {
    forall i | 0 <= i < n
      ensures IsWhitespace(s[..n][i])
    {
      if i > 0 {
        assert s[..n][i] == s[1..][..n - 1][i - 1];
      }
    }
  }

  /** `trim_end` drops the longest whitespace suffix and keeps the rest. */
  lemma {:induction false} TrimEndSpec(s: string)
    ensures var r := TrimEnd(s);
      && |r| <= |s| && r == s[..|r|]
      && AllWhitespace(s[|r|..])
      && (r == [] || !IsWhitespace(r[|r| - 1]))
    decreases |s|
  {
    if |s| > 0 && IsWhitespace(s[|s| - 1]) {
      var r := TrimEnd(s[..|s| - 1]);
      TrimEndSpec(s[..|s| - 1]);
      assert s[|r|..] == s[..|s| - 1][|r|..] + [s[|s| - 1]];
    }
  }

  /** The trim of a string is no longer than it and has no whitespace at either end. */
  lemma TrimIsTrimmed(s: string)
    ensures Trimmed(Trim(s)) && |Trim(s)| <= |s|
  {
    var t := TrimStart(s);
    TrimStartSpec(s);
    TrimEndSpec(t);
    var r := TrimEnd(t);
    assert r != [] ==> r[0] == t[0];
  }

  /** The trim of `s` is a contiguous piece of `s`. */
  lemma TrimIsSlice(s: string)
    ensures IsSlice(Trim(s), s)
  {
    var t := TrimStart(s);
    TrimStartSpec(s);
    TrimEndSpec(t);
    var r := TrimEnd(t);
    assert r == s[|s| - |t|..|s| - |t| + |r|];
  }

  /** `trim` leaves nothing exactly when the string is all whitespace. */
  lemma TrimEmptyIff(s: string)
    ensures Trim(s) == [] <==> AllWhitespace(s)
  {
    var t := TrimStart(s);
    TrimStartSpec(s);
    TrimEndSpec(t);
    if t == [] {
      assert s[..|s|] == s;
    } else {
      assert t[0] == s[|s| - |t|] && t[0..] == t;
      assert !IsWhitespace(t[0]);
    }
  }

  /** A trimmed string is its own trim. */
  lemma TrimOfTrimmed(s: string)
    requires Trimmed(s)
    ensures Trim(s) == s
  {
    assert TrimStart(s) == s;
    assert TrimEnd(s) == s;
  }

  /** `trim` is idempotent. */
  lemma TrimIdempotent(s: string)
    ensures Trim(Trim(s)) == Trim(s)
  {
    TrimIsTrimmed(s);
    TrimOfTrimmed(Trim(s));
  }

  /** Whitespace around a trimmed core is exactly what `trim` removes. */
  lemma TrimPadded(pre: string, core: string, post: string)
    requires AllWhitespace(pre) && AllWhitespace(post) && Trimmed(core)
    ensures Trim(pre + core + post) == core
  {
    if core == [] {
      assert AllWhitespace(pre + core + post);
      TrimEmptyIff(pre + core + post);
    } else {
      assert pre + core + post == pre + (core + post);
      TrimStartPadded(pre, core + post);
      TrimEndPadded(core, post);
    }
  }

  lemma {:induction false} TrimStartPadded(pre: string, rest: string)
    requires AllWhitespace(pre) && (rest == [] || !IsWhitespace(rest[0]))
    ensures TrimStart(pre + rest) == rest
    decreases |pre|
  {
    if pre != [] {
      assert (pre + rest)[1..] == pre[1..] + rest;
      TrimStartPadded(pre[1..], rest);
    } else {
      assert pre + rest == rest;
    }
  }

  lemma {:induction false} TrimEndPadded(core: string, post: string)
    requires AllWhitespace(post) && (core == [] || !IsWhitespace(core[|core| - 1]))
    ensures TrimEnd(core + post) == core
    decreases |post|
  {
    if post != [] {
      assert (core + post)[..|core + post| - 1] == core + post[..|post| - 1];
      TrimEndPadded(core, post[..|post| - 1]);
    } else {
      assert core + post == core;
    }
  }

  // ---------------------------------------------------------------------------
  // Trimming a repeated pattern

  /**
   * `trim_start_matches` keeps a suffix of its input that does not start with
   * the pattern.
   */
  lemma {:induction false} TrimStartMatchesSuffix(s: string, p: string)
    requires p != []
    ensures var r := TrimStartMatches(s, p);
      |r| <= |s| && r == s[|s| - |r|..] && !(p <= r)
    decreases |s|
  {
    if p <= s {
      var t := s[|p|..];
      var r := TrimStartMatches(t, p);
      assert TrimStartMatches(s, p) == r;
      TrimStartMatchesSuffix(t, p);
      SuffixOfDrop(s, |p|, r);
    }
  }

  /** A suffix of what is left after dropping `n` characters is a suffix of the whole. */
  lemma SuffixOfDrop(s: string, n: nat, r: string)
    requires n <= |s| && |r| <= |s| - n && r == s[n..][|s| - n - |r|..]
    ensures r == s[|s| - |r|..]
  {
    assert s[n..][|s| - n - |r|..] == s[|s| - |r|..];
  }

  /** The number of copies of the pattern that `trim_start_matches` drops. */
  lemma {:induction false} TrimStartMatchesCount(s: string, p: string) returns (k: nat)
    requires p != []
    ensures s == Repeat(p, k) + TrimStartMatches(s, p)
    decreases |s|
  {
    var r := TrimStartMatches(s, p);
    if p <= s {
      var t := s[|p|..];
      assert r == TrimStartMatches(t, p);
      var j := TrimStartMatchesCount(t, p);
      assert s == p + t;
      PrependCopy(p, t, r, j);
      k := j + 1;
    } else {
      k := 0;
    }
  }

  lemma PrependCopy(p: string, t: string, r: string, j: nat)
    requires t == Repeat(p, j) + r
    ensures p + t == Repeat(p, j + 1) + r
  {
    assert Repeat(p, j + 1) == p + Repeat(p, j);
  }

  /** What `trim_start_matches` drops is a run of copies of the pattern. */
  lemma TrimStartMatchesRun(s: string, p: string)
    requires p != []
    ensures exists k: nat :: s == Repeat(p, k) + TrimStartMatches(s, p)
  {
    var k := TrimStartMatchesCount(s, p);
  }

  /**
   * `trim_end_matches` keeps a prefix of its input that does not end with the
   * pattern.
   */
  lemma {:induction false} TrimEndMatchesPrefix(s: string, p: string)
    requires p != []
    ensures var r := TrimEndMatches(s, p);
      |r| <= |s| && r == s[..|r|] && !EndsWith(r, p)
    decreases |s|
  {
    if EndsWith(s, p) {
      var t := s[..|s| - |p|];
      var r := TrimEndMatches(t, p);
      assert TrimEndMatches(s, p) == r;
      TrimEndMatchesPrefix(t, p);
      assert t[..|r|] == s[..|r|];
    }
  }

  /** The number of copies of the pattern that `trim_end_matches` drops. */
  lemma {:induction false} TrimEndMatchesCount(s: string, p: string) returns (k: nat)
    requires p != []
    ensures s == TrimEndMatches(s, p) + Repeat(p, k)
    decreases |s|
  {
    var r := TrimEndMatches(s, p);
    if EndsWith(s, p) {
      var t := s[..|s| - |p|];
      assert r == TrimEndMatches(t, p);
      var j := TrimEndMatchesCount(t, p);
      DropSuffix(s, p);
      AppendCopy(p, t, r, j);
      k := j + 1;
    } else {
      k := 0;
    }
  }

  lemma DropSuffix(s: string, p: string)
    requires EndsWith(s, p)
    ensures s == s[..|s| - |p|] + p
  {
    assert s == s[..|s| - |p|] + s[|s| - |p|..];
  }

  lemma AppendCopy(p: string, t: string, r: string, j: nat)
    requires t == r + Repeat(p, j)
    ensures t + p == r + Repeat(p, j + 1)
  {
    RepeatSnoc(p, j);
  }

  /** What `trim_end_matches` drops is a run of copies of the pattern. */
  lemma TrimEndMatchesRun(s: string, p: string)
    requires p != []
    ensures exists k: nat :: s == TrimEndMatches(s, p) + Repeat(p, k)
  {
    var k := TrimEndMatchesCount(s, p);
  }

  lemma {:induction false} RepeatSnoc(p: string, k: nat)
    ensures Repeat(p, k + 1) == Repeat(p, k) + p
  {
    if k > 0 {
      RepeatSnoc(p, k - 1);
    }
  }

  // ---------------------------------------------------------------------------
  // Slices

  /** Slices compose: a slice of a slice of `s` is a slice of `s`. */
  lemma SliceOfSlice(a: string, b: string, c: string)
    requires IsSlice(a, b) && IsSlice(b, c)
    ensures IsSlice(a, c)
  {
    var i, j :| 0 <= i <= j <= |b| && a == b[i..j];
    var k, l :| 0 <= k <= l <= |c| && b == c[k..l];
    forall x | 0 <= x < j - i
      ensures a[x] == c[k + i..k + j][x]
    {
      assert a[x] == b[i + x] == c[k + i + x];
    }
    assert a == c[k + i..k + j];
  }

  // ---------------------------------------------------------------------------
  // Lower-casing

  /** The only strings that lower-case to `null` are the sixteen spellings of N, U, L, L. */
  lemma LowerAsciiNull(s: string)
    ensures LowerAscii(s) == "null" <==>
      && |s| == 4
      && (s[0] == 'n' || s[0] == 'N')
      && (s[1] == 'u' || s[1] == 'U')
      && (s[2] == 'l' || s[2] == 'L')
      && (s[3] == 'l' || s[3] == 'L')
  {
    if |s| == 4 {
      var r := LowerAscii(s);
      LowerAsciiCharIs(s[0], 'n', 'N');
      LowerAsciiCharIs(s[1], 'u', 'U');
      LowerAsciiCharIs(s[2], 'l', 'L');
      LowerAsciiCharIs(s[3], 'l', 'L');
      assert r == [LowerAsciiChar(s[0]), LowerAsciiChar(s[1]), LowerAsciiChar(s[2]), LowerAsciiChar(s[3])];
    }
  }

  lemma LowerAsciiCharIs(c: char, lower: char, upper: char)
    requires 'a' <= lower <= 'z' && upper as int == lower as int - 32
    ensures LowerAsciiChar(c) == lower <==> c == lower || c == upper
  {
  }

  /** A common prefix cancels: `p + x == p + y` only when `x == y`. */
  lemma PrefixCancel(p: string, x: string, y: string)
    requires p + x == p + y
    ensures x == y
  {
    assert x == (p + x)[|p|..];
    assert y == (p + y)[|p|..];
  }
}
