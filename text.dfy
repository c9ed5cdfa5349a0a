/** Whitespace stripping as Python 3's `str.strip()` (no arguments) does it. */
module Text {

  /** The characters for which Python 3's `str.isspace()` holds (Unicode 6.3 or later):
      tab, line feed, vertical tab, form feed, carriage return, the four ASCII
      information separators, space, and the Unicode space separators. */
  predicate IsSpace(c: char) {
    ('\t' <= c <= '\r') || ('\U{1C}' <= c <= '\U{1F}') || c == ' '
    || c == '\U{85}' || c == '\U{A0}' || c == '\U{1680}'
    || ('\U{2000}' <= c <= '\U{200A}') || c == '\U{2028}' || c == '\U{2029}'
    || c == '\U{202F}' || c == '\U{205F}' || c == '\U{3000}'
  }

  /** The characters of `s` at positions `lo` up to (not including) `hi` are all whitespace. */
  predicate SpaceBetween(s: string, lo: int, hi: int) {
    forall k :: lo <= k < hi && 0 <= k < |s| ==> IsSpace(s[k])
  }

  predicate AllSpace(s: string) {
    SpaceBetween(s, 0, |s|)
  }

  /** Neither end of `s` is whitespace (the empty string counts as trimmed). */
  predicate Trimmed(s: string) {
    s == [] || (!IsSpace(s[0]) && !IsSpace(s[|s| - 1]))
  }

  /** `r` is the slice of `s` that starts at `i`, and everything of `s` before and
      after that slice is whitespace. */
  predicate IsCoreAt(s: string, r: string, i: int) {
    && 0 <= i <= |s| - |r|
    && s[i..i + |r|] == r
    && SpaceBetween(s, 0, i)
    && SpaceBetween(s, i + |r|, |s|)
  }

  /** `s` without its leading whitespace. */
  function TrimStart(s: string): (r: string)
    decreases |s|
  {
    if s != [] && IsSpace(s[0]) then TrimStart(s[1..]) else s
  }

  /** `s` without its trailing whitespace. */
  function TrimEnd(s: string): (r: string)
    decreases |s|
  {
    if s != [] && IsSpace(s[|s| - 1]) then TrimEnd(s[..|s| - 1]) else s
  }

  /** TrimStart keeps a suffix of `s`, drops only whitespace, and stops at the first
      character that is not whitespace. */
  lemma {:induction false} TrimStartSpec(s: string)
    ensures |TrimStart(s)| <= |s| && TrimStart(s) == s[|s| - |TrimStart(s)|..]
    ensures SpaceBetween(s, 0, |s| - |TrimStart(s)|)
    ensures TrimStart(s) == [] || !IsSpace(TrimStart(s)[0])
    decreases |s|
  {
    if s != [] && IsSpace(s[0]) {
      var rest := s[1..];
      TrimStartSpec(rest);
      forall k | 0 < k < |s| - |TrimStart(s)| ensures IsSpace(s[k]) {
        assert s[k] == rest[k - 1];
      }
    }
  }

  /** TrimEnd keeps a prefix of `s`, drops only whitespace, and stops at the last
      character that is not whitespace. */
  lemma {:induction false} TrimEndSpec(s: string)
    ensures |TrimEnd(s)| <= |s| && TrimEnd(s) == s[..|TrimEnd(s)|]
    ensures SpaceBetween(s, |TrimEnd(s)|, |s|)
    ensures TrimEnd(s) == [] || !IsSpace(TrimEnd(s)[|TrimEnd(s)| - 1])
    decreases |s|
  {
    if s != [] && IsSpace(s[|s| - 1]) {
      var init := s[..|s| - 1];
      TrimEndSpec(init);
      forall k | |TrimEnd(s)| <= k < |s| - 1 ensures IsSpace(s[k]) {
        assert s[k] == init[k];
      }
    }
  }

  /** Python's `s.strip()`: the result is a contiguous slice of `s`, trimmed at both
      ends, and everything cut off on either side is whitespace. */
  function Strip(s: string): (r: string)
    ensures Trimmed(r)
    ensures exists i :: IsCoreAt(s, r, i)
  {
    TrimBothCore(s);
    TrimEnd(TrimStart(s))
  }

  /** Trimming the start and then the end leaves the core of `s`. */
  lemma TrimBothCore(s: string)
    ensures Trimmed(TrimEnd(TrimStart(s)))
    ensures IsCoreAt(s, TrimEnd(TrimStart(s)), |s| - |TrimStart(s)|)
  {
    var t := TrimStart(s);
    var r := TrimEnd(t);
    var i := |s| - |t|;
    TrimStartSpec(s);
    TrimEndSpec(t);
    if r != [] {
      assert r[0] == t[0];
    }
    assert s[i..i + |r|] == t[..|r|];
    forall k | i + |r| <= k < |s| ensures IsSpace(s[k]) {
      assert s[k] == t[k - i];
    }
  }

  lemma {:induction false} TrimStartSkipsSpaces(p: string, t: string)
    requires AllSpace(p)
    ensures TrimStart(p + t) == TrimStart(t)
    decreases |p|
  {
    if p != [] {
      assert (p + t)[0] == p[0] && IsSpace(p[0]);
      assert (p + t)[1..] == p[1..] + t;
      assert TrimStart(p + t) == TrimStart((p + t)[1..]);
      var rest := p[1..];
      forall k | 0 <= k < |rest| ensures IsSpace(rest[k]) {
        assert rest[k] == p[k + 1];
      }
      TrimStartSkipsSpaces(rest, t);
    } else {
      assert p + t == t;
    }
  }

  lemma {:induction false} TrimEndSkipsSpaces(t: string, q: string)
    requires AllSpace(q)
    ensures TrimEnd(t + q) == TrimEnd(t)
    decreases |q|
  {
    if q != [] {
      assert (t + q)[|t + q| - 1] == q[|q| - 1] && IsSpace(q[|q| - 1]);
      assert (t + q)[..|t + q| - 1] == t + q[..|q| - 1];
      var init := q[..|q| - 1];
      forall k | 0 <= k < |init| ensures IsSpace(init[k]) {
        assert init[k] == q[k];
      }
      TrimEndSkipsSpaces(t, init);
    } else {
      assert t + q == t;
    }
  }

  /** Strip is determined by a decomposition into leading whitespace, a trimmed middle
      and trailing whitespace: it removes exactly the whitespace at both ends and keeps
      every interior character, whitespace included. */
  lemma {:induction false} StripDecomposition(p: string, m: string, q: string)
    requires AllSpace(p) && Trimmed(m) && AllSpace(q)
    ensures Strip(p + m + q) == m
  {
    assert p + m + q == p + (m + q);
    TrimStartSkipsSpaces(p, m + q);
    if m == [] {
      assert m + q == q + [];
      TrimStartSkipsSpaces(q, []);
      assert TrimStart(p + m + q) == [];
    } else {
      assert (m + q)[0] == m[0];
      assert TrimStart(m + q) == m + q;
      TrimEndSkipsSpaces(m, q);
      assert TrimEnd(m) == m;
    }
  }

  /** The same uniqueness stated on positions: a trimmed slice of `s` with only
      whitespace around it is what Strip returns. */
  lemma StripUnique(s: string, m: string, i: int)
    requires Trimmed(m) && IsCoreAt(s, m, i)
    ensures Strip(s) == m
  {
    var p, q := s[..i], s[i + |m|..];
    assert s == p + m + q;
    forall k | 0 <= k < |p| ensures IsSpace(p[k]) {
      assert p[k] == s[k];
    }
    forall k | 0 <= k < |q| ensures IsSpace(q[k]) {
      assert q[k] == s[i + |m| + k];
    }
    StripDecomposition(p, m, q);
  }

  /** A string that is already trimmed is left unchanged. */
  lemma StripOfTrimmed(s: string)
    requires Trimmed(s)
    ensures Strip(s) == s
  {
    StripDecomposition([], s, []);
    assert [] + s + [] == s;
  }

  /** Stripping twice is stripping once. */
  lemma StripIdempotent(s: string)
    ensures Strip(Strip(s)) == Strip(s)
  {
    StripOfTrimmed(Strip(s));
  }
}
