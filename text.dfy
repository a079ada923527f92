/**
 * The string operations the backend relies on, as Python defines them:
 * `str.isspace`, `str.strip()`, `str.lower()`, `startswith` and `endswith`.
 * Strings are sequences of Unicode scalar values. A Python `str` may also hold lone surrogates
 * (U+D800 to U+DFFF), which a Dafny `char` cannot, so the model covers strings without them. No
 * surrogate is whitespace or a letter, so on those strings `strip`, `lower` and every length agree.
 */
module Text {
  import opened Sequences

  /**
   * The 29 characters that Python's `str.isspace()` accepts and `str.strip()` removes, one by one:
   * the ASCII space and the controls tab to carriage return and file to unit separator, then
   * NEL, no-break space, the Ogham space mark, the spaces of the General Punctuation block, the
   * line and paragraph separators, the narrow no-break and medium mathematical spaces, and the
   * ideographic space.
   */
  const PythonWhitespace: set<char> := {
    ' ', '\t', '\n', '\U{B}', '\U{C}', '\r', '\U{1C}', '\U{1D}', '\U{1E}', '\U{1F}',
    '\U{85}', '\U{A0}', '\U{1680}',
    '\U{2000}', '\U{2001}', '\U{2002}', '\U{2003}', '\U{2004}', '\U{2005}', '\U{2006}',
    '\U{2007}', '\U{2008}', '\U{2009}', '\U{200A}',
    '\U{2028}', '\U{2029}', '\U{202F}', '\U{205F}', '\U{3000}'}

  /** Python's `str.isspace()` for one character, written with ranges. */
  predicate IsSpace(c: char) {
    || c == ' '
    || ('\t' <= c <= '\r')
    || ('\U{1C}' <= c <= '\U{1F}')
    || c == '\U{85}' || c == '\U{A0}' || c == '\U{1680}'
    || ('\U{2000}' <= c <= '\U{200A}')
    || c == '\U{2028}' || c == '\U{2029}' || c == '\U{202F}' || c == '\U{205F}' || c == '\U{3000}'
  }

  /** The ranges of IsSpace cover exactly the whitespace table. */
  lemma IsSpaceIsPythonWhitespace(c: char)
    ensures IsSpace(c) <==> c in PythonWhitespace
  {
  }

  predicate AllSpace(s: string) {
    forall i :: 0 <= i < |s| ==> IsSpace(s[i])
  }

  /** Neither the first nor the last character is whitespace: the shape of a stripped string. */
  predicate NoOuterSpace(s: string) {
    s == [] || (!IsSpace(s[0]) && !IsSpace(s[|s| - 1]))
  }

  /** The number of whitespace characters `s` starts with. */
  function LeadingSpace(s: string): (n: nat)
    ensures n <= |s|
    ensures n == |s| || !IsSpace(s[n])
  {
    if |s| > 0 && IsSpace(s[0]) then 1 + LeadingSpace(s[1..]) else 0
  }

  /** The number of whitespace characters `s` ends with. */
  function TrailingSpace(s: string): (n: nat)
    ensures n <= |s|
    ensures n == |s| || !IsSpace(s[|s| - 1 - n])
  {
    if |s| > 0 && IsSpace(s[|s| - 1]) then 1 + TrailingSpace(s[..|s| - 1]) else 0
  }

  /** `s.lstrip()`. */
  function StripStart(s: string): string {
    s[LeadingSpace(s)..]
  }

  /** `s.rstrip()`. */
  function StripEnd(s: string): string {
    s[..|s| - TrailingSpace(s)]
  }

  /** What `lstrip` cuts off is whitespace. */
  lemma {:induction false} StripStartCut(s: string)
    ensures AllSpace(s[..LeadingSpace(s)])
    decreases |s|
  {
    if |s| > 0 && IsSpace(s[0]) {
      var n := LeadingSpace(s[1..]);
      StripStartCut(s[1..]);
      TakeOfDrop(s, 1, n);
      AllSpaceConcat(s[..1], s[1..][..n]);
    }
  }

  /** What `rstrip` cuts off is whitespace. */
  lemma {:induction false} StripEndCut(s: string)
    ensures AllSpace(s[|s| - TrailingSpace(s)..])
    decreases |s|
  {
    if |s| > 0 && IsSpace(s[|s| - 1]) {
      var init := s[..|s| - 1];
      var n := TrailingSpace(init);
      StripEndCut(init);
      var k := |s| - 1 - n;
      assert TrailingSpace(s) == 1 + n;
      DropOfTake(s, |s| - 1, k);
      assert AllSpace(s[k..|s| - 1]);
      assert AllSpace(s[|s| - 1..]) by {
        assert s[|s| - 1..][0] == s[|s| - 1];
      }
      AllSpaceConcat(s[k..|s| - 1], s[|s| - 1..]);
    }
  }

  /** `s.strip()`: neither end of the result is whitespace; StripInfix says what was cut off. */
  function Strip(s: string): (r: string)
    ensures NoOuterSpace(r)
    ensures |r| <= |s|
  {
    var t := StripStart(s);
    assert t == [] || t[0] == s[LeadingSpace(s)];
    StripEnd(t)
  }

  /** `strip` keeps the slice of `s` that starts after the leading whitespace. */
  lemma StripSlice(s: string)
    ensures LeadingSpace(s) + |Strip(s)| <= |s|
    ensures Strip(s) == s[LeadingSpace(s)..LeadingSpace(s) + |Strip(s)|]
  {
    var i := LeadingSpace(s);
    var t := s[i..];
    TakeOfDrop(s, i, |t| - TrailingSpace(t));
  }

  /** What `strip` cuts off after the part it keeps is whitespace. */
  lemma StripTrailCut(s: string)
    ensures LeadingSpace(s) + |Strip(s)| <= |s|
    ensures AllSpace(s[LeadingSpace(s) + |Strip(s)|..])
  {
    var i := LeadingSpace(s);
    var t := s[i..];
    var n := |t| - TrailingSpace(t);
    assert |Strip(s)| == n;
    TakeOfDrop(s, i, n);
    StripEndCut(t);
  }

  /**
   * The stripped string is the infix of `s` that starts after the leading whitespace, and
   * everything cut off on either side is whitespace.
   */
  lemma StripInfix(s: string)
    ensures var i := LeadingSpace(s);
      && i + |Strip(s)| <= |s|
      && Strip(s) == s[i..i + |Strip(s)|]
      && AllSpace(s[..i])
      && AllSpace(s[i + |Strip(s)|..])
  {
    StripSlice(s);
    StripStartCut(s);
    StripTrailCut(s);
  }

  predicate StartsWith(s: string, prefix: string) {
    |prefix| <= |s| && s[..|prefix|] == prefix
  }

  predicate EndsWith(s: string, suffix: string) {
    |suffix| <= |s| && s[|s| - |suffix|..] == suffix
  }

  /** Lower-cases an ASCII capital letter and leaves every other character alone. */
  function LowerChar(c: char): char {
    if 'A' <= c <= 'Z' then (c as int + 32) as char else c
  }

  /** `s.lower()`, restricted to ASCII letters. */
  function Lower(s: string): (r: string)
    ensures |r| == |s|
    ensures forall i :: 0 <= i < |s| ==> r[i] == LowerChar(s[i])
  {
    seq(|s|, i requires 0 <= i < |s| => LowerChar(s[i]))
  }

  /** A non-whitespace character anywhere in the middle part keeps the whole from being whitespace. */
  lemma NotAllSpaceInside(p: string, m: string, q: string, j: nat)
    requires j < |m| && !IsSpace(m[j])
    ensures !AllSpace(p + m + q)
  {
    assert (p + m + q)[|p| + j] == m[j];
  }

  lemma AllSpaceConcat(a: string, b: string)
    requires AllSpace(a) && AllSpace(b)
    ensures AllSpace(a + b)
  {
    forall k | 0 <= k < |a + b| ensures IsSpace((a + b)[k]) {
      if k >= |a| { assert (a + b)[k] == b[k - |a|]; }
    }
  }

  /** Leading whitespace is counted in full and then counting goes on in what follows. */
  lemma {:induction false} LeadingSpaceSkips(w: string, t: string)
    requires AllSpace(w)
    ensures LeadingSpace(w + t) == |w| + LeadingSpace(t)
    decreases |w|
  {
    if w == [] {
      ConcatEmpty(t);
    } else {
      ConcatTail(w, t);
      LeadingSpaceSkips(w[1..], t);
    }
  }

  /** Trailing whitespace is counted in full and then counting goes on in what precedes it. */
  lemma {:induction false} TrailingSpaceSkips(t: string, w: string)
    requires AllSpace(w)
    ensures TrailingSpace(t + w) == TrailingSpace(t) + |w|
    decreases |w|
  {
    if w == [] {
      ConcatEmpty(t);
    } else {
      ConcatFront(t, w);
      TrailingSpaceSkips(t, w[..|w| - 1]);
    }
  }

  /** Leading whitespace never changes what `lstrip` leaves. */
  lemma StripStartSkips(w: string, t: string)
    requires AllSpace(w)
    ensures StripStart(w + t) == StripStart(t)
  {
    LeadingSpaceSkips(w, t);
    SliceConcat(w, t, LeadingSpace(t));
  }

  /** Trailing whitespace never changes what `rstrip` leaves. */
  lemma StripEndSkips(t: string, w: string)
    requires AllSpace(w)
    ensures StripEnd(t + w) == StripEnd(t)
  {
    TrailingSpaceSkips(t, w);
    SliceConcat(t, w, |t| - TrailingSpace(t));
  }

  /**
   * `strip` is determined by its shape: a string made of whitespace, then a middle part with no
   * outer whitespace, then whitespace again, strips to exactly that middle part.
   */
  lemma StripUnique(w1: string, m: string, w2: string)
    requires AllSpace(w1) && AllSpace(w2) && NoOuterSpace(m)
    ensures Strip(w1 + m + w2) == m
  {
    ConcatAssoc(w1, m, w2);
    StripStartSkips(w1, m + w2);
    if m == [] {
      ConcatEmpty(w2);
      StripStartSkips(w2, []);
    } else {
      assert (m + w2)[0] == m[0];
      StripEndSkips(m, w2);
    }
  }

  /** Stripping twice is stripping once. */
  lemma StripIdempotent(s: string)
    ensures Strip(Strip(s)) == Strip(s)
  {
    var m := Strip(s);
    ConcatEmpty(m);
    StripUnique([], m, []);
  }

  /** Whitespace added on either side of a string does not change what it strips to. */
  lemma StripIgnoresOuterSpace(w1: string, s: string, w2: string)
    requires AllSpace(w1) && AllSpace(w2)
    ensures Strip(w1 + s + w2) == Strip(s)
  {
    var m := Strip(s);
    var i := LeadingSpace(s);
    StripInfix(s);
    SplitAt(s, i, i + |m|);
    StripAround(w1, s[..i], m, s[i + |m|..], w2);
  }

  lemma StripAround(w1: string, lead: string, m: string, trail: string, w2: string)
    requires AllSpace(w1) && AllSpace(lead) && AllSpace(trail) && AllSpace(w2) && NoOuterSpace(m)
    ensures Strip(w1 + (lead + m + trail) + w2) == m
  {
    AllSpaceConcat(w1, lead);
    AllSpaceConcat(trail, w2);
    Regroup(w1, lead, m, trail, w2);
    StripUnique(w1 + lead, m, trail + w2);
  }

  /** A string strips to nothing exactly when it is all whitespace. */
  lemma StripEmptyIff(s: string)
    ensures Strip(s) == [] <==> AllSpace(s)
  {
    if AllSpace(s) {
      ConcatEmpty(s);
      StripUnique(s, [], []);
    }
    if Strip(s) == [] {
      var i := LeadingSpace(s);
      StripInfix(s);
      DropOfTake(s, i, 0);
      AllSpaceConcat(s[..i], s[i..]);
    }
  }
}
