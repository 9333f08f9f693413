/** The LIKE operator on decrypted text.

    Source: src/privacy_zone/tee.cpp, MatchText. */
module Like {

  /** The like predicate of section 8.5 of ISO/IEC 9075-2 with backslash as escape character: `%`
      stands for any substring, `_` for any one character, a backslash makes the next pattern
      character literal and matches nothing when there is none. */
  ghost predicate Matches(t: string, p: string)
    decreases p
  {
    if p == [] then t == []
    else if p[0] == '%' then exists k | 0 <= k <= |t| :: Matches(t[k..], p[1..])
    else if p[0] == '_' then t != [] && Matches(t[1..], p[1..])
    else if p[0] == '\\' then |p| >= 2 && t != [] && t[0] == p[1] && Matches(t[1..], p[2..])
    else t != [] && t[0] == p[0] && Matches(t[1..], p[1..])
  }

  /** Some suffix of `t` matches `q`: the meaning of `%` followed by `q`. */
  ghost predicate SomeSuffixMatches(t: string, q: string) {
    exists k | 0 <= k <= |t| :: Matches(t[k..], q)
  }

  lemma SuffixStep(t: string, q: string)
    ensures SomeSuffixMatches(t, q) <==> Matches(t, q) || (t != [] && SomeSuffixMatches(t[1..], q))
  {
    assert t[0..] == t;
    if SomeSuffixMatches(t, q) {
      var k :| 0 <= k <= |t| && Matches(t[k..], q);
      if k > 0 { assert t[1..][k - 1..] == t[k..]; }
    }
    if t != [] && SomeSuffixMatches(t[1..], q) {
      var k :| 0 <= k <= |t| - 1 && Matches(t[1..][k..], q);
      assert t[1..][k..] == t[k + 1..];
    }
  }

  /** A further `%` adds nothing. */
  lemma {:induction false} SkipPercent(t: string, q: string)
    requires q != [] && q[0] == '%'
    ensures SomeSuffixMatches(t, q) <==> SomeSuffixMatches(t, q[1..])
  {
    SuffixStep(t, q);
    SuffixStep(t, q[1..]);
    assert Matches(t, q) <==> SomeSuffixMatches(t, q[1..]);
    if t != [] { SkipPercent(t[1..], q); }
  }

  /** A `_` after a `%` costs one character of text. */
  lemma {:induction false} SkipUnderscore(t: string, q: string)
    requires q != [] && q[0] == '_'
    ensures SomeSuffixMatches(t, q) <==> t != [] && SomeSuffixMatches(t[1..], q[1..])
  {
    SuffixStep(t, q);
    if t != [] {
      SkipUnderscore(t[1..], q);
      SuffixStep(t[1..], q[1..]);
    }
  }

  lemma EmptyPatternMatchesASuffix(t: string)
    ensures SomeSuffixMatches(t, [])
  {
    assert Matches(t[|t|..], []);
  }

  /** On empty text exactly the patterns made of `%` match. */
  lemma {:induction false} EmptyText(p: string)
    ensures Matches([], p) <==> forall i | 0 <= i < |p| :: p[i] == '%'
  {
    if p != [] {
      EmptyText(p[1..]);
      var t: string := [];
      assert t[0..] == t;
      assert forall i | 0 < i < |p| :: p[i] == p[1..][i - 1];
    }
  }

  /** MatchText with its cursors as indices: `i` into the text, `j` into the pattern. The result
      LIKE_ABORT is the same number as LIKE_FALSE in the source. */
  method MatchText(t: string, p: string) returns (matched: bool)
    ensures matched <==> Matches(t, p)
    decreases |p|, 0
  {
    if |p| == 1 && p[0] == '%' {
      EmptyPatternMatchesASuffix(t);
      assert p[1..] == [];
      return true;
    }
    var i, j := 0, 0;
    while i < |t| && j < |p|
      invariant 0 <= i <= |t| && 0 <= j <= |p|
      invariant Matches(t, p) <==> Matches(t[i..], p[j..])
      decreases |p| - j
    {
      assert t[i..][1..] == t[i + 1..] && p[j..][1..] == p[j + 1..];
      if p[j] == '\\' {
        j := j + 1;
        if j >= |p| {
          return false;
        }
        assert p[j - 1..][2..] == p[j + 1..];
        if p[j] != t[i] {
          return false;
        }
      } else if p[j] == '%' {
        matched := MatchAfterPercent(t[i..], p[j + 1..]);
        return;
      } else if p[j] == '_' {
        i, j := i + 1, j + 1;
        continue;
      } else if p[j] != t[i] {
        return false;
      }
      i, j := i + 1, j + 1;
    }
    if i < |t| {
      return false;
    }
    while j < |p| && p[j] == '%'
      invariant 0 <= j <= |p|
      invariant Matches(t, p) <==> Matches([], p[j..])
    {
      EmptyText(p[j..]);
      EmptyText(p[j + 1..]);
      assert p[j..] == [p[j]] + p[j + 1..];
      j := j + 1;
    }
    EmptyText(p[j..]);
    return j >= |p|;
  }

  /** The `%` branch: skip further wildcards, then try the rest of the pattern at each text
      position whose character is the first literal one. */
  method MatchAfterPercent(t: string, p: string) returns (matched: bool)
    ensures matched <==> SomeSuffixMatches(t, p)
    decreases |p|, 1
  {
    var i, j := 0, 0;
    while j < |p|
      invariant 0 <= i <= |t| && 0 <= j <= |p|
      invariant SomeSuffixMatches(t, p) <==> SomeSuffixMatches(t[i..], p[j..])
    {
      assert p[j..][1..] == p[j + 1..];
      if p[j] == '%' {
        SkipPercent(t[i..], p[j..]);
        j := j + 1;
      } else if p[j] == '_' {
        SkipUnderscore(t[i..], p[j..]);
        if i >= |t| {
          return false;
        }
        assert t[i..][1..] == t[i + 1..];
        i, j := i + 1, j + 1;
      } else {
        break;
      }
    }
    if j >= |p| {
      EmptyPatternMatchesASuffix(t[i..]);
      return true;
    }
    var rest := p[j..];
    var first: char;
    if rest[0] == '\\' {
      if |rest| < 2 {
        NoSuffixMatchesDanglingEscape(t[i..], rest);
        return false;
      }
      first := rest[1];
    } else {
      first := rest[0];
    }
    while i < |t|
      invariant 0 <= i <= |t|
      invariant SomeSuffixMatches(t, p) <==> SomeSuffixMatches(t[i..], rest)
    {
      SuffixStep(t[i..], rest);
      assert t[i..][1..] == t[i + 1..];
      if t[i] == first {
        var here := MatchText(t[i..], rest);
        if here {
          return true;
        }
      }
      i := i + 1;
    }
    SuffixStep(t[i..], rest);
    return false;
  }

  lemma {:induction false} NoSuffixMatchesDanglingEscape(t: string, q: string)
    requires q == "\\"
    ensures !SomeSuffixMatches(t, q)
  {
    SuffixStep(t, q);
    if t != [] { NoSuffixMatchesDanglingEscape(t[1..], q); }
  }
}
