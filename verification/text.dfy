/** The string operations the editor applies to object names: ordinal
    `Contains`, `Replace(pattern, "")`, `Trim()` and their combination that
    removes the engine's "(Clone)" suffix. */
module Text {

  const CloneSuffix := "(Clone)"

  /** Does `sub` occur in `s` (ordinal comparison)? */
  predicate Contains(s: string, sub: string) {
    exists i | 0 <= i <= |s| - |sub| :: OccursAt(s, sub, i)
  }

  predicate OccursAt(s: string, sub: string, i: int) {
    0 <= i <= |s| - |sub| && s[i..i + |sub|] == sub
  }

  /** Left-to-right, non-overlapping removal of every occurrence of `pat`,
      as `string.Replace(pat, "")` does. */
  function RemoveAll(s: string, pat: string): (r: string)
    requires |pat| > 0
    ensures |r| <= |s|
    decreases |s|
  {
    if |s| < |pat| then s
    else if s[..|pat|] == pat then RemoveAll(s[|pat|..], pat)
    else [s[0]] + RemoveAll(s[1..], pat)
  }

  /** Removal only takes characters away: none occurs in the result more
      often than in the input. */
  lemma {:induction false} RemoveAllOnlyRemoves(s: string, pat: string)
    requires |pat| > 0
    ensures multiset(RemoveAll(s, pat)) <= multiset(s)
    decreases |s|
  {
    if |s| < |pat| {
    } else if s[..|pat|] == pat {
      RemoveAllOnlyRemoves(s[|pat|..], pat);
      assert s == s[..|pat|] + s[|pat|..];
    } else {
      RemoveAllOnlyRemoves(s[1..], pat);
      assert s == [s[0]] + s[1..];
    }
  }

  /** The characters for which `char.IsWhiteSpace` holds (Unicode categories
      Zs, Zl, Zp plus the control characters U+0009..U+000D and U+0085). */
  predicate IsWhiteSpace(c: char) {
    c == ' ' || ('\t' <= c <= '\r') || c == '\U{0085}' || c == '\U{00A0}'
    || c == '\U{1680}' || ('\U{2000}' <= c <= '\U{200A}') || c == '\U{2028}'
    || c == '\U{2029}' || c == '\U{202F}' || c == '\U{205F}' || c == '\U{3000}'
  }

  /** Leading white space removed, and only that. */
  function TrimStart(s: string): (r: string)
    ensures |r| == 0 || !IsWhiteSpace(r[0])
    ensures |r| <= |s| && r == s[|s| - |r|..]
    ensures forall k | 0 <= k < |s| - |r| :: IsWhiteSpace(s[k])
  {
    if |s| > 0 && IsWhiteSpace(s[0]) then TrimStart(s[1..]) else s
  }

  /** Trailing white space removed, and only that. */
  function TrimEnd(s: string): (r: string)
    ensures |r| == 0 || !IsWhiteSpace(r[|r| - 1])
    ensures |r| <= |s| && r == s[..|r|]
    ensures forall k | |r| <= k < |s| :: IsWhiteSpace(s[k])
  {
    if |s| > 0 && IsWhiteSpace(s[|s| - 1]) then TrimEnd(s[..|s| - 1]) else s
  }

  /** `string.Trim()`: a middle part of `s` with no white space at either
      end, everything cut off on both sides being white space. */
  function Trim(s: string): (r: string)
    ensures |r| == 0 || (!IsWhiteSpace(r[0]) && !IsWhiteSpace(r[|r| - 1]))
    ensures exists i, j | 0 <= i <= j <= |s| ::
      r == s[i..j] && forall k | 0 <= k < i || j <= k < |s| :: IsWhiteSpace(s[k])
  {
    var t := TrimStart(s);
    var r := TrimEnd(t);
    assert |r| > 0 ==> r[0] == t[0];
    TrimCuts(s, t, r);
    r
  }

  /** The two cuts `Trim` makes: white space off the front of `s` gives
      `t`, white space off the back of `t` gives `r`. */
  lemma TrimCuts(s: string, t: string, r: string)
    requires |t| <= |s| && t == s[|s| - |t|..] && forall k | 0 <= k < |s| - |t| :: IsWhiteSpace(s[k])
    requires |r| <= |t| && r == t[..|r|] && forall k | |r| <= k < |t| :: IsWhiteSpace(t[k])
    ensures exists i, j | 0 <= i <= j <= |s| ::
      r == s[i..j] && forall k | 0 <= k < i || j <= k < |s| :: IsWhiteSpace(s[k])
  {
    var i, j := |s| - |t|, |s| - |t| + |r|;
    assert r == s[i..j];
    forall k | j <= k < |s|
      ensures IsWhiteSpace(s[k])
    {
      assert s[k] == t[k - i];
    }
    assert forall k | 0 <= k < i || j <= k < |s| :: IsWhiteSpace(s[k]);
  }

  predicate Trimmed(s: string) {
    |s| == 0 || (!IsWhiteSpace(s[0]) && !IsWhiteSpace(s[|s| - 1]))
  }

  /** `name.Replace("(Clone)", "").Trim()`. */
  function StripClone(s: string): (r: string)
    ensures Trimmed(r)
  {
    Trim(RemoveAll(s, CloneSuffix))
  }

  /** A string without leading or trailing white space is its own trim. */
  lemma TrimOfTrimmed(s: string)
    requires Trimmed(s)
    ensures Trim(s) == s
  {
  }

  /** Trimming twice is trimming once. */
  lemma TrimIdempotent(s: string)
    ensures Trim(Trim(s)) == Trim(s)
  {
    TrimOfTrimmed(Trim(s));
  }

  /** An occurrence at the front, or anywhere in the tail, is an occurrence. */
  lemma ContainsFrontOrTail(s: string, pat: string)
    requires |s| >= |pat|
    ensures s[..|pat|] == pat ==> Contains(s, pat)
    ensures |s| > 0 && Contains(s[1..], pat) ==> Contains(s, pat)
  {
    if s[..|pat|] == pat {
      assert OccursAt(s, pat, 0);
    }
    if |s| > 0 && Contains(s[1..], pat) {
      var i :| 0 <= i <= |s[1..]| - |pat| && OccursAt(s[1..], pat, i);
      assert s[i + 1..i + 1 + |pat|] == s[1..][i..i + |pat|];
      assert OccursAt(s, pat, i + 1);
    }
  }

  /** Removing a pattern that does not occur leaves the string unchanged. */
  lemma {:induction false} RemoveAllAbsent(s: string, pat: string)
    requires |pat| > 0 && !Contains(s, pat)
    ensures RemoveAll(s, pat) == s
    decreases |s|
  {
    if |s| >= |pat| {
      ContainsFrontOrTail(s, pat);
      RemoveAllAbsent(s[1..], pat);
      assert [s[0]] + s[1..] == s;
    }
  }

  /** The engine's clone suffix can never begin inside the name in front of it,
      because '(' occurs only at its first position: so appending the suffix
      and removing every occurrence gives the same as removing from the name. */
  lemma {:induction false} RemoveAllSuffix(s: string)
    ensures RemoveAll(s + CloneSuffix, CloneSuffix) == RemoveAll(s, CloneSuffix)
    decreases |s|
  {
    var p := CloneSuffix;
    var t := s + p;
    if |s| == 0 {
      assert t == p;
      assert t[|p|..] == [];
    } else if |s| >= |p| {
      assert t[..|p|] == s[..|p|];
      if s[..|p|] == p {
        assert t[|p|..] == s[|p|..] + p;
        RemoveAllSuffix(s[|p|..]);
      } else {
        assert t[1..] == s[1..] + p;
        RemoveAllSuffix(s[1..]);
      }
    } else {
      // 1 <= |s| < 7: the suffix would have to start inside s
      assert t[|s|] == '(';
      assert t[..|p|] != p by {
        assert p[|s|] != '(';
      }
      assert t[1..] == s[1..] + p;
      RemoveAllSuffix(s[1..]);
      assert RemoveAll(s[1..], p) == s[1..];
      assert [s[0]] + s[1..] == s;
    }
  }

  /** The name an instantiated copy of prefab `n` gets back after stripping. */
  lemma StripCloneOfCopy(n: string)
    ensures StripClone(n + CloneSuffix) == StripClone(n)
  {
    RemoveAllSuffix(n);
  }

  /** A stripped name is a fixed point of stripping exactly when nothing of the
      suffix remains in it. */
  lemma StripCloneFixed(n: string)
    requires Trimmed(n) && !Contains(n, CloneSuffix)
    ensures StripClone(n) == n
  {
    RemoveAllAbsent(n, CloneSuffix);
    TrimOfTrimmed(n);
  }
}
