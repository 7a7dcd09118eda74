/** The parts of .NET's System.String and System.Text.StringBuilder that the text helpers
    are built on: ordinal search and replace, Trim, ToLower, Split and Join. */
module Strings {

  /** How two characters are compared. `Ordinal` is String.Replace's comparison;
      `OrdinalIgnoreCase` compares after ASCII lower-casing, which is what
      RegexOptions.IgnoreCase amounts to for patterns made of ASCII letters and punctuation. */
  datatype Comparison = Ordinal | OrdinalIgnoreCase

  predicate IsAsciiUpper(c: char) { 'A' <= c <= 'Z' }

  predicate IsAsciiLower(c: char) { 'a' <= c <= 'z' }

  /** Char.ToLower restricted to ASCII: only 'A'..'Z' change. */
  function LowerChar(c: char): (r: char)
    ensures !IsAsciiUpper(r)
    ensures r != c ==> IsAsciiUpper(c) && IsAsciiLower(r)
  {
    if IsAsciiUpper(c) then (c as int + 32) as char else c
  }

  /** String.ToLower with ASCII case mapping. */
  function ToLower(s: string): (r: string)
    ensures |r| == |s|
    ensures forall i :: 0 <= i < |s| ==> r[i] == LowerChar(s[i])
  {
    if |s| == 0 then [] else [LowerChar(s[0])] + ToLower(s[1..])
  }

  predicate SameChar(a: char, b: char, cmp: Comparison) {
    match cmp
    case Ordinal => a == b
    case OrdinalIgnoreCase => LowerChar(a) == LowerChar(b)
  }

  /** No character of `r` compares equal to `c`. */
  predicate Avoids(r: string, c: char, cmp: Comparison) {
    forall i :: 0 <= i < |r| ==> !SameChar(r[i], c, cmp)
  }

  /** `s` begins with `p` under `cmp`. */
  predicate StartsWith(s: string, p: string, cmp: Comparison)
    ensures StartsWith(s, p, cmp) ==> |p| <= |s|
    decreases |p|
  {
    |p| == 0 || (|s| > 0 && SameChar(s[0], p[0], cmp) && StartsWith(s[1..], p[1..], cmp))
  }

  /** `p` occurs somewhere in `s` under `cmp` (String.Contains for `Ordinal`). */
  predicate Contains(s: string, p: string, cmp: Comparison)
    decreases |s|
  {
    StartsWith(s, p, cmp) || (|s| > 0 && Contains(s[1..], p, cmp))
  }

  /** String.IndexOf(c) for a character that occurs: the first position holding `c`. */
  function IndexOf(s: string, c: char): (k: nat)
    requires c in s
    ensures k < |s| && s[k] == c && c !in s[..k]
    decreases |s|
  {
    if s[0] == c then 0
    else
      var k := IndexOf(s[1..], c);
      assert s[..k + 1] == [s[0]] + s[1..][..k];
      k + 1
  }

  /** String.LastIndexOf(c, startIndex) for a start inside the string: the last position at or
      before `start` holding `c`, or -1 when there is none. */
  function LastIndexOf(s: string, c: char, start: nat): (k: int)
    requires start < |s|
    ensures -1 <= k <= start
    ensures k >= 0 ==> s[k] == c
    ensures forall j :: k < j <= start ==> s[j] != c
    decreases start
  {
    if s[start] == c then start else if start == 0 then -1 else LastIndexOf(s, c, start - 1)
  }

  /** String.Replace(pat, rep): scan left to right and replace every non-overlapping
      occurrence of `pat`. .NET throws on an empty `pat`, hence the precondition. A replacement
      at most as long as the pattern never lengthens the text. */
  function ReplaceAll(s: string, pat: string, rep: string, cmp: Comparison): (r: string)
    requires |pat| > 0
    ensures |rep| <= |pat| ==> |r| <= |s|
    decreases |s|
  {
    if |s| == 0 then []
    else if StartsWith(s, pat, cmp) then rep + ReplaceAll(s[|pat|..], pat, rep, cmp)
    else [s[0]] + ReplaceAll(s[1..], pat, rep, cmp)
  }

  /** The number of replacements ReplaceAll makes. */
  function MatchCount(s: string, pat: string, cmp: Comparison): nat
    requires |pat| > 0
    decreases |s|
  {
    if |s| == 0 then 0
    else if StartsWith(s, pat, cmp) then 1 + MatchCount(s[|pat|..], pat, cmp)
    else MatchCount(s[1..], pat, cmp)
  }

  /** A left fold of ReplaceAll over `targets`, all replaced by the same `rep`
      (the Aggregate over String.Replace in TextHelper.Replace). */
  function ReplaceEach(s: string, targets: seq<string>, rep: string, cmp: Comparison): string
    requires forall i :: 0 <= i < |targets| ==> |targets[i]| > 0
    decreases |targets|
  {
    if |targets| == 0 then s else ReplaceEach(ReplaceAll(s, targets[0], rep, cmp), targets[1..], rep, cmp)
  }

  /** Every pair has a non-empty pattern. */
  predicate Patterned(pairs: seq<(string, string)>) {
    forall i :: 0 <= i < |pairs| ==> |pairs[i].0| > 0
  }

  /** A left fold of ordinal ReplaceAll(pattern, replacement) over `pairs`, in order. */
  function ReplacePairs(s: string, pairs: seq<(string, string)>): string
    requires Patterned(pairs)
    decreases |pairs|
  {
    if |pairs| == 0 then s else ReplacePairs(ReplaceAll(s, pairs[0].0, pairs[0].1, Ordinal), pairs[1..])
  }

  // ---------------------------------------------------------------------------
  // Facts about StartsWith and Contains

  lemma {:induction false} StartsWithAt(s: string, p: string, cmp: Comparison, k: nat)
    requires StartsWith(s, p, cmp) && k < |p|
    ensures k < |s| && SameChar(s[k], p[k], cmp)
    decreases k
  {
    if k > 0 {
      StartsWithAt(s[1..], p[1..], cmp, k - 1);
    }
  }

  /** A text with a mismatch inside the pattern's length does not start with it. */
  lemma MismatchAt(s: string, p: string, cmp: Comparison, k: nat)
    requires k < |p| && k < |s| && !SameChar(s[k], p[k], cmp)
    ensures !StartsWith(s, p, cmp)
  {
    if StartsWith(s, p, cmp) {
      StartsWithAt(s, p, cmp, k);
    }
  }

  lemma {:induction false} OrdinalStartsWith(s: string, p: string)
    ensures StartsWith(s, p, Ordinal) <==> p <= s
    decreases |p|
  {
    if |p| > 0 && |s| > 0 {
      OrdinalStartsWith(s[1..], p[1..]);
      if p <= s {
        assert p[1..] <= s[1..];
      }
      if s[0] == p[0] && p[1..] <= s[1..] {
        assert p == [p[0]] + p[1..];
        assert s[..|p|] == [s[0]] + s[1..][..|p| - 1];
      }
    }
  }

  lemma {:induction false} StartsWithAppend(r: string, x: string, p: string, cmp: Comparison)
    requires StartsWith(r + x, p, cmp) && |p| <= |r|
    ensures StartsWith(r, p, cmp)
    decreases |p|
  {
    if |p| > 0 {
      assert (r + x)[1..] == r[1..] + x;
      StartsWithAppend(r[1..], x, p[1..], cmp);
    }
  }

  /** An occurrence at any position is an occurrence. */
  lemma {:induction false} ContainsAt(s: string, p: string, cmp: Comparison, k: nat)
    requires k <= |s| && StartsWith(s[k..], p, cmp)
    ensures Contains(s, p, cmp)
    decreases k
  {
    if k > 0 {
      assert s[1..][k - 1..] == s[k..];
      ContainsAt(s[1..], p, cmp, k - 1);
    }
  }

  /** An occurrence in a suffix is an occurrence. */
  lemma {:induction false} ContainsSuffix(s: string, p: string, cmp: Comparison, k: nat)
    requires k <= |s| && Contains(s[k..], p, cmp)
    ensures Contains(s, p, cmp)
    decreases k
  {
    if k > 0 {
      assert s[1..][k - 1..] == s[k..];
      ContainsSuffix(s[1..], p, cmp, k - 1);
    }
  }

  /** A pattern longer than the text does not occur in it. */
  lemma {:induction false} ContainsShorter(s: string, p: string, cmp: Comparison)
    requires |s| < |p|
    ensures !Contains(s, p, cmp)
    decreases |s|
  {
    if |s| > 0 {
      ContainsShorter(s[1..], p, cmp);
    }
  }

  /** An ordinal occurrence of `p` puts every character of `p` into `s`. */
  lemma {:induction false} ContainsChars(s: string, p: string, k: nat)
    requires Contains(s, p, Ordinal) && k < |p|
    ensures p[k] in s
    decreases |s|
  {
    if StartsWith(s, p, Ordinal) {
      StartsWithAt(s, p, Ordinal, k);
    } else {
      ContainsChars(s[1..], p, k);
    }
  }

  /** An occurrence of `p` puts its first and its last character into `s`. */
  lemma ContainsEnds(s: string, p: string)
    requires |p| > 0
    ensures Contains(s, p, Ordinal) ==> p[0] in s && p[|p| - 1] in s
  {
    if Contains(s, p, Ordinal) {
      ContainsChars(s, p, 0);
      ContainsChars(s, p, |p| - 1);
    }
  }

  /** Prefixing characters that never match the first character of `p` creates no occurrence. */
  lemma {:induction false} PrependAvoiding(r: string, x: string, p: string, cmp: Comparison)
    requires |p| > 0 && Avoids(r, p[0], cmp) && !Contains(x, p, cmp)
    ensures !Contains(r + x, p, cmp)
    decreases |r|
  {
    if |r| > 0 {
      assert (r + x)[1..] == r[1..] + x;
      PrependAvoiding(r[1..], x, p, cmp);
    } else {
      assert r + x == x;
    }
  }

  /** Patterns equal up to ASCII case have the same case-insensitive occurrences. */
  lemma {:induction false} CaseVariantStartsWith(s: string, p: string, q: string)
    requires |p| == |q| && forall i :: 0 <= i < |p| ==> LowerChar(p[i]) == LowerChar(q[i])
    ensures StartsWith(s, p, OrdinalIgnoreCase) <==> StartsWith(s, q, OrdinalIgnoreCase)
    decreases |p|
  {
    if |p| > 0 && |s| > 0 {
      CaseVariantStartsWith(s[1..], p[1..], q[1..]);
    }
  }

  lemma {:induction false} CaseVariantContains(s: string, p: string, q: string)
    requires |p| == |q| && forall i :: 0 <= i < |p| ==> LowerChar(p[i]) == LowerChar(q[i])
    ensures Contains(s, p, OrdinalIgnoreCase) <==> Contains(s, q, OrdinalIgnoreCase)
    decreases |s|
  {
    CaseVariantStartsWith(s, p, q);
    if |s| > 0 {
      CaseVariantContains(s[1..], p, q);
    }
  }

  // ---------------------------------------------------------------------------
  // Facts about ReplaceAll

  /** A pattern that does not occur leaves the string unchanged. */
  lemma {:induction false} ReplaceAbsent(s: string, pat: string, rep: string, cmp: Comparison)
    requires |pat| > 0 && !Contains(s, pat, cmp)
    ensures ReplaceAll(s, pat, rep, cmp) == s
    decreases |s|
  {
    if |s| > 0 {
      ReplaceAbsent(s[1..], pat, rep, cmp);
      assert s == [s[0]] + s[1..];
    }
  }

  /** A pattern one of whose end characters is missing leaves the string unchanged. */
  lemma ReplaceUnfound(s: string, pat: string, rep: string)
    requires |pat| > 0 && (pat[0] !in s || pat[|pat| - 1] !in s)
    ensures ReplaceAll(s, pat, rep, Ordinal) == s
  {
    ContainsEnds(s, pat);
    ReplaceAbsent(s, pat, rep, Ordinal);
  }

  /** Where no occurrence can straddle the seam, because a character next to it is not in the
      pattern, String.Replace works on the two sides separately. */
  lemma {:induction false} ReplaceSplit(a: string, b: string, pat: string, rep: string)
    requires |pat| > 0 && |a| > 0 && |b| > 0 && (a[|a| - 1] !in pat || b[0] !in pat)
    ensures ReplaceAll(a + b, pat, rep, Ordinal) == ReplaceAll(a, pat, rep, Ordinal) + ReplaceAll(b, pat, rep, Ordinal)
    decreases |a|
  {
    if StartsWith(a + b, pat, Ordinal) {
      MatchBeforeSplit(a, b, pat);
      if |pat| < |a| {
        LastKept(a, |pat|);
        ReplaceSplit(a[|pat|..], b, pat, rep);
      }
      SplitAtMatch(a, b, pat, rep);
    } else {
      if |a| > 1 {
        LastKept(a, 1);
        ReplaceSplit(a[1..], b, pat, rep);
      }
      SplitPastChar(a, b, pat, rep);
    }
  }

  /** Dropping a prefix keeps the last element. */
  lemma LastKept(a: string, i: nat)
    requires i < |a|
    ensures a[i..][|a| - i - 1] == a[|a| - 1]
  {
  }

  /** ReplaceSplit's step at a match that ends inside `a`. */
  lemma SplitAtMatch(a: string, b: string, pat: string, rep: string)
    requires 0 < |pat| <= |a| && StartsWith(a + b, pat, Ordinal) && StartsWith(a, pat, Ordinal)
    requires |pat| < |a| ==> ReplaceAll(a[|pat|..] + b, pat, rep, Ordinal) == ReplaceAll(a[|pat|..], pat, rep, Ordinal) + ReplaceAll(b, pat, rep, Ordinal)
    ensures ReplaceAll(a + b, pat, rep, Ordinal) == ReplaceAll(a, pat, rep, Ordinal) + ReplaceAll(b, pat, rep, Ordinal)
  {
    ReplaceAtMatch(a + b, pat, rep, Ordinal);
    ReplaceAtMatch(a, pat, rep, Ordinal);
    assert (a + b)[|pat|..] == a[|pat|..] + b;
    if |pat| == |a| {
      assert a[|pat|..] == [] && a[|pat|..] + b == b;
    }
  }

  /** ReplaceSplit's step where `a + b` does not start with the pattern. */
  lemma SplitPastChar(a: string, b: string, pat: string, rep: string)
    requires |pat| > 0 && |a| > 0 && !StartsWith(a + b, pat, Ordinal)
    requires |a| > 1 ==> ReplaceAll(a[1..] + b, pat, rep, Ordinal) == ReplaceAll(a[1..], pat, rep, Ordinal) + ReplaceAll(b, pat, rep, Ordinal)
    ensures ReplaceAll(a + b, pat, rep, Ordinal) == ReplaceAll(a, pat, rep, Ordinal) + ReplaceAll(b, pat, rep, Ordinal)
  {
    if StartsWith(a, pat, Ordinal) {
      StartsWithExtend(a, b, pat, Ordinal);
      assert false;
    }
    ReplacePastChar(a + b, pat, rep, Ordinal);
    ReplacePastChar(a, pat, rep, Ordinal);
    assert (a + b)[1..] == a[1..] + b;
    if |a| == 1 {
      assert a[1..] == [] && a[1..] + b == b;
    }
  }

  /** A match at the start of `a + b` ends inside `a` when it could not cover both sides of the
      split. */
  lemma MatchBeforeSplit(a: string, b: string, pat: string)
    requires |a| > 0 && |b| > 0 && (a[|a| - 1] !in pat || b[0] !in pat)
    requires StartsWith(a + b, pat, Ordinal)
    ensures |pat| <= |a| && StartsWith(a, pat, Ordinal)
  {
    var s := a + b;
    OrdinalStartsWith(s, pat);
    OrdinalStartsWith(a, pat);
    assert s[|a| - 1] == a[|a| - 1] && s[|a|] == b[0];
    assert forall k :: 0 <= k < |pat| ==> pat[k] == s[k];
    assert |pat| <= |a|;
    assert pat <= a;
  }

  /** A character that is not in the pattern splits String.Replace into the parts before and
      after it. */
  lemma ReplaceAround(a: string, c: char, b: string, pat: string, rep: string)
    requires |pat| > 0 && c !in pat
    ensures ReplaceAll(a + [c] + b, pat, rep, Ordinal) == ReplaceAll(a, pat, rep, Ordinal) + [c] + ReplaceAll(b, pat, rep, Ordinal)
  {
    var cb := [c] + b;
    assert !StartsWith(cb, pat, Ordinal) by {
      assert pat[0] in pat;
    }
    assert cb[1..] == b;
    if |a| > 0 {
      ReplaceSplit(a, cb, pat, rep);
      assert a + [c] + b == a + cb;
    } else {
      assert a + [c] + b == cb;
    }
  }

  /** So does a character that is in no pattern and no replacement of a fold. */
  lemma {:induction false} ReplacePairsAround(a: string, c: char, b: string, pairs: seq<(string, string)>)
    requires Patterned(pairs)
    requires forall i :: 0 <= i < |pairs| ==> c !in pairs[i].0 && c !in pairs[i].1
    ensures ReplacePairs(a + [c] + b, pairs) == ReplacePairs(a, pairs) + [c] + ReplacePairs(b, pairs)
    decreases |pairs|
  {
    if |pairs| > 0 {
      var p := pairs[0].0;
      var r := pairs[0].1;
      ReplaceAround(a, c, b, p, r);
      ReplacePairsAround(ReplaceAll(a, p, r, Ordinal), c, ReplaceAll(b, p, r, Ordinal), pairs[1..]);
    }
  }

  /** A prefix none of whose characters can begin the pattern passes through String.Replace
      unchanged. */
  lemma {:induction false} ReplaceSkip(a: string, b: string, pat: string, rep: string, cmp: Comparison)
    requires |pat| > 0 && Avoids(a, pat[0], cmp)
    ensures ReplaceAll(a + b, pat, rep, cmp) == a + ReplaceAll(b, pat, rep, cmp)
    decreases |a|
  {
    if |a| > 0 {
      var s := a + b;
      assert s[0] == a[0] && !SameChar(a[0], pat[0], cmp);
      assert s[1..] == a[1..] + b;
      ReplaceSkip(a[1..], b, pat, rep, cmp);
    } else {
      assert a + b == b;
    }
  }

  /** A match at the very start is replaced, and the scan resumes right after it. */
  lemma ReplaceHere(m: string, b: string, pat: string, rep: string, cmp: Comparison)
    requires |pat| > 0 && |m| == |pat| && StartsWith(m, pat, cmp)
    ensures ReplaceAll(m + b, pat, rep, cmp) == rep + ReplaceAll(b, pat, rep, cmp)
  {
    StartsWithExtend(m, b, pat, cmp);
    assert (m + b)[|pat|..] == b;
  }

  lemma {:induction false} StartsWithExtend(m: string, b: string, p: string, cmp: Comparison)
    requires StartsWith(m, p, cmp)
    ensures StartsWith(m + b, p, cmp)
    decreases |p|
  {
    if |p| > 0 {
      assert (m + b)[1..] == m[1..] + b;
      StartsWithExtend(m[1..], b, p[1..], cmp);
    }
  }

  /** Every string begins with itself, under either comparison. */
  lemma {:induction false} StartsWithSelf(p: string, cmp: Comparison)
    ensures StartsWith(p, p, cmp)
    decreases |p|
  {
    if |p| > 0 {
      StartsWithSelf(p[1..], cmp);
    }
  }

  /** A string that starts with `p` is `p` followed by the rest. */
  lemma SplitPrefix(s: string, p: string)
    requires StartsWith(s, p, Ordinal)
    ensures |p| <= |s| && s == p + s[|p|..]
  {
    OrdinalStartsWith(s, p);
  }

  /** ReplaceAll at a match: the replacement, then the rest after the match. */
  lemma ReplaceAtMatch(s: string, pat: string, rep: string, cmp: Comparison)
    requires |pat| > 0 && |s| > 0 && StartsWith(s, pat, cmp)
    ensures ReplaceAll(s, pat, rep, cmp) == rep + ReplaceAll(s[|pat|..], pat, rep, cmp)
  {
  }

  /** ReplaceAll away from a match: the first character, then the rest. */
  lemma ReplacePastChar(s: string, pat: string, rep: string, cmp: Comparison)
    requires |pat| > 0 && |s| > 0 && !StartsWith(s, pat, cmp)
    ensures ReplaceAll(s, pat, rep, cmp) == [s[0]] + ReplaceAll(s[1..], pat, rep, cmp)
  {
  }

  /** Replacing a pattern by itself changes nothing. */
  lemma {:induction false} ReplaceBySelf(s: string, pat: string)
    requires |pat| > 0
    ensures ReplaceAll(s, pat, pat, Ordinal) == s
    decreases |s|
  {
    if |s| > 0 {
      if StartsWith(s, pat, Ordinal) {
        SplitPrefix(s, pat);
        ReplaceBySelf(s[|pat|..], pat);
        ReplaceAtMatch(s, pat, pat, Ordinal);
      } else {
        ReplaceBySelf(s[1..], pat);
        ReplacePastChar(s, pat, pat, Ordinal);
        assert s == [s[0]] + s[1..];
      }
    }
  }

  /** Length accounting: every replacement changes the length by |rep| - |pat|. */
  lemma {:induction false} ReplaceLength(s: string, pat: string, rep: string, cmp: Comparison)
    requires |pat| > 0
    ensures |ReplaceAll(s, pat, rep, cmp)| == |s| + MatchCount(s, pat, cmp) * (|rep| - |pat|)
    decreases |s|
  {
    if |s| > 0 {
      var d := |rep| - |pat|;
      if StartsWith(s, pat, cmp) {
        var t := s[|pat|..];
        ReplaceLength(t, pat, rep, cmp);
        var m := MatchCount(t, pat, cmp);
        assert |ReplaceAll(s, pat, rep, cmp)| == |rep| + |ReplaceAll(t, pat, rep, cmp)|;
        assert MatchCount(s, pat, cmp) == m + 1;
        assert |s| == |pat| + |t|;
        MulSucc(m, d);
      } else {
        var t := s[1..];
        ReplaceLength(t, pat, rep, cmp);
        assert |ReplaceAll(s, pat, rep, cmp)| == 1 + |ReplaceAll(t, pat, rep, cmp)|;
        assert MatchCount(s, pat, cmp) == MatchCount(t, pat, cmp);
      }
    }
  }

  lemma MulSucc(m: int, d: int)
    ensures (m + 1) * d == m * d + d
  {
  }

  /** ReplaceAll finds every pattern that occurs: an occurrence means at least one replacement. */
  lemma {:induction false} ContainsMatches(s: string, pat: string, cmp: Comparison)
    requires |pat| > 0 && Contains(s, pat, cmp)
    ensures MatchCount(s, pat, cmp) >= 1
    decreases |s|
  {
    if !StartsWith(s, pat, cmp) {
      ContainsMatches(s[1..], pat, cmp);
    }
  }

  /** A shorter replacement shrinks the string whenever the pattern occurs. */
  lemma ReplaceShrinks(s: string, pat: string, rep: string, cmp: Comparison)
    requires |pat| > 0 && |rep| < |pat| && Contains(s, pat, cmp)
    ensures |ReplaceAll(s, pat, rep, cmp)| < |s|
  {
    ReplaceLength(s, pat, rep, cmp);
    ContainsMatches(s, pat, cmp);
    NegativeProduct(MatchCount(s, pat, cmp), |rep| - |pat|);
  }

  /** A positive count of a negative change is a negative change. */
  lemma NegativeProduct(m: int, d: int)
    requires m >= 1 && d <= -1
    ensures m * d <= -1
  {
    assert m * d == m * (d + 1) - m;
    assert m * (d + 1) <= 0;
  }

  /** Every character of the result comes from the input or from the replacement. */
  lemma {:induction false} ReplaceKeepsOut(s: string, pat: string, rep: string, cmp: Comparison, c: char)
    requires |pat| > 0 && c !in s && c !in rep
    ensures c !in ReplaceAll(s, pat, rep, cmp)
    decreases |s|
  {
    if |s| > 0 {
      if StartsWith(s, pat, cmp) {
        ReplaceKeepsOut(s[|pat|..], pat, rep, cmp, c);
      } else {
        ReplaceKeepsOut(s[1..], pat, rep, cmp, c);
      }
    }
  }

  /** A single-character pass removes that character, unless the replacement brings it back. */
  lemma {:induction false} ReplaceRemovesChar(s: string, c: char, rep: string)
    requires c !in rep
    ensures c !in ReplaceAll(s, [c], rep, Ordinal)
    decreases |s|
  {
    if |s| > 0 {
      assert StartsWith(s[1..], [c][1..], Ordinal);
      ReplaceRemovesChar(s[1..], c, rep);
    }
  }

  /** A character that is not part of the pattern is never removed. */
  lemma {:induction false} ReplaceKeepsIn(s: string, pat: string, rep: string, c: char)
    requires |pat| > 0 && c !in pat && c in s
    ensures c in ReplaceAll(s, pat, rep, Ordinal)
    decreases |s|
  {
    if StartsWith(s, pat, Ordinal) {
      OrdinalStartsWith(s, pat);
      assert c !in s[..|pat|];
      assert s == s[..|pat|] + s[|pat|..];
      ReplaceKeepsIn(s[|pat|..], pat, rep, c);
    } else if s[0] != c {
      ReplaceKeepsIn(s[1..], pat, rep, c);
    }
  }

  /** Placed `d` characters after the start of `q`, `pat` agrees with `q` wherever the two overlap. */
  predicate Agree(pat: string, q: string, d: int) {
    forall k :: 0 <= k < |q| && 0 <= k - d < |pat| ==> q[k] == pat[k - d]
  }

  /** No placement of `pat` that overlaps `q` agrees with it: a match of `pat` can never take
      up part of an occurrence of `q`. */
  predicate Apart(pat: string, q: string) {
    forall d :: -|pat| < d < |q| ==> !Agree(pat, q, d)
  }

  /** Strings without a common character are apart. */
  lemma DisjointApart(pat: string, q: string)
    requires 0 < |pat| && 0 < |q|
    requires forall i, j :: 0 <= i < |pat| && 0 <= j < |q| ==> pat[i] != q[j]
    ensures Apart(pat, q)
  {
    forall d | -|pat| < d < |q| ensures !Agree(pat, q, d) {
      var k := if d < 0 then 0 else d;
      assert q[k] != pat[k - d];
    }
  }

  /** `w` runs from '<' to '>' and holds no other '<' or '>', as an HTML tag does. */
  predicate Bracketed(w: string) {
    2 <= |w| && w[0] == '<' && w[|w| - 1] == '>'
    && (forall k :: 0 < k < |w| ==> w[k] != '<')
    && (forall k :: 0 <= k < |w| - 1 ==> w[k] != '>')
  }

  /** Two different tags never overlap. */
  lemma BracketedApart(pat: string, q: string)
    requires Bracketed(pat) && Bracketed(q) && pat != q
    ensures Apart(pat, q)
  {
    forall d | -|pat| < d < |q| ensures !Agree(pat, q, d) {
      if d < 0 {
        assert q[0] != pat[0 - d];
      } else if d > 0 {
        assert q[d] != pat[d - d];
      } else if |pat| < |q| {
        assert q[|pat| - 1] != pat[|pat| - 1];
      } else if |q| < |pat| {
        assert q[|q| - 1] != pat[|q| - 1];
      } else {
        var k :| 0 <= k < |q| && q[k] != pat[k];
        assert q[k] != pat[k - d];
      }
    }
  }

  /** An occurrence of `q` in `x` is one in `a + x`. */
  lemma ContainsAfter(a: string, x: string, q: string)
    requires Contains(x, q, Ordinal)
    ensures Contains(a + x, q, Ordinal)
  {
    assert (a + x)[|a|..] == x;
    ContainsSuffix(a + x, q, Ordinal, |a|);
  }

  /** The position of an ordinal occurrence. */
  lemma {:induction false} ContainsWhere(s: string, q: string) returns (i: nat)
    requires Contains(s, q, Ordinal)
    ensures i + |q| <= |s| && s[i..i + |q|] == q
    decreases |s|
  {
    OrdinalStartsWith(s, q);
    if StartsWith(s, q, Ordinal) {
      i := 0;
    } else {
      var j := ContainsWhere(s[1..], q);
      i := j + 1;
      assert s[i..i + |q|] == s[1..][j..j + |q|];
    }
  }

  /** A match of `pat` at the start of `s`, followed `i` characters in by `q`, agrees with `q`. */
  lemma LeadAgrees(s: string, pat: string, q: string, i: nat)
    requires pat <= s && i + |q| <= |s| && s[i..i + |q|] == q
    ensures Agree(pat, q, 0 - i as int)
  {
    forall k | 0 <= k < |q| && 0 <= k + i < |pat| ensures q[k] == pat[k + i] {
      assert q[k] == s[i + k];
    }
  }

  /** A match of `pat` at the start of `s`, where `s` starts with `q[lo..]`, agrees with `q`. */
  lemma RestAgrees(s: string, pat: string, q: string, lo: nat)
    requires pat <= s && lo <= |q| && q[lo..] <= s
    ensures Agree(pat, q, lo)
  {
    forall k | 0 <= k < |q| && 0 <= k - lo < |pat| ensures q[k] == pat[k - lo] {
      assert q[k] == q[lo..][k - lo];
    }
  }

  /** Where `s` starts with the rest `q[lo..]` of an occurrence of `q`, String.Replace with a
      pattern apart from `q` keeps that rest at the front. */
  lemma {:induction false} ReplaceKeepsRest(s: string, pat: string, rep: string, q: string, lo: nat)
    requires |pat| > 0 && Apart(pat, q) && lo <= |q| && q[lo..] <= s
    ensures q[lo..] <= ReplaceAll(s, pat, rep, Ordinal)
    decreases |q| - lo
  {
    if lo < |q| {
      OrdinalStartsWith(s, pat);
      if StartsWith(s, pat, Ordinal) {
        RestAgrees(s, pat, q, lo);
        assert false;
      }
      ReplacePastChar(s, pat, rep, Ordinal);
      assert q[lo + 1..] == q[lo..][1..];
      ReplaceKeepsRest(s[1..], pat, rep, q, lo + 1);
      assert q[lo..] == [q[lo]] + q[lo + 1..];
    }
  }

  /** An occurrence of `q` at `i` survives String.Replace with a pattern apart from it. */
  lemma {:induction false} ReplaceKeepsAt(s: string, pat: string, rep: string, q: string, i: nat)
    requires |pat| > 0 && |q| > 0 && Apart(pat, q) && i + |q| <= |s| && s[i..i + |q|] == q
    ensures Contains(ReplaceAll(s, pat, rep, Ordinal), q, Ordinal)
    decreases |s|
  {
    OrdinalStartsWith(s, pat);
    if StartsWith(s, pat, Ordinal) {
      if i < |pat| {
        LeadAgrees(s, pat, q, i);
        assert false;
      }
      ReplaceAtMatch(s, pat, rep, Ordinal);
      var t := s[|pat|..];
      assert t[i - |pat|..i - |pat| + |q|] == q;
      ReplaceKeepsAt(t, pat, rep, q, i - |pat|);
      ContainsAfter(rep, ReplaceAll(t, pat, rep, Ordinal), q);
    } else if i == 0 {
      assert q[0..] == q && q <= s;
      ReplaceKeepsRest(s, pat, rep, q, 0);
      OrdinalStartsWith(ReplaceAll(s, pat, rep, Ordinal), q);
    } else {
      ReplacePastChar(s, pat, rep, Ordinal);
      assert s[1..][i - 1..i - 1 + |q|] == q;
      ReplaceKeepsAt(s[1..], pat, rep, q, i - 1);
      ContainsAfter([s[0]], ReplaceAll(s[1..], pat, rep, Ordinal), q);
    }
  }

  /** String.Replace keeps every occurrence of a string that its pattern cannot overlap. */
  lemma ReplaceKeepsApart(s: string, pat: string, rep: string, q: string)
    requires |pat| > 0 && |q| > 0 && Apart(pat, q) && Contains(s, q, Ordinal)
    ensures Contains(ReplaceAll(s, pat, rep, Ordinal), q, Ordinal)
  {
    var i := ContainsWhere(s, q);
    ReplaceKeepsAt(s, pat, rep, q, i);
  }

  /** A pattern that occurs leaves its replacement in the result. */
  lemma {:induction false} ReplaceBringsRep(s: string, pat: string, rep: string)
    requires |pat| > 0 && Contains(s, pat, Ordinal)
    ensures Contains(ReplaceAll(s, pat, rep, Ordinal), rep, Ordinal)
    decreases |s|
  {
    if StartsWith(s, pat, Ordinal) {
      ReplaceAtMatch(s, pat, rep, Ordinal);
      StartsWithSelf(rep, Ordinal);
      StartsWithExtend(rep, ReplaceAll(s[|pat|..], pat, rep, Ordinal), rep, Ordinal);
    } else {
      ReplacePastChar(s, pat, rep, Ordinal);
      ReplaceBringsRep(s[1..], pat, rep);
      ContainsAfter([s[0]], ReplaceAll(s[1..], pat, rep, Ordinal), rep);
    }
  }

  /** A fold whose targets are all apart from `q` keeps its occurrences. */
  lemma {:induction false} ReplaceEachKeepsApart(s: string, targets: seq<string>, rep: string, q: string)
    requires |q| > 0 && Contains(s, q, Ordinal)
    requires forall i :: 0 <= i < |targets| ==> |targets[i]| > 0 && Apart(targets[i], q)
    ensures Contains(ReplaceEach(s, targets, rep, Ordinal), q, Ordinal)
    decreases |targets|
  {
    if |targets| > 0 {
      ReplaceKeepsApart(s, targets[0], rep, q);
      ReplaceEachKeepsApart(ReplaceAll(s, targets[0], rep, Ordinal), targets[1..], rep, q);
    }
  }

  /** A fold whose patterns are all apart from `q` keeps its occurrences. */
  lemma {:induction false} ReplacePairsKeepsApart(s: string, pairs: seq<(string, string)>, q: string)
    requires Patterned(pairs) && |q| > 0 && Contains(s, q, Ordinal)
    requires forall i :: 0 <= i < |pairs| ==> Apart(pairs[i].0, q)
    ensures Contains(ReplacePairs(s, pairs), q, Ordinal)
    decreases |pairs|
  {
    if |pairs| > 0 {
      ReplaceKeepsApart(s, pairs[0].0, pairs[0].1, q);
      ReplacePairsKeepsApart(ReplaceAll(s, pairs[0].0, pairs[0].1, Ordinal), pairs[1..], q);
    }
  }

  /** If a prefix `w` of the result ends in a character the replacement never produces and is
      no longer than the replacement, then `w` was already a prefix of the input. */
  lemma {:induction false} PrefixThroughPass(u: string, q: string, r: string, cmpQ: Comparison, w: string, cmpW: Comparison)
    requires |q| > 0 && 0 < |w| <= |r| && Avoids(r, w[|w| - 1], cmpW)
    requires StartsWith(ReplaceAll(u, q, r, cmpQ), w, cmpW)
    ensures StartsWith(u, w, cmpW)
    decreases |u|
  {
    if |u| == 0 {
    } else if StartsWith(u, q, cmpQ) {
      var x := ReplaceAll(u[|q|..], q, r, cmpQ);
      StartsWithAppend(r, x, w, cmpW);
      StartsWithAt(r, w, cmpW, |w| - 1);
      assert false;
    } else {
      var x := ReplaceAll(u[1..], q, r, cmpQ);
      assert ([u[0]] + x)[1..] == x;
      if |w| > 1 {
        PrefixThroughPass(u[1..], q, r, cmpQ, w[1..], cmpW);
      }
    }
  }

  /** An occurrence of `p` at the very start of the output, when the pass did not fire there,
      was already at the start of the input. */
  lemma StartAfterPass(s: string, q: string, r: string, cmpQ: Comparison, p: string, cmpP: Comparison)
    requires |s| > 0 && |q| > 0 && |p| > 0 && |p| - 1 <= |r| && Avoids(r, p[|p| - 1], cmpP)
    ensures StartsWith([s[0]] + ReplaceAll(s[1..], q, r, cmpQ), p, cmpP) ==> StartsWith(s, p, cmpP)
  {
    var x := ReplaceAll(s[1..], q, r, cmpQ);
    assert ([s[0]] + x)[1..] == x;
    if StartsWith([s[0]] + x, p, cmpP) {
      if |p| > 1 {
        PrefixThroughPass(s[1..], q, r, cmpQ, p[1..], cmpP);
      }
      assert StartsWith(s[1..], p[1..], cmpP);
    }
  }

  /** After its own pass a pattern no longer occurs, provided the replacement cannot start or
      end an occurrence and is at least |pat| - 1 long (so it cannot sit inside one). */
  lemma {:induction false} ReplaceClears(s: string, pat: string, rep: string, cmp: Comparison)
    requires |pat| > 0 && |pat| - 1 <= |rep|
    requires Avoids(rep, pat[0], cmp) && Avoids(rep, pat[|pat| - 1], cmp)
    ensures !Contains(ReplaceAll(s, pat, rep, cmp), pat, cmp)
    decreases |s|
  {
    if |s| == 0 {
    } else if StartsWith(s, pat, cmp) {
      ReplaceClears(s[|pat|..], pat, rep, cmp);
      PrependAvoiding(rep, ReplaceAll(s[|pat|..], pat, rep, cmp), pat, cmp);
    } else {
      var x := ReplaceAll(s[1..], pat, rep, cmp);
      ReplaceClears(s[1..], pat, rep, cmp);
      assert ([s[0]] + x)[1..] == x;
      StartAfterPass(s, pat, rep, cmp, pat, cmp);
    }
  }

  /** A pass of another pattern does not create an occurrence of `p`, under the same
      conditions on the replacement. */
  lemma {:induction false} ReplaceKeepsFree(s: string, q: string, r: string, cmpQ: Comparison, p: string, cmpP: Comparison)
    requires |q| > 0 && |p| > 0 && |p| - 1 <= |r|
    requires Avoids(r, p[0], cmpP) && Avoids(r, p[|p| - 1], cmpP)
    requires !Contains(s, p, cmpP)
    ensures !Contains(ReplaceAll(s, q, r, cmpQ), p, cmpP)
    decreases |s|
  {
    if |s| == 0 {
    } else if StartsWith(s, q, cmpQ) {
      if Contains(s[|q|..], p, cmpP) {
        ContainsSuffix(s, p, cmpP, |q|);
      }
      ReplaceKeepsFree(s[|q|..], q, r, cmpQ, p, cmpP);
      PrependAvoiding(r, ReplaceAll(s[|q|..], q, r, cmpQ), p, cmpP);
    } else {
      var x := ReplaceAll(s[1..], q, r, cmpQ);
      ReplaceKeepsFree(s[1..], q, r, cmpQ, p, cmpP);
      assert ([s[0]] + x)[1..] == x;
      StartAfterPass(s, q, r, cmpQ, p, cmpP);
    }
  }

  /** When `c` is not in the input and the replacement holds `c` only at its start,
      every `c` in the result begins a copy of the replacement. */
  lemma {:induction false} ReplaceAnchors(s: string, pat: string, rep: string, cmp: Comparison, c: char)
    requires |pat| > 0 && |rep| > 0 && rep[0] == c && c !in s
    requires forall k :: 0 < k < |rep| ==> rep[k] != c
    ensures forall i :: 0 <= i < |ReplaceAll(s, pat, rep, cmp)| && ReplaceAll(s, pat, rep, cmp)[i] == c ==>
              rep <= ReplaceAll(s, pat, rep, cmp)[i..]
    decreases |s|
  {
    if |s| > 0 {
      var rest := if StartsWith(s, pat, cmp) then s[|pat|..] else s[1..];
      var x := ReplaceAll(rest, pat, rep, cmp);
      ReplaceAnchors(rest, pat, rep, cmp, c);
      var y := ReplaceAll(s, pat, rep, cmp);
      if StartsWith(s, pat, cmp) {
        assert y == rep + x;
        forall i | 0 <= i < |y| && y[i] == c ensures rep <= y[i..] {
          if i < |rep| {
            assert y[i..] == rep + x;
          } else {
            assert x[i - |rep|] == c;
            assert y[i..] == x[i - |rep|..];
          }
        }
      } else {
        assert y == [s[0]] + x;
        forall i | 0 <= i < |y| && y[i] == c ensures rep <= y[i..] {
          assert i > 0;
          assert x[i - 1] == c;
          assert y[i..] == x[i - 1..];
        }
      }
    }
  }

  /** With a non-empty replacement, the result's first and last characters are the input's
      or the replacement's. */
  lemma {:induction false} ReplaceEnds(s: string, pat: string, rep: string, cmp: Comparison)
    requires |pat| > 0 && |rep| > 0 && |s| > 0
    ensures var y := ReplaceAll(s, pat, rep, cmp);
            |y| > 0 && (y[0] == s[0] || y[0] == rep[0]) && (y[|y| - 1] == s[|s| - 1] || y[|y| - 1] == rep[|rep| - 1])
    decreases |s|
  {
    var rest := if StartsWith(s, pat, cmp) then s[|pat|..] else s[1..];
    if |rest| > 0 {
      ReplaceEnds(rest, pat, rep, cmp);
      assert rest[|rest| - 1] == s[|s| - 1];
    }
  }

  // ---------------------------------------------------------------------------
  // Facts about the folds

  lemma {:induction false} ReplaceEachAppend(s: string, a: seq<string>, b: seq<string>, rep: string, cmp: Comparison)
    requires forall i :: 0 <= i < |a| ==> |a[i]| > 0
    requires forall i :: 0 <= i < |b| ==> |b[i]| > 0
    ensures forall i :: 0 <= i < |a + b| ==> |(a + b)[i]| > 0
    ensures ReplaceEach(s, a + b, rep, cmp) == ReplaceEach(ReplaceEach(s, a, rep, cmp), b, rep, cmp)
    decreases |a|
  {
    if |a| > 0 {
      assert (a + b)[1..] == a[1..] + b;
      ReplaceEachAppend(ReplaceAll(s, a[0], rep, cmp), a[1..], b, rep, cmp);
    } else {
      assert a + b == b;
    }
  }

  /** A character kept out of the input and the replacement stays out through the fold. */
  lemma {:induction false} ReplaceEachKeepsOut(s: string, targets: seq<string>, rep: string, cmp: Comparison, c: char)
    requires forall i :: 0 <= i < |targets| ==> |targets[i]| > 0
    requires c !in s && c !in rep
    ensures c !in ReplaceEach(s, targets, rep, cmp)
    decreases |targets|
  {
    if |targets| > 0 {
      ReplaceKeepsOut(s, targets[0], rep, cmp, c);
      ReplaceEachKeepsOut(ReplaceAll(s, targets[0], rep, cmp), targets[1..], rep, cmp, c);
    }
  }

  /** A single-character target is gone after the fold when the replacement does not contain it. */
  lemma {:induction false} ReplaceEachRemovesChar(s: string, targets: seq<string>, rep: string, c: char)
    requires forall i :: 0 <= i < |targets| ==> |targets[i]| > 0
    requires [c] in targets && c !in rep
    ensures c !in ReplaceEach(s, targets, rep, Ordinal)
    decreases |targets|
  {
    var s' := ReplaceAll(s, targets[0], rep, Ordinal);
    if targets[0] == [c] {
      ReplaceRemovesChar(s, c, rep);
      ReplaceEachKeepsOut(s', targets[1..], rep, Ordinal, c);
    } else {
      ReplaceEachRemovesChar(s', targets[1..], rep, c);
    }
  }

  /** A pattern absent from the input and kept out by every pass stays absent through the fold. */
  lemma {:induction false} ReplaceEachKeepsFree(s: string, targets: seq<string>, rep: string, cmp: Comparison, p: string, cmpP: Comparison)
    requires forall i :: 0 <= i < |targets| ==> |targets[i]| > 0
    requires |p| > 0 && |p| - 1 <= |rep| && Avoids(rep, p[0], cmpP) && Avoids(rep, p[|p| - 1], cmpP)
    requires !Contains(s, p, cmpP)
    ensures !Contains(ReplaceEach(s, targets, rep, cmp), p, cmpP)
    decreases |targets|
  {
    if |targets| > 0 {
      ReplaceKeepsFree(s, targets[0], rep, cmp, p, cmpP);
      ReplaceEachKeepsFree(ReplaceAll(s, targets[0], rep, cmp), targets[1..], rep, cmp, p, cmpP);
    }
  }

  /** After the fold no target occurs, when no replacement can start, end or hide an occurrence. */
  lemma {:induction false} ReplaceEachClears(s: string, targets: seq<string>, rep: string, cmp: Comparison, k: nat)
    requires forall i :: 0 <= i < |targets| ==> |targets[i]| > 0
    requires k < |targets|
    requires forall i :: 0 <= i < |targets| ==>
               |targets[i]| - 1 <= |rep| && Avoids(rep, targets[i][0], cmp) && Avoids(rep, targets[i][|targets[i]| - 1], cmp)
    ensures !Contains(ReplaceEach(s, targets, rep, cmp), targets[k], cmp)
    decreases |targets|
  {
    var s' := ReplaceAll(s, targets[0], rep, cmp);
    if k == 0 {
      ReplaceClears(s, targets[0], rep, cmp);
      ReplaceEachKeepsFree(s', targets[1..], rep, cmp, targets[0], cmp);
    } else {
      ReplaceEachClears(s', targets[1..], rep, cmp, k - 1);
    }
  }

  /** Under IgnoreCase, the pass for a case variant of an earlier target changes nothing, when no
      replacement can start, end or hide an occurrence. */
  lemma CaseDuplicateIdle(s: string, targets: seq<string>, rep: string, j: nat, k: nat)
    requires forall i :: 0 <= i < |targets| ==> |targets[i]| > 0
    requires j < k < |targets|
    requires |targets[j]| == |targets[k]| && forall i :: 0 <= i < |targets[j]| ==> LowerChar(targets[j][i]) == LowerChar(targets[k][i])
    requires forall i :: 0 <= i < |targets| ==>
               |targets[i]| - 1 <= |rep| && Avoids(rep, targets[i][0], OrdinalIgnoreCase)
               && Avoids(rep, targets[i][|targets[i]| - 1], OrdinalIgnoreCase)
    ensures ReplaceEach(s, targets[..k + 1], rep, OrdinalIgnoreCase) == ReplaceEach(s, targets[..k], rep, OrdinalIgnoreCase)
  {
    ReplaceEachStep(s, targets, k, rep, OrdinalIgnoreCase);
    var t := ReplaceEach(s, targets[..k], rep, OrdinalIgnoreCase);
    assert targets[..k][j] == targets[j];
    ReplaceEachClears(s, targets[..k], rep, OrdinalIgnoreCase, j);
    CaseVariantContains(t, targets[j], targets[k]);
    ReplaceAbsent(t, targets[k], rep, OrdinalIgnoreCase);
  }

  /** A fold whose targets all are absent changes nothing. */
  lemma {:induction false} ReplaceEachAbsent(s: string, targets: seq<string>, rep: string, cmp: Comparison)
    requires forall i :: 0 <= i < |targets| ==> |targets[i]| > 0 && !Contains(s, targets[i], cmp)
    ensures ReplaceEach(s, targets, rep, cmp) == s
    decreases |targets|
  {
    if |targets| > 0 {
      ReplaceAbsent(s, targets[0], rep, cmp);
      ReplaceEachAbsent(s, targets[1..], rep, cmp);
    }
  }

  /** A fold in which every target misses its first or its last character changes nothing. */
  lemma {:induction false} ReplaceEachUnfound(s: string, targets: seq<string>, rep: string)
    requires forall i :: 0 <= i < |targets| ==>
               |targets[i]| > 0 && (targets[i][0] !in s || targets[i][|targets[i]| - 1] !in s)
    ensures ReplaceEach(s, targets, rep, Ordinal) == s
    decreases |targets|
  {
    if |targets| > 0 {
      ReplaceUnfound(s, targets[0], rep);
      ReplaceEachUnfound(s, targets[1..], rep);
    }
  }

  /** A fold in which no target's first character can match changes nothing. */
  lemma ReplaceEachUnstartable(s: string, targets: seq<string>, rep: string, cmp: Comparison)
    requires forall i :: 0 <= i < |targets| ==> |targets[i]| > 0 && Avoids(s, targets[i][0], cmp)
    ensures ReplaceEach(s, targets, rep, cmp) == s
  {
    forall i | 0 <= i < |targets| ensures !Contains(s, targets[i], cmp) {
      PrependAvoiding(s, "", targets[i], cmp);
      assert s + "" == s;
    }
    ReplaceEachAbsent(s, targets, rep, cmp);
  }

  /** A character other than an ASCII letter matches only itself, under either comparison. */
  lemma NonLetterAvoids(s: string, c: char)
    requires c !in s && !IsAsciiUpper(c) && !IsAsciiLower(c)
    ensures Avoids(s, c, Ordinal) && Avoids(s, c, OrdinalIgnoreCase)
  {
  }

  /** String.Replace of a character that occurs exactly once replaces that one occurrence. */
  lemma ReplaceSingle(a: string, b: string, c: char, rep: string)
    requires c !in a && c !in b
    ensures ReplaceAll(a + [c] + b, [c], rep, Ordinal) == a + rep + b
  {
    assert StartsWith([c], [c], Ordinal) by { assert [c][1..] == [c][1..]; }
    ReplaceOnly(a, [c], b, [c], rep, Ordinal);
  }

  /** A text holding one occurrence of `pat`, with no character elsewhere that could start
      another, has exactly that occurrence replaced. */
  lemma ReplaceOnly(a: string, m: string, b: string, pat: string, rep: string, cmp: Comparison)
    requires |pat| > 0 && |m| == |pat| && StartsWith(m, pat, cmp)
    requires Avoids(a, pat[0], cmp) && Avoids(b, pat[0], cmp)
    ensures ReplaceAll(a + m + b, pat, rep, cmp) == a + rep + b
  {
    assert a + m + b == a + (m + b);
    ReplaceSkip(a, m + b, pat, rep, cmp);
    ReplaceHere(m, b, pat, rep, cmp);
    PrependAvoiding(b, "", pat, cmp);
    assert b + "" == b;
    ReplaceAbsent(b, pat, rep, cmp);
  }

  /** One more target of the fold is one more String.Replace. */
  lemma ReplaceEachStep(s: string, targets: seq<string>, i: nat, rep: string, cmp: Comparison)
    requires forall k :: 0 <= k < |targets| ==> |targets[k]| > 0
    requires i < |targets|
    ensures ReplaceEach(s, targets[..i + 1], rep, cmp) == ReplaceAll(ReplaceEach(s, targets[..i], rep, cmp), targets[i], rep, cmp)
  {
    assert targets[..i + 1] == targets[..i] + [targets[i]];
    ReplaceEachAppend(s, targets[..i], [targets[i]], rep, cmp);
  }

  lemma {:induction false} ReplacePairsAppend(s: string, a: seq<(string, string)>, b: seq<(string, string)>)
    requires Patterned(a) && Patterned(b)
    ensures Patterned(a + b)
    ensures ReplacePairs(s, a + b) == ReplacePairs(ReplacePairs(s, a), b)
    decreases |a|
  {
    if |a| > 0 {
      assert (a + b)[1..] == a[1..] + b;
      ReplacePairsAppend(ReplaceAll(s, a[0].0, a[0].1, Ordinal), a[1..], b);
    } else {
      assert a + b == b;
    }
  }

  /** One more pair of the fold is one more String.Replace. */
  lemma ReplacePairsStep(s: string, pairs: seq<(string, string)>, i: nat)
    requires Patterned(pairs) && i < |pairs|
    ensures ReplacePairs(s, pairs[..i + 1]) == ReplaceAll(ReplacePairs(s, pairs[..i]), pairs[i].0, pairs[i].1, Ordinal)
  {
    assert pairs[..i + 1] == pairs[..i] + [pairs[i]];
    ReplacePairsAppend(s, pairs[..i], [pairs[i]]);
  }

  // ---------------------------------------------------------------------------
  // Trim

  /** The characters Char.IsWhiteSpace accepts: the Unicode separators, U+0009 to U+000D, U+0085
      and U+00A0. */
  const WhiteSpaceChars: set<char> := {
    ' ', '\t', '\n', '\U{000B}', '\U{000C}', '\r', '\U{0085}', '\U{00A0}', '\U{1680}',
    '\U{2000}', '\U{2001}', '\U{2002}', '\U{2003}', '\U{2004}', '\U{2005}', '\U{2006}',
    '\U{2007}', '\U{2008}', '\U{2009}', '\U{200A}', '\U{2028}', '\U{2029}', '\U{202F}',
    '\U{205F}', '\U{3000}'
  }

  /** Char.IsWhiteSpace. */
  predicate IsWhiteSpace(c: char) {
    c in WhiteSpaceChars
  }

  /** Neither end is white space. */
  predicate Trimmed(s: string) {
    |s| == 0 || (!IsWhiteSpace(s[0]) && !IsWhiteSpace(s[|s| - 1]))
  }

  /** String.TrimStart(): the suffix left after dropping the leading white space. */
  function TrimStart(s: string): (r: string)
    ensures |r| <= |s| && r == s[|s| - |r|..]
    ensures forall i :: 0 <= i < |s| - |r| ==> IsWhiteSpace(s[i])
    ensures |r| == 0 || !IsWhiteSpace(r[0])
    decreases |s|
  {
    if |s| > 0 && IsWhiteSpace(s[0]) then TrimStart(s[1..]) else s
  }

  /** String.TrimEnd(): the prefix left after dropping the trailing white space. */
  function TrimEnd(s: string): (r: string)
    ensures |r| <= |s| && r == s[..|r|]
    ensures forall i :: |r| <= i < |s| ==> IsWhiteSpace(s[i])
    ensures |r| == 0 || !IsWhiteSpace(r[|r| - 1])
    decreases |s|
  {
    if |s| > 0 && IsWhiteSpace(s[|s| - 1]) then TrimEnd(s[..|s| - 1]) else s
  }

  /** String.Trim(): the input with white space removed from both ends. */
  function Trim(s: string): (r: string)
    ensures Trimmed(r)
    ensures exists i, j :: 0 <= i <= j <= |s| && r == s[i..j]
    ensures |r| <= |s|
    ensures Trimmed(s) ==> r == s
  {
    TrimSlice(s);
    TrimEnd(TrimStart(s))
  }

  /** Trimming both ends keeps a slice of the input whose ends are not white space, and keeps a
      trimmed input whole. */
  lemma TrimSlice(s: string)
    ensures Trimmed(TrimEnd(TrimStart(s)))
    ensures exists i, j :: 0 <= i <= j <= |s| && TrimEnd(TrimStart(s)) == s[i..j]
    ensures Trimmed(s) ==> TrimEnd(TrimStart(s)) == s
  {
    TrimBothEnds(s);
    TrimKeepsTrimmed(s);
    var i, j := TrimBounds(s);
  }

  /** Where the trimmed text sits in the input. */
  lemma TrimBounds(s: string) returns (i: nat, j: nat)
    ensures i <= j <= |s| && TrimEnd(TrimStart(s)) == s[i..j]
  {
    var t := TrimStart(s);
    var r := TrimEnd(t);
    i, j := |s| - |t|, |s| - |t| + |r|;
    PrefixOfSuffix(s, t, r);
  }

  /** A prefix of a suffix of `s` is a slice of `s`. */
  lemma PrefixOfSuffix(s: string, t: string, r: string)
    requires |t| <= |s| && t == s[|s| - |t|..] && |r| <= |t| && r == t[..|r|]
    ensures r == s[|s| - |t|..|s| - |t| + |r|]
  {
  }

  lemma TrimBothEnds(s: string)
    ensures Trimmed(TrimEnd(TrimStart(s)))
  {
    var t := TrimStart(s);
    var r := TrimEnd(t);
    if |r| > 0 {
      assert r == t[..|r|];
      assert r[0] == t[0];
    }
  }

  lemma TrimKeepsTrimmed(s: string)
    ensures Trimmed(s) ==> TrimEnd(TrimStart(s)) == s
  {
    if Trimmed(s) && |s| > 0 {
      assert TrimStart(s) == s;
    }
  }

  lemma TrimKeepsOut(s: string, c: char)
    requires c !in s
    ensures c !in Trim(s)
  {
    var i, j :| 0 <= i <= j <= |s| && Trim(s) == s[i..j];
  }

  // ---------------------------------------------------------------------------
  // Split and Join

  /** String.Split(sep): the pieces between separators; always at least one. */
  function Split(s: string, sep: char): (parts: seq<string>)
    ensures |parts| >= 1
    ensures forall i :: 0 <= i < |parts| ==> sep !in parts[i]
    decreases |s|
  {
    if |s| == 0 then [""]
    else
      var rest := Split(s[1..], sep);
      if s[0] == sep then [""] + rest else [[s[0]] + rest[0]] + rest[1..]
  }

  /** String.Join(sep, parts). */
  function Join(parts: seq<string>, sep: string): string
    decreases |parts|
  {
    if |parts| == 0 then ""
    else if |parts| == 1 then parts[0]
    else parts[0] + sep + Join(parts[1..], sep)
  }

  /** Splitting and joining again gives back the input. */
  lemma {:induction false} JoinSplit(s: string, sep: char)
    ensures Join(Split(s, sep), [sep]) == s
    decreases |s|
  {
    if |s| > 0 {
      var rest := Split(s[1..], sep);
      JoinSplit(s[1..], sep);
      if s[0] == sep {
        assert ([""] + rest)[1..] == rest;
      } else {
        var parts := [[s[0]] + rest[0]] + rest[1..];
        if |rest| > 1 {
          assert parts[1..] == rest[1..];
          assert Join(rest, [sep]) == rest[0] + [sep] + Join(rest[1..], [sep]);
        }
      }
    }
  }

  /** Splitting introduces no character. */
  lemma {:induction false} SplitKeepsOut(s: string, sep: char, c: char)
    requires c !in s
    ensures forall i :: 0 <= i < |Split(s, sep)| ==> c !in Split(s, sep)[i]
    decreases |s|
  {
    if |s| > 0 {
      SplitKeepsOut(s[1..], sep, c);
    }
  }

  /** Lower-casing introduces no character other than a lower-case letter. */
  lemma ToLowerKeepsOut(s: string, c: char)
    requires c !in s && !IsAsciiLower(c)
    ensures c !in ToLower(s)
  {
  }

  /** The number of occurrences of `c` in `s`. */
  function CountChar(s: string, c: char): nat
    decreases |s|
  {
    if |s| == 0 then 0 else (if s[0] == c then 1 else 0) + CountChar(s[1..], c)
  }

  lemma {:induction false} CountCharAppend(a: string, b: string, c: char)
    ensures CountChar(a + b, c) == CountChar(a, c) + CountChar(b, c)
    decreases |a|
  {
    if |a| > 0 {
      assert (a + b)[1..] == a[1..] + b;
      CountCharAppend(a[1..], b, c);
    } else {
      assert a + b == b;
    }
  }

  lemma {:induction false} CountCharAbsent(s: string, c: char)
    requires c !in s
    ensures CountChar(s, c) == 0
    decreases |s|
  {
    if |s| > 0 {
      CountCharAbsent(s[1..], c);
    }
  }

  /** Joining parts free of `c` with a separator holding `c` once: one `c` between each two parts. */
  lemma {:induction false} JoinCount(parts: seq<string>, sep: string, c: char)
    requires |parts| > 0 && CountChar(sep, c) == 1
    requires forall i :: 0 <= i < |parts| ==> c !in parts[i]
    ensures CountChar(Join(parts, sep), c) == |parts| - 1
    decreases |parts|
  {
    CountCharAbsent(parts[0], c);
    if |parts| > 1 {
      JoinCount(parts[1..], sep, c);
      CountCharAppend(parts[0], sep, c);
      CountCharAppend(parts[0] + sep, Join(parts[1..], sep), c);
    }
  }

  // ---------------------------------------------------------------------------
  // StringBuilder

  /** The part of System.Text.StringBuilder that ToPlainText uses. */
  class StringBuilder {
    var value: string

    constructor (s: string)
      ensures value == s
    {
      value := s;
    }

    function ToString(): string
      reads this
    {
      value
    }

    /** StringBuilder.Replace(oldValue, newValue): the same left-to-right ordinal scan as String.Replace. */
    method Replace(oldValue: string, newValue: string)
      requires |oldValue| > 0
      modifies this
      ensures value == ReplaceAll(old(value), oldValue, newValue, Ordinal)
    {
      value := ReplaceAll(value, oldValue, newValue, Ordinal);
    }
  }
}
