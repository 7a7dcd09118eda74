/** Transliteration as both transliterators implement it: an ordered table of
    (Cyrillic key, Latin value) pairs, applied as one ordinal String.Replace per entry,
    in the table's order, keys to values one way and values to keys the other. */
module SubstitutionTable {
  import opened Strings
  import opened Wrappers

  /** Letters of the Cyrillic block, U+0400 to U+04FF: what the keys are spelled with. */
  predicate IsCyrillic(c: char) {
    '\U{0400}' <= c <= '\U{04FF}'
  }

  /** ASCII letters and the underscore: what the values are spelled with. */
  predicate IsLatin(c: char) {
    'a' <= c <= 'z' || 'A' <= c <= 'Z' || c == '_'
  }

  /** Keys and values are non-empty, so every pass is a legal String.Replace in both directions. */
  predicate WellFormed(t: seq<(string, string)>) {
    forall i :: 0 <= i < |t| ==> |t[i].0| > 0 && |t[i].1| > 0
  }

  /** The table read backwards: each value becomes the pattern, its key the replacement. */
  function Inverted(t: seq<(string, string)>): (r: seq<(string, string)>)
    ensures |r| == |t|
    ensures forall i :: 0 <= i < |t| ==> r[i].0 == t[i].1 && r[i].1 == t[i].0
    ensures WellFormed(t) ==> WellFormed(r)
  {
    seq(|t|, i requires 0 <= i < |t| => (t[i].1, t[i].0))
  }

  /** The forward direction: every key replaced by its value, entry by entry. */
  function Forward(t: seq<(string, string)>, s: string): string
    requires WellFormed(t)
  {
    ReplacePairs(s, t)
  }

  /** The backward direction: every value replaced by its key, entry by entry. */
  function Backward(t: seq<(string, string)>, s: string): string
    requires WellFormed(t)
  {
    ReplacePairs(s, Inverted(t))
  }

  /** One loop iteration: the pass of entry `i`, then the rest of the table. */
  lemma Step(t: seq<(string, string)>, i: nat, s: string)
    requires Patterned(t) && i < |t|
    ensures ReplacePairs(s, t[i..]) == ReplacePairs(ReplaceAll(s, t[i].0, t[i].1, Ordinal), t[i + 1..])
  {
    assert t[i..][1..] == t[i + 1..];
  }

  /** No pattern occurs: the fold changes nothing. */
  lemma {:induction false} NoPatternUnchanged(t: seq<(string, string)>, s: string)
    requires Patterned(t)
    requires forall i :: 0 <= i < |t| ==> !Contains(s, t[i].0, Ordinal)
    ensures ReplacePairs(s, t) == s
    decreases |t|
  {
    if |t| > 0 {
      ReplaceAbsent(s, t[0].0, t[0].1, Ordinal);
      NoPatternUnchanged(t[1..], s);
    }
  }

  /** The pattern of entry `i` cannot occur in `s`: its first or its last character is missing. */
  predicate Idle(t: seq<(string, string)>, i: nat, s: string)
    requires i < |t| && |t[i].0| > 0
  {
    t[i].0[0] !in s || t[i].0[|t[i].0| - 1] !in s
  }

  /** A run of entries that cannot occur in `s` does nothing. */
  lemma {:induction false} Skip(t: seq<(string, string)>, a: nat, b: nat, s: string)
    requires Patterned(t) && a <= b <= |t|
    requires forall i :: a <= i < b ==> Idle(t, i, s)
    ensures ReplacePairs(s, t[a..]) == ReplacePairs(s, t[b..])
    decreases b - a
  {
    if a < b {
      assert Idle(t, a, s);
      ContainsEnds(s, t[a].0);
      ReplaceAbsent(s, t[a].0, t[a].1, Ordinal);
      Step(t, a, s);
      Skip(t, a + 1, b, s);
    }
  }

  /** A character absent from the input and from every replacement is absent from the output. */
  lemma {:induction false} KeepsOut(t: seq<(string, string)>, s: string, c: char)
    requires Patterned(t) && c !in s
    requires forall i :: 0 <= i < |t| ==> c !in t[i].1
    ensures c !in ReplacePairs(s, t)
    decreases |t|
  {
    if |t| > 0 {
      ReplaceKeepsOut(s, t[0].0, t[0].1, Ordinal, c);
      KeepsOut(t[1..], ReplaceAll(s, t[0].0, t[0].1, Ordinal), c);
    }
  }

  /** A character that is some entry's whole pattern, and no entry's replacement, is removed. */
  lemma {:induction false} RemovesChar(t: seq<(string, string)>, s: string, c: char, k: nat)
    requires Patterned(t) && k < |t| && t[k].0 == [c]
    requires forall i :: 0 <= i < |t| ==> c !in t[i].1
    ensures c !in ReplacePairs(s, t)
    decreases |t|
  {
    var s' := ReplaceAll(s, t[0].0, t[0].1, Ordinal);
    if k == 0 {
      ReplaceRemovesChar(s, c, t[0].1);
      KeepsOut(t[1..], s', c);
    } else {
      RemovesChar(t[1..], s', c, k - 1);
    }
  }

  /** A character that is part of no pattern is never removed. */
  lemma {:induction false} KeepsIn(t: seq<(string, string)>, s: string, c: char)
    requires Patterned(t) && c in s
    requires forall i :: 0 <= i < |t| ==> c !in t[i].0
    ensures c in ReplacePairs(s, t)
    decreases |t|
  {
    if |t| > 0 {
      ReplaceKeepsIn(s, t[0].0, t[0].1, c);
      KeepsIn(t[1..], ReplaceAll(s, t[0].0, t[0].1, Ordinal), c);
    }
  }

  /** A pattern that no earlier pattern can overlap reaches its own entry intact; when its
      replacement is one character that no later pattern holds, that character is in the result. */
  lemma PairComesBack(t: seq<(string, string)>, s: string, k: nat, c: char)
    requires Patterned(t) && k < |t| && t[k].1 == [c] && Contains(s, t[k].0, Ordinal)
    requires forall i :: 0 <= i < k ==> Apart(t[i].0, t[k].0)
    requires forall i :: k < i < |t| ==> c !in t[i].0
    ensures c in ReplacePairs(s, t)
  {
    var q := t[k].0;
    assert t == t[..k] + t[k..];
    ReplacePairsAppend(s, t[..k], t[k..]);
    ReplacePairsKeepsApart(s, t[..k], q);
    var m := ReplacePairs(s, t[..k]);
    assert t[k..][0] == t[k] && t[k..][1..] == t[k + 1..];
    ReplaceBringsRep(m, q, [c]);
    var n := ReplaceAll(m, q, [c], Ordinal);
    ContainsChars(n, [c], 0);
    KeepsIn(t[k + 1..], n, c);
  }

  /** Entry `k` never fires when an earlier entry `j` already removed one of its characters
      and no entry in between puts that character back. */
  lemma DeadAfterCharRemoved(t: seq<(string, string)>, s: string, j: nat, k: nat)
    requires Patterned(t) && j < k < |t| && |t[j].0| == 1 && t[j].0[0] in t[k].0
    requires forall i :: j <= i < k ==> t[j].0[0] !in t[i].1
    ensures ReplaceAll(ReplacePairs(s, t[..k]), t[k].0, t[k].1, Ordinal) == ReplacePairs(s, t[..k])
  {
    var c := t[j].0[0];
    var before := ReplacePairs(s, t[..j]);
    ReplacePairsAppend(s, t[..j], t[j..k]);
    assert t[..j] + t[j..k] == t[..k];
    assert t[j..k][0] == t[j];
    RemovesChar(t[j..k], before, c, 0);
    var state := ReplacePairs(s, t[..k]);
    assert c !in state;
    var m :| 0 <= m < |t[k].0| && t[k].0[m] == c;
    if Contains(state, t[k].0, Ordinal) {
      ContainsChars(state, t[k].0, m);
    }
    ReplaceAbsent(state, t[k].0, t[k].1, Ordinal);
  }

  /** Entry `k` never fires when an earlier entry `j` has the same pattern, and no entry from
      `j` on can start, end or hide an occurrence of it in its replacement. */
  lemma DeadAfterSamePattern(t: seq<(string, string)>, s: string, j: nat, k: nat)
    requires Patterned(t) && j < k < |t| && t[j].0 == t[k].0
    requires var p := t[k].0;
             forall i :: j <= i < k ==>
               |p| - 1 <= |t[i].1| && Avoids(t[i].1, p[0], Ordinal) && Avoids(t[i].1, p[|p| - 1], Ordinal)
    ensures ReplaceAll(ReplacePairs(s, t[..k]), t[k].0, t[k].1, Ordinal) == ReplacePairs(s, t[..k])
  {
    var p := t[k].0;
    var before := ReplacePairs(s, t[..j]);
    ReplacePairsAppend(s, t[..j], t[j..k]);
    assert t[..j] + t[j..k] == t[..k];
    ReplaceClears(before, p, t[j].1, Ordinal);
    KeepsFree(t[j + 1..k], ReplaceAll(before, p, t[j].1, Ordinal), p);
    assert t[j..k][1..] == t[j + 1..k];
    ReplaceAbsent(ReplacePairs(s, t[..k]), p, t[k].1, Ordinal);
  }

  /** A pattern that does not occur stays absent through passes that cannot create it. */
  lemma {:induction false} KeepsFree(t: seq<(string, string)>, s: string, p: string)
    requires Patterned(t) && |p| > 0 && !Contains(s, p, Ordinal)
    requires forall i :: 0 <= i < |t| ==>
               |p| - 1 <= |t[i].1| && Avoids(t[i].1, p[0], Ordinal) && Avoids(t[i].1, p[|p| - 1], Ordinal)
    ensures !Contains(ReplacePairs(s, t), p, Ordinal)
    decreases |t|
  {
    if |t| > 0 {
      ReplaceKeepsFree(s, t[0].0, t[0].1, Ordinal, p, Ordinal);
      KeepsFree(t[1..], ReplaceAll(s, t[0].0, t[0].1, Ordinal), p);
    }
  }

  // ---------------------------------------------------------------------------
  // Reading a table letter by letter

  /** What the fold from entry `n` on does to the single character `c`, when `first(c)` names the
      first entry whose pattern is exactly `c`: that entry's replacement, or `c` itself. */
  function Piece(t: seq<(string, string)>, first: char -> Option<nat>, n: nat, c: char): string {
    match first(c)
    case Some(k) => if n <= k < |t| && t[k].0 == [c] then t[k].1 else [c]
    case None => [c]
  }

  /** The character-by-character reading of the fold from entry `n` on. */
  function Letterwise(t: seq<(string, string)>, first: char -> Option<nat>, n: nat, s: string): string
    decreases |s|
  {
    if |s| == 0 then [] else Piece(t, first, n, s[0]) + Letterwise(t, first, n, s[1..])
  }

  /** From entry `n` on, patterns are spelled with characters of one kind and replacements
      with characters of the other. */
  predicate Separated(t: seq<(string, string)>, n: nat, inPattern: char -> bool) {
    (forall j, k :: n <= j < |t| && 0 <= k < |t[j].0| ==> inPattern(t[j].0[k]))
    && (forall j, k :: n <= j < |t| && 0 <= k < |t[j].1| ==> !inPattern(t[j].1[k]))
  }

  /** Keys spelled in one alphabet and values in another, disjoint one: both directions of the
      table are separated. */
  lemma Bilingual(t: seq<(string, string)>, inKey: char -> bool, inValue: char -> bool)
    requires forall c :: inKey(c) ==> !inValue(c)
    requires forall j, k :: 0 <= j < |t| && 0 <= k < |t[j].0| ==> inKey(t[j].0[k])
    requires forall j, k :: 0 <= j < |t| && 0 <= k < |t[j].1| ==> inValue(t[j].1[k])
    ensures Separated(t, 0, inKey) && Separated(Inverted(t), 0, inValue)
  {
  }

  /** `first` finds the pattern of entry `i` if it is a single character: at `i` or at an earlier
      entry with the same pattern, and at one before `n` only when the character is not in `s`. */
  predicate IndexedAt(t: seq<(string, string)>, first: char -> Option<nat>, n: nat, s: string, i: nat)
    requires i < |t|
  {
    |t[i].0| == 1 ==>
      first(t[i].0[0]).Some? && first(t[i].0[0]).value <= i
      && t[first(t[i].0[0]).value].0 == t[i].0
      && (n <= first(t[i].0[0]).value || t[i].0[0] !in s)
  }

  predicate Indexed(t: seq<(string, string)>, first: char -> Option<nat>, n: nat, s: string) {
    forall i :: n <= i < |t| ==> IndexedAt(t, first, n, s, i)
  }

  /** The pattern of entry `i`, if longer than one character, cannot fire on `s`: one of its end
      characters is missing, or its first character is the whole pattern of an entry between `n`
      and `i`, which removes it. */
  predicate InertAt(t: seq<(string, string)>, first: char -> Option<nat>, n: nat, s: string, i: nat)
    requires i < |t|
  {
    |t[i].0| > 1 ==>
      t[i].0[0] !in s || t[i].0[|t[i].0| - 1] !in s
      || (first(t[i].0[0]).Some? && n <= first(t[i].0[0]).value < i
          && t[first(t[i].0[0]).value].0 == [t[i].0[0]])
  }

  predicate Inert(t: seq<(string, string)>, first: char -> Option<nat>, n: nat, s: string) {
    forall i :: n <= i < |t| ==> InertAt(t, first, n, s, i)
  }

  lemma {:induction false} LetterwiseAppend(t: seq<(string, string)>, first: char -> Option<nat>, n: nat, a: string, b: string)
    ensures Letterwise(t, first, n, a + b) == Letterwise(t, first, n, a) + Letterwise(t, first, n, b)
    decreases |a|
  {
    if |a| > 0 {
      assert (a + b)[1..] == a[1..] + b;
      LetterwiseAppend(t, first, n, a[1..], b);
    } else {
      assert a + b == b;
    }
  }

  /** Characters that no pattern from `n` on is made of are left alone. */
  lemma {:induction false} LetterwiseKeeps(t: seq<(string, string)>, first: char -> Option<nat>, n: nat, inPattern: char -> bool, s: string)
    requires Separated(t, n, inPattern)
    requires forall i :: 0 <= i < |s| ==> !inPattern(s[i])
    ensures Letterwise(t, first, n, s) == s
    decreases |s|
  {
    if |s| > 0 {
      LetterwiseKeeps(t, first, n, inPattern, s[1..]);
      assert forall k :: n <= k < |t| && |t[k].0| > 0 ==> inPattern(t[k].0[0]);
      assert s == [s[0]] + s[1..];
    }
  }

  /** Past the last entry the letterwise reading is the identity. */
  lemma {:induction false} LetterwiseEnd(t: seq<(string, string)>, first: char -> Option<nat>, s: string)
    ensures Letterwise(t, first, |t|, s) == s
    decreases |s|
  {
    if |s| > 0 {
      LetterwiseEnd(t, first, s[1..]);
      assert s == [s[0]] + s[1..];
    }
  }

  /** Moving past an entry that is not a single-character pattern of `s` changes nothing. */
  lemma {:induction false} LetterwiseShift(t: seq<(string, string)>, first: char -> Option<nat>, n: nat, s: string)
    requires n < |t| && (|t[n].0| != 1 || t[n].0[0] !in s)
    ensures Letterwise(t, first, n + 1, s) == Letterwise(t, first, n, s)
    decreases |s|
  {
    if |s| > 0 {
      LetterwiseShift(t, first, n, s[1..]);
    }
  }

  /** The pass of a single-character entry found by `first` is that entry's letterwise step. */
  lemma {:induction false} LetterwiseStep(t: seq<(string, string)>, first: char -> Option<nat>, n: nat, inPattern: char -> bool, c: char, s: string)
    requires n < |t| && t[n].0 == [c] && first(c) == Some(n) && Separated(t, n, inPattern)
    ensures Letterwise(t, first, n + 1, ReplaceAll(s, [c], t[n].1, Ordinal)) == Letterwise(t, first, n, s)
    decreases |s|
  {
    if |s| > 0 {
      assert StartsWith(s[1..], [c][1..], Ordinal);
      LetterwiseStep(t, first, n, inPattern, c, s[1..]);
      var x := ReplaceAll(s[1..], [c], t[n].1, Ordinal);
      if s[0] == c {
        LetterwiseHit(t, first, n, inPattern, c, s, x);
      } else {
        LetterwiseMiss(t, first, n, c, s, x);
      }
    }
  }

  /** LetterwiseStep on a string that starts with the entry's character. */
  lemma LetterwiseHit(t: seq<(string, string)>, first: char -> Option<nat>, n: nat, inPattern: char -> bool, c: char, s: string, x: string)
    requires n < |t| && t[n].0 == [c] && first(c) == Some(n) && Separated(t, n, inPattern)
    requires |s| > 0 && s[0] == c && x == ReplaceAll(s[1..], [c], t[n].1, Ordinal)
    requires Letterwise(t, first, n + 1, x) == Letterwise(t, first, n, s[1..])
    ensures Letterwise(t, first, n + 1, ReplaceAll(s, [c], t[n].1, Ordinal)) == Letterwise(t, first, n, s)
  {
    var r := t[n].1;
    assert StartsWith(s, [c], Ordinal) by {
      assert StartsWith(s[1..], [c][1..], Ordinal);
    }
    assert ReplaceAll(s, [c], r, Ordinal) == r + x;
    LetterwiseAppend(t, first, n + 1, r, x);
    ValuesOutside(t, n, inPattern);
    LetterwiseKeeps(t, first, n + 1, inPattern, r);
    assert Piece(t, first, n, s[0]) == r;
  }

  /** LetterwiseStep on a string that starts with another character. */
  lemma LetterwiseMiss(t: seq<(string, string)>, first: char -> Option<nat>, n: nat, c: char, s: string, x: string)
    requires n < |t| && t[n].0 == [c]
    requires |s| > 0 && s[0] != c && x == ReplaceAll(s[1..], [c], t[n].1, Ordinal)
    requires Letterwise(t, first, n + 1, x) == Letterwise(t, first, n, s[1..])
    ensures Letterwise(t, first, n + 1, ReplaceAll(s, [c], t[n].1, Ordinal)) == Letterwise(t, first, n, s)
  {
    assert !StartsWith(s, [c], Ordinal);
    assert ReplaceAll(s, [c], t[n].1, Ordinal) == [s[0]] + x;
    assert ([s[0]] + x)[1..] == x;
    assert Piece(t, first, n + 1, s[0]) == Piece(t, first, n, s[0]);
  }

  /** Entry `n`'s replacement avoids the pattern characters, and the table stays separated past `n`. */
  lemma ValuesOutside(t: seq<(string, string)>, n: nat, inPattern: char -> bool)
    requires n < |t| && Separated(t, n, inPattern)
    ensures Separated(t, n + 1, inPattern)
    ensures forall i :: 0 <= i < |t[n].1| ==> !inPattern(t[n].1[i])
  {
    forall i | 0 <= i < |t[n].1| ensures !inPattern(t[n].1[i]) {
      assert !inPattern(t[n].1[i]);
    }
  }

  /** The fold over a table whose longer patterns cannot fire is a letter-by-letter substitution. */
  lemma {:induction false} FoldIsLetterwise(t: seq<(string, string)>, first: char -> Option<nat>, inPattern: char -> bool, n: nat, s: string)
    requires Patterned(t) && n <= |t|
    requires Separated(t, n, inPattern) && Indexed(t, first, n, s) && Inert(t, first, n, s)
    ensures ReplacePairs(s, t[n..]) == Letterwise(t, first, n, s)
    decreases |t| - n
  {
    if n == |t| {
      LetterwiseEnd(t, first, s);
    } else {
      var p, r := t[n].0, t[n].1;
      var s' := ReplaceAll(s, p, r, Ordinal);
      Step(t, n, s);
      assert Separated(t, n + 1, inPattern);
      if |p| == 1 && first(p[0]) == Some(n) {
        var c := p[0];
        assert p == [c];
        assert inPattern(t[n].0[0]);
        assert c !in r by {
          forall k | 0 <= k < |r| ensures r[k] != c {
            assert !inPattern(t[n].1[k]);
          }
        }
        ReplaceRemovesChar(s, c, r);
        forall x | inPattern(x) && x !in s ensures x !in s' {
          assert forall m :: 0 <= m < |r| ==> !inPattern(t[n].1[m]);
          ReplaceKeepsOut(s, p, r, Ordinal, x);
        }
        var n' := n + 1;
        forall i | n' <= i < |t|
          ensures IndexedAt(t, first, n', s', i) && InertAt(t, first, n', s', i)
        {
          assert IndexedAt(t, first, n, s, i) && InertAt(t, first, n, s, i);
          assert inPattern(t[i].0[0]) && inPattern(t[i].0[|t[i].0| - 1]);
        }
        FoldIsLetterwise(t, first, inPattern, n + 1, s');
        LetterwiseStep(t, first, n, inPattern, c, s);
      } else {
        assert IndexedAt(t, first, n, s, n) && InertAt(t, first, n, s, n);
        assert p[0] !in s || p[|p| - 1] !in s;
        ContainsEnds(s, p);
        ReplaceAbsent(s, p, r, Ordinal);
        var n' := n + 1;
        forall i | n' <= i < |t|
          ensures IndexedAt(t, first, n', s, i) && InertAt(t, first, n', s, i)
        {
          assert IndexedAt(t, first, n, s, i) && InertAt(t, first, n, s, i);
          assert |p| == 1 ==> p == [p[0]];
        }
        FoldIsLetterwise(t, first, inPattern, n + 1, s);
        LetterwiseShift(t, first, n, s);
      }
    }
  }

  /** Each character of `s` replaced by its spelling under `letter`. */
  function Transcribe(letter: char -> string, s: string): string
    decreases |s|
  {
    if |s| == 0 then [] else letter(s[0]) + Transcribe(letter, s[1..])
  }

  /** A letterwise reading is the transcription by any letter table that agrees with it. */
  lemma {:induction false} LetterwiseTranscribes(t: seq<(string, string)>, first: char -> Option<nat>, n: nat, letter: char -> string, s: string)
    requires forall c :: Piece(t, first, n, c) == letter(c)
    ensures Letterwise(t, first, n, s) == Transcribe(letter, s)
    decreases |s|
  {
    if |s| > 0 {
      LetterwiseTranscribes(t, first, n, letter, s[1..]);
    }
  }

  /** One character of the transcription: the first character's letter, then the rest. */
  lemma TranscribeCons(letter: char -> string, c: char, rest: string, s: string)
    requires s == [c] + rest
    ensures Transcribe(letter, s) == letter(c) + Transcribe(letter, rest)
  {
    assert s[0] == c && s[1..] == rest;
  }

  lemma {:induction false} TranscribeAppend(letter: char -> string, a: string, b: string)
    ensures Transcribe(letter, a + b) == Transcribe(letter, a) + Transcribe(letter, b)
    decreases |a|
  {
    if |a| > 0 {
      assert (a + b)[1..] == a[1..] + b;
      TranscribeAppend(letter, a[1..], b);
    } else {
      assert a + b == b;
    }
  }

  /** Starting the letterwise reading at `n` changes nothing for a text whose characters all have
      their first entry, if any, at or after `n`. */
  lemma {:induction false} LetterwiseLate(t: seq<(string, string)>, first: char -> Option<nat>, n: nat, s: string)
    requires forall k :: 0 <= k < |s| && first(s[k]).Some? ==> n <= first(s[k]).value
    ensures Letterwise(t, first, n, s) == Letterwise(t, first, 0, s)
    decreases |s|
  {
    if |s| > 0 {
      LetterwiseLate(t, first, n, s[1..]);
    }
  }

  /** The same condition lets an index that serves the whole table serve it from `n` on. */
  lemma IndexedLate(t: seq<(string, string)>, first: char -> Option<nat>, n: nat, s: string)
    requires Indexed(t, first, 0, s)
    requires forall k :: 0 <= k < |s| && first(s[k]).Some? ==> n <= first(s[k]).value
    ensures Indexed(t, first, n, s)
  {
    forall i | n <= i < |t| ensures IndexedAt(t, first, n, s, i) {
      assert IndexedAt(t, first, 0, s, i);
    }
  }

  /** The fold from entry `n` on, for a text whose characters all have their first entry at or
      after `n`, is the letterwise reading of the whole table. */
  lemma FoldIsLetterwiseLate(t: seq<(string, string)>, first: char -> Option<nat>, inPattern: char -> bool, n: nat, s: string)
    requires Patterned(t) && n <= |t| && Separated(t, 0, inPattern)
    requires Indexed(t, first, 0, s) && Inert(t, first, n, s)
    requires forall k :: 0 <= k < |s| && first(s[k]).Some? ==> n <= first(s[k]).value
    ensures ReplacePairs(s, t[n..]) == Letterwise(t, first, 0, s)
  {
    IndexedLate(t, first, n, s);
    assert Separated(t, n, inPattern);
    FoldIsLetterwise(t, first, inPattern, n, s);
    LetterwiseLate(t, first, n, s);
  }

  /** A fold whose patterns are all spelled in an alphabet that `s` does not use leaves `s` alone. */
  lemma ForeignUnchanged(t: seq<(string, string)>, inPattern: char -> bool, s: string)
    requires Patterned(t)
    requires forall j, k :: 0 <= j < |t| && 0 <= k < |t[j].0| ==> inPattern(t[j].0[k])
    requires forall i :: 0 <= i < |s| ==> !inPattern(s[i])
    ensures ReplacePairs(s, t) == s
  {
    forall i | 0 <= i < |t| ensures !Contains(s, t[i].0, Ordinal) {
      ContainsEnds(s, t[i].0);
      assert inPattern(t[i].0[0]);
    }
    NoPatternUnchanged(t, s);
  }

  /** A character that its letter table spells as itself survives transcription. */
  lemma {:induction false} TranscribeKeeps(letter: char -> string, s: string, c: char)
    requires c in s && letter(c) == [c]
    ensures c in Transcribe(letter, s)
    decreases |s|
  {
    if s[0] == c {
      assert Transcribe(letter, s)[0] == c;
    } else {
      TranscribeKeeps(letter, s[1..], c);
      assert Transcribe(letter, s) == letter(s[0]) + Transcribe(letter, s[1..]);
    }
  }

  /** Transcribing with `f` and then with `g` gives `s` back when `g` reads back every spelling
      `f` gives to a character of `s`. */
  lemma {:induction false} TranscribeTwice(f: char -> string, g: char -> string, s: string)
    requires forall k :: 0 <= k < |s| ==> Transcribe(g, f(s[k])) == [s[k]]
    ensures Transcribe(g, Transcribe(f, s)) == s
    decreases |s|
  {
    if |s| > 0 {
      var rest := s[1..];
      forall k | 0 <= k < |rest| ensures Transcribe(g, f(rest[k])) == [rest[k]] {
        assert rest[k] == s[k + 1];
      }
      TranscribeTwice(f, g, rest);
      assert Transcribe(f, s) == f(s[0]) + Transcribe(f, rest);
      TranscribeAppend(g, f(s[0]), Transcribe(f, rest));
      assert Transcribe(g, f(s[0])) == [s[0]];
      assert s == [s[0]] + rest;
    }
  }
}
