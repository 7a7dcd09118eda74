/** TextHelper of the X.Extensions.Text package: truncation, slugs, HTML to plain text,
    keyword ranking and cutting at a sentence end. */
module TextHelper {
  import opened Wrappers
  import opened Strings
  import opened Linq

  /** The exception the .NET base library throws through these helpers. */
  datatype Failure = ArgumentOutOfRange

  /** The strings CleanCharacters and GetKeywords remove, in source order. */
  function SystemCharacters(): (r: seq<string>)
    ensures forall i :: 0 <= i < |r| ==> |r[i]| > 0
  {
    ["&", "?", "^", ":", "/", "\\", "@", "$", "(", ")", "+", "[",
     "]", "{", "}", "%", "~", ">", "<", "=", "*", "“", "\"", "!",
     "”", "«", "»", ".", ",", "#", "§", "quot;", "--", ";", "\r", "\n", "\t",
     "..."]
  }

  /** Every target is a non-empty string, as String.Replace demands. */
  predicate Targets(targets: seq<string>) {
    forall i :: 0 <= i < |targets| ==> |targets[i]| > 0
  }

  // ---------------------------------------------------------------------------
  // Substring

  /** Substring(text, length, endPart), with `None` for a null `text`: text longer than `length`
      is cut to `length - |endPart|` characters and `endPart` is appended; String.Substring
      throws when that count is negative. */
  function Substring(text: Option<string>, length: int, endPart: string): (r: Result<string, Failure>)
    ensures (text.None? || text.value == "") ==> r == Ok("")
    ensures text.Some? && 0 < |text.value| <= length ==> r == Ok(text.value)
    ensures text.Some? && 0 < |text.value| && length < |text.value| ==>
              (r.Err? <==> length < |endPart|)
    ensures text.Some? && 0 < |text.value| && length < |text.value| && r.Ok? ==>
              |r.value| == length && EndsWith(r.value, endPart)
              && r.value[..length - |endPart|] == text.value[..length - |endPart|]
  {
    if text.None? || |text.value| == 0 then Ok("")
    else if |text.value| > length then
      if length - |endPart| < 0 then Err(ArgumentOutOfRange)
      else Ok(text.value[..length - |endPart|] + endPart)
    else Ok(text.value)
  }

  /** `s` ends with `p`. */
  predicate EndsWith(s: string, p: string) {
    |p| <= |s| && s[|s| - |p|..] == p
  }

  /** Substring(text, length): the same with an empty end part. */
  function SubstringPrefix(text: Option<string>, length: int): (r: Result<string, Failure>)
    ensures text.Some? && 0 <= length < |text.value| ==> r == Ok(text.value[..length])
    ensures text.Some? && length < 0 < |text.value| ==> r == Err(ArgumentOutOfRange)
  {
    var r := Substring(text, length, "");
    assert text.Some? && 0 <= length < |text.value| ==> text.value[..length] + "" == text.value[..length];
    r
  }

  /** Truncating again to the same length changes nothing. */
  lemma SubstringIdempotent(text: string, length: int, endPart: string)
    requires Substring(Some(text), length, endPart).Ok?
    ensures Substring(Some(Substring(Some(text), length, endPart).value), length, endPart)
            == Substring(Some(text), length, endPart)
  {
  }

  // ---------------------------------------------------------------------------
  // Replace and CleanCharacters

  /** Replace(text, targets, replacement): String.Replace for each target in turn. */
  function Replace(text: string, targets: seq<string>, replacement: string): (r: string)
    requires Targets(targets)
    ensures |targets| == 0 ==> r == text
  {
    ReplaceEach(text, targets, replacement, Ordinal)
  }

  /** The targets are applied in order: replacing two lists is replacing their concatenation. */
  lemma ReplaceInOrder(text: string, a: seq<string>, b: seq<string>, replacement: string)
    requires Targets(a) && Targets(b)
    ensures Targets(a + b)
    ensures Replace(text, a + b, replacement) == Replace(Replace(text, a, replacement), b, replacement)
  {
    ReplaceEachAppend(text, a, b, replacement, Ordinal);
  }

  /** A one-character target is gone afterwards unless the replacement brings it back, and no
      character that is in neither the text nor the replacement appears. */
  lemma ReplaceRemoves(text: string, targets: seq<string>, replacement: string)
    requires Targets(targets)
    ensures forall c :: [c] in targets && c !in replacement ==> c !in Replace(text, targets, replacement)
    ensures forall c :: c !in text && c !in replacement ==> c !in Replace(text, targets, replacement)
  {
    forall c | [c] in targets && c !in replacement ensures c !in Replace(text, targets, replacement) {
      ReplaceEachRemovesChar(text, targets, replacement, c);
    }
    forall c | c !in text && c !in replacement ensures c !in Replace(text, targets, replacement) {
      ReplaceEachKeepsOut(text, targets, replacement, Ordinal, c);
    }
  }

  /** One round of CleanCharacters' loop introduces no character. */
  lemma CollapseStepKeepsOut(s: string)
    requires Contains(s, "  ", Ordinal)
    ensures |Trim(ReplaceAll(s, "  ", " ", Ordinal))| < |s|
    ensures forall c :: c in Trim(ReplaceAll(s, "  ", " ", Ordinal)) ==> c in s
  {
    ReplaceShrinks(s, "  ", " ", Ordinal);
    ContainsChars(s, "  ", 0);
    forall c | c !in s ensures c !in Trim(ReplaceAll(s, "  ", " ", Ordinal)) {
      ReplaceKeepsOut(s, "  ", " ", Ordinal, c);
      TrimKeepsOut(ReplaceAll(s, "  ", " ", Ordinal), c);
    }
  }

  /** CleanCharacters' loop: while a double space is left, replace double spaces by one and
      trim. It stops with no double space and uses only characters of its input. */
  function CollapseSpaces(s: string): (r: string)
    ensures !Contains(r, "  ", Ordinal)
    ensures forall c :: c in r ==> c in s
    decreases |s|
  {
    if Contains(s, "  ", Ordinal) then
      CollapseStepKeepsOut(s);
      CollapseSpaces(Trim(ReplaceAll(s, "  ", " ", Ordinal)))
    else s
  }

  /** What CleanCharacters computes when the system characters are `systemCharacters`. */
  function Slug(text: string, systemCharacters: seq<string>): string
    requires Targets(systemCharacters)
  {
    var spaced := Replace(text, systemCharacters, " ");
    ReplaceAll(ToLower(Trim(CollapseSpaces(spaced))), " ", "-", Ordinal)
  }

  /** No one-character target of `targets` occurs in `s`. */
  predicate FreeOfSingles(s: string, targets: seq<string>) {
    forall i :: 0 <= i < |targets| && |targets[i]| == 1 ==> targets[i][0] !in s
  }

  /** No one-character target is '-' or a lower-case letter. */
  predicate SinglesSymbolic(targets: seq<string>) {
    forall i :: 0 <= i < |targets| && |targets[i]| == 1 ==> targets[i][0] != '-' && !IsAsciiLower(targets[i][0])
  }

  /** A slug has no space, no upper-case ASCII letter and, when no one-character system character
      is '-' or a lower-case letter, none of them; it does not start or end with white space. */
  lemma SlugClean(text: string, systemCharacters: seq<string>)
    requires Targets(systemCharacters)
    ensures ' ' !in Slug(text, systemCharacters)
    ensures forall i :: 0 <= i < |Slug(text, systemCharacters)| ==> !IsAsciiUpper(Slug(text, systemCharacters)[i])
    ensures SinglesSymbolic(systemCharacters) ==> FreeOfSingles(Slug(text, systemCharacters), systemCharacters)
    ensures Trimmed(Slug(text, systemCharacters))
  {
    SlugOmits(text, systemCharacters, ' ');
    if SinglesSymbolic(systemCharacters) {
      SlugFreeOfSingles(text, systemCharacters);
    }
    SlugNoUpper(text, systemCharacters);
    SlugTrimmed(text, systemCharacters);
  }

  /** No one-character system character survives, when none is '-' or a lower-case letter. */
  lemma SlugFreeOfSingles(text: string, systemCharacters: seq<string>)
    requires Targets(systemCharacters) && SinglesSymbolic(systemCharacters)
    ensures FreeOfSingles(Slug(text, systemCharacters), systemCharacters)
  {
    forall i | 0 <= i < |systemCharacters| && |systemCharacters[i]| == 1 ensures systemCharacters[i][0] !in Slug(text, systemCharacters) {
      var c := systemCharacters[i][0];
      if c != ' ' {
        assert systemCharacters[i] == [c] && systemCharacters[i] in systemCharacters;
        ReplaceEachRemovesChar(text, systemCharacters, " ", c);
      }
      SlugOmits(text, systemCharacters, c);
    }
  }

  /** No upper-case ASCII letter survives. */
  lemma SlugNoUpper(text: string, systemCharacters: seq<string>)
    requires Targets(systemCharacters)
    ensures forall i :: 0 <= i < |Slug(text, systemCharacters)| ==> !IsAsciiUpper(Slug(text, systemCharacters)[i])
  {
    forall c | IsAsciiUpper(c) ensures c !in Slug(text, systemCharacters) {
      SlugOmits(text, systemCharacters, c);
    }
  }

  /** A character other than '-' and the lower-case letters is missing from the slug when it is a
      space, an upper-case letter, or gone after the system characters became spaces. */
  lemma SlugOmits(text: string, systemCharacters: seq<string>, c: char)
    requires Targets(systemCharacters)
    requires c != '-' && !IsAsciiLower(c)
    requires c == ' ' || IsAsciiUpper(c) || c !in Replace(text, systemCharacters, " ")
    ensures c !in Slug(text, systemCharacters)
  {
    var collapsed := CollapseSpaces(Replace(text, systemCharacters, " "));
    var lowered := ToLower(Trim(collapsed));
    if c == ' ' {
      ReplaceRemovesChar(lowered, ' ', "-");
    } else if IsAsciiUpper(c) {
      ReplaceKeepsOut(lowered, " ", "-", Ordinal, c);
    } else {
      TrimKeepsOut(collapsed, c);
      ToLowerKeepsOut(Trim(collapsed), c);
      ReplaceKeepsOut(lowered, " ", "-", Ordinal, c);
    }
  }

  /** Lower-casing keeps white space where it is and only spaces become '-', so a slug is trimmed. */
  lemma SlugTrimmed(text: string, systemCharacters: seq<string>)
    requires Targets(systemCharacters)
    ensures Trimmed(Slug(text, systemCharacters))
  {
    var trimmed := Trim(CollapseSpaces(Replace(text, systemCharacters, " ")));
    DashedTrimmed(trimmed);
  }

  lemma DashedTrimmed(trimmed: string)
    requires Trimmed(trimmed)
    ensures Trimmed(ReplaceAll(ToLower(trimmed), " ", "-", Ordinal))
  {
    var lowered := ToLower(trimmed);
    if |lowered| > 0 {
      ReplaceEnds(lowered, " ", "-", Ordinal);
      LowerKeepsWhiteSpace(trimmed[0]);
      LowerKeepsWhiteSpace(trimmed[|trimmed| - 1]);
    }
  }

  lemma LowerKeepsWhiteSpace(c: char)
    ensures IsWhiteSpace(LowerChar(c)) == IsWhiteSpace(c)
  {
  }

  /** CleanCharacters with the given system characters: they become spaces, runs of spaces
      collapse, and the trimmed, lower-cased result has its spaces turned into '-'. */
  method CleanCharactersWith(text: string, systemCharacters: seq<string>) returns (r: string)
    requires Targets(systemCharacters)
    ensures r == Slug(text, systemCharacters)
    ensures ' ' !in r && Trimmed(r)
    ensures SinglesSymbolic(systemCharacters) ==> FreeOfSingles(r, systemCharacters)
  {
    var space := " ";
    var result := Replace(text, systemCharacters, space);
    var doubleSpace := space + space;
    assert doubleSpace == "  ";
    while Contains(result, doubleSpace, Ordinal)
      invariant CollapseSpaces(result) == CollapseSpaces(Replace(text, systemCharacters, " "))
      decreases |result|
    {
      CollapseStepKeepsOut(result);
      result := Trim(ReplaceAll(result, doubleSpace, space, Ordinal));
    }
    assert CollapseSpaces(result) == result;
    result := ReplaceAll(ToLower(Trim(result)), space, "-", Ordinal);
    r := result;
    SlugClean(text, systemCharacters);
  }

  /** CleanCharacters(text), with the system characters above. */
  method CleanCharacters(text: string) returns (r: string)
    ensures r == Slug(text, SystemCharacters())
    ensures ' ' !in r && Trimmed(r)
    ensures FreeOfSingles(r, SystemCharacters())
  {
    SystemCharactersShape();
    r := CleanCharactersWith(text, SystemCharacters());
  }

  /** No system character is a letter or '-'. */
  lemma SystemCharactersShape()
    ensures SinglesSymbolic(SystemCharacters())
  {
  }

  // ---------------------------------------------------------------------------
  // ToPlainText(text)

  /** Regex.Replace(s, "<[^>]*>", "") with `open` = '<' and `close` = '>' (and "{[^}]*}" with
      braces): from each `open` that has a `close` somewhere after it, everything through the
      first such `close` is deleted; any other character is kept. */
  function StripDelimited(s: string, open: char, close: char): (r: string)
    ensures |r| <= |s|
    ensures forall c :: c in r ==> c in s
    ensures forall i, j :: 0 <= i < j < |r| && r[i] == open ==> r[j] != close
    ensures open !in s ==> r == s
    decreases |s|
  {
    if |s| == 0 then []
    else if s[0] == open && close in s[1..] then
      StripDelimited(s[1..][IndexOf(s[1..], close) + 1..], open, close)
    else
      var rest := StripDelimited(s[1..], open, close);
      assert s == [s[0]] + s[1..];
      [s[0]] + rest
  }

  /** The words ToPlainText replaces by a space, in source order. */
  function SymbolsForReplace(): (r: seq<string>)
    ensures Targets(r)
  {
    ["&", "/", "\\", "&", "?", "=", "quot;", "nbsp;", "rsquo;", "ndash;", "<", ">"]
  }

  /** The first ten of the fourteen StringBuilder.Replace calls that end ToPlainText: removals
      of paragraph, div and span tags and of "&quot;". */
  function TagRemovals(): (r: seq<string>)
    ensures forall i :: 0 <= i < |r| ==> |r[i]| > 0 && (r[i][0] == '<' || r[i][0] == '&')
  {
    ["<p>", "<p/>", "<p />", "<P>", "<P />", "<div />", "<div>", "<span />", "<span>", "&quot;"]
  }

  /** The last two of them, after CR and LF have become spaces. */
  function QuoteRemovals(): (r: seq<string>)
    ensures forall i :: 0 <= i < |r| ==> |r[i]| > 0 && r[i][0] == '&'
  {
    ["&laquo;", "&raquo;"]
  }

  /** The fourteen literal replacements, in source order. */
  function Removals(s: string): string {
    var lines := ReplaceAll(ReplaceAll(ReplaceEach(s, TagRemovals(), "", Ordinal), "\r", " ", Ordinal), "\n", " ", Ordinal);
    ReplaceEach(lines, QuoteRemovals(), "", Ordinal)
  }

  /** A delimited run at the front is dropped whole. */
  lemma StripTag(t: string, s: string, open: char, close: char)
    requires close !in t
    ensures StripDelimited([open] + t + [close] + s, open, close) == StripDelimited(s, open, close)
  {
    var tail := ([open] + t + [close] + s)[1..];
    assert tail == t + [close] + s;
    assert tail[..|t|] == t && tail[|t|] == close;
    assert IndexOf(tail, close) == |t|;
    assert tail[|t| + 1..] == s;
  }

  /** A prefix without opening delimiters is kept as it is. */
  lemma {:induction false} StripPlainPrefix(a: string, s: string, open: char, close: char)
    requires open !in a
    ensures StripDelimited(a + s, open, close) == a + StripDelimited(s, open, close)
    decreases |a|
  {
    if |a| > 0 {
      assert (a + s)[0] == a[0] && (a + s)[1..] == a[1..] + s;
      StripKeepsFirst(a + s, open, close);
      StripPlainPrefix(a[1..], s, open, close);
      assert [a[0]] + (a[1..] + s) == a + s;
      assert a == [a[0]] + a[1..];
    } else {
      assert a + s == s;
    }
  }

  /** A first character that does not open a delimited part is kept. */
  lemma StripKeepsFirst(s: string, open: char, close: char)
    requires |s| > 0 && s[0] != open
    ensures StripDelimited(s, open, close) == [s[0]] + StripDelimited(s[1..], open, close)
  {
  }

  /** What ToPlainText(text) computes, where `regexPasses` is the effect of its loop over the
      eight regular expressions. */
  function PlainText(text: string, regexPasses: string -> string): string {
    var untagged := StripDelimited(StripDelimited(regexPasses(text), '<', '>'), '{', '}');
    var bracketed := ReplaceAll(ReplaceAll(untagged, "<", "<", Ordinal), ">", ">", Ordinal);
    Trim(Removals(ReplaceEach(bracketed, SymbolsForReplace(), " ", Ordinal)))
  }

  /** The characters that never survive ToPlainText. */
  predicate PlainChar(c: char) {
    c != '<' && c != '>' && c != '&' && c != '/' && c != '\\' && c != '?' && c != '=' && c != '\r' && c != '\n'
  }

  /** The `[<]` and `[>]` passes replace a character by itself, and after the symbol pass every
      literal removal except the two line-break ones finds nothing: each of their patterns starts
      with '<' or '&', which are gone. */
  lemma PlainTextIdlePasses(untagged: string)
    ensures ReplaceAll(ReplaceAll(untagged, "<", "<", Ordinal), ">", ">", Ordinal) == untagged
    ensures Removals(ReplaceEach(untagged, SymbolsForReplace(), " ", Ordinal))
            == ReplaceAll(ReplaceAll(ReplaceEach(untagged, SymbolsForReplace(), " ", Ordinal), "\r", " ", Ordinal), "\n", " ", Ordinal)
  {
    ReplaceBySelf(untagged, "<");
    ReplaceBySelf(ReplaceAll(untagged, "<", "<", Ordinal), ">");
    var spaced := ReplaceEach(untagged, SymbolsForReplace(), " ", Ordinal);
    SymbolsCleared(untagged);
    RemovalsIdle(spaced);
  }

  /** The one-character words of the symbol pass. */
  predicate SymbolChar(c: char) {
    c == '<' || c == '>' || c == '&' || c == '/' || c == '\\' || c == '?' || c == '='
  }

  /** After the symbol pass none of the one-character symbols is left. */
  lemma SymbolsCleared(s: string)
    ensures forall c :: SymbolChar(c) ==> c !in ReplaceEach(s, SymbolsForReplace(), " ", Ordinal)
  {
    var t := SymbolsForReplace();
    assert t[0] == "&" && t[1] == "/" && t[2] == "\\" && t[4] == "?" && t[5] == "=" && t[10] == "<" && t[11] == ">";
    forall c | SymbolChar(c) ensures c !in ReplaceEach(s, t, " ", Ordinal) {
      ReplaceEachRemovesChar(s, t, " ", c);
    }
  }

  lemma RemovalsIdle(s: string)
    requires '<' !in s && '&' !in s
    ensures Removals(s) == ReplaceAll(ReplaceAll(s, "\r", " ", Ordinal), "\n", " ", Ordinal)
  {
    var a := ReplaceAll(s, "\r", " ", Ordinal);
    var b := ReplaceAll(a, "\n", " ", Ordinal);
    ReplaceEachUnfound(s, TagRemovals(), "");
    ReplaceKeepsOut(s, "\r", " ", Ordinal, '&');
    ReplaceKeepsOut(a, "\n", " ", Ordinal, '&');
    ReplaceEachUnfound(b, QuoteRemovals(), "");
  }

  /** The output of ToPlainText is trimmed and holds none of < > & / \\ ? = CR LF. */
  lemma PlainTextClean(text: string, regexPasses: string -> string)
    ensures Trimmed(PlainText(text, regexPasses))
    ensures forall c :: !PlainChar(c) ==> c !in PlainText(text, regexPasses)
  {
    var untagged := StripDelimited(StripDelimited(regexPasses(text), '<', '>'), '{', '}');
    var bracketed := ReplaceAll(ReplaceAll(untagged, "<", "<", Ordinal), ">", ">", Ordinal);
    var spaced := ReplaceEach(untagged, SymbolsForReplace(), " ", Ordinal);
    assert PlainText(text, regexPasses) == Trim(Removals(ReplaceEach(bracketed, SymbolsForReplace(), " ", Ordinal)));
    PlainTextIdlePasses(untagged);
    assert bracketed == untagged;
    assert PlainText(text, regexPasses) == Trim(Removals(spaced));
    assert PlainText(text, regexPasses) == Trim(ReplaceAll(ReplaceAll(spaced, "\r", " ", Ordinal), "\n", " ", Ordinal));
    SymbolsCleared(untagged);
    LinesClean(spaced);
  }

  /** Plain characters other than ';': nothing the symbol pass or the literal removals match. */
  predicate PlainWord(u: string) {
    forall i :: 0 <= i < |u| ==> PlainChar(u[i]) && u[i] != ';'
  }

  /** A text without tags and braces after the regular expressions, made of plain characters
      other than ';' and trimmed, passes the rest of ToPlainText unchanged. */
  lemma PlainTextStrips(text: string, regexPasses: string -> string)
    requires var u := StripDelimited(StripDelimited(regexPasses(text), '<', '>'), '{', '}');
             Trimmed(u) && PlainWord(u)
    ensures PlainText(text, regexPasses) == StripDelimited(StripDelimited(regexPasses(text), '<', '>'), '{', '}')
  {
    var u := StripDelimited(StripDelimited(regexPasses(text), '<', '>'), '{', '}');
    PlainTextIdlePasses(u);
    SymbolsIdle(u);
    LinesIdle(u);
  }

  lemma SymbolsIdle(u: string)
    requires PlainWord(u)
    ensures ReplaceEach(u, SymbolsForReplace(), " ", Ordinal) == u
  {
    SymbolsEndInSymbols();
    WordsIdle(u, SymbolsForReplace());
  }

  lemma WordsIdle(u: string, words: seq<string>)
    requires PlainWord(u)
    requires forall i :: 0 <= i < |words| ==>
               |words[i]| > 0 && (SymbolChar(words[i][|words[i]| - 1]) || words[i][|words[i]| - 1] == ';')
    ensures ReplaceEach(u, words, " ", Ordinal) == u
  {
    ReplaceEachUnfound(u, words, " ");
  }

  lemma LinesIdle(u: string)
    requires PlainWord(u) && Trimmed(u)
    ensures Trim(ReplaceAll(ReplaceAll(u, "\r", " ", Ordinal), "\n", " ", Ordinal)) == u
  {
    ReplaceUnfound(u, "\r", " ");
    ReplaceUnfound(u, "\n", " ");
  }

  /** Each word of the symbol pass ends in a one-character symbol or ';'. */
  lemma SymbolsEndInSymbols()
    ensures forall i :: 0 <= i < |SymbolsForReplace()| ==>
              |SymbolsForReplace()[i]| > 0 &&
              (SymbolChar(SymbolsForReplace()[i][|SymbolsForReplace()[i]| - 1])
              || SymbolsForReplace()[i][|SymbolsForReplace()[i]| - 1] == ';')
  {
  }

  /** ToPlainText leaves a text alone that is already plain: trimmed, made of plain characters
      other than ';', without '{', and left alone by the regular expressions. */
  lemma PlainTextKeepsPlain(text: string, regexPasses: string -> string)
    requires regexPasses(text) == text && '{' !in text && Trimmed(text) && PlainWord(text)
    ensures PlainText(text, regexPasses) == text
  {
    PlainTextStrips(text, regexPasses);
  }

  /** Turning CR and LF into spaces in a text without symbols and trimming leaves only plain
      characters. */
  lemma LinesClean(spaced: string)
    requires forall c :: SymbolChar(c) ==> c !in spaced
    ensures Trimmed(Trim(ReplaceAll(ReplaceAll(spaced, "\r", " ", Ordinal), "\n", " ", Ordinal)))
    ensures forall c :: !PlainChar(c) ==> c !in Trim(ReplaceAll(ReplaceAll(spaced, "\r", " ", Ordinal), "\n", " ", Ordinal))
  {
    var a := ReplaceAll(spaced, "\r", " ", Ordinal);
    var b := ReplaceAll(a, "\n", " ", Ordinal);
    ReplaceRemovesChar(spaced, '\r', " ");
    ReplaceRemovesChar(a, '\n', " ");
    ReplaceKeepsOut(a, "\n", " ", Ordinal, '\r');
    forall c | SymbolChar(c) ensures c !in b {
      ReplaceKeepsOut(spaced, "\r", " ", Ordinal, c);
      ReplaceKeepsOut(a, "\n", " ", Ordinal, c);
    }
    forall c | !PlainChar(c) ensures c !in Trim(b) {
      TrimKeepsOut(b, c);
    }
  }

  /** The last fourteen calls of ToPlainText(text), StringBuilder.Replace with literals. */
  method RemoveLiterals(sb: StringBuilder)
    modifies sb
    ensures sb.value == Removals(old(sb.value))
  {
    RemoveTags(sb);
    sb.Replace("\r", " ");
    sb.Replace("\n", " ");
    var lines := sb.ToString();
    var quotes := QuoteRemovals();
    assert quotes[..0] == [];
    ReplaceEachStep(lines, quotes, 0, "", Ordinal);
    sb.Replace("&laquo;", "");
    ReplaceEachStep(lines, quotes, 1, "", Ordinal);
    sb.Replace("&raquo;", "");
    assert quotes[..2] == quotes;
  }

  /** The first ten of them, which delete paragraph, div and span tags and "&quot;". */
  method RemoveTags(sb: StringBuilder)
    modifies sb
    ensures sb.value == ReplaceEach(old(sb.value), TagRemovals(), "", Ordinal)
  {
    var start := sb.ToString();
    var tags := TagRemovals();
    assert tags[..0] == [];
    ReplaceEachStep(start, tags, 0, "", Ordinal);
    sb.Replace("<p>", "");
    ReplaceEachStep(start, tags, 1, "", Ordinal);
    sb.Replace("<p/>", "");
    ReplaceEachStep(start, tags, 2, "", Ordinal);
    sb.Replace("<p />", "");
    ReplaceEachStep(start, tags, 3, "", Ordinal);
    sb.Replace("<P>", "");
    ReplaceEachStep(start, tags, 4, "", Ordinal);
    sb.Replace("<P />", "");
    ReplaceEachStep(start, tags, 5, "", Ordinal);
    sb.Replace("<div />", "");
    ReplaceEachStep(start, tags, 6, "", Ordinal);
    sb.Replace("<div>", "");
    ReplaceEachStep(start, tags, 7, "", Ordinal);
    sb.Replace("<span />", "");
    ReplaceEachStep(start, tags, 8, "", Ordinal);
    sb.Replace("<span>", "");
    ReplaceEachStep(start, tags, 9, "", Ordinal);
    sb.Replace("&quot;", "");
    assert tags[..10] == tags;
  }

  /** ToPlainText(text): the eight regular expressions, the tag and brace strippers, the two
      bracket passes, the symbol loop and the fourteen literal replacements on a StringBuilder,
      then Trim. */
  method ToPlainText(text: string, regexPasses: string -> string) returns (r: string)
    ensures r == PlainText(text, regexPasses)
    ensures Trimmed(r) && forall c :: !PlainChar(c) ==> c !in r
  {
    var sb := new StringBuilder(regexPasses(text));
    sb := new StringBuilder(StripDelimited(sb.ToString(), '<', '>'));
    sb := new StringBuilder(StripDelimited(sb.ToString(), '{', '}'));
    sb := new StringBuilder(ReplaceAll(sb.ToString(), "<", "<", Ordinal));
    sb := new StringBuilder(ReplaceAll(sb.ToString(), ">", ">", Ordinal));
    var bracketed := sb.ToString();
    var symbols := SymbolsForReplace();
    for i := 0 to |symbols|
      invariant sb.value == ReplaceEach(bracketed, symbols[..i], " ", Ordinal)
    {
      ReplaceEachStep(bracketed, symbols, i, " ", Ordinal);
      sb.Replace(symbols[i], " ");
    }
    assert symbols[..|symbols|] == symbols;
    RemoveLiterals(sb);
    r := Trim(sb.ToString());
    PlainTextClean(text, regexPasses);
  }

  // ---------------------------------------------------------------------------
  // ToPlainText(text, preserveLineBreaks) and TrimLineBreaksFromStart

  /** The marker that stands for a line break while the HTML is converted. */
  const LineBreakPlaceholder: string := "[[LINE_BREAK]]"

  /** The tags that count as line breaks, in source order. */
  function LineBreakTags(): (r: seq<string>)
    ensures forall i :: 0 <= i < |r| ==> 3 <= |r[i]| <= 6 && r[i][0] == '<' && r[i][|r[i]| - 1] == '>'
  {
    ["<br>", "<br/>", "<br />", "<BR>", "<BR/>", "<BR />", "<P>", "<P/>", "<P />", "</P>", "<p>", "<p/>", "<p />"]
  }

  /** Every line-break tag runs from '<' to '>' with no other bracket inside, and none is the
      lower-case "</p>". */
  lemma TagsBracketed()
    ensures forall k :: 0 <= k < |LineBreakTags()| ==> Bracketed(LineBreakTags()[k]) && LineBreakTags()[k] != "</p>"
  {
  }

  /** Every line-break tag in turn becomes `placeholder`, compared under `cmp`. */
  function MarkLineBreaks(text: string, placeholder: string, cmp: Comparison): string {
    ReplaceEach(text, LineBreakTags(), placeholder, cmp)
  }

  /** A placeholder at least five characters long without '<' and '>' (under `cmp`) hides every tag:
      once marked, no line-break tag occurs. */
  lemma LineBreaksMarked(text: string, placeholder: string, cmp: Comparison)
    requires |placeholder| >= 5 && Avoids(placeholder, '<', cmp) && Avoids(placeholder, '>', cmp)
    ensures forall k :: 0 <= k < |LineBreakTags()| ==> !Contains(MarkLineBreaks(text, placeholder, cmp), LineBreakTags()[k], cmp)
  {
    var tags := LineBreakTags();
    forall k | 0 <= k < |tags| ensures !Contains(ReplaceEach(text, tags, placeholder, cmp), tags[k], cmp) {
      ReplaceEachClears(text, tags, placeholder, cmp, k);
    }
  }

  lemma PlaceholderHidesTags()
    ensures |LineBreakPlaceholder| >= 5
    ensures Avoids(LineBreakPlaceholder, '<', OrdinalIgnoreCase) && Avoids(LineBreakPlaceholder, '>', OrdinalIgnoreCase)
  {
  }

  /** Ext's marking ignores case, so no line-break tag is left in any case. */
  lemma NoLineBreakTagLeft(text: string)
    ensures forall k :: 0 <= k < |LineBreakTags()| ==>
              !Contains(MarkLineBreaks(text, LineBreakPlaceholder, OrdinalIgnoreCase), LineBreakTags()[k], OrdinalIgnoreCase)
  {
    PlaceholderHidesTags();
    LineBreaksMarked(text, LineBreakPlaceholder, OrdinalIgnoreCase);
  }

  /** Ext's passes for "<BR>", "<BR/>", "<BR />", "<p>", "<p/>" and "<p />" change nothing: under
      IgnoreCase their lower- or upper-case twin three or four entries earlier has removed them. */
  lemma RedundantTagPass(text: string, k: nat)
    requires k == 3 || k == 4 || k == 5 || k == 10 || k == 11 || k == 12
    ensures ReplaceEach(text, LineBreakTags()[..k + 1], LineBreakPlaceholder, OrdinalIgnoreCase)
            == ReplaceEach(text, LineBreakTags()[..k], LineBreakPlaceholder, OrdinalIgnoreCase)
  {
    var tags := LineBreakTags();
    var j := if k < 10 then k - 3 else k - 4;
    PlaceholderHidesTags();
    assert |tags[j]| == |tags[k]| && forall i :: 0 <= i < |tags[j]| ==> LowerChar(tags[j][i]) == LowerChar(tags[k][i]);
    CaseDuplicateIdle(text, tags, LineBreakPlaceholder, j, k);
  }

  /** "</p>", for one, is caught by "</P>". */
  lemma NoClosingParagraphLeft(text: string)
    ensures !Contains(MarkLineBreaks(text, LineBreakPlaceholder, OrdinalIgnoreCase), "</p>", OrdinalIgnoreCase)
  {
    NoLineBreakTagLeft(text);
    assert LineBreakTags()[9] == "</P>";
    LowerCaseClose(MarkLineBreaks(text, LineBreakPlaceholder, OrdinalIgnoreCase));
  }

  lemma LowerCaseClose(s: string)
    requires !Contains(s, "</P>", OrdinalIgnoreCase)
    ensures !Contains(s, "</p>", OrdinalIgnoreCase)
  {
    CaseVariantContains(s, "</p>", "</P>");
  }

  /** The while loop that collapses runs: as long as two copies of `p` are adjacent, each such
      pair becomes one copy. */
  function CollapseRepeats(s: string, p: string): (r: string)
    requires |p| > 0
    ensures !Contains(r, p + p, Ordinal)
    ensures |r| <= |s|
    ensures forall c :: c in r ==> c in s
    ensures !Contains(s, p + p, Ordinal) ==> r == s
    decreases |s|
  {
    if Contains(s, p + p, Ordinal) then
      CollapseStep(s, p);
      CollapseRepeats(ReplaceAll(s, p + p, p, Ordinal), p)
    else s
  }

  /** One round of that loop shortens the text and introduces no character. */
  lemma CollapseStep(s: string, p: string)
    requires |p| > 0 && Contains(s, p + p, Ordinal)
    ensures |ReplaceAll(s, p + p, p, Ordinal)| < |s|
    ensures forall c :: c in ReplaceAll(s, p + p, p, Ordinal) ==> c in s
  {
    ReplaceShrinks(s, p + p, p, Ordinal);
    forall c | c !in s ensures c !in ReplaceAll(s, p + p, p, Ordinal) {
      forall k | 0 <= k < |p| ensures p[k] != c {
        ContainsChars(s, p + p, k);
      }
      ReplaceKeepsOut(s, p + p, p, Ordinal, c);
    }
  }

  /** `w` is made of whole copies of `p`. */
  predicate Repeats(w: string, p: string)
    decreases |w|
  {
    |w| == 0 || (0 < |p| <= |w| && w[..|p|] == p && Repeats(w[|p|..], p))
  }

  /** TrimLineBreaksFromStart's loop: the copies of `p` at the start are dropped. What is left is a
      suffix of `s` that does not start with `p`, and what is dropped is whole copies of `p`. The
      empty `p` is allowed only when there is nothing to trim, since the source then loops
      forever. */
  function TrimLeading(s: string, p: string): (r: string)
    requires |p| > 0 || |s| == 0
    ensures |r| <= |s| && r == s[|s| - |r|..]
    ensures |p| > 0 ==> !StartsWith(r, p, Ordinal)
    ensures Repeats(s[..|s| - |r|], p)
    decreases |s|
  {
    if |s| > 0 && StartsWith(s, p, Ordinal) then
      var r := TrimLeading(s[|p|..], p);
      SplitPrefix(s, p);
      DropRepeat(s, p, s[|p|..], r);
      r
    else
      KeepAll(s, p);
      s
  }

  /** TrimLeading's last step: a string that does not start with `p` is kept whole. */
  lemma KeepAll(s: string, p: string)
    requires !(|s| > 0 && StartsWith(s, p, Ordinal))
    ensures s == s[|s| - |s|..] && Repeats(s[..|s| - |s|], p)
    ensures |p| > 0 ==> !StartsWith(s, p, Ordinal)
  {
    assert s[..0] == [];
  }

  /** One step of TrimLeading: what is kept after a copy of `p` is kept from `s == p + t`, and one
      more copy of `p` in front of the dropped copies is a run of copies. */
  lemma DropRepeat(s: string, p: string, t: string, r: string)
    requires s == p + t
    requires 0 < |p| && |r| <= |t| && r == t[|t| - |r|..] && Repeats(t[..|t| - |r|], p)
    ensures r == s[|s| - |r|..] && Repeats(s[..|s| - |r|], p)
  {
    var w := s[..|s| - |r|];
    assert w[..|p|] == p;
    assert w[|p|..] == t[..|t| - |r|];
    assert s[|s| - |r|..] == t[|t| - |r|..];
  }

  /** TrimLineBreaksFromStart(text, lineBreakPlaceholder). */
  method TrimLineBreaksFromStart(text: string, placeholder: string) returns (r: string)
    requires |placeholder| > 0 || |text| == 0
    ensures r == TrimLeading(text, placeholder)
  {
    if |text| == 0 {
      return text;
    }
    r := text;
    while StartsWith(r, placeholder, Ordinal)
      invariant |r| <= |text| && TrimLeading(r, placeholder) == TrimLeading(text, placeholder)
      decreases |r|
    {
      r := r[|placeholder|..];
    }
  }

  /** What ToPlainText(text, true) computes: line-break tags become placeholders, runs of them
      collapse, those at the start go, the text is converted and each placeholder becomes
      "<br />". */
  function PlainTextWithBreaks(text: string, regexPasses: string -> string): string {
    var marked := MarkLineBreaks(text, LineBreakPlaceholder, OrdinalIgnoreCase);
    var single := CollapseRepeats(marked, LineBreakPlaceholder);
    ReplaceAll(PlainText(TrimLeading(single, LineBreakPlaceholder), regexPasses), LineBreakPlaceholder, "<br />", Ordinal)
  }

  /** Restoring the placeholders in a converted text: the only '<' are those of "<br />", the
      other characters ToPlainText removes stay out, and the text stays trimmed. */
  lemma BreaksRestored(s: string, placeholder: string)
    requires |placeholder| > 0 && Trimmed(s) && forall c :: !PlainChar(c) ==> c !in s
    ensures var r := ReplaceAll(s, placeholder, "<br />", Ordinal);
            Trimmed(r)
            && (forall i :: 0 <= i < |r| && r[i] == '<' ==> "<br />" <= r[i..])
            && (forall c :: !PlainChar(c) && c != '<' && c != '/' && c != '>' ==> c !in r)
  {
    var rep := "<br />";
    var r := ReplaceAll(s, placeholder, rep, Ordinal);
    ReplaceAnchors(s, placeholder, rep, Ordinal, '<');
    forall c | !PlainChar(c) && c != '<' && c != '/' && c != '>' ensures c !in r {
      ReplaceKeepsOut(s, placeholder, rep, Ordinal, c);
    }
    if |s| > 0 {
      ReplaceEnds(s, placeholder, rep, Ordinal);
    } else {
      assert r == [];
    }
  }

  /** The output of ToPlainText(text, true): trimmed, every '<' begins "<br />", and none of
      & \\ ? = CR LF. */
  lemma PlainTextWithBreaksClean(text: string, regexPasses: string -> string)
    ensures var r := PlainTextWithBreaks(text, regexPasses);
            Trimmed(r)
            && (forall i :: 0 <= i < |r| && r[i] == '<' ==> "<br />" <= r[i..])
            && (forall c :: !PlainChar(c) && c != '<' && c != '/' && c != '>' ==> c !in r)
  {
    var marked := MarkLineBreaks(text, LineBreakPlaceholder, OrdinalIgnoreCase);
    var trimmed := TrimLeading(CollapseRepeats(marked, LineBreakPlaceholder), LineBreakPlaceholder);
    PlainTextClean(trimmed, regexPasses);
    BreaksRestored(PlainText(trimmed, regexPasses), LineBreakPlaceholder);
  }

  /** The foreach over the line-break tags. */
  method MarkTags(text: string, placeholder: string, cmp: Comparison) returns (r: string)
    ensures r == MarkLineBreaks(text, placeholder, cmp)
  {
    var tags := LineBreakTags();
    r := text;
    for i := 0 to |tags|
      invariant r == ReplaceEach(text, tags[..i], placeholder, cmp)
    {
      ReplaceEachStep(text, tags, i, placeholder, cmp);
      r := ReplaceAll(r, tags[i], placeholder, cmp);
    }
    assert tags[..|tags|] == tags;
  }

  /** The while loop that collapses runs of placeholders. */
  method CollapseLineBreaks(text: string, placeholder: string) returns (r: string)
    requires |placeholder| > 0
    ensures r == CollapseRepeats(text, placeholder)
  {
    r := text;
    var pair := placeholder + placeholder;
    while Contains(r, pair, Ordinal)
      invariant CollapseRepeats(r, placeholder) == CollapseRepeats(text, placeholder)
      decreases |r|
    {
      CollapseStep(r, placeholder);
      r := ReplaceAll(r, pair, placeholder, Ordinal);
    }
  }

  /** ToPlainText(text, preserveLineBreaks). */
  method ToPlainTextWithBreaks(text: string, preserveLineBreaks: bool, regexPasses: string -> string) returns (r: string)
    ensures preserveLineBreaks ==> r == PlainTextWithBreaks(text, regexPasses)
    ensures !preserveLineBreaks ==> r == PlainText(text, regexPasses)
  {
    if !preserveLineBreaks {
      r := ToPlainText(text, regexPasses);
    } else {
      r := KeepLineBreaks(text, regexPasses);
    }
  }

  /** The body of ToPlainText(text, true). */
  method KeepLineBreaks(text: string, regexPasses: string -> string) returns (r: string)
    ensures r == PlainTextWithBreaks(text, regexPasses)
    ensures Trimmed(r) && forall i :: 0 <= i < |r| && r[i] == '<' ==> "<br />" <= r[i..]
  {
    var placeholder := LineBreakPlaceholder;
    var t := MarkTags(text, placeholder, OrdinalIgnoreCase);
    t := CollapseLineBreaks(t, placeholder);
    t := TrimLineBreaksFromStart(t, placeholder);
    t := ToPlainText(t, regexPasses);
    r := ReplaceAll(t, placeholder, "<br />", Ordinal);
    PlainTextWithBreaksClean(text, regexPasses);
  }

  // ---------------------------------------------------------------------------
  // GetKeywords

  /** The where/select of GetKeywords' query: the parts longer than four characters, each trimmed
      and lower-cased, in order. The length is that of the part before it is trimmed. */
  function LongTokens(parts: seq<string>): (r: seq<string>)
    ensures |r| <= |parts|
    decreases |parts|
  {
    if |parts| == 0 then []
    else
      var rest := LongTokens(parts[1..]);
      if |parts[0]| > 4 then [ToLower(Trim(parts[0]))] + rest else rest
  }

  /** `w` is some part longer than four characters, trimmed and lower-cased. */
  predicate LongTokenOf(parts: seq<string>, w: string) {
    exists p :: p in parts && |p| > 4 && w == ToLower(Trim(p))
  }

  /** The tokens are exactly the long parts, trimmed and lower-cased. */
  lemma {:induction false} LongTokensMembers(parts: seq<string>, w: string)
    ensures w in LongTokens(parts) <==> LongTokenOf(parts, w)
    decreases |parts|
  {
    if |parts| > 0 {
      LongTokensMembers(parts[1..], w);
      assert forall p :: p in parts <==> p == parts[0] || p in parts[1..];
      if LongTokenOf(parts[1..], w) {
        var p :| p in parts[1..] && |p| > 4 && w == ToLower(Trim(p));
        assert p in parts;
      }
    }
  }

  /** The count GetKeywords ranks a token by: how often it occurs among the tokens. */
  function Occurrences(tokens: seq<string>): string -> int {
    w => Frequency(tokens, w)
  }

  /** The ranking: distinct tokens by descending number of occurrences, the first `count` of them.
      OrderByDescending is stable and the dictionary enumerates its keys in insertion order, which
      is the order of Distinct. */
  function TopKeywords(tokens: seq<string>, count: int): seq<string> {
    Take(OrderByDescending(Distinct(tokens), Occurrences(tokens)), count)
  }

  /** The ranked keywords: `count` of them or all distinct tokens, none twice, all tokens, by
      non-increasing frequency with ties in order of first occurrence. */
  lemma TopKeywordsRanked(tokens: seq<string>, count: int)
    ensures var r := TopKeywords(tokens, count);
            |r| == (if count <= 0 then 0 else if count < |Distinct(tokens)| then count else |Distinct(tokens)|)
            && NoDuplicates(r)
            && (forall i :: 0 <= i < |r| ==> r[i] in tokens)
            && (forall i, j :: 0 <= i < j < |r| ==> Frequency(tokens, r[i]) >= Frequency(tokens, r[j]))
            && (forall i, j :: 0 <= i < j < |r| && Frequency(tokens, r[i]) == Frequency(tokens, r[j]) ==>
                  FirstIndex(tokens, r[i]) < FirstIndex(tokens, r[j]))
  {
    var key := Occurrences(tokens);
    assert forall w :: key(w) == Frequency(tokens, w);
    RankedTop(tokens, key, count);
  }

  /** No token left out beats a keyword taken: it occurs at most as often, and when as often, it
      occurs first later. */
  lemma TopKeywordsMaximal(tokens: seq<string>, count: int, w: string, i: nat)
    requires w in tokens && w !in TopKeywords(tokens, count) && i < |TopKeywords(tokens, count)|
    ensures Frequency(tokens, TopKeywords(tokens, count)[i]) >= Frequency(tokens, w)
    ensures Frequency(tokens, TopKeywords(tokens, count)[i]) == Frequency(tokens, w) ==>
              FirstIndex(tokens, TopKeywords(tokens, count)[i]) < FirstIndex(tokens, w)
  {
    RankedMaximal(tokens, Occurrences(tokens), count, w, i);
  }

  /** The tokens GetKeywords counts in the converted text `plain`: stripped of the system
      characters, trimmed, lower-cased and split at spaces. */
  function KeywordTokens(plain: string, systemCharacters: seq<string>): seq<string>
    requires Targets(systemCharacters)
  {
    LongTokens(KeywordParts(plain, systemCharacters))
  }

  /** The space-separated parts of the converted text, before the length filter. */
  function KeywordParts(plain: string, systemCharacters: seq<string>): seq<string>
    requires Targets(systemCharacters)
  {
    Split(ToLower(Trim(Replace(plain, systemCharacters, ""))), ' ')
  }

  /** The keyword list GetKeywords builds from the converted text `plain`. */
  function KeywordList(plain: string, systemCharacters: seq<string>, count: int): string
    requires Targets(systemCharacters)
  {
    Join(TopKeywords(KeywordTokens(plain, systemCharacters), count), ", ")
  }

  /** What GetKeywords(text, count) computes: the keyword list of ToPlainText(text, true), that
      is at most `count` ranked keywords, none twice, joined with ", ". */
  function Keywords(text: string, count: int, regexPasses: string -> string): (r: string)
    ensures var top := TopKeywords(KeywordTokens(PlainTextWithBreaks(text, regexPasses), SystemCharacters()), count);
            r == Join(top, ", ") && |top| <= (if count < 0 then 0 else count) && NoDuplicates(top)
  {
    SystemShape();
    KeywordListShape(PlainTextWithBreaks(text, regexPasses), SystemCharacters(), count);
    KeywordList(PlainTextWithBreaks(text, regexPasses), SystemCharacters(), count)
  }

  /** Every system character is non-empty, and ',' is one of them. */
  lemma SystemShape()
    ensures Targets(SystemCharacters()) && [','] in SystemCharacters()
  {
    CommaIsSystem();
  }

  /** The keyword list of a converted text, with ',' among the system characters. */
  lemma KeywordListShape(plain: string, systemCharacters: seq<string>, count: int)
    requires Targets(systemCharacters) && [','] in systemCharacters
    ensures var top := TopKeywords(KeywordTokens(plain, systemCharacters), count);
            var r := KeywordList(plain, systemCharacters, count);
            r == Join(top, ", ")
            && |top| <= (if count < 0 then 0 else count) && NoDuplicates(top)
            && (forall i :: 0 <= i < |top| ==> LongTokenOf(KeywordParts(plain, systemCharacters), top[i]))
            && (|top| > 0 ==> CountChar(r, ',') == |top| - 1)
  {
    KeywordsFromLongParts(plain, systemCharacters, count);
    KeywordsListed(plain, systemCharacters, count);
  }

  /** Every keyword is a part of the converted text longer than four characters, trimmed and
      lower-cased; there are at most `count` of them and none twice. */
  lemma KeywordsFromLongParts(plain: string, systemCharacters: seq<string>, count: int)
    requires Targets(systemCharacters)
    ensures var top := TopKeywords(KeywordTokens(plain, systemCharacters), count);
            |top| <= (if count < 0 then 0 else count) && NoDuplicates(top)
            && forall i :: 0 <= i < |top| ==> LongTokenOf(KeywordParts(plain, systemCharacters), top[i])
  {
    var tokens := KeywordTokens(plain, systemCharacters);
    var top := TopKeywords(tokens, count);
    TopKeywordsRanked(tokens, count);
    forall i | 0 <= i < |top| ensures LongTokenOf(KeywordParts(plain, systemCharacters), top[i]) {
      LongTokensMembers(KeywordParts(plain, systemCharacters), top[i]);
    }
  }

  /** No token holds a comma. */
  predicate CommaFree(tokens: seq<string>) {
    forall w :: w in tokens ==> ',' !in w
  }

  /** A keyword holds no ',' when the system characters include it. */
  lemma TokensWithoutComma(plain: string, systemCharacters: seq<string>)
    requires Targets(systemCharacters) && [','] in systemCharacters
    ensures CommaFree(KeywordTokens(plain, systemCharacters))
  {
    var stripped := Replace(plain, systemCharacters, "");
    ReplaceEachRemovesChar(plain, systemCharacters, "", ',');
    TrimKeepsOut(stripped, ',');
    ToLowerKeepsOut(Trim(stripped), ',');
    var parts := KeywordParts(plain, systemCharacters);
    SplitKeepsOut(ToLower(Trim(stripped)), ' ', ',');
    forall w | w in LongTokens(parts) ensures ',' !in w {
      LongTokensMembers(parts, w);
      var p :| p in parts && |p| > 4 && w == ToLower(Trim(p));
      TrimKeepsOut(p, ',');
      ToLowerKeepsOut(Trim(p), ',');
    }
  }

  /** ',' is one of the system characters GetKeywords removes. */
  lemma CommaIsSystem()
    ensures [','] in SystemCharacters()
  {
    assert SystemCharacters()[28] == ",";
  }

  /** Keywords without a comma, joined with ", ", hold one comma fewer than there are keywords. */
  lemma JoinedKeywords(tokens: seq<string>, count: int)
    requires CommaFree(tokens)
    ensures |TopKeywords(tokens, count)| > 0 ==>
              CountChar(Join(TopKeywords(tokens, count), ", "), ',') == |TopKeywords(tokens, count)| - 1
  {
    var top := TopKeywords(tokens, count);
    TopKeywordsRanked(tokens, count);
    if |top| > 0 {
      JoinCount(top, ", ", ',');
    }
  }

  /** GetKeywords lists its keywords separated by ", ": with ',' among the system characters, as
      it is in SystemCharacters, there is one comma fewer than keywords. */
  lemma KeywordsListed(plain: string, systemCharacters: seq<string>, count: int)
    requires Targets(systemCharacters) && [','] in systemCharacters
    ensures var top := TopKeywords(KeywordTokens(plain, systemCharacters), count);
            |top| > 0 ==> CountChar(KeywordList(plain, systemCharacters, count), ',') == |top| - 1
  {
    TokensWithoutComma(plain, systemCharacters);
    JoinedKeywords(KeywordTokens(plain, systemCharacters), count);
  }

  // ---------------------------------------------------------------------------
  // CutText

  /** CutText(text, maxLength): text longer than `maxLength` is cut after the last '.' at or
      before index `maxLength`, or else to `maxLength` characters followed by "..."; a negative
      `maxLength` makes LastIndexOf or Substring throw. */
  function CutText(text: string, maxLength: int): (r: Result<string, Failure>)
    ensures |text| <= maxLength ==> r == Ok(text)
    ensures maxLength < |text| ==> (r.Err? <==> maxLength < 0)
    ensures r.Ok? && maxLength < |text| && '.' in text[..maxLength + 1] ==>
              0 < |r.value| <= maxLength + 1 && r.value == text[..|r.value|] && r.value[|r.value| - 1] == '.'
              && '.' !in text[|r.value|..maxLength + 1]
    ensures r.Ok? && maxLength < |text| && '.' !in text[..maxLength + 1] ==>
              |r.value| == maxLength + 3 && r.value[..maxLength] == text[..maxLength] && EndsWith(r.value, "...")
  {
    if |text| <= maxLength then Ok(text)
    else if maxLength < 0 then Err(ArgumentOutOfRange)
    else
      var dot := LastIndexOf(text, '.', maxLength);
      if dot != -1 then
        assert '.' in text[..maxLength + 1];
        Ok(text[..dot + 1])
      else
        assert '.' !in text[..maxLength + 1];
        Ok(text[..maxLength] + "...")
  }

  /** As written, CutText can return more than `maxLength` characters: the '.' it keeps may sit
      at index `maxLength`, and "..." is appended after `maxLength` characters. */
  lemma CutTextOverruns()
    ensures CutText("abcdef", 3) == Ok("abc...") && |"abc..."| > 3
    ensures CutText("abc.def", 3) == Ok("abc.") && |"abc."| > 3
  {
    assert LastIndexOf("abcdef", '.', 3) == -1;
    assert "abcdef"[..3] + "..." == "abc...";
    assert LastIndexOf("abc.def", '.', 3) == 3;
    assert "abc.def"[..4] == "abc.";
  }

  /** CutText kept within `maxLength` characters, as documented: the text through the last '.'
      before index `maxLength`, or else the first `maxLength - 3` characters and "..." (the first
      `maxLength` characters when there is no room for the ellipsis). */
  function CutTextWithin(text: string, maxLength: int): (r: Result<string, Failure>)
    ensures |text| <= maxLength ==> r == Ok(text)
    ensures maxLength < |text| ==> (r.Err? <==> maxLength < 0)
    ensures r.Ok? ==> |r.value| <= maxLength
    ensures r.Ok? && maxLength < |text| && '.' in text[..maxLength] ==>
              0 < |r.value| && r.value == text[..|r.value|] && r.value[|r.value| - 1] == '.'
              && '.' !in text[|r.value|..maxLength]
    ensures r.Ok? && maxLength < |text| && '.' !in text[..maxLength] && maxLength >= 3 ==>
              r.value == text[..maxLength - 3] + "..."
  {
    if |text| <= maxLength then Ok(text)
    else if maxLength < 0 then Err(ArgumentOutOfRange)
    else
      var dot := if maxLength == 0 then -1 else LastIndexOf(text, '.', maxLength - 1);
      if dot != -1 then
        assert text[..dot + 1][dot] == '.';
        Ok(text[..dot + 1])
      else
        assert '.' !in text[..maxLength];
        if maxLength >= 3 then Ok(text[..maxLength - 3] + "...") else Ok(text[..maxLength])
  }

  /** Whenever CutText as written keeps within `maxLength`, the corrected version returns the same. */
  lemma CutTextWithinAgrees(text: string, maxLength: int)
    requires CutText(text, maxLength).Ok? && |CutText(text, maxLength).value| <= maxLength
    ensures CutTextWithin(text, maxLength) == CutText(text, maxLength)
  {
    if maxLength < |text| {
      var dot := LastIndexOf(text, '.', maxLength);
      assert dot != -1 && dot < maxLength;
      assert text[maxLength] != '.';
      assert maxLength > 0;
      assert dot == LastIndexOf(text, '.', maxLength - 1);
    }
  }
}
