/** The cases of the repository's TextHelper and HtmlConverter tests, worked through the model.
    Where ToPlainText is involved, the regular-expression stage is a parameter, and each example
    states what it needs of that stage on the example's text. */
module TextHelperExamples {
  import opened Wrappers
  import opened Strings
  import opened TextHelper
  import XTextHelper

  lemma SubstringCuts()
    ensures Substring(Some("This is a test string."), 10, "...") == Ok("This is...")
  {
    var s := "This is a test string.";
    assert |s| == 22;
    assert s[..7] == "This is";
    assert s[..7] + "..." == "This is...";
  }

  lemma SubstringKeepsShort()
    ensures Substring(Some("Short"), 10, "...") == Ok("Short")
  {
  }

  lemma SubstringOfEmpty()
    ensures Substring(Some(""), 10, "...") == Ok("")
    ensures Substring(None, 10, "...") == Ok("")
  {
  }

  /** Cleaning the empty text gives the empty slug, whatever the system characters. */
  lemma SlugOfEmpty(systemCharacters: seq<string>)
    requires Targets(systemCharacters)
    ensures Slug("", systemCharacters) == ""
  {
    forall i | 0 <= i < |systemCharacters| ensures !Contains("", systemCharacters[i], Ordinal) {
      ContainsShorter("", systemCharacters[i], Ordinal);
    }
    ReplaceEachAbsent("", systemCharacters, " ", Ordinal);
    ContainsShorter("", "  ", Ordinal);
  }

  lemma CleanCharactersOfEmpty()
    ensures Slug("", SystemCharacters()) == ""
  {
    SlugOfEmpty(SystemCharacters());
  }

  /** Removing '&' and '!' from a text holding one of each, the '!' last, leaves the rest. */
  lemma MarksRemoved(a: string, b: string)
    requires '&' !in a && '!' !in a && '&' !in b && '!' !in b
    ensures Replace(a + " & " + b + "!", ["&", "!"], "") == a + "  " + b
  {
    assert a + " & " + b + "!" == (a + " ") + ['&'] + (" " + b + "!");
    ReplaceSingle(a + " ", " " + b + "!", '&', "");
    assert (a + " ") + "" + (" " + b + "!") == (a + "  " + b) + ['!'] + "";
    ReplaceSingle(a + "  " + b, "", '!', "");
    assert (a + "  " + b) + "" + "" == a + "  " + b;
    assert ["&", "!"][1..] == ["!"];
  }

  /** Replace("Hello & World!", ["&", "!"], "") removes both. */
  lemma ReplaceRemovesBoth()
    ensures Replace("Hello & World!", ["&", "!"], "") == "Hello  World"
  {
    MarksRemoved("Hello", "World");
    assert "Hello" + " & " + "World" + "!" == "Hello & World!";
    assert "Hello" + "  " + "World" == "Hello  World";
  }

  /** The marking of the X.Extensions.Text copy ignores case: "</p>" becomes a placeholder. */
  lemma ClosingParagraphMarked()
    ensures MarkLineBreaks("</p>", LineBreakPlaceholder, OrdinalIgnoreCase) == LineBreakPlaceholder
  {
    EarlyTagsMissClosing();
    ClosingMatched();
    LateTagsIdle(LineBreakPlaceholder);
    MarksOnlyClosing("</p>", LineBreakPlaceholder);
  }

  /** The ordinal marking of the X.Text copy leaves the text "</p>" as it is. */
  lemma XClosingParagraphAlone()
    ensures MarkLineBreaks("</p>", XTextHelper.LineBreakMarker, Ordinal) == "</p>"
  {
    var tags := LineBreakTags();
    forall k | 0 <= k < |tags| ensures !Contains("</p>", tags[k], Ordinal) {
      ClosingParagraphUnmatched(tags[k]);
    }
    ReplaceEachAbsent("</p>", tags, XTextHelper.LineBreakMarker, Ordinal);
  }

  lemma ClosingParagraphUnmatched(tag: string)
    requires tag in LineBreakTags()
    ensures !Contains("</p>", tag, Ordinal)
  {
  }

  lemma MarksOnlyClosing(s: string, placeholder: string)
    requires ReplaceEach(s, LineBreakTags()[..9], placeholder, OrdinalIgnoreCase) == s
    requires ReplaceEach(s, [LineBreakTags()[9]], placeholder, OrdinalIgnoreCase) == placeholder
    requires ReplaceEach(placeholder, LineBreakTags()[10..], placeholder, OrdinalIgnoreCase) == placeholder
    ensures MarkLineBreaks(s, placeholder, OrdinalIgnoreCase) == placeholder
  {
    OneTargetFires(s, LineBreakTags(), 9, placeholder, placeholder, OrdinalIgnoreCase);
  }

  /** When only target `k` of the fold changes anything, the fold's result is that target's. */
  lemma OneTargetFires(s: string, targets: seq<string>, k: nat, m: string, rep: string, cmp: Comparison)
    requires forall i :: 0 <= i < |targets| ==> |targets[i]| > 0
    requires k < |targets|
    requires ReplaceEach(s, targets[..k], rep, cmp) == s
    requires ReplaceEach(s, [targets[k]], rep, cmp) == m
    requires ReplaceEach(m, targets[k + 1..], rep, cmp) == m
    ensures ReplaceEach(s, targets, rep, cmp) == m
  {
    assert targets == targets[..k] + [targets[k]] + targets[k + 1..];
    ReplaceEachAppend(s, targets[..k] + [targets[k]], targets[k + 1..], rep, cmp);
    ReplaceEachAppend(s, targets[..k], [targets[k]], rep, cmp);
  }

  lemma EarlyTagsMissClosing()
    ensures ReplaceEach("</p>", LineBreakTags()[..9], LineBreakPlaceholder, OrdinalIgnoreCase) == "</p>"
  {
    var t := LineBreakTags()[..9];
    forall k | 0 <= k < |t| ensures !Contains("</p>", t[k], OrdinalIgnoreCase) {
      assert IsAsciiUpper(t[k][1]) || IsAsciiLower(t[k][1]);
      MissesClosingTag(t[k]);
    }
    ReplaceEachAbsent("</p>", t, LineBreakPlaceholder, OrdinalIgnoreCase);
  }

  /** A tag whose second character is a letter does not occur in "</p>", ignoring case. */
  lemma MissesClosingTag(p: string)
    requires |p| >= 2 && p[0] == '<' && (IsAsciiUpper(p[1]) || IsAsciiLower(p[1]))
    ensures !Contains("</p>", p, OrdinalIgnoreCase)
  {
    if StartsWith("</p>", p, OrdinalIgnoreCase) {
      StartsWithAt("</p>", p, OrdinalIgnoreCase, 1);
      assert false;
    }
    assert "</p>"[1..] == "/p>" && "/p>" + "" == "/p>";
    NonLetterAvoids("/p>", '<');
    PrependAvoiding("/p>", "", p, OrdinalIgnoreCase);
  }

  lemma ClosingMatched()
    ensures ReplaceEach("</p>", [LineBreakTags()[9]], LineBreakPlaceholder, OrdinalIgnoreCase) == LineBreakPlaceholder
  {
    assert LineBreakTags()[9] == "</P>";
    assert "</p>" == "</p>" + "";
    ReplaceHere("</p>", "", "</P>", LineBreakPlaceholder, OrdinalIgnoreCase);
  }

  /** The tags after "</P>" all start with '<', so a text without one is left alone. */
  lemma LateTagsIdle(s: string)
    requires '<' !in s
    ensures ReplaceEach(s, LineBreakTags()[10..], LineBreakPlaceholder, OrdinalIgnoreCase) == s
  {
    NonLetterAvoids(s, '<');
    ReplaceEachUnstartable(s, LineBreakTags()[10..], LineBreakPlaceholder, OrdinalIgnoreCase);
  }

  /** ToPlainText of a word between an opening and a closing tag, when the regular expressions
      hand the tagged text on, is the word. */
  lemma PlainTextOfTagged(text: string, regexPasses: string -> string, open: string, w: string, close: string)
    requires regexPasses(text) == ['<'] + open + ['>'] + w + ['<'] + close + ['>']
    requires '>' !in open && '>' !in close && '{' !in w && Trimmed(w) && PlainWord(w)
    ensures PlainText(text, regexPasses) == w
  {
    var closing := ['<'] + close + ['>'];
    assert regexPasses(text) == ['<'] + open + ['>'] + (w + closing);
    StripTag(open, w + closing, '<', '>');
    assert '<' !in w by { assert forall i :: 0 <= i < |w| ==> PlainChar(w[i]); }
    StripPlainPrefix(w, closing, '<', '>');
    assert closing == ['<'] + close + ['>'] + "";
    StripTag(close, "", '<', '>');
    assert w + "" == w;
    PlainTextStrips(text, regexPasses);
  }

  /** The text of the ToPlainText cases. */
  const Sentence: string := "This is a test"

  lemma SentencePlain()
    ensures '{' !in Sentence && Trimmed(Sentence) && PlainWord(Sentence)
  {
  }

  lemma ParagraphShape()
    ensures "<p>This is a test</p>" == ['<'] + "p" + ['>'] + Sentence + ['<'] + "/p" + ['>']
  {
  }

  /** None of the eight expressions matches "<p>This is a test</p>". */
  lemma ParagraphToPlainText(regexPasses: string -> string)
    requires regexPasses("<p>This is a test</p>") == "<p>This is a test</p>"
    ensures PlainText("<p>This is a test</p>", regexPasses) == Sentence
  {
    ParagraphShape();
    SentencePlain();
    PlainTextOfTagged("<p>This is a test</p>", regexPasses, "p", Sentence, "/p");
  }

  /** The fifth expression removes the div tags. */
  lemma NestedToPlainText(regexPasses: string -> string)
    requires regexPasses("<div><p>This is a test</p></div>") == "<p>This is a test</p>"
    ensures PlainText("<div><p>This is a test</p></div>", regexPasses) == Sentence
  {
    ParagraphShape();
    SentencePlain();
    PlainTextOfTagged("<div><p>This is a test</p></div>", regexPasses, "p", Sentence, "/p");
  }

  /** The fifth expression removes the html and body tags. */
  lemma DocumentToPlainText(regexPasses: string -> string)
    requires regexPasses("<html><body>This is a test</body></html>") == Sentence
    ensures PlainText("<html><body>This is a test</body></html>", regexPasses) == Sentence
  {
    SentencePlain();
    PlainTextOfUntagged("<html><body>This is a test</body></html>", regexPasses, Sentence);
  }

  lemma PlainTextOfUntagged(text: string, regexPasses: string -> string, w: string)
    requires regexPasses(text) == w && '{' !in w && Trimmed(w) && PlainWord(w)
    ensures PlainText(text, regexPasses) == w
  {
    assert '<' !in w by { assert forall i :: 0 <= i < |w| ==> PlainChar(w[i]); }
    PlainTextStrips(text, regexPasses);
  }

  // HtmlConverter cases: ToPlainText(text, preserveLineBreaks).

  /** One "<br>" in a text with no other '<' is the only line break tag that fires. */
  lemma MarkOneBreak(a: string, b: string, placeholder: string, cmp: Comparison)
    requires '<' !in a && '<' !in b && '<' !in placeholder
    ensures MarkLineBreaks(a + "<br>" + b, placeholder, cmp) == a + placeholder + b
  {
    var tags := LineBreakTags();
    assert tags[0] == "<br>";
    NonLetterAvoids(a, '<');
    NonLetterAvoids(b, '<');
    StartsWithSelf("<br>", cmp);
    ReplaceOnly(a, "<br>", b, "<br>", placeholder, cmp);
    var m := a + placeholder + b;
    NonLetterAvoids(m, '<');
    ReplaceEachUnstartable(m, tags[1..], placeholder, cmp);
  }

  lemma PlaceholderPlain()
    ensures Marker(LineBreakPlaceholder) && |LineBreakPlaceholder| == 14 && LineBreakPlaceholder[0] == '['
  {
  }

  lemma MarkerPlain()
    ensures Marker(XTextHelper.LineBreakMarker) && |XTextHelper.LineBreakMarker| == 14 && XTextHelper.LineBreakMarker[0] == 'L'
  {
  }

  lemma EmptyFront(x: string, y: string)
    ensures "" + x + y == x + y
  {
  }

  /** Joining plain words keeps them plain. */
  lemma PlainJoin(a: string, b: string)
    requires PlainWord(a) && PlainWord(b)
    ensures PlainWord(a + b)
  {
  }

  /** A text shorter than two placeholders has no repeat to collapse. */
  lemma CollapseIdle(m: string, p: string)
    requires 0 < |p| && |m| < |p| + |p|
    ensures CollapseRepeats(m, p) == m
  {
    ContainsShorter(m, p + p, Ordinal);
  }

  /** A placeholder followed by at most as many other characters, the first not the
      placeholder's, holds no repeat either. */
  lemma CollapseIdleFront(p: string, w: string)
    requires 0 < |w| <= |p| && w[0] != p[0]
    ensures CollapseRepeats(p + w, p) == p + w
  {
    var m := p + w;
    if StartsWith(m, p + p, Ordinal) {
      StartsWithAt(m, p + p, Ordinal, |p|);
      assert false;
    }
    ContainsShorter(m[1..], p + p, Ordinal);
  }

  /** A text not starting like the placeholder has no leading placeholder to trim. */
  lemma TrimLeadingIdle(m: string, p: string)
    requires 0 < |p| && 0 < |m| && m[0] != p[0]
    ensures TrimLeading(m, p) == m
  {
  }

  /** A single leading placeholder before a text not starting like it is trimmed. */
  lemma TrimLeadingOne(p: string, w: string)
    requires 0 < |p| && 0 < |w| && w[0] != p[0]
    ensures TrimLeading(p + w, p) == w
  {
    StartsWithSelf(p, Ordinal);
    StartsWithExtend(p, w, p, Ordinal);
    assert (p + w)[|p|..] == w;
    TrimLeadingIdle(w, p);
  }

  /** Plain words joined around a plain placeholder pass ToPlainText unchanged when the
      regular expressions do. */
  lemma PlainAround(a: string, p: string, b: string, regexPasses: string -> string)
    requires PlainWord(a) && PlainWord(p) && PlainWord(b) && '{' !in a && '{' !in p && '{' !in b
    requires Trimmed(a + p + b) && regexPasses(a + p + b) == a + p + b
    ensures PlainText(a + p + b, regexPasses) == a + p + b
  {
    PlainJoin(a, p);
    PlainJoin(a + p, b);
    PlainTextKeepsPlain(a + p + b, regexPasses);
  }

  /** The one placeholder is restored as "<br />". */
  lemma RestoreOne(a: string, p: string, b: string)
    requires 0 < |p| && p[0] !in a && p[0] !in b
    ensures ReplaceAll(a + p + b, p, "<br />", Ordinal) == a + "<br />" + b
  {
    StartsWithSelf(p, Ordinal);
    ReplaceOnly(a, p, b, p, "<br />", Ordinal);
  }

  /** PlainTextWithBreaks, stage by stage. */
  lemma BreakStages(text: string, regexPasses: string -> string, m: string, t: string, r: string)
    requires MarkLineBreaks(text, LineBreakPlaceholder, OrdinalIgnoreCase) == m
    requires CollapseRepeats(m, LineBreakPlaceholder) == m
    requires TrimLeading(m, LineBreakPlaceholder) == t
    requires PlainText(t, regexPasses) == t
    requires ReplaceAll(t, LineBreakPlaceholder, "<br />", Ordinal) == r
    ensures PlainTextWithBreaks(text, regexPasses) == r
  {
  }

  /** The X.Text PlainTextWithBreaks, stage by stage. */
  lemma XBreakStages(text: string, regexPasses: string -> string, m: string, r: string)
    requires MarkLineBreaks(text, XTextHelper.LineBreakMarker, Ordinal) == m
    requires CollapseRepeats(m, XTextHelper.LineBreakMarker) == m
    requires PlainText(m, regexPasses) == m
    requires ReplaceAll(m, XTextHelper.LineBreakMarker, "<br />", Ordinal) == r
    ensures XTextHelper.PlainTextWithBreaks(text, regexPasses) == r
  {
  }

  /** A non-empty trimmed word of plain characters without braces. */
  predicate Word(w: string) {
    0 < |w| && Trimmed(w) && PlainWord(w) && '{' !in w
  }

  /** What a placeholder must be for the cases below: plain, without '<' and braces. */
  predicate Marker(p: string) {
    0 < |p| && Trimmed(p) && PlainWord(p) && '{' !in p
  }

  /** Between two words, a "<br>" is marked, nothing collapses, ToPlainText passes the marked
      text on when the regular expressions do, and the placeholder becomes "<br />". */
  lemma InnerBreak(a: string, b: string, p: string, regexPasses: string -> string, cmp: Comparison)
    requires Word(a) && Word(b) && Marker(p) && p[0] !in a && p[0] !in b && |a| + |b| < |p|
    requires regexPasses(a + p + b) == a + p + b
    ensures MarkLineBreaks(a + "<br>" + b, p, cmp) == a + p + b
    ensures CollapseRepeats(a + p + b, p) == a + p + b
    ensures PlainText(a + p + b, regexPasses) == a + p + b
    ensures ReplaceAll(a + p + b, p, "<br />", Ordinal) == a + "<br />" + b
  {
    PlainOmits(a);
    PlainOmits(b);
    PlainOmits(p);
    MarkOneBreak(a, b, p, cmp);
    CollapseIdle(a + p + b, p);
    assert (a + p + b)[0] == a[0] && (a + p + b)[|a + p + b| - 1] == b[|b| - 1];
    PlainAround(a, p, b, regexPasses);
    RestoreOne(a, p, b);
  }

  /** A "<br>" before a word is marked, nothing collapses, and ToPlainText passes the marked text
      on when the regular expressions do. */
  lemma FrontBreak(w: string, p: string, regexPasses: string -> string, cmp: Comparison)
    requires Word(w) && Marker(p) && |w| <= |p| && p[0] !in w
    requires regexPasses(p + w) == p + w
    ensures MarkLineBreaks("<br>" + w, p, cmp) == p + w
    ensures CollapseRepeats(p + w, p) == p + w
    ensures PlainText(p + w, regexPasses) == p + w
  {
    PlainOmits(w);
    PlainOmits(p);
    EmptyFront("<br>", w);
    EmptyFront(p, w);
    MarkOneBreak("", w, p, cmp);
    CollapseIdleFront(p, w);
    assert (p + w)[0] == p[0] && (p + w)[|p + w| - 1] == w[|w| - 1];
    PlainAround("", p, w, regexPasses);
  }

  /** The conversion preserving line breaks turns an inner "<br>" into "<br />". */
  lemma BreakBetween(a: string, b: string, regexPasses: string -> string)
    requires Word(a) && Word(b) && |a| + |b| < 14 && '[' !in a && '[' !in b
    requires regexPasses(a + LineBreakPlaceholder + b) == a + LineBreakPlaceholder + b
    ensures PlainTextWithBreaks(a + "<br>" + b, regexPasses) == a + "<br />" + b
  {
    var p := LineBreakPlaceholder;
    PlaceholderPlain();
    InnerBreak(a, b, p, regexPasses, OrdinalIgnoreCase);
    TrimLeadingIdle(a + p + b, p);
    BreakStages(a + "<br>" + b, regexPasses, a + p + b, a + p + b, a + "<br />" + b);
  }

  /** The same holds of the X.Text copy, whose marker starts with 'L'. */
  lemma XBreakBetween(a: string, b: string, regexPasses: string -> string)
    requires Word(a) && Word(b) && |a| + |b| < 14 && 'L' !in a && 'L' !in b
    requires var m := XTextHelper.LineBreakMarker; regexPasses(a + m + b) == a + m + b
    ensures XTextHelper.PlainTextWithBreaks(a + "<br>" + b, regexPasses) == a + "<br />" + b
  {
    var p := XTextHelper.LineBreakMarker;
    MarkerPlain();
    InnerBreak(a, b, p, regexPasses, Ordinal);
    XBreakStages(a + "<br>" + b, regexPasses, a + p + b, a + "<br />" + b);
  }

  /** A leading "<br>" is dropped by the X.Extensions.Text copy ... */
  lemma LeadingBreakDropped(w: string, regexPasses: string -> string)
    requires Word(w) && |w| <= 14 && '[' !in w
    requires regexPasses(LineBreakPlaceholder + w) == LineBreakPlaceholder + w
    requires regexPasses(w) == w
    ensures PlainTextWithBreaks("<br>" + w, regexPasses) == w
  {
    var p := LineBreakPlaceholder;
    PlaceholderPlain();
    FrontBreak(w, p, regexPasses, OrdinalIgnoreCase);
    TrimLeadingOne(p, w);
    PlainTextKeepsPlain(w, regexPasses);
    ReplaceUnfound(w, p, "<br />");
    BreakStages("<br>" + w, regexPasses, p + w, w, w);
  }

  /** ... and kept, as "<br />", by the X.Text copy, which has no TrimLineBreaksFromStart. */
  lemma XLeadingBreakKept(w: string, regexPasses: string -> string)
    requires Word(w) && |w| <= 14 && 'L' !in w
    requires regexPasses(XTextHelper.LineBreakMarker + w) == XTextHelper.LineBreakMarker + w
    ensures XTextHelper.PlainTextWithBreaks("<br>" + w, regexPasses) == "<br />" + w
  {
    var p := XTextHelper.LineBreakMarker;
    MarkerPlain();
    FrontBreak(w, p, regexPasses, Ordinal);
    EmptyFront(p, w);
    EmptyFront("<br />", w);
    RestoreOne("", p, w);
    XBreakStages("<br>" + w, regexPasses, p + w, "<br />" + w);
  }

  /** Without preserving line breaks the tag is simply removed. */
  lemma BreakRemoved(a: string, b: string, regexPasses: string -> string)
    requires Trimmed(a + b) && PlainWord(a) && PlainWord(b) && '{' !in a && '{' !in b
    requires regexPasses(a + "<br>" + b) == a + "<br>" + b
    ensures PlainText(a + "<br>" + b, regexPasses) == a + b
  {
    var text := a + "<br>" + b;
    PlainOmits(a);
    PlainOmits(b);
    var tagged := ['<'] + "br" + ['>'] + b;
    assert text == a + tagged;
    StripPlainPrefix(a, tagged, '<', '>');
    StripTag("br", b, '<', '>');
    PlainJoin(a, b);
    BracesLeft(text, regexPasses, a + b);
  }

  /** A plain word has no '<'. */
  lemma PlainOmits(w: string)
    requires PlainWord(w)
    ensures '<' !in w
  {
    assert forall i :: 0 <= i < |w| ==> PlainChar(w[i]);
  }

  /** Once the tags are stripped only `w` is left, and `w` is plain, so ToPlainText gives `w`. */
  lemma BracesLeft(text: string, regexPasses: string -> string, w: string)
    requires StripDelimited(regexPasses(text), '<', '>') == w
    requires '{' !in w && Trimmed(w) && PlainWord(w)
    ensures PlainText(text, regexPasses) == w
  {
    PlainTextStrips(text, regexPasses);
  }

  lemma HelloWorldWords()
    ensures Word("Hello") && Word("World") && '[' !in "Hello" && '[' !in "World"
    ensures 'L' !in "Hello" && 'L' !in "World" && Trimmed("Hello" + "World")
  {
  }

  lemma HelloWorldShapes()
    ensures "Hello" + "<br>" + "World" == "Hello<br>World"
    ensures "Hello" + "<br />" + "World" == "Hello<br />World"
    ensures "Hello" + "World" == "HelloWorld"
  {
  }

  /** "Hello<br>World" keeps its break as "<br />" when line breaks are preserved. */
  lemma HelloBreakWorld(regexPasses: string -> string)
    requires regexPasses("Hello" + LineBreakPlaceholder + "World") == "Hello" + LineBreakPlaceholder + "World"
    ensures PlainTextWithBreaks("Hello<br>World", regexPasses) == "Hello<br />World"
  {
    HelloWorldWords();
    HelloWorldShapes();
    BreakBetween("Hello", "World", regexPasses);
  }

  /** So does the X.Text copy. */
  lemma XHelloBreakWorld(regexPasses: string -> string)
    requires regexPasses("Hello" + XTextHelper.LineBreakMarker + "World") == "Hello" + XTextHelper.LineBreakMarker + "World"
    ensures XTextHelper.PlainTextWithBreaks("Hello<br>World", regexPasses) == "Hello<br />World"
  {
    HelloWorldWords();
    HelloWorldShapes();
    XBreakBetween("Hello", "World", regexPasses);
  }

  // Adjacent breaks: "Hello<br/><br/>World".

  /** A "<br/>" in front of a text without "<br>" does not make one. */
  lemma SlashBreakMisses(x: string, cmp: Comparison)
    requires !Contains(x, "<br>", cmp)
    ensures !Contains("<br/>" + x, "<br>", cmp)
  {
    var s := "<br/>" + x;
    MismatchAt(s, "<br>", cmp, 3);
    assert s[1..] == "br/>" + x;
    NonLetterAvoids("br/>", '<');
    PrependAvoiding("br/>", x, "<br>", cmp);
  }

  /** Two "<br/>" between texts without '<' hold no "<br>". */
  lemma TwoSlashBreaksMiss(a: string, b: string, cmp: Comparison)
    requires '<' !in a && '<' !in b
    ensures !Contains(a + "<br/>" + "<br/>" + b, "<br>", cmp)
  {
    var t := "<br/>";
    assert a + t + t + b == a + (t + (t + b));
    NonLetterAvoids(a, '<');
    NonLetterAvoids(b, '<');
    PrependAvoiding(b, "", "<br>", cmp);
    assert b + "" == b;
    SlashBreakMisses(b, cmp);
    SlashBreakMisses(t + b, cmp);
    PrependAvoiding(a, t + (t + b), "<br>", cmp);
  }

  /** String.Replace of a pattern that occurs twice in a row, and nowhere else, replaces both. */
  lemma ReplaceTwice(a: string, t: string, b: string, rep: string, cmp: Comparison)
    requires |t| > 0 && StartsWith(t, t, cmp) && Avoids(a, t[0], cmp) && Avoids(b, t[0], cmp)
    ensures ReplaceAll(a + t + t + b, t, rep, cmp) == a + rep + rep + b
  {
    Regroup(a, t, b);
    Regroup(a, rep, b);
    ReplaceLeadingTwice(t, b, rep, cmp);
    ReplaceSkip(a, t + (t + b), t, rep, cmp);
  }

  lemma Regroup(a: string, t: string, b: string)
    ensures a + t + t + b == a + (t + (t + b)) && a + (t + t + b) == a + (t + (t + b))
  {
  }

  lemma ReplaceLeadingTwice(t: string, b: string, rep: string, cmp: Comparison)
    requires |t| > 0 && StartsWith(t, t, cmp) && Avoids(b, t[0], cmp)
    ensures ReplaceAll(t + (t + b), t, rep, cmp) == rep + (rep + b)
  {
    PrependAvoiding(b, "", t, cmp);
    assert b + "" == b;
    ReplaceAbsent(b, t, rep, cmp);
    ReplaceHere(t, b, t, rep, cmp);
    ReplaceHere(t, t + b, t, rep, cmp);
  }

  /** Two "<br/>" between texts without '<' are the only tags that fire, each becoming the
      placeholder. */
  lemma MarkTwoBreaks(a: string, b: string, placeholder: string, cmp: Comparison)
    requires '<' !in a && '<' !in b && '<' !in placeholder
    ensures MarkLineBreaks(a + "<br/>" + "<br/>" + b, placeholder, cmp) == a + placeholder + placeholder + b
  {
    var tags := LineBreakTags();
    assert tags[0] == "<br>" && tags[1] == "<br/>";
    TwoSlashBreaksMiss(a, b, cmp);
    SecondTagTwice(a, b, placeholder, tags, cmp);
  }

  /** The same for any tag list whose first tag is absent and whose second occurs twice. */
  lemma SecondTagTwice(a: string, b: string, placeholder: string, tags: seq<string>, cmp: Comparison)
    requires 2 <= |tags| && forall i :: 0 <= i < |tags| ==> |tags[i]| > 0 && tags[i][0] == '<'
    requires '<' !in a && '<' !in b && '<' !in placeholder
    requires !Contains(a + tags[1] + tags[1] + b, tags[0], cmp)
    ensures ReplaceEach(a + tags[1] + tags[1] + b, tags, placeholder, cmp) == a + placeholder + placeholder + b
  {
    var s := a + tags[1] + tags[1] + b;
    var m := a + placeholder + placeholder + b;
    ReplaceEachAbsent(s, tags[..1], placeholder, cmp);
    NonLetterAvoids(a, '<');
    NonLetterAvoids(b, '<');
    StartsWithSelf(tags[1], cmp);
    ReplaceTwice(a, tags[1], b, placeholder, cmp);
    assert ReplaceEach(s, [tags[1]], placeholder, cmp) == m;
    NonLetterAvoids(m, '<');
    ReplaceEachUnstartable(m, tags[2..], placeholder, cmp);
    OneTargetFires(s, tags, 1, m, placeholder, cmp);
  }

  /** Two placeholders side by side, between texts without its first character, collapse into one. */
  lemma CollapseTwo(a: string, b: string, p: string)
    requires 0 < |p| && p[0] !in a && p[0] !in b && |a| + |b| < |p|
    ensures CollapseRepeats(a + p + p + b, p) == a + p + b
  {
    var s := a + p + p + b;
    assert s == a + (p + p) + b;
    assert s[|a|..][..|p + p|] == p + p;
    OrdinalStartsWith(s[|a|..], p + p);
    ContainsAt(s, p + p, Ordinal, |a|);
    StartsWithSelf(p + p, Ordinal);
    assert Avoids(a, (p + p)[0], Ordinal) && Avoids(b, (p + p)[0], Ordinal);
    ReplaceOnly(a, p + p, b, p + p, p, Ordinal);
    CollapseIdle(a + p + b, p);
  }

  /** PlainTextWithBreaks, stage by stage, when the collapse does work. */
  lemma CollapsedStages(text: string, regexPasses: string -> string, m: string, c: string, r: string)
    requires MarkLineBreaks(text, LineBreakPlaceholder, OrdinalIgnoreCase) == m
    requires CollapseRepeats(m, LineBreakPlaceholder) == c
    requires TrimLeading(c, LineBreakPlaceholder) == c
    requires PlainText(c, regexPasses) == c
    requires ReplaceAll(c, LineBreakPlaceholder, "<br />", Ordinal) == r
    ensures PlainTextWithBreaks(text, regexPasses) == r
  {
  }

  /** Two adjacent "<br/>" between two words become a single "<br />". */
  lemma DoubleBreakBetween(a: string, b: string, regexPasses: string -> string)
    requires Word(a) && Word(b) && |a| + |b| < 14 && '[' !in a && '[' !in b
    requires regexPasses(a + LineBreakPlaceholder + b) == a + LineBreakPlaceholder + b
    ensures PlainTextWithBreaks(a + "<br/>" + "<br/>" + b, regexPasses) == a + "<br />" + b
  {
    var p := LineBreakPlaceholder;
    PlaceholderPlain();
    DoubleInnerBreak(a, b, p, regexPasses, OrdinalIgnoreCase);
    TrimLeadingIdle(a + p + b, p);
    CollapsedStages(a + "<br/>" + "<br/>" + b, regexPasses, a + p + p + b, a + p + b, a + "<br />" + b);
  }

  /** The stages InnerBreak goes through, for two adjacent "<br/>". */
  lemma DoubleInnerBreak(a: string, b: string, p: string, regexPasses: string -> string, cmp: Comparison)
    requires Word(a) && Word(b) && Marker(p) && p[0] !in a && p[0] !in b && |a| + |b| < |p|
    requires regexPasses(a + p + b) == a + p + b
    ensures MarkLineBreaks(a + "<br/>" + "<br/>" + b, p, cmp) == a + p + p + b
    ensures CollapseRepeats(a + p + p + b, p) == a + p + b
    ensures PlainText(a + p + b, regexPasses) == a + p + b
    ensures ReplaceAll(a + p + b, p, "<br />", Ordinal) == a + "<br />" + b
  {
    PlainOmits(a);
    PlainOmits(b);
    PlainOmits(p);
    MarkTwoBreaks(a, b, p, cmp);
    CollapseTwo(a, b, p);
    assert (a + p + b)[0] == a[0] && (a + p + b)[|a + p + b| - 1] == b[|b| - 1];
    PlainAround(a, p, b, regexPasses);
    RestoreOne(a, p, b);
  }

  lemma DoubleBreakShape()
    ensures "Hello" + "<br/>" + "<br/>" + "World" == "Hello<br/><br/>World"
  {
  }

  /** "Hello<br/><br/>World" keeps a single break when line breaks are preserved. */
  lemma HelloDoubleBreakWorld(regexPasses: string -> string)
    requires regexPasses("Hello" + LineBreakPlaceholder + "World") == "Hello" + LineBreakPlaceholder + "World"
    ensures PlainTextWithBreaks("Hello<br/><br/>World", regexPasses) == "Hello<br />World"
  {
    HelloWorldWords();
    HelloWorldShapes();
    DoubleBreakShape();
    DoubleBreakBetween("Hello", "World", regexPasses);
  }

  /** Without preserving line breaks, "Hello<br>World" becomes "HelloWorld". */
  lemma HelloWorldJoined(regexPasses: string -> string)
    requires regexPasses("Hello<br>World") == "Hello<br>World"
    ensures PlainText("Hello<br>World", regexPasses) == "HelloWorld"
  {
    HelloWorldWords();
    HelloWorldShapes();
    BreakRemoved("Hello", "World", regexPasses);
  }

  /** "<br>This is a test": the X.Extensions.Text copy trims the leading break, the X.Text copy
      turns it into "<br />". */
  lemma LeadingBreak(regexPasses: string -> string)
    requires regexPasses(Sentence) == Sentence
    requires regexPasses(LineBreakPlaceholder + Sentence) == LineBreakPlaceholder + Sentence
    requires regexPasses(XTextHelper.LineBreakMarker + Sentence) == XTextHelper.LineBreakMarker + Sentence
    ensures PlainTextWithBreaks("<br>This is a test", regexPasses) == Sentence
    ensures XTextHelper.PlainTextWithBreaks("<br>This is a test", regexPasses) == "<br />" + Sentence
  {
    SentenceWord();
    LeadingBreakDropped(Sentence, regexPasses);
    XLeadingBreakKept(Sentence, regexPasses);
  }

  lemma SentenceWord()
    ensures Word(Sentence) && |Sentence| == 14 && '[' !in Sentence && 'L' !in Sentence
    ensures "<br>This is a test" == "<br>" + Sentence
  {
    SentencePlain();
  }

  /** Without preserving line breaks the leading tag is removed. */
  lemma LeadingBreakRemoved(regexPasses: string -> string)
    requires regexPasses("<br>This is a test") == "<br>This is a test"
    ensures PlainText("<br>This is a test", regexPasses) == Sentence
  {
    SentenceWord();
    EmptyFront("<br>", Sentence);
    BreakRemoved("", Sentence, regexPasses);
    assert "" + Sentence == Sentence;
  }
}
