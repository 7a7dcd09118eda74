/** TextHelper of the X.Text package. Substring, Replace, CleanCharacters (with the system
    characters passed in) and ToPlainText(text) are those of the X.Extensions.Text copy; the
    line-break protocol of ToPlainText(text, true), and so GetKeywords, differ. */
module XTextHelper {
  import opened Strings
  import TextHelper
  import Linq

  /** The placeholder that stands for a line break while the text is converted. */
  const LineBreakMarker: string := "LLineB77Breake"

  /** What ToPlainText(text, true) computes: each line-break tag, compared ordinally, becomes the
      placeholder, runs of placeholders collapse, the text is converted and every placeholder
      becomes "<br />". Leading placeholders are kept. */
  function PlainTextWithBreaks(text: string, regexPasses: string -> string): string {
    var marked := TextHelper.MarkLineBreaks(text, LineBreakMarker, Ordinal);
    var single := TextHelper.CollapseRepeats(marked, LineBreakMarker);
    ReplaceAll(TextHelper.PlainText(single, regexPasses), LineBreakMarker, "<br />", Ordinal)
  }

  /** ToPlainText(text, saveHtmlLineBreaks). */
  method ToPlainTextWithBreaks(text: string, saveHtmlLineBreaks: bool, regexPasses: string -> string) returns (r: string)
    ensures saveHtmlLineBreaks ==> r == PlainTextWithBreaks(text, regexPasses)
    ensures !saveHtmlLineBreaks ==> r == TextHelper.PlainText(text, regexPasses)
  {
    if !saveHtmlLineBreaks {
      r := TextHelper.ToPlainText(text, regexPasses);
      return;
    }
    var marked := TextHelper.MarkLineBreaks(text, LineBreakMarker, Ordinal);
    var t := TextHelper.CollapseLineBreaks(marked, LineBreakMarker);
    t := TextHelper.ToPlainText(t, regexPasses);
    r := ReplaceAll(t, LineBreakMarker, "<br />", Ordinal);
  }

  /** The placeholder is long enough and holds neither '<' nor '>', so no tag survives marking. */
  lemma NoLineBreakTagLeft(text: string)
    ensures forall k :: 0 <= k < |TextHelper.LineBreakTags()| ==>
              !Contains(TextHelper.MarkLineBreaks(text, LineBreakMarker, Ordinal), TextHelper.LineBreakTags()[k], Ordinal)
  {
    assert |LineBreakMarker| >= 5 && Avoids(LineBreakMarker, '<', Ordinal) && Avoids(LineBreakMarker, '>', Ordinal);
    TextHelper.LineBreaksMarked(text, LineBreakMarker, Ordinal);
  }

  /** The output of ToPlainText(text, true): trimmed, every '<' begins "<br />", and none of
      & \\ ? = CR LF. */
  lemma PlainTextWithBreaksClean(text: string, regexPasses: string -> string)
    ensures var r := PlainTextWithBreaks(text, regexPasses);
            Trimmed(r)
            && (forall i :: 0 <= i < |r| && r[i] == '<' ==> "<br />" <= r[i..])
            && (forall c :: !TextHelper.PlainChar(c) && c != '<' && c != '/' && c != '>' ==> c !in r)
  {
    var marked := TextHelper.MarkLineBreaks(text, LineBreakMarker, Ordinal);
    var single := TextHelper.CollapseRepeats(marked, LineBreakMarker);
    TextHelper.PlainTextClean(single, regexPasses);
    TextHelper.BreaksRestored(TextHelper.PlainText(single, regexPasses), LineBreakMarker);
  }

  /** Compared ordinally, a lower-case "</p>" is no line-break tag, and no tag can overlap it:
      every "</p>" of the text survives marking, where the X.Extensions.Text copy turns it into
      a placeholder. */
  lemma ClosingParagraphKept(text: string)
    requires Contains(text, "</p>", Ordinal)
    ensures Contains(TextHelper.MarkLineBreaks(text, LineBreakMarker, Ordinal), "</p>", Ordinal)
  {
    var tags := TextHelper.LineBreakTags();
    TextHelper.TagsBracketed();
    assert Bracketed("</p>");
    forall k | 0 <= k < |tags| ensures |tags[k]| > 0 && Apart(tags[k], "</p>") {
      BracketedApart(tags[k], "</p>");
    }
    ReplaceEachKeepsApart(text, tags, LineBreakMarker, "</p>");
  }

  /** What GetKeywords(text, count) computes with system characters `systemCharacters`: at most
      `count` ranked keywords, none twice, joined with ", ". */
  function Keywords(text: string, systemCharacters: seq<string>, count: int, regexPasses: string -> string): (r: string)
    requires TextHelper.Targets(systemCharacters)
    ensures var plain := PlainTextWithBreaks(text, regexPasses);
            var top := TextHelper.TopKeywords(TextHelper.KeywordTokens(plain, systemCharacters), count);
            r == Join(top, ", ")
            && |top| <= (if count < 0 then 0 else count) && Linq.NoDuplicates(top)
  {
    var plain := PlainTextWithBreaks(text, regexPasses);
    TextHelper.KeywordsFromLongParts(plain, systemCharacters, count);
    TextHelper.KeywordList(plain, systemCharacters, count)
  }

  /** GetKeywords lists its keywords separated by ", ": with ',' among the system characters
      (it is one of the defaults) there is one comma fewer than keywords. */
  lemma KeywordsListed(text: string, systemCharacters: seq<string>, count: int, regexPasses: string -> string)
    requires TextHelper.Targets(systemCharacters) && [','] in systemCharacters
    ensures var top := TextHelper.TopKeywords(TextHelper.KeywordTokens(PlainTextWithBreaks(text, regexPasses), systemCharacters), count);
            |top| > 0 ==> CountChar(Keywords(text, systemCharacters, count, regexPasses), ',') == |top| - 1
  {
    TextHelper.KeywordsListed(PlainTextWithBreaks(text, regexPasses), systemCharacters, count);
  }
}
