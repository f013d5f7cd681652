/** The two backends side by side: they classify and scan a document the same way and
    produce the same text, and differ only in how they style it. */
module Backends {
  import opened Strings
  import opened Inline
  import opened Blocks
  import opened StyledText
  import C = ComposeMarkdown
  import A = SpannedMarkdown

  /** `parseMarkdown` and `parseMarkdownUsingSpannableString` return the same text. */
  lemma SameText(markdownText: string)
    ensures C.Document(markdownText).text == A.Document(markdownText).text
    ensures C.Document(markdownText).text == VisibleDocument(markdownText)
  {
    C.DocumentText(markdownText);
    A.DocumentText(markdownText);
  }

  /** A line with exactly `n` hash signs and a space is a level-n heading on both sides:
      Compose sets the sizes 24, 20, 18, 16, 14 and 12 sp and bold plain text at every
      level, Android the ratios 1.714, 1.64, 1.2857, 1.142857, 1 and 0.8571 and bold
      plain text only for the levels 1 to 5. Neither adds a decoration. */
  lemma HeadingStyles(line: string, n: nat)
    requires 1 <= n <= 6 && HasHeadingMarker(line, n)
    ensures var b := Classify(line);
      C.BlockFontSize(b) == C.HeadingSize(n) && C.BlockWeight(b) == C.BoldWeight
      && A.BlockRatio(b) == A.HeadingRatio(n) && (A.BlockBold(b) <==> n <= 5)
      && Decoration(b) == []
    ensures C.HeadingSize(n) == [24, 20, 18, 16, 14, 12][n - 1]
    ensures A.HeadingRatio(n) == [1714000, 1640000, 1285700, 1142857, 1000000, 857100][n - 1]
  {
    HeadingRecognised(line, n);
  }

  /** Outside headings both sides use the base size; plain text is never bold on
      Compose, and on Android it is bold in paragraphs but not in list items. */
  lemma OtherBlockStyles(line: string)
    requires !Classify(line).Heading?
    ensures var b := Classify(line);
      C.BlockFontSize(b) == 14 && C.BlockWeight(b) == C.NormalWeight
      && A.BlockRatio(b) == 1000000
      && (A.BlockBold(b) <==> !StartsWith(line, "* ") && !StartsWith(line, "- ") && !IsOrderedLine(line))
  {
  }

  /** In a bold block the text in front of a match is bold on Compose but never on
      Android, while the remainder after the last match is bold on both. */
  lemma PlainRunStyles(fontSize: nat)
    ensures C.RunStyle(Gap, fontSize, C.BoldWeight).fontWeight == Some(C.BoldWeight)
    ensures !A.TagFor(Gap, true).isBold
    ensures C.RunStyle(Rest, fontSize, C.BoldWeight).fontWeight == Some(C.BoldWeight)
    ensures A.TagFor(Rest, true).isBold
  {
  }
}
