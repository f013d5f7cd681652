/** The Compose backend: `parseMarkdown` and its private `textMarkDown`, which append
    styled runs to an `AnnotatedString.Builder` and return the trimmed result. */
module ComposeMarkdown {
  import opened Strings
  import opened Inline
  import opened Blocks
  import opened StyledText

  datatype FontWeight = NormalWeight | BoldWeight

  /** The `SpanStyle` fields the parser sets; an absent weight is `None`, the font size
      is in sp. */
  datatype SpanStyle = SpanStyle(fontWeight: Option<FontWeight>, italic: bool, lineThrough: bool, fontSize: nat)

  /** `AnnotatedString(t, style)`: the text with one range of `style` over all of it. */
  function Annotated(t: string, style: SpanStyle): Spanned<SpanStyle> {
    Spanned(t, [Span(style, 0, |t|)])
  }

  /** The ranges of an appended annotated string, moved behind `offset` characters. */
  function Shift(spans: seq<Span<SpanStyle>>, offset: nat): (r: seq<Span<SpanStyle>>)
    ensures |r| == |spans|
    ensures forall i :: 0 <= i < |spans| ==>
      r[i] == Span(spans[i].style, spans[i].start + offset, spans[i].end + offset)
    decreases |spans|
  {
    if spans == [] then []
    else
      var rest := Shift(spans[1..], offset);
      assert forall i :: 1 <= i < |spans| ==> spans[i] == spans[1..][i - 1];
      [Span(spans[0].style, spans[0].start + offset, spans[0].end + offset)] + rest
  }

  /** `append(annotatedString)`: its text goes at the end, its ranges move with it. */
  function PutAnnotated(v: Spanned<SpanStyle>, a: Spanned<SpanStyle>): (r: Spanned<SpanStyle>)
    ensures r.text == v.text + a.text
    ensures InBounds(v) && InBounds(a) ==> InBounds(r)
  {
    Spanned(v.text + a.text, v.spans + Shift(a.spans, |v.text|))
  }

  /** Appending `AnnotatedString(t, style)` adds exactly one range, over the appended
      characters. */
  lemma PutAnnotatedRun(v: Spanned<SpanStyle>, t: string, style: SpanStyle)
    ensures PutAnnotated(v, Annotated(t, style))
      == Spanned(v.text + t, v.spans + [Span(style, |v.text|, |v.text| + |t|)])
  {
  }

  /** `AnnotatedString.Builder`: the text so far and the ranges attached to it. */
  class AnnotatedStringBuilder {
    var text: string
    var spans: seq<Span<SpanStyle>>

    constructor ()
      ensures text == [] && spans == []
    {
      text := [];
      spans := [];
    }

    function Value(): Spanned<SpanStyle>
      reads this
    {
      Spanned(text, spans)
    }

    /** `append(String)`. */
    method AppendText(t: string)
      modifies this
      ensures Value() == Put(old(Value()), t)
    {
      text := text + t;
    }

    /** `append(AnnotatedString)`. */
    method Append(a: Spanned<SpanStyle>)
      modifies this
      ensures Value() == PutAnnotated(old(Value()), a)
    {
      spans := spans + Shift(a.spans, |text|);
      text := text + a.text;
    }
  }

  /** The style `textMarkDown` gives a run: plain runs carry the block's weight, the
      four patterns their own emphasis, and every run the block's size. */
  function RunStyle(kind: RunKind, fontSize: nat, fontWeight: FontWeight): SpanStyle {
    match kind
    case Gap => SpanStyle(Some(fontWeight), false, false, fontSize)
    case Rest => SpanStyle(Some(fontWeight), false, false, fontSize)
    case Styled(BoldItalic) => SpanStyle(Some(BoldWeight), true, false, fontSize)
    case Styled(Bold) => SpanStyle(Some(BoldWeight), false, false, fontSize)
    case Styled(Italic) => SpanStyle(None, true, false, fontSize)
    case Styled(Strike) => SpanStyle(None, false, true, fontSize)
  }

  /** The buffer after each run has been appended as its own annotated string. */
  function PutRuns(v: Spanned<SpanStyle>, runs: seq<Run>, fontSize: nat, fontWeight: FontWeight): Spanned<SpanStyle>
    decreases |runs|
  {
    if runs == [] then v
    else PutRuns(PutAnnotated(v, Annotated(runs[0].text, RunStyle(runs[0].kind, fontSize, fontWeight))),
                 runs[1..], fontSize, fontWeight)
  }

  /** `textMarkDown(inputText, resultBuilder, fontSize, fontWeight)`: the loop appends
      the runs of the scan, each with its style. */
  method TextMarkDown(inputText: string, resultBuilder: AnnotatedStringBuilder, fontSize: nat, fontWeight: FontWeight)
    modifies resultBuilder
    ensures resultBuilder.Value() == PutRuns(old(resultBuilder.Value()), Scan(inputText, 0), fontSize, fontWeight)
  {
    var currentIndex: nat := 0;
    ghost var target := PutRuns(resultBuilder.Value(), Scan(inputText, 0), fontSize, fontWeight);
    while currentIndex < |inputText|
      invariant currentIndex <= |inputText|
      invariant PutRuns(resultBuilder.Value(), Scan(inputText, currentIndex), fontSize, fontWeight) == target
      decreases |inputText| - currentIndex
    {
      var nextBoldItalic := Find(BoldItalic, inputText, currentIndex);
      var nextBold := Find(Bold, inputText, currentIndex);
      var nextItalic := Find(Italic, inputText, currentIndex);
      var nextStrikethrough := Find(Strike, inputText, currentIndex);
      var nextMarkDown := Earliest(Listed(nextBoldItalic, nextBold, nextItalic, nextStrikethrough));
      SelectUnfolds(inputText, currentIndex);
      ghost var before := resultBuilder.Value();
      if nextMarkDown.Some? {
        var m := nextMarkDown.value.m;
        if m.start > currentIndex {
          var normalText := inputText[currentIndex..m.start];
          var style := SpanStyle(Some(fontWeight), false, false, fontSize);
          resultBuilder.Append(Annotated(normalText, style));
        }
        var matchText := inputText[m.groupStart..m.groupEnd];
        // `when (nextMarkDown)`: the selected match is the result of its own pattern's
        // find, and the style is that pattern's row of the table
        var style := RunStyle(Styled(nextMarkDown.value.pat), fontSize, fontWeight);
        resultBuilder.Append(Annotated(matchText, style));
        MatchStep(inputText, currentIndex, before, fontSize, fontWeight);
        currentIndex := m.end;
      } else {
        var normalText := inputText[currentIndex..];
        var style := SpanStyle(Some(fontWeight), false, false, fontSize);
        resultBuilder.Append(Annotated(normalText, style));
        RestStep(inputText, currentIndex, before, fontSize, fontWeight);
        currentIndex := |inputText|;
      }
    }
  }

  /** A loop step that acts on a match appends the runs the scan starts with. */
  lemma MatchStep(s: string, from: nat, v: Spanned<SpanStyle>, fontSize: nat, fontWeight: FontWeight)
    requires from < |s| && Select(s, from).Some?
    ensures var c := Select(s, from).value;
      var v1 := if c.m.start > from
        then PutAnnotated(v, Annotated(s[from..c.m.start], RunStyle(Gap, fontSize, fontWeight))) else v;
      PutRuns(PutAnnotated(v1, Annotated(s[c.m.groupStart..c.m.groupEnd], RunStyle(Styled(c.pat), fontSize, fontWeight))),
              Scan(s, c.m.end), fontSize, fontWeight)
        == PutRuns(v, Scan(s, from), fontSize, fontWeight)
  {
    var c := Select(s, from).value;
    ScanStep(s, from);
    var rest := Scan(s, c.m.end);
    var styled := Run(Styled(c.pat), s[c.m.groupStart..c.m.groupEnd]);
    var v1 := if c.m.start > from
      then PutAnnotated(v, Annotated(s[from..c.m.start], RunStyle(Gap, fontSize, fontWeight))) else v;
    PutRunsCons(v1, styled, rest, fontSize, fontWeight);
    if c.m.start > from {
      var gap := Run(Gap, s[from..c.m.start]);
      PutRunsCons(v, gap, [styled] + rest, fontSize, fontWeight);
      assert [gap] + ([styled] + rest) == Scan(s, from);
    }
  }

  /** A loop step that finds no match appends the remainder, and the scan is over. */
  lemma RestStep(s: string, from: nat, v: Spanned<SpanStyle>, fontSize: nat, fontWeight: FontWeight)
    requires from < |s| && Select(s, from).None?
    ensures PutRuns(PutAnnotated(v, Annotated(s[from..], RunStyle(Rest, fontSize, fontWeight))), Scan(s, |s|), fontSize, fontWeight)
      == PutRuns(v, Scan(s, from), fontSize, fontWeight)
  {
    ScanStep(s, from);
    PutRunsCons(v, Run(Rest, s[from..]), [], fontSize, fontWeight);
    assert [Run(Rest, s[from..])] + [] == Scan(s, from);
    assert Scan(s, |s|) == [];
  }

  lemma PutRunsCons(v: Spanned<SpanStyle>, r: Run, rest: seq<Run>, fontSize: nat, fontWeight: FontWeight)
    ensures PutRuns(v, [r] + rest, fontSize, fontWeight)
      == PutRuns(PutAnnotated(v, Annotated(r.text, RunStyle(r.kind, fontSize, fontWeight))), rest, fontSize, fontWeight)
  {
    assert ([r] + rest)[1..] == rest;
  }

  /** The font size of each heading level, in sp. */
  function HeadingSize(level: nat): nat {
    if level == 1 then 24 else if level == 2 then 20 else if level == 3 then 18
    else if level == 4 then 16 else if level == 5 then 14 else 12
  }

  /** The style of the bullet and of an ordinal prefix. */
  const PrefixStyle: SpanStyle := SpanStyle(Some(BoldWeight), false, false, 14)

  /** The font size of a block's runs: the heading size, 14 sp otherwise. */
  function BlockFontSize(b: Block): nat {
    if b.Heading? then HeadingSize(b.level) else 14
  }

  /** The weight of a block's plain runs: bold for headings, normal otherwise. */
  function BlockWeight(b: Block): FontWeight {
    if b.Heading? then BoldWeight else NormalWeight
  }

  /** The decoration of a list item, bold at 14 sp, appended as its own annotated string. */
  function PutDecoration(v: Spanned<SpanStyle>, b: Block): Spanned<SpanStyle> {
    if b.Unordered? || b.Ordered? then PutAnnotated(v, Annotated(Decoration(b), PrefixStyle)) else v
  }

  /** A list item's decoration is appended as its own range, bold at 14 sp, over exactly
      its characters; other blocks append nothing ahead of their content. */
  lemma DecorationRange(v: Spanned<SpanStyle>, line: string)
    ensures var b := Classify(line);
      var d := Decoration(b);
      (b.Unordered? || b.Ordered? ==>
         2 <= |d|
         && PutDecoration(v, b) == Spanned(v.text + d, v.spans + [Span(PrefixStyle, |v.text|, |v.text| + |d|)]))
      && (!(b.Unordered? || b.Ordered?) ==> PutDecoration(v, b) == v)
    ensures PrefixStyle.fontWeight == Some(BoldWeight) && PrefixStyle.fontSize == 14
    ensures !PrefixStyle.italic && !PrefixStyle.lineThrough
  {
    var b := Classify(line);
    DecorationOfLine(line);
    if b.Unordered? || b.Ordered? {
      var d := Decoration(b);
      assert Shift([Span(PrefixStyle, 0, |d|)], |v.text|)[0] == Span(PrefixStyle, |v.text|, |v.text| + |d|);
    }
  }

  /** What one branch of the `when` appends: the decoration, then the scanned content. */
  function PutBlock(v: Spanned<SpanStyle>, b: Block): Spanned<SpanStyle> {
    PutRuns(PutDecoration(v, b), Scan(b.content, 0), BlockFontSize(b), BlockWeight(b))
  }

  /** The buffer after the lines, each classified, appended and followed by a line break. */
  function PutLines(v: Spanned<SpanStyle>, lines: seq<string>): Spanned<SpanStyle>
    decreases |lines|
  {
    if lines == [] then v else PutLines(Put(PutBlock(v, Classify(lines[0])), "\n"), lines[1..])
  }

  /** The annotated string that `parseMarkdown` returns. */
  function Document(markdownText: string): Spanned<SpanStyle> {
    Trimmed(PutLines(Spanned([], []), Split(markdownText, '\n')))
  }

  /** One branch of the `when` in `parseMarkdown`. */
  method AppendBlock(line: string, resultBuilder: AnnotatedStringBuilder)
    modifies resultBuilder
    ensures resultBuilder.Value() == PutBlock(old(resultBuilder.Value()), Classify(line))
  {
    ghost var b := Classify(line);
    ghost var v := resultBuilder.Value();
    if StartsWith(line, "# ") {
      assert b == Heading(1, Trim(RemovePrefix(line, "# ")));
      TextMarkDown(Trim(RemovePrefix(line, "# ")), resultBuilder, 24, BoldWeight);
      assert resultBuilder.Value() == PutBlock(v, b);
    } else if StartsWith(line, "## ") {
      assert b == Heading(2, Trim(RemovePrefix(line, "## ")));
      TextMarkDown(Trim(RemovePrefix(line, "## ")), resultBuilder, 20, BoldWeight);
      assert resultBuilder.Value() == PutBlock(v, b);
    } else if StartsWith(line, "### ") {
      assert b == Heading(3, Trim(RemovePrefix(line, "### ")));
      TextMarkDown(Trim(RemovePrefix(line, "### ")), resultBuilder, 18, BoldWeight);
      assert resultBuilder.Value() == PutBlock(v, b);
    } else if StartsWith(line, "#### ") {
      assert b == Heading(4, Trim(RemovePrefix(line, "#### ")));
      TextMarkDown(Trim(RemovePrefix(line, "#### ")), resultBuilder, 16, BoldWeight);
      assert resultBuilder.Value() == PutBlock(v, b);
    } else if StartsWith(line, "##### ") {
      assert b == Heading(5, Trim(RemovePrefix(line, "##### ")));
      TextMarkDown(Trim(RemovePrefix(line, "##### ")), resultBuilder, 14, BoldWeight);
      assert resultBuilder.Value() == PutBlock(v, b);
    } else if StartsWith(line, "###### ") {
      assert b == Heading(6, Trim(RemovePrefix(line, "###### ")));
      TextMarkDown(Trim(RemovePrefix(line, "###### ")), resultBuilder, 12, BoldWeight);
      assert resultBuilder.Value() == PutBlock(v, b);
    } else if StartsWith(line, "* ") || StartsWith(line, "- ") {
      var content := Trim(RemovePrefix(RemovePrefix(line, "* "), "- "));
      assert b == Unordered(content);
      var currentStyle := SpanStyle(Some(BoldWeight), false, false, 14);
      resultBuilder.Append(Annotated(Bullet, currentStyle));
      TextMarkDown(content, resultBuilder, 14, NormalWeight);
      assert resultBuilder.Value() == PutBlock(v, b);
    } else if IsOrderedLine(line) {
      assert b == Ordered(line[..2], line[2..]);
      // the pattern is anchored at the start of the line, so its match starts at 0
      var startIndex := 0;
      var currentStyle := SpanStyle(Some(BoldWeight), false, false, 14);
      var annotatedString := Annotated(line[startIndex..startIndex + 2], currentStyle);
      resultBuilder.Append(annotatedString);
      assert line[startIndex + 2..|line|] == line[2..];
      TextMarkDown(line[startIndex + 2..|line|], resultBuilder, 14, NormalWeight);
      assert resultBuilder.Value() == PutBlock(v, b);
    } else {
      assert b == Paragraph(line);
      TextMarkDown(line, resultBuilder, 14, NormalWeight);
      assert resultBuilder.Value() == PutBlock(v, b);
    }
  }

  /** `parseMarkdown(markdownText)`. */
  method ParseMarkdown(markdownText: string) returns (r: Spanned<SpanStyle>)
    ensures r == Document(markdownText)
  {
    var lines := Split(markdownText, '\n');
    var resultBuilder := new AnnotatedStringBuilder();
    var i := 0;
    while i < |lines|
      invariant i <= |lines|
      invariant PutLines(resultBuilder.Value(), lines[i..]) == PutLines(Spanned([], []), lines)
      decreases |lines| - i
    {
      assert lines[i..][1..] == lines[i + 1..];
      AppendBlock(lines[i], resultBuilder);
      resultBuilder.AppendText("\n");
      i := i + 1;
    }
    r := Trimmed(resultBuilder.Value());
  }

  /** Appending runs keeps the earlier ranges and adds one range per run. */
  lemma {:induction false} PutRunsKeeps(v: Spanned<SpanStyle>, runs: seq<Run>, fontSize: nat, fontWeight: FontWeight)
    ensures var r := PutRuns(v, runs, fontSize, fontWeight);
      |r.spans| == |v.spans| + |runs| && r.spans[..|v.spans|] == v.spans
    decreases |runs|
  {
    if runs != [] {
      var st := RunStyle(runs[0].kind, fontSize, fontWeight);
      var v1 := PutAnnotated(v, Annotated(runs[0].text, st));
      PutAnnotatedRun(v, runs[0].text, st);
      PutRunsKeeps(v1, runs[1..], fontSize, fontWeight);
      var r := PutRuns(v, runs, fontSize, fontWeight);
      assert r == PutRuns(v1, runs[1..], fontSize, fontWeight);
      assert r.spans[..|v.spans|] == r.spans[..|v1.spans|][..|v.spans|];
    }
  }

  /** The range of run `i` has the run's style and starts where the texts of the runs
      before it end. */
  lemma {:induction false} PutRunsRangeAt(v: Spanned<SpanStyle>, runs: seq<Run>, fontSize: nat, fontWeight: FontWeight, i: nat)
    requires i < |runs|
    ensures var r := PutRuns(v, runs, fontSize, fontWeight);
      |v.spans| + i < |r.spans|
      && r.spans[|v.spans| + i] == Span(RunStyle(runs[i].kind, fontSize, fontWeight),
          |v.text| + |Texts(runs[..i])|, |v.text| + |Texts(runs[..i])| + |runs[i].text|)
    decreases |runs|
  {
    var st := RunStyle(runs[0].kind, fontSize, fontWeight);
    var v1 := PutAnnotated(v, Annotated(runs[0].text, st));
    PutAnnotatedRun(v, runs[0].text, st);
    PutRunsKeeps(v1, runs[1..], fontSize, fontWeight);
    var r := PutRuns(v, runs, fontSize, fontWeight);
    assert r == PutRuns(v1, runs[1..], fontSize, fontWeight);
    if i == 0 {
      assert runs[..0] == [];
      assert r.spans[|v.spans|] == r.spans[..|v1.spans|][|v.spans|];
    } else {
      PutRunsRangeAt(v1, runs[1..], fontSize, fontWeight, i - 1);
      assert runs[1..][i - 1] == runs[i];
      assert runs[..i] == [runs[0]] + runs[1..][..i - 1];
      assert Texts(runs[..i]) == runs[0].text + Texts(runs[1..][..i - 1]);
    }
  }

  /** Appending runs: the text grows by the runs' texts, the earlier ranges stay, and
      each run gets one range with its style over exactly its own characters. */
  lemma PutRunsShape(v: Spanned<SpanStyle>, runs: seq<Run>, fontSize: nat, fontWeight: FontWeight)
    ensures var r := PutRuns(v, runs, fontSize, fontWeight);
      r.text == v.text + Texts(runs)
      && |r.spans| == |v.spans| + |runs|
      && r.spans[..|v.spans|] == v.spans
      && forall i :: 0 <= i < |runs| ==>
        r.spans[|v.spans| + i] == Span(RunStyle(runs[i].kind, fontSize, fontWeight),
          |v.text| + |Texts(runs[..i])|, |v.text| + |Texts(runs[..i])| + |runs[i].text|)
  {
    PutRunsText(v, runs, fontSize, fontWeight);
    PutRunsKeeps(v, runs, fontSize, fontWeight);
    forall i | 0 <= i < |runs|
      ensures PutRuns(v, runs, fontSize, fontWeight).spans[|v.spans| + i]
        == Span(RunStyle(runs[i].kind, fontSize, fontWeight),
          |v.text| + |Texts(runs[..i])|, |v.text| + |Texts(runs[..i])| + |runs[i].text|)
    {
      PutRunsRangeAt(v, runs, fontSize, fontWeight, i);
    }
  }

  /** Each range that `textMarkDown` attaches covers exactly the text of its run. */
  lemma RunRangesCoverTheirText(v: Spanned<SpanStyle>, runs: seq<Run>, fontSize: nat, fontWeight: FontWeight, i: nat)
    requires i < |runs|
    ensures |PutRuns(v, runs, fontSize, fontWeight).spans| == |v.spans| + |runs|
    ensures var r := PutRuns(v, runs, fontSize, fontWeight);
      var sp := r.spans[|v.spans| + i];
      sp.style == RunStyle(runs[i].kind, fontSize, fontWeight)
      && sp.start <= sp.end <= |r.text| && r.text[sp.start..sp.end] == runs[i].text
  {
    var r := PutRuns(v, runs, fontSize, fontWeight);
    PutRunsText(v, runs, fontSize, fontWeight);
    PutRunsKeeps(v, runs, fontSize, fontWeight);
    PutRunsRangeAt(v, runs, fontSize, fontWeight, i);
    TextsAround(runs, i);
    var pre, t, post := v.text + Texts(runs[..i]), runs[i].text, Texts(runs[i + 1..]);
    assert r.spans[|v.spans| + i] == Span(RunStyle(runs[i].kind, fontSize, fontWeight), |pre|, |pre| + |t|);
    assert r.text == pre + t + post;
    SliceOfConcat(pre, t, post);
  }

  lemma SliceOfConcat(pre: string, t: string, post: string)
    ensures (pre + t + post)[|pre|..|pre| + |t|] == t
  {
  }

  /** The styles of the runs: every run has the block's size; bold exactly for the
      bold-italic and bold patterns and for plain text of a bold block; italic exactly
      for the bold-italic and italic patterns; line-through exactly for strikethrough;
      and the italic and strikethrough patterns leave the weight unset. */
  lemma RunStyleMeaning(kind: RunKind, fontSize: nat, fontWeight: FontWeight)
    ensures var st := RunStyle(kind, fontSize, fontWeight);
      st.fontSize == fontSize
      && (st.fontWeight == Some(BoldWeight) <==>
          kind in {Styled(BoldItalic), Styled(Bold)} || (IsPlain(kind) && fontWeight == BoldWeight))
      && (st.italic <==> kind in {Styled(BoldItalic), Styled(Italic)})
      && (st.lineThrough <==> kind == Styled(Strike))
      && (st.fontWeight == None <==> kind in {Styled(Italic), Styled(Strike)})
  {
  }

  /** Heading sizes run from 24 sp down to 12 sp, strictly decreasing with the level. */
  lemma HeadingSizesDecrease(level: nat)
    requires 1 <= level < 6
    ensures HeadingSize(level) > HeadingSize(level + 1)
    ensures 12 <= HeadingSize(level + 1) && HeadingSize(1) == 24 && HeadingSize(6) == 12
  {
  }

  /** Appending runs appends their texts. */
  lemma {:induction false} PutRunsText(v: Spanned<SpanStyle>, runs: seq<Run>, fontSize: nat, fontWeight: FontWeight)
    ensures PutRuns(v, runs, fontSize, fontWeight).text == v.text + Texts(runs)
    decreases |runs|
  {
    if runs != [] {
      var v1 := PutAnnotated(v, Annotated(runs[0].text, RunStyle(runs[0].kind, fontSize, fontWeight)));
      PutRunsText(v1, runs[1..], fontSize, fontWeight);
    }
  }

  /** What the decoration and any runs append is their text. */
  lemma PutContentText(v: Spanned<SpanStyle>, b: Block, runs: seq<Run>)
    ensures PutRuns(PutDecoration(v, b), runs, BlockFontSize(b), BlockWeight(b)).text == v.text + (Decoration(b) + Texts(runs))
  {
    PutRunsText(PutDecoration(v, b), runs, BlockFontSize(b), BlockWeight(b));
  }

  /** What one block appends is its visible text. */
  lemma PutBlockText(v: Spanned<SpanStyle>, b: Block)
    ensures PutBlock(v, b).text == v.text + VisibleBlock(b)
  {
    PutContentText(v, b, Scan(b.content, 0));
  }

  /** The buffer's text is the visible text of the lines. */
  lemma {:induction false} PutLinesText(v: Spanned<SpanStyle>, lines: seq<string>)
    ensures PutLines(v, lines).text == v.text + VisibleLines(lines)
    decreases |lines|
  {
    if lines != [] {
      var w := PutBlock(v, Classify(lines[0]));
      PutBlockText(v, Classify(lines[0]));
      PutLinesText(Put(w, "\n"), lines[1..]);
      assert PutLines(v, lines) == PutLines(Put(w, "\n"), lines[1..]);
      assert VisibleLines(lines) == VisibleLine(lines[0]) + "\n" + VisibleLines(lines[1..]);
      PutLineText(v, w, PutLines(v, lines), VisibleLine(lines[0]), VisibleLines(lines[1..]));
    }
  }

  /** The text of the result is the visible text of the document. */
  lemma DocumentText(markdownText: string)
    ensures Document(markdownText).text == VisibleDocument(markdownText)
  {
    var lines := Split(markdownText, '\n');
    PutLinesText(Spanned([], []), lines);
    assert PutLines(Spanned([], []), lines).text == VisibleLines(lines);
  }
}
