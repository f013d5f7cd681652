/** The Android backend: `parseMarkdownUsingSpannableString` and its `textMarkDown`,
    which append text to a `SpannableStringBuilder`, attach a `CustomTagSpan` and a
    `RelativeSizeSpan` to every run, and return the trimmed builder. */
module SpannedMarkdown {
  import opened Strings
  import opened Inline
  import opened Blocks
  import opened StyledText

  /** The span objects the parser attaches. A `RelativeSizeSpan` ratio is written in
      millionths (1.714f is 1714000). */
  datatype AndroidSpan =
    | CustomTag(isBold: bool, isItalic: bool, isStrikeThrough: bool)
    | BoldStyle
    | RelativeSize(ratio: nat)

  /** `setSpan(what, start, end, SPAN_EXCLUSIVE_EXCLUSIVE)`: a span over an empty range
      with these flags is refused without an error, any other is added. */
  function SetSpanOn(v: Spanned<AndroidSpan>, what: AndroidSpan, start: nat, end: nat): (r: Spanned<AndroidSpan>)
    requires start <= end <= |v.text|
    ensures r.text == v.text
    ensures start == end ==> r == v
    ensures start < end ==> r.spans == v.spans + [Span(what, start, end)]
    ensures InBounds(v) ==> InBounds(r)
  {
    if start == end then v else Spanned(v.text, v.spans + [Span(what, start, end)])
  }

  /** `append(t, what, SPAN_EXCLUSIVE_EXCLUSIVE)`: the text, then `what` over it. */
  function PutSpanned(v: Spanned<AndroidSpan>, t: string, what: AndroidSpan): (r: Spanned<AndroidSpan>)
    ensures r.text == v.text + t
  {
    SetSpanOn(Put(v, t), what, |v.text|, |v.text| + |t|)
  }

  /** `SpannableStringBuilder`: the text so far and the spans attached to it. */
  class SpannableStringBuilder {
    var text: string
    var spans: seq<Span<AndroidSpan>>

    constructor ()
      ensures text == [] && spans == []
    {
      text := [];
      spans := [];
    }

    function Value(): Spanned<AndroidSpan>
      reads this
    {
      Spanned(text, spans)
    }

    function Length(): (n: nat)
      reads this
      ensures n == |Value().text|
    {
      |text|
    }

    /** `append(text)`. */
    method Append(t: string)
      modifies this
      ensures Value() == Put(old(Value()), t)
    {
      text := text + t;
    }

    /** `setSpan(what, start, end, SPAN_EXCLUSIVE_EXCLUSIVE)`; a range outside the text
        throws in the library, so callers must stay inside it. */
    method SetSpan(what: AndroidSpan, start: nat, end: nat)
      requires start <= end <= Length()
      modifies this
      ensures Value() == SetSpanOn(old(Value()), what, start, end)
    {
      if start < end {
        spans := spans + [Span(what, start, end)];
      }
    }

    /** `append(text, what, SPAN_EXCLUSIVE_EXCLUSIVE)`. */
    method AppendSpanned(t: string, what: AndroidSpan)
      modifies this
      ensures Value() == PutSpanned(old(Value()), t, what)
    {
      var start := Length();
      Append(t);
      SetSpan(what, start, Length());
    }
  }

  /** The `CustomTagSpan` of a run: plain text before a match is never bold, the
      remainder is bold when the caller asks for it, and each pattern has its flags. */
  function TagFor(kind: RunKind, bold: bool): AndroidSpan {
    match kind
    case Gap => CustomTag(false, false, false)
    case Rest => CustomTag(bold, false, false)
    case Styled(BoldItalic) => CustomTag(true, true, false)
    case Styled(Bold) => CustomTag(true, false, false)
    case Styled(Italic) => CustomTag(false, true, false)
    case Styled(Strike) => CustomTag(false, false, true)
  }

  /** `append(t, style, ..)` followed by `setSpan(RelativeSizeSpan(textRatio),
      length - t.length, length, ..)`: the text with its style, then a relative size over
      the same characters. */
  function PutSized(v: Spanned<AndroidSpan>, t: string, style: AndroidSpan, textRatio: nat): Spanned<AndroidSpan> {
    var v1 := PutSpanned(v, t, style);
    SetSpanOn(v1, RelativeSize(textRatio), |v1.text| - |t|, |v1.text|)
  }

  /** One run as `textMarkDown` appends it. */
  function PutRun(v: Spanned<AndroidSpan>, run: Run, textRatio: nat, bold: bool): Spanned<AndroidSpan> {
    PutSized(v, run.text, TagFor(run.kind, bold), textRatio)
  }

  function PutRuns(v: Spanned<AndroidSpan>, runs: seq<Run>, textRatio: nat, bold: bool): Spanned<AndroidSpan>
    decreases |runs|
  {
    if runs == [] then v else PutRuns(PutRun(v, runs[0], textRatio, bold), runs[1..], textRatio, bold)
  }

  lemma PutRunsCons(v: Spanned<AndroidSpan>, r: Run, rest: seq<Run>, textRatio: nat, bold: bool)
    ensures PutRuns(v, [r] + rest, textRatio, bold) == PutRuns(PutRun(v, r, textRatio, bold), rest, textRatio, bold)
  {
    assert ([r] + rest)[1..] == rest;
  }

  /** The pair of calls that each branch of the loop makes for its run. */
  method AppendSized(resultBuilder: SpannableStringBuilder, t: string, style: AndroidSpan, textRatio: nat)
    modifies resultBuilder
    ensures resultBuilder.Value() == PutSized(old(resultBuilder.Value()), t, style, textRatio)
  {
    resultBuilder.AppendSpanned(t, style);
    resultBuilder.SetSpan(RelativeSize(textRatio), resultBuilder.Length() - |t|, resultBuilder.Length());
  }

  /** `textMarkDown(inputText, resultBuilder, textRatio, bold)`. */
  method TextMarkDown(inputText: string, resultBuilder: SpannableStringBuilder, textRatio: nat, bold: bool)
    modifies resultBuilder
    ensures resultBuilder.Value() == PutRuns(old(resultBuilder.Value()), Scan(inputText, 0), textRatio, bold)
  {
    var currentIndex: nat := 0;
    ghost var target := PutRuns(resultBuilder.Value(), Scan(inputText, 0), textRatio, bold);
    while currentIndex < |inputText|
      invariant currentIndex <= |inputText|
      invariant PutRuns(resultBuilder.Value(), Scan(inputText, currentIndex), textRatio, bold) == target
      decreases |inputText| - currentIndex
    {
      var nextBoldItalic := Find(BoldItalic, inputText, currentIndex);
      var nextBold := Find(Bold, inputText, currentIndex);
      var nextItalic := Find(Italic, inputText, currentIndex);
      var nextStrikethrough := Find(Strike, inputText, currentIndex);
      var nextMarkDown := Earliest(Listed(nextBoldItalic, nextBold, nextItalic, nextStrikethrough));
      SelectUnfolds(inputText, currentIndex);
      ghost var before := resultBuilder.Value();
      if nextMarkDown.Some? {
        var m := nextMarkDown.value.m;
        if m.start > currentIndex {
          var normalText := inputText[currentIndex..m.start];
          var style := CustomTag(false, false, false);
          AppendSized(resultBuilder, normalText, style, textRatio);
        }
        var matchText := inputText[m.groupStart..m.groupEnd];
        // `when (nextMarkDown)`: the selected match is the result of its own pattern's
        // find, and the span is that pattern's row of the table
        var style := TagFor(Styled(nextMarkDown.value.pat), bold);
        AppendSized(resultBuilder, matchText, style, textRatio);
        MatchStep(inputText, currentIndex, before, textRatio, bold);
        currentIndex := m.end;
      } else {
        var normalText := inputText[currentIndex..];
        var style := CustomTag(bold, false, false);
        AppendSized(resultBuilder, normalText, style, textRatio);
        RestStep(inputText, currentIndex, before, textRatio, bold);
        currentIndex := |inputText|;
      }
    }
  }

  /** A loop step that acts on a match appends the runs the scan starts with. */
  lemma MatchStep(s: string, from: nat, v: Spanned<AndroidSpan>, textRatio: nat, bold: bool)
    requires from < |s| && Select(s, from).Some?
    ensures var c := Select(s, from).value;
      var v1 := if c.m.start > from then PutSized(v, s[from..c.m.start], CustomTag(false, false, false), textRatio) else v;
      PutRuns(PutSized(v1, s[c.m.groupStart..c.m.groupEnd], TagFor(Styled(c.pat), bold), textRatio), Scan(s, c.m.end), textRatio, bold)
        == PutRuns(v, Scan(s, from), textRatio, bold)
  {
    var c := Select(s, from).value;
    ScanStep(s, from);
    var rest := Scan(s, c.m.end);
    var styled := Run(Styled(c.pat), s[c.m.groupStart..c.m.groupEnd]);
    var v1 := if c.m.start > from then PutSized(v, s[from..c.m.start], CustomTag(false, false, false), textRatio) else v;
    PutRunsCons(v1, styled, rest, textRatio, bold);
    if c.m.start > from {
      var gap := Run(Gap, s[from..c.m.start]);
      PutRunsCons(v, gap, [styled] + rest, textRatio, bold);
      assert [gap] + ([styled] + rest) == Scan(s, from);
    }
  }

  /** A loop step that finds no match appends the remainder, and the scan is over. */
  lemma RestStep(s: string, from: nat, v: Spanned<AndroidSpan>, textRatio: nat, bold: bool)
    requires from < |s| && Select(s, from).None?
    ensures PutRuns(PutSized(v, s[from..], CustomTag(bold, false, false), textRatio), Scan(s, |s|), textRatio, bold)
      == PutRuns(v, Scan(s, from), textRatio, bold)
  {
    ScanStep(s, from);
    PutRunsCons(v, Run(Rest, s[from..]), [], textRatio, bold);
    assert [Run(Rest, s[from..])] + [] == Scan(s, from);
    assert Scan(s, |s|) == [];
  }

  /** The relative size of each heading level, in millionths. */
  function HeadingRatio(level: nat): nat {
    if level == 1 then 1714000 else if level == 2 then 1640000 else if level == 3 then 1285700
    else if level == 4 then 1142857 else if level == 5 then 1000000 else 857100
  }

  /** The relative size of a block's runs: the heading ratio, 1 otherwise. */
  function BlockRatio(b: Block): nat {
    if b.Heading? then HeadingRatio(b.level) else 1000000
  }

  /** The `bold` argument each branch passes: true for headings 1 to 5 and paragraphs,
      the default false for heading 6 and list items. */
  function BlockBold(b: Block): bool {
    match b
    case Heading(n, _) => n <= 5
    case Paragraph(_) => true
    case _ => false
  }

  /** The decoration of a list item, appended with a bold `StyleSpan`. */
  function PutDecoration(v: Spanned<AndroidSpan>, b: Block): Spanned<AndroidSpan> {
    if b.Unordered? || b.Ordered? then PutSpanned(v, Decoration(b), BoldStyle) else v
  }

  /** A list item's decoration gets a bold `StyleSpan` over exactly its characters, and
      the span is kept because the decoration is never empty; other blocks append
      nothing ahead of their content. */
  lemma DecorationSpan(v: Spanned<AndroidSpan>, line: string)
    ensures var b := Classify(line);
      var d := Decoration(b);
      (b.Unordered? || b.Ordered? ==>
         |v.text| < |v.text| + |d|
         && PutDecoration(v, b) == Spanned(v.text + d, v.spans + [Span(BoldStyle, |v.text|, |v.text| + |d|)]))
      && (!(b.Unordered? || b.Ordered?) ==> PutDecoration(v, b) == v)
  {
    DecorationOfLine(line);
  }

  /** What one branch of the `when` appends: the decoration, then the scanned content. */
  function PutBlock(v: Spanned<AndroidSpan>, b: Block): Spanned<AndroidSpan> {
    PutRuns(PutDecoration(v, b), Scan(b.content, 0), BlockRatio(b), BlockBold(b))
  }

  function PutLines(v: Spanned<AndroidSpan>, lines: seq<string>): Spanned<AndroidSpan>
    decreases |lines|
  {
    if lines == [] then v else PutLines(Put(PutBlock(v, Classify(lines[0])), "\n"), lines[1..])
  }

  /** The spans over a non-empty range, in their order. */
  function NonEmpty(spans: seq<Span<AndroidSpan>>): (r: seq<Span<AndroidSpan>>)
    ensures forall i :: 0 <= i < |r| ==> r[i].start < r[i].end
    ensures forall sp :: sp in r ==> sp in spans
    decreases |spans|
  {
    if spans == [] then []
    else if spans[0].start < spans[0].end then [spans[0]] + NonEmpty(spans[1..])
    else NonEmpty(spans[1..])
  }

  /** `trim()` of the builder: the copy of the trimmed window keeps every span whose
      range, cut to the window, is not empty. */
  function TrimmedBuilder(v: Spanned<AndroidSpan>): (r: Spanned<AndroidSpan>)
    ensures r.text == Trim(v.text)
    ensures forall i :: 0 <= i < |r.spans| ==> r.spans[i].start < r.spans[i].end
    ensures InBounds(v) ==> InBounds(r)
  {
    var t := Trimmed(v);
    var kept := NonEmpty(t.spans);
    assert forall i :: 0 <= i < |kept| ==> kept[i] in t.spans;
    Spanned(t.text, kept)
  }

  /** A non-empty span is not dropped. */
  lemma {:induction false} NonEmptyHas(spans: seq<Span<AndroidSpan>>, sp: Span<AndroidSpan>)
    requires sp in spans && sp.start < sp.end
    ensures sp in NonEmpty(spans)
    decreases |spans|
  {
    if spans[0] != sp {
      NonEmptyHas(spans[1..], sp);
    }
  }

  /** A non-empty span inside the trimmed window survives `trim()`, with its style, and
      still covers the same characters. */
  lemma TrimmedBuilderKeepsInnerSpan(v: Spanned<AndroidSpan>, i: nat)
    requires i < |v.spans|
    requires TrimStart(v.text) <= v.spans[i].start < v.spans[i].end <= TrimEnd(v.text)
    ensures var c := ClipSpan(v.spans[i], TrimStart(v.text), TrimEnd(v.text));
      c in TrimmedBuilder(v).spans && c.style == v.spans[i].style
      && c.start < c.end <= |TrimmedBuilder(v).text|
      && TrimmedBuilder(v).text[c.start..c.end] == v.text[v.spans[i].start..v.spans[i].end]
  {
    var a, b := TrimStart(v.text), TrimEnd(v.text);
    var sp := v.spans[i];
    TrimKeepsInnerSpan(v, sp);
    ClipHasKept(v.spans, a, b, i);
    var c := ClipSpan(sp, a, b);
    assert c.start == sp.start - a && c.end == sp.end - a;
    NonEmptyHas(Trimmed(v).spans, c);
  }

  /** The builder that `parseMarkdownUsingSpannableString` returns. */
  function Document(markdownText: string): Spanned<AndroidSpan> {
    TrimmedBuilder(PutLines(Spanned([], []), Split(markdownText, '\n')))
  }

  /** One branch of the `when` in `parseMarkdownUsingSpannableString`. */
  method AppendBlock(line: string, resultBuilder: SpannableStringBuilder)
    modifies resultBuilder
    ensures resultBuilder.Value() == PutBlock(old(resultBuilder.Value()), Classify(line))
  {
    ghost var b := Classify(line);
    ghost var v := resultBuilder.Value();
    if StartsWith(line, "# ") {
      assert b == Heading(1, Trim(RemovePrefix(line, "# ")));
      TextMarkDown(Trim(RemovePrefix(line, "# ")), resultBuilder, 1714000, true);
      assert resultBuilder.Value() == PutBlock(v, b);
    } else if StartsWith(line, "## ") {
      assert b == Heading(2, Trim(RemovePrefix(line, "## ")));
      TextMarkDown(Trim(RemovePrefix(line, "## ")), resultBuilder, 1640000, true);
      assert resultBuilder.Value() == PutBlock(v, b);
    } else if StartsWith(line, "### ") {
      assert b == Heading(3, Trim(RemovePrefix(line, "### ")));
      TextMarkDown(Trim(RemovePrefix(line, "### ")), resultBuilder, 1285700, true);
      assert resultBuilder.Value() == PutBlock(v, b);
    } else if StartsWith(line, "#### ") {
      assert b == Heading(4, Trim(RemovePrefix(line, "#### ")));
      TextMarkDown(Trim(RemovePrefix(line, "#### ")), resultBuilder, 1142857, true);
      assert resultBuilder.Value() == PutBlock(v, b);
    } else if StartsWith(line, "##### ") {
      assert b == Heading(5, Trim(RemovePrefix(line, "##### ")));
      TextMarkDown(Trim(RemovePrefix(line, "##### ")), resultBuilder, 1000000, true);
      assert resultBuilder.Value() == PutBlock(v, b);
    } else if StartsWith(line, "###### ") {
      assert b == Heading(6, Trim(RemovePrefix(line, "###### ")));
      TextMarkDown(Trim(RemovePrefix(line, "###### ")), resultBuilder, 857100, false);
      assert resultBuilder.Value() == PutBlock(v, b);
    } else if StartsWith(line, "* ") || StartsWith(line, "- ") {
      var inputText := Trim(RemovePrefix(RemovePrefix(line, "* "), "- "));
      assert b == Unordered(inputText);
      var currentStyle := BoldStyle;
      resultBuilder.AppendSpanned(Bullet, currentStyle);
      TextMarkDown(inputText, resultBuilder, 1000000, false);
      assert resultBuilder.Value() == PutBlock(v, b);
    } else if IsOrderedLine(line) {
      assert b == Ordered(line[..2], line[2..]);
      // the pattern is anchored at the start of the line, so its match starts at 0
      var startIndex := 0;
      var currentStyle := BoldStyle;
      resultBuilder.AppendSpanned(line[startIndex..startIndex + 2], currentStyle);
      assert line[startIndex + 2..|line|] == line[2..];
      TextMarkDown(line[startIndex + 2..|line|], resultBuilder, 1000000, false);
      assert resultBuilder.Value() == PutBlock(v, b);
    } else {
      assert b == Paragraph(line);
      TextMarkDown(line, resultBuilder, 1000000, true);
      assert resultBuilder.Value() == PutBlock(v, b);
    }
  }

  /** `parseMarkdownUsingSpannableString(markdownText)`. */
  method ParseMarkdownUsingSpannableString(markdownText: string) returns (r: Spanned<AndroidSpan>)
    ensures r == Document(markdownText)
  {
    var lines := Split(markdownText, '\n');
    var resultBuilder := new SpannableStringBuilder();
    var i := 0;
    while i < |lines|
      invariant i <= |lines|
      invariant PutLines(resultBuilder.Value(), lines[i..]) == PutLines(Spanned([], []), lines)
      decreases |lines| - i
    {
      assert lines[i..][1..] == lines[i + 1..];
      AppendBlock(lines[i], resultBuilder);
      resultBuilder.Append("\n");
      i := i + 1;
    }
    r := TrimmedBuilder(resultBuilder.Value());
  }

  /** A non-empty run gets exactly two spans, its tag and its relative size, both over
      exactly the appended characters; an empty run gets none. */
  lemma PutRunSpans(v: Spanned<AndroidSpan>, run: Run, textRatio: nat, bold: bool)
    ensures var r := PutRun(v, run, textRatio, bold);
      var a, b := |v.text|, |v.text| + |run.text|;
      r.text == v.text + run.text
      && (run.text == [] ==> r == v)
      && (run.text != [] ==>
            r.spans == v.spans + [Span(TagFor(run.kind, bold), a, b), Span(RelativeSize(textRatio), a, b)]
            && r.text[a..b] == run.text)
  {
    if run.text != [] {
      var r := PutRun(v, run, textRatio, bold);
      assert r.text == v.text + run.text;
      assert r.text[|v.text|..|v.text| + |run.text|] == run.text;
    }
  }

  /** The number of runs with some text. */
  function NonEmptyRuns(runs: seq<Run>): nat
    decreases |runs|
  {
    if runs == [] then 0 else (if runs[0].text != [] then 1 else 0) + NonEmptyRuns(runs[1..])
  }

  /** Appending runs keeps the earlier spans and adds two spans per non-empty run. */
  lemma {:induction false} PutRunsKeeps(v: Spanned<AndroidSpan>, runs: seq<Run>, textRatio: nat, bold: bool)
    ensures var r := PutRuns(v, runs, textRatio, bold);
      |r.spans| == |v.spans| + 2 * NonEmptyRuns(runs) && r.spans[..|v.spans|] == v.spans
    decreases |runs|
  {
    if runs != [] {
      var v1 := PutRun(v, runs[0], textRatio, bold);
      PutRunSpans(v, runs[0], textRatio, bold);
      assert |v1.spans| == |v.spans| + (if runs[0].text != [] then 2 else 0);
      assert v1.spans[..|v.spans|] == v.spans;
      PutRunsKeeps(v1, runs[1..], textRatio, bold);
      var r := PutRuns(v, runs, textRatio, bold);
      assert r == PutRuns(v1, runs[1..], textRatio, bold);
      assert r.spans[..|v.spans|] == r.spans[..|v1.spans|][..|v.spans|];
    }
  }

  /** Appending runs appends their texts, keeps the earlier spans, and adds two spans per
      non-empty run and nothing else. */
  lemma PutRunsShape(v: Spanned<AndroidSpan>, runs: seq<Run>, textRatio: nat, bold: bool)
    ensures var r := PutRuns(v, runs, textRatio, bold);
      r.text == v.text + Texts(runs)
      && |r.spans| == |v.spans| + 2 * NonEmptyRuns(runs)
      && r.spans[..|v.spans|] == v.spans
  {
    PutRunsText(v, runs, textRatio, bold);
    PutRunsKeeps(v, runs, textRatio, bold);
  }

  /** `bold` reaches only the remainder run: without one, both values of `bold` append
      the same spans. */
  lemma {:induction false} BoldOnlyAffectsRest(v: Spanned<AndroidSpan>, runs: seq<Run>, textRatio: nat)
    requires forall i :: 0 <= i < |runs| ==> runs[i].kind != Rest
    ensures PutRuns(v, runs, textRatio, true) == PutRuns(v, runs, textRatio, false)
    decreases |runs|
  {
    if runs != [] {
      assert TagFor(runs[0].kind, true) == TagFor(runs[0].kind, false);
      assert PutRun(v, runs[0], textRatio, true) == PutRun(v, runs[0], textRatio, false);
      BoldOnlyAffectsRest(PutRun(v, runs[0], textRatio, false), runs[1..], textRatio);
    }
  }

  /** The runs of a scan that ends on a match are the same whatever `bold` says. */
  lemma ScanWithoutRestIgnoresBold(v: Spanned<AndroidSpan>, s: string, textRatio: nat)
    requires forall i :: 0 <= i < |Scan(s, 0)| ==> Scan(s, 0)[i].kind != Rest
    ensures PutRuns(v, Scan(s, 0), textRatio, true) == PutRuns(v, Scan(s, 0), textRatio, false)
  {
    BoldOnlyAffectsRest(v, Scan(s, 0), textRatio);
  }

  /** The tags: text before a match carries no emphasis, the remainder only the caller's
      bold, and each pattern its own flags. */
  lemma TagMeaning(kind: RunKind, bold: bool)
    ensures TagFor(kind, bold).CustomTag?
    ensures TagFor(kind, bold).isBold <==> kind in {Styled(BoldItalic), Styled(Bold)} || (kind == Rest && bold)
    ensures TagFor(kind, bold).isItalic <==> kind in {Styled(BoldItalic), Styled(Italic)}
    ensures TagFor(kind, bold).isStrikeThrough <==> kind == Styled(Strike)
  {
  }

  lemma {:induction false} PutRunsText(v: Spanned<AndroidSpan>, runs: seq<Run>, textRatio: nat, bold: bool)
    ensures PutRuns(v, runs, textRatio, bold).text == v.text + Texts(runs)
    decreases |runs|
  {
    if runs != [] {
      PutRunsText(PutRun(v, runs[0], textRatio, bold), runs[1..], textRatio, bold);
    }
  }

  /** What the decoration and any runs append is their text. */
  lemma PutContentText(v: Spanned<AndroidSpan>, b: Block, runs: seq<Run>)
    ensures PutRuns(PutDecoration(v, b), runs, BlockRatio(b), BlockBold(b)).text == v.text + (Decoration(b) + Texts(runs))
  {
    PutRunsText(PutDecoration(v, b), runs, BlockRatio(b), BlockBold(b));
  }

  /** What one block appends is its visible text. */
  lemma PutBlockText(v: Spanned<AndroidSpan>, b: Block)
    ensures PutBlock(v, b).text == v.text + VisibleBlock(b)
  {
    PutContentText(v, b, Scan(b.content, 0));
  }

  /** The buffer's text is the visible text of the lines. */
  lemma {:induction false} PutLinesText(v: Spanned<AndroidSpan>, lines: seq<string>)
    ensures PutLines(v, lines).text == v.text + VisibleLines(lines)
    decreases |lines|
  {
    if lines != [] {
      var w := PutBlock(v, Classify(lines[0]));
      PutBlockText(v, Classify(lines[0]));
      PutLinesText(Put(w, "\n"), lines[1..]);
      assert PutLines(v, lines) == PutLines(Put(w, "\n"), lines[1..]);
      assert VisibleLines(lines) == VisibleLine(lines[0]) + "\n" + VisibleLines(lines[1..]);
      PutLineText(v, w, PutLines(v, lines), VisibleLine(lines[0]), VisibleLines(lines[1..]));
    }
  }

  /** The text of the result is the visible text of the document. */
  lemma DocumentText(markdownText: string)
    ensures Document(markdownText).text == VisibleDocument(markdownText)
  {
    var lines := Split(markdownText, '\n');
    PutLinesText(Spanned([], []), lines);
    assert PutLines(Spanned([], []), lines).text == VisibleLines(lines);
  }
}
