/** The line classifier shared by both backends: the `when` over `startsWith` and the
    ordered-item regular expression, the content each branch hands to the inline
    scanner, and the visible text that a whole document turns into. */
module Blocks {
  import opened Strings
  import opened Inline

  /** The block kind of one line and the content that is scanned for inline markup. */
  datatype Block =
    | Heading(level: nat, content: string)
    | Unordered(content: string)
    | Ordered(prefix: string, content: string)
    | Paragraph(content: string)

  /** The bullet run emitted before an unordered item's content. The source file holds
      the UTF-8 bytes of a bullet glyph read back as Windows-1252, so the literal the
      compiler sees is the four characters U+00E2, U+20AC, U+00A2 and a space. */
  const Bullet: string := "\U{E2}\U{20AC}\U{A2} "

  /** The first index at or after `i` that does not hold a digit (or |s|). */
  function SkipDigits(s: string, i: nat): (k: nat)
    requires i <= |s|
    ensures i <= k <= |s|
    ensures forall j :: i <= j < k ==> IsDigit(s[j])
    ensures k < |s| ==> !IsDigit(s[k])
    decreases |s| - i
  {
    if i == |s| || !IsDigit(s[i]) then i else SkipDigits(s, i + 1)
  }

  /** `line.matches(Regex("^\\d+\\.\\s.*$"))`: digits, a dot, one `\s` character, and a
      rest that `.*` consumes to the end. `\d+` is greedy and a dot is not a digit, so
      the only split to try is after all the leading digits. */
  predicate IsOrderedLine(line: string) {
    var d := SkipDigits(line, 0);
    1 <= d && d + 2 <= |line| && line[d] == '.' && IsRegexSpace(line[d + 1])
    && SingleLine(line[d + 2..])
  }

  /** The ordered-item pattern, read literally: some `k >= 1` digits, then `.`, `\s`, and
      a single-line rest. */
  predicate OrderedShape(line: string, k: nat) {
    1 <= k && k + 2 <= |line| && (forall i :: 0 <= i < k ==> IsDigit(line[i]))
    && line[k] == '.' && IsRegexSpace(line[k + 1]) && SingleLine(line[k + 2..])
  }

  /** IsOrderedLine decides exactly the ordered-item pattern. */
  lemma OrderedLineMeaning(line: string)
    ensures IsOrderedLine(line) <==> exists k :: OrderedShape(line, k)
  {
    var d := SkipDigits(line, 0);
    if IsOrderedLine(line) {
      assert OrderedShape(line, d);
    }
    if exists k: nat :: OrderedShape(line, k) {
      var k: nat :| OrderedShape(line, k);
      assert k == d;
    }
  }

  /** The `when` of the line loop: the first branch whose test holds. */
  function Classify(line: string): (b: Block)
    ensures b.Heading? ==> 1 <= b.level <= 6
    ensures b.Ordered? ==> |line| >= 3 && |b.prefix| == 2 && b.prefix + b.content == line
  {
    if StartsWith(line, "# ") then Heading(1, Trim(RemovePrefix(line, "# ")))
    else if StartsWith(line, "## ") then Heading(2, Trim(RemovePrefix(line, "## ")))
    else if StartsWith(line, "### ") then Heading(3, Trim(RemovePrefix(line, "### ")))
    else if StartsWith(line, "#### ") then Heading(4, Trim(RemovePrefix(line, "#### ")))
    else if StartsWith(line, "##### ") then Heading(5, Trim(RemovePrefix(line, "##### ")))
    else if StartsWith(line, "###### ") then Heading(6, Trim(RemovePrefix(line, "###### ")))
    else if StartsWith(line, "* ") || StartsWith(line, "- ") then
      Unordered(Trim(RemovePrefix(RemovePrefix(line, "* "), "- ")))
    else if IsOrderedLine(line) then
      assert line == line[..2] + line[2..];
      Ordered(line[..2], line[2..])
    else Paragraph(line)
  }

  /** The line starts with exactly `n` hash signs followed by a space. */
  predicate HasHeadingMarker(line: string, n: nat) {
    n < |line| && (forall i :: 0 <= i < n ==> line[i] == '#') && line[n] == ' '
  }

  /** `n` hash signs and a space: the literal that the level-n branch tests. */
  function Marker(n: nat): (r: string)
    ensures |r| == n + 1 && r[n] == ' ' && forall i :: 0 <= i < n ==> r[i] == '#'
  {
    if n == 0 then " " else "#" + Marker(n - 1)
  }

  lemma MarkerLiterals()
    ensures Marker(1) == "# " && Marker(2) == "## " && Marker(3) == "### "
    ensures Marker(4) == "#### " && Marker(5) == "##### " && Marker(6) == "###### "
  {
  }

  lemma MarkerTest(line: string, n: nat)
    ensures StartsWith(line, Marker(n)) <==> HasHeadingMarker(line, n)
  {
    var m := Marker(n);
    if HasHeadingMarker(line, n) {
      assert line[..n + 1] == m;
    }
    if StartsWith(line, m) {
      assert forall i :: 0 <= i <= n ==> line[i] == line[..n + 1][i];
    }
  }

  /** The level the heading branches give a line, 0 when none of them fires. */
  function HeadingLevel(line: string): (n: nat)
    ensures n <= 6
    ensures 1 <= n ==> Classify(line) == Heading(n, Trim(RemovePrefix(line, Marker(n))))
    ensures n == 0 <==> !Classify(line).Heading?
  {
    MarkerLiterals();
    if StartsWith(line, Marker(1)) then 1
    else if StartsWith(line, Marker(2)) then 2
    else if StartsWith(line, Marker(3)) then 3
    else if StartsWith(line, Marker(4)) then 4
    else if StartsWith(line, Marker(5)) then 5
    else if StartsWith(line, Marker(6)) then 6
    else 0
  }

  /** A line with the level-n marker fails the tests for every shorter marker. */
  lemma ShorterMarkersFail(line: string, n: nat, m: nat)
    requires HasHeadingMarker(line, n) && m < n
    ensures !StartsWith(line, Marker(m))
  {
    MarkerTest(line, m);
  }

  /** The level-n marker makes the heading branches give level n. */
  lemma MarkerGivesLevel(line: string, n: nat)
    requires 1 <= n <= 6 && HasHeadingMarker(line, n)
    ensures HeadingLevel(line) == n
  {
    MarkerTest(line, n);
    forall m | 1 <= m < n ensures !StartsWith(line, Marker(m)) {
      ShorterMarkersFail(line, n, m);
    }
    assert StartsWith(line, Marker(n));
  }

  /** A level-n heading is recognised by exactly n `#` and a space, and its content is
      the rest of the line, trimmed. */
  lemma HeadingRecognised(line: string, n: nat)
    requires 1 <= n <= 6
    ensures (Classify(line).Heading? && Classify(line).level == n) <==> HasHeadingMarker(line, n)
    ensures HasHeadingMarker(line, n) ==> Classify(line).content == Trim(line[n + 1..])
  {
    var h := HeadingLevel(line);
    MarkerTest(line, n);
    if HasHeadingMarker(line, n) {
      MarkerGivesLevel(line, n);
      assert RemovePrefix(line, Marker(n)) == line[n + 1..];
    }
  }

  /** An ordered item's bold prefix is its first two characters and the rest is scanned:
      `10. x` gives the prefix `10` and the content `. x`. */
  lemma TwoDigitOrdinalExample(line: string)
    requires line == "10. x"
    ensures Classify(line) == Ordered("10", ". x")
  {
    FirstCharDiffers(line, "# ");
    FirstCharDiffers(line, "## ");
    FirstCharDiffers(line, "### ");
    FirstCharDiffers(line, "#### ");
    FirstCharDiffers(line, "##### ");
    FirstCharDiffers(line, "###### ");
    FirstCharDiffers(line, "* ");
    FirstCharDiffers(line, "- ");
    assert SkipDigits(line, 2) == 2;
    assert SkipDigits(line, 0) == 2;
    assert IsOrderedLine(line);
  }

  /** Both unordered markers are removed in turn: `* - x` has the content `x`. */
  lemma StackedBulletExample(line: string)
    requires line == "* - x"
    ensures Classify(line) == Unordered("x")
  {
    FirstCharDiffers(line, "# ");
    FirstCharDiffers(line, "## ");
    FirstCharDiffers(line, "### ");
    FirstCharDiffers(line, "#### ");
    FirstCharDiffers(line, "##### ");
    FirstCharDiffers(line, "###### ");
    assert line[..2] == "* ";
    assert RemovePrefix(line, "* ") == "- x";
    assert RemovePrefix("- x", "- ") == "x";
    assert Trim("x") == "x" by { assert !IsWhitespace('x'); }
  }

  /** The text both backends put into the buffer for one line, before its line break. */
  function VisibleLine(line: string): string {
    VisibleBlock(Classify(line))
  }

  /** The run both backends emit ahead of a list item's content: the bullet, or the
      first two characters of an ordered item. */
  function Decoration(b: Block): string {
    match b
    case Unordered(_) => Bullet
    case Ordered(p, _) => p
    case _ => []
  }

  /** A line's decoration: the bullet for a `* ` or `- ` item, the line's first two
      characters for an ordered item, and nothing for a heading or a paragraph. A list
      item's decoration is never empty. */
  lemma DecorationOfLine(line: string)
    ensures var b := Classify(line);
      (b.Unordered? ==> Decoration(b) == Bullet)
      && (b.Ordered? ==> |line| >= 3 && Decoration(b) == line[..2])
      && (b.Heading? || b.Paragraph? ==> Decoration(b) == [])
      && (b.Unordered? || b.Ordered? ==> 2 <= |Decoration(b)|)
  {
    var b := Classify(line);
    if b.Ordered? {
      assert b.prefix == (b.prefix + b.content)[..2];
    }
  }

  /** The text both backends put into the buffer for one block: its decoration, then the
      scanned content. */
  function VisibleBlock(b: Block): string {
    Decoration(b) + Texts(Scan(b.content, 0))
  }

  /** Every line's visible text followed by one line break. */
  function VisibleLines(lines: seq<string>): string
    decreases |lines|
  {
    if lines == [] then [] else VisibleLine(lines[0]) + "\n" + VisibleLines(lines[1..])
  }

  /** The text of a parsed document. */
  function VisibleDocument(markdownText: string): string {
    Trim(VisibleLines(Split(markdownText, '\n')))
  }

  /** The parsed text never begins or ends with whitespace, in particular not with the
      line break that follows every line. */
  lemma DocumentHasNoOuterWhitespace(markdownText: string)
    ensures var d := VisibleDocument(markdownText);
      d != [] ==> !IsWhitespace(d[0]) && !IsWhitespace(d[|d| - 1]) && d[|d| - 1] != '\n'
  {
  }

  /** Every character of `a` occurs in `b`. */
  predicate CharsFrom(a: string, b: string) {
    forall x :: x in a ==> x in b
  }

  lemma SliceCharsFrom(s: string, i: nat, j: nat)
    requires i <= j <= |s|
    ensures CharsFrom(s[i..j], s)
  {
    forall x | x in s[i..j] ensures x in s {
      var k :| 0 <= k < j - i && s[i..j][k] == x;
      assert s[i + k] == x;
    }
  }

  /** The text left after replacing matches by their groups is made of the original's
      characters. */
  lemma {:induction false} ReplaceCharsFrom(s: string, from: nat, ms: seq<Match>)
    requires from <= |s| && Disjoint(s, from, ms)
    ensures CharsFrom(Replace(s, from, ms), s)
    decreases |ms|
  {
    if ms == [] {
      SliceCharsFrom(s, from, |s|);
    } else {
      SliceCharsFrom(s, from, ms[0].start);
      SliceCharsFrom(s, ms[0].groupStart, ms[0].groupEnd);
      ReplaceCharsFrom(s, ms[0].end, ms[1..]);
    }
  }

  /** Every character that the scanner emits comes from its input. */
  lemma ScanCharsFromInput(s: string, from: nat)
    requires from <= |s|
    ensures CharsFrom(Texts(Scan(s, from)), s)
  {
    ScanPreservesText(s, from);
    ReplaceCharsFrom(s, from, MatchesOf(Chosen(s, from)));
  }

  lemma RemovePrefixCharsFrom(s: string, p: string)
    ensures CharsFrom(RemovePrefix(s, p), s)
  {
    if StartsWith(s, p) { SliceCharsFrom(s, |p|, |s|); }
  }

  /** The content (and the prefix) of a line's block are made of the line's characters. */
  lemma BlockCharsFromLine(line: string)
    ensures CharsFrom(Classify(line).content, line)
    ensures Classify(line).Ordered? ==> CharsFrom(Classify(line).prefix, line)
  {
    var h := HeadingLevel(line);
    if h >= 1 {
      var t := RemovePrefix(line, Marker(h));
      RemovePrefixCharsFrom(line, Marker(h));
      SliceCharsFrom(t, TrimStart(t), TrimEnd(t));
    } else if Classify(line).Unordered? {
      var t1 := RemovePrefix(line, "* ");
      var t := RemovePrefix(t1, "- ");
      RemovePrefixCharsFrom(line, "* ");
      RemovePrefixCharsFrom(t1, "- ");
      SliceCharsFrom(t, TrimStart(t), TrimEnd(t));
      assert Classify(line).content == Trim(t);
    } else if Classify(line).Ordered? {
      SliceCharsFrom(line, 0, 2);
      SliceCharsFrom(line, 2, |line|);
    }
  }

  /** A line break-free line has a line break-free visible text. */
  lemma VisibleLineIsOneLine(line: string)
    requires '\n' !in line
    ensures '\n' !in VisibleLine(line)
  {
    var b := Classify(line);
    BlockCharsFromLine(line);
    ScanCharsFromInput(b.content, 0);
    assert '\n' !in Bullet;
  }

  function MapVisible(lines: seq<string>): (r: seq<string>)
    ensures |r| == |lines| && forall i :: 0 <= i < |lines| ==> r[i] == VisibleLine(lines[i])
    decreases |lines|
  {
    if lines == [] then [] else [VisibleLine(lines[0])] + MapVisible(lines[1..])
  }

  lemma {:induction false} VisibleLinesJoin(lines: seq<string>)
    ensures VisibleLines(lines) == Join(MapVisible(lines) + [[]], '\n')
    decreases |lines|
  {
    if lines != [] {
      VisibleLinesJoin(lines[1..]);
      var ps := MapVisible(lines) + [[]];
      assert ps[1..] == MapVisible(lines[1..]) + [[]];
    }
  }

  /** Line structure: every input line gives exactly one output line, each followed by
      exactly one line break. */
  lemma LinesKeepTheirBreaks(lines: seq<string>)
    requires forall i :: 0 <= i < |lines| ==> '\n' !in lines[i]
    ensures Split(VisibleLines(lines), '\n') == MapVisible(lines) + [[]]
  {
    VisibleLinesJoin(lines);
    var ps := MapVisible(lines) + [[]];
    forall i | 0 <= i < |ps| ensures '\n' !in ps[i] {
      if i < |lines| { VisibleLineIsOneLine(lines[i]); }
    }
    SplitJoin(ps, '\n');
  }
}
