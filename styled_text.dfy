/** Styled text as both rendering backends build it: a text buffer and a list of style
    spans over character ranges, and the `trim()` that ends a parse. */
module StyledText {
  import opened Strings

  /** A style `style` attached to the characters `start..end` of the text. */
  datatype Span<S> = Span(style: S, start: nat, end: nat)

  /** A text with its spans, in the order in which they were attached. */
  datatype Spanned<S> = Spanned(text: string, spans: seq<Span<S>>)

  /** Every span lies inside the text. */
  predicate InBounds<S>(v: Spanned<S>) {
    forall i :: 0 <= i < |v.spans| ==> v.spans[i].start <= v.spans[i].end <= |v.text|
  }

  /** `append(text)`: the text grows at its end and the spans stay where they are. */
  function Put<S>(v: Spanned<S>, t: string): (r: Spanned<S>)
    ensures InBounds(v) ==> InBounds(r)
  {
    Spanned(v.text + t, v.spans)
  }

  /** Text grown by `x`, then by a line break and `y`, has grown by their concatenation. */
  lemma PutLineText<S>(v: Spanned<S>, w: Spanned<S>, u: Spanned<S>, x: string, y: string)
    requires w.text == v.text + x && u.text == w.text + "\n" + y
    ensures u.text == v.text + (x + "\n" + y)
  {
  }

  function Clamp(x: nat, a: nat, b: nat): (r: nat)
    requires a <= b
    ensures a <= r <= b && (a <= x <= b ==> r == x)
  {
    if x < a then a else if x > b then b else x
  }

  /** A span survives taking the window `a..b` of the text when it overlaps the window
      or lies inside it. */
  predicate Kept<S>(sp: Span<S>, a: nat, b: nat) {
    (a <= sp.start && sp.end <= b)
    || ((if a < sp.start then sp.start else a) < (if b < sp.end then b else sp.end))
  }

  /** A span cut to the window `a..b`, with offsets relative to the window. */
  function ClipSpan<S>(sp: Span<S>, a: nat, b: nat): (r: Span<S>)
    requires a <= b
    ensures r.start <= b - a && r.end <= b - a
    ensures sp.start <= sp.end ==> r.start <= r.end
  {
    Span(sp.style, Clamp(sp.start, a, b) - a, Clamp(sp.end, a, b) - a)
  }

  /** The spans of a window `a..b`: those kept, cut to the window, in their order. */
  function Clip<S>(spans: seq<Span<S>>, a: nat, b: nat): (r: seq<Span<S>>)
    requires a <= b
    ensures |r| <= |spans|
    ensures forall i :: 0 <= i < |r| ==> r[i].start <= b - a && r[i].end <= b - a
    ensures (forall i :: 0 <= i < |spans| ==> spans[i].start <= spans[i].end) ==>
      forall i :: 0 <= i < |r| ==> r[i].start <= r[i].end
    decreases |spans|
  {
    if spans == [] then []
    else
      var rest := Clip(spans[1..], a, b);
      assert forall i :: 1 <= i < |spans| ==> spans[i] == spans[1..][i - 1];
      if Kept(spans[0], a, b) then [ClipSpan(spans[0], a, b)] + rest else rest
  }

  /** A span that is kept appears, cut to the window, among the window's spans. */
  lemma {:induction false} ClipHasKept<S>(spans: seq<Span<S>>, a: nat, b: nat, i: nat)
    requires a <= b && i < |spans| && Kept(spans[i], a, b)
    ensures ClipSpan(spans[i], a, b) in Clip(spans, a, b)
    decreases |spans|
  {
    if i > 0 {
      ClipHasKept(spans[1..], a, b, i - 1);
    }
  }

  /** `trim()` of a styled text: the text without leading and trailing whitespace, and
      the spans cut to what is left. */
  function Trimmed<S>(v: Spanned<S>): (r: Spanned<S>)
    ensures r.text == Trim(v.text)
    ensures InBounds(v) ==> InBounds(r)
  {
    var a, b := TrimStart(v.text), TrimEnd(v.text);
    Spanned(v.text[a..b], Clip(v.spans, a, b))
  }

  /** A span that lies inside the trimmed window is kept and still covers the same
      characters. */
  lemma TrimKeepsInnerSpan<S>(v: Spanned<S>, sp: Span<S>)
    requires TrimStart(v.text) <= sp.start <= sp.end <= TrimEnd(v.text)
    ensures Kept(sp, TrimStart(v.text), TrimEnd(v.text))
    ensures var c := ClipSpan(sp, TrimStart(v.text), TrimEnd(v.text));
      c.start <= c.end <= |Trimmed(v).text|
      && Trimmed(v).text[c.start..c.end] == v.text[sp.start..sp.end]
  {
    var a, b := TrimStart(v.text), TrimEnd(v.text);
    var c := ClipSpan(sp, a, b);
    assert c.start == sp.start - a && c.end == sp.end - a;
    assert Trimmed(v).text == v.text[a..b];
  }
}
