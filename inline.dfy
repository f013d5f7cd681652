/** The inline span scanner shared by both rendering backends: the four emphasis
    patterns written as direct character predicates, their leftmost-lazy `find`,
    the earliest-match selection, and the sequence of runs that the scanning loop
    emits for one line's content. */
module Inline {
  import opened Strings

  datatype Option<T> = None | Some(value: T)

  /** The four patterns, in the order in which the scanner lists them:
      `\*\*[*_](.*?)[*_]\*\*`, `\*\*(.*?)\*\*`, `[*_](.*?)[*_]`, `~~(.+?)~~`. */
  datatype Pattern = BoldItalic | Bold | Italic | Strike

  /** Position of a pattern in the candidate list; earlier wins a tie. */
  function Rank(pat: Pattern): nat {
    match pat
    case BoldItalic => 0
    case Bold => 1
    case Italic => 2
    case Strike => 3
  }

  predicate IsEmphasisMark(c: char) {
    c == '*' || c == '_'
  }

  /** Length of the opening delimiter. */
  function OpenLen(pat: Pattern): nat {
    match pat
    case BoldItalic => 3
    case Bold => 2
    case Italic => 1
    case Strike => 2
  }

  /** Length of the closing delimiter. */
  function CloseLen(pat: Pattern): nat {
    OpenLen(pat)
  }

  /** Fewest characters the group may hold: `.+?` for strikethrough, `.*?` otherwise. */
  function MinGroup(pat: Pattern): nat {
    if pat == Strike then 1 else 0
  }

  /** The opening delimiter of `pat` occurs at `p`. */
  predicate Opens(pat: Pattern, s: string, p: nat) {
    match pat
    case BoldItalic => p + 3 <= |s| && s[p] == '*' && s[p + 1] == '*' && IsEmphasisMark(s[p + 2])
    case Bold => p + 2 <= |s| && s[p] == '*' && s[p + 1] == '*'
    case Italic => p < |s| && IsEmphasisMark(s[p])
    case Strike => p + 2 <= |s| && s[p] == '~' && s[p + 1] == '~'
  }

  /** The closing delimiter of `pat` occurs at `q`. */
  predicate Closes(pat: Pattern, s: string, q: nat) {
    match pat
    case BoldItalic => q + 3 <= |s| && IsEmphasisMark(s[q]) && s[q + 1] == '*' && s[q + 2] == '*'
    case Bold => q + 2 <= |s| && s[q] == '*' && s[q + 1] == '*'
    case Italic => q < |s| && IsEmphasisMark(s[q])
    case Strike => q + 2 <= |s| && s[q] == '~' && s[q + 1] == '~'
  }

  /** `pat` matches `s` from `p` with its group ending at `q`: the opening delimiter at
      `p`, a group `s[p + OpenLen..q]` without line terminators, the closing one at `q`. */
  predicate MatchesAt(pat: Pattern, s: string, p: nat, q: nat) {
    Opens(pat, s, p) && p + OpenLen(pat) + MinGroup(pat) <= q && Closes(pat, s, q)
    && SingleLine(s[p + OpenLen(pat)..q])
  }

  /** A match: `s[start..end]` is the whole match, `s[groupStart..groupEnd]` group 1. */
  datatype Match = Match(start: nat, groupStart: nat, groupEnd: nat, end: nat)

  /** What the regular-expression engine reports for `pat` at `m.start`: a match whose
      lazy group is the shortest one possible from there. */
  predicate IsLazyMatch(pat: Pattern, s: string, m: Match) {
    && MatchesAt(pat, s, m.start, m.groupEnd)
    && m.groupStart == m.start + OpenLen(pat)
    && m.end == m.groupEnd + CloseLen(pat)
    && forall q: nat :: q < m.groupEnd ==> !MatchesAt(pat, s, m.start, q)
  }

  /** Searches for the closing delimiter from `q` on, one group character at a time,
      as the lazy quantifier does: first try to close, else consume one `.`. */
  function FindClose(pat: Pattern, s: string, p: nat, q: nat): (r: Option<nat>)
    requires Opens(pat, s, p) && p + OpenLen(pat) <= q <= |s|
    requires SingleLine(s[p + OpenLen(pat)..q])
    ensures r.Some? ==> q <= r.value && p + OpenLen(pat) + MinGroup(pat) <= r.value
    ensures r.Some? ==> r.value + CloseLen(pat) <= |s|
    decreases |s| - q
  {
    var g := p + OpenLen(pat);
    if g + MinGroup(pat) <= q && Closes(pat, s, q) then Some(q)
    else if q < |s| && !IsLineTerminator(s[q]) then
      assert s[g..q + 1] == s[g..q] + [s[q]];
      FindClose(pat, s, p, q + 1)
    else None
  }

  /** The position FindClose reports closes a match. */
  lemma {:induction false} FindCloseMatches(pat: Pattern, s: string, p: nat, q: nat)
    requires Opens(pat, s, p) && p + OpenLen(pat) <= q <= |s|
    requires SingleLine(s[p + OpenLen(pat)..q])
    requires FindClose(pat, s, p, q).Some?
    ensures MatchesAt(pat, s, p, FindClose(pat, s, p, q).value)
    decreases |s| - q
  {
    var g := p + OpenLen(pat);
    if !(g + MinGroup(pat) <= q && Closes(pat, s, q)) {
      assert s[g..q + 1] == s[g..q] + [s[q]];
      FindCloseMatches(pat, s, p, q + 1);
    }
  }

  /** No match from `p` closes between `q` and the position FindClose reports. */
  lemma {:induction false} FindCloseFirst(pat: Pattern, s: string, p: nat, q: nat)
    requires Opens(pat, s, p) && p + OpenLen(pat) <= q <= |s|
    requires SingleLine(s[p + OpenLen(pat)..q])
    requires FindClose(pat, s, p, q).Some?
    ensures forall q': nat :: q <= q' < FindClose(pat, s, p, q).value ==> !MatchesAt(pat, s, p, q')
    decreases |s| - q
  {
    var g := p + OpenLen(pat);
    if !(g + MinGroup(pat) <= q && Closes(pat, s, q)) {
      assert s[g..q + 1] == s[g..q] + [s[q]];
      FindCloseFirst(pat, s, p, q + 1);
    }
  }

  /** When FindClose reports nothing, no match from `p` closes at or after `q`: the
      line ends, or a line terminator comes, before any closing delimiter. */
  lemma {:induction false} FindCloseNone(pat: Pattern, s: string, p: nat, q: nat)
    requires Opens(pat, s, p) && p + OpenLen(pat) <= q <= |s|
    requires SingleLine(s[p + OpenLen(pat)..q])
    requires FindClose(pat, s, p, q).None?
    ensures forall q': nat :: q <= q' ==> !MatchesAt(pat, s, p, q')
    decreases |s| - q
  {
    var g := p + OpenLen(pat);
    if q < |s| && !IsLineTerminator(s[q]) {
      assert s[g..q + 1] == s[g..q] + [s[q]];
      FindCloseNone(pat, s, p, q + 1);
    } else {
      assert forall q': nat :: q < q' && MatchesAt(pat, s, p, q') ==> s[g..q'][q - g] == s[q];
    }
  }

  /** FindClose reports the first closing position at or after `q`, and none when
      there is none. */
  lemma FindCloseMeaning(pat: Pattern, s: string, p: nat, q: nat)
    requires Opens(pat, s, p) && p + OpenLen(pat) <= q <= |s|
    requires SingleLine(s[p + OpenLen(pat)..q])
    ensures var r := FindClose(pat, s, p, q);
      && (r.Some? ==> MatchesAt(pat, s, p, r.value))
      && (r.Some? ==> forall q': nat :: q <= q' < r.value ==> !MatchesAt(pat, s, p, q'))
      && (r.None? ==> forall q': nat :: q <= q' ==> !MatchesAt(pat, s, p, q'))
  {
    if FindClose(pat, s, p, q).Some? {
      FindCloseMatches(pat, s, p, q);
      FindCloseFirst(pat, s, p, q);
    } else {
      FindCloseNone(pat, s, p, q);
    }
  }

  /** `pat.find(s, from)`: the match with the leftmost start at or after `from`. */
  function Find(pat: Pattern, s: string, from: nat): (r: Option<Match>)
    requires from <= |s|
    ensures r.Some? ==> from <= r.value.start && r.value.groupStart == r.value.start + OpenLen(pat)
    ensures r.Some? ==> r.value.groupStart + MinGroup(pat) <= r.value.groupEnd
    ensures r.Some? ==> r.value.end == r.value.groupEnd + CloseLen(pat) && r.value.end <= |s|
    decreases |s| - from
  {
    if from == |s| then None
    else if Opens(pat, s, from) then
      var g := from + OpenLen(pat);
      assert s[g..g] == [];
      match FindClose(pat, s, from, g)
      case Some(q) => Some(Match(from, g, q, q + CloseLen(pat)))
      case None => Find(pat, s, from + 1)
    else Find(pat, s, from + 1)
  }

  /** A match Find reports is the lazy match at its start. */
  lemma {:induction false} FindIsLazy(pat: Pattern, s: string, from: nat)
    requires from <= |s| && Find(pat, s, from).Some?
    ensures IsLazyMatch(pat, s, Find(pat, s, from).value)
    decreases |s| - from
  {
    var g := from + OpenLen(pat);
    if Opens(pat, s, from) && FindClose(pat, s, from, g).Some? {
      assert s[g..g] == [];
      FindCloseMeaning(pat, s, from, g);
    } else {
      FindIsLazy(pat, s, from + 1);
    }
  }

  /** Nothing matches between `from` and the start of the match Find reports. */
  lemma {:induction false} FindIsLeftmost(pat: Pattern, s: string, from: nat)
    requires from <= |s| && Find(pat, s, from).Some?
    ensures forall p: nat, q: nat :: from <= p < Find(pat, s, from).value.start ==> !MatchesAt(pat, s, p, q)
    decreases |s| - from
  {
    var g := from + OpenLen(pat);
    if Opens(pat, s, from) && FindClose(pat, s, from, g).Some? {
    } else {
      if Opens(pat, s, from) {
        assert s[g..g] == [];
        FindCloseMeaning(pat, s, from, g);
      }
      FindIsLeftmost(pat, s, from + 1);
    }
  }

  /** When Find reports nothing, nothing matches at or after `from`. */
  lemma {:induction false} FindNoneMeansNoMatch(pat: Pattern, s: string, from: nat)
    requires from <= |s| && Find(pat, s, from).None?
    ensures forall p: nat, q: nat :: from <= p ==> !MatchesAt(pat, s, p, q)
    decreases |s| - from
  {
    if from < |s| {
      if Opens(pat, s, from) {
        var g := from + OpenLen(pat);
        assert s[g..g] == [];
        FindCloseMeaning(pat, s, from, g);
      }
      FindNoneMeansNoMatch(pat, s, from + 1);
    }
  }

  /** Find reports the leftmost lazy match at or after `from`: nothing matches between
      `from` and its start, and when it reports none, nothing matches at all. */
  lemma FindMeaning(pat: Pattern, s: string, from: nat)
    requires from <= |s|
    ensures var r := Find(pat, s, from);
      && (r.Some? ==> IsLazyMatch(pat, s, r.value))
      && (r.Some? ==> forall p: nat, q: nat :: from <= p < r.value.start ==> !MatchesAt(pat, s, p, q))
      && (r.None? ==> forall p: nat, q: nat :: from <= p ==> !MatchesAt(pat, s, p, q))
  {
    if Find(pat, s, from).Some? {
      FindIsLazy(pat, s, from);
      FindIsLeftmost(pat, s, from);
    } else {
      FindNoneMeansNoMatch(pat, s, from);
    }
  }

  /** A non-null result of one of the four finds, tagged with its pattern. */
  datatype Candidate = Candidate(pat: Pattern, m: Match)

  /** The find result of `pat` among the four. */
  function ResultOf(pat: Pattern, bi: Option<Match>, b: Option<Match>, i: Option<Match>, st: Option<Match>): Option<Match> {
    match pat
    case BoldItalic => bi
    case Bold => b
    case Italic => i
    case Strike => st
  }

  /** `listOfNotNull(nextBoldItalic, nextBold, nextItalic, nextStrikethrough)`. */
  function Listed(bi: Option<Match>, b: Option<Match>, i: Option<Match>, st: Option<Match>): (r: seq<Candidate>)
    ensures forall c :: c in r ==> ResultOf(c.pat, bi, b, i, st) == Some(c.m)
  {
    NotNull(BoldItalic, bi) + NotNull(Bold, b) + NotNull(Italic, i) + NotNull(Strike, st)
  }

  /** The candidates at `from`: the four finds, listed. */
  function Candidates(s: string, from: nat): (r: seq<Candidate>)
    requires from <= |s|
    ensures forall c :: c in r ==> Find(c.pat, s, from) == Some(c.m)
  {
    var bi, b, i, st := Find(BoldItalic, s, from), Find(Bold, s, from), Find(Italic, s, from), Find(Strike, s, from);
    assert forall pat :: ResultOf(pat, bi, b, i, st) == Find(pat, s, from);
    Listed(bi, b, i, st)
  }

  function NotNull(pat: Pattern, r: Option<Match>): seq<Candidate> {
    if r.Some? then [Candidate(pat, r.value)] else []
  }

  /** The index that `minByOrNull { it.range.first }` picks: a smallest start, and the
      first of them. */
  function FirstMin(cs: seq<Candidate>): (k: nat)
    requires |cs| > 0
    ensures k < |cs|
    ensures forall j :: 0 <= j < |cs| ==> cs[k].m.start <= cs[j].m.start
    ensures forall j :: 0 <= j < k ==> cs[k].m.start < cs[j].m.start
    decreases |cs|
  {
    if |cs| == 1 then 0
    else
      var k := FirstMin(cs[1..]) + 1;
      if cs[0].m.start <= cs[k].m.start then 0 else k
  }

  /** `minByOrNull { it.range.first }` over the candidates. */
  function Earliest(cs: seq<Candidate>): (r: Option<Candidate>)
    ensures r.Some? ==> r.value in cs
  {
    if cs == [] then None else Some(cs[FirstMin(cs)])
  }

  /** The match the scanner acts on when its cursor is at `from`. */
  function Select(s: string, from: nat): (r: Option<Candidate>)
    requires from <= |s|
    ensures r.Some? ==> Find(r.value.pat, s, from) == Some(r.value.m)
    ensures r.Some? ==> from <= r.value.m.start
    ensures r.Some? ==> r.value.m.start + 2 <= r.value.m.end <= |s|
    ensures r.Some? ==> r.value.m.start < r.value.m.groupStart <= r.value.m.groupEnd < r.value.m.end
  {
    Earliest(Candidates(s, from))
  }

  /** Each listed candidate carries its pattern's find result, and the patterns come in
      list order. */
  lemma ListedPositions(bi: Option<Match>, b: Option<Match>, i: Option<Match>, st: Option<Match>)
    ensures var cs := Listed(bi, b, i, st);
      forall j :: 0 <= j < |cs| ==> ResultOf(cs[j].pat, bi, b, i, st) == Some(cs[j].m)
    ensures var cs := Listed(bi, b, i, st);
      forall j, j' :: 0 <= j < j' < |cs| ==> Rank(cs[j].pat) < Rank(cs[j'].pat)
  {
    var cs := Listed(bi, b, i, st);
    var nbi, nb, ni, nst := NotNull(BoldItalic, bi), NotNull(Bold, b), NotNull(Italic, i), NotNull(Strike, st);
    assert cs == nbi + nb + ni + nst;
    assert forall j :: 0 <= j < |cs| ==>
      && (j < |nbi| ==> cs[j] == Candidate(BoldItalic, bi.value))
      && (|nbi| <= j < |nbi| + |nb| ==> cs[j] == Candidate(Bold, b.value))
      && (|nbi| + |nb| <= j < |nbi| + |nb| + |ni| ==> cs[j] == Candidate(Italic, i.value))
      && (|nbi| + |nb| + |ni| <= j ==> cs[j] == Candidate(Strike, st.value));
  }

  /** Where the find result of `pat` sits in the list when it is not null. */
  function ListedIndex(pat: Pattern, bi: Option<Match>, b: Option<Match>, i: Option<Match>, st: Option<Match>): nat {
    match pat
    case BoldItalic => 0
    case Bold => |NotNull(BoldItalic, bi)|
    case Italic => |NotNull(BoldItalic, bi)| + |NotNull(Bold, b)|
    case Strike => |NotNull(BoldItalic, bi)| + |NotNull(Bold, b)| + |NotNull(Italic, i)|
  }

  /** A find result that is not null is listed. */
  lemma ResultIsListed(bi: Option<Match>, b: Option<Match>, i: Option<Match>, st: Option<Match>, other: Pattern)
    requires ResultOf(other, bi, b, i, st).Some?
    ensures var j := ListedIndex(other, bi, b, i, st);
      j < |Listed(bi, b, i, st)|
      && Listed(bi, b, i, st)[j] == Candidate(other, ResultOf(other, bi, b, i, st).value)
  {
    var cs := Listed(bi, b, i, st);
    var nbi, nb, ni, nst := NotNull(BoldItalic, bi), NotNull(Bold, b), NotNull(Italic, i), NotNull(Strike, st);
    assert cs == nbi + nb + ni + nst;
  }

  /** Nothing is listed exactly when all four finds are null. */
  lemma ListedEmpty(bi: Option<Match>, b: Option<Match>, i: Option<Match>, st: Option<Match>)
    ensures Listed(bi, b, i, st) == [] <==> (bi.None? && b.None? && i.None? && st.None?)
  {
    var nbi, nb, ni, nst := NotNull(BoldItalic, bi), NotNull(Bold, b), NotNull(Italic, i), NotNull(Strike, st);
    assert Listed(bi, b, i, st) == nbi + nb + ni + nst;
  }

  /** The earliest listed match starts no later than any other and, at the same start,
      comes from a pattern listed no later. */
  lemma EarliestFirst(bi: Option<Match>, b: Option<Match>, i: Option<Match>, st: Option<Match>, other: Pattern)
    requires Listed(bi, b, i, st) != [] && ResultOf(other, bi, b, i, st).Some?
    ensures var c := Earliest(Listed(bi, b, i, st)).value;
      var o := ResultOf(other, bi, b, i, st).value;
      c.m.start <= o.start && (o.start == c.m.start ==> Rank(c.pat) <= Rank(other))
  {
    var cs := Listed(bi, b, i, st);
    ListedPositions(bi, b, i, st);
    ResultIsListed(bi, b, i, st, other);
    var j := ListedIndex(other, bi, b, i, st);
    var k := FirstMin(cs);
    assert cs[k].m.start <= cs[j].m.start;
    assert k <= j || cs[k].m.start < cs[j].m.start;
  }

  /** `minByOrNull` over the listed finds: none exactly when all four are null; otherwise
      one of them, starting no later than any other, and ahead of any listed later that
      starts at the same place. */
  lemma EarliestOfListed(bi: Option<Match>, b: Option<Match>, i: Option<Match>, st: Option<Match>, other: Pattern)
    ensures Earliest(Listed(bi, b, i, st)).None? <==> (bi.None? && b.None? && i.None? && st.None?)
    ensures Earliest(Listed(bi, b, i, st)).Some? ==>
      var c := Earliest(Listed(bi, b, i, st)).value;
      ResultOf(c.pat, bi, b, i, st) == Some(c.m)
    ensures Earliest(Listed(bi, b, i, st)).Some? && ResultOf(other, bi, b, i, st).Some? ==>
      var c := Earliest(Listed(bi, b, i, st)).value;
      var o := ResultOf(other, bi, b, i, st).value;
      c.m.start <= o.start && (o.start == c.m.start ==> Rank(c.pat) <= Rank(other))
  {
    ListedEmpty(bi, b, i, st);
    if Listed(bi, b, i, st) != [] && ResultOf(other, bi, b, i, st).Some? {
      EarliestFirst(bi, b, i, st, other);
    }
  }

  /** Selection: nothing is selected exactly when none of the four patterns occurs;
      otherwise the selected match is the one its pattern's find reports, it starts no
      later than any other pattern's match, and a pattern listed earlier does not
      start at the same place. */
  lemma SelectIsEarliestFirst(s: string, from: nat, other: Pattern)
    requires from <= |s|
    ensures Select(s, from).None? <==>
      (Find(BoldItalic, s, from).None? && Find(Bold, s, from).None?
       && Find(Italic, s, from).None? && Find(Strike, s, from).None?)
    ensures Select(s, from).Some? && Find(other, s, from).Some? ==>
      var c := Select(s, from).value;
      var o := Find(other, s, from).value;
      c.m.start <= o.start && (o.start == c.m.start ==> Rank(c.pat) <= Rank(other))
  {
    var bi, b, i, st := Find(BoldItalic, s, from), Find(Bold, s, from), Find(Italic, s, from), Find(Strike, s, from);
    EarliestOfListed(bi, b, i, st, other);
    assert ResultOf(other, bi, b, i, st) == Find(other, s, from);
  }

  lemma NoMatchLeftOfSelection(s: string, from: nat, pat: Pattern, p: nat, q: nat)
    requires from <= |s|
    requires from <= p
    requires Select(s, from).Some? ==> p < Select(s, from).value.m.start
    ensures !MatchesAt(pat, s, p, q)
  {
    SelectIsEarliestFirst(s, from, pat);
    FindMeaning(pat, s, from);
  }

  /** A run that the scanner emits: plain text before a match (`Gap`), the group of a
      selected match (`Styled`), or the plain remainder once nothing matches (`Rest`). */
  datatype RunKind = Gap | Styled(pat: Pattern) | Rest
  datatype Run = Run(kind: RunKind, text: string)

  predicate IsPlain(k: RunKind) {
    k.Gap? || k.Rest?
  }

  /** The runs that the scanning loop emits once its cursor is at `from`. */
  function Scan(s: string, from: nat): seq<Run>
    requires from <= |s|
    decreases |s| - from
  {
    if from == |s| then []
    else match Select(s, from)
      case None => [Run(Rest, s[from..])]
      case Some(c) =>
        (if c.m.start > from then [Run(Gap, s[from..c.m.start])] else [])
        + [Run(Styled(c.pat), s[c.m.groupStart..c.m.groupEnd])]
        + Scan(s, c.m.end)
  }

  /** The runs' texts, concatenated. */
  function Texts(runs: seq<Run>): string {
    if runs == [] then [] else runs[0].text + Texts(runs[1..])
  }

  lemma {:induction false} TextsAppend(a: seq<Run>, b: seq<Run>)
    ensures Texts(a + b) == Texts(a) + Texts(b)
    decreases |a|
  {
    if a == [] {
      assert a + b == b;
    } else {
      assert (a + b)[1..] == a[1..] + b;
      TextsAppend(a[1..], b);
    }
  }

  /** The runs' texts around run `i`. */
  lemma TextsAround(runs: seq<Run>, i: nat)
    requires i < |runs|
    ensures Texts(runs) == Texts(runs[..i]) + runs[i].text + Texts(runs[i + 1..])
    ensures Texts(runs[..i + 1]) == Texts(runs[..i]) + runs[i].text
  {
    var pre, one, post := runs[..i], [runs[i]], runs[i + 1..];
    assert Texts(one) == runs[i].text by {
      assert one[1..] == [];
    }
    assert runs[..i + 1] == pre + one;
    TextsAppend(pre, one);
    assert runs == (pre + one) + post;
    TextsAppend(pre + one, post);
  }

  /** One step of the scan, as the loop takes it. */
  lemma ScanStep(s: string, from: nat)
    requires from < |s|
    ensures Select(s, from).None? ==> Scan(s, from) == [Run(Rest, s[from..])]
    ensures Select(s, from).Some? ==>
      var c := Select(s, from).value;
      Scan(s, from) == (if c.m.start > from then [Run(Gap, s[from..c.m.start])] else [])
        + [Run(Styled(c.pat), s[c.m.groupStart..c.m.groupEnd])] + Scan(s, c.m.end)
  {
  }

  /** The selection, written as the loop computes it. */
  lemma SelectUnfolds(s: string, from: nat)
    requires from <= |s|
    ensures Select(s, from) == Earliest(Listed(Find(BoldItalic, s, from), Find(Bold, s, from),
      Find(Italic, s, from), Find(Strike, s, from)))
  {
  }

  /** The matches the scanner selects from `from` on, in order. */
  function Chosen(s: string, from: nat): seq<Candidate>
    requires from <= |s|
    decreases |s| - from
  {
    if from == |s| then []
    else match Select(s, from)
      case None => []
      case Some(c) => [c] + Chosen(s, c.m.end)
  }

  /** Matches that lie in `s[from..]` one after another without overlapping. */
  predicate Disjoint(s: string, from: nat, ms: seq<Match>)
    decreases |ms|
  {
    ms == [] || (
      && from <= ms[0].start <= ms[0].groupStart <= ms[0].groupEnd <= ms[0].end <= |s|
      && Disjoint(s, ms[0].end, ms[1..]))
  }

  /** `s[from..]` with each match replaced by its group. */
  function Replace(s: string, from: nat, ms: seq<Match>): string
    requires from <= |s|
    requires Disjoint(s, from, ms)
    decreases |ms|
  {
    if ms == [] then s[from..]
    else s[from..ms[0].start] + s[ms[0].groupStart..ms[0].groupEnd] + Replace(s, ms[0].end, ms[1..])
  }

  function MatchesOf(cs: seq<Candidate>): (ms: seq<Match>)
    ensures |ms| == |cs| && forall i :: 0 <= i < |cs| ==> ms[i] == cs[i].m
  {
    if cs == [] then [] else [cs[0].m] + MatchesOf(cs[1..])
  }

  /** The chosen matches are strictly ordered, disjoint, and each at least two
      characters long (so the cursor advances). */
  lemma {:induction false} ChosenAreOrdered(s: string, from: nat)
    requires from <= |s|
    ensures Disjoint(s, from, MatchesOf(Chosen(s, from)))
    ensures forall i :: 0 <= i < |Chosen(s, from)| ==>
      Chosen(s, from)[i].m.start + 2 <= Chosen(s, from)[i].m.end
    decreases |s| - from
  {
    if from < |s| && Select(s, from).Some? {
      var c := Select(s, from).value;
      ChosenAreOrdered(s, c.m.end);
      assert MatchesOf(Chosen(s, from))[1..] == MatchesOf(Chosen(s, c.m.end));
    }
  }

  /** Text preservation: the runs' texts are the input with every selected match
      replaced by its group 1. */
  lemma {:induction false} ScanPreservesText(s: string, from: nat)
    requires from <= |s|
    ensures Disjoint(s, from, MatchesOf(Chosen(s, from)))
    ensures Texts(Scan(s, from)) == Replace(s, from, MatchesOf(Chosen(s, from)))
    decreases |s| - from
  {
    ChosenAreOrdered(s, from);
    if from == |s| {
    } else if Select(s, from).None? {
      assert Texts([Run(Rest, s[from..])]) == s[from..];
    } else {
      var c := Select(s, from).value;
      ScanPreservesText(s, c.m.end);
      var gap := if c.m.start > from then [Run(Gap, s[from..c.m.start])] else [];
      var styled := [Run(Styled(c.pat), s[c.m.groupStart..c.m.groupEnd])];
      TextsAppend(gap + styled, Scan(s, c.m.end));
      TextsAppend(gap, styled);
      assert Texts(styled) == s[c.m.groupStart..c.m.groupEnd];
      assert Texts(gap) == s[from..c.m.start];
      var ms := MatchesOf(Chosen(s, from));
      assert ms[0] == c.m && ms[1..] == MatchesOf(Chosen(s, c.m.end));
    }
  }

  /** Every selected match removes at least two delimiter characters. */
  lemma {:induction false} ScanShortens(s: string, from: nat)
    requires from <= |s|
    ensures |Texts(Scan(s, from))| + 2 * |Chosen(s, from)| <= |s| - from
    decreases |s| - from
  {
    if from < |s| && Select(s, from).Some? {
      var c := Select(s, from).value;
      ScanShortens(s, c.m.end);
      var gap := if c.m.start > from then [Run(Gap, s[from..c.m.start])] else [];
      var styled := [Run(Styled(c.pat), s[c.m.groupStart..c.m.groupEnd])];
      TextsAppend(gap + styled, Scan(s, c.m.end));
      TextsAppend(gap, styled);
      assert Texts(styled) == s[c.m.groupStart..c.m.groupEnd];
      assert Texts(gap) == s[from..c.m.start];
    } else if from < |s| {
      assert Texts([Run(Rest, s[from..])]) == s[from..];
    }
  }

  /** The shape of a scan result, `(Gap? Styled)* Rest?`, with non-empty plain runs. */
  predicate WellShaped(runs: seq<Run>)
    decreases |runs|
  {
    if runs == [] then true
    else match runs[0].kind
      case Rest => |runs| == 1 && runs[0].text != []
      case Gap => runs[0].text != [] && |runs| >= 2 && runs[1].kind.Styled? && WellShaped(runs[1..])
      case Styled(_) => WellShaped(runs[1..])
  }

  /** Every scan result has that shape. */
  lemma {:induction false} ScanWellShaped(s: string, from: nat)
    requires from <= |s|
    ensures WellShaped(Scan(s, from))
    decreases |s| - from
  {
    if from < |s| && Select(s, from).Some? {
      var c := Select(s, from).value;
      ScanWellShaped(s, c.m.end);
      var styled := [Run(Styled(c.pat), s[c.m.groupStart..c.m.groupEnd])];
      var rest := Scan(s, c.m.end);
      assert (styled + rest)[1..] == rest;
      if c.m.start > from {
        var gap := [Run(Gap, s[from..c.m.start])];
        assert (gap + styled + rest)[1..] == styled + rest;
      }
    }
  }

  /** What the shape means position by position: plain runs are never empty, `Rest`
      is only ever the last run, and every `Gap` is directly followed by a styled run. */
  lemma {:induction false} WellShapedRuns(runs: seq<Run>)
    requires WellShaped(runs)
    ensures forall i :: 0 <= i < |runs| && IsPlain(runs[i].kind) ==> runs[i].text != []
    ensures forall i :: 0 <= i < |runs| && runs[i].kind == Rest ==> i == |runs| - 1
    ensures forall i :: 0 <= i < |runs| && runs[i].kind == Gap ==>
      i + 1 < |runs| && runs[i + 1].kind.Styled?
    decreases |runs|
  {
    if runs != [] && !runs[0].kind.Rest? {
      var tail := runs[1..];
      WellShapedRuns(tail);
      assert forall i :: 1 <= i < |runs| ==> runs[i] == tail[i - 1];
    }
  }

  /** A plain run contains no position at which any of the four patterns matches. */
  lemma PlainRunsHoldNoMarkup(s: string, from: nat, pat: Pattern, p: nat, q: nat)
    requires from < |s|
    requires Scan(s, from) != [] && IsPlain(Scan(s, from)[0].kind)
    requires from <= p < from + |Scan(s, from)[0].text|
    ensures !MatchesAt(pat, s, p, q)
  {
    NoMatchLeftOfSelection(s, from, pat, p, q);
  }

  /** Text in which none of `*`, `_`, `~` occurs comes back as one plain run. */
  lemma NoMarkupSingleRun(s: string)
    requires s != []
    requires forall k :: 0 <= k < |s| ==> s[k] != '*' && s[k] != '_' && s[k] != '~'
    ensures Scan(s, 0) == [Run(Rest, s)]
  {
    forall pat: Pattern ensures Find(pat, s, 0).None? {
      FindFindsNothing(pat, s, 0);
    }
    SelectIsEarliestFirst(s, 0, Bold);
  }

  /** The converse of Find's contract: the leftmost lazy match at or after `from` is
      what Find reports. */
  lemma FindFindsLeftmost(pat: Pattern, s: string, from: nat, m: Match)
    requires from <= m.start && IsLazyMatch(pat, s, m)
    requires forall p: nat, q: nat :: from <= p < m.start ==> !MatchesAt(pat, s, p, q)
    ensures Find(pat, s, from) == Some(m)
  {
    FindMeaning(pat, s, from);
    var r := Find(pat, s, from);
    assert r.Some?;
    assert MatchesAt(pat, s, r.value.start, r.value.groupEnd);
  }

  /** The converse of Find's contract: when no match starts at or after `from`, Find
      reports none. */
  lemma FindFindsNothing(pat: Pattern, s: string, from: nat)
    requires from <= |s|
    requires forall p: nat, q: nat :: from <= p ==> !MatchesAt(pat, s, p, q)
    ensures Find(pat, s, from) == None
  {
    FindMeaning(pat, s, from);
  }

  /** In `**x**` bold and italic both start at 0, and bold is listed first. */
  lemma BoldFirstMatch(s: string)
    requires s == "**x**"
    ensures Select(s, 0) == Some(Candidate(Bold, Match(0, 2, 3, 5)))
  {
    assert !Closes(Bold, s, 2);
    FindFindsLeftmost(Bold, s, 0, Match(0, 2, 3, 5));
    FindFindsLeftmost(Italic, s, 0, Match(0, 1, 1, 2));
    FindFindsNothing(BoldItalic, s, 0);
    FindFindsNothing(Strike, s, 0);
    assert Candidates(s, 0) == [Candidate(Bold, Match(0, 2, 3, 5)), Candidate(Italic, Match(0, 1, 1, 2))];
  }

  /** `**x**` is one bold run. */
  lemma BoldExample(s: string)
    requires s == "**x**"
    ensures Scan(s, 0) == [Run(Styled(Bold), "x")]
  {
    BoldFirstMatch(s);
    ScanStep(s, 0);
    assert Scan(s, 5) == [] && s[2..3] == "x";
  }

  /** In `**_x_**` the bold-italic, bold and italic patterns all start at 0. */
  lemma BoldItalicFirstMatch(s: string)
    requires s == "**_x_**"
    ensures Select(s, 0) == Some(Candidate(BoldItalic, Match(0, 3, 4, 7)))
  {
    assert !Closes(BoldItalic, s, 3);
    FindFindsLeftmost(BoldItalic, s, 0, Match(0, 3, 4, 7));
    assert !Closes(Bold, s, 2) && !Closes(Bold, s, 3) && !Closes(Bold, s, 4);
    FindFindsLeftmost(Bold, s, 0, Match(0, 2, 5, 7));
    FindFindsLeftmost(Italic, s, 0, Match(0, 1, 1, 2));
    FindFindsNothing(Strike, s, 0);
  }

  /** `**_x_**` is one bold-italic run, not a bold run around an italic one. */
  lemma BoldItalicExample(s: string)
    requires s == "**_x_**"
    ensures Scan(s, 0) == [Run(Styled(BoldItalic), "x")]
  {
    BoldItalicFirstMatch(s);
    ScanStep(s, 0);
    assert Scan(s, 7) == [] && s[3..4] == "x";
  }

  /** In `*a* and _b_` the scanner first selects `*a*`, */
  lemma ItalicsFirstMatch(s: string)
    requires s == "*a* and _b_"
    ensures Select(s, 0) == Some(Candidate(Italic, Match(0, 1, 2, 3)))
  {
    assert !Closes(Italic, s, 1);
    FindFindsLeftmost(Italic, s, 0, Match(0, 1, 2, 3));
    FindFindsNothing(BoldItalic, s, 0);
    FindFindsNothing(Bold, s, 0);
    FindFindsNothing(Strike, s, 0);
  }

  /** and then `_b_`, past the plain ` and `. */
  lemma ItalicsSecondMatch(s: string)
    requires s == "*a* and _b_"
    ensures Select(s, 3) == Some(Candidate(Italic, Match(8, 9, 10, 11)))
  {
    assert !Closes(Italic, s, 9);
    assert forall p :: 3 <= p < 8 ==> !Opens(Italic, s, p);
    FindFindsLeftmost(Italic, s, 3, Match(8, 9, 10, 11));
    FindFindsNothing(BoldItalic, s, 3);
    FindFindsNothing(Bold, s, 3);
    FindFindsNothing(Strike, s, 3);
  }

  /** Mixed italic delimiters around plain text give three runs. */
  lemma ItalicsExample(s: string)
    requires s == "*a* and _b_"
    ensures Scan(s, 0)
         == [Run(Styled(Italic), "a"), Run(Gap, " and "), Run(Styled(Italic), "b")]
  {
    ItalicsFirstMatch(s);
    ItalicsSecondMatch(s);
    ScanStep(s, 0);
    ScanStep(s, 3);
    assert Scan(s, 11) == [] && s[1..2] == "a" && s[3..8] == " and " && s[9..10] == "b";
    assert Scan(s, 3) == [Run(Gap, " and "), Run(Styled(Italic), "b")];
  }

  /** In `**not closed` only the italic pattern matches, with an empty group at 0, */
  lemma UnclosedBoldFirstMatch(s: string)
    requires s == "**not closed"
    ensures Select(s, 0) == Some(Candidate(Italic, Match(0, 1, 1, 2)))
  {
    assert forall k :: 2 <= k < |s| ==> s[k] != '*' && s[k] != '_' && s[k] != '~';
    FindFindsLeftmost(Italic, s, 0, Match(0, 1, 1, 2));
    FindFindsNothing(BoldItalic, s, 0);
    FindFindsNothing(Bold, s, 0);
    FindFindsNothing(Strike, s, 0);
  }

  /** and nothing matches after it. */
  lemma UnclosedBoldNoMoreMatches(s: string)
    requires s == "**not closed"
    ensures Select(s, 2) == None
  {
    assert forall k :: 2 <= k < |s| ==> s[k] != '*' && s[k] != '_' && s[k] != '~';
    FindFindsNothing(BoldItalic, s, 2);
    FindFindsNothing(Bold, s, 2);
    FindFindsNothing(Italic, s, 2);
    FindFindsNothing(Strike, s, 2);
  }

  /** An unclosed `**` is read by the italic pattern as an empty italic group. */
  lemma UnclosedBoldExample(s: string)
    requires s == "**not closed"
    ensures Scan(s, 0) == [Run(Styled(Italic), ""), Run(Rest, "not closed")]
  {
    UnclosedBoldFirstMatch(s);
    UnclosedBoldNoMoreMatches(s);
    ScanStep(s, 0);
    ScanStep(s, 2);
    assert s[1..1] == "" && s[2..] == "not closed";
  }
}
