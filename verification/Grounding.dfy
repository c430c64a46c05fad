/** Grounding a quote in a text: both are reduced to a compact comparison stream, the
    first match is located there and mapped back to the exact raw span. */
module Grounding {
  import opened Options
  import opened Utf8
  import opened Alignment
  import opened AlignmentLaws
  import opened Renormalization
  import opened NormalizedText

  /** The Unicode tables taken from libraries. */
  datatype Tables = Tables(
    nfkc: string -> seq<Emitted>,
    caseFold: char -> string,
    letter: char -> bool,
    number: char -> bool,
    mark: char -> bool)

  datatype GroundingMatch = GroundingMatch(normalized: Span, raw: Span, rawSpan: string)
  datatype Resolution = Found(m: GroundingMatch) | QuoteNotFound

  function Retained(t: Tables): char -> bool { c => t.letter(c) || t.number(c) || t.mark(c) }

  function Pipeline(t: Tables): seq<Transform> {
    [Nfkc(t.nfkc), Expansion(t.caseFold), Retain(Retained(t))]
  }

  function Compact(t: Tables, s: string): seq<Cell>
    requires Faithful(t.nfkc)
  {
    Run(s, Pipeline(t))
  }

  predicate Substantive(t: Tables, c: char) { t.letter(c) || t.number(c) }

  function SubstantiveLen(t: Tables, s: string): (n: nat)
    ensures n == 0 <==> forall i :: 0 <= i < |s| ==> !Substantive(t, s[i])
  {
    if s == [] then 0
    else SubstantiveLen(t, s[..|s| - 1]) + if Substantive(t, s[|s| - 1]) then 1 else 0
  }

  predicate Occurs(hay: string, needle: string, i: nat) {
    i + |needle| <= |hay| && hay[i..i + |needle|] == needle
  }

  ghost predicate FirstAt(hay: string, needle: string, i: nat) {
    Occurs(hay, needle, i) && forall k: nat :: k < i ==> !Occurs(hay, needle, k)
  }

  /** The first occurrence from `from` on. */
  function FirstIndex(hay: string, needle: string, from: nat): Option<nat>
    decreases |hay| + 1 - from
  {
    if from + |needle| > |hay| then None
    else if Occurs(hay, needle, from) then Some(from)
    else FirstIndex(hay, needle, from + 1)
  }

  lemma {:induction false} FirstIndexIs(hay: string, needle: string, from: nat)
    requires forall k: nat :: k < from ==> !Occurs(hay, needle, k)
    ensures var r := FirstIndex(hay, needle, from);
      if r.Some? then FirstAt(hay, needle, r.value) else forall i: nat :: !Occurs(hay, needle, i)
    decreases |hay| + 1 - from
  {
    if from + |needle| <= |hay| && !Occurs(hay, needle, from) { FirstIndexIs(hay, needle, from + 1); }
  }

  method Find(hay: string, needle: string) returns (r: Option<nat>)
    ensures r == FirstIndex(hay, needle, 0)
  {
    var i := 0;
    while i + |needle| <= |hay|
      invariant FirstIndex(hay, needle, 0) == FirstIndex(hay, needle, i)
    {
      if hay[i..i + |needle|] == needle {
        return Some(i);
      }
      i := i + 1;
    }
    return None;
  }

  /** What a resolution promises about the text `s` with these compact cells and the compact
      quote `q`. */
  ghost predicate ResolvesIn(t: Tables, s: string, cells: seq<Cell>, q: string, r: Resolution) {
    match r
    case QuoteNotFound => SubstantiveLen(t, q) == 0 || forall i: nat :: !Occurs(Text(cells), q, i)
    case Found(m) =>
      && 0 < SubstantiveLen(t, q)
      && Sliceable(s, m.raw.start, m.raw.end) && m.rawSpan == Slice(s, m.raw.start, m.raw.end)
      && exists i: nat :: MatchAt(s, cells, q, m, i)
  }

  ghost predicate Resolves(t: Tables, s: string, q: string, r: Resolution)
    requires Faithful(t.nfkc)
  {
    ResolvesIn(t, s, Compact(t, s), q, r)
  }

  ghost predicate MatchAt(s: string, cells: seq<Cell>, q: string, m: GroundingMatch, i: nat) {
    && FirstAt(Text(cells), q, i)
    && m.normalized == RangeAt(Text(cells), q, i)
    && SpliceCells(s, cells, m.normalized.start, m.normalized.end) == Some(m.raw)
  }

  /** The normalised range of a match at character `i`. */
  function RangeAt(text: string, q: string, i: nat): Span
    requires i + |q| <= |text|
  {
    Span(Off(text, i), Off(text, i + |q|))
  }

  /** That match, mapped back to `s`. */
  function Mapped(s: string, cells: seq<Cell>, range: Span): Resolution {
    var raw := SpliceCells(s, cells, range.start, range.end);
    if raw.None? || !Sliceable(s, raw.value.start, raw.value.end) then QuoteNotFound
    else Found(GroundingMatch(range, raw.value, Slice(s, raw.value.start, raw.value.end)))
  }

  /** The first occurrence of `q` in the compact cells, mapped back to `s`. */
  function Located(s: string, cells: seq<Cell>, q: string): Resolution {
    var at := FirstIndex(Text(cells), q, 0);
    if at.None? || at.value + |q| > |cells| then QuoteNotFound
    else Mapped(s, cells, RangeAt(Text(cells), q, at.value))
  }

  lemma {:induction false} RangeInBounds(text: string, q: string, i: nat)
    requires i + |q| <= |text|
    ensures RangeAt(text, q, i).start <= RangeAt(text, q, i).end <= Bytes(text)
  {
    OffStrict(text, i, i + |q|);
    OffStrict(text, i + |q|, |text|);
    OffEnds(text);
  }

  /** A range in bounds maps back to a slice. */
  lemma {:induction false} MappedFound(s: string, cells: seq<Cell>, range: Span)
    requires range.start <= range.end <= Bytes(Text(cells))
    ensures var r := Mapped(s, cells, range);
      WellAligned(s, cells) ==>
      && r.Found? && r.m.normalized == range && SpliceCells(s, cells, range.start, range.end) == Some(r.m.raw)
      && Sliceable(s, r.m.raw.start, r.m.raw.end) && r.m.rawSpan == Slice(s, r.m.raw.start, r.m.raw.end)
  {
    if WellAligned(s, cells) { SpliceSliceable(s, cells, range.start, range.end); }
  }

  /** Mapping a first occurrence back is a resolution. */
  lemma {:induction false} MappedResolves(t: Tables, s: string, cells: seq<Cell>, q: string, i: nat)
    requires i + |q| <= |cells| && 0 < SubstantiveLen(t, q)
    ensures WellAligned(s, cells) && FirstAt(Text(cells), q, i) ==>
      ResolvesIn(t, s, cells, q, Mapped(s, cells, RangeAt(Text(cells), q, i)))
  {
    var range := RangeAt(Text(cells), q, i);
    RangeInBounds(Text(cells), q, i);
    MappedFound(s, cells, range);
    if WellAligned(s, cells) && FirstAt(Text(cells), q, i) {
      assert MatchAt(s, cells, q, Mapped(s, cells, range).m, i);
    }
  }

  lemma {:induction false} LocatedResolves(t: Tables, s: string, cells: seq<Cell>, q: string)
    requires WellAligned(s, cells) && 0 < SubstantiveLen(t, q)
    ensures ResolvesIn(t, s, cells, q, Located(s, cells, q))
  {
    var at := FirstIndex(Text(cells), q, 0);
    FirstIndexIs(Text(cells), q, 0);
    if at.Some? { MappedResolves(t, s, cells, q, at.value); }
  }

  /** Finds a compact quote in a compact text and maps the match back. */
  method Locate(compact: NormalizedString, q: string) returns (r: Resolution)
    requires compact.Valid()
    ensures r == Located(compact.original, compact.cells, q)
  {
    var text := compact.normalized;
    var at := Find(text, q);
    if at.None? {
      return QuoteNotFound;
    }
    FirstIndexFits(text, q, 0);
    var range := RangeAt(text, q, at.value);
    var raw := compact.SpliceRangeOriginal(range.start, range.end);
    if raw.None? {
      return QuoteNotFound;
    }
    return Found(GroundingMatch(range, raw.value, Slice(compact.original, raw.value.start, raw.value.end)));
  }

  lemma {:induction false} FirstIndexFits(hay: string, needle: string, from: nat)
    ensures var r := FirstIndex(hay, needle, from); r.Some? ==> r.value + |needle| <= |hay|
    decreases |hay| + 1 - from
  {
    if from + |needle| <= |hay| { FirstIndexFits(hay, needle, from + 1); }
  }

  class GroundingText {
    const tables: Tables
    const compact: NormalizedString
    const substantiveLen: nat

    ghost predicate Valid()
      reads this, compact
    {
      && Faithful(tables.nfkc) && compact.Valid()
      && compact.cells == Compact(tables, compact.original)
      && substantiveLen == SubstantiveLen(tables, compact.normalized)
    }

    constructor New(t: Tables, text: string)
      requires Faithful(t.nfkc) && Bytes(text) < U32_LIMIT
      ensures Valid() && fresh(compact) && tables == t && compact.original == text
    {
      var n := new NormalizedString.From(text);
      ghost var c0 := n.cells;
      n.NfkcChars(t.nfkc(n.normalized));
      ghost var c1 := n.cells;
      n.FlatMapChars(t.caseFold);
      ghost var c2 := n.cells;
      n.RetainChars(Retained(t));
      PipelineSteps(t, text, c0, c1, c2);
      tables, compact, substantiveLen := t, n, SubstantiveLen(t, n.normalized);
    }

    method Resolve(quote: string) returns (r: Resolution)
      requires Valid() && Bytes(quote) < U32_LIMIT
      ensures Resolves(tables, compact.original, Text(Compact(tables, quote)), r)
    {
      var q := new GroundingText.New(tables, quote);
      if q.substantiveLen == 0 {
        return QuoteNotFound;
      }
      r := ResolveCompact(q);
    }

    method ResolveCompact(quote: GroundingText) returns (r: Resolution)
      requires Valid() && quote.Valid() && quote.tables == tables && 0 < quote.substantiveLen
      ensures Resolves(tables, compact.original, quote.compact.normalized, r)
    {
      r := Locate(compact, quote.compact.normalized);
      LocatedResolves(tables, compact.original, compact.cells, quote.compact.normalized);
    }
  }

  lemma {:induction false} PipelineSteps(t: Tables, text: string, c0: seq<Cell>, c1: seq<Cell>, c2: seq<Cell>)
    requires Faithful(t.nfkc)
    requires c0 == Run(text, []) && c1 == Compose(t.nfkc(Text(c0)), c0) && c2 == Apply(Expansion(t.caseFold), c1)
    ensures Apply(Retain(Retained(t)), c2) == Compact(t, text)
  {
    ThreeSteps(text, Nfkc(t.nfkc), Expansion(t.caseFold), Retain(Retained(t)), c0, c1, c2);
  }

  lemma {:induction false} ThreeSteps(
    s: string, x: Transform, y: Transform, z: Transform, c0: seq<Cell>, c1: seq<Cell>, c2: seq<Cell>)
    requires Legal(x) && Legal(y) && Legal(z)
    requires c0 == Identity(s) && c1 == Apply(x, c0) && c2 == Apply(y, c1)
    ensures Apply(z, c2) == Run(s, [x, y, z])
  {
    RunThree(s, [x, y, z]);
  }
}
