/** The alignment-tracked string itself: an immutable original, and a normalised text
    with one span per byte that every transform rebuilds in a loop.  Each method is
    proved against the cell-level transform of the same name. */
module NormalizedText {
  import opened Options
  import opened Utf8
  import opened Alignment
  import opened AlignmentLaws
  import opened TransformLaws

  const U32_LIMIT: nat := 0x1_0000_0000

  /** `n as u32`, which drops the high bits. */
  function AsU32(n: nat): (r: nat)
    ensures n < U32_LIMIT ==> r == n
  {
    n % 0x1_0000_0000
  }

  function Min(a: nat, b: nat): nat { if a <= b then a else b }

  function QuoteFold(c: char): char {
    if 0x2018 <= c as int <= 0x201B then '\'' else if 0x201C <= c as int <= 0x201F then '\"' else c
  }

  function DashFold(c: char): char {
    if 0x2010 <= c as int <= 0x2015 || c as int == 0x2212 then '-' else c
  }

  function SpaceFold(c: char): char {
    var n := c as int;
    if n == 0xA0 || 0x2002 <= n <= 0x200A || n == 0x202F || n == 0x205F || n == 0x3000 then ' ' else c
  }

  const SINGLE_QUOTES := {'\U{2018}', '\U{2019}', '\U{201A}', '\U{201B}'}
  const DOUBLE_QUOTES := {'\U{201C}', '\U{201D}', '\U{201E}', '\U{201F}'}
  const DASHES := {'\U{2010}', '\U{2011}', '\U{2012}', '\U{2013}', '\U{2014}', '\U{2015}', '\U{2212}'}
  const SPACES := {
    '\U{00A0}', '\U{2002}', '\U{2003}', '\U{2004}', '\U{2005}', '\U{2006}', '\U{2007}', '\U{2008}', '\U{2009}',
    '\U{200A}', '\U{202F}', '\U{205F}', '\U{3000}'
  }

  /** `b` is `a` with its character, where it is among `from`, shown as `to`. */
  predicate FoldsTo(a: Cell, b: Cell, from: set<char>, to: char) {
    b.span == a.span && (a.c in from ==> b.c == to)
  }

  predicate FoldsQuotes(a: Cell, b: Cell) {
    && FoldsTo(a, b, SINGLE_QUOTES, '\'') && FoldsTo(a, b, DOUBLE_QUOTES, '\"')
    && (a.c !in SINGLE_QUOTES + DOUBLE_QUOTES ==> b == a)
  }

  predicate FoldsDashes(a: Cell, b: Cell) { FoldsTo(a, b, DASHES, '-') && (a.c !in DASHES ==> b == a) }

  predicate FoldsSpaces(a: Cell, b: Cell) { FoldsTo(a, b, SPACES, ' ') && (a.c !in SPACES ==> b == a) }

  lemma {:induction false} FoldTables(c: char, sp: Span)
    ensures FoldsQuotes(Cell(c, sp), Cell(QuoteFold(c), sp))
    ensures FoldsDashes(Cell(c, sp), Cell(DashFold(c), sp))
    ensures FoldsSpaces(Cell(c, sp), Cell(SpaceFold(c), sp))
  {
  }

  // ---- Steps of the loops -------------------------------------------------

  lemma {:induction false} PushCell(out: seq<Cell>, cell: Cell)
    ensures Text(out + [cell]) == Text(out) + [cell.c]
    ensures Expand(out + [cell]) == Expand(out) + Repeat(cell.span, LenUtf8(cell.c))
  {
    assert (out + [cell])[..|out|] == out;
  }

  lemma {:induction false} IdentityText(s: string)
    ensures Text(Identity(s)) == s && Identity(s)[..|s|] == Identity(s)
  {
  }

  lemma {:induction false} IdentityNext(s: string, k: nat)
    requires k < |s| && Bytes(s) < U32_LIMIT
    ensures Off(s, k + 1) == Off(s, k) + LenUtf8(s[k])
    ensures Off(s, k + 1) < U32_LIMIT
    ensures Expand(Identity(s)[..k + 1])
         == Expand(Identity(s)[..k]) + Repeat(Span(Off(s, k), Off(s, k + 1)), LenUtf8(s[k]))
  {
    OffStep(s, k);
    OffStrict(s, k + 1, |s|);
    OffEnds(s);
    ExpandNext(Identity(s), k);
  }

  lemma {:induction false} ExpandNext(cells: seq<Cell>, k: nat)
    requires k < |cells|
    ensures Expand(cells[..k + 1]) == Expand(cells[..k]) + Repeat(cells[k].span, LenUtf8(cells[k].c))
  {
    assert cells[..k + 1] == cells[..k] + [cells[k]];
    PushCell(cells[..k], cells[k]);
  }

  /** The span read at a character's first byte is that character's span. */
  lemma {:induction false} SpanAtChar(cells: seq<Cell>, k: nat)
    requires k < |cells|
    ensures Off(Text(cells), k) < |Expand(cells)| && Expand(cells)[Off(Text(cells), k)] == cells[k].span
    ensures Off(Text(cells), k + 1) == Off(Text(cells), k) + LenUtf8(cells[k].c)
  {
    OffStep(Text(cells), k);
    ExpandAt(cells, k, Off(Text(cells), k));
  }

  lemma {:induction false} FlatMapNext(g: char -> string, cells: seq<Cell>, k: nat)
    requires k < |cells|
    ensures FlatMap(g, cells[..k + 1]) == FlatMap(g, cells[..k]) + Stamp(g(cells[k].c), cells[k].span)
  {
    assert cells[..k + 1][..k] == cells[..k];
  }

  /** What the stored text and spans gain when a cell maps to one character or none. */
  lemma {:induction false} FlatMapPush(g: char -> string, cells: seq<Cell>, k: nat)
    requires k < |cells| && |g(cells[k].c)| <= 1
    ensures var out, next, t := FlatMap(g, cells[..k]), FlatMap(g, cells[..k + 1]), g(cells[k].c);
      if t == [] then next == out
      else Text(next) == Text(out) + t && Expand(next) == Expand(out) + Repeat(cells[k].span, LenUtf8(t[0]))
  {
    FlatMapNext(g, cells, k);
    var out, t := FlatMap(g, cells[..k]), g(cells[k].c);
    if t == [] {
      assert Stamp(t, cells[k].span) == [];
    } else {
      assert Stamp(t, cells[k].span) == [Cell(t[0], cells[k].span)];
      PushCell(out, Cell(t[0], cells[k].span));
    }
  }

  /** The stamped characters pushed one at a time. */
  lemma {:induction false} StampNext(out: seq<Cell>, text: string, sp: Span, m: nat)
    requires m < |text|
    ensures Text(out + Stamp(text, sp)[..m + 1]) == Text(out + Stamp(text, sp)[..m]) + [text[m]]
    ensures Expand(out + Stamp(text, sp)[..m + 1])
         == Expand(out + Stamp(text, sp)[..m]) + Repeat(sp, LenUtf8(text[m]))
  {
    var done := out + Stamp(text, sp)[..m];
    assert out + Stamp(text, sp)[..m + 1] == done + [Cell(text[m], sp)];
    PushCell(done, Cell(text[m], sp));
  }

  lemma {:induction false} StampEnds(out: seq<Cell>, text: string, sp: Span)
    ensures out + Stamp(text, sp)[..0] == out
    ensures out + Stamp(text, sp)[..|text|] == out + Stamp(text, sp)
  {
  }

  lemma {:induction false} ExpandExtend(out: seq<Cell>, end: nat)
    requires out != []
    ensures var last := out[|out| - 1];
      var keep := |Expand(out)| - LenUtf8(last.c);
      && 0 <= keep && Expand(out)[keep..] == Repeat(last.span, LenUtf8(last.c))
      && Expand(ExtendLast(out, end)) ==
           Expand(out)[..keep] + Repeat(Span(last.span.start, Max(last.span.end, end)), LenUtf8(last.c))
      && Text(ExtendLast(out, end)) == Text(out)
  {
    var n := |out| - 1;
    assert ExtendLast(out, end)[..n] == out[..n];
  }

  /** One more cell behind collapsed ones: absorbed into the last, or shown on its own. */
  ghost function Collapsing(out: seq<Cell>, absorbed: bool, cell: Cell): (r: seq<Cell>)
    requires absorbed ==> out != []
    ensures r != []
  {
    if absorbed then ExtendLast(out, cell.span.end) else out + [Cell(Shown(cell.c), cell.span)]
  }

  lemma {:induction false} CollapseNext(cells: seq<Cell>, k: nat)
    requires k < |cells|
    ensures var out := CollapseRuns(cells[..k]);
      var absorbed := 0 < k && IsWhitespace(cells[k - 1].c) && IsWhitespace(cells[k].c);
      && (0 < k ==> out != [])
      && CollapseRuns(cells[..k + 1]) == Collapsing(out, absorbed, cells[k])
  {
    assert cells[..k + 1][..k] == cells[..k];
  }

  lemma {:induction false} ConsumedPrefix(out: seq<Emitted>, m: nat)
    requires m <= |out|
    ensures Consumed(out[..m]) <= Consumed(out)
    decreases |out|
  {
    if m < |out| {
      var k := |out| - 1;
      assert out[..k][..m] == out[..m];
      ConsumedPrefix(out[..k], m);
    } else {
      assert out[..m] == out;
    }
  }

  lemma {:induction false} ComposeNext(out: seq<Emitted>, cells: seq<Cell>, m: nat)
    requires m < |out| && Consumed(out) <= |cells|
    ensures Consumed(out[..m]) <= Consumed(out[..m + 1]) == Consumed(out[..m]) + Takes(out[m].diff) <= |cells|
    ensures var done, next := Compose(out[..m], cells), Compose(out[..m + 1], cells);
      && next[m].span == ItemSpan(done, cells, Consumed(out[..m]), Takes(out[m].diff))
      && Text(next) == Text(done) + [out[m].c]
      && Expand(next) == Expand(done) + Repeat(next[m].span, LenUtf8(out[m].c))
  {
    ConsumedPrefix(out, m + 1);
    assert out[..m + 1][..m] == out[..m];
    var done, next := Compose(out[..m], cells), Compose(out[..m + 1], cells);
    assert next == done + [Cell(out[m].c, next[m].span)];
    PushCell(done, Cell(out[m].c, next[m].span));
  }

  /** Stored spans never go backwards, byte by byte. */
  lemma {:induction false} SpansAscend(original: string, cells: seq<Cell>, x: nat, y: nat)
    requires WellAligned(original, cells) && x <= y < Bytes(Text(cells))
    ensures y < |Expand(cells)| && Precedes(Expand(cells)[x], Expand(cells)[y])
  {
    var i := SpanAt(original, cells, x);
    var j := SpanAt(original, cells, y);
    if j < i { OffStrict(Text(cells), j + 1, i); }
  }

  lemma {:induction false} HullChars(cells: seq<Cell>, i: nat, j: nat)
    requires i < j <= |cells|
    ensures Off(Text(cells), i) < Off(Text(cells), j) <= |Expand(cells)|
    ensures Expand(cells)[Off(Text(cells), i)] == cells[i].span
    ensures Expand(cells)[Off(Text(cells), j) - 1] == cells[j - 1].span
  {
    OffStrict(Text(cells), i, j);
    OffStep(Text(cells), j - 1);
    SpanAtChar(cells, i);
    ExpandAt(cells, j - 1, Off(Text(cells), j) - 1);
  }

  lemma {:induction false} LastSpan(cells: seq<Cell>)
    ensures cells == [] <==> Expand(cells) == []
    ensures cells != [] ==> Expand(cells)[|Expand(cells)| - 1] == cells[|cells| - 1].span
  {
  }

  // ---- The loops ----------------------------------------------------------

  /** `text` and `spans` are the stored form of `cells`. */
  ghost predicate Stores(cells: seq<Cell>, text: string, spans: seq<Span>) {
    text == Text(cells) && spans == Expand(cells)
  }

  method MapLoop(text: string, spans: seq<Span>, f: char -> char, ghost cells: seq<Cell>)
    returns (newText: string, newSpans: seq<Span>)
    requires Stores(cells, text, spans)
    ensures Stores(FlatMap(Single(f), cells), newText, newSpans)
  {
    newText, newSpans := [], [];
    var bytePos := 0;
    for k := 0 to |text|
      invariant bytePos == Off(text, k)
      invariant Stores(FlatMap(Single(f), cells[..k]), newText, newSpans)
    {
      SpanAtChar(cells, k);
      FlatMapPush(Single(f), cells, k);
      var span, c := spans[bytePos], f(text[k]);
      newText := newText + [c];
      newSpans := newSpans + Repeat(span, LenUtf8(c));
      bytePos := bytePos + LenUtf8(text[k]);
    }
    assert cells[..|cells|] == cells;
  }

  method RetainLoop(text: string, spans: seq<Span>, p: char -> bool, ghost cells: seq<Cell>)
    returns (newText: string, newSpans: seq<Span>)
    requires Stores(cells, text, spans)
    ensures Stores(FlatMap(Filter(p), cells), newText, newSpans)
  {
    newText, newSpans := [], [];
    var bytePos := 0;
    for k := 0 to |text|
      invariant bytePos == Off(text, k)
      invariant Stores(FlatMap(Filter(p), cells[..k]), newText, newSpans)
    {
      SpanAtChar(cells, k);
      FlatMapPush(Filter(p), cells, k);
      var span, c := spans[bytePos], text[k];
      if p(c) {
        newText := newText + [c];
        newSpans := newSpans + Repeat(span, LenUtf8(c));
      }
      bytePos := bytePos + LenUtf8(c);
    }
    assert cells[..|cells|] == cells;
  }

  method FlatMapLoop(text: string, spans: seq<Span>, g: char -> string, ghost cells: seq<Cell>)
    returns (newText: string, newSpans: seq<Span>)
    requires Stores(cells, text, spans)
    ensures Stores(FlatMap(g, cells), newText, newSpans)
  {
    newText, newSpans := [], [];
    var bytePos := 0;
    for k := 0 to |text|
      invariant bytePos == Off(text, k)
      invariant Stores(FlatMap(g, cells[..k]), newText, newSpans)
    {
      SpanAtChar(cells, k);
      FlatMapNext(g, cells, k);
      var span, mapped := spans[bytePos], g(text[k]);
      ghost var done := FlatMap(g, cells[..k]);
      StampEnds(done, mapped, span);
      for m := 0 to |mapped|
        invariant Stores(done + Stamp(mapped, span)[..m], newText, newSpans)
      {
        StampNext(done, mapped, span, m);
        newText := newText + [mapped[m]];
        newSpans := newSpans + Repeat(span, LenUtf8(mapped[m]));
      }
      bytePos := bytePos + LenUtf8(text[k]);
    }
    assert cells[..|cells|] == cells;
  }

  /** Extends the end of the last `n` entries to at least `end`, in place. */
  method ExtendTail(s: seq<Span>, n: nat, ghost sp: Span, end: nat) returns (r: seq<Span>)
    requires n <= |s| && s[|s| - n..] == Repeat(sp, n)
    ensures r == s[..|s| - n] + Repeat(Span(sp.start, Max(sp.end, end)), n)
  {
    r := s;
    var lo := |s| - n;
    for i := lo to |s|
      invariant r == s[..lo] + Repeat(Span(sp.start, Max(sp.end, end)), i - lo) + s[i..]
    {
      assert r[i] == s[i] == s[lo..][i - lo] == sp;
      r := r[i := Span(r[i].start, Max(r[i].end, end))];
    }
  }

  /** One character: absorbed into what was emitted last, or emitted. */
  method CollapseStep(
    c: char, span: Span, prevWs: bool, lastEmittedBytes: nat, text: string, spans: seq<Span>, ghost out: seq<Cell>)
    returns (newText: string, newSpans: seq<Span>, emittedBytes: nat)
    requires Stores(out, text, spans) && (prevWs ==> out != [])
    requires out != [] ==> lastEmittedBytes == LenUtf8(out[|out| - 1].c)
    ensures var next := Collapsing(out, prevWs && IsWhitespace(c), Cell(c, span));
      Stores(next, newText, newSpans) && emittedBytes == LenUtf8(next[|next| - 1].c)
    ensures newText == text + if !IsWhitespace(c) then [c] else if prevWs then [] else [' ']
  {
    newText, newSpans, emittedBytes := text, spans, lastEmittedBytes;
    if IsWhitespace(c) && prevWs {
      ExpandExtend(out, span.end);
      if 0 < lastEmittedBytes {
        newSpans := ExtendTail(spans, lastEmittedBytes, out[|out| - 1].span, span.end);
      }
    } else {
      var shown := if IsWhitespace(c) then ' ' else c;
      PushCell(out, Cell(shown, span));
      newText := text + [shown];
      newSpans := spans + Repeat(span, LenUtf8(shown));
      emittedBytes := LenUtf8(shown);
    }
  }

  method CollapseLoop(text: string, spans: seq<Span>, ghost cells: seq<Cell>)
    returns (newText: string, newSpans: seq<Span>)
    requires Stores(cells, text, spans)
    ensures Stores(CollapseRuns(cells), newText, newSpans) && SingleSpaced(newText)
  {
    CollapseSpaces(cells);
    newText, newSpans := [], [];
    var bytePos, prevWs, lastEmittedBytes := 0, false, 0;
    ghost var out: seq<Cell> := [];
    for k := 0 to |text|
      invariant bytePos == Off(text, k) && out == CollapseRuns(cells[..k])
      invariant Stores(out, newText, newSpans)
      invariant prevWs == (0 < k && IsWhitespace(text[k - 1]))
      invariant out != [] ==> lastEmittedBytes == LenUtf8(out[|out| - 1].c)
    {
      SpanAtChar(cells, k);
      CollapseNext(cells, k);
      var c, span := text[k], spans[bytePos];
      newText, newSpans, lastEmittedBytes := CollapseStep(c, span, prevWs, lastEmittedBytes, newText, newSpans, out);
      out := Collapsing(out, prevWs && IsWhitespace(c), Cell(c, span));
      prevWs := IsWhitespace(c);
      bytePos := bytePos + LenUtf8(c);
    }
    assert cells[..|cells|] == cells;
  }

  /** The hull of the spans of bytes `[lo, hi)`: least start, greatest end. */
  method Hull(spans: seq<Span>, lo: nat, hi: nat) returns (sp: Span)
    requires lo < hi <= |spans|
    requires forall x, y :: 0 <= x <= y < |spans| ==> Precedes(spans[x], spans[y])
    ensures sp == Span(spans[lo].start, spans[hi - 1].end)
  {
    var minStart, maxEnd := spans[lo].start, spans[lo].end;
    for i := lo + 1 to hi
      invariant minStart == spans[lo].start && maxEnd == spans[i - 1].end
    {
      minStart := Min(minStart, spans[i].start);
      maxEnd := Max(maxEnd, spans[i].end);
    }
    sp := Span(minStart, maxEnd);
  }

  /** The span of one stream item, and the position after what it consumes. */
  method NextItem(text: string, spans: seq<Span>, newSpans: seq<Span>, diff: int, charPos: nat, bytePos: nat,
                  ghost cells: seq<Cell>, ghost done: seq<Cell>)
    returns (span: Span, nextChar: nat, nextByte: nat)
    requires Stores(cells, text, spans) && charPos + Takes(diff) <= |text| && bytePos == Off(text, charPos)
    requires newSpans == Expand(done)
    requires forall x, y :: 0 <= x <= y < |spans| ==> Precedes(spans[x], spans[y])
    ensures nextChar == charPos + Takes(diff) && nextByte == Off(text, nextChar)
    ensures span == ItemSpan(done, cells, charPos, Takes(diff))
  {
    nextChar, nextByte := charPos, bytePos;
    var n := if diff == 0 then 1 else if diff < 0 then 1 + (-diff) else 0;
    for j := 0 to n
      invariant nextChar == charPos + j && nextByte == Off(text, nextChar)
    {
      OffStep(text, nextChar);
      nextByte := nextByte + LenUtf8(text[nextChar]);
      nextChar := nextChar + 1;
    }
    OffStrict(text, charPos, nextChar);
    if nextByte > bytePos {
      HullChars(cells, charPos, nextChar);
      span := Hull(spans, bytePos, nextByte);
    } else {
      LastSpan(done);
      span := if newSpans == [] then Span(0, 0) else newSpans[|newSpans| - 1];
    }
  }

  method NfkcLoop(text: string, spans: seq<Span>, out: seq<Emitted>, ghost cells: seq<Cell>)
    returns (newText: string, newSpans: seq<Span>)
    requires Stores(cells, text, spans) && Consumed(out) <= |text|
    requires forall x, y :: 0 <= x <= y < |spans| ==> Precedes(spans[x], spans[y])
    ensures Stores(Compose(out, cells), newText, newSpans)
  {
    newText, newSpans := [], [];
    var bytePos, charPos := 0, 0;
    for m := 0 to |out|
      invariant charPos == Consumed(out[..m]) <= |cells|
      invariant bytePos == Off(text, charPos)
      invariant Stores(Compose(out[..m], cells), newText, newSpans)
    {
      ComposeNext(out, cells, m);
      var span;
      span, charPos, bytePos :=
        NextItem(text, spans, newSpans, out[m].diff, charPos, bytePos, cells, Compose(out[..m], cells));
      newText := newText + [out[m].c];
      newSpans := newSpans + Repeat(span, LenUtf8(out[m].c));
    }
    assert out[..|out|] == out;
  }

  class NormalizedString {
    const original: string
    var normalized: string
    var spans: seq<Span>
    /** The abstract value: each normalised character with the span it owns. */
    ghost var cells: seq<Cell>

    ghost predicate Valid()
      reads this
    {
      Stores(cells, normalized, spans) && WellAligned(original, cells)
    }

    /** `original` fits the four-gigabyte ceiling of 32-bit spans. */
    constructor From(s: string)
      requires Bytes(s) < U32_LIMIT
      ensures Valid() && original == s && cells == Run(s, [])
    {
      var built, bytePos := [], 0;
      for k := 0 to |s|
        invariant bytePos == Off(s, k)
        invariant built == Expand(Identity(s)[..k])
      {
        IdentityNext(s, k);
        var n := LenUtf8(s[k]);
        built := built + Repeat(Span(AsU32(bytePos), AsU32(bytePos + n)), n);
        bytePos := bytePos + n;
      }
      IdentityText(s);
      IdentityAligned(s);
      original, normalized, spans := s, s, built;
      cells := Identity(s);
    }

    /** The original range for a normalised byte range. */
    method SpliceRangeOriginal(a: nat, b: nat) returns (r: Option<Span>)
      requires Valid()
      ensures r == SpliceCells(original, cells, a, b)
      ensures r.None? <==> a > b || b > Bytes(normalized)
      ensures r.Some? ==> Sliceable(original, r.value.start, r.value.end)
    {
      SpliceSliceable(original, cells, a, b);
      if a > b {
        return None;
      }
      if b > |spans| {
        return None;
      }
      if a == b {
        var pos := if a < |spans| then spans[a].start else Bytes(original);
        return Some(Span(pos, pos));
      }
      r := Some(Span(spans[a].start, spans[b - 1].end));
    }

    method MapChars(f: char -> char)
      requires Valid()
      modifies this
      ensures Valid() && cells == Apply(Fold(f), old(cells)) && |cells| == old(|cells|)
      ensures forall i :: 0 <= i < |cells| ==> cells[i] == Cell(f(old(cells)[i].c), old(cells)[i].span)
    {
      SingleMap(f, cells);
      normalized, spans := MapLoop(normalized, spans, f, cells);
      FlatMapAligned(original, Single(f), cells);
      cells := FlatMap(Single(f), cells);
    }

    method AsciiQuotes()
      requires Valid()
      modifies this
      ensures Valid() && cells == Apply(Fold(QuoteFold), old(cells)) && |cells| == old(|cells|)
      ensures forall i :: 0 <= i < |cells| ==> FoldsQuotes(old(cells)[i], cells[i])
    {
      MapChars(QuoteFold);
      forall c, sp { FoldTables(c, sp); }
    }

    method AsciiDashes()
      requires Valid()
      modifies this
      ensures Valid() && cells == Apply(Fold(DashFold), old(cells)) && |cells| == old(|cells|)
      ensures forall i :: 0 <= i < |cells| ==> FoldsDashes(old(cells)[i], cells[i])
    {
      MapChars(DashFold);
      forall c, sp { FoldTables(c, sp); }
    }

    method AsciiSpaces()
      requires Valid()
      modifies this
      ensures Valid() && cells == Apply(Fold(SpaceFold), old(cells)) && |cells| == old(|cells|)
      ensures forall i :: 0 <= i < |cells| ==> FoldsSpaces(old(cells)[i], cells[i])
    {
      MapChars(SpaceFold);
      forall c, sp { FoldTables(c, sp); }
    }

    method RetainChars(p: char -> bool)
      requires Valid()
      modifies this
      ensures Valid() && cells == Apply(Retain(p), old(cells))
      ensures exists at :: Selects(p, old(cells), cells, at)
    {
      ghost var at := RetainShows(p, cells);
      normalized, spans := RetainLoop(normalized, spans, p, cells);
      FlatMapAligned(original, Filter(p), cells);
      cells := FlatMap(Filter(p), cells);
    }

    /** Case folding is this method with the library's per-character expansion. */
    method FlatMapChars(g: char -> string)
      requires Valid()
      modifies this
      ensures Valid() && cells == Apply(Expansion(g), old(cells))
      ensures exists cuts :: ExpandsTo(g, old(cells), cells, cuts)
    {
      ghost var cuts := FlatMapShows(g, cells);
      normalized, spans := FlatMapLoop(normalized, spans, g, cells);
      FlatMapAligned(original, g, cells);
      cells := FlatMap(g, cells);
    }

    method CollapseWhitespaceRuns()
      requires Valid()
      modifies this
      ensures Valid() && cells == Apply(Collapse, old(cells)) && SingleSpaced(normalized)
      ensures exists cuts :: CollapsesTo(old(cells), cells, cuts)
    {
      ghost var cuts := CollapseShows(cells);
      CollapseSpaces(cells);
      normalized, spans := CollapseLoop(normalized, spans, cells);
      CollapseAligned(original, cells);
      cells := CollapseRuns(cells);
    }

    /** `out` is what the NFKC library emits for the current text. */
    method NfkcChars(out: seq<Emitted>)
      requires Valid() && Consumed(out) <= |normalized|
      modifies this
      ensures Valid() && cells == Compose(out, old(cells))
      ensures exists cuts :: ComposesTo(old(cells), out, cells, cuts)
    {
      ghost var cuts := ComposeShows(out, cells);
      ExpandLength(cells);
      forall x, y | 0 <= x <= y < |spans| ensures Precedes(spans[x], spans[y]) {
        SpansAscend(original, cells, x, y);
      }
      normalized, spans := NfkcLoop(normalized, spans, out, cells);
      ComposeAligned(original, out, cells);
      cells := Compose(out, cells);
    }
  }
}
