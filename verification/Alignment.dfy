/** The value-level meaning of alignment tracking: a normalised text is a list of
    cells, each a character with the original byte range it owns.  Every transform
    is a function on cells; this module proves what every chain of them keeps. */
module Alignment {
  import opened Utf8

  datatype Span = Span(start: nat, end: nat)
  datatype Cell = Cell(c: char, span: Span)

  /** One item of the NFKC stream: a character and how the count of source characters
      differs from one (0: one for one, -n: n more absorbed, positive: inserted). */
  datatype Emitted = Emitted(c: char, diff: int)

  datatype Transform =
    | Fold(f: char -> char)
    | Expansion(g: char -> string)
    | Retain(p: char -> bool)
    | Collapse
    | Nfkc(stream: string -> seq<Emitted>)

  function Text(cells: seq<Cell>): (s: string)
    ensures |s| == |cells|
    ensures forall i {:trigger s[i]} :: 0 <= i < |s| ==> s[i] == cells[i].c
  {
    seq(|cells|, i requires 0 <= i < |cells| => cells[i].c)
  }

  function Repeat(sp: Span, n: nat): (r: seq<Span>)
    ensures |r| == n && forall i :: 0 <= i < n ==> r[i] == sp
  {
    seq(n, _ => sp)
  }

  /** The stored form: one span per byte of the text. */
  function Expand(cells: seq<Cell>): seq<Span> {
    if cells == [] then []
    else
      var last := cells[|cells| - 1];
      Expand(cells[..|cells| - 1]) + Repeat(last.span, LenUtf8(last.c))
  }

  // ---- Transforms ---------------------------------------------------------

  function Identity(s: string): (cells: seq<Cell>)
    ensures |cells| == |s|
    ensures forall i {:trigger cells[i]} :: 0 <= i < |s| ==> cells[i] == Cell(s[i], Span(Off(s, i), Off(s, i + 1)))
  {
    seq(|s|, i requires 0 <= i < |s| => Cell(s[i], Span(Off(s, i), Off(s, i + 1))))
  }

  function Single(f: char -> char): char -> string { c => [f(c)] }

  function Filter(p: char -> bool): char -> string { c => if p(c) then [c] else [] }

  /** Every character of `text` owning the same span. */
  function Stamp(text: string, sp: Span): (cells: seq<Cell>)
    ensures |cells| == |text|
    ensures forall i {:trigger cells[i]} :: 0 <= i < |text| ==> cells[i] == Cell(text[i], sp)
  {
    seq(|text|, i requires 0 <= i < |text| => Cell(text[i], sp))
  }

  function FlatMap(g: char -> string, cells: seq<Cell>): seq<Cell> {
    if cells == [] then []
    else
      var last := cells[|cells| - 1];
      FlatMap(g, cells[..|cells| - 1]) + Stamp(g(last.c), last.span)
  }

  /** The Unicode White_Space property, as `char::is_whitespace` tests it. */
  predicate IsWhitespace(c: char) {
    var n := c as int;
    || 0x09 <= n <= 0x0D || n == 0x20 || n == 0x85 || n == 0xA0 || n == 0x1680
    || 0x2000 <= n <= 0x200A || n == 0x2028 || n == 0x2029 || n == 0x202F || n == 0x205F
    || n == 0x3000
  }

  const WHITE_SPACE := {
    '\t', '\n', '\U{B}', '\U{C}', '\r', ' ', '\U{85}', '\U{A0}', '\U{1680}', '\U{2000}', '\U{2001}', '\U{2002}',
    '\U{2003}', '\U{2004}', '\U{2005}', '\U{2006}', '\U{2007}', '\U{2008}', '\U{2009}', '\U{200A}', '\U{2028}',
    '\U{2029}', '\U{202F}', '\U{205F}', '\U{3000}'
  }

  /** These are all 25 characters of the property. */
  lemma {:induction false} WhitespaceIs(c: char)
    ensures IsWhitespace(c) <==> c in WHITE_SPACE
  {
  }

  /** Character `i` continues a whitespace run, so collapsing absorbs it. */
  predicate Absorbed(s: string, i: nat)
    requires i < |s|
  {
    0 < i && IsWhitespace(s[i - 1]) && IsWhitespace(s[i])
  }

  function Max(a: nat, b: nat): nat { if a < b then b else a }

  function ExtendLast(cells: seq<Cell>, end: nat): seq<Cell>
    requires cells != []
  {
    var k := |cells| - 1;
    cells[k := cells[k].(span := Span(cells[k].span.start, Max(cells[k].span.end, end)))]
  }

  function Shown(c: char): char { if IsWhitespace(c) then ' ' else c }

  function CollapseRuns(cells: seq<Cell>): (out: seq<Cell>)
    ensures cells != [] ==> out != []
  {
    if cells == [] then []
    else
      var n := |cells| - 1;
      var out := CollapseRuns(cells[..n]);
      if Absorbed(Text(cells), n) then ExtendLast(out, cells[n].span.end)
      else out + [Cell(Shown(cells[n].c), cells[n].span)]
  }

  /** Source characters one stream item consumes. */
  function Takes(diff: int): nat {
    if diff == 0 then 1 else if diff < 0 then 1 - diff else 0
  }

  function Consumed(out: seq<Emitted>): nat {
    if out == [] then 0 else Consumed(out[..|out| - 1]) + Takes(out[|out| - 1].diff)
  }

  /** The span of a stream item that takes `n` cells from `pos`, after `done`: all that the
      taken cells own, or its predecessor's span when it takes none. */
  function ItemSpan(done: seq<Cell>, cells: seq<Cell>, pos: nat, n: nat): Span
    requires pos + n <= |cells|
  {
    if 0 < n then Span(cells[pos].span.start, cells[pos + n - 1].span.end)
    else if done == [] then Span(0, 0)
    else done[|done| - 1].span
  }

  function Compose(out: seq<Emitted>, cells: seq<Cell>): (r: seq<Cell>)
    requires Consumed(out) <= |cells|
    ensures |r| == |out|
  {
    if out == [] then []
    else
      var k := |out| - 1;
      var done, pos := Compose(out[..k], cells), Consumed(out[..k]);
      done + [Cell(out[k].c, ItemSpan(done, cells, pos, Takes(out[k].diff)))]
  }

  /** What is taken from the NFKC library: its stream consumes its input exactly. */
  ghost predicate Faithful(stream: string -> seq<Emitted>) {
    forall s :: Consumed(stream(s)) == |s|
  }

  ghost predicate Legal(t: Transform) { t.Nfkc? ==> Faithful(t.stream) }

  function Apply(t: Transform, cells: seq<Cell>): seq<Cell>
    requires Legal(t)
  {
    match t
    case Fold(f) => FlatMap(Single(f), cells)
    case Expansion(g) => FlatMap(g, cells)
    case Retain(p) => FlatMap(Filter(p), cells)
    case Collapse => CollapseRuns(cells)
    case Nfkc(stream) => Compose(stream(Text(cells)), cells)
  }

  ghost predicate AllLegal(ts: seq<Transform>) { forall t <- ts :: Legal(t) }

  /** A chain of transforms on `s`, first to last. */
  function Run(s: string, ts: seq<Transform>): seq<Cell>
    requires AllLegal(ts)
  {
    if ts == [] then Identity(s)
    else Apply(ts[|ts| - 1], Run(s, ts[..|ts| - 1]))
  }

  // ---- Invariant of every chain -------------------------------------------

  predicate ValidSpan(original: string, sp: Span) {
    sp.start <= sp.end <= Bytes(original) && IsBoundary(original, sp.start) && IsBoundary(original, sp.end)
  }

  predicate Precedes(a: Span, b: Span) { a.start <= b.start && a.end <= b.end }

  /** Spans lie on character boundaries of the original and never go backwards. */
  ghost predicate WellAligned(original: string, cells: seq<Cell>) {
    && (forall i :: 0 <= i < |cells| ==> ValidSpan(original, cells[i].span))
    && (forall i, j :: 0 <= i < j < |cells| ==> Precedes(cells[i].span, cells[j].span))
  }

  ghost predicate Below(cells: seq<Cell>, sp: Span) {
    forall i :: 0 <= i < |cells| ==> Precedes(cells[i].span, sp)
  }

  lemma {:induction false} IdentityAligned(s: string)
    ensures WellAligned(s, Identity(s))
  {
    var cells := Identity(s);
    OffEnds(s);
    forall i | 0 <= i < |cells| ensures ValidSpan(s, cells[i].span) {
      OffIsBoundary(s, i);
      OffIsBoundary(s, i + 1);
      OffStrict(s, i, i + 1);
      OffStrict(s, i + 1, |s|);
    }
    forall i, j | 0 <= i < j < |cells| ensures Precedes(cells[i].span, cells[j].span) {
      OffStrict(s, i, j);
      OffStrict(s, i + 1, j + 1);
    }
  }

  lemma {:induction false} AppendAligned(original: string, cells: seq<Cell>, cell: Cell)
    requires WellAligned(original, cells)
    requires ValidSpan(original, cell.span) && Below(cells, cell.span)
    ensures WellAligned(original, cells + [cell]) && Below(cells + [cell], cell.span)
  {
  }

  lemma {:induction false} StampAligned(original: string, cells: seq<Cell>, text: string, sp: Span)
    requires WellAligned(original, cells) && ValidSpan(original, sp) && Below(cells, sp)
    ensures WellAligned(original, cells + Stamp(text, sp)) && Below(cells + Stamp(text, sp), sp)
  {
  }

  lemma {:induction false} ExtendAligned(original: string, cells: seq<Cell>, sp: Span)
    requires cells != [] && WellAligned(original, cells) && ValidSpan(original, sp) && Below(cells, sp)
    ensures WellAligned(original, ExtendLast(cells, sp.end)) && Below(ExtendLast(cells, sp.end), sp)
  {
  }

  /** Cutting off the last cell: what stays is aligned and lies below it. */
  lemma {:induction false} InitAligned(original: string, cells: seq<Cell>)
    requires cells != [] && WellAligned(original, cells)
    ensures var n := |cells| - 1;
      && WellAligned(original, cells[..n]) && ValidSpan(original, cells[n].span)
      && (0 < n ==> cells[..n][n - 1] == cells[n - 1] && Precedes(cells[n - 1].span, cells[n].span))
  {
  }

  lemma {:induction false} BelowTrans(cells: seq<Cell>, a: Span, b: Span)
    requires Below(cells, a) && Precedes(a, b)
    ensures Below(cells, b)
  {
  }

  lemma {:induction false} FlatMapAligned(original: string, g: char -> string, cells: seq<Cell>)
    requires WellAligned(original, cells)
    ensures WellAligned(original, FlatMap(g, cells))
    ensures cells != [] ==> Below(FlatMap(g, cells), cells[|cells| - 1].span)
  {
    if cells != [] {
      var n := |cells| - 1;
      InitAligned(original, cells);
      FlatMapAligned(original, g, cells[..n]);
      if 0 < n { BelowTrans(FlatMap(g, cells[..n]), cells[n - 1].span, cells[n].span); }
      StampAligned(original, FlatMap(g, cells[..n]), g(cells[n].c), cells[n].span);
    }
  }

  lemma {:induction false} CollapseAligned(original: string, cells: seq<Cell>)
    requires WellAligned(original, cells)
    ensures WellAligned(original, CollapseRuns(cells))
    ensures cells != [] ==> Below(CollapseRuns(cells), cells[|cells| - 1].span)
  {
    if cells != [] {
      var n := |cells| - 1;
      var out := CollapseRuns(cells[..n]);
      InitAligned(original, cells);
      CollapseAligned(original, cells[..n]);
      if 0 < n { BelowTrans(out, cells[n - 1].span, cells[n].span); }
      if Absorbed(Text(cells), n) {
        ExtendAligned(original, out, cells[n].span);
      } else {
        AppendAligned(original, out, Cell(Shown(cells[n].c), cells[n].span));
      }
    }
  }

  /** How far the first `pos` cells reach. */
  function Reach(cells: seq<Cell>, pos: nat): Span
    requires pos <= |cells|
  {
    if pos == 0 then Span(0, 0) else cells[pos - 1].span
  }

  lemma {:induction false} ItemAligned(original: string, done: seq<Cell>, cells: seq<Cell>, pos: nat, n: nat)
    requires WellAligned(original, cells) && WellAligned(original, done)
    requires pos + n <= |cells| && Below(done, Reach(cells, pos))
    ensures var sp := ItemSpan(done, cells, pos, n);
      ValidSpan(original, sp) && Below(done, sp) && Precedes(sp, Reach(cells, pos + n))
  {
    assert ValidSpan(original, Span(0, 0)) by { OffIsBoundary(original, 0); OffEnds(original); }
    if 0 < n {
      var a, z := cells[pos].span, cells[pos + n - 1].span;
      assert ValidSpan(original, a) && ValidSpan(original, z);
      assert Precedes(a, z) && Precedes(Reach(cells, pos), a);
    }
  }

  lemma {:induction false} ComposeAligned(original: string, out: seq<Emitted>, cells: seq<Cell>)
    requires WellAligned(original, cells) && Consumed(out) <= |cells|
    ensures WellAligned(original, Compose(out, cells))
    ensures Below(Compose(out, cells), Reach(cells, Consumed(out)))
  {
    if out != [] {
      var k := |out| - 1;
      var done, pos, n := Compose(out[..k], cells), Consumed(out[..k]), Takes(out[k].diff);
      ComposeAligned(original, out[..k], cells);
      ItemAligned(original, done, cells, pos, n);
      var sp := ItemSpan(done, cells, pos, n);
      AppendAligned(original, done, Cell(out[k].c, sp));
      BelowTrans(done + [Cell(out[k].c, sp)], sp, Reach(cells, pos + n));
    }
  }

  /** Every chain of transforms, whatever the folds, filters and NFKC stream are. */
  lemma {:induction false} ChainAligned(s: string, ts: seq<Transform>)
    requires AllLegal(ts)
    ensures WellAligned(s, Run(s, ts))
  {
    if ts == [] {
      IdentityAligned(s);
    } else {
      var k := |ts| - 1;
      ChainAligned(s, ts[..k]);
      var cells := Run(s, ts[..k]);
      match ts[k]
      case Fold(f) => FlatMapAligned(s, Single(f), cells);
      case Expansion(g) => FlatMapAligned(s, g, cells);
      case Retain(p) => FlatMapAligned(s, Filter(p), cells);
      case Collapse => CollapseAligned(s, cells);
      case Nfkc(stream) =>
        assert Legal(ts[k]);
        ComposeAligned(s, stream(Text(cells)), cells);
    }
  }
}
