/** Laws of mapping a normalised range back to the original text: the range can be
    sliced, it leaves no gap, and normalising it again gives the matched text. */
module AlignmentLaws {
  import opened Options
  import opened Utf8
  import opened Alignment

  /** The original byte range to splice over for the normalised byte range `[a, b)`. */
  function Splice(spans: seq<Span>, originalLen: nat, a: nat, b: nat): Option<Span> {
    if a > b || b > |spans| then None
    else if a == b then
      var pos := if a < |spans| then spans[a].start else originalLen;
      Some(Span(pos, pos))
    else Some(Span(spans[a].start, spans[b - 1].end))
  }

  function SpliceCells(original: string, cells: seq<Cell>, a: nat, b: nat): Option<Span> {
    Splice(Expand(cells), Bytes(original), a, b)
  }

  // ---- Stored spans against cells -----------------------------------------

  lemma {:induction false} ExpandLength(cells: seq<Cell>)
    ensures |Expand(cells)| == Bytes(Text(cells))
  {
    if cells != [] {
      var n := |cells| - 1;
      ExpandLength(cells[..n]);
      assert Text(cells)[..n] == Text(cells[..n]);
    }
  }

  /** Every byte of a character carries that character's span. */
  lemma {:induction false} ExpandAt(cells: seq<Cell>, i: nat, b: nat)
    requires i < |cells| && Off(Text(cells), i) <= b < Off(Text(cells), i + 1)
    ensures b < |Expand(cells)| && Expand(cells)[b] == cells[i].span
  {
    var n := |cells| - 1;
    var t, init := Text(cells), cells[..n];
    ExpandLength(init);
    assert t[..n] == Text(init);
    assert forall k :: 0 <= k <= n ==> t[..k] == Text(init)[..k];
    OffStep(t, n);
    if i < n {
      ExpandAt(init, i, b);
    }
  }

  /** The character that holds byte `b`. */
  lemma {:induction false} FindChar(s: string, b: nat) returns (i: nat)
    requires b < Bytes(s)
    ensures i < |s| && Off(s, i) <= b < Off(s, i + 1)
  {
    i := 0;
    OffEnds(s);
    while Off(s, i + 1) <= b
      invariant i < |s| && Off(s, i) <= b
      decreases |s| - i
    {
      i := i + 1;
    }
  }

  lemma {:induction false} SpanAt(original: string, cells: seq<Cell>, b: nat) returns (i: nat)
    requires WellAligned(original, cells) && b < Bytes(Text(cells))
    ensures i < |cells| && Off(Text(cells), i) <= b < Off(Text(cells), i + 1)
    ensures b < |Expand(cells)| && Expand(cells)[b] == cells[i].span && ValidSpan(original, cells[i].span)
  {
    i := FindChar(Text(cells), b);
    ExpandAt(cells, i, b);
  }

  /** A range is refused exactly when it is reversed or out of bounds; any other range,
      even one cutting a character, gives an original range that can be sliced. */
  lemma {:induction false} SpliceSliceable(original: string, cells: seq<Cell>, a: nat, b: nat)
    requires WellAligned(original, cells)
    ensures SpliceCells(original, cells, a, b).None? <==> a > b || b > Bytes(Text(cells))
    ensures var r := SpliceCells(original, cells, a, b);
      r.Some? ==> Sliceable(original, r.value.start, r.value.end)
  {
    ExpandLength(cells);
    if a < b <= Bytes(Text(cells)) {
      var i := SpanAt(original, cells, a);
      var j := SpanAt(original, cells, b - 1);
      assert i <= j by { if j < i { OffStrict(Text(cells), j + 1, i); } }
    } else if a == b < Bytes(Text(cells)) {
      var i := SpanAt(original, cells, a);
    }
  }

  /** On whole characters the splice runs from the first cell's start to the last's end. */
  lemma {:induction false} SpliceChars(original: string, cells: seq<Cell>, i: nat, j: nat)
    requires i < j <= |cells|
    ensures SpliceCells(original, cells, Off(Text(cells), i), Off(Text(cells), j))
         == Some(Span(cells[i].span.start, cells[j - 1].span.end))
  {
    var t := Text(cells);
    OffStrict(t, i, j);
    OffStrict(t, i, i + 1);
    OffStrict(t, j - 1, j);
    ExpandAt(cells, i, Off(t, i));
    ExpandAt(cells, j - 1, Off(t, j) - 1);
  }

  /** An empty range splices at the start of the character behind it, or at the end. */
  lemma {:induction false} SpliceEmpty(original: string, cells: seq<Cell>, i: nat)
    requires i <= |cells|
    ensures var at := if i < |cells| then cells[i].span.start else Bytes(original);
      SpliceCells(original, cells, Off(Text(cells), i), Off(Text(cells), i)) == Some(Span(at, at))
  {
    var t := Text(cells);
    ExpandLength(cells);
    OffEnds(t);
    OffStrict(t, i, |t|);
    if i < |cells| {
      OffStrict(t, i, i + 1);
      ExpandAt(cells, i, Off(t, i));
    }
  }

  // ---- No gaps ------------------------------------------------------------

  /** Cells own the original from its first byte to its last, without a hole. */
  ghost predicate GapFree(originalLen: nat, cells: seq<Cell>) {
    && (cells == [] ==> originalLen == 0)
    && (cells != [] ==> cells[0].span.start == 0 && cells[|cells| - 1].span.end == originalLen)
    && (forall i :: 0 < i < |cells| ==> cells[i].span.start <= cells[i - 1].span.end)
  }

  ghost predicate Lossless(t: Transform) {
    match t
    case Retain(_) => false
    case Expansion(g) => forall c :: g(c) != ""
    case _ => true
  }

  /** Prefixes of a gap-free text are gap-free up to where they stop. */
  lemma {:induction false} GapFreePrefix(originalLen: nat, cells: seq<Cell>, n: nat)
    requires GapFree(originalLen, cells) && n <= |cells|
    ensures GapFree(if n == 0 then 0 else cells[n - 1].span.end, cells[..n])
  {
  }

  lemma {:induction false} StampGapFree(len: nat, cells: seq<Cell>, text: string, sp: Span)
    requires GapFree(len, cells) && text != "" && sp.start <= len && sp.start <= sp.end
    ensures GapFree(sp.end, cells + Stamp(text, sp))
  {
  }

  lemma {:induction false} FlatMapGapFree(original: string, originalLen: nat, g: char -> string, cells: seq<Cell>)
    requires GapFree(originalLen, cells) && WellAligned(original, cells)
    requires forall c :: g(c) != ""
    ensures GapFree(originalLen, FlatMap(g, cells))
  {
    if cells != [] {
      var n := |cells| - 1;
      GapFreePrefix(originalLen, cells, n);
      var len := if n == 0 then 0 else cells[n - 1].span.end;
      InitAligned(original, cells);
      FlatMapGapFree(original, len, g, cells[..n]);
      assert cells[n].span.start <= len;
      StampGapFree(len, FlatMap(g, cells[..n]), g(cells[n].c), cells[n].span);
    }
  }

  lemma {:induction false} CollapseGapFree(original: string, originalLen: nat, cells: seq<Cell>)
    requires GapFree(originalLen, cells) && WellAligned(original, cells)
    ensures GapFree(originalLen, CollapseRuns(cells))
  {
    if cells != [] {
      var n := |cells| - 1;
      GapFreePrefix(originalLen, cells, n);
      CollapseGapFree(original, if n == 0 then 0 else cells[n - 1].span.end, cells[..n]);
    }
  }

  lemma {:induction false} GapFreeSnoc(len: nat, cells: seq<Cell>, cell: Cell)
    requires GapFree(len, cells) && cell.span.start <= len
    ensures GapFree(cell.span.end, cells + [cell])
  {
  }

  lemma {:induction false} ComposeGapFree(original: string, originalLen: nat, out: seq<Emitted>, cells: seq<Cell>)
    requires GapFree(originalLen, cells) && WellAligned(original, cells) && Consumed(out) <= |cells|
    ensures GapFree(Reach(cells, Consumed(out)).end, Compose(out, cells))
  {
    if out != [] {
      var k := |out| - 1;
      var done, pos, n := Compose(out[..k], cells), Consumed(out[..k]), Takes(out[k].diff);
      ComposeGapFree(original, originalLen, out[..k], cells);
      ComposeAligned(original, out[..k], cells);
      ItemAligned(original, done, cells, pos, n);
      var sp := ItemSpan(done, cells, pos, n);
      assert sp.start <= Reach(cells, pos).end;
      GapFreeSnoc(Reach(cells, pos).end, done, Cell(out[k].c, sp));
    }
  }

  lemma {:induction false} ApplyGapFree(original: string, t: Transform, cells: seq<Cell>)
    requires Legal(t) && Lossless(t)
    requires WellAligned(original, cells) && GapFree(Bytes(original), cells)
    ensures GapFree(Bytes(original), Apply(t, cells))
  {
    match t
    case Fold(f) => FlatMapGapFree(original, Bytes(original), Single(f), cells);
    case Expansion(g) => FlatMapGapFree(original, Bytes(original), g, cells);
    case Retain(_) => assert false;
    case Collapse => CollapseGapFree(original, Bytes(original), cells);
    case Nfkc(stream) => ComposeGapFree(original, Bytes(original), stream(Text(cells)), cells);
  }

  /** Without filtering, no chain of transforms leaves an original byte unowned. */
  lemma {:induction false} ChainGapFree(s: string, ts: seq<Transform>)
    requires AllLegal(ts) && forall t <- ts :: Lossless(t)
    ensures GapFree(Bytes(s), Run(s, ts))
  {
    if ts == [] {
      OffEnds(s);
    } else {
      var k := |ts| - 1;
      ChainGapFree(s, ts[..k]);
      ChainAligned(s, ts[..k]);
      ApplyGapFree(s, ts[k], Run(s, ts[..k]));
    }
  }

  /** So the whole text splices to the whole original, and two neighbouring ranges
      splice to ranges with nothing between them. */
  lemma {:induction false} SpliceCovers(s: string, ts: seq<Transform>, i: nat, j: nat, k: nat)
    requires AllLegal(ts) && forall t <- ts :: Lossless(t)
    requires i < j < k <= |Run(s, ts)|
    ensures var cells, t := Run(s, ts), Text(Run(s, ts));
      && SpliceCells(s, cells, 0, Bytes(t)) == Some(Span(0, Bytes(s)))
      && var left, right := SpliceCells(s, cells, Off(t, i), Off(t, j)), SpliceCells(s, cells, Off(t, j), Off(t, k));
      && left.Some? && right.Some? && right.value.start <= left.value.end
  {
    var cells := Run(s, ts);
    ChainGapFree(s, ts);
    OffEnds(Text(cells));
    SpliceChars(s, cells, 0, |cells|);
    SpliceChars(s, cells, i, j);
    SpliceChars(s, cells, j, k);
  }
}
