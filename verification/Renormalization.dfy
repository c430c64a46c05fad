/** Local re-normalisation: normalising only the original slice that a match maps to
    reproduces the match.  Text-level reference definitions come first, independent of
    spans; the cell-level transforms are then proved against them. */
module Renormalization {
  import opened Options
  import opened Utf8
  import opened Alignment
  import opened AlignmentLaws
  import opened TransformLaws

  // ---- Text-level references ----------------------------------------------

  function Spread(g: char -> string, s: string): string {
    if s == [] then [] else Spread(g, s[..|s| - 1]) + g(s[|s| - 1])
  }

  /** Runs of whitespace become one space. */
  function Squeeze(s: string): string {
    if s == [] then []
    else
      var n := |s| - 1;
      Squeeze(s[..n]) + if Absorbed(s, n) then [] else [Shown(s[n])]
  }

  function FoldChar(fs: seq<char -> char>, c: char): char {
    if fs == [] then c else fs[|fs| - 1](FoldChar(fs[..|fs| - 1], c))
  }

  function FoldText(fs: seq<char -> char>, s: string): (r: string)
    ensures |r| == |s| && forall i {:trigger r[i]} :: 0 <= i < |s| ==> r[i] == FoldChar(fs, s[i])
  {
    seq(|s|, i requires 0 <= i < |s| => FoldChar(fs, s[i]))
  }

  lemma {:induction false} FoldTextSlice(fs: seq<char -> char>, s: string, lo: nat, hi: nat)
    requires lo <= hi <= |s|
    ensures FoldText(fs, s[lo..hi]) == FoldText(fs, s)[lo..hi]
  {
  }

  lemma {:induction false} Thirds(s: string, i: nat, j: nat)
    requires i <= j <= |s|
    ensures s == s[..i] + s[i..j] + s[j..]
  {
  }

  lemma {:induction false} SpreadConcat(g: char -> string, s: string, t: string)
    ensures Spread(g, s + t) == Spread(g, s) + Spread(g, t)
  {
    if t == [] {
      assert s + t == s;
    } else {
      var n := |t| - 1;
      assert (s + t)[..|s + t| - 1] == s + t[..n];
      SpreadConcat(g, s, t[..n]);
    }
  }

  lemma {:induction false} SqueezeSnoc(t: string, c: char)
    ensures Squeeze(t + [c]) == Squeeze(t) + if Absorbed(t + [c], |t|) then [] else [Shown(c)]
  {
    assert (t + [c])[..|t|] == t;
  }

  /** Squeezing splits at any point that does not cut a run. */
  lemma {:induction false} SqueezeConcat(s: string, t: string)
    requires s == [] || t == [] || !IsWhitespace(s[|s| - 1]) || !IsWhitespace(t[0])
    ensures Squeeze(s + t) == Squeeze(s) + Squeeze(t)
  {
    if t == [] {
      assert s + t == s;
    } else {
      var n := |t| - 1;
      var init, c := t[..n], t[n];
      assert t == init + [c] && s + t == (s + init) + [c];
      SqueezeConcat(s, init);
      assert Absorbed(s + t, |s| + n) == Absorbed(t, n);
      SqueezeSnoc(init, c);
      SqueezeSnoc(s + init, c);
    }
  }

  lemma {:induction false} SqueezeMonotone(s: string, i: nat, j: nat)
    requires i <= j <= |s|
    ensures |Squeeze(s[..i])| <= |Squeeze(s[..j])|
    decreases j
  {
    if i < j {
      SqueezeMonotone(s, i, j - 1);
      assert s[..j][..j - 1] == s[..j - 1];
    }
  }

  // ---- Cells against text -------------------------------------------------

  lemma {:induction false} FlatMapText(g: char -> string, cells: seq<Cell>)
    ensures Text(FlatMap(g, cells)) == Spread(g, Text(cells))
  {
    if cells != [] {
      var n := |cells| - 1;
      FlatMapText(g, cells[..n]);
      assert Text(cells)[..n] == Text(cells[..n]);
    }
  }

  lemma {:induction false} CollapseText(cells: seq<Cell>)
    ensures Text(CollapseRuns(cells)) == Squeeze(Text(cells))
  {
    if cells != [] {
      var n := |cells| - 1;
      CollapseText(cells[..n]);
      assert Text(cells)[..n] == Text(cells[..n]);
    }
  }

  lemma {:induction false} FlatMapConcat(g: char -> string, a: seq<Cell>, b: seq<Cell>)
    ensures FlatMap(g, a + b) == FlatMap(g, a) + FlatMap(g, b)
  {
    if b == [] {
      assert a + b == a;
    } else {
      var n := |b| - 1;
      assert a + b == (a + b[..n]) + [b[n]];
      FlatMapSnoc(g, a + b[..n], b[n]);
      assert b == b[..n] + [b[n]];
      FlatMapSnoc(g, b[..n], b[n]);
      FlatMapConcat(g, a, b[..n]);
    }
  }

  lemma {:induction false} FlatMapSnoc(g: char -> string, cells: seq<Cell>, cell: Cell)
    ensures FlatMap(g, cells + [cell]) == FlatMap(g, cells) + Stamp(g(cell.c), cell.span)
  {
    assert (cells + [cell])[..|cells|] == cells;
  }

  lemma {:induction false} FlatMapStamp(g: char -> string, s: string, sp: Span)
    ensures FlatMap(g, Stamp(s, sp)) == Stamp(Spread(g, s), sp)
  {
    if s != [] {
      var n := |s| - 1;
      assert Stamp(s, sp)[..n] == Stamp(s[..n], sp);
      FlatMapStamp(g, s[..n], sp);
    }
  }

  function Then(g: char -> string, h: char -> string): char -> string { c => Spread(h, g(c)) }

  /** Two passes of per-character expansion are one. */
  lemma {:induction false} FlatMapFuse(g: char -> string, h: char -> string, cells: seq<Cell>)
    ensures FlatMap(h, FlatMap(g, cells)) == FlatMap(Then(g, h), cells)
  {
    if cells != [] {
      var n := |cells| - 1;
      FlatMapFuse(g, h, cells[..n]);
      FlatMapConcat(h, FlatMap(g, cells[..n]), Stamp(g(cells[n].c), cells[n].span));
      FlatMapStamp(h, g(cells[n].c), cells[n].span);
    }
  }

  // ---- Folds and whitespace collapse --------------------------------------

  function Folds(fs: seq<char -> char>): (ts: seq<Transform>)
    ensures |ts| == |fs| && forall i {:trigger ts[i]} :: 0 <= i < |fs| ==> ts[i] == Fold(fs[i])
  {
    seq(|fs|, i requires 0 <= i < |fs| => Fold(fs[i]))
  }

  /** The normalisation under study: any folds, then whitespace collapse. */
  function FoldAndCollapse(fs: seq<char -> char>): (ts: seq<Transform>)
    ensures AllLegal(ts)
  {
    Folds(fs) + [Collapse]
  }

  lemma {:induction false} FoldsRun(s: string, fs: seq<char -> char>)
    ensures |Run(s, Folds(fs))| == |s|
    ensures forall i {:trigger Run(s, Folds(fs))[i]} :: 0 <= i < |s| ==>
      Run(s, Folds(fs))[i] == Cell(FoldChar(fs, s[i]), Span(Off(s, i), Off(s, i + 1)))
  {
    if fs != [] {
      var k := |fs| - 1;
      FoldsRun(s, fs[..k]);
      assert Folds(fs)[..k] == Folds(fs[..k]);
      SingleMap(fs[k], Run(s, Folds(fs[..k])));
    }
  }

  lemma {:induction false} RunSnoc(s: string, ts: seq<Transform>, t: Transform)
    requires AllLegal(ts) && Legal(t)
    ensures AllLegal(ts + [t]) && Run(s, ts + [t]) == Apply(t, Run(s, ts))
  {
    assert (ts + [t])[..|ts|] == ts;
  }

  lemma {:induction false} RunTwo(s: string, ts: seq<Transform>)
    requires |ts| == 2 && AllLegal(ts)
    ensures Run(s, ts) == Apply(ts[1], Apply(ts[0], Identity(s)))
  {
    assert ts == ts[..1] + [ts[1]] && ts[..1] == [] + [ts[0]];
    RunSnoc(s, [], ts[0]);
    RunSnoc(s, ts[..1], ts[1]);
  }

  lemma {:induction false} RunThree(s: string, ts: seq<Transform>)
    requires |ts| == 3 && AllLegal(ts)
    ensures Run(s, ts) == Apply(ts[2], Apply(ts[1], Apply(ts[0], Identity(s))))
  {
    assert ts == ts[..2] + [ts[2]];
    RunTwo(s, ts[..2]);
    RunSnoc(s, ts[..2], ts[2]);
  }

  lemma {:induction false} FoldsText(s: string, fs: seq<char -> char>)
    ensures Text(Run(s, Folds(fs))) == FoldText(fs, s)
  {
    FoldsRun(s, fs);
  }

  /** Collapsing comes last. */
  lemma {:induction false} FoldAndCollapseRun(s: string, fs: seq<char -> char>)
    ensures Run(s, FoldAndCollapse(fs)) == CollapseRuns(Run(s, Folds(fs)))
  {
    RunSnoc(s, Folds(fs), Collapse);
  }

  lemma {:induction false} FoldAndCollapseText(s: string, fs: seq<char -> char>)
    ensures Text(Run(s, FoldAndCollapse(fs))) == Squeeze(FoldText(fs, s))
  {
    FoldAndCollapseRun(s, fs);
    FoldsText(s, fs);
    CollapseText(Run(s, Folds(fs)));
  }

  /** `[lo, hi)` is the maximal run of `t` that squeezes to output character `k`. */
  ghost predicate RunAt(t: string, k: nat, lo: nat, hi: nat) {
    && lo < hi <= |t|
    && !Absorbed(t, lo) && (hi < |t| ==> !Absorbed(t, hi))
    && |Squeeze(t[..lo])| == k && |Squeeze(t[..hi])| == k + 1
  }

  /** Past a point that is not absorbed there is at least one more output character. */
  lemma {:induction false} SqueezeGrows(t: string, hi: nat)
    requires hi < |t| && !Absorbed(t, hi)
    ensures |Squeeze(t[..hi])| < |Squeeze(t)|
  {
    var u := t[..hi];
    assert t[..hi + 1] == u + [t[hi]] && t[..|t|] == t;
    assert !Absorbed(u + [t[hi]], |u|);
    SqueezeSnoc(u, t[hi]);
    SqueezeMonotone(t, hi + 1, |t|);
  }

  lemma {:induction false} RunAtGrow(t: string, k: nat, lo: nat, hi: nat)
    requires RunAt(t, k, lo, hi)
    ensures if hi < |t| then k + 1 < |Squeeze(t)| else k + 1 == |Squeeze(t)|
  {
    if hi < |t| {
      SqueezeGrows(t, hi);
    } else {
      assert t[..hi] == t;
    }
  }

  lemma {:induction false} RunAtExtend(t: string, c: char, k: nat, lo: nat, hi: nat)
    requires RunAt(t, k, lo, hi)
    ensures RunAt(t + [c], k, lo, if hi == |t| && Absorbed(t + [c], |t|) then hi + 1 else hi)
  {
    var u := t + [c];
    assert u[..lo] == t[..lo] && u[..hi] == t[..hi];
    assert Absorbed(u, lo) == Absorbed(t, lo);
    if hi < |t| {
      assert Absorbed(u, hi) == Absorbed(t, hi);
    } else if Absorbed(u, hi) {
      assert u[..hi + 1] == u && t[..hi] == t;
      SqueezeSnoc(t, c);
    }
  }

  lemma {:induction false} RunAtLast(t: string, c: char)
    requires !Absorbed(t + [c], |t|)
    ensures RunAt(t + [c], |Squeeze(t)|, |t|, |t| + 1)
  {
    assert (t + [c])[..|t|] == t && (t + [c])[..|t| + 1] == t + [c];
    SqueezeSnoc(t, c);
  }

  /** Collapsed cell `k` owns exactly the spans of source cells `[lo, hi)`. */
  ghost predicate Owns(cells: seq<Cell>, k: nat, lo: nat, hi: nat) {
    && lo < hi <= |cells| && k < |CollapseRuns(cells)|
    && CollapseRuns(cells)[k].span == Span(cells[lo].span.start, cells[hi - 1].span.end)
  }

  lemma {:induction false} TextSnoc(cells: seq<Cell>)
    requires cells != []
    ensures var n := |cells| - 1;
      cells == cells[..n] + [cells[n]] && Text(cells) == Text(cells[..n]) + [cells[n].c]
  {
  }

  lemma {:induction false} CollapseSnoc(cells: seq<Cell>, cell: Cell)
    ensures var out := CollapseRuns(cells);
      CollapseRuns(cells + [cell]) ==
        if Absorbed(Text(cells + [cell]), |cells|) then ExtendLast(out, cell.span.end)
        else out + [Cell(Shown(cell.c), cell.span)]
  {
    assert (cells + [cell])[..|cells|] == cells;
  }

  lemma {:induction false} OwnsStep(cells: seq<Cell>, cell: Cell, k: nat, lo: nat, hi: nat)
    requires EndsAscend(cells + [cell]) && Owns(cells, k, lo, hi)
    requires hi == |cells| <==> k + 1 == |CollapseRuns(cells)|
    ensures Owns(cells + [cell], k, lo,
      if hi == |cells| && Absorbed(Text(cells + [cell]), |cells|) then hi + 1 else hi)
  {
    CollapseSnoc(cells, cell);
    var all := cells + [cell];
    assert all[lo] == cells[lo] && all[hi - 1] == cells[hi - 1];
  }

  lemma {:induction false} RunOfOld(cells: seq<Cell>, cell: Cell, k: nat, lo: nat, hi: nat) returns (hi': nat)
    requires EndsAscend(cells + [cell]) && RunAt(Text(cells), k, lo, hi) && Owns(cells, k, lo, hi)
    ensures RunAt(Text(cells) + [cell.c], k, lo, hi') && Owns(cells + [cell], k, lo, hi')
  {
    CollapseText(cells);
    RunAtGrow(Text(cells), k, lo, hi);
    RunAtExtend(Text(cells), cell.c, k, lo, hi);
    OwnsStep(cells, cell, k, lo, hi);
    TextSnoc(cells + [cell]);
    assert (cells + [cell])[..|cells|] == cells;
    hi' := if hi == |cells| && Absorbed(Text(cells) + [cell.c], |cells|) then hi + 1 else hi;
  }

  lemma {:induction false} RunOfNew(cells: seq<Cell>, cell: Cell)
    requires !Absorbed(Text(cells) + [cell.c], |cells|)
    ensures |CollapseRuns(cells + [cell])| == |CollapseRuns(cells)| + 1
    ensures RunAt(Text(cells) + [cell.c], |CollapseRuns(cells)|, |cells|, |cells| + 1)
    ensures Owns(cells + [cell], |CollapseRuns(cells)|, |cells|, |cells| + 1)
  {
    CollapseText(cells);
    RunAtLast(Text(cells), cell.c);
    TextSnoc(cells + [cell]);
    assert (cells + [cell])[..|cells|] == cells;
    CollapseSnoc(cells, cell);
  }

  lemma {:induction false} RunOf(cells: seq<Cell>, k: nat) returns (lo: nat, hi: nat)
    requires EndsAscend(cells) && k < |CollapseRuns(cells)|
    ensures RunAt(Text(cells), k, lo, hi) && Owns(cells, k, lo, hi)
  {
    var n := |cells| - 1;
    TextSnoc(cells);
    if k < |CollapseRuns(cells[..n])| {
      lo, hi := RunOf(cells[..n], k);
      hi := RunOfOld(cells[..n], cells[n], k, lo, hi);
    } else {
      lo, hi := n, n + 1;
      RunOfNew(cells[..n], cells[n]);
    }
  }

  lemma {:induction false} SqueezeMiddle(t: string, lo: nat, hi: nat)
    requires lo <= hi <= |t|
    requires lo < |t| ==> !Absorbed(t, lo)
    requires hi < |t| ==> !Absorbed(t, hi)
    ensures |Squeeze(t[..lo])| <= |Squeeze(t[..hi])| <= |Squeeze(t)|
    ensures Squeeze(t[lo..hi]) == Squeeze(t)[|Squeeze(t[..lo])|..|Squeeze(t[..hi])|]
  {
    assert t == t[..hi] + t[hi..] && t[..hi] == t[..lo] + t[lo..hi];
    SqueezeConcat(t[..hi], t[hi..]);
    SqueezeConcat(t[..lo], t[lo..hi]);
  }

  /** The run boundaries of a squeezed range, in source characters. */
  lemma {:induction false} SqueezedRange(t: string, a: nat, b: nat, lo: nat, hi': nat, lo': nat, hi: nat)
    requires a < b && RunAt(t, a, lo, hi') && RunAt(t, b - 1, lo', hi)
    ensures lo < hi && b <= |Squeeze(t)| && Squeeze(t[lo..hi]) == Squeeze(t)[a..b]
  {
    if hi <= lo { SqueezeMonotone(t, hi, lo); }
    SqueezeMiddle(t, lo, hi);
  }

  lemma {:induction false} CollapsedRange(cells: seq<Cell>, a: nat, b: nat) returns (lo: nat, hi: nat)
    requires EndsAscend(cells) && a < b <= |CollapseRuns(cells)|
    ensures lo < hi <= |cells| && b <= |Squeeze(Text(cells))|
    ensures CollapseRuns(cells)[a].span.start == cells[lo].span.start
    ensures CollapseRuns(cells)[b - 1].span.end == cells[hi - 1].span.end
    ensures Squeeze(Text(cells)[lo..hi]) == Squeeze(Text(cells))[a..b]
  {
    var hi', lo';
    lo, hi' := RunOf(cells, a);
    lo', hi := RunOf(cells, b - 1);
    SqueezedRange(Text(cells), a, b, lo, hi', lo', hi);
  }

  lemma {:induction false} FoldedRange(s: string, fs: seq<char -> char>, a: nat, b: nat) returns (lo: nat, hi: nat)
    requires a < b <= |Run(s, FoldAndCollapse(fs))|
    ensures lo < hi <= |s|
    ensures Run(s, FoldAndCollapse(fs))[a].span.start == Off(s, lo)
    ensures Run(s, FoldAndCollapse(fs))[b - 1].span.end == Off(s, hi)
    ensures Squeeze(FoldText(fs, s[lo..hi])) == Text(Run(s, FoldAndCollapse(fs)))[a..b]
  {
    var folded := Run(s, Folds(fs));
    FoldAndCollapseRun(s, fs);
    FoldsText(s, fs);
    FoldAndCollapseText(s, fs);
    assert EndsAscend(folded) by { ChainAligned(s, Folds(fs)); }
    lo, hi := CollapsedRange(folded, a, b);
    FoldsRun(s, fs);
    FoldTextSlice(fs, s, lo, hi);
  }

  /** For any folds followed by whitespace collapse, and any non-empty range of whole
      normalised characters: normalising the original slice it maps to gives back
      exactly the text of that range. */
  lemma {:induction false} RenormalizeSlice(s: string, fs: seq<char -> char>, a: nat, b: nat)
    requires a < b <= |Run(s, FoldAndCollapse(fs))|
    ensures var cells := Run(s, FoldAndCollapse(fs));
      var r := SpliceCells(s, cells, Off(Text(cells), a), Off(Text(cells), b));
      && r.Some? && Sliceable(s, r.value.start, r.value.end)
      && Text(Run(Slice(s, r.value.start, r.value.end), FoldAndCollapse(fs))) == Text(cells)[a..b]
  {
    var lo, hi := FoldedRange(s, fs, a, b);
    SpliceChars(s, Run(s, FoldAndCollapse(fs)), a, b);
    SliceOff(s, lo, hi);
    FoldAndCollapseText(s[lo..hi], fs);
  }

  // ---- Case folding and filtering -----------------------------------------

  function CaseFoldAndRetain(g: char -> string, p: char -> bool): seq<Transform> { [Expansion(g), Retain(p)] }

  function Kept(g: char -> string, p: char -> bool): char -> string { Then(g, Filter(p)) }

  lemma {:induction false} CaseFoldAndRetainRun(s: string, g: char -> string, p: char -> bool)
    ensures Run(s, CaseFoldAndRetain(g, p)) == FlatMap(Kept(g, p), Identity(s))
    ensures Text(Run(s, CaseFoldAndRetain(g, p))) == Spread(Kept(g, p), s)
  {
    RunTwo(s, CaseFoldAndRetain(g, p));
    FlatMapFuse(g, Filter(p), Identity(s));
    FlatMapText(Kept(g, p), Identity(s));
    assert Text(Identity(s)) == s;
  }

  /** The cell that cell `x` of an expansion came from. */
  lemma {:induction false} SourceOf(h: char -> string, cells: seq<Cell>, n: nat, x: nat) returns (k: nat)
    requires n <= |cells| && x < |FlatMap(h, cells[..n])|
    ensures k < n && FlatMap(h, cells[..n])[x].span == cells[k].span
    ensures |Spread(h, Text(cells)[..k])| <= x < |Spread(h, Text(cells)[..k + 1])|
  {
    var m := n - 1;
    var init := cells[..m];
    assert cells[..n][..m] == init;
    FlatMapText(h, init);
    assert Text(init) == Text(cells)[..m];
    if x < |FlatMap(h, init)| {
      k := SourceOf(h, cells, m, x);
    } else {
      k := m;
      assert Text(cells)[..n][..m] == Text(cells)[..m];
    }
  }

  lemma {:induction false} SourceChar(s: string, h: char -> string, x: nat) returns (i: nat)
    requires x < |FlatMap(h, Identity(s))|
    ensures i < |s| && FlatMap(h, Identity(s))[x].span == Span(Off(s, i), Off(s, i + 1))
    ensures |Spread(h, s[..i])| <= x < |Spread(h, s[..i + 1])|
  {
    assert Identity(s)[..|s|] == Identity(s) && Text(Identity(s)) == s;
    i := SourceOf(h, Identity(s), |s|, x);
  }

  lemma {:induction false} ExpandedRange(s: string, h: char -> string, a: nat, b: nat) returns (i: nat, j: nat)
    requires a < b <= |FlatMap(h, Identity(s))|
    ensures i < j <= |s| && |Spread(h, s[..i])| <= a && b <= |Spread(h, s[..i] + s[i..j])|
    ensures var cells := FlatMap(h, Identity(s));
      Span(cells[a].span.start, cells[b - 1].span.end) == Span(Off(s, i), Off(s, j))
  {
    i := SourceChar(s, h, a);
    j := SourceChar(s, h, b - 1);
    j := j + 1;
    if j <= i { SpreadMonotone(h, s, j, i); }
    Halves(s, i, j);
  }

  lemma {:induction false} Halves(s: string, i: nat, j: nat)
    requires i <= j <= |s|
    ensures s[..j] == s[..i] + s[i..j]
  {
  }

  lemma {:induction false} SpreadMonotone(h: char -> string, s: string, i: nat, j: nat)
    requires i <= j <= |s|
    ensures |Spread(h, s[..i])| <= |Spread(h, s[..j])|
  {
    Halves(s, i, j);
    SpreadConcat(h, s[..i], s[i..j]);
  }

  lemma {:induction false} SpreadMiddle(h: char -> string, u: string, v: string, w: string, a: nat, b: nat)
    requires |Spread(h, u)| <= a <= b <= |Spread(h, u + v)|
    ensures var k := |Spread(h, u)|;
      && b - k <= |Spread(h, v)| && b <= |Spread(h, u + v + w)|
      && Spread(h, v)[a - k..b - k] == Spread(h, u + v + w)[a..b]
  {
    SpreadConcat(h, u, v);
    SpreadConcat(h, u + v, w);
  }

  lemma {:induction false} ExpandedSlice(s: string, h: char -> string, a: nat, b: nat) returns (i: nat, j: nat, at: nat)
    requires a < b <= |FlatMap(h, Identity(s))|
    ensures i < j <= |s|
    ensures var cells := FlatMap(h, Identity(s));
      Span(cells[a].span.start, cells[b - 1].span.end) == Span(Off(s, i), Off(s, j))
    ensures b <= |Spread(h, s)| && at + (b - a) <= |Spread(h, s[i..j])|
    ensures Spread(h, s[i..j])[at..at + (b - a)] == Spread(h, s)[a..b]
  {
    i, j := ExpandedRange(s, h, a, b);
    Thirds(s, i, j);
    SpreadMiddle(h, s[..i], s[i..j], s[j..], a, b);
    at := a - |Spread(h, s[..i])|;
  }

  /** For any case folding and filter: the normalised raw span of a match contains the
      matched text, at the match's own offset inside the first source character. */
  lemma {:induction false} RenormalizeContains(s: string, g: char -> string, p: char -> bool, a: nat, b: nat)
    returns (at: nat)
    requires a < b <= |Run(s, CaseFoldAndRetain(g, p))|
    ensures var cells := Run(s, CaseFoldAndRetain(g, p));
      var r := SpliceCells(s, cells, Off(Text(cells), a), Off(Text(cells), b));
      && r.Some? && Sliceable(s, r.value.start, r.value.end)
      && var again := Text(Run(Slice(s, r.value.start, r.value.end), CaseFoldAndRetain(g, p)));
      && at + (b - a) <= |again| && again[at..at + (b - a)] == Text(cells)[a..b]
  {
    CaseFoldAndRetainRun(s, g, p);
    var i, j;
    i, j, at := ExpandedSlice(s, Kept(g, p), a, b);
    SpliceChars(s, Run(s, CaseFoldAndRetain(g, p)), a, b);
    SliceOff(s, i, j);
    CaseFoldAndRetainRun(s[i..j], g, p);
  }
}
