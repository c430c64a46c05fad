/** What each transform makes of a text, laid out over the cells it came from: which source
    cells every result owns, and which character it shows. */
module TransformLaws {
  import opened Alignment

  /** Positions that cut `n` source cells into `m` consecutive pieces. */
  ghost predicate Cuts(cuts: seq<nat>, n: nat, m: nat) {
    && |cuts| == m + 1 && cuts[0] == 0 && cuts[m] == n
    && forall k :: 0 <= k < m ==> cuts[k] <= cuts[k + 1]
  }

  lemma {:induction false} CutsSnoc(cuts: seq<nat>, n: nat, m: nat, end: nat)
    requires Cuts(cuts, n, m) && n <= end
    ensures Cuts(cuts + [end], end, m + 1)
    ensures forall k :: 0 <= k <= m ==> (cuts + [end])[k] == cuts[k] <= n
  {
    CutsBounded(cuts, n, m);
  }

  lemma {:induction false} CutsBounded(cuts: seq<nat>, n: nat, m: nat)
    requires Cuts(cuts, n, m)
    ensures forall k :: 0 <= k <= m ==> cuts[k] <= n
    decreases m
  {
    if m != 0 {
      CutsBounded(cuts[..m], cuts[m - 1], m - 1);
      assert forall k :: 0 <= k < m ==> cuts[k] == cuts[..m][k];
    }
  }

  // ---- Collapsing ---------------------------------------------------------

  /** A maximal run of whitespace, or one other character. */
  ghost predicate IsRun(t: string, lo: nat, hi: nat) {
    && lo < hi <= |t|
    && if !IsWhitespace(t[lo]) then hi == lo + 1
       else
         && (forall i :: lo <= i < hi ==> IsWhitespace(t[i]))
         && (0 < lo ==> !IsWhitespace(t[lo - 1])) && (hi < |t| ==> !IsWhitespace(t[hi]))
  }

  ghost predicate EndsAscend(cells: seq<Cell>) {
    forall i, j :: 0 <= i < j < |cells| ==> cells[i].span.end <= cells[j].span.end
  }

  /** `out` is the run `[lo, hi)`: a space for whitespace, and the span of all of it. */
  ghost predicate ShowsRun(cells: seq<Cell>, lo: nat, hi: nat, out: Cell) {
    && IsRun(Text(cells), lo, hi)
    && out.c == (if IsWhitespace(cells[lo].c) then ' ' else cells[lo].c)
    && out.span.start == cells[lo].span.start
    && (EndsAscend(cells) ==> out.span.end == cells[hi - 1].span.end)
  }

  ghost predicate CollapsesTo(cells: seq<Cell>, out: seq<Cell>, cuts: seq<nat>) {
    Cuts(cuts, |cells|, |out|) && forall k :: 0 <= k < |out| ==> ShowsRun(cells, cuts[k], cuts[k + 1], out[k])
  }

  lemma {:induction false} TextOnward(cells: seq<Cell>, cell: Cell)
    ensures Text(cells + [cell]) == Text(cells) + [cell.c]
    ensures EndsAscend(cells + [cell]) ==> EndsAscend(cells)
  {
    assert forall i :: 0 <= i < |cells| ==> (cells + [cell])[i] == cells[i];
  }

  /** A run that nothing after it continues. */
  lemma {:induction false} RunsOnBefore(cells: seq<Cell>, cell: Cell, lo: nat, hi: nat, out: Cell)
    requires ShowsRun(cells, lo, hi, out)
    requires hi < |cells| || !(IsWhitespace(cells[|cells| - 1].c) && IsWhitespace(cell.c))
    ensures ShowsRun(cells + [cell], lo, hi, out)
  {
    var all := cells + [cell];
    TextOnward(cells, cell);
    if IsWhitespace(cells[lo].c) && hi == |cells| { assert IsWhitespace(Text(cells)[hi - 1]); }
  }

  /** A last run of whitespace that one more whitespace cell continues. */
  lemma {:induction false} RunsOnLast(cells: seq<Cell>, cell: Cell, lo: nat, out: Cell)
    requires ShowsRun(cells, lo, |cells|, out)
    requires IsWhitespace(cells[|cells| - 1].c) && IsWhitespace(cell.c)
    ensures ShowsRun(cells + [cell], lo, |cells| + 1,
                     out.(span := Span(out.span.start, Max(out.span.end, cell.span.end))))
  {
    var all := cells + [cell];
    TextOnward(cells, cell);
    if EndsAscend(all) { assert all[|cells| - 1].span.end <= all[|cells|].span.end; }
  }

  lemma {:induction false} RunBegins(cells: seq<Cell>, cell: Cell, shown: char)
    requires cells == [] || !(IsWhitespace(cells[|cells| - 1].c) && IsWhitespace(cell.c))
    requires shown == if IsWhitespace(cell.c) then ' ' else cell.c
    ensures ShowsRun(cells + [cell], |cells|, |cells| + 1, Cell(shown, cell.span))
  {
  }

  lemma {:induction false} CollapseAbsorbs(cells: seq<Cell>, cell: Cell, out: seq<Cell>, cuts: seq<nat>)
    requires CollapsesTo(cells, out, cuts)
    requires cells != [] && IsWhitespace(cells[|cells| - 1].c) && IsWhitespace(cell.c)
    ensures out != []
    ensures CollapsesTo(cells + [cell], ExtendLast(out, cell.span.end), cuts[|out| := |cells| + 1])
  {
    var m, all, cuts' := |out|, cells + [cell], cuts[|out| := |cells| + 1];
    var last := ExtendLast(out, cell.span.end);
    CutsBounded(cuts, |cells|, m);
    forall k | 0 <= k < m ensures ShowsRun(all, cuts'[k], cuts'[k + 1], last[k]) {
      if k < m - 1 {
        assert ShowsRun(cells, cuts[k + 1], cuts[k + 2], out[k + 1]);
        RunsOnBefore(cells, cell, cuts[k], cuts[k + 1], out[k]);
      } else {
        RunsOnLast(cells, cell, cuts[k], out[k]);
      }
    }
  }

  lemma {:induction false} CollapseEmits(cells: seq<Cell>, cell: Cell, out: seq<Cell>, cuts: seq<nat>, shown: char)
    requires CollapsesTo(cells, out, cuts)
    requires cells == [] || !(IsWhitespace(cells[|cells| - 1].c) && IsWhitespace(cell.c))
    requires shown == if IsWhitespace(cell.c) then ' ' else cell.c
    ensures CollapsesTo(cells + [cell], out + [Cell(shown, cell.span)], cuts + [|cells| + 1])
  {
    var m, all, cuts', next := |out|, cells + [cell], cuts + [|cells| + 1], out + [Cell(shown, cell.span)];
    CutsSnoc(cuts, |cells|, m, |cells| + 1);
    forall k | 0 <= k <= m ensures ShowsRun(all, cuts'[k], cuts'[k + 1], next[k]) {
      if k < m {
        RunsOnBefore(cells, cell, cuts[k], cuts[k + 1], out[k]);
      } else {
        RunBegins(cells, cell, shown);
      }
    }
  }

  /** The collapsed cells are the maximal whitespace runs, a space each, and the other characters
      as they are, one after the other, each with the span of all that it stands for. */
  lemma {:induction false} CollapseShows(cells: seq<Cell>) returns (cuts: seq<nat>)
    ensures CollapsesTo(cells, CollapseRuns(cells), cuts)
  {
    if cells == [] {
      cuts := [0];
    } else {
      var n := |cells| - 1;
      assert cells == cells[..n] + [cells[n]];
      cuts := CollapseShows(cells[..n]);
      var out := CollapseRuns(cells[..n]);
      if Absorbed(Text(cells), n) {
        CollapseAbsorbs(cells[..n], cells[n], out, cuts);
        cuts := cuts[|out| := n + 1];
      } else {
        CollapseEmits(cells[..n], cells[n], out, cuts, Shown(cells[n].c));
        cuts := cuts + [n + 1];
      }
    }
  }

  /** No whitespace but single spaces. */
  ghost predicate SingleSpaced(t: string) {
    forall i :: 0 <= i < |t| && IsWhitespace(t[i]) ==> t[i] == ' ' && (0 < i ==> t[i - 1] != ' ')
  }

  lemma {:induction false} CollapseSpaces(cells: seq<Cell>)
    ensures SingleSpaced(Text(CollapseRuns(cells)))
  {
    var out := CollapseRuns(cells);
    var cuts := CollapseShows(cells);
    var t := Text(out);
    forall i | 0 <= i < |t| && IsWhitespace(t[i]) ensures t[i] == ' ' && (0 < i ==> t[i - 1] != ' ') {
      assert ShowsRun(cells, cuts[i], cuts[i + 1], out[i]);
      if 0 < i { assert ShowsRun(cells, cuts[i - 1], cuts[i], out[i - 1]); }
    }
  }

  // ---- Folding, expanding and filtering -----------------------------------

  /** A fold changes characters and nothing else. */
  lemma {:induction false} SingleMap(f: char -> char, cells: seq<Cell>)
    ensures |FlatMap(Single(f), cells)| == |cells|
    ensures forall i {:trigger FlatMap(Single(f), cells)[i]} :: 0 <= i < |cells| ==>
        FlatMap(Single(f), cells)[i] == Cell(f(cells[i].c), cells[i].span)
  {
    if cells != [] { SingleMap(f, cells[..|cells| - 1]); }
  }

  /** Source cell by source cell: what `g` makes of each, with that cell's span. */
  ghost predicate ExpandsTo(g: char -> string, cells: seq<Cell>, out: seq<Cell>, cuts: seq<nat>) {
    Cuts(cuts, |out|, |cells|) && forall k :: 0 <= k < |cells| ==> Spells(g, cells[k], out, cuts[k], cuts[k + 1])
  }

  ghost predicate Spells(g: char -> string, cell: Cell, out: seq<Cell>, lo: nat, hi: nat) {
    && lo <= hi <= |out| && hi - lo == |g(cell.c)|
    && forall j :: lo <= j < hi ==> out[j] == Cell(g(cell.c)[j - lo], cell.span)
  }

  lemma {:induction false} ExpandSnoc(
    g: char -> string, cells: seq<Cell>, cell: Cell, out: seq<Cell>, cuts: seq<nat>)
    requires ExpandsTo(g, cells, out, cuts)
    ensures var next := out + Stamp(g(cell.c), cell.span); ExpandsTo(g, cells + [cell], next, cuts + [|next|])
  {
    var next, all := out + Stamp(g(cell.c), cell.span), cells + [cell];
    var cuts' := cuts + [|next|];
    CutsSnoc(cuts, |out|, |cells|, |next|);
    forall k | 0 <= k < |all| ensures Spells(g, all[k], next, cuts'[k], cuts'[k + 1]) {
      if k < |cells| { assert Spells(g, cells[k], out, cuts[k], cuts[k + 1]); }
    }
  }

  lemma {:induction false} FlatMapShows(g: char -> string, cells: seq<Cell>) returns (cuts: seq<nat>)
    ensures ExpandsTo(g, cells, FlatMap(g, cells), cuts)
  {
    if cells == [] {
      cuts := [0];
    } else {
      var n := |cells| - 1;
      assert cells == cells[..n] + [cells[n]];
      cuts := FlatMapShows(g, cells[..n]);
      ExpandSnoc(g, cells[..n], cells[n], FlatMap(g, cells[..n]), cuts);
      cuts := cuts + [|FlatMap(g, cells)|];
    }
  }

  ghost predicate Ascends(at: seq<nat>) { forall i, j :: 0 <= i < j < |at| ==> at[i] < at[j] }

  /** `out` is the cells at `at`, which are all those whose character `p` accepts, in order. */
  ghost predicate Selects(p: char -> bool, cells: seq<Cell>, out: seq<Cell>, at: seq<nat>) {
    && |at| == |out| && Ascends(at)
    && (forall k :: 0 <= k < |out| ==> at[k] < |cells| && out[k] == cells[at[k]] && p(out[k].c))
    && (forall i :: 0 <= i < |cells| && p(cells[i].c) ==> i in at)
  }

  lemma {:induction false} SelectSnoc(p: char -> bool, cells: seq<Cell>, cell: Cell, out: seq<Cell>, at: seq<nat>)
    requires Selects(p, cells, out, at)
    ensures if p(cell.c) then Selects(p, cells + [cell], out + [cell], at + [|cells|])
            else Selects(p, cells + [cell], out, at)
  {
    assert |cells| in at + [|cells|];
  }

  lemma {:induction false} RetainShows(p: char -> bool, cells: seq<Cell>) returns (at: seq<nat>)
    ensures Selects(p, cells, FlatMap(Filter(p), cells), at)
  {
    at := [];
    if cells != [] {
      var n := |cells| - 1;
      assert cells == cells[..n] + [cells[n]];
      at := RetainShows(p, cells[..n]);
      SelectSnoc(p, cells[..n], cells[n], FlatMap(Filter(p), cells[..n]), at);
      if p(cells[n].c) {
        assert Stamp([cells[n].c], cells[n].span) == [cells[n]];
        at := at + [n];
      } else {
        assert Stamp("", cells[n].span) == [];
      }
    }
  }

  // ---- NFKC ---------------------------------------------------------------

  /** Where an item that takes cells from `a` ends: it stands for one cell, absorbs `-diff` more,
      or is inserted. */
  predicate Advances(diff: int, a: nat, b: nat) {
    && (diff == 0 ==> b == a + 1)
    && (diff < 0 ==> b == a + 1 - diff)
    && (diff > 0 ==> b == a)
  }

  /** Item `k` is one character over source cells `[lo, hi)`; an inserted one has the span of the
      item before it. */
  ghost predicate ShowsItem(cells: seq<Cell>, out: seq<Emitted>, r: seq<Cell>, k: nat, lo: nat, hi: nat)
    requires k < |out| == |r|
  {
    && Advances(out[k].diff, lo, hi) && hi <= |cells| && r[k].c == out[k].c
    && (out[k].diff <= 0 ==> r[k].span == Span(cells[lo].span.start, cells[hi - 1].span.end))
    && (out[k].diff > 0 ==> r[k].span == if k == 0 then Span(0, 0) else r[k - 1].span)
  }

  ghost predicate ComposesTo(cells: seq<Cell>, out: seq<Emitted>, r: seq<Cell>, cuts: seq<nat>) {
    && |r| == |out| && |cuts| == |out| + 1 && cuts[0] == 0
    && forall k :: 0 <= k < |out| ==> ShowsItem(cells, out, r, k, cuts[k], cuts[k + 1])
  }

  lemma {:induction false} ComposeSnoc(
    cells: seq<Cell>, out: seq<Emitted>, r: seq<Cell>, cuts: seq<nat>, e: Emitted, cell: Cell, end: nat)
    requires ComposesTo(cells, out, r, cuts)
    requires ShowsItem(cells, out + [e], r + [cell], |out|, cuts[|out|], end)
    ensures ComposesTo(cells, out + [e], r + [cell], cuts + [end])
  {
    var out', r', cuts' := out + [e], r + [cell], cuts + [end];
    forall k | 0 <= k <= |out| ensures ShowsItem(cells, out', r', k, cuts'[k], cuts'[k + 1]) {
      if k < |out| { assert ShowsItem(cells, out, r, k, cuts[k], cuts[k + 1]); }
    }
  }

  lemma {:induction false} ComposeShows(out: seq<Emitted>, cells: seq<Cell>) returns (cuts: seq<nat>)
    requires Consumed(out) <= |cells|
    ensures ComposesTo(cells, out, Compose(out, cells), cuts) && cuts[|out|] == Consumed(out)
  {
    if out == [] {
      cuts := [0];
    } else {
      var k := |out| - 1;
      var done, e := Compose(out[..k], cells), out[k];
      cuts := ComposeShows(out[..k], cells);
      assert out == out[..k] + [e];
      ComposeSnoc(cells, out[..k], done, cuts, e, Compose(out, cells)[k], Consumed(out));
      cuts := cuts + [Consumed(out)];
    }
  }
}
