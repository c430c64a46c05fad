/** A quote grounded in a text is still found when the raw span alone is reduced to its compact
    form, composed accents and ligatures included. */
module GroundingLaws {
  import opened Options
  import opened Utf8
  import opened Alignment
  import opened AlignmentLaws
  import opened TransformLaws
  import opened Renormalization
  import opened NormalizedText
  import opened Grounding

  // ---- The compact text is a spread of the NFKC stream --------------------

  function Chars(out: seq<Emitted>): (s: string)
    ensures |s| == |out|
    ensures forall i {:trigger s[i]} :: 0 <= i < |s| ==> s[i] == out[i].c
  {
    seq(|out|, i requires 0 <= i < |out| => out[i].c)
  }

  /** What case folding and filtering make of one character. */
  function Spreader(t: Tables): char -> string { Kept(t.caseFold, Retained(t)) }

  function Composed(t: Tables, s: string): seq<Cell>
    requires Faithful(t.nfkc)
  {
    Compose(t.nfkc(s), Identity(s))
  }

  lemma {:induction false} ComposeText(out: seq<Emitted>, cells: seq<Cell>)
    requires Consumed(out) <= |cells|
    ensures Text(Compose(out, cells)) == Chars(out)
  {
    if out != [] {
      var k := |out| - 1;
      ConsumedPrefix(out, k);
      ComposeText(out[..k], cells);
      assert Chars(out)[..k] == Chars(out[..k]);
    }
  }

  lemma {:induction false} CompactIs(t: Tables, s: string)
    requires Faithful(t.nfkc)
    ensures Compact(t, s) == FlatMap(Spreader(t), Composed(t, s))
    ensures Text(Compact(t, s)) == Spread(Spreader(t), Chars(t.nfkc(s)))
  {
    IdentityText(s);
    var c1 := Composed(t, s);
    PipelineSteps(t, s, Identity(s), c1, Apply(Expansion(t.caseFold), c1));
    FlatMapFuse(t.caseFold, Filter(Retained(t)), c1);
    FlatMapText(Spreader(t), c1);
    ComposeText(t.nfkc(s), Identity(s));
  }

  /** The comparison stream holds the letters, numbers and marks of the case-folded NFKC stream, all
      of them in order, each with its span. */
  lemma {:induction false} CompactKeeps(t: Tables, s: string) returns (at: seq<nat>)
    requires Faithful(t.nfkc)
    ensures Selects(
      c => t.letter(c) || t.number(c) || t.mark(c), FlatMap(t.caseFold, Composed(t, s)), Compact(t, s), at)
  {
    IdentityText(s);
    var c1 := Composed(t, s);
    PipelineSteps(t, s, Identity(s), c1, Apply(Expansion(t.caseFold), c1));
    at := RetainShows(Retained(t), FlatMap(t.caseFold, c1));
  }

  predicate Counted(t: Tables, s: string, i: nat) { i < |s| && (t.letter(s[i]) || t.number(s[i])) }

  /** `at` are the places of the letters and numbers of `s`. */
  ghost predicate Places(t: Tables, s: string, at: seq<nat>) {
    && Ascends(at)
    && (forall k :: 0 <= k < |at| ==> Counted(t, s, at[k]))
    && (forall i :: Counted(t, s, i) ==> i in at)
  }

  lemma {:induction false} PlacesSnoc(t: Tables, s: string, c: char, at: seq<nat>)
    requires Places(t, s, at)
    ensures Places(t, s + [c], if t.letter(c) || t.number(c) then at + [|s|] else at)
  {
    var n, more := |s|, at + [|s|];
    forall i: nat ensures Counted(t, s + [c], i) <==> Counted(t, s, i) || (i == n && (t.letter(c) || t.number(c))) {}
    forall i: nat ensures i in more <==> i in at || i == n { assert more[|at|] == n; }
    assert forall k :: 0 <= k < |at| ==> more[k] == at[k] && Counted(t, s, at[k]);
  }

  /** What is counted are the letters and numbers. */
  lemma {:induction false} SubstantivePlaces(t: Tables, s: string) returns (at: seq<nat>)
    ensures |at| == SubstantiveLen(t, s) && Places(t, s, at)
  {
    at := [];
    if s != [] {
      var n := |s| - 1;
      assert s == s[..n] + [s[n]];
      at := SubstantivePlaces(t, s[..n]);
      PlacesSnoc(t, s[..n], s[n], at);
      if Substantive(t, s[n]) { at := at + [n]; }
    }
  }

  // ---- Spans of the stream's items ----------------------------------------

  /** The stream does not begin with an insertion. */
  predicate Leads(out: seq<Emitted>) { out == [] || out[0].diff <= 0 }

  lemma {:induction false} ComposePrefix(out: seq<Emitted>, cells: seq<Cell>, m: nat)
    requires m <= |out| && Consumed(out) <= |cells|
    ensures Consumed(out[..m]) <= |cells| && Compose(out[..m], cells) == Compose(out, cells)[..m]
    decreases |out|
  {
    ConsumedPrefix(out, m);
    if m == |out| {
      assert out[..m] == out;
    } else {
      var k := |out| - 1;
      ConsumedPrefix(out, k);
      ComposePrefix(out[..k], cells, m);
      assert out[..k][..m] == out[..m];
    }
  }

  lemma {:induction false} ConsumedUpTo(out: seq<Emitted>, m: nat, k: nat)
    requires m <= k <= |out|
    ensures Consumed(out[..m]) <= Consumed(out[..k]) <= Consumed(out)
  {
    ConsumedPrefix(out, k);
    assert out[..k][..m] == out[..m];
    ConsumedPrefix(out[..k], m);
  }

  lemma {:induction false} ConsumedNext(out: seq<Emitted>, k: nat)
    requires k < |out|
    ensures Consumed(out[..k + 1]) == Consumed(out[..k]) + Takes(out[k].diff)
  {
    assert out[..k + 1][..k] == out[..k];
  }

  /** The source characters that item `k` owns: what it consumes, or what its predecessor owns. */
  function Owned(out: seq<Emitted>, k: nat): (r: (nat, nat))
    requires k < |out|
  {
    var pos, n := Consumed(out[..k]), Takes(out[k].diff);
    if 0 < n then (pos, pos + n) else if k == 0 then (0, 0) else Owned(out, k - 1)
  }

  /** Items own at least one character, none past where the stream has come to. */
  lemma {:induction false} OwnedUpper(out: seq<Emitted>, k: nat)
    requires k < |out| && Leads(out)
    ensures Owned(out, k).0 < Owned(out, k).1 <= Consumed(out[..k + 1])
  {
    ConsumedNext(out, k);
    if Takes(out[k].diff) == 0 { OwnedUpper(out, k - 1); }
  }

  /** From an item that consumes on, items own characters past where the stream had come to. */
  lemma {:induction false} OwnedLower(out: seq<Emitted>, m: nat, k: nat)
    requires m <= k < |out| && out[m].diff <= 0
    ensures Consumed(out[..m]) < Owned(out, k).1
  {
    ConsumedUpTo(out, m, k);
    if Takes(out[k].diff) == 0 { OwnedLower(out, m, k - 1); }
  }

  lemma {:induction false} OwnedIn(out: seq<Emitted>, k: nat)
    requires k < |out|
    ensures Owned(out, k).0 <= Owned(out, k).1 <= Consumed(out)
  {
    ConsumedUpTo(out, k, k + 1);
    ConsumedNext(out, k);
    if Takes(out[k].diff) == 0 && 0 < k { OwnedIn(out, k - 1); }
  }

  lemma {:induction false} IdentitySpan(s: string, pos: nat, n: nat)
    requires 0 < n && pos + n <= |s|
    ensures Span(Identity(s)[pos].span.start, Identity(s)[pos + n - 1].span.end) == Span(Off(s, pos), Off(s, pos + n))
  {
  }

  lemma {:induction false} ItemAt(s: string, out: seq<Emitted>, c: seq<Cell>, k: nat)
    requires k < |out| && Consumed(out) <= |s| && c == Compose(out, Identity(s))
    ensures Consumed(out[..k]) + Takes(out[k].diff) <= |s|
    ensures c[k].span == ItemSpan(c[..k], Identity(s), Consumed(out[..k]), Takes(out[k].diff))
  {
    ComposeNext(out, Identity(s), k);
    ComposePrefix(out, Identity(s), k);
    ComposePrefix(out, Identity(s), k + 1);
  }

  /** The byte range of a character range; empty where nothing is owned. */
  function Range(s: string, r: (nat, nat)): Span
    requires r.0 <= |s| && r.1 <= |s|
  {
    Span(Off(s, r.0), Off(s, r.1))
  }

  lemma {:induction false} OwnedSpan(s: string, out: seq<Emitted>, c: seq<Cell>, k: nat)
    requires k < |out| && Consumed(out) <= |s| && c == Compose(out, Identity(s))
    ensures Owned(out, k).0 <= |s| && Owned(out, k).1 <= |s| && c[k].span == Range(s, Owned(out, k))
  {
    OwnedIn(out, k);
    ItemAt(s, out, c, k);
    var pos, n := Consumed(out[..k]), Takes(out[k].diff);
    if 0 < n {
      IdentitySpan(s, pos, n);
    } else if k == 0 {
      OffEnds(s);
    } else {
      OwnedSpan(s, out, c, k - 1);
      assert c[..k][|c[..k]| - 1] == c[k - 1];
    }
  }

  // ---- A match lies in the middle part ------------------------------------

  /** A match whose span starts where part `a` ends is made of later items only. */
  lemma {:induction false} MatchAfter(
    s: string, h: char -> string, out: seq<Emitted>, c: seq<Cell>, a: seq<Emitted>, x: nat)
    requires Consumed(out) <= |s| && c == Compose(out, Identity(s)) && a <= out && Leads(a) && x < |FlatMap(h, c)|
    ensures Consumed(a) <= |s|
    ensures FlatMap(h, c)[x].span.start == Off(s, Consumed(a)) ==> |Spread(h, Chars(a))| <= x
  {
    ConsumedUpTo(out, |a|, |out|);
    PartChars(out, c, s, a);
    assert c[..|c|] == c;
    var k := SourceOf(h, c, |c|, x);
    if k < |a| {
      OwnedUpper(out, k);
      ConsumedUpTo(out, k + 1, |a|);
      OwnedSpan(s, out, c, k);
      OffStrict(s, Owned(out, k).0, Consumed(a));
    } else {
      SpreadMonotone(h, Text(c), |a|, k);
    }
  }

  /** A match whose span ends where part `a` ends is made of its items only. */
  lemma {:induction false} MatchBefore(
    s: string, h: char -> string, out: seq<Emitted>, c: seq<Cell>, a: seq<Emitted>, x: nat)
    requires Consumed(out) <= |s| && c == Compose(out, Identity(s)) && a <= out && x < |FlatMap(h, c)|
    requires |a| < |out| ==> out[|a|].diff <= 0
    ensures Consumed(a) <= |s|
    ensures FlatMap(h, c)[x].span.end == Off(s, Consumed(a)) ==> x < |Spread(h, Chars(a))|
  {
    ConsumedUpTo(out, |a|, |out|);
    PartChars(out, c, s, a);
    assert c[..|c|] == c;
    var k := SourceOf(h, c, |c|, x);
    if |a| <= k {
      OwnedLower(out, |a|, k);
      OwnedSpan(s, out, c, k);
      OffStrict(s, Consumed(a), Owned(out, k).1);
    } else {
      SpreadMonotone(h, Text(c), k + 1, |a|);
    }
  }

  lemma {:induction false} PartChars(out: seq<Emitted>, c: seq<Cell>, s: string, a: seq<Emitted>)
    requires Consumed(out) <= |s| && c == Compose(out, Identity(s)) && a <= out
    ensures out[..|a|] == a && Text(c)[..|a|] == Chars(a)
  {
    ComposeText(out, Identity(s));
  }

  lemma {:induction false} ConsumedConcat(a: seq<Emitted>, b: seq<Emitted>)
    ensures Consumed(a + b) == Consumed(a) + Consumed(b)
  {
    if b == [] {
      assert a + b == a;
    } else {
      var k := |b| - 1;
      assert (a + b)[..|a + b| - 1] == a + b[..k];
      ConsumedConcat(a, b[..k]);
    }
  }

  // ---- The raw span contains the quote ------------------------------------

  /** The text's stream is that of the raw span between two other parts, the first for what
      comes before it, none of them beginning with an insertion. */
  ghost predicate Splits(t: Tables, s: string, m: GroundingMatch, a: seq<Emitted>, b: seq<Emitted>)
    requires Sliceable(s, m.raw.start, m.raw.end)
  {
    && t.nfkc(s) == a + t.nfkc(m.rawSpan) + b && Leads(a) && Leads(b)
    && Consumed(a) == CharAt(s, m.raw.start)
  }

  lemma {:induction false} SliceLength(s: string, lo: nat, hi: nat)
    requires Sliceable(s, lo, hi)
    ensures CharAt(s, lo) + |Slice(s, lo, hi)| == CharAt(s, hi)
  {
    if CharAt(s, hi) < CharAt(s, lo) { OffStrict(s, CharAt(s, hi), CharAt(s, lo)); }
  }

  /** The first and the last cell of a match own the ends of its raw span. */
  lemma {:induction false} MatchSpan(s: string, cells: seq<Cell>, q: string, m: GroundingMatch, i: nat, z: nat)
    requires q != [] && z == i + |q| - 1
    ensures MatchAt(s, cells, q, m, i) ==>
      && Occurs(Text(cells), q, i) && z < |cells|
      && cells[i].span.start == m.raw.start && cells[z].span.end == m.raw.end
  {
    if MatchAt(s, cells, q, m, i) { SpliceChars(s, cells, i, i + |q|); }
  }

  lemma {:induction false} PartEnds(s: string, raw: Span, v: string, a: seq<Emitted>, m: seq<Emitted>)
    requires Sliceable(s, raw.start, raw.end) && v == Slice(s, raw.start, raw.end)
    requires Consumed(a) == CharAt(s, raw.start) && Consumed(m) == |v|
    ensures Consumed(a) <= |s| && Off(s, Consumed(a)) == raw.start
    ensures Consumed(a + m) <= |s| && Off(s, Consumed(a + m)) == raw.end
  {
    SliceLength(s, raw.start, raw.end);
    ConsumedConcat(a, m);
  }

  /** The middle part's text holds the quote. */
  lemma {:induction false} PartHolds(
    h: char -> string, u: string, v: string, w: string, q: string, i: nat, text: string, again: string)
    returns (at: nat)
    requires text == Spread(h, u + v + w) && again == Spread(h, v)
    requires |Spread(h, u)| <= i && i + |q| <= |Spread(h, u + v)| && Occurs(text, q, i)
    ensures Occurs(again, q, at)
  {
    SpreadMiddle(h, u, v, w, i, i + |q|);
    at := i - |Spread(h, u)|;
  }

  lemma {:induction false} PartsChars(a: seq<Emitted>, m: seq<Emitted>, b: seq<Emitted>)
    ensures Chars(a + m + b) == Chars(a) + Chars(m) + Chars(b) && Chars(a + m) == Chars(a) + Chars(m)
  {
  }

  /** The quote stands at `i` in `cells`, and its ends own those of `raw`. */
  predicate EndsOn(cells: seq<Cell>, q: string, raw: Span, i: nat) {
    && q != [] && Occurs(Text(cells), q, i)
    && cells[i].span.start == raw.start && cells[i + |q| - 1].span.end == raw.end
  }

  /** A match on the ends of the middle part of the stream comes from that part. */
  lemma {:induction false} MatchInPart(
    s: string, h: char -> string, cells: seq<Cell>, a: seq<Emitted>, v: seq<Emitted>, b: seq<Emitted>, raw: Span,
    q: string, i: nat)
    requires Consumed(a + v + b) <= |s| && cells == FlatMap(h, Compose(a + v + b, Identity(s)))
    requires Leads(a) && Leads(b) && EndsOn(cells, q, raw, i)
    requires Consumed(a) <= |s| && Consumed(a + v) <= |s|
    requires raw.start == Off(s, Consumed(a)) && raw.end == Off(s, Consumed(a + v))
    ensures |Spread(h, Chars(a))| <= i && i + |q| <= |Spread(h, Chars(a) + Chars(v))|
  {
    var out := a + v + b;
    MatchAfter(s, h, out, Compose(out, Identity(s)), a, i);
    MatchBefore(s, h, out, Compose(out, Identity(s)), a + v, i + |q| - 1);
    PartsChars(a, v, b);
  }

  lemma {:induction false} PartsText(
    s: string, h: char -> string, a: seq<Emitted>, v: seq<Emitted>, b: seq<Emitted>)
    requires Consumed(a + v + b) <= |s|
    ensures Text(FlatMap(h, Compose(a + v + b, Identity(s)))) == Spread(h, Chars(a) + Chars(v) + Chars(b))
  {
    FlatMapText(h, Compose(a + v + b, Identity(s)));
    ComposeText(a + v + b, Identity(s));
    PartsChars(a, v, b);
  }

  /** A quote that comes from the middle part stands in that part's text. */
  lemma {:induction false} FoundInPart(
    s: string, h: char -> string, a: seq<Emitted>, v: seq<Emitted>, b: seq<Emitted>,
    q: string, i: nat, cells: seq<Cell>, again: string) returns (at: nat)
    requires Consumed(a + v + b) <= |s| && cells == FlatMap(h, Compose(a + v + b, Identity(s)))
    requires again == Spread(h, Chars(v)) && Occurs(Text(cells), q, i)
    requires |Spread(h, Chars(a))| <= i && i + |q| <= |Spread(h, Chars(a) + Chars(v))|
    ensures Occurs(again, q, at)
  {
    PartsText(s, h, a, v, b);
    at := PartHolds(h, Chars(a), Chars(v), Chars(b), q, i, Text(cells), again);
  }

  lemma {:induction false} FirstMatch(t: Tables, s: string, cells: seq<Cell>, q: string, r: Resolution)
    returns (i: nat)
    requires ResolvesIn(t, s, cells, q, r) && r.Found?
    ensures EndsOn(cells, q, r.m.raw, i)
  {
    i :| MatchAt(s, cells, q, r.m, i);
    MatchSpan(s, cells, q, r.m, i, i + |q| - 1);
  }

  lemma {:induction false} CompactParts(
    t: Tables, s: string, span: string, a: seq<Emitted>, v: seq<Emitted>, b: seq<Emitted>)
    requires Faithful(t.nfkc) && v == t.nfkc(span) && t.nfkc(s) == a + v + b
    ensures Consumed(a + v + b) == |s| && Consumed(v) == |span|
    ensures Compact(t, s) == FlatMap(Spreader(t), Compose(a + v + b, Identity(s)))
    ensures Text(Compact(t, span)) == Spread(Spreader(t), Chars(v))
  {
    CompactIs(t, s);
    CompactIs(t, span);
  }

  /** Wherever NFKC treats the raw span by itself as it does inside the text, the raw span of a
      resolution still contains the quote it was resolved for. */
  lemma {:induction false} RawSpanContainsQuote(
    t: Tables, s: string, q: string, r: Resolution, a: seq<Emitted>, b: seq<Emitted>) returns (at: nat)
    requires Faithful(t.nfkc) && Resolves(t, s, q, r) && r.Found? && Splits(t, s, r.m, a, b)
    ensures Occurs(Text(Compact(t, r.m.rawSpan)), q, at)
  {
    var m := r.m;
    var cells, again, v := Compact(t, s), Text(Compact(t, m.rawSpan)), t.nfkc(m.rawSpan);
    var i := FirstMatch(t, s, cells, q, r);
    CompactParts(t, s, m.rawSpan, a, v, b);
    PartEnds(s, m.raw, m.rawSpan, a, v);
    MatchInPart(s, Spreader(t), cells, a, v, b, m.raw, q, i);
    at := FoundInPart(s, Spreader(t), a, v, b, q, i, cells, again);
  }

  // ---- Text already in NFKC -----------------------------------------------

  /** The stream of a text that NFKC leaves alone. */
  function Plain(s: string): (out: seq<Emitted>)
    ensures |out| == |s| && forall i {:trigger out[i]} :: 0 <= i < |s| ==> out[i] == Emitted(s[i], 0)
  {
    seq(|s|, i requires 0 <= i < |s| => Emitted(s[i], 0))
  }

  lemma {:induction false} PlainConsumes(s: string)
    ensures Consumed(Plain(s)) == |s|
  {
    if s != "" {
      var n := |s| - 1;
      assert Plain(s)[..n] == Plain(s[..n]);
      PlainConsumes(s[..n]);
    }
  }

  /** In particular where NFKC leaves text and raw span alone. */
  lemma {:induction false} PlainSplits(t: Tables, s: string, m: GroundingMatch)
    requires Sliceable(s, m.raw.start, m.raw.end) && m.rawSpan == Slice(s, m.raw.start, m.raw.end)
    requires t.nfkc(s) == Plain(s) && t.nfkc(m.rawSpan) == Plain(m.rawSpan)
    ensures var i, j := CharAt(s, m.raw.start), CharAt(s, m.raw.end);
      i <= j && Splits(t, s, m, Plain(s[..i]), Plain(s[j..]))
  {
    var i, j := CharAt(s, m.raw.start), CharAt(s, m.raw.end);
    SliceLength(s, m.raw.start, m.raw.end);
    PlainConsumes(s[..i]);
    assert Plain(s) == Plain(s[..i]) + Plain(s[i..j]) + Plain(s[j..]);
  }
}
