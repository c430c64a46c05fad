/** The written form of a document can be read back by some reader, whatever the document; and
    still a valid document can have a file that no start-up reads. */
module CatalogFiles {
  import opened Options
  import opened Utf8
  import opened CatalogDocuments

  // ---- Escaped text ends at its quote -------------------------------------

  lemma {:induction false} Reassociate(a: string, b: string, c: string)
    ensures a + b + c == a + (b + c)
  {
  }

  lemma {:induction false} AppendNothing(a: string)
    ensures a + "" == a
  {
  }

  lemma {:induction false} SplitLast(s: string)
    requires s != ""
    ensures s[..|s| - 1] + [s[|s| - 1]] == s
  {
  }

  lemma {:induction false} EscapeSnoc(s: string, c: char)
    ensures Escape(s + [c]) == Escape(s) + EscapeChar(c)
  {
    assert (s + [c])[..|s|] == s;
  }

  lemma {:induction false} EscapeOne(c: char)
    ensures Escape([c]) == EscapeChar(c)
  {
    EscapeSnoc("", c);
    assert "" + [c] == [c] && "" + EscapeChar(c) == EscapeChar(c);
  }

  lemma {:induction false} EscapeBoth(c: char, t: string, d: char)
    requires Escape([c] + t) == EscapeChar(c) + Escape(t)
    ensures Escape([c] + (t + [d])) == EscapeChar(c) + Escape(t + [d])
  {
    EscapeSnoc([c] + t, d);
    EscapeSnoc(t, d);
    Reassociate([c], t, [d]);
    Reassociate(EscapeChar(c), Escape(t), EscapeChar(d));
  }

  lemma {:induction false} EscapeCons(c: char, s: string)
    ensures Escape([c] + s) == EscapeChar(c) + Escape(s)
  {
    if s == "" {
      EscapeOne(c);
      AppendNothing([c]);
      AppendNothing(EscapeChar(c));
    } else {
      var n := |s| - 1;
      EscapeCons(c, s[..n]);
      EscapeBoth(c, s[..n], s[n]);
      SplitLast(s);
    }
  }

  /** No character's written form starts another's. */
  lemma {:induction false} CharPrefix(c: char, d: char, x: string, y: string)
    requires EscapeChar(c) + x == EscapeChar(d) + y
    ensures c == d
  {
    var p, q := EscapeChar(c), EscapeChar(d);
    assert (p + x)[0] == p[0] && (q + y)[0] == q[0];
    if 1 < |p| && 1 < |q| {
      assert (p + x)[1] == p[1] && (q + y)[1] == q[1];
      if 2 < |p| && 2 < |q| {
        assert (p + x)[4] == p[4] && (q + y)[4] == q[4];
        assert (p + x)[5] == p[5] && (q + y)[5] == q[5];
        HexApart(c as int / 16, d as int / 16);
        HexApart(c as int % 16, d as int % 16);
      }
    }
  }

  lemma {:induction false} HexApart(m: nat, n: nat)
    requires m < 16 && n < 16 && HexDigit(m) == HexDigit(n)
    ensures m == n
  {
  }

  lemma {:induction false} Cancel(a: string, x: string, y: string)
    requires a + x == a + y
    ensures x == y
  {
    assert x == (a + x)[|a|..] && y == (a + y)[|a|..];
  }

  lemma {:induction false} NoQuoteFirst(c: char, x: string)
    ensures (EscapeChar(c) + x)[0] != '"'
  {
  }

  /** Where an escaped text ends, and what it says, shows from the file alone. */
  lemma {:induction false} EscapePrefix(s: string, t: string, x: string, y: string)
    requires Escape(s) + (['"'] + x) == Escape(t) + (['"'] + y)
    ensures s == t && x == y
    decreases |s|
  {
    if s == "" || t == "" {
      if s != "" { First(s, x); }
      if t != "" { First(t, y); }
      assert s == "" ==> (Escape(s) + (['"'] + x))[0] == '"';
      assert t == "" ==> (Escape(t) + (['"'] + y))[0] == '"';
      Cancel(Escape(s), ['"'] + x, ['"'] + y);
      Cancel(['"'], x, y);
    } else {
      var c, s1, d, t1 := s[0], s[1..], t[0], t[1..];
      First(s, x);
      First(t, y);
      CharPrefix(c, d, Escape(s1) + (['"'] + x), Escape(t1) + (['"'] + y));
      Cancel(EscapeChar(c), Escape(s1) + (['"'] + x), Escape(t1) + (['"'] + y));
      EscapePrefix(s1, t1, x, y);
      assert s == [c] + s1 && t == [d] + t1;
    }
  }

  lemma {:induction false} First(s: string, x: string)
    requires s != ""
    ensures Escape(s) + (['"'] + x) == EscapeChar(s[0]) + (Escape(s[1..]) + (['"'] + x))
    ensures (Escape(s) + (['"'] + x))[0] != '"'
  {
    EscapeCons(s[0], s[1..]);
    assert s == [s[0]] + s[1..];
    Reassociate(EscapeChar(s[0]), Escape(s[1..]), ['"'] + x);
    NoQuoteFirst(s[0], Escape(s[1..]) + (['"'] + x));
  }

  lemma {:induction false} QuoteOpens(s: string, x: string)
    ensures Quote(s) + x == ['"'] + (Escape(s) + (['"'] + x))
  {
    Reassociate(['"'], Escape(s), ['"']);
    Reassociate(['"'], Escape(s) + ['"'], x);
    Reassociate(Escape(s), ['"'], x);
  }

  lemma {:induction false} QuotePrefix(s: string, t: string, x: string, y: string)
    requires Quote(s) + x == Quote(t) + y
    ensures s == t && x == y
  {
    QuoteOpens(s, x);
    QuoteOpens(t, y);
    Cancel(['"'], Escape(s) + (['"'] + x), Escape(t) + (['"'] + y));
    EscapePrefix(s, t, x, y);
  }

  lemma {:induction false} QuoteOptionPrefix(s: Option<string>, t: Option<string>, x: string, y: string)
    requires QuoteOption(s) + x == QuoteOption(t) + y
    ensures s == t && x == y
  {
    assert (QuoteOption(s) + x)[0] == QuoteOption(s)[0] && (QuoteOption(t) + y)[0] == QuoteOption(t)[0];
    if s.Some? && t.Some? {
      QuotePrefix(s.value, t.value, x, y);
    } else if s.None? && t.None? {
      Cancel("null", x, y);
    }
  }

  // ---- Files tell documents apart -----------------------------------------

  lemma {:induction false} FieldApart(name: string, s: string, t: string, x: string, y: string)
    requires Field(name, Quote(s), x) == Field(name, Quote(t), y)
    ensures s == t && x == y
  {
    Cancel(name, Quote(s) + x, Quote(t) + y);
    QuotePrefix(s, t, x, y);
  }

  lemma {:induction false} FieldOptionApart(name: string, s: Option<string>, t: Option<string>, x: string, y: string)
    requires Field(name, QuoteOption(s), x) == Field(name, QuoteOption(t), y)
    ensures s == t && x == y
  {
    Cancel(name, QuoteOption(s) + x, QuoteOption(t) + y);
    QuoteOptionPrefix(s, t, x, y);
  }

  ghost predicate Apart(time: int -> string) { forall m, n :: time(m) == time(n) ==> m == n }

  function Text(time: int -> string, d: SourceDocument): string { Before(time, d, Quote(d.raw) + ['}']) }

  lemma {:induction false} FilesApart(time: int -> string, d: SourceDocument, e: SourceDocument)
    requires Apart(time) && Text(time, d) == Text(time, e)
    ensures d == e
  {
    BeforeApart(time, d, e, Quote(d.raw) + ['}'], Quote(e.raw) + ['}']);
    QuotePrefix(d.raw, e.raw, ['}'], ['}']);
  }

  lemma {:induction false} BeforeApart(time: int -> string, d: SourceDocument, e: SourceDocument, x: string, y: string)
    requires Apart(time) && Before(time, d, x) == Before(time, e, y)
    ensures x == y && d == e.(raw := d.raw)
  {
    var raw := ",\"raw\":";
    var ld, le := Field(",\"last_modified\":", QuoteOption(d.lastModified), raw + x),
      Field(",\"last_modified\":", QuoteOption(e.lastModified), raw + y);
    var td, te := Field(",\"etag\":", QuoteOption(d.etag), ld), Field(",\"etag\":", QuoteOption(e.etag), le);
    var gd, ge := Field(",\"digest\":", Quote(d.digest), td), Field(",\"digest\":", Quote(e.digest), te);
    var fd, fe := Field(",\"fetched_at\":", Quote(time(d.fetchedAt)), gd),
      Field(",\"fetched_at\":", Quote(time(e.fetchedAt)), ge);
    FieldApart("{\"source\":", d.source, e.source, fd, fe);
    FieldApart(",\"fetched_at\":", time(d.fetchedAt), time(e.fetchedAt), gd, ge);
    FieldApart(",\"digest\":", d.digest, e.digest, td, te);
    FieldOptionApart(",\"etag\":", d.etag, e.etag, ld, le);
    FieldOptionApart(",\"last_modified\":", d.lastModified, e.lastModified, raw + x, raw + y);
    Cancel(raw, x, y);
  }

  /** A reader: the one document with this file. */
  ghost function Decode(time: int -> string, file: string): Option<SourceDocument> {
    if exists d :: Text(time, d) == file then var d :| Text(time, d) == file; Some(d) else None
  }

  lemma {:induction false} DecodeReads(time: int -> string, d: SourceDocument)
    requires Apart(time)
    ensures Decode(time, Text(time, d)) == Some(d)
  {
    var e := Decode(time, Text(time, d)).value;
    FilesApart(time, e, d);
  }

  // ---- A valid document that cannot be read back --------------------------

  function Tally(n: int): string { if 0 <= n then Marks(n) else "-" + Marks(-n) }

  function Marks(n: nat): (s: string)
    ensures |s| == n && (0 < n ==> s[0] == '|')
  {
    seq(n, _ => '|')
  }

  lemma {:induction false} TallyApart()
    ensures Apart(Tally)
  {
    forall m, n | Tally(m) == Tally(n) ensures m == n {
      assert (m < 0 ==> Tally(m)[0] == '-') && (n < 0 ==> Tally(n)[0] == '-');
    }
  }

  function Repeated(c: char, n: nat): (s: string)
    ensures |s| == n && forall i :: 0 <= i < n ==> s[i] == c
  {
    seq(n, _ => c)
  }

  lemma {:induction false} LineFeeds(s: string)
    requires forall i :: 0 <= i < |s| ==> s[i] == '\n'
    ensures PlainBytes(s) == 0 && Bytes(s) == |s|
  {
    if s != "" { LineFeeds(s[..|s| - 1]); }
  }

  /** Documents as large as allowed, with fewer plain bytes than the header takes. */
  lemma {:induction false} LargestMayBeUnreadable(w: World, kind: Source, d: SourceDocument)
    requires WritesJson(w)
    requires Bytes(d.raw) == MAX_SOURCE_BYTES && PlainBytes(d.raw) < Bytes(Header(w, d)) + 3
    ensures ReadFile(w, kind, Some(w.encode(d))) == Err(FileTooLarge)
  {
    ReadableIff(w, d);
  }

  /** Some hash, parsers, writer and reader. */
  ghost function ExampleWorld(): World {
    World(_ => "", _ => "", _ => Some(ModelCatalog("", 0, {"p"}, {"m"})), _ => Some(ParameterCatalog("", [])),
          _ => None, Tally, d => Text(Tally, d), file => Decode(Tally, file))
  }

  lemma {:induction false} ExampleFaithful()
    ensures Faithful(ExampleWorld()) && WritesJson(ExampleWorld())
  {
    var w := ExampleWorld();
    TallyApart();
    forall d: SourceDocument ensures w.decode(w.encode(d)) == Some(d) { DecodeReads(Tally, d); }
  }

  /** A document that validation accepts and writing encodes faithfully, yet reading refuses. */
  lemma {:induction false} UnreadableDocument(kind: Source) returns (w: World, d: SourceDocument)
    ensures Faithful(w) && WritesJson(w) && Validate(w, kind, d).Ok?
    ensures ReadFile(w, kind, Some(w.encode(d))) == Err(FileTooLarge)
  {
    ExampleFaithful();
    w, d := ExampleWorld(), SourceDocument("", 0, "", None, None, Repeated('\n', MAX_SOURCE_BYTES));
    LineFeeds(d.raw);
    ExampleAccepts(kind, d);
    LargestMayBeUnreadable(w, kind, d);
  }

  lemma {:induction false} ExampleAccepts(kind: Source, d: SourceDocument)
    requires d.source == "" && d.digest == "" && Bytes(d.raw) <= MAX_SOURCE_BYTES
    ensures Validate(ExampleWorld(), kind, d).Ok?
  {
  }
}
