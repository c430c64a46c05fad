/** Catalog source documents: what makes one valid, how one is written to disk, and which
    of the bundled and the cached copy a start-up selects. */
module CatalogDocuments {
  import opened Options
  import opened Utf8

  datatype Source = Models | Parameters

  const MAX_SOURCE_BYTES: nat := 32 * 1024 * 1024

  datatype SourceDocument = SourceDocument(
    source: string,
    fetchedAt: int,
    digest: string,
    etag: Option<string>,
    lastModified: Option<string>,
    raw: string)

  datatype ModelCatalog = ModelCatalog(version: string, fetchedAt: int, providers: set<string>, entries: set<string>)
  datatype ParameterCatalog = ParameterCatalog(version: string, models: seq<string>)
  datatype Parsed = ParsedModels(models: ModelCatalog) | ParsedParameters(parameters: ParameterCatalog)

  datatype Failure =
    | NotSent | Status(code: nat) | NothingToReuse | BodyTooLarge | BodyBroken | NotUtf8
    | Mismatch | Unparsable | EmptyCatalog
    | DiskFailure | Missing | FileTooLarge | Undecodable

  datatype Result<T> = Ok(value: T) | Err(error: Failure)

  /** What comes from libraries and configuration: addresses, the hash, the two catalog
      parsers, UTF-8 decoding and the JSON form of a document. */
  datatype World = World(
    url: Source -> string,
    digest: string -> string,
    parseModels: string -> Option<ModelCatalog>,
    parseParameters: string -> Option<ParameterCatalog>,
    utf8: seq<bv8> -> Option<string>,
    time: int -> string,
    encode: SourceDocument -> string,
    decode: string -> Option<SourceDocument>)

  /** Reading back what was written gives the document; decoding keeps the byte count. */
  ghost predicate Faithful(w: World) {
    && (forall d :: w.decode(w.encode(d)) == Some(d))
    && (forall b :: w.utf8(b).Some? ==> Bytes(w.utf8(b).value) == |b|)
  }

  function Parse(w: World, kind: Source, raw: string, fetchedAt: int): Result<Parsed> {
    match kind
    case Models =>
      var parsed := w.parseModels(raw);
      if parsed.None? then Err(Unparsable)
      else if parsed.value.providers == {} || parsed.value.entries == {} then Err(EmptyCatalog)
      else Ok(ParsedModels(parsed.value.(fetchedAt := fetchedAt)))
    case Parameters =>
      var parsed := w.parseParameters(raw);
      if parsed.None? then Err(Unparsable) else Ok(ParsedParameters(parsed.value))
  }

  function Validate(w: World, kind: Source, d: SourceDocument): Result<Parsed> {
    if d.source != w.url(kind) || Bytes(d.raw) > MAX_SOURCE_BYTES || w.digest(d.raw) != d.digest then Err(Mismatch)
    else Parse(w, kind, d.raw, d.fetchedAt)
  }

  /** Only the parsed form for that source comes out of validation. */
  predicate ParsedFor(kind: Source, parsed: Parsed) { parsed.ParsedModels? <==> kind == Models }

  lemma {:induction false} ValidateKind(w: World, kind: Source, d: SourceDocument)
    ensures Validate(w, kind, d).Ok? ==> ParsedFor(kind, Validate(w, kind, d).value)
  {
  }

  /** Identity, size and digest are as they should be. */
  predicate Authentic(w: World, kind: Source, d: SourceDocument) {
    d.source == w.url(kind) && Bytes(d.raw) <= MAX_SOURCE_BYTES && w.digest(d.raw) == d.digest
  }

  /** `parsed` is what the document's text holds: a model catalog that is not empty, with the time
      of the document, or a parameter catalog. */
  predicate IsParse(w: World, kind: Source, d: SourceDocument, parsed: Parsed) {
    match kind
    case Models =>
      var c := w.parseModels(d.raw);
      && c.Some? && c.value.providers != {} && c.value.entries != {}
      && parsed == ParsedModels(
           ModelCatalog(c.value.version, d.fetchedAt, c.value.providers, c.value.entries))
    case Parameters => w.parseParameters(d.raw).Some? && parsed == ParsedParameters(w.parseParameters(d.raw).value)
  }

  ghost predicate Acceptable(w: World, kind: Source, d: SourceDocument) {
    Authentic(w, kind, d) && exists parsed :: IsParse(w, kind, d, parsed)
  }

  /** Validation accepts exactly the authentic documents that parse. */
  lemma {:induction false} ValidateExact(w: World, kind: Source, d: SourceDocument)
    ensures Validate(w, kind, d).Ok? <==> Acceptable(w, kind, d)
    ensures Validate(w, kind, d).Ok? ==> IsParse(w, kind, d, Validate(w, kind, d).value)
    ensures Validate(w, kind, d) == Err(Mismatch) <==> !Authentic(w, kind, d)
  {
    if Validate(w, kind, d).Ok? { assert IsParse(w, kind, d, Validate(w, kind, d).value); }
  }

  // ---- Fetching -----------------------------------------------------------

  datatype Response =
    | Unsent
    | Answer(status: nat, etag: Option<string>, lastModified: Option<string>, chunks: seq<seq<bv8>>, broken: bool)

  function Joined(chunks: seq<seq<bv8>>): seq<bv8> {
    if chunks == [] then [] else Joined(chunks[..|chunks| - 1]) + chunks[|chunks| - 1]
  }

  /** The whole body, however it was cut into chunks. */
  function Body(chunks: seq<seq<bv8>>, broken: bool): Result<seq<bv8>> {
    if |Joined(chunks)| > MAX_SOURCE_BYTES then Err(BodyTooLarge)
    else if broken then Err(BodyBroken)
    else Ok(Joined(chunks))
  }

  function Or(first: Option<string>, second: Option<string>): Option<string> { if first.Some? then first else second }

  /** The document a body makes, before the response headers are added. */
  function Downloaded(w: World, kind: Source, body: Result<seq<bv8>>, now: int): Result<SourceDocument> {
    if body.Err? then Err(body.error)
    else
      var raw := w.utf8(body.value);
      if raw.None? then Err(NotUtf8)
      else Ok(SourceDocument(w.url(kind), now, w.digest(raw.value), None, None, raw.value))
  }

  /** The document a response stands for: the previous one again on 304, else the body. */
  function Fetched(
    w: World, kind: Source, previous: Option<SourceDocument>, response: Response, now: int): Result<SourceDocument> {
    if response.Unsent? then Err(NotSent)
    else
      var base :=
        if response.status == 304 then
          if previous.Some? then Ok(previous.value) else Err(NothingToReuse)
        else if !(200 <= response.status < 300) then Err(Status(response.status))
        else Downloaded(w, kind, Body(response.chunks, response.broken), now);
      if base.Err? then base
      else
        Ok(base.value.(
           fetchedAt := now,
           etag := Or(response.etag, base.value.etag),
           lastModified := Or(response.lastModified, base.value.lastModified)))
  }

  /** A chunk more is that chunk behind the body. */
  lemma {:induction false} JoinedConcat(a: seq<seq<bv8>>, b: seq<seq<bv8>>)
    ensures Joined(a + b) == Joined(a) + Joined(b)
    ensures |b| == 1 ==> Joined(b) == b[0]
  {
    if b == [] {
      assert a + b == a;
    } else {
      var n := |b| - 1;
      assert (a + b)[..|a + b| - 1] == a + b[..n];
      JoinedConcat(a, b[..n]);
    }
  }

  /** A header of the response counts first; one of the previous document is reused on 304 only. */
  predicate HeaderFrom(mine: Option<string>, sent: Option<string>, previous: Option<string>, reused: bool) {
    mine == if sent.Some? then sent else if reused then previous else None
  }

  /** `d` is what the response says: the previous text again, or the whole body decoded. */
  predicate Represents(
    w: World, kind: Source, previous: Option<SourceDocument>, response: Response, now: int, d: SourceDocument) {
    && response.Answer? && d.fetchedAt == now
    && (response.status == 304 ==>
          && previous.Some? && d.raw == previous.value.raw
          && d.source == previous.value.source && d.digest == previous.value.digest)
    && (response.status != 304 ==>
          && 200 <= response.status < 300 && !response.broken && |Joined(response.chunks)| <= MAX_SOURCE_BYTES
          && w.utf8(Joined(response.chunks)) == Some(d.raw)
          && d.source == w.url(kind) && d.digest == w.digest(d.raw))
    && var base := if previous.Some? then previous.value else d;
       && HeaderFrom(d.etag, response.etag, base.etag, response.status == 304)
       && HeaderFrom(d.lastModified, response.lastModified, base.lastModified, response.status == 304)
  }

  /** Why there is no document. */
  predicate FailsWith(w: World, previous: Option<SourceDocument>, response: Response, error: Failure) {
    if response.Unsent? then error == NotSent
    else if response.status == 304 then previous.None? && error == NothingToReuse
    else if response.status < 200 || 300 <= response.status then error == Status(response.status)
    else if |Joined(response.chunks)| > MAX_SOURCE_BYTES then error == BodyTooLarge
    else if response.broken then error == BodyBroken
    else w.utf8(Joined(response.chunks)).None? && error == NotUtf8
  }

  /** A response gives the document it stands for, or the one error that applies. */
  lemma {:induction false} FetchedIs(
    w: World, kind: Source, previous: Option<SourceDocument>, response: Response, now: int)
    ensures match Fetched(w, kind, previous, response, now)
            case Ok(d) => Represents(w, kind, previous, response, now, d)
            case Err(error) => FailsWith(w, previous, response, error)
  {
  }

  lemma {:induction false} OnlyDocument(
    w: World, kind: Source, previous: Option<SourceDocument>, response: Response, now: int, d: SourceDocument)
    requires Represents(w, kind, previous, response, now, d)
    ensures Fetched(w, kind, previous, response, now) == Ok(d)
  {
  }

  /** Re-stamping a document keeps its validity, and its catalog but for the time. */
  lemma {:induction false} RestampValid(w: World, kind: Source, d: SourceDocument, e: SourceDocument)
    requires e.source == d.source && e.digest == d.digest && e.raw == d.raw
    ensures Validate(w, kind, e).Ok? <==> Validate(w, kind, d).Ok?
  {
  }

  /** "Not modified" never fails once there is a valid document to reuse: same catalog, new time. */
  lemma {:induction false} NotModifiedSucceeds(
    w: World, kind: Source, previous: Option<SourceDocument>, response: Response, now: int)
    requires response.Answer? && response.status == 304
    requires previous.Some? ==> Validate(w, kind, previous.value).Ok?
    ensures var f := Fetched(w, kind, previous, response, now);
            if previous.None? then f == Err(NothingToReuse)
            else
              && f.Ok? && Validate(w, kind, f.value).Ok?
              && f.value.raw == previous.value.raw && f.value.fetchedAt == now
  {
    if previous.Some? {
      RestampValid(w, kind, previous.value, Fetched(w, kind, previous, response, now).value);
    }
  }

  /** A downloaded body passes the identity, size and digest checks; only its content can be refused. */
  lemma {:induction false} DownloadFailsInParsingOnly(
    w: World, kind: Source, previous: Option<SourceDocument>, response: Response, now: int)
    requires Faithful(w) && Fetched(w, kind, previous, response, now).Ok? && response.status != 304
    ensures var d := Fetched(w, kind, previous, response, now).value;
            Validate(w, kind, d) == Parse(w, kind, d.raw, now)
  {
  }

  // ---- Reading and selecting ----------------------------------------------

  function ReadFile(w: World, kind: Source, file: Option<string>): Result<SourceDocument> {
    if file.None? then Err(Missing)
    else if Bytes(file.value) > 2 * MAX_SOURCE_BYTES then Err(FileTooLarge)
    else
      var d := w.decode(file.value);
      if d.None? then Err(Undecodable)
      else
        var v := Validate(w, kind, d.value);
        if v.Err? then Err(v.error) else Ok(d.value)
  }

  datatype Origin = Bundled | Cache | Remote
  datatype SourceState = SourceState(origin: Origin, document: Option<SourceDocument>, error: Option<Failure>)

  /** What a start-up selects for one source, in the order the code decides it. */
  function LoadOne(w: World, kind: Source, bundled: Option<string>, cache: Option<string>): SourceState {
    var seed, cached := ReadFile(w, kind, bundled), ReadFile(w, kind, cache);
    var selected := if seed.Ok? then Some(seed.value) else None;
    var error := if bundled.Some? && seed.Err? then Some(seed.error) else None;
    if cached.Ok? then
      if selected.None? || cached.value.fetchedAt >= selected.value.fetchedAt
      then SourceState(Cache, Some(cached.value), error)
      else SourceState(Bundled, selected, error)
    else SourceState(Bundled, selected, if cache.None? then error else Some(cached.error))
  }

  /** What a start-up reports: what is wrong with the cache file, or else with the bundled one. */
  lemma {:induction false} LoadReports(w: World, kind: Source, bundled: Option<string>, cache: Option<string>)
    ensures var reported := LoadOne(w, kind, bundled, cache).error;
      if cache.Some? && ReadFile(w, kind, cache).Err? then reported == Some(ReadFile(w, kind, cache).error)
      else if bundled.Some? && ReadFile(w, kind, bundled).Err?
      then reported == Some(ReadFile(w, kind, bundled).error)
      else reported.None?
  {
  }

  predicate Cached(w: World, kind: Source, cache: Option<string>, d: SourceDocument) {
    ReadFile(w, kind, cache) == Ok(d)
  }

  /** `d` is one of the valid copies on offer. */
  predicate Candidate(w: World, kind: Source, bundled: Option<string>, cache: Option<string>, d: SourceDocument) {
    ReadFile(w, kind, bundled) == Ok(d) || Cached(w, kind, cache, d)
  }

  /** The newest valid copy is selected, the cache on a tie, and nothing only when nothing is valid. */
  lemma {:induction false} LoadSelectsNewest(w: World, kind: Source, bundled: Option<string>, cache: Option<string>)
    ensures var st := LoadOne(w, kind, bundled, cache);
            && (st.document.None? <==> forall d :: !Candidate(w, kind, bundled, cache, d))
            && (st.document.Some? ==> Candidate(w, kind, bundled, cache, st.document.value)
                                      && Validate(w, kind, st.document.value).Ok?)
            && (forall d :: Candidate(w, kind, bundled, cache, d) ==> d.fetchedAt <= st.document.value.fetchedAt)
            && (forall d :: Cached(w, kind, cache, d) && st.document.Some? && d.fetchedAt == st.document.value.fetchedAt
                            ==> st.origin == Cache && st.document == Some(d))
  {
    var st := LoadOne(w, kind, bundled, cache);
    assert st.document.Some? ==> Candidate(w, kind, bundled, cache, st.document.value);
    var seed, cached := ReadFile(w, kind, bundled), ReadFile(w, kind, cache);
    assert seed.Ok? ==> Candidate(w, kind, bundled, cache, seed.value);
    assert cached.Ok? ==> Candidate(w, kind, bundled, cache, cached.value);
  }

  /** A bundled copy that is valid and strictly newer than `d`. */
  predicate Outdated(w: World, kind: Source, bundled: Option<string>, d: SourceDocument) {
    var seed := ReadFile(w, kind, bundled);
    seed.Ok? && seed.value.fetchedAt > d.fetchedAt
  }

  /** A written document is selected from the cache exactly when its file fits the read
      limit and no bundled copy is newer. */
  lemma {:induction false} WrittenIsReloadedIff(w: World, kind: Source, bundled: Option<string>, d: SourceDocument)
    requires Faithful(w) && Validate(w, kind, d).Ok?
    ensures var st := LoadOne(w, kind, bundled, Some(w.encode(d)));
            st.origin == Cache && st.document == Some(d)
            <==> Bytes(w.encode(d)) <= 2 * MAX_SOURCE_BYTES && !Outdated(w, kind, bundled, d)
  {
    assert w.decode(w.encode(d)) == Some(d);
  }

  // ---- The file's size ----------------------------------------------------

  /** One character inside a JSON string, as serde_json writes it. */
  function EscapeChar(c: char): string {
    if c == '"' || c == '\\' then ['\\', c]
    else if c == '\n' then ['\\', 'n']
    else if c == '\r' then ['\\', 'r']
    else if c == '\t' then ['\\', 't']
    else if c as int == 8 then ['\\', 'b']
    else if c as int == 12 then ['\\', 'f']
    else if c as int < 0x20 then ['\\', 'u', '0', '0', HexDigit(c as int / 16), HexDigit(c as int % 16)]
    else [c]
  }

  function HexDigit(n: nat): char
    requires n < 16
  {
    "0123456789abcdef"[n]
  }

  function Escape(s: string): string {
    if s == "" then "" else Escape(s[..|s| - 1]) + EscapeChar(s[|s| - 1])
  }

  function Quote(s: string): string { ['"'] + Escape(s) + ['"'] }

  function QuoteOption(s: Option<string>): string { if s.Some? then Quote(s.value) else "null" }

  function Field(name: string, value: string, tail: string): string { name + (value + tail) }

  /** The file: every field but the raw text, and then `tail`. */
  function Before(time: int -> string, d: SourceDocument, tail: string): string {
    Field("{\"source\":", Quote(d.source),
      Field(",\"fetched_at\":", Quote(time(d.fetchedAt)),
        Field(",\"digest\":", Quote(d.digest),
          Field(",\"etag\":", QuoteOption(d.etag),
            Field(",\"last_modified\":", QuoteOption(d.lastModified), ",\"raw\":" + tail)))))
  }

  /** Everything of the file before the raw text. */
  function Header(w: World, d: SourceDocument): string { Before(w.time, d, "") }

  ghost predicate WritesJson(w: World) {
    forall d :: w.encode(d) == Before(w.time, d, Quote(d.raw) + ['}'])
  }

  /** Bytes of the characters written as they are. */
  function PlainBytes(s: string): nat {
    if s == "" then 0
    else PlainBytes(s[..|s| - 1]) + if |EscapeChar(s[|s| - 1])| == 1 then LenUtf8(s[|s| - 1]) else 0
  }

  /** Control characters that need a four-digit escape. */
  function LongEscapes(s: string): nat {
    if s == "" then 0 else LongEscapes(s[..|s| - 1]) + if |EscapeChar(s[|s| - 1])| == 6 then 1 else 0
  }

  lemma {:induction false} AsciiBytes(s: string)
    ensures (forall i :: 0 <= i < |s| ==> s[i] as int < 0x80) ==> Bytes(s) == |s|
  {
    if s != "" {
      AsciiBytes(s[..|s| - 1]);
    }
  }

  lemma {:induction false} EscapeCharBytes(c: char)
    ensures |EscapeChar(c)| == 1 ==> Bytes(EscapeChar(c)) == LenUtf8(c)
    ensures |EscapeChar(c)| != 1 ==> Bytes(EscapeChar(c)) == |EscapeChar(c)| && LenUtf8(c) == 1
    ensures |EscapeChar(c)| in {1, 2, 6}
  {
    var e := EscapeChar(c);
    AsciiBytes(e);
    assert |e| == 1 ==> e[..0] == "" && Bytes(e) == LenUtf8(c);
  }

  /** Escaping doubles everything but the plain characters, and adds four more to the long ones. */
  lemma {:induction false} EscapeBytes(s: string)
    ensures Bytes(Escape(s)) + PlainBytes(s) == 2 * Bytes(s) + 4 * LongEscapes(s)
  {
    if s != "" {
      var n := |s| - 1;
      EscapeBytes(s[..n]);
      EscapeCharBytes(s[n]);
      BytesConcat(Escape(s[..n]), EscapeChar(s[n]));
    }
  }

  lemma {:induction false} FieldBytes(name: string, value: string, tail: string)
    ensures Bytes(Field(name, value, tail)) == Bytes(name) + Bytes(value) + Bytes(tail)
  {
    BytesConcat(name, value + tail);
    BytesConcat(value, tail);
  }

  lemma {:induction false} BeforeBytes(time: int -> string, d: SourceDocument, tail: string)
    ensures Bytes(Before(time, d, tail)) == Bytes(Before(time, d, "")) + Bytes(tail)
  {
    var raw := ",\"raw\":";
    BytesConcat(raw, tail);
    BytesConcat(raw, "");
    FieldTails(",\"last_modified\":", QuoteOption(d.lastModified), raw + tail, raw + "");
    var l, l0 := Field(",\"last_modified\":", QuoteOption(d.lastModified), raw + tail),
      Field(",\"last_modified\":", QuoteOption(d.lastModified), raw + "");
    FieldTails(",\"etag\":", QuoteOption(d.etag), l, l0);
    var e, e0 := Field(",\"etag\":", QuoteOption(d.etag), l), Field(",\"etag\":", QuoteOption(d.etag), l0);
    FieldTails(",\"digest\":", Quote(d.digest), e, e0);
    var g, g0 := Field(",\"digest\":", Quote(d.digest), e), Field(",\"digest\":", Quote(d.digest), e0);
    FieldTails(",\"fetched_at\":", Quote(time(d.fetchedAt)), g, g0);
    FieldTails("{\"source\":", Quote(d.source), Field(",\"fetched_at\":", Quote(time(d.fetchedAt)), g),
               Field(",\"fetched_at\":", Quote(time(d.fetchedAt)), g0));
  }

  lemma {:induction false} FieldTails(name: string, value: string, x: string, y: string)
    ensures Bytes(Field(name, value, x)) - Bytes(Field(name, value, y)) == Bytes(x) - Bytes(y)
  {
    FieldBytes(name, value, x);
    FieldBytes(name, value, y);
  }

  /** The size of a document's file: its header, the escaped text, two quotes and a brace. */
  lemma {:induction false} FileBytes(w: World, d: SourceDocument)
    requires WritesJson(w)
    ensures Bytes(w.encode(d)) == Bytes(Header(w, d)) + Bytes(Escape(d.raw)) + 3
  {
    var e := Escape(d.raw);
    BytesConcat(['"'] + e, ['"']);
    BytesConcat(['"'], e);
    BytesConcat(Quote(d.raw), ['}']);
    BeforeBytes(w.time, d, Quote(d.raw) + ['}']);
    AsciiBytes(['"']);
    AsciiBytes(['}']);
  }

  /** Which documents the cache can give back, in terms of the document alone: the room left
      by the text's plain characters must hold the header and the long escapes. */
  lemma {:induction false} ReadableIff(w: World, d: SourceDocument)
    requires WritesJson(w)
    ensures Bytes(w.encode(d)) <= 2 * MAX_SOURCE_BYTES
            <==> Bytes(Header(w, d)) + 2 * Bytes(d.raw) + 4 * LongEscapes(d.raw) + 3
                 <= 2 * MAX_SOURCE_BYTES + PlainBytes(d.raw)
  {
    FileBytes(w, d);
    EscapeBytes(d.raw);
  }
}
