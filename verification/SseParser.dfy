/** The incremental parser of the event stream: however the text is cut into chunks, the
    same events are routed as by reading the whole text line by line. */
module SseParser {
  import opened Strings

  datatype Routed = Routed(event: string, data: string)

  /** What the platform provides: trimming, and whether a payload parses to an object. */
  datatype Codec = Codec(trim: string -> string, parses: string -> bool)

  datatype State = State(buffer: string, currentEvent: string, routed: seq<Routed>)

  const EVENT_PREFIX := "event: "
  const DATA_PREFIX := "data: "

  function Init(parts: seq<string>): seq<string>
    requires parts != []
  {
    parts[..|parts| - 1]
  }

  function Last(parts: seq<string>): string
    requires parts != []
  {
    parts[|parts| - 1]
  }

  function OnLine(codec: Codec, st: State, line: string): State {
    if StartsWith(line, EVENT_PREFIX) then st.(currentEvent := codec.trim(line[7..]))
    else if StartsWith(line, DATA_PREFIX) then
      var routed := if codec.parses(line[6..]) then [Routed(st.currentEvent, line[6..])] else [];
      st.(currentEvent := "", routed := st.routed + routed)
    else st
  }

  function OnLines(codec: Codec, st: State, lines: seq<string>): State {
    if lines == [] then st else OnLine(codec, OnLines(codec, st, lines[..|lines| - 1]), lines[|lines| - 1])
  }

  /** One chunk: every complete line is handled, the rest is kept. */
  function OnChunk(codec: Codec, st: State, chunk: string): State {
    var parts := Split(st.buffer + chunk, '\n');
    OnLines(codec, st, Init(parts)).(buffer := Last(parts))
  }

  function OnChunks(codec: Codec, st: State, chunks: seq<string>): State {
    if chunks == [] then st else OnChunk(codec, OnChunks(codec, st, chunks[..|chunks| - 1]), chunks[|chunks| - 1])
  }

  const START := State("", "", [])

  /** The reference: all complete lines of the whole text, in order. */
  function RoutedBy(codec: Codec, text: string): seq<Routed> {
    var parts := Split(text, '\n');
    OnLines(codec, START, Init(parts)).routed
  }

  function Concat(chunks: seq<string>): string {
    if chunks == [] then "" else Concat(chunks[..|chunks| - 1]) + chunks[|chunks| - 1]
  }

  lemma {:induction false} ConsParts(first: string, parts: seq<string>, rest: seq<string>)
    requires parts != []
    ensures Init([first] + parts) + rest == [first] + (Init(parts) + rest) && Last([first] + parts) == Last(parts)
  {
  }

  lemma {:induction false} ExtendParts(c: char, parts: seq<string>, rest: seq<string>)
    requires |parts| > 1
    ensures var whole := [[c] + parts[0]] + parts[1..];
      && Last(whole) == Last(parts)
      && Init(whole) + rest == [[c] + (Init(parts) + rest)[0]] + (Init(parts) + rest)[1..]
  {
  }

  /** Cutting a text anywhere only cuts its last line. */
  lemma {:induction false} SplitConcat(a: string, b: string, sep: char)
    ensures Split(a + b, sep) == Init(Split(a, sep)) + Split(Last(Split(a, sep)) + b, sep)
  {
    var pa := Split(a, sep);
    if |pa| == 1 {
      SplitSingle(a, sep);
      assert Init(pa) + Split(a + b, sep) == Split(a + b, sep);
    } else {
      var t := a[1..];
      var pt := Split(t, sep);
      SplitConcat(t, b, sep);
      assert (a + b)[1..] == t + b;
      var rest := Split(Last(pt) + b, sep);
      if a[0] == sep {
        ConsParts("", pt, rest);
      } else {
        ExtendParts(a[0], pt, rest);
      }
    }
  }

  lemma {:induction false} SplitSingle(s: string, sep: char)
    requires |Split(s, sep)| == 1
    ensures Split(s, sep) == [s]
  {
    if s != "" {
      SplitSingle(s[1..], sep);
      assert s == [s[0]] + s[1..];
    }
  }

  lemma {:induction false} OnLinesConcat(codec: Codec, st: State, a: seq<string>, b: seq<string>)
    ensures OnLines(codec, st, a + b) == OnLines(codec, OnLines(codec, st, a), b)
  {
    if b == [] {
      assert a + b == a;
    } else {
      var n := |b| - 1;
      assert (a + b)[..|a + b| - 1] == a + b[..n];
      OnLinesConcat(codec, st, a, b[..n]);
    }
  }

  /** The lines never touch the buffer, and do not depend on it. */
  lemma {:induction false} OnLinesBuffer(codec: Codec, st: State, lines: seq<string>, buffer: string)
    ensures OnLines(codec, st.(buffer := buffer), lines) == OnLines(codec, st, lines).(buffer := buffer)
  {
    if lines != [] { OnLinesBuffer(codec, st, lines[..|lines| - 1], buffer); }
  }

  /** Two chunks are one. */
  lemma {:induction false} ChunkConcat(codec: Codec, st: State, a: string, b: string)
    ensures OnChunk(codec, OnChunk(codec, st, a), b) == OnChunk(codec, st, a + b)
  {
    var pa := Split(st.buffer + a, '\n');
    var pb := Split(Last(pa) + b, '\n');
    assert st.buffer + (a + b) == (st.buffer + a) + b;
    SplitConcat(st.buffer + a, b, '\n');
    assert Init(Init(pa) + pb) == Init(pa) + Init(pb) && Last(Init(pa) + pb) == Last(pb);
    OnLinesConcat(codec, st, Init(pa), Init(pb));
    OnLinesBuffer(codec, OnLines(codec, st, Init(pa)), Init(pb), Last(pa));
  }

  lemma {:induction false} ChunksConcat(codec: Codec, st: State, chunks: seq<string>)
    requires Split(st.buffer, '\n') == [st.buffer]
    ensures OnChunks(codec, st, chunks) == OnChunk(codec, st, Concat(chunks))
  {
    if chunks == [] {
      assert st.buffer + "" == st.buffer;
    } else {
      var n := |chunks| - 1;
      ChunksConcat(codec, st, chunks[..n]);
      ChunkConcat(codec, st, Concat(chunks[..n]), chunks[n]);
    }
  }

  /** For every way of cutting a text into chunks, the routed events are those of its
      complete lines. */
  lemma {:induction false} ChunkingIndependent(codec: Codec, chunks: seq<string>)
    ensures OnChunks(codec, START, chunks).routed == RoutedBy(codec, Concat(chunks))
  {
    ChunksConcat(codec, START, chunks);
    assert "" + Concat(chunks) == Concat(chunks);
  }

  // ---- What is routed -----------------------------------------------------

  predicate IsField(line: string, name: string) { StartsWith(line, name + ": ") }

  function Payload(line: string, name: string): string
    requires IsField(line, name)
  {
    line[|name| + 2..]
  }

  /** Line `k` names the event for what follows line `n - 1`: no line after it names one, and none
      has used the name up. */
  ghost predicate Names(lines: seq<string>, k: int, n: int) {
    && 0 <= k < n <= |lines| && IsField(lines[k], "event")
    && forall j :: k < j < n ==> !IsField(lines[j], "event") && !IsField(lines[j], "data")
  }

  /** The event name in force after `n` lines, empty when no line names one. */
  ghost predicate InForce(codec: Codec, lines: seq<string>, n: nat, name: string) {
    && (forall k :: Names(lines, k, n) ==> name == codec.trim(Payload(lines[k], "event")))
    && ((forall k :: !Names(lines, k, n)) ==> name == "")
  }

  /** `routed` are the payloads of the data lines at `at`, each with the name in force before it; and
      these are all the data lines that parse. */
  ghost predicate RoutedFrom(codec: Codec, lines: seq<string>, routed: seq<Routed>, at: seq<nat>) {
    && |at| == |routed| && (forall i, j :: 0 <= i < j < |at| ==> at[i] < at[j])
    && (forall i :: 0 <= i < |at| ==> RoutedAt(codec, lines, routed[i], at[i]))
    && (forall k :: 0 <= k < |lines| && IsField(lines[k], "data") && codec.parses(Payload(lines[k], "data")) ==>
          k in at)
  }

  ghost predicate RoutedAt(codec: Codec, lines: seq<string>, r: Routed, k: nat) {
    && k < |lines| && IsField(lines[k], "data") && r.data == Payload(lines[k], "data") && codec.parses(r.data)
    && InForce(codec, lines, k, r.event)
  }

  lemma {:induction false} NamesPrefix(lines: seq<string>, line: string, k: int, n: nat)
    requires n <= |lines|
    ensures Names(lines + [line], k, n) <==> Names(lines, k, n)
  {
    assert forall j :: 0 <= j < n ==> (lines + [line])[j] == lines[j];
  }

  lemma {:induction false} InForcePrefix(codec: Codec, lines: seq<string>, line: string, n: nat, name: string)
    requires n <= |lines| && InForce(codec, lines, n, name)
    ensures InForce(codec, lines + [line], n, name)
  {
    forall k ensures Names(lines + [line], k, n) <==> Names(lines, k, n) { NamesPrefix(lines, line, k, n); }
  }

  /** How one more line changes which line names the event. */
  lemma {:induction false} NamesNext(lines: seq<string>, line: string, k: int)
    ensures var n := |lines|;
      Names(lines + [line], k, n + 1) <==>
        if k == n then IsField(line, "event")
        else Names(lines, k, n) && !IsField(line, "event") && !IsField(line, "data")
  {
    var all, n := lines + [line], |lines|;
    assert forall j :: 0 <= j < n ==> all[j] == lines[j];
    assert all[n] == line;
    if k != n && Names(lines, k, n) && !IsField(line, "event") && !IsField(line, "data") {
      forall j | k < j < n + 1 ensures !IsField(all[j], "event") && !IsField(all[j], "data") {}
    }
  }

  lemma {:induction false} NotBoth(line: string)
    ensures !(IsField(line, "event") && IsField(line, "data"))
    ensures "event" + ": " == EVENT_PREFIX && "data" + ": " == DATA_PREFIX
  {
    if IsField(line, "event") { assert line[..7][0] == 'e' && line[0] == 'e'; }
    if IsField(line, "data") { assert line[..6][0] == 'd' && line[0] == 'd'; }
  }

  lemma {:induction false} InForceNext(codec: Codec, lines: seq<string>, line: string, st: State)
    requires InForce(codec, lines, |lines|, st.currentEvent)
    ensures InForce(codec, lines + [line], |lines| + 1, OnLine(codec, st, line).currentEvent)
  {
    NotBoth(line);
    forall k
      ensures Names(lines + [line], k, |lines| + 1) <==>
        if k == |lines| then IsField(line, "event")
        else Names(lines, k, |lines|) && !IsField(line, "event") && !IsField(line, "data")
    {
      NamesNext(lines, line, k);
    }
    var all, end, name := lines + [line], |lines| + 1, OnLine(codec, st, line).currentEvent;
    forall k | Names(all, k, end) ensures name == codec.trim(Payload(all[k], "event")) {
      if k < |lines| { assert Names(lines, k, |lines|); }
    }
    if forall k :: !Names(all, k, end) {
      assert !Names(all, |lines|, end);
      if !IsField(line, "data") {
        forall k ensures !Names(lines, k, |lines|) { assert !Names(all, k, end); }
      }
    }
  }

  lemma {:induction false} RoutedNext(
    codec: Codec, lines: seq<string>, line: string, st: State, at: seq<nat>) returns (at': seq<nat>)
    requires InForce(codec, lines, |lines|, st.currentEvent) && RoutedFrom(codec, lines, st.routed, at)
    ensures RoutedFrom(codec, lines + [line], OnLine(codec, st, line).routed, at')
  {
    NotBoth(line);
    var n, all, routed := |lines|, lines + [line], OnLine(codec, st, line).routed;
    at' := at + if IsField(line, "data") && codec.parses(Payload(line, "data")) then [n] else [];
    InForcePrefix(codec, lines, line, n, st.currentEvent);
    forall i | 0 <= i < |at'| ensures RoutedAt(codec, all, routed[i], at'[i]) {
      if i < |at| {
        assert RoutedAt(codec, lines, st.routed[i], at[i]);
        InForcePrefix(codec, lines, line, at[i], st.routed[i].event);
      }
    }
    forall k | 0 <= k < |all| && IsField(all[k], "data") && codec.parses(Payload(all[k], "data")) ensures k in at' {
      if k < n {
        assert lines[k] == all[k] && k in at;
      } else {
        assert at'[|at|] == n;
      }
    }
  }

  /** The routed events are the data lines that parse, in order, each under the last event name
      given since the data line before it. */
  lemma {:induction false} LinesRoute(codec: Codec, lines: seq<string>) returns (at: seq<nat>)
    ensures RoutedFrom(codec, lines, OnLines(codec, START, lines).routed, at)
    ensures InForce(codec, lines, |lines|, OnLines(codec, START, lines).currentEvent)
  {
    if lines == [] {
      at := [];
    } else {
      var n := |lines| - 1;
      assert lines == lines[..n] + [lines[n]];
      at := LinesRoute(codec, lines[..n]);
      InForceNext(codec, lines[..n], lines[n], OnLines(codec, START, lines[..n]));
      at := RoutedNext(codec, lines[..n], lines[n], OnLines(codec, START, lines[..n]), at);
    }
  }

  /** So in every chunking: the data lines among the complete lines of the whole text. */
  lemma {:induction false} ChunksRoute(codec: Codec, chunks: seq<string>) returns (at: seq<nat>)
    ensures RoutedFrom(codec, Init(Split(Concat(chunks), '\n')), OnChunks(codec, START, chunks).routed, at)
  {
    ChunkingIndependent(codec, chunks);
    at := LinesRoute(codec, Init(Split(Concat(chunks), '\n')));
  }

  function Glue(parts: seq<string>, sep: char): string
    requires parts != []
  {
    if |parts| == 1 then parts[0] else parts[0] + [sep] + Glue(parts[1..], sep)
  }

  /** Lines are what lies between the separators. */
  lemma {:induction false} SplitIsLines(s: string, sep: char)
    ensures Glue(Split(s, sep), sep) == s
    ensures forall i :: 0 <= i < |Split(s, sep)| ==> sep !in Split(s, sep)[i]
  {
    if s != "" {
      var rest := Split(s[1..], sep);
      SplitIsLines(s[1..], sep);
      assert s == [s[0]] + s[1..];
      if s[0] == sep {
        assert ([""] + rest)[1..] == rest;
      } else {
        var parts := [[s[0]] + rest[0]] + rest[1..];
        assert parts[1..] == rest[1..];
        assert |rest| > 1 ==> Glue(parts, sep) == [s[0]] + Glue(rest, sep);
      }
    }
  }

  class StreamParser {
    const codec: Codec
    var buffer: string
    var currentEvent: string
    var routed: seq<Routed>

    ghost function Value(): State
      reads this
    {
      State(buffer, currentEvent, routed)
    }

    constructor (codec: Codec)
      ensures Value() == START && this.codec == codec
    {
      this.codec := codec;
      buffer, currentEvent, routed := "", "", [];
    }

    /** One turn of the read loop. */
    method Receive(chunk: string)
      modifies this
      ensures Value() == OnChunk(codec, old(Value()), chunk)
    {
      ghost var start := Value();
      buffer := buffer + chunk;
      var parts := Split(buffer, '\n');
      var lines := Init(parts);
      buffer := Last(parts);
      for i := 0 to |lines|
        invariant buffer == Last(parts)
        invariant Value() == OnLines(codec, start, lines[..i]).(buffer := buffer)
      {
        var line := lines[i];
        assert lines[..i + 1][..i] == lines[..i];
        if StartsWith(line, EVENT_PREFIX) {
          currentEvent := codec.trim(line[7..]);
        } else if StartsWith(line, DATA_PREFIX) {
          if codec.parses(line[6..]) {
            routed := routed + [Routed(currentEvent, line[6..])];
          }
          currentEvent := "";
        }
      }
      assert lines[..|lines|] == lines;
    }
  }
}
