/** The streamed turn of a chat: text, tool calls and their results as events arrive, and
    the simple fold over the events since the last clear that they amount to. */
module ChatStreaming {
  import opened Options
  import A = Alignment

  datatype ToolResult = ToolResult(text: string, isError: bool)
  datatype Call = Call(id: string, name: string, turnText: Option<string>)

  datatype Event =
    | Token(content: string)
    | Reasoning(content: string)
    | ToolCall(id: string, name: string)
    | ToolDone(name: string, result: ToolResult)
    | Running                                  // inference_start, a send, a row still executing
    | Clear                                    // the turn ended, was cancelled, failed or paused

  datatype Stream = Stream(
    text: string,
    reasoning: string,
    calls: seq<Call>,                          // insertion-ordered map by id
    results: map<string, ToolResult>,
    snapshot: nat,                             // length of the text at the last tool call
    running: bool)

  const IDLE := Stream("", "", [], map[], 0, false)
  const BLANK_LINE := "\n\n"

  // ---- Trimming -----------------------------------------------------------

  predicate IsSpace(c: char) {
    var n := c as int;
    || 0x09 <= n <= 0x0D || n == 0x20 || n == 0xA0 || n == 0x1680 || 0x2000 <= n <= 0x200A
    || n == 0x2028 || n == 0x2029 || n == 0x202F || n == 0x205F || n == 0x3000 || n == 0xFEFF
  }

  /** White space as the other side counts it, with the byte order mark for the next line control. */
  lemma {:induction false} SpaceIs(c: char)
    ensures IsSpace(c) <==> c == '\U{FEFF}' || (A.IsWhitespace(c) && c != '\U{85}')
  {
  }

  function TrimLeft(s: string): string { if s != "" && IsSpace(s[0]) then TrimLeft(s[1..]) else s }

  function TrimRight(s: string): string {
    if s != "" && IsSpace(s[|s| - 1]) then TrimRight(s[..|s| - 1]) else s
  }

  function Trim(s: string): string { TrimRight(TrimLeft(s)) }

  predicate AllSpace(s: string) { forall i :: 0 <= i < |s| ==> IsSpace(s[i]) }

  predicate Tight(s: string) { s != "" ==> !IsSpace(s[0]) && !IsSpace(s[|s| - 1]) }

  lemma {:induction false} TrimLeftCuts(s: string) returns (left: string)
    ensures s == left + TrimLeft(s) && AllSpace(left) && (TrimLeft(s) != "" ==> !IsSpace(TrimLeft(s)[0]))
  {
    left := "";
    if s != "" && IsSpace(s[0]) {
      left := TrimLeftCuts(s[1..]);
      assert s == [s[0]] + s[1..];
      left := [s[0]] + left;
    }
  }

  lemma {:induction false} TrimRightCuts(s: string) returns (right: string)
    ensures s == TrimRight(s) + right && AllSpace(right)
    ensures TrimRight(s) != "" ==> !IsSpace(TrimRight(s)[|TrimRight(s)| - 1]) && TrimRight(s)[0] == s[0]
  {
    right := "";
    if s != "" && IsSpace(s[|s| - 1]) {
      right := TrimRightCuts(s[..|s| - 1]);
      assert s == s[..|s| - 1] + [s[|s| - 1]];
      right := right + [s[|s| - 1]];
    }
  }

  /** Trimming cuts all whitespace at either end, and nothing else. */
  lemma {:induction false} TrimCuts(s: string) returns (left: string, right: string)
    ensures s == left + Trim(s) + right && AllSpace(left) && AllSpace(right) && Tight(Trim(s))
  {
    left := TrimLeftCuts(s);
    right := TrimRightCuts(TrimLeft(s));
    assert left + (Trim(s) + right) == left + Trim(s) + right;
  }

  lemma {:induction false} TrimBlankLine(s: string)
    ensures Trim(BLANK_LINE + s) == Trim(s)
  {
    assert IsSpace('\n') && (BLANK_LINE + s)[0] == '\n' && ("\n" + s)[0] == '\n';
    assert (BLANK_LINE + s)[1..] == "\n" + s && ("\n" + s)[1..] == s;
    assert TrimLeft(BLANK_LINE + s) == TrimLeft("\n" + s);
    assert TrimLeft("\n" + s) == TrimLeft(s);
  }

  // ---- Events -------------------------------------------------------------

  /** `Map.set`: replaces in place, or appends. */
  function Put(calls: seq<Call>, call: Call): seq<Call> {
    if calls == [] then [call]
    else if calls[0].id == call.id then [call] + calls[1..]
    else [calls[0]] + Put(calls[1..], call)
  }

  /** The first call with this name that has no result yet. */
  function FirstOpen(calls: seq<Call>, results: map<string, ToolResult>, name: string): (r: Option<string>)
    ensures r.Some? ==> r.value !in results
  {
    if calls == [] then None
    else
      var n := |calls| - 1;
      var r := FirstOpen(calls[..n], results, name);
      if r.Some? then r
      else if calls[n].name == name && calls[n].id !in results then Some(calls[n].id)
      else None
  }

  function NonEmpty(s: string): Option<string> { if s == "" then None else Some(s) }

  function OnToken(s: Stream, content: string): Stream {
    var gap := if 0 < s.snapshot && |s.text| == s.snapshot && content != "" then BLANK_LINE else "";
    s.(running := true, text := s.text + gap + content)
  }

  function OnToolCall(s: Stream, id: string, name: string): Stream {
    if s.snapshot < |s.text| then
      s.(running := true, snapshot := |s.text|,
         calls := Put(s.calls, Call(id, name, NonEmpty(Trim(s.text[s.snapshot..])))))
    else s.(running := true, calls := Put(s.calls, Call(id, name, None)))
  }

  function OnToolDone(s: Stream, name: string, result: ToolResult): Stream {
    var open := FirstOpen(s.calls, s.results, name);
    if open.Some? then s.(results := s.results[open.value := result]) else s
  }

  function OnEvent(s: Stream, e: Event): Stream {
    match e
    case Token(content) => OnToken(s, content)
    case Reasoning(content) => s.(running := true, reasoning := s.reasoning + content)
    case ToolCall(id, name) => OnToolCall(s, id, name)
    case ToolDone(name, result) => OnToolDone(s, name, result)
    case Running => s.(running := true)
    case Clear => IDLE
  }

  function After(log: seq<Event>): Stream {
    if log == [] then IDLE else OnEvent(After(log[..|log| - 1]), log[|log| - 1])
  }

  /** Idle means empty, after every run of events. */
  lemma {:induction false} IdleIsEmpty(log: seq<Event>)
    ensures !After(log).running ==> After(log) == IDLE
  {
    if log != [] { IdleIsEmpty(log[..|log| - 1]); }
  }

  // ---- The reference fold -------------------------------------------------

  /** Text between tool calls since the last clear; the last segment is still open. */
  function Segments(log: seq<Event>): (segs: seq<string>)
    ensures segs != []
  {
    if log == [] then [""]
    else
      var segs, e := Segments(log[..|log| - 1]), log[|log| - 1];
      match e
      case Token(content) => segs[|segs| - 1 := segs[|segs| - 1] + content]
      case ToolCall(_, _) => segs + [""]
      case Clear => [""]
      case _ => segs
  }

  /** Adds one paragraph. */
  function JoinOne(p: string, last: string): string {
    if last == "" then p else if p == "" then last else p + BLANK_LINE + last
  }

  /** The non-empty segments, joined by a blank line. */
  function Paragraphs(segs: seq<string>): string {
    if segs == [] then ""
    else
      JoinOne(Paragraphs(segs[..|segs| - 1]), segs[|segs| - 1])
  }

  function Closed(log: seq<Event>): seq<string> { Segments(log)[..|Segments(log)| - 1] }
  function Open(log: seq<Event>): string { Segments(log)[|Segments(log)| - 1] }

  /** Calls since the last clear, each with the text spoken before it. */
  function Calls(log: seq<Event>): seq<Call> {
    if log == [] then []
    else
      var init, e := log[..|log| - 1], log[|log| - 1];
      match e
      case ToolCall(id, name) => Put(Calls(init), Call(id, name, NonEmpty(Trim(Open(init)))))
      case Clear => []
      case _ => Calls(init)
  }

  lemma {:induction false} ParagraphsSnoc(segs: seq<string>, last: string)
    ensures Paragraphs(segs + [last]) == JoinOne(Paragraphs(segs), last)
  {
    assert (segs + [last])[..|segs|] == segs;
  }

  /** What the code's length test sees: nothing was said since the last tool call. */
  lemma {:induction false} OpenLength(closed: seq<string>, open: string)
    ensures |Paragraphs(closed)| <= |Paragraphs(closed + [open])|
    ensures |Paragraphs(closed + [open])| == |Paragraphs(closed)| <==> open == ""
    ensures Paragraphs(closed + [open])[|Paragraphs(closed)|..] ==
      if open == "" || Paragraphs(closed) == "" then open else BLANK_LINE + open
  {
    ParagraphsSnoc(closed, open);
    var p := Paragraphs(closed);
    if open == "" {
      assert p[|p|..] == "";
    } else if p != "" {
      assert (p + BLANK_LINE + open)[|p|..] == BLANK_LINE + open;
    }
  }

  lemma {:induction false} JoinGrows(p: string, open: string, content: string)
    requires open != "" && content != ""
    ensures JoinOne(p, open + content) == JoinOne(p, open) + content && |JoinOne(p, open)| != |p|
  {
    assert p + BLANK_LINE + (open + content) == p + BLANK_LINE + open + content;
    assert p != "" ==> |JoinOne(p, open)| > |p|;
  }

  function Gap(p: string, t: string, content: string): string {
    if 0 < |p| && |t| == |p| && content != "" then BLANK_LINE else ""
  }

  lemma {:induction false} JoinToken(p: string, open: string, content: string)
    ensures JoinOne(p, open + content) == JoinOne(p, open) + Gap(p, JoinOne(p, open), content) + content
  {
    var t := JoinOne(p, open);
    if content == "" {
      assert open + content == open;
      assert t + "" + content == t;
    } else if open == "" {
      assert open + content == content;
      assert p == "" ==> t + "" + content == content;
    } else {
      JoinGrows(p, open, content);
      assert t + "" + content == t + content;
    }
  }

  lemma {:induction false} TokenStep(closed: seq<string>, open: string, content: string)
    ensures var p, t := Paragraphs(closed), Paragraphs(closed + [open]);
      Paragraphs(closed + [open + content]) == t + Gap(p, t, content) + content
  {
    ParagraphsSnoc(closed, open);
    ParagraphsSnoc(closed, open + content);
    JoinToken(Paragraphs(closed), open, content);
  }

  ghost predicate IsFold(log: seq<Event>) {
    var s := After(log);
    && s.text == Paragraphs(Segments(log))
    && s.snapshot == |Paragraphs(Closed(log))|
    && s.calls == Calls(log)
  }

  lemma {:induction false} SegmentsOf(log: seq<Event>)
    ensures Segments(log) == Closed(log) + [Open(log)]
  {
  }

  lemma {:induction false} TokenFold(init: seq<Event>, content: string)
    requires IsFold(init)
    ensures IsFold(init + [Token(content)])
  {
    var log, closed, open := init + [Token(content)], Closed(init), Open(init);
    assert log[..|init|] == init;
    SegmentsOf(init);
    TokenStep(closed, open, content);
    assert Segments(log) == closed + [open + content] && Closed(log) == closed;
  }

  lemma {:induction false} ToolCallFold(init: seq<Event>, id: string, name: string)
    requires IsFold(init)
    ensures IsFold(init + [ToolCall(id, name)])
  {
    var log, open := init + [ToolCall(id, name)], Open(init);
    assert log[..|init|] == init;
    SegmentsOf(init);
    OpenLength(Closed(init), open);
    TrimBlankLine(open);
    assert Closed(log) == Segments(init);
    ParagraphsSnoc(Segments(init), "");
  }

  /** The streamed state is the fold: the text is the segments joined by blank lines, and
      every call carries the trimmed text spoken right before it. */
  lemma {:induction false} StreamIsFold(log: seq<Event>)
    ensures IsFold(log)
  {
    if log != [] {
      var init, e := log[..|log| - 1], log[|log| - 1];
      assert log == init + [e];
      StreamIsFold(init);
      if e.Token? {
        TokenFold(init, e.content);
      } else if e.ToolCall? {
        ToolCallFold(init, e.id, e.name);
      }
    }
  }

  /** Event `i` starts or continues the turn, and nothing has ended it since. */
  predicate StillOn(log: seq<Event>, i: int) {
    && 0 <= i < |log| && !log[i].ToolDone? && !log[i].Clear?
    && forall k :: i < k < |log| ==> !log[k].Clear?
  }

  lemma {:induction false} StillOnInit(log: seq<Event>, i: int)
    requires 0 <= i < |log| - 1 && !log[|log| - 1].Clear?
    ensures StillOn(log, i) <==> StillOn(log[..|log| - 1], i)
  {
    var init := log[..|log| - 1];
    if StillOn(init, i) {
      forall k | i < k < |log| ensures !log[k].Clear? { assert k < |init| ==> !init[k].Clear?; }
    }
  }

  /** A turn is running exactly if anything but a tool's result came since the last clear. */
  lemma {:induction false} RunningIff(log: seq<Event>)
    ensures After(log).running <==> exists i :: StillOn(log, i)
  {
    if log != [] {
      var n := |log| - 1;
      RunningIff(log[..n]);
      if log[n].ToolDone? {
        forall i | 0 <= i < n ensures StillOn(log, i) <==> StillOn(log[..n], i) { StillOnInit(log, i); }
        assert !StillOn(log, n);
      } else if !log[n].Clear? {
        assert StillOn(log, n);
      }
    }
  }

  /** The reasoning is all that arrived since the last clear, in order. */
  lemma {:induction false} ReasoningIs(before: seq<Event>, events: seq<Event>)
    requires before == [] || before[|before| - 1].Clear?
    requires forall k :: 0 <= k < |events| ==> !events[k].Clear?
    ensures After(before + events).reasoning == Thoughts(events)
  {
    if events == [] {
      assert before + events == before;
    } else {
      var n := |events| - 1;
      ReasoningIs(before, events[..n]);
      ReasoningNext(before + events[..n], events[n]);
      assert before + events == before + events[..n] + [events[n]];
    }
  }

  lemma {:induction false} ReasoningNext(log: seq<Event>, e: Event)
    requires !e.Clear?
    ensures After(log + [e]).reasoning == After(log).reasoning + if e.Reasoning? then e.content else ""
  {
    assert (log + [e])[..|log|] == log;
    var r := After(log).reasoning;
    assert r + "" == r;
  }

  function Thoughts(events: seq<Event>): string {
    if events == [] then ""
    else
      var n := |events| - 1;
      Thoughts(events[..n]) + if events[n].Reasoning? then events[n].content else ""
  }

  // ---- Results: first in, first out ---------------------------------------

  /** Ids of the calls with this name, in the order they were first made. */
  function CallIds(log: seq<Event>, name: string): seq<string> {
    if log == [] then []
    else
      var ids, e := CallIds(log[..|log| - 1], name), log[|log| - 1];
      match e
      case ToolCall(id, n) => if n == name && id !in ids then ids + [id] else ids
      case Clear => []
      case _ => ids
  }

  /** Results for this name that found an open call, in order of arrival. */
  function Accepted(log: seq<Event>, name: string): seq<ToolResult> {
    if log == [] then []
    else
      var init, e := log[..|log| - 1], log[|log| - 1];
      var done := Accepted(init, name);
      match e
      case ToolDone(n, r) => if n == name && |done| < |CallIds(init, name)| then done + [r] else done
      case Clear => []
      case _ => done
  }

  /** A call id that repeats within a turn keeps its name. */
  ghost predicate SameNames(log: seq<Event>) {
    log == [] ||
    var init, e := log[..|log| - 1], log[|log| - 1];
    SameNames(init) && (e.ToolCall? ==> Agrees(Calls(init), e.id, e.name))
  }

  ghost predicate Agrees(calls: seq<Call>, id: string, name: string) {
    forall i :: 0 <= i < |calls| && calls[i].id == id ==> calls[i].name == name
  }

  function Ids(calls: seq<Call>, name: string): seq<string> {
    if calls == [] then []
    else
      var n := |calls| - 1;
      Ids(calls[..n], name) + if calls[n].name == name then [calls[n].id] else []
  }

  ghost predicate IsCall(calls: seq<Call>, id: string) { exists i :: 0 <= i < |calls| && calls[i].id == id }

  lemma {:induction false} IdsAreCalls(calls: seq<Call>, name: string, j: nat) returns (i: nat)
    requires j < |Ids(calls, name)|
    ensures i < |calls| && calls[i].id == Ids(calls, name)[j] && calls[i].name == name
  {
    var n := |calls| - 1;
    if j < |Ids(calls[..n], name)| {
      i := IdsAreCalls(calls[..n], name, j);
    } else {
      i := n;
    }
  }

  ghost predicate UniqueIds(calls: seq<Call>) {
    forall i, j :: 0 <= i < j < |calls| ==> calls[i].id != calls[j].id
  }

  lemma {:induction false} PutFresh(calls: seq<Call>, call: Call)
    requires forall i :: 0 <= i < |calls| ==> calls[i].id != call.id
    ensures Put(calls, call) == calls + [call]
  {
    if calls != [] {
      PutFresh(calls[1..], call);
      assert calls == [calls[0]] + calls[1..];
    }
  }

  /** Putting a call in replaces the first one of its id where it stands. */
  lemma {:induction false} PutReplaces(calls: seq<Call>, call: Call, i: nat)
    requires i < |calls| && calls[i].id == call.id && forall k :: 0 <= k < i ==> calls[k].id != call.id
    ensures Put(calls, call) == calls[..i] + [call] + calls[i + 1..]
  {
    if i != 0 {
      PutReplaces(calls[1..], call, i - 1);
      assert [calls[0]] + calls[1..][..i - 1] == calls[..i];
      assert [calls[0]] + (calls[1..][..i - 1] + [call] + calls[1..][i..]) == calls[..i] + [call] + calls[i + 1..];
    }
  }

  /** Replacing a call by one of its id and name changes no id and no name. */
  lemma {:induction false} PutSame(calls: seq<Call>, call: Call)
    requires IsCall(calls, call.id) && Agrees(calls, call.id, call.name)
    ensures |Put(calls, call)| == |calls|
    ensures forall i {:trigger Put(calls, call)[i]} :: 0 <= i < |calls| ==>
      Put(calls, call)[i].id == calls[i].id && Put(calls, call)[i].name == calls[i].name
  {
    if calls[0].id != call.id {
      var i :| 0 <= i < |calls| && calls[i].id == call.id;
      assert calls[1..][i - 1].id == call.id;
      PutSame(calls[1..], call);
    }
  }

  lemma {:induction false} SameIds(a: seq<Call>, b: seq<Call>, name: string)
    requires |a| == |b| && forall i :: 0 <= i < |a| ==> a[i].id == b[i].id && a[i].name == b[i].name
    ensures Ids(a, name) == Ids(b, name)
  {
    if a != [] { SameIds(a[..|a| - 1], b[..|b| - 1], name); }
  }

  lemma {:induction false} CallInIds(calls: seq<Call>, i: nat)
    requires i < |calls|
    ensures calls[i].id in Ids(calls, calls[i].name)
  {
    var n := |calls| - 1;
    if i < n { CallInIds(calls[..n], i); }
  }

  /** Putting a call in adds its id to those of its name, unless it is there. */
  lemma {:induction false} PutIds(calls: seq<Call>, call: Call, name: string)
    requires UniqueIds(calls) && Agrees(calls, call.id, call.name)
    ensures UniqueIds(Put(calls, call))
    ensures Ids(Put(calls, call), name)
         == if call.name == name && call.id !in Ids(calls, name) then Ids(calls, name) + [call.id] else Ids(calls, name)
  {
    if IsCall(calls, call.id) {
      var i :| 0 <= i < |calls| && calls[i].id == call.id;
      PutSame(calls, call);
      SameIds(Put(calls, call), calls, name);
      CallInIds(calls, i);
    } else {
      PutFresh(calls, call);
      assert (calls + [call])[..|calls|] == calls;
      if call.id in Ids(calls, name) {
        var j :| 0 <= j < |Ids(calls, name)| && Ids(calls, name)[j] == call.id;
        var i := IdsAreCalls(calls, name, j);
      }
    }
  }

  lemma {:induction false} CallsShape(log: seq<Event>, name: string)
    requires SameNames(log)
    ensures UniqueIds(Calls(log)) && Ids(Calls(log), name) == CallIds(log, name)
  {
    if log != [] {
      var init, e := log[..|log| - 1], log[|log| - 1];
      CallsShape(init, name);
      if e.ToolCall? { PutIds(Calls(init), Call(e.id, e.name, NonEmpty(Trim(Open(init)))), name); }
    }
  }

  lemma {:induction false} IdsDistinct(calls: seq<Call>, name: string, j: nat, k: nat)
    requires UniqueIds(calls) && j < k < |Ids(calls, name)|
    ensures Ids(calls, name)[j] != Ids(calls, name)[k]
  {
    var n := |calls| - 1;
    var ids := Ids(calls[..n], name);
    if k < |ids| {
      IdsDistinct(calls[..n], name, j, k);
    } else {
      var i := IdsAreCalls(calls[..n], name, j);
    }
  }

  /** Different calls have different ids, under one name or two. */
  lemma {:induction false} IdsApart(calls: seq<Call>, a: string, b: string, j: nat, k: nat)
    requires UniqueIds(calls) && j < |Ids(calls, a)| && k < |Ids(calls, b)| && (a != b || j != k)
    ensures Ids(calls, a)[j] != Ids(calls, b)[k]
  {
    if a != b {
      var x := IdsAreCalls(calls, a, j);
      var y := IdsAreCalls(calls, b, k);
    } else if j < k {
      IdsDistinct(calls, a, j, k);
    } else {
      IdsDistinct(calls, a, k, j);
    }
  }

  /** Exactly the first `k` calls of this name have a result. */
  ghost predicate ResolvedUpTo(calls: seq<Call>, results: map<string, ToolResult>, name: string, k: nat) {
    k <= |Ids(calls, name)| && forall j :: 0 <= j < |Ids(calls, name)| ==> (Ids(calls, name)[j] in results <==> j < k)
  }

  lemma {:induction false} FirstOpenIs(calls: seq<Call>, results: map<string, ToolResult>, name: string, k: nat)
    requires ResolvedUpTo(calls, results, name, k)
    ensures FirstOpen(calls, results, name) ==
      if k < |Ids(calls, name)| then Some(Ids(calls, name)[k]) else None
  {
    if calls != [] {
      var n := |calls| - 1;
      var ids, init := Ids(calls, name), Ids(calls[..n], name);
      assert forall j :: 0 <= j < |init| ==> ids[j] == init[j];
      if k <= |init| {
        FirstOpenIs(calls[..n], results, name, k);
      } else {
        FirstOpenIs(calls[..n], results, name, |init|);
      }
      if calls[n].name == name { assert ids[|init|] == calls[n].id; }
    }
  }

  /** The j-th accepted result belongs to the j-th call, and later calls are still open. */
  ghost predicate InOrder(ids: seq<string>, acc: seq<ToolResult>, results: map<string, ToolResult>) {
    && |acc| <= |ids|
    && forall j :: 0 <= j < |ids| ==> (ids[j] in results <==> j < |acc|) && (j < |acc| ==> results[ids[j]] == acc[j])
  }

  /** Results attach to calls of the same name in the order of both. */
  ghost predicate Fifo(log: seq<Event>, name: string) {
    InOrder(CallIds(log, name), Accepted(log, name), After(log).results)
  }

  lemma {:induction false} AcceptNext(
    ids: seq<string>, acc: seq<ToolResult>, results: map<string, ToolResult>, r: ToolResult)
    requires InOrder(ids, acc, results) && |acc| < |ids|
    requires forall j :: 0 <= j < |ids| && j != |acc| ==> ids[j] != ids[|acc|]
    ensures InOrder(ids, acc + [r], results[ids[|acc|] := r])
  {
  }

  lemma {:induction false} AcceptElsewhere(
    ids: seq<string>, acc: seq<ToolResult>, results: map<string, ToolResult>, id: string, r: ToolResult)
    requires InOrder(ids, acc, results) && id !in ids
    ensures InOrder(ids, acc, results[id := r])
  {
  }

  lemma {:induction false} CallNext(
    ids: seq<string>, acc: seq<ToolResult>, results: map<string, ToolResult>, id: string)
    requires InOrder(ids, acc, results) && id !in results
    ensures InOrder(ids + [id], acc, results)
  {
  }

  /** Only calls of this turn have results. */
  ghost predicate NoStray(log: seq<Event>) {
    forall id :: id in After(log).results ==> IsCall(Calls(log), id)
  }

  /** The call a result would go to: the one after those that have theirs. */
  lemma {:induction false} OpenCall(log: seq<Event>, name: string)
    requires SameNames(log) && Fifo(log, name)
    ensures var k := |Accepted(log, name)|;
      FirstOpen(After(log).calls, After(log).results, name)
      == if k < |CallIds(log, name)| then Some(CallIds(log, name)[k]) else None
  {
    StreamIsFold(log);
    CallsShape(log, name);
    FirstOpenIs(After(log).calls, After(log).results, name, |Accepted(log, name)|);
  }

  /** What a result changes: the first open call of its name gets it, if there is one. */
  lemma {:induction false} ToolDoneStep(log: seq<Event>, done: string, r: ToolResult, name: string)
    requires SameNames(log) && Fifo(log, done)
    ensures var next, k := log + [ToolDone(done, r)], |Accepted(log, done)|;
      && CallIds(next, name) == CallIds(log, name)
      && Accepted(next, name)
         == (if done == name && k < |CallIds(log, done)| then Accepted(log, name) + [r] else Accepted(log, name))
      && After(next).results
         == (if k < |CallIds(log, done)| then After(log).results[CallIds(log, done)[k] := r] else After(log).results)
  {
    assert (log + [ToolDone(done, r)])[..|log|] == log;
    OpenCall(log, done);
  }

  lemma {:induction false} CallIdsApart(log: seq<Event>, a: string, b: string, j: nat, k: nat)
    requires SameNames(log) && j < |CallIds(log, a)| && k < |CallIds(log, b)| && (a != b || j != k)
    ensures CallIds(log, a)[j] != CallIds(log, b)[k]
  {
    CallsShape(log, a);
    CallsShape(log, b);
    IdsApart(Calls(log), a, b, j, k);
  }

  lemma {:induction false} ToolDoneFifo(log: seq<Event>, done: string, r: ToolResult, name: string)
    requires SameNames(log) && Fifo(log, name) && Fifo(log, done)
    ensures Fifo(log + [ToolDone(done, r)], name)
  {
    var ids, acc, results, k := CallIds(log, name), Accepted(log, name), After(log).results, |Accepted(log, done)|;
    ToolDoneStep(log, done, r, name);
    if k < |CallIds(log, done)| {
      forall j | 0 <= j < |ids| && (name != done || j != k) ensures ids[j] != CallIds(log, done)[k] {
        CallIdsApart(log, name, done, j, k);
      }
      if name == done {
        AcceptNext(ids, acc, results, r);
      } else {
        AcceptElsewhere(ids, acc, results, CallIds(log, done)[k], r);
      }
    }
  }

  lemma {:induction false} ToolCallStep(log: seq<Event>, id: string, n: string, name: string)
    ensures var next := log + [ToolCall(id, n)];
      && After(next).results == After(log).results && Accepted(next, name) == Accepted(log, name)
      && CallIds(next, name)
         == (if n == name && id !in CallIds(log, name) then CallIds(log, name) + [id] else CallIds(log, name))
  {
    assert (log + [ToolCall(id, n)])[..|log|] == log;
  }

  lemma {:induction false} NewCallIsOpen(log: seq<Event>, id: string, name: string)
    requires SameNames(log) && Agrees(Calls(log), id, name) && NoStray(log) && id !in CallIds(log, name)
    ensures id !in After(log).results
  {
    CallsShape(log, name);
    if IsCall(Calls(log), id) {
      var i :| 0 <= i < |Calls(log)| && Calls(log)[i].id == id;
      CallInIds(Calls(log), i);
    }
  }

  lemma {:induction false} ToolCallFifo(log: seq<Event>, id: string, n: string, name: string)
    requires SameNames(log) && Agrees(Calls(log), id, n) && Fifo(log, name) && NoStray(log)
    ensures Fifo(log + [ToolCall(id, n)], name)
  {
    ToolCallStep(log, id, n, name);
    if n == name && id !in CallIds(log, name) {
      NewCallIsOpen(log, id, name);
      CallNext(CallIds(log, name), Accepted(log, name), After(log).results, id);
    }
  }

  lemma {:induction false} FirstOpenIsCall(calls: seq<Call>, results: map<string, ToolResult>, name: string)
    ensures var r := FirstOpen(calls, results, name); r.Some? ==> IsCall(calls, r.value)
  {
    if calls != [] {
      var n := |calls| - 1;
      FirstOpenIsCall(calls[..n], results, name);
      var r := FirstOpen(calls[..n], results, name);
      assert calls == calls[..n] + [calls[n]];
      if r.Some? { IsCallSnoc(calls[..n], calls[n], r.value); }
    }
  }

  lemma {:induction false} IsCallSnoc(calls: seq<Call>, call: Call, id: string)
    requires IsCall(calls, id)
    ensures IsCall(calls + [call], id)
  {
    var i :| 0 <= i < |calls| && calls[i].id == id;
    assert (calls + [call])[i].id == id;
  }

  lemma {:induction false} PutKeeps(calls: seq<Call>, call: Call, id: string)
    requires IsCall(calls, id)
    ensures IsCall(Put(calls, call), id)
  {
    var i :| 0 <= i < |calls| && calls[i].id == id;
    if i == 0 || calls[0].id == call.id {
      assert Put(calls, call)[i].id == id;
    } else {
      assert calls[1..][i - 1].id == id;
      PutKeeps(calls[1..], call, id);
      var j :| 0 <= j < |Put(calls[1..], call)| && Put(calls[1..], call)[j].id == id;
      assert Put(calls, call)[j + 1].id == id;
    }
  }

  lemma {:induction false} NoStrayResults(log: seq<Event>)
    ensures NoStray(log)
  {
    if log != [] {
      var init, e := log[..|log| - 1], log[|log| - 1];
      NoStrayResults(init);
      StreamIsFold(init);
      if e.ToolCall? {
        var call := Call(e.id, e.name, NonEmpty(Trim(Open(init))));
        forall id | id in After(init).results ensures IsCall(Calls(log), id) { PutKeeps(Calls(init), call, id); }
      } else if e.ToolDone? {
        FirstOpenIsCall(After(init).calls, After(init).results, e.name);
      }
    }
  }

  lemma {:induction false} ResultsAreFifo(log: seq<Event>, name: string)
    requires SameNames(log)
    ensures Fifo(log, name)
  {
    if log != [] {
      var init, e := log[..|log| - 1], log[|log| - 1];
      assert log == init + [e];
      ResultsAreFifo(init, name);
      if e.ToolDone? {
        ResultsAreFifo(init, e.name);
        ToolDoneFifo(init, e.name, e.result, name);
      } else if e.ToolCall? {
        NoStrayResults(init);
        ToolCallFifo(init, e.id, e.name, name);
      }
    }
  }
}
