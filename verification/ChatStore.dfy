/** The per-chat store: one object that owns the message list and the streamed turn, and
    whose handlers update both. */
module ChatStores {
  import opened Options
  import opened M = ChatMessages
  import opened R = ChatRuns
  import opened X = ChatEffects
  import S = ChatStreaming

  // ---- Display and failure ------------------------------------------------

  const STREAMING_ID := "__streaming__"

  predicate ExecutingAgent(m: Msg) { m.role == Agent && m.status == Executing }

  /** What the user sees: while running, the streamed text continues a last executing
      agent message, or stands in a message of its own. */
  function Display(msgs: seq<Msg>, stream: S.Stream): seq<Msg> {
    if !stream.running then msgs
    else if msgs != [] && ExecutingAgent(msgs[|msgs| - 1]) then
      var last := msgs[|msgs| - 1];
      msgs[|msgs| - 1 := if stream.text == "" then last else last.(content := Some(Key(last) + stream.text))]
    else msgs + [Msg(STREAMING_ID, Agent, Some(stream.text), Executing)]
  }

  function LastExecuting(display: seq<Msg>): Option<Msg> {
    if display != [] && ExecutingAgent(display[|display| - 1]) then Some(display[|display| - 1]) else None
  }

  /** The message a failure leaves: `errorId` is a new id, used when nothing else names it. */
  function FailedMessage(msgs: seq<Msg>, stream: S.Stream, messageId: Option<string>, errorId: string): Msg {
    var display := Display(msgs, stream);
    var at := if messageId.Some? then IndexOf(display, messageId.value) else None;
    var current := if at.Some? then Some(display[at.value]) else LastExecuting(display);
    var id :=
      if messageId.Some? then messageId.value
      else if current.Some? && current.value.id != STREAMING_ID then current.value.id
      else errorId;
    Msg(id, Agent, Some(if current.Some? then Key(current.value) else ""), Failed)
  }

  /** What the user sees of the running turn: what its message held, and the streamed text. */
  function ShownText(msgs: seq<Msg>, stream: S.Stream): string {
    (if msgs != [] && ExecutingAgent(msgs[|msgs| - 1]) then Key(msgs[|msgs| - 1]) else "") + stream.text
  }

  /** The failure names no displayed message, or the one that shows the stream. */
  predicate NamesStream(msgs: seq<Msg>, stream: S.Stream, messageId: Option<string>) {
    var display := Display(msgs, stream);
    messageId.None? || !Known(display, messageId.value) || IndexOf(display, messageId.value) == Some(|display| - 1)
  }

  ghost predicate KeepsText(msgs: seq<Msg>, stream: S.Stream, messageId: Option<string>, errorId: string) {
    forall text ::
      FailedMessage(msgs, stream.(text := text), messageId, errorId).content
      == Some(ShownText(msgs, stream.(text := text)))
  }

  lemma {:induction false} DisplayIds(msgs: seq<Msg>, stream: S.Stream, text: string, id: string)
    requires stream.running
    ensures IndexOf(Display(msgs, stream.(text := text)), id) == IndexOf(Display(msgs, stream), id)
  {
    var a, b := Display(msgs, stream.(text := text)), Display(msgs, stream);
    SameIdsIndex(a, b, id);
  }

  lemma {:induction false} SameIdsIndex(a: seq<Msg>, b: seq<Msg>, id: string)
    requires |a| == |b| && forall i :: 0 <= i < |a| ==> a[i].id == b[i].id
    ensures IndexOf(a, id) == IndexOf(b, id)
  {
    if a != [] { SameIdsIndex(a[..|a| - 1], b[..|b| - 1], id); }
  }

  lemma {:induction false} LastShows(msgs: seq<Msg>, stream: S.Stream)
    requires stream.running
    ensures var display := Display(msgs, stream);
      display != [] && LastExecuting(display) == Some(display[|display| - 1])
      && Key(display[|display| - 1]) == ShownText(msgs, stream)
  {
    assert "" + stream.text == stream.text;
    if msgs != [] { assert stream.text == "" ==> Key(msgs[|msgs| - 1]) + stream.text == Key(msgs[|msgs| - 1]); }
  }

  /** A message before the last shows nothing of the stream. */
  lemma {:induction false} OthersShowNothing(msgs: seq<Msg>, stream: S.Stream, text: string, i: nat)
    requires stream.running && i < |Display(msgs, stream)| - 1
    ensures i < |Display(msgs, stream.(text := text))|
    ensures Display(msgs, stream.(text := text))[i] == Display(msgs, stream)[i]
  {
  }

  /** A failure while a turn is running keeps what was streamed, whatever it was, exactly when
      it names no other displayed message. */
  lemma {:induction false} FailureKeepsText(
    msgs: seq<Msg>, stream: S.Stream, messageId: Option<string>, errorId: string)
    requires stream.running
    ensures KeepsText(msgs, stream, messageId, errorId) <==> NamesStream(msgs, stream, messageId)
  {
    forall text ensures messageId.Some? ==>
      IndexOf(Display(msgs, stream.(text := text)), messageId.value) == IndexOf(Display(msgs, stream), messageId.value)
    {
      if messageId.Some? { DisplayIds(msgs, stream, text, messageId.value); }
    }
    if NamesStream(msgs, stream, messageId) {
      forall text
        ensures FailedMessage(msgs, stream.(text := text), messageId, errorId).content
             == Some(ShownText(msgs, stream.(text := text)))
      {
        LastShows(msgs, stream.(text := text));
      }
    } else {
      var i := IndexOf(Display(msgs, stream), messageId.value).value;
      OthersShowNothing(msgs, stream, "", i);
      OthersShowNothing(msgs, stream, "x", i);
      var none, some := stream.(text := ""), stream.(text := "x");
      assert FailedMessage(msgs, none, messageId, errorId).content ==
          FailedMessage(msgs, some, messageId, errorId).content;
      assert |ShownText(msgs, some)| == |ShownText(msgs, none)| + 1;
    }
  }

  /** New ids are no placeholders', and placeholders are user messages. */
  ghost predicate Failable(msgs: seq<Msg>, messageId: Option<string>, errorId: string) {
    && !IsPlaceholderId(errorId) && (messageId.Some? ==> !IsPlaceholderId(messageId.value))
    && forall i :: 0 <= i < |msgs| && IsPlaceholder(msgs[i]) ==> msgs[i].role == User
  }

  /** Then a failure's id is never a placeholder's, so that it is a legal step of a run. */
  lemma {:induction false} FailureId(
    msgs: seq<Msg>, stream: S.Stream, messageId: Option<string>, errorId: string)
    ensures Failable(msgs, messageId, errorId) ==>
      forall c: Chat :: Legal(c, Fail(FailedMessage(msgs, stream, messageId, errorId)))
  {
  }

  /** A failed agent message, with the id it was reported for, or else that of a last executing
      agent message, or else a new one. */
  predicate IsFailure(msgs: seq<Msg>, messageId: Option<string>, errorId: string, m: Msg) {
    var last := if msgs == [] then None else Some(msgs[|msgs| - 1]);
    && m.role == Agent && m.status == Failed && m.content.Some?
    && if messageId.Some? then m.id == messageId.value
       else if last.Some? && ExecutingAgent(last.value) && last.value.id != STREAMING_ID then m.id == last.value.id
       else m.id == errorId
  }

  lemma {:induction false} FailureIs(
    msgs: seq<Msg>, stream: S.Stream, messageId: Option<string>, errorId: string)
    ensures IsFailure(msgs, messageId, errorId, FailedMessage(msgs, stream, messageId, errorId))
  {
  }

  // ---- Loops of the history merge -----------------------------------------

  method KeepUnknown(batch: seq<Msg>, msgs: seq<Msg>) returns (rows: seq<Msg>)
    ensures rows == Unknown(batch, msgs)
  {
    var existing := set i | 0 <= i < |msgs| :: msgs[i].id;
    rows := [];
    for n := 0 to |batch|
      invariant rows == Unknown(batch[..n], msgs)
    {
      assert batch[..n + 1][..n] == batch[..n];
      assert batch[n].id in existing <==> Known(msgs, batch[n].id);
      if batch[n].id !in existing {
        rows := rows + [batch[n]];
      }
    }
    assert batch[..|batch|] == batch;
  }

  method FindFree(msgs: seq<Msg>, claimed: set<nat>, key: string) returns (r: Option<nat>)
    ensures r == FirstFree(msgs, claimed, key, 0)
  {
    for p := 0 to |msgs|
      invariant FirstFree(msgs, claimed, key, 0) == FirstFree(msgs, claimed, key, p)
    {
      if IsPlaceholder(msgs[p]) && p !in claimed && Key(msgs[p]) == key {
        return Some(p);
      }
    }
    return None;
  }

  /** Every new user row claims the first unclaimed placeholder with its text. */
  lemma {:induction false} ClaimsNext(rows: seq<Msg>, msgs: seq<Msg>, n: nat)
    requires n < |rows|
    ensures var before := Claims(rows[..n], msgs).Keys;
      var free := FirstFree(msgs, before, Key(rows[n]), 0);
      Claims(rows[..n + 1], msgs).Keys
      == if rows[n].role == User && free.Some? then before + {free.value} else before
  {
    assert rows[..n + 1][..n] == rows[..n];
  }

  method ClaimPlaceholders(rows: seq<Msg>, msgs: seq<Msg>) returns (claimed: set<nat>)
    ensures claimed == Claims(rows, msgs).Keys
  {
    claimed := {};
    for n := 0 to |rows|
      invariant claimed == Claims(rows[..n], msgs).Keys
    {
      ClaimsNext(rows, msgs, n);
      if rows[n].role == User {
        var free := FindFree(msgs, claimed, Key(rows[n]));
        if free.Some? {
          claimed := claimed + {free.value};
        }
      }
    }
    assert rows[..|rows|] == rows;
  }

  method DropClaimed(msgs: seq<Msg>, claimed: set<nat>) returns (kept: seq<Msg>)
    ensures kept == Drop(msgs, claimed)
  {
    kept := [];
    for n := 0 to |msgs|
      invariant kept == Drop(msgs[..n], claimed)
    {
      assert msgs[..n + 1][..n] == msgs[..n];
      if n !in claimed {
        kept := kept + [msgs[n]];
      }
    }
    assert msgs[..|msgs|] == msgs;
  }

  method MergeFetched(batch: seq<Msg>, msgs: seq<Msg>) returns (merged: seq<Msg>)
    ensures merged == MergeHistory(batch, msgs)
  {
    if |msgs| == 0 {
      return batch;
    }
    var historical := KeepUnknown(batch, msgs);
    var claimed := ClaimPlaceholders(historical, msgs);
    var kept := DropClaimed(msgs, claimed);
    merged := historical + kept;
  }

  predicate StillExecuting(msgs: seq<Msg>) { msgs != [] && msgs[|msgs| - 1].status == Executing }

  predicate HasPlaceholder(msgs: seq<Msg>) { exists i :: 0 <= i < |msgs| && IsPlaceholder(msgs[i]) }

  /** What a load makes of the streamed turn: a row still executing keeps it running, and
      otherwise it is over unless a send has not been echoed yet. */
  function AfterLoad(msgs: seq<Msg>, stream: S.Stream): S.Stream {
    if StillExecuting(msgs) then stream.(running := true)
    else if stream.running && !HasPlaceholder(msgs) then S.IDLE
    else stream
  }

  /** The message list after an action, before sorting. */
  function Messages(msgs: seq<Msg>, a: Action): seq<Msg> { Effect(Chat(msgs, {}, map[]), a).msgs }

  class ChatStore {
    /** Sorting by creation time, taken as some reordering. */
    const order: seq<Msg> -> seq<Msg>

    var messages: seq<Msg>
    var streamingText: string
    var streamingReasoning: string
    var streamingToolCalls: seq<S.Call>
    var streamingToolResults: map<string, S.ToolResult>
    var lastTextSnapshot: nat
    var isRunning: bool
    var hasMore: bool

    ghost function Stream(): S.Stream
      reads this
    {
      S.Stream(streamingText, streamingReasoning, streamingToolCalls, streamingToolResults, lastTextSnapshot, isRunning)
    }

    /** An idle store holds nothing of a turn. */
    ghost predicate Valid()
      reads this
    {
      (forall s :: multiset(order(s)) == multiset(s)) && (!isRunning ==> Stream() == S.IDLE)
    }

    constructor (order: seq<Msg> -> seq<Msg>)
      requires forall s :: multiset(order(s)) == multiset(s)
      ensures Valid() && messages == [] && Stream() == S.IDLE && this.order == order
    {
      this.order := order;
      messages, hasMore := [], false;
      streamingText, streamingReasoning, streamingToolCalls, streamingToolResults := "", "", [], map[];
      lastTextSnapshot, isRunning := 0, false;
    }

    /** `id` is the prefix and the clock. */
    method AddUserMessage(id: string, content: string)
      requires Valid()
      modifies this
      ensures Valid() && messages == Messages(old(messages), Send(id, content))
      ensures Effected(old(messages), Send(id, content), multiset(messages))
      ensures Stream() == S.OnEvent(old(Stream()), S.Running)
    {
      EffectIs(Chat(messages, {}, map[]), Send(id, content));
      messages := messages + [Msg(id, User, Some(content), Unset)];
      isRunning := true;
    }

    /** `fetched` is the server's page, or `None` when the request failed. */
    method LoadMessages(fetched: Option<(seq<Msg>, bool)>)
      requires Valid()
      modifies this
      ensures Valid()
      ensures fetched.None? ==> messages == old(messages)
      ensures fetched.Some? ==> multiset(messages) == multiset(Messages(old(messages), Load(fetched.value.0)))
      ensures fetched.Some? ==> Effected(old(messages), Load(fetched.value.0), multiset(messages))
      ensures Stream() == AfterLoad(messages, old(Stream()))
      ensures isRunning <==> StillExecuting(messages) || (old(isRunning) && HasPlaceholder(messages))
      ensures Stream() == if isRunning then old(Stream()).(running := true) else S.IDLE
    {
      if fetched.Some? {
        TakePage(fetched.value.0);
        hasMore := fetched.value.1;
      }
      if StillExecuting(messages) {
        isRunning := true;
      } else if isRunning && !HasPlaceholder(messages) {
        ClearStreaming();
      }
    }

    method TakePage(batch: seq<Msg>)
      requires Valid()
      modifies this`messages
      ensures multiset(messages) == multiset(Messages(old(messages), Load(batch)))
      ensures Effected(old(messages), Load(batch), multiset(messages))
    {
      EffectIs(Chat(messages, {}, map[]), Load(batch));
      var merged := MergeFetched(batch, messages);
      messages := order(merged);
    }

    method LoadOlder(fetched: Option<(seq<Msg>, bool)>)
      requires Valid()
      modifies this
      ensures Valid() && Stream() == old(Stream())
      ensures fetched.None? ==> messages == old(messages)
      ensures fetched.Some? ==> multiset(messages) == multiset(Messages(old(messages), Older(fetched.value.0)))
      ensures fetched.Some? ==> Effected(old(messages), Older(fetched.value.0), multiset(messages))
    {
      if fetched.Some? {
        EffectIs(Chat(messages, {}, map[]), Older(fetched.value.0));
        var older := KeepUnknown(fetched.value.0, messages);
        messages := order(older + messages);
        hasMore := fetched.value.1;
      }
    }

    method OnStreamEvent(e: S.Event)
      requires Valid()
      modifies this
      ensures Valid() && messages == old(messages)
      ensures Stream() == S.OnEvent(old(Stream()), e)
    {
      match e
      case Token(content) =>
        isRunning := true;
        if lastTextSnapshot > 0 && |streamingText| == lastTextSnapshot && |content| > 0 {
          streamingText := streamingText + S.BLANK_LINE;
        } else {
          assert streamingText + "" == streamingText;
        }
        streamingText := streamingText + content;
      case Reasoning(content) =>
        isRunning := true;
        streamingReasoning := streamingReasoning + content;
      case ToolCall(id, name) =>
        isRunning := true;
        var turnText := None;
        if |streamingText| > lastTextSnapshot {
          turnText := S.NonEmpty(S.Trim(streamingText[lastTextSnapshot..]));
          lastTextSnapshot := |streamingText|;
        }
        streamingToolCalls := S.Put(streamingToolCalls, S.Call(id, name, turnText));
      case ToolDone(name, result) =>
        var open := S.FirstOpen(streamingToolCalls, streamingToolResults, name);
        if open.Some? {
          streamingToolResults := streamingToolResults[open.value := result];
        }
      case Running =>
        isRunning := true;
      case Clear =>
        ClearStreaming();
    }

    method ClearStreaming()
      modifies this
      ensures Stream() == S.IDLE && messages == old(messages) && hasMore == old(hasMore)
    {
      isRunning := false;
      streamingText, streamingReasoning := "", "";
      streamingToolCalls, streamingToolResults := [], map[];
      lastTextSnapshot := 0;
    }

    /** `chat_message`. */
    method OnChatMessage(m: Msg)
      requires Valid()
      modifies this`messages
      ensures Valid() && multiset(messages) == multiset(Messages(old(messages), Arrive(m)))
      ensures Effected(old(messages), Arrive(m), multiset(messages))
    {
      EffectIs(Chat(messages, {}, map[]), Arrive(m));
      if exists i :: 0 <= i < |messages| && messages[i].id == m.id {
        return;
      }
      var at := Echoed(messages, m);
      if m.role == User && at.Some? {
        messages := order(messages[at.value := m]);
      } else {
        messages := order(messages + [m]);
      }
    }

    /** `inference_done` and `inference_paused`. */
    method OnSettled(m: Msg)
      requires Valid()
      modifies this
      ensures Valid() && multiset(messages) == multiset(Messages(old(messages), Settle(m)))
      ensures Effected(old(messages), Settle(m), multiset(messages))
      ensures Stream() == S.OnEvent(old(Stream()), S.Clear)
    {
      EffectIs(Chat(messages, {}, map[]), Settle(m));
      messages := order(ReplaceOrAppend(messages, m));
      ClearStreaming();
    }

    /** `inference_resume`. */
    method OnResume(m: Msg)
      requires Valid()
      modifies this`messages
      ensures Valid() && multiset(messages) == multiset(Messages(old(messages), Resume(m)))
      ensures Effected(old(messages), Resume(m), multiset(messages))
    {
      EffectIs(Chat(messages, {}, map[]), Resume(m));
      if exists i :: 0 <= i < |messages| && messages[i].id == m.id {
        messages := order(ReplaceOrAppend(messages, m));
      }
    }

    method FailMessage(messageId: Option<string>, errorId: string)
      requires Valid()
      modifies this
      ensures Valid() && Stream() == S.OnEvent(old(Stream()), S.Clear)
      ensures messages == Messages(old(messages), Fail(FailedMessage(old(messages), old(Stream()), messageId, errorId)))
      ensures var m := FailedMessage(old(messages), old(Stream()), messageId, errorId);
        Stored(old(messages), m, multiset(messages)) && IsFailure(old(messages), messageId, errorId, m)
      ensures Failable(old(messages), messageId, errorId) ==>
        forall c: Chat :: Legal(c, Fail(FailedMessage(old(messages), old(Stream()), messageId, errorId)))
    {
      FailureId(messages, Stream(), messageId, errorId);
      var stream := S.Stream(streamingText, streamingReasoning, streamingToolCalls, streamingToolResults,
                             lastTextSnapshot, isRunning);
      assert stream == Stream();
      var failed := FailedMessage(messages, stream, messageId, errorId);
      UpsertStores(messages, failed);
      FailureIs(messages, stream, messageId, errorId);
      messages := ReplaceOrAppend(messages, failed);
      ClearStreaming();
    }
  }
}
