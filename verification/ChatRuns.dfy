/** Every run of sends, history loads, older pages, server events and failures: ids stay
    distinct, no persisted message leaves, and each placeholder that disappears is paired
    with a user row of its own. */
module ChatRuns {
  import opened Options
  import opened ChatMessages

  datatype Action =
    | Send(id: string, content: string)   // addUserMessage
    | Load(batch: seq<Msg>)               // loadMessages
    | Older(batch: seq<Msg>)              // loadOlder
    | Arrive(msg: Msg)                    // chat_message
    | Settle(msg: Msg)                    // inference_done, inference_paused
    | Resume(msg: Msg)                    // inference_resume
    | Fail(msg: Msg)                      // failMessage, with the id it settles on

  /** The messages, and history: ids ever sent, and the row that took each one's place. */
  datatype Chat = Chat(msgs: seq<Msg>, sent: set<string>, paired: map<string, string>)

  function Empty(): Chat { Chat([], {}, map[]) }

  // ---- Effects, before sorting --------------------------------------------

  /** The first position holding `id`. */
  function IndexOf(msgs: seq<Msg>, id: string): (r: Option<nat>)
    ensures r.Some? ==> r.value < |msgs| && msgs[r.value].id == id
    ensures r.None? <==> !Known(msgs, id)
  {
    if msgs == [] then None
    else
      var n := |msgs| - 1;
      assert forall i :: 0 <= i < n ==> msgs[i] == msgs[..n][i];
      var r := IndexOf(msgs[..n], id);
      if r.Some? then r else if msgs[n].id == id then Some(n) else None
  }

  function ReplaceOrAppend(msgs: seq<Msg>, m: Msg): seq<Msg> {
    var at := IndexOf(msgs, m.id);
    if at.Some? then msgs[at.value := m] else msgs + [m]
  }

  /** The first position whose message satisfies `p`. */
  function FindIndex(msgs: seq<Msg>, p: Msg -> bool): (r: Option<nat>)
    ensures r.Some? ==> r.value < |msgs| && p(msgs[r.value]) && forall i :: 0 <= i < r.value ==> !p(msgs[i])
    ensures r.None? ==> forall i :: 0 <= i < |msgs| ==> !p(msgs[i])
  {
    if msgs == [] then None
    else
      var n := |msgs| - 1;
      var r := FindIndex(msgs[..n], p);
      if r.Some? then r else if p(msgs[n]) then Some(n) else None
  }

  /** The placeholder an arriving user row replaces: one with its text, else the oldest. */
  function Echoed(msgs: seq<Msg>, m: Msg): (r: Option<nat>)
    ensures r.Some? ==> r.value < |msgs| && IsPlaceholder(msgs[r.value])
  {
    var byContent := FindIndex(msgs, (x: Msg) => IsPlaceholder(x) && x.content == m.content);
    if byContent.Some? then byContent else FindIndex(msgs, (x: Msg) => IsPlaceholder(x))
  }

  function ArriveEffect(c: Chat, m: Msg): Chat {
    if Known(c.msgs, m.id) then c
    else
      var at := Echoed(c.msgs, m);
      if m.role == User && at.Some? then
        c.(msgs := c.msgs[at.value := m], paired := c.paired[c.msgs[at.value].id := m.id])
      else c.(msgs := c.msgs + [m])
  }

  /** Placeholder id to row id, for the rows of a history that claim one. */
  function NewPairs(rows: seq<Msg>, msgs: seq<Msg>): map<string, string> {
    if rows == [] then map[]
    else
      var n := |rows| - 1;
      var before := NewPairs(rows[..n], msgs);
      var free := FirstFree(msgs, Claims(rows[..n], msgs).Keys, Key(rows[n]), 0);
      if rows[n].role == User && free.Some? then before[msgs[free.value].id := rows[n].id] else before
  }

  function LoadEffect(c: Chat, batch: seq<Msg>): Chat {
    c.(msgs := MergeHistory(batch, c.msgs), paired := c.paired + NewPairs(Unknown(batch, c.msgs), c.msgs))
  }

  function Effect(c: Chat, a: Action): Chat {
    match a
    case Send(id, content) =>
      c.(msgs := c.msgs + [Msg(id, User, Some(content), Unset)], sent := c.sent + {id})
    case Load(batch) => LoadEffect(c, batch)
    case Older(batch) => c.(msgs := Unknown(batch, c.msgs) + c.msgs)
    case Arrive(m) => ArriveEffect(c, m)
    case Settle(m) => c.(msgs := ReplaceOrAppend(c.msgs, m))
    case Resume(m) => if Known(c.msgs, m.id) then c.(msgs := ReplaceOrAppend(c.msgs, m)) else c
    case Fail(m) => c.(msgs := ReplaceOrAppend(c.msgs, m))
  }

  /** Placeholder ids are fresh; the server's are not placeholder ids, and differ within
      a batch. */
  ghost predicate Legal(c: Chat, a: Action) {
    match a
    case Send(id, _) => IsPlaceholderId(id) && id !in c.sent
    case Load(batch) => FromServer(batch) && DistinctIds(batch)
    case Older(batch) => FromServer(batch) && DistinctIds(batch)
    case _ => !IsPlaceholder(a.msg)
  }

  /** A step: the effect, in any order. */
  ghost predicate Next(c: Chat, a: Action, c': Chat) {
    && Legal(c, a)
    && multiset(c'.msgs) == multiset(Effect(c, a).msgs)
    && c'.sent == Effect(c, a).sent && c'.paired == Effect(c, a).paired
  }

  // ---- Invariant ----------------------------------------------------------

  function Copies(msgs: seq<Msg>, id: string): nat { Count(HasId(id), msgs) }

  ghost predicate DistinctIds(msgs: seq<Msg>) { forall id :: Copies(msgs, id) <= 1 }

  /** A placeholder id is in the store or paired exactly if it was sent, and never both. */
  ghost predicate Accounted(c: Chat, id: string) {
    IsPlaceholderId(id) ==> Copies(c.msgs, id) + One(id in c.paired) == One(id in c.sent)
  }

  /** A pair names a placeholder and a persisted row that the store holds. */
  ghost predicate PairOk(c: Chat, id: string)
    requires id in c.paired
  {
    IsPlaceholderId(id) && !IsPlaceholderId(c.paired[id]) && Copies(c.msgs, c.paired[id]) == 1
  }

  ghost predicate Injective(m: map<string, string>) {
    forall x, y :: x in m && y in m && m[x] == m[y] ==> x == y
  }

  ghost predicate Inv(c: Chat) {
    && DistinctIds(c.msgs)
    && (forall id :: Accounted(c, id))
    && (forall id :: id in c.paired ==> PairOk(c, id))
    && Injective(c.paired)
  }

  /** Messages that are no placeholders stay. */
  ghost predicate Persists(c: Chat, c': Chat) {
    forall id :: !IsPlaceholderId(id) ==> Copies(c.msgs, id) <= Copies(c'.msgs, id)
  }

  function UserWith(id: string): Msg -> bool { (m: Msg) => m.id == id && m.role == User }

  /** Every pair made by the step names a placeholder that was there and a user row that was
      not, and is now. */
  ghost predicate FreshPairs(c: Chat, c': Chat) {
    && (forall id :: id in c.paired ==> id in c'.paired && c'.paired[id] == c.paired[id])
    && (forall id :: id in c'.paired && id !in c.paired ==>
          Copies(c.msgs, id) == 1 && Copies(c'.msgs, id) == 0
          && Copies(c.msgs, c'.paired[id]) == 0 && 0 < Count(UserWith(c'.paired[id]), c'.msgs))
  }

  /** What the two messages of a new pair have in common: after a history load their text; after
      an arriving row its text, or, when no placeholder has it, that the placeholder is the oldest. */
  ghost predicate PairContent(c: Chat, a: Action, id: string, row: string) {
    match a
    case Load(batch) =>
      exists i, j :: 0 <= i < |c.msgs| && 0 <= j < |batch| && SameText(c.msgs[i], batch[j], id, row)
    case Arrive(m) => m.id == row && m.role == User && exists i :: Takes(c.msgs, m, i, id)
    case _ => false
  }

  predicate SameText(m: Msg, r: Msg, id: string, row: string) {
    m.id == id && r.id == row && r.role == User && Key(m) == Key(r)
  }

  /** The placeholder `id`, at `i`, has the text of `m`, or is the first when none has. */
  ghost predicate Takes(msgs: seq<Msg>, m: Msg, i: nat, id: string) {
    && i < |msgs| && msgs[i].id == id && IsPlaceholder(msgs[i])
    && (msgs[i].content == m.content
        || forall k :: 0 <= k < |msgs| && IsPlaceholder(msgs[k]) ==> i <= k && msgs[k].content != m.content)
  }

  ghost predicate NewPairContent(c: Chat, a: Action, paired: map<string, string>) {
    forall id :: id in paired && id !in c.paired ==> PairContent(c, a, id, paired[id])
  }

  lemma {:induction false} NewPairsText(rows: seq<Msg>, msgs: seq<Msg>, id: string) returns (i: nat, j: nat)
    requires id in NewPairs(rows, msgs)
    ensures i < |msgs| && j < |rows| && SameText(msgs[i], rows[j], id, NewPairs(rows, msgs)[id])
  {
    var n := |rows| - 1;
    var free := FirstFree(msgs, Claims(rows[..n], msgs).Keys, Key(rows[n]), 0);
    if rows[n].role == User && free.Some? && msgs[free.value].id == id {
      i, j := free.value, n;
    } else {
      i, j := NewPairsText(rows[..n], msgs, id);
    }
  }

  lemma {:induction false} EffectPairContent(c: Chat, a: Action)
    ensures NewPairContent(c, a, Effect(c, a).paired)
  {
    forall id | id in Effect(c, a).paired && id !in c.paired
      ensures PairContent(c, a, id, Effect(c, a).paired[id])
    {
      if a.Load? {
        var rows := Unknown(a.batch, c.msgs);
        var i, j := NewPairsText(rows, c.msgs, id);
        assert rows[j] in a.batch;
        var k :| 0 <= k < |a.batch| && a.batch[k] == rows[j];
        assert SameText(c.msgs[i], a.batch[k], id, Effect(c, a).paired[id]);
      } else {
        assert a.Arrive?;
        assert Takes(c.msgs, a.msg, Echoed(c.msgs, a.msg).value, id);
      }
    }
  }

  lemma {:induction false} KnownCopies(msgs: seq<Msg>, id: string)
    ensures Known(msgs, id) <==> 0 < Copies(msgs, id)
  {
    CountZero(HasId(id), msgs);
  }

  lemma {:induction false} CopiesAppend(msgs: seq<Msg>, m: Msg, id: string)
    ensures Copies(msgs + [m], id) == Copies(msgs, id) + One(m.id == id)
  {
    CountConcat(HasId(id), msgs, [m]);
    assert [m][..0] == [];
  }

  lemma {:induction false} CopiesReplaceOrAppend(msgs: seq<Msg>, m: Msg, id: string)
    ensures Copies(ReplaceOrAppend(msgs, m), id) == if m.id == id && !Known(msgs, id) then 1 else Copies(msgs, id)
  {
    var at := IndexOf(msgs, m.id);
    if at.Some? {
      CountUpdate(HasId(id), msgs, at.value, m);
    } else {
      CopiesAppend(msgs, m, id);
      KnownCopies(msgs, id);
    }
  }

  lemma {:induction false} CopiesUnknown(batch: seq<Msg>, msgs: seq<Msg>, id: string)
    ensures Copies(Unknown(batch, msgs), id) == if Known(msgs, id) then 0 else Copies(batch, id)
  {
    if batch != [] {
      var n := |batch| - 1;
      CopiesUnknown(batch[..n], msgs, id);
      var init := Unknown(batch[..n], msgs);
      if !Known(msgs, batch[n].id) {
        CopiesAppend(init, batch[n], id);
      } else {
        assert init + [] == init;
      }
    }
  }

  // ---- Pairs of a history load --------------------------------------------

  /** An id is newly paired exactly if its placeholder is claimed. */
  lemma {:induction false} PairsCount(rows: seq<Msg>, msgs: seq<Msg>, id: string)
    requires Copies(msgs, id) <= 1
    ensures One(id in NewPairs(rows, msgs)) == CountAt(HasId(id), msgs, Claims(rows, msgs).Keys)
  {
    if rows == [] {
      assert Claims(rows, msgs).Keys == {};
      CountAtNone(HasId(id), msgs, {});
    } else {
      var n := |rows| - 1;
      var before := Claims(rows[..n], msgs);
      var free := FirstFree(msgs, before.Keys, Key(rows[n]), 0);
      PairsCount(rows[..n], msgs, id);
      if rows[n].role == User && free.Some? {
        assert Claims(rows, msgs).Keys == before.Keys + {free.value};
        CountAtAdd(HasId(id), msgs, before.Keys, free.value);
        DropCount(HasId(id), msgs, before.Keys + {free.value});
      }
    }
  }

  /** Pairs lead from placeholders to rows of the history, no two to the same row. */
  lemma {:induction false} PairsShape(rows: seq<Msg>, msgs: seq<Msg>)
    requires DistinctIds(rows)
    ensures forall id :: id in NewPairs(rows, msgs) ==>
      && IsPlaceholderId(id) && 0 < Copies(rows, NewPairs(rows, msgs)[id])
      && 0 < Count(UserWith(NewPairs(rows, msgs)[id]), rows)
    ensures Injective(NewPairs(rows, msgs))
  {
    if rows != [] {
      var n := |rows| - 1;
      assert rows == rows[..n] + [rows[n]];
      forall id ensures Copies(rows, id) == Copies(rows[..n], id) + One(rows[n].id == id) {
        CopiesAppend(rows[..n], rows[n], id);
      }
      assert Copies(rows, rows[n].id) <= 1;
      PairsShape(rows[..n], msgs);
    }
  }

  lemma {:induction false} CopiesMerge(batch: seq<Msg>, msgs: seq<Msg>, id: string)
    requires msgs != [] && Copies(msgs, id) <= 1
    ensures Copies(MergeHistory(batch, msgs), id)
         == Copies(Unknown(batch, msgs), id) + Copies(msgs, id) - One(id in NewPairs(Unknown(batch, msgs), msgs))
  {
    var rows := Unknown(batch, msgs);
    var claimed := Claims(rows, msgs).Keys;
    CountConcat(HasId(id), rows, Drop(msgs, claimed));
    DropCount(HasId(id), msgs, claimed);
    PairsCount(rows, msgs, id);
  }

  lemma {:induction false} ServerCopies(batch: seq<Msg>, id: string)
    requires FromServer(batch) && IsPlaceholderId(id)
    ensures Copies(batch, id) == 0
  {
    CountZero(HasId(id), batch);
  }

  /** Copies of every id after a history load. */
  lemma {:induction false} LoadCopies(c: Chat, batch: seq<Msg>, id: string)
    requires Inv(c) && FromServer(batch) && DistinctIds(batch)
    ensures var c' := LoadEffect(c, batch);
      if IsPlaceholderId(id)
      then Copies(c'.msgs, id) == Copies(c.msgs, id) - One(id in NewPairs(Unknown(batch, c.msgs), c.msgs))
      else Copies(c'.msgs, id) == if Known(c.msgs, id) then Copies(c.msgs, id) else Copies(batch, id)
  {
    var rows := Unknown(batch, c.msgs);
    KnownCopies(c.msgs, id);
    CopiesUnknown(batch, c.msgs, id);
    if IsPlaceholderId(id) { ServerCopies(batch, id); }
    DistinctUnknown(batch, c.msgs);
    PairsShape(rows, c.msgs);
    if c.msgs == [] {
      PairsCount(rows, c.msgs, id);
    } else {
      CopiesMerge(batch, c.msgs, id);
    }
  }

  lemma {:induction false} DistinctUnknown(batch: seq<Msg>, msgs: seq<Msg>)
    requires DistinctIds(batch)
    ensures DistinctIds(Unknown(batch, msgs))
  {
    forall id ensures Copies(Unknown(batch, msgs), id) <= 1 { CopiesUnknown(batch, msgs, id); }
  }

  /** What a new pair of a load says: its placeholder goes, its row was not there. */
  lemma {:induction false} LoadPair(c: Chat, batch: seq<Msg>, id: string)
    requires Inv(c) && FromServer(batch) && DistinctIds(batch)
    requires id in NewPairs(Unknown(batch, c.msgs), c.msgs)
    ensures var row, c' := NewPairs(Unknown(batch, c.msgs), c.msgs)[id], LoadEffect(c, batch);
      && IsPlaceholderId(id) && !IsPlaceholderId(row)
      && Copies(c.msgs, id) == 1 && Copies(c'.msgs, id) == 0
      && Copies(c.msgs, row) == 0 && Copies(c'.msgs, row) == 1
      && 0 < Count(UserWith(row), c'.msgs)
  {
    var rows := Unknown(batch, c.msgs);
    var row := NewPairs(rows, c.msgs)[id];
    DistinctUnknown(batch, c.msgs);
    PairsShape(rows, c.msgs);
    UnknownFromServer(batch, c.msgs);
    if IsPlaceholderId(row) { ServerCopies(rows, row); }
    LoadCopies(c, batch, id);
    LoadCopies(c, batch, row);
    CopiesUnknown(batch, c.msgs, row);
    KnownCopies(c.msgs, row);
    assert Copies(c.msgs, id) <= 1;
    CountConcat(UserWith(row), rows, Drop(c.msgs, Claims(rows, c.msgs).Keys));
  }

  lemma {:induction false} LoadAccounts(c: Chat, batch: seq<Msg>, id: string)
    requires Inv(c) && FromServer(batch) && DistinctIds(batch)
    ensures var c' := LoadEffect(c, batch);
      && Copies(c'.msgs, id) <= 1 && Accounted(c', id)
      && (!IsPlaceholderId(id) ==> Copies(c.msgs, id) <= Copies(c'.msgs, id))
  {
    LoadCopies(c, batch, id);
    KnownCopies(c.msgs, id);
    assert Accounted(c, id) && Copies(batch, id) <= 1 && Copies(c.msgs, id) <= 1;
    if id in NewPairs(Unknown(batch, c.msgs), c.msgs) { LoadPair(c, batch, id); }
  }

  lemma {:induction false} LoadOldPair(c: Chat, batch: seq<Msg>, id: string)
    requires Inv(c) && FromServer(batch) && DistinctIds(batch) && id in c.paired
    ensures id !in NewPairs(Unknown(batch, c.msgs), c.msgs)
    ensures id in LoadEffect(c, batch).paired && PairOk(LoadEffect(c, batch), id)
  {
    assert PairOk(c, id) && Accounted(c, id);
    LoadCopies(c, batch, c.paired[id]);
    KnownCopies(c.msgs, c.paired[id]);
    if id in NewPairs(Unknown(batch, c.msgs), c.msgs) { LoadPair(c, batch, id); }
  }

  lemma {:induction false} LoadInjective(c: Chat, batch: seq<Msg>)
    requires Inv(c) && FromServer(batch) && DistinctIds(batch)
    ensures Injective(LoadEffect(c, batch).paired)
  {
    var rows := Unknown(batch, c.msgs);
    var pairs := NewPairs(rows, c.msgs);
    DistinctUnknown(batch, c.msgs);
    PairsShape(rows, c.msgs);
    forall x, y | x in pairs && y in c.paired ensures pairs[x] != c.paired[y] {
      LoadPair(c, batch, x);
      assert PairOk(c, y);
    }
  }

  lemma {:induction false} LoadKeeps(c: Chat, batch: seq<Msg>)
    requires Inv(c) && FromServer(batch) && DistinctIds(batch)
    ensures var c' := LoadEffect(c, batch); Inv(c') && Persists(c, c') && FreshPairs(c, c')
  {
    var c', pairs := LoadEffect(c, batch), NewPairs(Unknown(batch, c.msgs), c.msgs);
    forall id
      ensures Copies(c'.msgs, id) <= 1 && Accounted(c', id)
      ensures !IsPlaceholderId(id) ==> Copies(c.msgs, id) <= Copies(c'.msgs, id)
    {
      LoadAccounts(c, batch, id);
    }
    forall id | id in c'.paired ensures PairOk(c', id) {
      if id in pairs { LoadPair(c, batch, id); } else { LoadOldPair(c, batch, id); }
    }
    LoadInjective(c, batch);
    assert FreshPairs(c, c') by {
      forall id | id in c.paired ensures id !in pairs { LoadOldPair(c, batch, id); }
      forall id | id in pairs
        ensures Copies(c.msgs, id) == 1 && Copies(c'.msgs, id) == 0
        ensures Copies(c.msgs, pairs[id]) == 0 && 0 < Count(UserWith(pairs[id]), c'.msgs)
      {
        LoadPair(c, batch, id);
      }
    }
  }

  // ---- The other steps ----------------------------------------------------

  lemma {:induction false} SendKeeps(c: Chat, id: string, content: string)
    requires Inv(c) && Legal(c, Send(id, content))
    ensures var c' := Effect(c, Send(id, content)); Inv(c') && Persists(c, c') && FreshPairs(c, c')
  {
    var c' := Effect(c, Send(id, content));
    forall x
      ensures Copies(c'.msgs, x) == Copies(c.msgs, x) + One(x == id)
      ensures Accounted(c', x) && Copies(c'.msgs, x) <= 1
    {
      CopiesAppend(c.msgs, Msg(id, User, Some(content), Unset), x);
      assert Accounted(c, x) && Copies(c.msgs, x) <= 1;
    }
    forall x | x in c'.paired ensures PairOk(c', x) { assert PairOk(c, x); }
  }

  lemma {:induction false} OlderKeeps(c: Chat, batch: seq<Msg>)
    requires Inv(c) && Legal(c, Older(batch))
    ensures var c' := Effect(c, Older(batch)); Inv(c') && Persists(c, c') && FreshPairs(c, c')
  {
    var c' := Effect(c, Older(batch));
    forall x ensures Copies(c.msgs, x) <= Copies(c'.msgs, x) <= 1 && Accounted(c', x) {
      CountConcat(HasId(x), Unknown(batch, c.msgs), c.msgs);
      CopiesUnknown(batch, c.msgs, x);
      KnownCopies(c.msgs, x);
      if IsPlaceholderId(x) { ServerCopies(batch, x); }
      assert Accounted(c, x) && Copies(c.msgs, x) <= 1 && Copies(batch, x) <= 1;
    }
    forall x | x in c'.paired ensures PairOk(c', x) { assert PairOk(c, x); }
  }

  /** Replacing or appending a server message. */
  lemma {:induction false} UpsertKeeps(c: Chat, m: Msg)
    requires Inv(c) && !IsPlaceholder(m)
    ensures var c' := c.(msgs := ReplaceOrAppend(c.msgs, m)); Inv(c') && Persists(c, c') && FreshPairs(c, c')
  {
    var c' := c.(msgs := ReplaceOrAppend(c.msgs, m));
    forall x ensures Copies(c.msgs, x) <= Copies(c'.msgs, x) <= 1 && Accounted(c', x) {
      CopiesReplaceOrAppend(c.msgs, m, x);
      KnownCopies(c.msgs, x);
      assert Accounted(c, x) && Copies(c.msgs, x) <= 1;
    }
    forall x | x in c'.paired ensures PairOk(c', x) { assert PairOk(c, x); }
  }

  function Echo(c: Chat, m: Msg, at: nat): Chat
    requires at < |c.msgs|
  {
    c.(msgs := c.msgs[at := m], paired := c.paired[c.msgs[at].id := m.id])
  }

  lemma {:induction false} EchoCopies(c: Chat, m: Msg, at: nat, x: string)
    requires Inv(c) && !IsPlaceholder(m) && !Known(c.msgs, m.id)
    requires at < |c.msgs| && IsPlaceholder(c.msgs[at])
    ensures Copies(c.msgs, m.id) == 0 && Copies(c.msgs, c.msgs[at].id) == 1 && c.msgs[at].id !in c.paired
    ensures Copies(Echo(c, m, at).msgs, x) == Copies(c.msgs, x) - One(x == c.msgs[at].id) + One(x == m.id)
    ensures Copies(Echo(c, m, at).msgs, x) <= 1 && Accounted(Echo(c, m, at), x)
  {
    var gone := c.msgs[at].id;
    KnownCopies(c.msgs, m.id);
    CountZero(HasId(gone), c.msgs);
    assert HasId(gone)(c.msgs[at]) && Accounted(c, gone) && Copies(c.msgs, gone) == 1;
    CountUpdate(HasId(x), c.msgs, at, m);
    assert Accounted(c, x) && Copies(c.msgs, x) <= 1;
  }

  /** A new user row takes the place of a placeholder. */
  lemma {:induction false} EchoKeeps(c: Chat, m: Msg, at: nat)
    requires Inv(c) && !IsPlaceholder(m) && m.role == User && !Known(c.msgs, m.id)
    requires at < |c.msgs| && IsPlaceholder(c.msgs[at])
    ensures Inv(Echo(c, m, at)) && Persists(c, Echo(c, m, at)) && FreshPairs(c, Echo(c, m, at))
  {
    var gone, c' := c.msgs[at].id, Echo(c, m, at);
    forall x
      ensures Copies(c.msgs, m.id) == 0 && Copies(c.msgs, gone) == 1 && gone !in c.paired
      ensures Copies(c'.msgs, x) == Copies(c.msgs, x) - One(x == gone) + One(x == m.id)
      ensures Copies(c'.msgs, x) <= 1 && Accounted(c', x)
    {
      EchoCopies(c, m, at, x);
    }
    forall x | x in c.paired ensures x != gone && c.paired[x] != m.id && PairOk(c', x) { assert PairOk(c, x); }
    assert PairOk(c', gone);
    EchoInjective(c.paired, gone, m.id);
    assert 0 < Count(UserWith(m.id), c'.msgs) by {
      CountZero(UserWith(m.id), c'.msgs);
      assert UserWith(m.id)(c'.msgs[at]);
    }
  }

  lemma {:induction false} EchoInjective(paired: map<string, string>, gone: string, row: string)
    requires Injective(paired) && forall x :: x in paired ==> paired[x] != row
    ensures Injective(paired[gone := row])
  {
  }

  lemma {:induction false} ArriveKeeps(c: Chat, m: Msg)
    requires Inv(c) && !IsPlaceholder(m)
    ensures var c' := ArriveEffect(c, m); Inv(c') && Persists(c, c') && FreshPairs(c, c')
  {
    var at := Echoed(c.msgs, m);
    if !Known(c.msgs, m.id) {
      if m.role == User && at.Some? {
        EchoKeeps(c, m, at.value);
      } else {
        UpsertKeeps(c, m);
      }
    }
  }

  lemma {:induction false} EffectKeeps(c: Chat, a: Action)
    requires Inv(c) && Legal(c, a)
    ensures var c' := Effect(c, a); Inv(c') && Persists(c, c') && FreshPairs(c, c')
  {
    match a
    case Send(id, content) => SendKeeps(c, id, content);
    case Load(batch) => LoadKeeps(c, batch);
    case Older(batch) => OlderKeeps(c, batch);
    case Arrive(m) => ArriveKeeps(c, m);
    case Settle(m) => UpsertKeeps(c, m);
    case Resume(m) => UpsertKeeps(c, m);
    case Fail(m) => UpsertKeeps(c, m);
  }

  /** Every step, whatever order sorting leaves the messages in. */
  lemma {:induction false} StepKeeps(c: Chat, a: Action, c': Chat)
    requires Inv(c) && Next(c, a, c')
    ensures Inv(c') && Persists(c, c') && FreshPairs(c, c') && NewPairContent(c, a, c'.paired)
    ensures c.sent <= c'.sent
  {
    var e := Effect(c, a);
    EffectKeeps(c, a);
    EffectPairContent(c, a);
    forall id ensures Copies(c'.msgs, id) == Copies(e.msgs, id) { CountPermutation(HasId(id), c'.msgs, e.msgs); }
    forall id ensures Accounted(c', id) { assert Accounted(e, id); }
    forall id | id in c'.paired ensures PairOk(c', id) { assert PairOk(e, id); }
    forall id ensures Count(UserWith(id), c'.msgs) == Count(UserWith(id), e.msgs) {
      CountPermutation(UserWith(id), c'.msgs, e.msgs);
    }
  }

  // ---- Runs ---------------------------------------------------------------

  ghost predicate Leads(c: Chat, run: seq<Action>, c': Chat) {
    if run == [] then c' == c
    else
      var k := |run| - 1;
      exists mid :: Leads(c, run[..k], mid) && Next(mid, run[k], c')
  }

  /** Between an earlier and a later state: every placeholder that has gone is paired, and every
      pair made since names a placeholder that has gone and a row that was not there and is now. */
  ghost predicate PairedSince(c: Chat, c': Chat) {
    && (forall id :: id in c.paired ==> id in c'.paired && c'.paired[id] == c.paired[id])
    && (forall id :: IsPlaceholderId(id) && Copies(c.msgs, id) == 1 && Copies(c'.msgs, id) == 0 ==>
          id in c'.paired && id !in c.paired)
    && (forall id :: id in c'.paired && id !in c.paired ==>
          Copies(c'.msgs, id) == 0 && Copies(c.msgs, c'.paired[id]) == 0 && Copies(c'.msgs, c'.paired[id]) == 1)
  }

  lemma {:induction false} GonePaired(c: Chat, c': Chat, id: string)
    requires Inv(c) && Inv(c') && c.sent <= c'.sent
    requires IsPlaceholderId(id) && Copies(c.msgs, id) == 1 && Copies(c'.msgs, id) == 0
    ensures id in c'.paired && id !in c.paired
  {
    assert Accounted(c, id) && Accounted(c', id);
  }

  lemma {:induction false} PairMade(c: Chat, mid: Chat, c': Chat, id: string)
    requires Inv(c') && Persists(c, mid) && PairedSince(c, mid) && FreshPairs(mid, c')
    requires id in c'.paired && id !in c.paired
    ensures Copies(c'.msgs, id) == 0 && Copies(c.msgs, c'.paired[id]) == 0 && Copies(c'.msgs, c'.paired[id]) == 1
  {
    assert PairOk(c', id) && Accounted(c', id);
    assert Copies(c.msgs, c'.paired[id]) <= Copies(mid.msgs, c'.paired[id]);
  }

  lemma {:induction false} PairedStep(c: Chat, mid: Chat, a: Action, c': Chat)
    requires Inv(c) && Inv(mid) && c.sent <= mid.sent && Persists(c, mid) && PairedSince(c, mid) && Next(mid, a, c')
    ensures Inv(c') && c.sent <= c'.sent && Persists(c, c') && PairedSince(c, c')
  {
    StepKeeps(mid, a, c');
    forall id | IsPlaceholderId(id) && Copies(c.msgs, id) == 1 && Copies(c'.msgs, id) == 0
      ensures id in c'.paired && id !in c.paired
    {
      GonePaired(c, c', id);
    }
    forall id | id in c'.paired && id !in c.paired
      ensures Copies(c'.msgs, id) == 0 && Copies(c.msgs, c'.paired[id]) == 0 && Copies(c'.msgs, c'.paired[id]) == 1
    {
      PairMade(c, mid, c', id);
    }
  }

  /** From any reached state to any later one: ids are distinct, no persisted message has left, and
      the placeholders that have are paired one to one with rows added since. */
  lemma {:induction false} LaterKeeps(c: Chat, run: seq<Action>, c': Chat)
    requires Inv(c) && Leads(c, run, c')
    ensures Inv(c') && c.sent <= c'.sent && Persists(c, c') && PairedSince(c, c')
  {
    if run == [] {
      forall id | id in c.paired ensures Accounted(c, id) && PairOk(c, id) {}
    } else {
      var k := |run| - 1;
      var mid :| Leads(c, run[..k], mid) && Next(mid, run[k], c');
      LaterKeeps(c, run[..k], mid);
      PairedStep(c, mid, run[k], c');
    }
  }

  lemma {:induction false} EmptyKeeps()
    ensures Inv(Empty())
  {
    forall id ensures Accounted(Empty(), id) {}
  }

  /** Over every run, split anywhere. */
  lemma {:induction false} RunKeeps(before: seq<Action>, c: Chat, after: seq<Action>, c': Chat)
    requires Leads(Empty(), before, c) && Leads(c, after, c')
    ensures Inv(c) && Inv(c') && Persists(c, c') && PairedSince(c, c')
  {
    EmptyKeeps();
    LaterKeeps(Empty(), before, c);
    LaterKeeps(c, after, c');
  }
}
