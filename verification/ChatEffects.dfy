/** What each step puts into the message list and what it leaves there, message by message. */
module ChatEffects {
  import opened Options
  import opened ChatMessages
  import opened ChatRuns

  /** `after` is `before` with the message at `i` replaced by `m`. */
  ghost predicate ReplacedAt(before: seq<Msg>, m: Msg, after: multiset<Msg>, i: int) {
    0 <= i < |before| && after == multiset(before[..i]) + multiset{m} + multiset(before[i + 1..])
  }

  ghost predicate FirstWithId(msgs: seq<Msg>, id: string, i: int) {
    0 <= i < |msgs| && msgs[i].id == id && forall k :: 0 <= k < i ==> msgs[k].id != id
  }

  /** `m` takes the place of the first message with its id, or is added. */
  ghost predicate Stored(before: seq<Msg>, m: Msg, after: multiset<Msg>) {
    if Known(before, m.id) then exists i :: FirstWithId(before, m.id, i) && ReplacedAt(before, m, after, i)
    else after == multiset(before) + multiset{m}
  }

  /** A new user row takes the place of a placeholder, of its text if there is one and else the
      first; any other row is added. */
  ghost predicate Arrived(before: seq<Msg>, m: Msg, after: multiset<Msg>) {
    if m.role == User && exists i :: 0 <= i < |before| && IsPlaceholder(before[i])
    then exists i: nat :: i < |before| && Takes(before, m, i, before[i].id) && ReplacedAt(before, m, after, i)
    else after == multiset(before) + multiset{m}
  }

  /** Rows of `batch` are added unless their id was known, and `x` stays as often as it was. */
  ghost predicate Added(before: seq<Msg>, batch: seq<Msg>, after: multiset<Msg>, x: Msg) {
    after[x] == multiset(before)[x] + if Known(before, x.id) then 0 else multiset(batch)[x]
  }

  /** What a step makes of the messages, in any order; a load may also take placeholders away. */
  ghost predicate Effected(before: seq<Msg>, a: Action, after: multiset<Msg>) {
    match a
    case Send(id, content) => after == multiset(before) + multiset{Msg(id, User, Some(content), Unset)}
    case Load(batch) => forall x :: before == [] || !IsPlaceholder(x) ==> Added(before, batch, after, x)
    case Older(batch) => forall x :: Added(before, batch, after, x)
    case Arrive(m) => if Known(before, m.id) then after == multiset(before) else Arrived(before, m, after)
    case Settle(m) => Stored(before, m, after)
    case Resume(m) => if Known(before, m.id) then Stored(before, m, after) else after == multiset(before)
    case Fail(m) => Stored(before, m, after)
  }

  lemma {:induction false} IndexOfFirst(msgs: seq<Msg>, id: string)
    ensures IndexOf(msgs, id).Some? ==> FirstWithId(msgs, id, IndexOf(msgs, id).value)
  {
    if msgs != [] {
      var n := |msgs| - 1;
      IndexOfFirst(msgs[..n], id);
      assert forall k :: 0 <= k < n ==> msgs[..n][k] == msgs[k];
      assert IndexOf(msgs[..n], id).None? ==> forall k :: 0 <= k < n ==> msgs[k].id != id;
    }
  }

  lemma {:induction false} UpdateReplaces(msgs: seq<Msg>, i: nat, m: Msg)
    requires i < |msgs|
    ensures ReplacedAt(msgs, m, multiset(msgs[i := m]), i)
  {
    assert msgs[i := m] == msgs[..i] + [m] + msgs[i + 1..];
  }

  lemma {:induction false} UpsertStores(msgs: seq<Msg>, m: Msg)
    ensures Stored(msgs, m, multiset(ReplaceOrAppend(msgs, m)))
  {
    var at := IndexOf(msgs, m.id);
    IndexOfFirst(msgs, m.id);
    if at.Some? { UpdateReplaces(msgs, at.value, m); }
  }

  lemma {:induction false} ArrivalStores(c: Chat, m: Msg)
    requires !Known(c.msgs, m.id)
    ensures Arrived(c.msgs, m, multiset(ArriveEffect(c, m).msgs))
  {
    var at := Echoed(c.msgs, m);
    if m.role == User && at.Some? {
      UpdateReplaces(c.msgs, at.value, m);
      assert Takes(c.msgs, m, at.value, c.msgs[at.value].id);
    }
  }

  lemma {:induction false} UnknownAdds(batch: seq<Msg>, msgs: seq<Msg>, x: Msg)
    ensures multiset(Unknown(batch, msgs))[x] == if Known(msgs, x.id) then 0 else multiset(batch)[x]
  {
    if batch != [] {
      var n := |batch| - 1;
      assert batch == batch[..n] + [batch[n]];
      UnknownAdds(batch[..n], msgs, x);
    }
  }

  lemma {:induction false} DropKeeps(msgs: seq<Msg>, claimed: set<nat>, x: Msg)
    requires forall i :: 0 <= i < |msgs| && i in claimed ==> msgs[i] != x
    ensures multiset(Drop(msgs, claimed))[x] == multiset(msgs)[x]
  {
    if msgs != [] {
      var n := |msgs| - 1;
      assert msgs == msgs[..n] + [msgs[n]];
      DropKeeps(msgs[..n], claimed, x);
    }
  }

  lemma {:induction false} LoadAdds(batch: seq<Msg>, msgs: seq<Msg>, x: Msg)
    requires msgs == [] || !IsPlaceholder(x)
    ensures Added(msgs, batch, multiset(MergeHistory(batch, msgs)), x)
  {
    if msgs != [] {
      var rows := Unknown(batch, msgs);
      UnknownAdds(batch, msgs, x);
      DropKeeps(msgs, Claims(rows, msgs).Keys, x);
    }
  }

  lemma {:induction false} OlderAdds(batch: seq<Msg>, msgs: seq<Msg>, x: Msg)
    ensures Added(msgs, batch, multiset(Unknown(batch, msgs) + msgs), x)
  {
    UnknownAdds(batch, msgs, x);
  }

  lemma {:induction false} EffectIs(c: Chat, a: Action)
    ensures Effected(c.msgs, a, multiset(Effect(c, a).msgs))
  {
    match a
    case Send(_, _) =>
    case Load(batch) =>
      forall x | c.msgs == [] || !IsPlaceholder(x)
        ensures Added(c.msgs, batch, multiset(MergeHistory(batch, c.msgs)), x)
      {
        LoadAdds(batch, c.msgs, x);
      }
    case Older(batch) =>
      forall x ensures Added(c.msgs, batch, multiset(Unknown(batch, c.msgs) + c.msgs), x) {
        OlderAdds(batch, c.msgs, x);
      }
    case Arrive(m) => if !Known(c.msgs, m.id) { ArrivalStores(c, m); }
    case Settle(m) => UpsertStores(c.msgs, m);
    case Resume(m) => UpsertStores(c.msgs, m);
    case Fail(m) => UpsertStores(c.msgs, m);
  }

  /** Every step of a run, whatever order sorting leaves the messages in. */
  lemma {:induction false} StepEffects(c: Chat, a: Action, c': Chat)
    requires Next(c, a, c')
    ensures Effected(c.msgs, a, multiset(c'.msgs))
  {
    EffectIs(c, a);
  }

  lemma {:induction false} OnlyOne(msgs: seq<Msg>, id: string, i: nat)
    requires DistinctIds(msgs) && i < |msgs| && msgs[i].id == id
    ensures forall x: Msg :: x.id == id ==> x !in msgs[..i] && x !in msgs[i + 1..]
  {
    assert Copies(msgs, id) <= 1;
    CountSplit(HasId(id), msgs, i);
    CountZero(HasId(id), msgs[..i]);
    CountZero(HasId(id), msgs[i + 1..]);
  }

  lemma {:induction false} SplitCount(msgs: seq<Msg>, i: nat, x: Msg)
    requires i < |msgs|
    ensures multiset(msgs)[x] == multiset(msgs[..i])[x] + multiset(msgs[i + 1..])[x] + if x == msgs[i] then 1 else 0
  {
    assert msgs == msgs[..i] + [msgs[i]] + msgs[i + 1..];
  }

  lemma {:induction false} ReplacedOnce(before: seq<Msg>, m: Msg, after: multiset<Msg>, i: nat, x: Msg)
    requires DistinctIds(before) && i < |before| && before[i].id == m.id && ReplacedAt(before, m, after, i)
    ensures after[x] == if x.id != m.id then multiset(before)[x] else if x == m then 1 else 0
  {
    SplitCount(before, i, x);
    OnlyOne(before, m.id, i);
    if x.id == m.id { assert x !in multiset(before[..i]) && x !in multiset(before[i + 1..]); }
  }

  /** In a store of distinct ids, a stored message is there exactly once, an older version of it is
      not, and every other message is there as often as before. */
  lemma {:induction false} StoredOnce(before: seq<Msg>, m: Msg, after: multiset<Msg>, x: Msg)
    requires DistinctIds(before) && Stored(before, m, after)
    ensures after[x] == if x.id != m.id then multiset(before)[x] else if x == m then 1 else 0
  {
    if Known(before, m.id) {
      var i :| FirstWithId(before, m.id, i) && ReplacedAt(before, m, after, i);
      ReplacedOnce(before, m, after, i, x);
    } else {
      assert x.id == m.id ==> x !in before;
    }
  }
}
