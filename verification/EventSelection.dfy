/** Delivery across reconnects: what an iterator has yielded is a selection of its chat's
    events, in order and each once, that misses only events dropped from its queue. */
module EventSelection {
  import opened EventBus

  /** The events of `log` at positions `a` up to `b`, without the dropped ones. */
  function Pick<E>(log: seq<E>, a: nat, b: nat, dropped: set<int>): seq<E>
    requires b <= |log|
  {
    if b <= a then []
    else Pick(log, a, b - 1, dropped) + if b - 1 in dropped then [] else [log[b - 1]]
  }

  /** Yielded are all events from the first one up to the queue but the dropped ones; queued are
      the latest; a live iterator is up to date. */
  ghost predicate Selected<E>(it: Iter<E>, log: seq<E>) {
    var at := it.next - |it.queue|;
    && 0 <= it.from <= at && it.next <= |log| && it.queue == log[at..it.next]
    && (forall p :: p in it.dropped ==> it.from <= p < at)
    && it.yielded == Pick(log, it.from, at, it.dropped)
    && (!it.done ==> it.next == |log|)
  }

  lemma {:induction false} PickGrows<E>(log: seq<E>, more: seq<E>, a: nat, b: nat, dropped: set<int>)
    requires b <= |log|
    ensures Pick(log + more, a, b, dropped) == Pick(log, a, b, dropped)
  {
    if a < b { PickGrows(log, more, a, b - 1, dropped); }
  }

  /** Dropping what lies at `b` or later changes nothing before it. */
  lemma {:induction false} PickBefore<E>(log: seq<E>, a: nat, b: nat, dropped: set<int>, more: set<int>)
    requires b <= |log| && forall p :: p in more ==> b <= p
    ensures Pick(log, a, b, dropped + more) == Pick(log, a, b, dropped)
  {
    if a < b { PickBefore(log, a, b - 1, dropped, more); }
  }

  /** A dropped stretch adds nothing. */
  lemma {:induction false} PickDropped<E>(log: seq<E>, a: nat, b: nat, c: nat, dropped: set<int>)
    requires a <= b <= c <= |log| && forall p :: b <= p < c ==> p in dropped
    ensures Pick(log, a, c, dropped) == Pick(log, a, b, dropped)
  {
    if b < c { PickDropped(log, a, b, c - 1, dropped); }
  }

  lemma {:induction false} PushSelected<E>(it: Iter<E>, log: seq<E>, e: E)
    requires Selected(it, log) && (it.pending ==> it.queue == [])
    ensures Selected(Push(it, e), log + [e])
  {
    var at := it.next - |it.queue|;
    PickGrows(log, [e], it.from, at, it.dropped);
    assert (log + [e])[at..it.next] == log[at..it.next];
    if !it.done && !it.pending {
      assert (log + [e])[at..it.next + 1] == log[at..it.next] + [e];
    }
  }

  lemma {:induction false} ReadSelected<E>(it: Iter<E>, log: seq<E>)
    requires Selected(it, log)
    ensures Selected(Read(it), log)
  {
    var at := it.next - |it.queue|;
    if it.queue != [] {
      assert it.queue[0] == log[at] && it.queue[1..] == log[at + 1..it.next];
    }
  }

  lemma {:induction false} DropSelected<E>(it: Iter<E>, log: seq<E>)
    requires Selected(it, log)
    ensures Selected(DropQueue(it), log)
  {
    var at := it.next - |it.queue|;
    var more := Positions(at, it.next);
    PickBefore(log, it.from, at, it.dropped, more);
    PickDropped(log, it.from, at, it.next, it.dropped + more);
    assert log[it.next..it.next] == [];
  }

  // ---- Every step ---------------------------------------------------------

  ghost predicate IterSelected<E>(b: Bus<E>, i: nat)
    requires i < |b.iters|
  {
    Selected(b.iters[i], At(b.log, b.iters[i].chat))
  }

  ghost predicate Selection<E>(b: Bus<E>) {
    && (forall i :: 0 <= i < |b.iters| ==> IterSelected(b, i))
    && (forall chat :: Buffered(b, chat))
  }

  lemma {:induction false} DispatchSelected<E>(b: Bus<E>, chat: Chat, e: E, i: nat)
    requires Structure(b) && i < |b.iters|
    ensures IterSelected(b, i) ==> IterSelected(DispatchStep(b, chat, e), i)
  {
    DispatchIter(b, chat, e, i);
    DispatchLog(b, chat, e, b.iters[i].chat);
    if b.iters[i].chat == chat && IterSelected(b, i) { PushSelected(b.iters[i], At(b.log, chat), e); }
  }

  lemma {:induction false} OpenedSelected<E>(chat: Chat, home: nat, buf: seq<E>, log: seq<E>)
    requires |buf| <= |log| && buf == log[|log| - |buf|..]
    ensures Selected(Opened(chat, home, buf, |log|), log)
  {
    assert log[|log| - |buf|..] == log[|log| - |buf|..|log|];
  }

  lemma {:induction false} SubscribeSelects<E>(b: Bus<E>, chat: Chat, i: nat)
    requires i <= |b.iters| && Buffered(b, chat)
    ensures (i < |b.iters| ==> IterSelected(b, i)) ==> IterSelected(SubscribeStep(b, chat), i)
  {
    var b' := SubscribeStep(b, chat);
    if i < |b.iters| {
      assert b'.iters[i] == b.iters[i];
    } else {
      OpenedSelected(chat, b'.iters[i].home, At(b.buffers, chat), At(b.log, chat));
      assert b'.iters[i] == Opened(chat, b'.iters[i].home, At(b.buffers, chat), |At(b.log, chat)|);
    }
  }

  lemma {:induction false} NextSelects<E>(b: Bus<E>, id: nat, i: nat)
    requires id < |b.iters| && i < |b.iters|
    ensures IterSelected(b, i) ==> IterSelected(NextStep(b, id), i)
  {
    var b', it := NextStep(b, id), b.iters[i];
    assert b'.iters[i] == (if i == id then Read(it) else it) && b'.log == b.log && Read(it).chat == it.chat;
    ReadSelects(it, At(b.log, it.chat));
  }

  lemma {:induction false} ReadSelects<E>(it: Iter<E>, log: seq<E>)
    ensures Selected(it, log) ==> Selected(Read(it), log)
  {
    if Selected(it, log) { ReadSelected(it, log); }
  }

  lemma {:induction false} CleanupSelects<E>(b: Bus<E>, id: nat, i: nat)
    requires id < |b.iters| && b.iters[id].home < |b.sets| && i < |b.iters|
    ensures IterSelected(b, i) ==> IterSelected(CleanupStep(b, id), i)
  {
  }

  lemma {:induction false} ReconnectSelects<E>(b: Bus<E>, i: nat)
    requires Structure(b) && i < |b.iters|
    ensures IterSelected(b, i) ==> IterSelected(ReconnectStep(b), i)
  {
    ReconnectDropsQueuesOnly(b);
    if IterSelected(b, i) { DropSelected(b.iters[i], At(b.log, b.iters[i].chat)); }
  }

  lemma {:induction false} StepSelectsIter<E>(b: Bus<E>, a: Action<E>, i: nat)
    requires Structure(b) && Selection(b) && Legal(b, a) && i < |Step(b, a).iters|
    ensures IterSelected(Step(b, a), i)
  {
    assert i < |b.iters| ==> IterSelected(b, i);
    match a
    case Subscribe(chat) =>
      assert Buffered(b, chat);
      SubscribeSelects(b, chat, i);
    case Dispatch(chat, e) => DispatchSelected(b, chat, e, i);
    case Next(id) => NextSelects(b, id, i);
    case Cleanup(id) => CleanupSelects(b, id, i);
    case Reconnect => ReconnectSelects(b, i);
  }

  lemma {:induction false} StepBuffers<E>(b: Bus<E>, a: Action<E>, c: Chat)
    requires Structure(b) && Selection(b) && Legal(b, a)
    ensures Buffered(Step(b, a), c)
  {
    assert Buffered(b, c);
    match a
    case Subscribe(chat) => SubscribeBuffered(b, chat, c);
    case Dispatch(chat, e) =>
      if chat in b.registry { assert ChatOk(b, chat); }
      DispatchBuffered(b, chat, e, c);
    case Next(id) =>
    case Cleanup(id) =>
    case Reconnect => ReconnectDropsQueuesOnly(b);
  }

  /** In every legal run, reconnects included: each iterator has yielded its chat's events from
      its first one on, in order and each once, except those dropped at a reconnect. */
  lemma {:induction false} RunSelects<E(!new)>(run: seq<Action<E>>, b: Bus<E>)
    requires Reaches(run, b)
    ensures Structure(b) && Selection(b)
  {
    if run != [] {
      var k := |run| - 1;
      var b0 :| Reaches(run[..k], b0) && Legal(b0, run[k]) && b == Step(b0, run[k]);
      RunSelects(run[..k], b0);
      StepStructure(b0, run[k]);
      forall i | 0 <= i < |b.iters| ensures IterSelected(b, i) { StepSelectsIter(b0, run[k], i); }
      forall c ensures Buffered(b, c) { StepBuffers(b0, run[k], c); }
    }
  }
}
