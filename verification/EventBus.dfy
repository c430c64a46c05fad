/** Hand-off of chat events from the stream to per-chat iterators, as a state machine over
    arbitrary runs.  A subscriber set is an object with an identity: an iterator keeps a
    reference to the set it joined, even after the registry has moved on. */
module EventBus {

  type Chat = string

  /** One iterator: the closure variables of a subscription, and what it has yielded. */
  datatype Iter<E> = Iter(
    chat: Chat,
    home: nat,          // identity of the subscriber set it joined
    queue: seq<E>,
    pending: bool,      // a read is waiting
    done: bool,
    yielded: seq<E>,
    from: int,          // history: events of its chat dispatched before its first one
    next: int,          // history: events of its chat dispatched up to its last one
    dropped: set<int>)  // history: positions, in its chat's log, of events dropped from its queue

  datatype Bus<E> = Bus(
    registry: map<Chat, nat>,      // chat to the identity of its current subscriber set
    sets: seq<set<nat>>,           // every subscriber set ever created
    buffers: map<Chat, seq<E>>,
    iters: seq<Iter<E>>,           // every iterator ever created
    log: map<Chat, seq<E>>)        // history: every event dispatched, per chat

  datatype Action<E> =
    | Subscribe(chat: Chat)
    | Dispatch(chat: Chat, event: E)
    | Next(id: nat)
    | Cleanup(id: nat)
    | Reconnect

  function Empty<E>(): Bus<E> { Bus(map[], [], map[], [], map[]) }

  function At<E>(m: map<Chat, seq<E>>, chat: Chat): seq<E> { if chat in m then m[chat] else [] }

  // ---- Steps --------------------------------------------------------------

  function Push<E>(it: Iter<E>, e: E): Iter<E> {
    if it.done then it
    else if it.pending then it.(pending := false, yielded := it.yielded + [e], next := it.next + 1)
    else it.(queue := it.queue + [e], next := it.next + 1)
  }

  /** Every listed iterator gets the event. */
  function PushAll<E>(iters: seq<Iter<E>>, ids: set<nat>, e: E): (r: seq<Iter<E>>)
    ensures |r| == |iters|
    ensures forall i {:trigger r[i]} :: 0 <= i < |r| ==> r[i] == if i in ids then Push(iters[i], e) else iters[i]
  {
    seq(|iters|, i requires 0 <= i < |iters| => if i in ids then Push(iters[i], e) else iters[i])
  }

  function Members<E>(b: Bus<E>, chat: Chat): set<nat> {
    if chat in b.registry && b.registry[chat] < |b.sets| then b.sets[b.registry[chat]] else {}
  }

  function Opened<E>(chat: Chat, home: nat, queue: seq<E>, next: int): Iter<E> {
    Iter(chat, home, queue, false, false, [], next - |queue|, next, {})
  }

  /** Opening an iterator takes the chat's buffer and joins, or creates, its set. */
  function SubscribeStep<E>(b: Bus<E>, chat: Chat): Bus<E> {
    var queue := At(b.buffers, chat);
    var known := chat in b.registry && b.registry[chat] < |b.sets|;
    var sets := if known then b.sets else b.sets + [{}];
    var home := if known then b.registry[chat] else |b.sets|;
    Bus(b.registry[chat := home],
        sets[home := sets[home] + {|b.iters|}],
        b.buffers - {chat},
        b.iters + [Opened(chat, home, queue, |At(b.log, chat)|)],
        b.log)
  }

  function DispatchStep<E>(b: Bus<E>, chat: Chat, e: E): Bus<E> {
    var b' := b.(log := b.log[chat := At(b.log, chat) + [e]]);
    if chat in b.registry then b'.(iters := PushAll(b.iters, Members(b, chat), e))
    else b'.(buffers := b.buffers[chat := At(b.buffers, chat) + [e]])
  }

  function Read<E>(it: Iter<E>): Iter<E> {
    if it.queue != [] then it.(yielded := it.yielded + [it.queue[0]], queue := it.queue[1..])
    else if it.done then it
    else it.(pending := true)
  }

  function NextStep<E>(b: Bus<E>, id: nat): Bus<E>
    requires id < |b.iters|
  {
    b.(iters := b.iters[id := Read(b.iters[id])])
  }

  /** The set it joined loses the iterator; if that set is empty the chat's registration
      is deleted, whichever set is registered by then. */
  function CleanupStep<E>(b: Bus<E>, id: nat): Bus<E>
    requires id < |b.iters| && b.iters[id].home < |b.sets|
  {
    var it := b.iters[id];
    var rest := b.sets[it.home] - {id};
    b.(iters := b.iters[id := it.(done := true, pending := false)],
       sets := b.sets[it.home := rest],
       registry := if rest == {} then b.registry - {it.chat} else b.registry)
  }

  /** Queues of registered iterators are dropped; buffers survive where nobody listens. */
  function ReconnectStep<E>(b: Bus<E>): Bus<E> {
    b.(iters := DropQueues(b.iters, Registered(b)), buffers := b.buffers - b.registry.Keys)
  }

  function Registered<E>(b: Bus<E>): set<nat> {
    set chat, i | chat in b.registry && i in Members(b, chat) :: i
  }

  function DropQueues<E>(iters: seq<Iter<E>>, ids: set<nat>): (r: seq<Iter<E>>)
    ensures |r| == |iters|
    ensures forall i {:trigger r[i]} :: 0 <= i < |r| ==> r[i] == if i in ids then DropQueue(iters[i]) else iters[i]
  {
    seq(|iters|, i requires 0 <= i < |iters| => if i in ids then DropQueue(iters[i]) else iters[i])
  }

  function DropQueue<E>(it: Iter<E>): Iter<E> {
    it.(queue := [], dropped := it.dropped + Positions(it.next - |it.queue|, it.next))
  }

  function Positions(a: int, b: int): (r: set<int>)
    ensures forall p :: p in r <==> a <= p < b
    decreases b - a
  {
    if b <= a then {} else Positions(a, b - 1) + {b - 1}
  }

  // ---- Runs ---------------------------------------------------------------

  /** The iterator's own set is empty while another is registered for its chat, so that
      cleaning it up (again) would unregister the other. */
  ghost predicate Evicts<E>(b: Bus<E>, id: nat)
    requires id < |b.iters| && b.iters[id].home < |b.sets|
  {
    var it := b.iters[id];
    it.done && b.sets[it.home] == {} && it.chat in b.registry
  }

  /** One read at a time, and no cleanup that evicts another iterator. */
  ghost predicate Legal<E>(b: Bus<E>, a: Action<E>) {
    match a
    case Next(id) => id < |b.iters| && !b.iters[id].pending
    case Cleanup(id) => id < |b.iters| && b.iters[id].home < |b.sets| && !Evicts(b, id)
    case _ => true
  }

  function Step<E>(b: Bus<E>, a: Action<E>): Bus<E>
    requires a.Next? ==> a.id < |b.iters|
    requires a.Cleanup? ==> a.id < |b.iters| && b.iters[a.id].home < |b.sets|
  {
    match a
    case Subscribe(chat) => SubscribeStep(b, chat)
    case Dispatch(chat, e) => DispatchStep(b, chat, e)
    case Next(id) => NextStep(b, id)
    case Cleanup(id) => CleanupStep(b, id)
    case Reconnect => ReconnectStep(b)
  }

  /** `run` leads from the empty bus to `b` by legal steps. */
  ghost predicate Reaches<E(!new)>(run: seq<Action<E>>, b: Bus<E>) {
    if run == [] then b == Empty()
    else
      var k := |run| - 1;
      exists b0 :: Reaches(run[..k], b0) && Legal(b0, run[k]) && b == Step(b0, run[k])
  }

  // ---- Structure ----------------------------------------------------------

  /** A live iterator is registered; a waiting read has an empty queue. */
  ghost predicate IterOk<E>(b: Bus<E>, i: nat)
    requires i < |b.iters|
  {
    var it := b.iters[i];
    && it.home < |b.sets|
    && (it.done <==> i !in b.sets[it.home])
    && (!it.done ==> it.chat in b.registry && b.registry[it.chat] == it.home)
    && (it.pending ==> it.queue == [] && !it.done)
  }

  /** A registered chat has a non-empty set of its own iterators, and no buffer. */
  ghost predicate ChatOk<E>(b: Bus<E>, chat: Chat)
    requires chat in b.registry
  {
    && b.registry[chat] < |b.sets| && Members(b, chat) != {}
    && chat !in b.buffers
    && forall i :: 0 <= i < |b.iters| && b.iters[i].home == b.registry[chat] ==> b.iters[i].chat == chat
  }

  /** Set members are iterators that joined that very set. */
  ghost predicate SetOk<E>(b: Bus<E>, k: nat)
    requires k < |b.sets|
  {
    forall i :: i in b.sets[k] ==> i < |b.iters| && b.iters[i].home == k
  }

  ghost predicate Structure<E>(b: Bus<E>) {
    && (forall i :: 0 <= i < |b.iters| ==> IterOk(b, i))
    && (forall chat :: chat in b.registry ==> ChatOk(b, chat))
    && (forall k :: 0 <= k < |b.sets| ==> SetOk(b, k))
  }

  lemma {:induction false} OneChatPerSet<E>(b: Bus<E>, c: Chat, d: Chat)
    requires Structure(b) && c in b.registry && d in b.registry && b.registry[c] == b.registry[d]
    ensures c == d
  {
    assert ChatOk(b, c) && ChatOk(b, d) && SetOk(b, b.registry[c]);
    var i :| i in Members(b, c);
    assert b.iters[i].home == b.registry[c];
  }

  lemma {:induction false} SubscribeStructure<E>(b: Bus<E>, chat: Chat)
    requires Structure(b)
    ensures Structure(SubscribeStep(b, chat))
  {
    var b' := SubscribeStep(b, chat);
    if chat in b.registry { assert ChatOk(b, chat); }
    forall i | 0 <= i < |b'.iters| ensures IterOk(b', i) {
      if i < |b.iters| { assert IterOk(b, i); }
    }
    forall c | c in b'.registry ensures ChatOk(b', c) {
      if c in b.registry {
        assert ChatOk(b, c);
        if chat in b.registry && c != chat && b.registry[c] == b.registry[chat] { OneChatPerSet(b, c, chat); }
      }
      forall i | 0 <= i < |b'.iters| && b'.iters[i].home == b'.registry[c] ensures b'.iters[i].chat == c {
        if i < |b.iters| { assert IterOk(b, i); }
      }
    }
    forall k | 0 <= k < |b'.sets| ensures SetOk(b', k) {
      if k < |b.sets| { assert SetOk(b, k); }
    }
  }

  ghost predicate SamePlace<E>(it: Iter<E>, it': Iter<E>) {
    && it'.chat == it.chat && it'.home == it.home && it'.done == it.done
    && (it'.pending ==> it'.queue == [] && !it'.done)
  }

  /** Steps that leave registry, sets, homes and liveness alone keep the structure. */
  lemma {:induction false} SameShape<E>(b: Bus<E>, b': Bus<E>)
    requires Structure(b)
    requires b'.registry == b.registry && b'.sets == b.sets && |b'.iters| == |b.iters|
    requires forall i :: 0 <= i < |b.iters| ==> SamePlace(b.iters[i], b'.iters[i])
    requires forall c :: c in b.registry && c in b'.buffers ==> c in b.buffers
    ensures Structure(b')
  {
    forall i | 0 <= i < |b'.iters| ensures IterOk(b', i) { assert IterOk(b, i); }
    forall c | c in b'.registry ensures ChatOk(b', c) { assert ChatOk(b, c); }
    forall k | 0 <= k < |b'.sets| ensures SetOk(b', k) { assert SetOk(b, k); }
  }

  lemma {:induction false} QuietStructure<E>(b: Bus<E>, a: Action<E>)
    requires Structure(b) && (a.Dispatch? || a.Reconnect? || (a.Next? && a.id < |b.iters|))
    ensures Structure(Step(b, a))
  {
    var b' := Step(b, a);
    forall i | 0 <= i < |b.iters| ensures SamePlace(b.iters[i], b'.iters[i]) { assert IterOk(b, i); }
    SameShape(b, b');
  }

  /** Cleaning up keeps the structure exactly when it evicts nobody. */
  lemma {:induction false} CleanupStructureIff<E>(b: Bus<E>, id: nat)
    requires Structure(b) && id < |b.iters|
    ensures IterOk(b, id) && (Structure(CleanupStep(b, id)) <==> !Evicts(b, id))
  {
    assert IterOk(b, id);
    if Evicts(b, id) { EvictionBreaks(b, id); } else { CleanupStructure(b, id); }
  }

  lemma {:induction false} EvictionBreaks<E>(b: Bus<E>, id: nat)
    requires Structure(b) && id < |b.iters| && IterOk(b, id) && Evicts(b, id)
    ensures !Structure(CleanupStep(b, id))
  {
    var b', it := CleanupStep(b, id), b.iters[id];
    assert ChatOk(b, it.chat) && SetOk(b, b.registry[it.chat]);
    var other :| other in Members(b, it.chat);
    assert IterOk(b, other);
    assert b'.iters[other].chat == it.chat && !b'.iters[other].done;
    assert !IterOk(b', other);
  }

  lemma {:induction false} CleanupStructure<E>(b: Bus<E>, id: nat)
    requires Structure(b) && id < |b.iters| && IterOk(b, id) && !Evicts(b, id)
    ensures Structure(CleanupStep(b, id))
  {
    var b', it := CleanupStep(b, id), b.iters[id];
    if it.chat in b.registry { assert ChatOk(b, it.chat); }
    forall i | 0 <= i < |b'.iters| ensures IterOk(b', i) { assert IterOk(b, i); }
    forall c | c in b'.registry ensures ChatOk(b', c) {
      assert ChatOk(b, c);
      if b.registry[c] == it.home { assert it.chat == c; }
    }
    forall k | 0 <= k < |b'.sets| ensures SetOk(b', k) { assert SetOk(b, k); }
  }

  lemma {:induction false} StepStructure<E>(b: Bus<E>, a: Action<E>)
    requires Structure(b) && Legal(b, a)
    ensures Structure(Step(b, a))
  {
    match a
    case Subscribe(chat) => SubscribeStructure(b, chat);
    case Cleanup(id) => CleanupStructureIff(b, id);
    case _ => QuietStructure(b, a);
  }

  // ---- Delivery -----------------------------------------------------------

  /** What an iterator was handed is a window of its chat's log, in order; a live one is
      up to date. */
  ghost predicate InWindow<E>(it: Iter<E>, log: seq<E>) {
    var end := it.from + |it.yielded| + |it.queue|;
    && 0 <= it.from && end <= |log| && it.yielded + it.queue == log[it.from..end]
    && (!it.done ==> end == |log|)
  }

  ghost predicate Window<E>(b: Bus<E>, i: nat)
    requires i < |b.iters|
  {
    InWindow(b.iters[i], At(b.log, b.iters[i].chat))
  }

  lemma {:induction false} WindowGrows<E>(it: Iter<E>, log: seq<E>, e: E)
    requires InWindow(it, log) && (it.pending ==> it.queue == [])
    ensures InWindow(Push(it, e), log + [e])
  {
    if !it.done { PushHands(it, e); }
  }

  ghost predicate IsEnd<E>(buf: seq<E>, log: seq<E>) { |buf| <= |log| && buf == log[|log| - |buf|..] }

  lemma {:induction false} EndEmpty<E>(log: seq<E>)
    ensures IsEnd([], log)
  {
  }

  lemma {:induction false} EndGrows<E>(buf: seq<E>, log: seq<E>, e: E)
    requires IsEnd(buf, log)
    ensures IsEnd(buf + [e], log + [e])
  {
  }

  /** What is buffered is the end of the log. */
  ghost predicate Buffered<E>(b: Bus<E>, chat: Chat) { IsEnd(At(b.buffers, chat), At(b.log, chat)) }

  ghost predicate Delivery<E>(b: Bus<E>) {
    && (forall i :: 0 <= i < |b.iters| ==> Window(b, i))
    && (forall chat :: Buffered(b, chat))
  }

  /** A dispatch reaches the live iterators of its chat and no others. */
  lemma {:induction false} DispatchIter<E>(b: Bus<E>, chat: Chat, e: E, i: nat)
    requires Structure(b) && i < |b.iters|
    ensures DispatchStep(b, chat, e).iters[i] == if b.iters[i].chat == chat then Push(b.iters[i], e) else b.iters[i]
    ensures b.iters[i].pending ==> b.iters[i].queue == []
  {
    assert IterOk(b, i);
    if chat in b.registry { assert ChatOk(b, chat) && SetOk(b, b.registry[chat]); }
  }

  lemma {:induction false} DispatchLog<E>(b: Bus<E>, chat: Chat, e: E, c: Chat)
    ensures At(DispatchStep(b, chat, e).log, c) == if c == chat then At(b.log, c) + [e] else At(b.log, c)
  {
  }

  lemma {:induction false} PushWindow<E>(b: Bus<E>, chat: Chat, e: E, i: nat)
    requires Structure(b) && i < |b.iters| && Window(b, i)
    ensures Window(DispatchStep(b, chat, e), i)
  {
    DispatchIter(b, chat, e, i);
    DispatchLog(b, chat, e, b.iters[i].chat);
    if b.iters[i].chat == chat { WindowGrows(b.iters[i], At(b.log, chat), e); }
  }

  lemma {:induction false} PushHands<E>(it: Iter<E>, e: E)
    requires !it.done && (it.pending ==> it.queue == [])
    ensures Push(it, e).yielded + Push(it, e).queue == it.yielded + it.queue + [e]
    ensures |Push(it, e).yielded| + |Push(it, e).queue| == |it.yielded| + |it.queue| + 1
  {
  }

  lemma {:induction false} DispatchDelivery<E>(b: Bus<E>, chat: Chat, e: E)
    requires Structure(b) && Delivery(b)
    ensures Delivery(DispatchStep(b, chat, e))
  {
    var b' := DispatchStep(b, chat, e);
    forall i | 0 <= i < |b'.iters| ensures Window(b', i) { PushWindow(b, chat, e, i); }
    forall c ensures Buffered(b', c) {
      assert Buffered(b, c);
      DispatchBuffered(b, chat, e, c);
    }
  }

  lemma {:induction false} DispatchBuffered<E>(b: Bus<E>, chat: Chat, e: E, c: Chat)
    requires Buffered(b, c) && (chat in b.registry ==> ChatOk(b, chat))
    ensures Buffered(DispatchStep(b, chat, e), c)
  {
    DispatchLog(b, chat, e, c);
    if c == chat {
      if chat in b.registry {
        EndEmpty(At(b.log, chat) + [e]);
      } else {
        EndGrows(At(b.buffers, chat), At(b.log, chat), e);
      }
    }
  }

  lemma {:induction false} SubscribeDelivery<E>(b: Bus<E>, chat: Chat)
    requires Structure(b) && Delivery(b)
    ensures Delivery(SubscribeStep(b, chat))
  {
    var b' := SubscribeStep(b, chat);
    assert Buffered(b, chat);
    OpenedWindow(b, chat);
    forall i | 0 <= i < |b'.iters| ensures Window(b', i) {
      if i < |b.iters| { assert Window(b, i) && b'.iters[i] == b.iters[i]; }
    }
    forall c ensures Buffered(b', c) {
      assert Buffered(b, c);
      SubscribeBuffered(b, chat, c);
    }
  }

  /** A new iterator starts with the buffered end of the log. */
  lemma {:induction false} OpenedWindow<E>(b: Bus<E>, chat: Chat)
    requires Buffered(b, chat)
    ensures Window(SubscribeStep(b, chat), |b.iters|)
  {
    var buf, log := At(b.buffers, chat), At(b.log, chat);
    assert [] + buf == buf && log[|log| - |buf|..] == log[|log| - |buf|..|log|];
  }

  lemma {:induction false} SubscribeBuffered<E>(b: Bus<E>, chat: Chat, c: Chat)
    requires Buffered(b, c)
    ensures Buffered(SubscribeStep(b, chat), c)
  {
    EndEmpty(At(b.log, c));
  }

  /** Reading moves an event from queue to yielded; cleaning up moves nothing. */
  lemma {:induction false} OwnStepHanded<E>(b: Bus<E>, a: Action<E>, i: nat)
    requires (a.Next? || a.Cleanup?) && Structure(b) && Legal(b, a) && i < |b.iters|
    ensures var it, it' := b.iters[i], Step(b, a).iters[i];
      it'.chat == it.chat && it'.from == it.from && it'.yielded + it'.queue == it.yielded + it.queue
      && (it.done ==> it'.done)
  {
  }

  lemma {:induction false} StepDelivery<E>(b: Bus<E>, a: Action<E>)
    requires Structure(b) && Delivery(b) && Legal(b, a) && !a.Reconnect?
    ensures Delivery(Step(b, a))
  {
    if a.Dispatch? {
      DispatchDelivery(b, a.chat, a.event);
    } else if a.Subscribe? {
      SubscribeDelivery(b, a.chat);
    } else {
      var b' := Step(b, a);
      forall i | 0 <= i < |b'.iters| ensures Window(b', i) {
        assert Window(b, i);
        OwnStepHanded(b, a, i);
        assert |b'.iters[i].yielded + b'.iters[i].queue| == |b.iters[i].yielded + b.iters[i].queue|;
      }
      forall c ensures Buffered(b', c) { assert Buffered(b, c); }
    }
  }

  /** In every legal run without a reconnect, every iterator has been handed exactly a
      window of its chat's events, each once and in order, up to the last one while live. */
  lemma {:induction false} RunDelivers<E(!new)>(run: seq<Action<E>>, b: Bus<E>)
    requires Reaches(run, b)
    ensures Structure(b)
    ensures (forall i :: 0 <= i < |run| ==> !run[i].Reconnect?) ==> Delivery(b)
  {
    if run != [] {
      var k := |run| - 1;
      var b0 :| Reaches(run[..k], b0) && Legal(b0, run[k]) && b == Step(b0, run[k]);
      RunDelivers(run[..k], b0);
      StepStructure(b0, run[k]);
      if forall i :: 0 <= i < |run| ==> !run[i].Reconnect? { StepDelivery(b0, run[k]); }
    }
  }

  /** What a reconnect leaves of an iterator: a live one loses what is queued and nothing else. */
  ghost predicate LosesQueue<E>(it: Iter<E>, it': Iter<E>) {
    if it.done then it' == it
    else
      && it'.queue == []
      && it'.chat == it.chat && it'.home == it.home && it'.pending == it.pending && !it'.done
      && it'.yielded == it.yielded && it'.from == it.from && it'.next == it.next
      && forall p :: p in it'.dropped <==> p in it.dropped || it.next - |it.queue| <= p < it.next
  }

  /** A reconnect drops queued events of listening iterators and nothing else: nothing is
      ended, nothing yielded is taken back, no waiting read is lost, buffers survive. */
  lemma {:induction false} ReconnectDropsQueuesOnly<E>(b: Bus<E>)
    requires Structure(b)
    ensures var b' := ReconnectStep(b);
      && b'.buffers == b.buffers && b'.registry == b.registry && b'.sets == b.sets && |b'.iters| == |b.iters|
      && forall i :: 0 <= i < |b.iters| ==>
           LosesQueue(b.iters[i], b'.iters[i])
           && b'.iters[i] == if b.iters[i].done then b.iters[i] else DropQueue(b.iters[i])
  {
    var b' := ReconnectStep(b);
    assert b'.buffers == b.buffers by {
      forall c | c in b.registry ensures c !in b.buffers { assert ChatOk(b, c); }
    }
    forall i | 0 <= i < |b.iters| ensures i in Registered(b) <==> !b.iters[i].done {
      assert IterOk(b, i);
      if !b.iters[i].done { assert i in Members(b, b.iters[i].chat); }
      if i in Registered(b) {
        var c :| c in b.registry && i in Members(b, c);
        assert ChatOk(b, c) && SetOk(b, b.registry[c]);
      }
    }
  }

  /** A read that waits at a reconnect gets the next event of its chat. */
  lemma {:induction false} WaitingReadSurvives<E>(b: Bus<E>, i: nat, e: E)
    requires Structure(b) && i < |b.iters| && b.iters[i].pending
    ensures var it' := DispatchStep(ReconnectStep(b), b.iters[i].chat, e).iters[i];
      it'.yielded == b.iters[i].yielded + [e] && !it'.pending && it'.queue == []
  {
    assert IterOk(b, i);
    ReconnectDropsQueuesOnly(b);
    QuietStructure(b, Reconnect);
    DispatchIter(ReconnectStep(b), b.iters[i].chat, e, i);
  }

  // ---- One subscriber at a time -------------------------------------------

  /** Everything iterators of `chat` were handed, oldest iterator first. */
  function Handed<E>(iters: seq<Iter<E>>, chat: Chat): seq<E> {
    if iters == [] then []
    else
      var it := iters[|iters| - 1];
      Handed(iters[..|iters| - 1], chat) + if it.chat == chat then it.yielded + it.queue else []
  }

  /** Iterators are opened only for chats that nobody listens to. */
  ghost predicate Exclusive<E>(b: Bus<E>, a: Action<E>) { a.Subscribe? ==> a.chat !in b.registry }

  ghost predicate ReachesExclusively<E(!new)>(run: seq<Action<E>>, b: Bus<E>) {
    if run == [] then b == Empty()
    else
      var k := |run| - 1;
      exists b0 :: ReachesExclusively(run[..k], b0) && Legal(b0, run[k]) && Exclusive(b0, run[k])
                   && !run[k].Reconnect? && b == Step(b0, run[k])
  }

  /** A live iterator is the newest of its chat. */
  ghost predicate Newest<E>(b: Bus<E>) {
    forall i, j :: 0 <= i < j < |b.iters| && b.iters[i].chat == b.iters[j].chat ==> b.iters[i].done
  }

  ghost predicate Conserved<E>(b: Bus<E>) {
    forall chat :: ConservedAt(b, chat)
  }

  predicate SameHanded<E(==)>(a: Iter<E>, b: Iter<E>, chat: Chat) {
    a.chat == b.chat && (a.chat == chat ==> a.yielded + a.queue == b.yielded + b.queue)
  }

  lemma {:induction false} HandedSame<E>(a: seq<Iter<E>>, b: seq<Iter<E>>, chat: Chat)
    requires |a| == |b| && forall i :: 0 <= i < |a| ==> SameHanded(a[i], b[i], chat)
    ensures Handed(a, chat) == Handed(b, chat)
  {
    if a != [] { HandedSame(a[..|a| - 1], b[..|b| - 1], chat); }
  }

  /** An event handed to the newest iterator of its chat is appended to what was handed. */
  lemma {:induction false} HandedPush<E>(a: seq<Iter<E>>, b: seq<Iter<E>>, chat: Chat, k: nat, e: E)
    requires |a| == |b| && k < |a| && a[k].chat == chat == b[k].chat
    requires forall i :: 0 <= i < |a| && i != k ==> SameHanded(a[i], b[i], chat)
    requires b[k].yielded + b[k].queue == a[k].yielded + a[k].queue + [e]
    requires forall j :: k < j < |a| ==> a[j].chat != chat
    ensures Handed(b, chat) == Handed(a, chat) + [e]
  {
    var n := |a| - 1;
    if k < n {
      assert SameHanded(a[n], b[n], chat);
      HandedPush(a[..n], b[..n], chat, k, e);
    } else {
      HandedSame(a[..n], b[..n], chat);
    }
  }

  ghost predicate ConservedAt<E>(b: Bus<E>, chat: Chat) {
    Handed(b.iters, chat) + At(b.buffers, chat) == At(b.log, chat)
  }

  lemma {:induction false} DispatchHere<E>(b: Bus<E>, chat: Chat, e: E)
    requires Structure(b) && Newest(b) && ConservedAt(b, chat)
    ensures ConservedAt(DispatchStep(b, chat, e), chat)
  {
    var b' := DispatchStep(b, chat, e);
    assert At(b'.log, chat) == At(b.log, chat) + [e];
    if chat in b.registry {
      DispatchHeard(b, chat, e);
      assert ChatOk(b, chat);
      assert At(b.buffers, chat) == [];
    } else {
      assert Handed(b.iters, chat) + (At(b.buffers, chat) + [e]) == Handed(b.iters, chat) + At(b.buffers, chat) + [e];
    }
  }

  lemma {:induction false} DispatchHeard<E>(b: Bus<E>, chat: Chat, e: E)
    requires Structure(b) && Newest(b) && chat in b.registry
    ensures Handed(DispatchStep(b, chat, e).iters, chat) == Handed(b.iters, chat) + [e]
  {
    var k := TheListener(b, chat);
    HandedPushAll(b.iters, chat, k, e);
    assert DispatchStep(b, chat, e).iters == PushAll(b.iters, {k}, e);
  }

  lemma {:induction false} HandedPushAll<E>(iters: seq<Iter<E>>, chat: Chat, k: nat, e: E)
    requires k < |iters| && iters[k].chat == chat && !iters[k].done && (iters[k].pending ==> iters[k].queue == [])
    requires forall j :: k < j < |iters| ==> iters[j].chat != chat
    ensures Handed(PushAll(iters, {k}, e), chat) == Handed(iters, chat) + [e]
  {
    PushHands(iters[k], e);
    HandedPush(iters, PushAll(iters, {k}, e), chat, k, e);
  }

  /** The only iterator that a dispatch reaches. */
  lemma {:induction false} TheListener<E>(b: Bus<E>, chat: Chat) returns (k: nat)
    requires Structure(b) && Newest(b) && chat in b.registry
    ensures k < |b.iters| && b.iters[k].chat == chat && !b.iters[k].done && Members(b, chat) == {k}
    ensures b.iters[k].pending ==> b.iters[k].queue == []
    ensures forall j :: k < j < |b.iters| ==> b.iters[j].chat != chat
  {
    assert ChatOk(b, chat) && SetOk(b, b.registry[chat]);
    k :| k in Members(b, chat);
    assert IterOk(b, k);
    forall i | i in Members(b, chat) ensures i == k { assert IterOk(b, i); }
  }

  lemma {:induction false} DispatchElsewhere<E>(b: Bus<E>, chat: Chat, e: E, c: Chat)
    requires Structure(b) && ConservedAt(b, c) && c != chat
    ensures ConservedAt(DispatchStep(b, chat, e), c)
  {
    var b' := DispatchStep(b, chat, e);
    if chat in b.registry { assert ChatOk(b, chat) && SetOk(b, b.registry[chat]); }
    HandedSame(b.iters, b'.iters, c);
  }

  lemma {:induction false} SubscribeConserves<E>(b: Bus<E>, chat: Chat)
    requires Structure(b) && Newest(b) && Conserved(b) && chat !in b.registry
    ensures Newest(SubscribeStep(b, chat)) && Conserved(SubscribeStep(b, chat))
  {
    var b' := SubscribeStep(b, chat);
    assert b'.iters[..|b.iters|] == b.iters;
    forall i | 0 <= i < |b.iters| && b.iters[i].chat == chat ensures b.iters[i].done { assert IterOk(b, i); }
    forall c ensures ConservedAt(b', c) { assert ConservedAt(b, c); }
  }

  lemma {:induction false} StepConserves<E>(b: Bus<E>, a: Action<E>)
    requires Structure(b) && Newest(b) && Conserved(b) && Legal(b, a) && Exclusive(b, a) && !a.Reconnect?
    ensures Newest(Step(b, a)) && Conserved(Step(b, a))
  {
    if a.Subscribe? {
      SubscribeConserves(b, a.chat);
    } else if a.Dispatch? {
      forall c ensures ConservedAt(Step(b, a), c) {
        assert ConservedAt(b, c);
        if c == a.chat { DispatchHere(b, c, a.event); } else { DispatchElsewhere(b, a.chat, a.event, c); }
      }
    } else {
      forall c ensures ConservedAt(Step(b, a), c) {
        assert ConservedAt(b, c);
        OwnConserves(b, a, c);
      }
      forall i | 0 <= i < |b.iters|
        ensures Step(b, a).iters[i].chat == b.iters[i].chat && (b.iters[i].done ==> Step(b, a).iters[i].done)
      {
        OwnStepHanded(b, a, i);
      }
    }
  }

  lemma {:induction false} OwnConserves<E>(b: Bus<E>, a: Action<E>, c: Chat)
    requires (a.Next? || a.Cleanup?) && Structure(b) && Legal(b, a) && ConservedAt(b, c)
    ensures ConservedAt(Step(b, a), c)
  {
    var b' := Step(b, a);
    forall i | 0 <= i < |b.iters| ensures SameHanded(b.iters[i], b'.iters[i], c) { OwnStepHanded(b, a, i); }
    HandedSame(b.iters, b'.iters, c);
  }

  /** With one subscriber per chat at a time and no reconnect: what was yielded, then
      queued, then buffered is everything dispatched to the chat, exactly once, in order,
      whether it came before or after the subscription. */
  lemma {:induction false} ExactlyOnce<E(!new)>(run: seq<Action<E>>, b: Bus<E>)
    requires ReachesExclusively(run, b)
    ensures Structure(b) && Newest(b) && Conserved(b)
  {
    if run != [] {
      var k := |run| - 1;
      var b0 :| ReachesExclusively(run[..k], b0) && Legal(b0, run[k]) && Exclusive(b0, run[k])
                && !run[k].Reconnect? && b == Step(b0, run[k]);
      ExactlyOnce(run[..k], b0);
      StepStructure(b0, run[k]);
      StepConserves(b0, run[k]);
    }
  }

  /** A second cleanup of an old iterator cuts off a newer one: it stays live and waiting
      while the next event goes to the buffer. */
  lemma {:induction false} SecondCleanupSilences<E>(chat: Chat, e: E)
    ensures var b1 := SubscribeStep(CleanupStep(SubscribeStep(Empty<E>(), chat), 0), chat);
      var b2 := NextStep(b1, 1);
      && Structure(b2) && !b2.iters[1].done && b2.iters[1].pending
      && var b3 := DispatchStep(CleanupStep(b2, 0), chat, e);
      && b3.iters[1] == b2.iters[1] && At(b3.buffers, chat) == [e]
  {
    var s0 := SubscribeStep(Empty<E>(), chat);
    SubscribeStructure(Empty<E>(), chat);
    CleanupStructureIff(s0, 0);
    var s1 := CleanupStep(s0, 0);
    SubscribeStructure(s1, chat);
    var b1 := SubscribeStep(s1, chat);
    QuietStructure(b1, Next(1));
    assert s1.sets[0] == {} && chat !in s1.registry;
  }

  // ---- The bus ------------------------------------------------------------

  datatype ReadResult<E> = Event(value: E) | Ended | Waiting

  method PushLoop<E>(iters: seq<Iter<E>>, members: set<nat>, e: E) returns (r: seq<Iter<E>>)
    requires forall i :: i in members ==> i < |iters|
    ensures r == PushAll(iters, members, e)
  {
    r := iters;
    var rest := members;
    while rest != {}
      invariant rest <= members && r == PushAll(iters, members - rest, e)
    {
      var i :| i in rest;
      r := r[i := Push(r[i], e)];
      rest := rest - {i};
    }
    assert members - rest == members;
  }

  method DropLoop<E>(iters: seq<Iter<E>>, members: set<nat>) returns (r: seq<Iter<E>>)
    requires forall i :: i in members ==> i < |iters|
    ensures r == DropQueues(iters, members)
  {
    r := iters;
    var rest := members;
    while rest != {}
      invariant rest <= members && r == DropQueues(iters, members - rest)
    {
      var i :| i in rest;
      r := r[i := DropQueue(r[i])];
      rest := rest - {i};
    }
    assert members - rest == members;
  }

  class SseEventBus<E> {
    var chatSubscribers: map<Chat, nat>
    var sets: seq<set<nat>>
    var chatBuffers: map<Chat, seq<E>>
    var iters: seq<Iter<E>>
    var log: map<Chat, seq<E>>  // history only: no branch reads it

    ghost function Value(): Bus<E>
      reads this
    {
      Bus(chatSubscribers, sets, chatBuffers, iters, log)
    }

    ghost predicate Valid()
      reads this
    {
      Structure(Value())
    }

    constructor ()
      ensures Value() == Empty() && Valid()
    {
      chatSubscribers, sets, chatBuffers, iters, log := map[], [], map[], [], map[];
    }

    /** Opens an iterator for a chat. */
    method Open(chat: Chat) returns (id: nat)
      requires Valid()
      modifies this
      ensures Value() == SubscribeStep(old(Value()), chat) && Valid() && id == |old(iters)|
    {
      SubscribeStructure(Value(), chat);
      id := |iters|;
      var queue := At(chatBuffers, chat);
      chatBuffers := chatBuffers - {chat};
      if chat in chatSubscribers {
        assert ChatOk(old(Value()), chat);
      } else {
        chatSubscribers := chatSubscribers[chat := |sets|];
        sets := sets + [{}];
      }
      var home := chatSubscribers[chat];
      sets := sets[home := sets[home] + {id}];
      iters := iters + [Opened(chat, home, queue, |At(log, chat)|)];
      assert chatSubscribers == SubscribeStep(old(Value()), chat).registry;
    }

    method DispatchChat(chat: Chat, e: E)
      requires Valid()
      modifies this
      ensures Value() == DispatchStep(old(Value()), chat, e) && Valid()
    {
      QuietStructure(Value(), Dispatch(chat, e));
      log := log[chat := At(log, chat) + [e]];
      if chat in chatSubscribers {
        assert ChatOk(old(Value()), chat) && SetOk(old(Value()), chatSubscribers[chat]);
        iters := PushLoop(iters, sets[chatSubscribers[chat]], e);
      } else {
        chatBuffers := chatBuffers[chat := At(chatBuffers, chat) + [e]];
      }
    }

    /** One read; the caller awaits one read at a time. */
    method Read(id: nat) returns (r: ReadResult<E>)
      requires Valid() && id < |iters| && !iters[id].pending
      modifies this`iters
      ensures Value() == NextStep(old(Value()), id) && Valid()
      ensures r.Waiting? <==> iters[id].pending
      ensures r.Event? ==> iters[id].yielded == old(iters[id].yielded) + [r.value]
      ensures r.Ended? ==> iters[id] == old(iters[id]) && iters[id].done
    {
      QuietStructure(Value(), Next(id));
      var it := iters[id];
      if it.queue != [] {
        r := Event(it.queue[0]);
        iters := iters[id := it.(queue := it.queue[1..], yielded := it.yielded + [it.queue[0]])];
      } else if it.done {
        r := Ended;
      } else {
        r := Waiting;
        iters := iters[id := it.(pending := true)];
      }
    }

    /** Runs on abort and on return; the structure survives exactly if nobody is evicted. */
    method Close(id: nat)
      requires Valid() && id < |iters| && iters[id].home < |sets|
      modifies this
      ensures Value() == CleanupStep(old(Value()), id)
      ensures Valid() <==> !old(Evicts(Value(), id))
    {
      CleanupStructureIff(Value(), id);
      var it := iters[id];
      iters := iters[id := it.(done := true, pending := false)];
      sets := sets[it.home := sets[it.home] - {id}];
      if sets[it.home] == {} {
        chatSubscribers := chatSubscribers - {it.chat};
      }
    }

    method NotifySubscribersReconnect()
      requires Valid()
      modifies this
      ensures Value() == ReconnectStep(old(Value())) && Valid()
      ensures chatSubscribers == old(chatSubscribers) && sets == old(sets) && chatBuffers == old(chatBuffers)
      ensures |iters| == old(|iters|) && forall i :: 0 <= i < |iters| ==> LosesQueue(old(iters)[i], iters[i])
    {
      ReconnectDropsQueuesOnly(Value());
      QuietStructure(Value(), Reconnect);
      var listening := Registered(Bus(chatSubscribers, sets, chatBuffers, iters, log));
      forall i | i in listening ensures i < |iters| {
        var chat :| chat in chatSubscribers && i in Members(Value(), chat);
        assert SetOk(Value(), chatSubscribers[chat]);
      }
      iters := DropLoop(iters, listening);
      chatBuffers := chatBuffers - chatSubscribers.Keys;
    }
  }
}
