/**
 The storage queue with its dead queue (packages/azure-services/src/azure-queue/queue.ts).

 The first part is the queue as a state machine: any number of getMessages calls and consumers, with
 visibility expiry and failures between any two steps. The second part is the calls' own loops.

 Assumed of the storage service: receiving a message raises its dequeue count by one, hides it and gives it a
 new pop receipt; deleting succeeds only with the newest receipt. The dequeue count stands for the receipt.
 */
module StorageQueue {
  import opened Sequences
  import T = Transitions

  const MAX_DEQUEUE_COUNT := 1
  const MAX_BATCH := 32

  type Uid = nat

  datatype Entry = Entry(dequeueCount: nat, visible: bool)

  /** A message as received the count-th time. */
  datatype Delivery = Delivery(uid: Uid, count: nat)

  /** Received; kept for the caller; or copied to the dead queue and not yet deleted. */
  datatype Stage = Pending | Kept | Copied

  /** A received message inside the getMessages call number `call`. */
  datatype InCall = InCall(call: nat, stage: Stage)

  /**
   The two queues, the calls under way and what consumers hold; then the history: which messages were enqueued,
   which lost their first delivery in a failed call, all deliveries, those copied to the dead queue, and those whose
   copy was followed by a deletion that took the message out of the main queue.
   */
  datatype State = State(
    main: map<Uid, Entry>,
    dead: seq<Uid>,
    calls: map<Delivery, InCall>,
    handed: multiset<Uid>,
    held: set<Delivery>,
    completed: set<Uid>,
    enqueued: set<Uid>,
    lost: set<Uid>,
    received: set<Delivery>,
    copied: set<Delivery>,
    removing: set<Delivery>)

  datatype Event =
    | Enqueue(uid: Uid)
    | Receive(call: nat, uids: set<Uid>)
    | Keep(delivery: Delivery)
    | CopyToDead(delivery: Delivery)
    | DeleteCopied(delivery: Delivery, reached: bool)
    | Fail(call: nat)
    | Return(call: nat)
    | Expire(uid: Uid)
    | Complete(delivery: Delivery)

  function DeliveriesOf(st: State, call: nat): set<Delivery>
  {
    set d | d in st.calls && st.calls[d].call == call
  }

  function UidsOf(ds: set<Delivery>): set<Uid>
  {
    set d | d in ds :: d.uid
  }

  function FirstOnes(ds: set<Delivery>): set<Delivery>
  {
    set d | d in ds && d.count == 1
  }

  predicate At(st: State, d: Delivery, stage: Stage)
  {
    d in st.calls && st.calls[d].stage == stage
  }

  predicate Enabled(st: State, ev: Event)
  {
    match ev
    case Enqueue(uid) => uid !in st.enqueued
    case Receive(call, uids) =>
      DeliveriesOf(st, call) == {} && |uids| <= MAX_BATCH && forall u :: u in uids ==> u in st.main && st.main[u].visible
    case Keep(d) => At(st, d, Pending) && d.count <= MAX_DEQUEUE_COUNT
    case CopyToDead(d) => At(st, d, Pending) && d.count > MAX_DEQUEUE_COUNT
    case DeleteCopied(d, reached) => At(st, d, Copied)
    case Fail(call) => true
    case Return(call) => forall d :: d in DeliveriesOf(st, call) ==> st.calls[d].stage == Kept
    case Expire(uid) => uid in st.main
    case Complete(d) => d in st.held
  }

  /** The deliveries that receiving the messages produces. */
  function Receipts(main: map<Uid, Entry>, uids: set<Uid>): set<Delivery>
    requires forall u :: u in uids ==> u in main
  {
    set u | u in uids :: Delivery(u, main[u].dequeueCount + 1)
  }

  function Received(st: State, uids: set<Uid>, call: nat): map<Delivery, InCall>
    requires forall u :: u in uids ==> u in st.main
  {
    map d | d in Receipts(st.main, uids) :: InCall(call, Pending)
  }

  /** Deletion with a receipt: only the newest one deletes. */
  function Delete(main: map<Uid, Entry>, d: Delivery): map<Uid, Entry>
  {
    if d.uid in main && main[d.uid].dequeueCount == d.count then main - {d.uid} else main
  }

  function Step(st: State, ev: Event): State
    requires Enabled(st, ev)
  {
    match ev
    case Enqueue(uid) => st.(main := st.main[uid := Entry(0, true)], enqueued := st.enqueued + {uid})
    case Receive(call, uids) =>
      st.(main := map u | u in st.main :: if u in uids then Entry(st.main[u].dequeueCount + 1, false) else st.main[u],
          calls := st.calls + Received(st, uids, call),
          received := st.received + Receipts(st.main, uids))
    case Keep(d) => st.(calls := st.calls[d := st.calls[d].(stage := Kept)])
    case CopyToDead(d) =>
      st.(dead := st.dead + [d.uid], calls := st.calls[d := st.calls[d].(stage := Copied)], copied := st.copied + {d})
    case DeleteCopied(d, reached) =>
      // a failed deletion is logged and swallowed
      var left := if reached then Delete(st.main, d) else st.main;
      st.(main := left, calls := st.calls - {d},
          removing := if d.uid in st.main && d.uid !in left then st.removing + {d} else st.removing)
    case Fail(call) =>
      var ds := DeliveriesOf(st, call);
      st.(calls := st.calls - ds, lost := st.lost + UidsOf(FirstOnes(ds)))
    case Return(call) =>
      var ds := DeliveriesOf(st, call);
      st.(handed := st.handed + multiset(UidsOf(ds)), held := st.held + ds, calls := st.calls - ds)
    case Expire(uid) => st.(main := st.main[uid := st.main[uid].(visible := true)])
    case Complete(d) =>
      var left := Delete(st.main, d);
      st.(main := left, completed := if d.uid in st.main && d.uid !in left then st.completed + {d.uid} else st.completed)
  }

  const EMPTY := State(map[], [], map[], multiset{}, {}, {}, {}, {}, {}, {}, {})

  /** Runs from the empty queue. */
  ghost predicate Runs(events: seq<Event>, st: State)
  {
    T.Runs(EMPTY, Moves, events, st)
  }

  ghost predicate Reachable(st: State)
  {
    T.Reachable(EMPTY, Moves, st)
  }

  predicate Moves(before: State, ev: Event, after: State)
  {
    Enabled(before, ev) && after == Step(before, ev)
  }

  // ----- What every step keeps -----

  /** Every enqueued message is in the main queue, in the dead queue or completed by its consumer. */
  predicate Conserved(st: State)
  {
    st.enqueued == st.main.Keys + (set u | u in st.dead) + st.completed
  }

  /** No message is handed to consumers twice. */
  ghost predicate HandedOnce(st: State)
  {
    forall u :: st.handed[u] <= 1
  }

  predicate DeliveryInv(st: State, d: Delivery)
    requires d in st.calls
  {
    && d.uid in st.enqueued && 1 <= d.count
    && (d.uid in st.main ==> d.count <= st.main[d.uid].dequeueCount)
    && (st.calls[d].stage == Kept ==> d.count <= MAX_DEQUEUE_COUNT)
    && (st.calls[d].stage == Copied ==> d.uid in st.dead)
  }

  /** Once handed out, a message has been received, and its first delivery is over. */
  predicate HandedInv(st: State, u: Uid)
  {
    && u in st.enqueued && Delivery(u, 1) !in st.calls
    && (u in st.main ==> 1 <= st.main[u].dequeueCount)
  }

  ghost predicate Inv(st: State)
  {
    && Conserved(st)
    && HandedOnce(st)
    && (forall d :: d in st.calls ==> DeliveryInv(st, d))
    && (forall u :: u in st.handed ==> HandedInv(st, u))
    && (forall d :: d in st.held ==> d.uid in st.handed)
    && (forall u :: u in st.completed ==> u in st.handed)
  }

  lemma StepKeepsInv(st: State, ev: Event)
    requires Inv(st) && Enabled(st, ev)
    ensures Inv(Step(st, ev))
  {
    match ev
    case Return(call) => ReturnKeepsInv(st, call);
    case Receive(call, uids) => ReceiveKeepsInv(st, call, uids);
    case DeleteCopied(d, reached) => DeleteKeepsInv(st, d, reached);
    case Complete(d) => CompleteKeepsInv(st, d);
    case CopyToDead(d) => CopyKeepsInv(st, d);
    case Enqueue(uid) =>
    case Keep(d) =>
    case Fail(call) =>
    case Expire(uid) =>
  }

  lemma CopyKeepsInv(st: State, d: Delivery)
    requires Inv(st) && Enabled(st, CopyToDead(d))
    ensures Inv(Step(st, CopyToDead(d)))
  {
    var next := Step(st, CopyToDead(d));
    assert DeliveryInv(st, d);
    assert (set u | u in next.dead) == (set u | u in st.dead) + {d.uid};
    forall e | e in next.calls ensures DeliveryInv(next, e) {
      assert DeliveryInv(st, e);
      assert e.uid in st.dead ==> e.uid in next.dead;
    }
    forall u | u in next.handed ensures HandedInv(next, u) {
      assert HandedInv(st, u);
    }
  }

  lemma ReceiveKeepsInv(st: State, call: nat, uids: set<Uid>)
    requires Inv(st) && Enabled(st, Receive(call, uids))
    ensures Inv(Step(st, Receive(call, uids)))
  {
    var next := Step(st, Receive(call, uids));
    assert next.main.Keys == st.main.Keys;
    forall d | d in next.calls ensures DeliveryInv(next, d) {
      if d in st.calls { assert DeliveryInv(st, d); }
    }
    forall u | u in next.handed ensures HandedInv(next, u) {
      assert HandedInv(st, u);
    }
  }

  lemma DeleteKeepsInv(st: State, d: Delivery, reached: bool)
    requires Inv(st) && Enabled(st, DeleteCopied(d, reached))
    ensures Inv(Step(st, DeleteCopied(d, reached)))
  {
    assert DeliveryInv(st, d);
    var next := Step(st, DeleteCopied(d, reached));
    forall e | e in next.calls ensures DeliveryInv(next, e) {
      assert DeliveryInv(st, e);
    }
    forall u | u in next.handed ensures HandedInv(next, u) {
      assert HandedInv(st, u);
    }
  }

  lemma CompleteKeepsInv(st: State, d: Delivery)
    requires Inv(st) && Enabled(st, Complete(d))
    ensures Inv(Step(st, Complete(d)))
  {
    var next := Step(st, Complete(d));
    assert next.enqueued == next.main.Keys + (set u | u in next.dead) + next.completed;
    forall e | e in next.calls ensures DeliveryInv(next, e) {
      assert DeliveryInv(st, e);
    }
    forall u | u in next.handed ensures HandedInv(next, u) {
      assert HandedInv(st, u);
    }
  }

  /** The returned messages are first deliveries, so none of them was handed out before. */
  lemma ReturnKeepsInv(st: State, call: nat)
    requires Inv(st) && Enabled(st, Return(call))
    ensures Inv(Step(st, Return(call)))
  {
    var next := Step(st, Return(call));
    var ds := DeliveriesOf(st, call);
    forall d | d in ds ensures d.count == 1 && d.uid !in st.handed {
      assert DeliveryInv(st, d);
      assert d.uid in st.handed ==> HandedInv(st, d.uid);
    }
    forall u ensures next.handed[u] <= 1 {
      if u in UidsOf(ds) { assert st.handed[u] == 0; }
    }
    forall d | d in next.calls ensures DeliveryInv(next, d) {
      assert DeliveryInv(st, d);
    }
    forall u | u in next.handed ensures HandedInv(next, u) {
      if u in st.handed {
        assert HandedInv(st, u);
      } else {
        var d :| d in ds && d.uid == u;
        assert d == Delivery(u, 1) && DeliveryInv(st, d);
      }
    }
  }

  /** In every run, whatever fails or expires, no message vanishes and none is handed out twice. */
  lemma QueueIsSafe(events: seq<Event>, st: State)
    requires Runs(events, st)
    ensures Inv(st) && Conserved(st) && HandedOnce(st)
  {
    forall s, ev, t | Inv(s) && Moves(s, ev, t) ensures Inv(t) {
      StepKeepsInv(s, ev);
    }
    T.Invariance(EMPTY, Moves, Inv, events, st);
  }

  // ----- What became of a first delivery -----

  /** A first delivery is in a call, or was handed out with its call, or was lost with it: one of the three. */
  predicate FirstInv(st: State, u: Uid)
  {
    var first := Delivery(u, 1);
    && (first in st.received <==> first in st.calls || u in st.handed || u in st.lost)
    && !(first in st.calls && (u in st.handed || u in st.lost))
    && !(u in st.handed && u in st.lost)
  }

  /** Deliveries are counted from 1 up to the dequeue count. */
  predicate ReceivedInv(st: State, d: Delivery)
  {
    && 1 <= d.count && d.uid in st.enqueued && Delivery(d.uid, 1) in st.received
    && (d.uid in st.main ==> d.count <= st.main[d.uid].dequeueCount)
  }

  ghost predicate Traced(st: State)
  {
    && (forall d :: d in st.calls ==> d in st.received)
    && (forall d :: d in st.received ==> ReceivedInv(st, d))
    && (forall u :: u in st.main && 1 <= st.main[u].dequeueCount ==> Delivery(u, 1) in st.received)
    && (forall u :: FirstInv(st, u))
  }

  /** A call returns first deliveries only, and each message once. */
  lemma ReturnedAreFirst(st: State, call: nat)
    requires Inv(st) && Traced(st) && Enabled(st, Return(call))
    ensures forall u :: u in Step(st, Return(call)).handed <==> u in st.handed || Delivery(u, 1) in DeliveriesOf(st, call)
    ensures forall d :: d in DeliveriesOf(st, call) ==> d.count == 1
  {
    var ds := DeliveriesOf(st, call);
    forall d | d in ds ensures d.count == 1 {
      assert DeliveryInv(st, d);
    }
    forall u ensures u in UidsOf(ds) <==> Delivery(u, 1) in ds {
      if u in UidsOf(ds) {
        var d :| d in ds && d.uid == u;
        assert d == Delivery(u, 1);
      }
    }
  }

  lemma StepKeepsTraced(st: State, ev: Event)
    requires Inv(st) && Traced(st) && Counted(st) && Enabled(st, ev)
    ensures Traced(Step(st, ev))
  {
    var next := Step(st, ev);
    forall d | d in next.calls ensures d in next.received {
      StepTracesCalls(st, ev, d);
    }
    forall d | d in next.received ensures ReceivedInv(next, d) {
      StepReceives(st, ev, d);
    }
    forall u | u in next.main && 1 <= next.main[u].dequeueCount ensures Delivery(u, 1) in next.received {
      StepTracesMain(st, ev, u);
    }
    forall u ensures FirstInv(next, u) {
      FirstStep(st, ev, u);
    }
  }

  lemma StepTracesCalls(st: State, ev: Event, d: Delivery)
    requires Traced(st) && Enabled(st, ev) && d in Step(st, ev).calls
    ensures d in Step(st, ev).received
  {
  }

  lemma StepTracesMain(st: State, ev: Event, u: Uid)
    requires Traced(st) && Enabled(st, ev)
    requires u in Step(st, ev).main && 1 <= Step(st, ev).main[u].dequeueCount
    ensures Delivery(u, 1) in Step(st, ev).received
  {
    if ev.Receive? && u in ev.uids && st.main[u].dequeueCount == 0 {
      assert Delivery(u, 1) in Receipts(st.main, ev.uids);
    }
  }

  lemma StepReceives(st: State, ev: Event, d: Delivery)
    requires Inv(st) && Traced(st) && Enabled(st, ev)
    requires d in Step(st, ev).received
    ensures ReceivedInv(Step(st, ev), d)
  {
    if d in st.received {
      assert ReceivedInv(st, d);
    }
  }

  lemma FirstStep(st: State, ev: Event, u: Uid)
    requires Inv(st) && Traced(st) && Counted(st) && Enabled(st, ev)
    ensures FirstInv(Step(st, ev), u)
  {
    var first := Delivery(u, 1);
    assert FirstInv(st, u);
    match ev
    case Receive(call, uids) =>
      if first in st.received { assert ReceivedInv(st, first); }
    case Return(call) => ReturnedAreFirst(st, call);
    case Fail(call) =>
      assert u in UidsOf(FirstOnes(DeliveriesOf(st, call))) <==> first in DeliveriesOf(st, call) by {
        if first in DeliveriesOf(st, call) { assert first in FirstOnes(DeliveriesOf(st, call)); }
      }
    case CopyToDead(d) =>
    case DeleteCopied(d, reached) => assert CopiedInv(st, d);
    case Enqueue(uid) =>
    case Keep(d) =>
    case Expire(uid) =>
    case Complete(d) =>
  }

  // ----- How often a message is in the dead queue -----

  function OfMessage(ds: set<Delivery>, u: Uid): set<Delivery>
  {
    set d | d in ds && d.uid == u
  }

  predicate CopiedInv(st: State, d: Delivery)
  {
    && d in st.received && d.count > MAX_DEQUEUE_COUNT
    && (d in st.calls ==> st.calls[d].stage == Copied)
  }

  ghost predicate Counted(st: State)
  {
    && (forall d :: d in st.copied ==> CopiedInv(st, d))
    && (forall d :: At(st, d, Copied) ==> d in st.copied)
    && (forall d :: d in st.removing ==> d in st.copied && d.uid !in st.main)
    && (forall d, e :: d in st.removing && e in st.removing && d.uid == e.uid ==> d == e)
    && (forall u :: multiset(st.dead)[u] == |OfMessage(st.copied, u)|)
  }

  lemma StepKeepsCounted(st: State, ev: Event)
    requires Inv(st) && Traced(st) && Counted(st) && Enabled(st, ev)
    ensures Counted(Step(st, ev))
  {
    var next := Step(st, ev);
    forall d | d in st.removing ensures d.uid !in next.main {
      assert CopiedInv(st, d) && ReceivedInv(st, d);
    }
    match ev
    case CopyToDead(d) => CopyKeepsCounted(st, d);
    case DeleteCopied(d, reached) => DeleteKeepsCounted(st, d, reached);
    case Receive(call, uids) => ReceiveKeepsCounted(st, call, uids);
    case Enqueue(uid) => OthersKeepCounted(st, next);
    case Keep(d) => OthersKeepCounted(st, next);
    case Fail(call) => OthersKeepCounted(st, next);
    case Return(call) => OthersKeepCounted(st, next);
    case Expire(uid) => OthersKeepCounted(st, next);
    case Complete(d) => OthersKeepCounted(st, next);
  }

  /** Steps that copy and remove nothing. */
  lemma OthersKeepCounted(st: State, next: State)
    requires Counted(st)
    requires next.dead == st.dead && next.copied == st.copied && next.removing == st.removing && st.received <= next.received
    requires forall d :: d in next.calls ==>
               if d in st.calls then next.calls[d].stage == st.calls[d].stage || (At(st, d, Pending) && At(next, d, Kept))
               else d !in st.received && At(next, d, Pending)
    requires forall d :: d in st.removing ==> d.uid !in next.main
    ensures Counted(next)
  {
    forall d | d in next.copied ensures CopiedInv(next, d) {
      assert CopiedInv(st, d);
    }
  }

  lemma ReceiveKeepsCounted(st: State, call: nat, uids: set<Uid>)
    requires Inv(st) && Traced(st) && Counted(st) && Enabled(st, Receive(call, uids))
    requires forall d :: d in st.removing ==> d.uid !in Step(st, Receive(call, uids)).main
    ensures Counted(Step(st, Receive(call, uids)))
  {
    var next := Step(st, Receive(call, uids));
    forall d | d in Receipts(st.main, uids) ensures d !in st.received {
      assert d in st.received ==> ReceivedInv(st, d);
    }
    assert forall d :: d in st.calls ==> d in st.received;
    OthersKeepCounted(st, next);
  }

  lemma CopyKeepsCounted(st: State, d: Delivery)
    requires Inv(st) && Traced(st) && Counted(st) && Enabled(st, CopyToDead(d))
    ensures Counted(Step(st, CopyToDead(d)))
  {
    var next := Step(st, CopyToDead(d));
    assert d in st.copied ==> CopiedInv(st, d);
    forall e | e in next.copied ensures CopiedInv(next, e) {
      if e in st.copied { assert CopiedInv(st, e); }
    }
    forall u ensures multiset(next.dead)[u] == |OfMessage(next.copied, u)| {
      OneMoreCopy(st.copied, d, u);
    }
  }

  lemma DeleteKeepsCounted(st: State, d: Delivery, reached: bool)
    requires Inv(st) && Traced(st) && Counted(st) && Enabled(st, DeleteCopied(d, reached))
    ensures Counted(Step(st, DeleteCopied(d, reached)))
  {
    var next := Step(st, DeleteCopied(d, reached));
    assert d in st.copied;
    forall e | e in next.copied ensures CopiedInv(next, e) {
      assert CopiedInv(st, e);
    }
  }

  lemma OneMoreCopy(ds: set<Delivery>, d: Delivery, u: Uid)
    requires d !in ds
    ensures |OfMessage(ds + {d}, u)| == |OfMessage(ds, u)| + if d.uid == u then 1 else 0
  {
    if d.uid == u {
      assert OfMessage(ds + {d}, u) == OfMessage(ds, u) + {d};
    } else {
      assert OfMessage(ds + {d}, u) == OfMessage(ds, u);
    }
  }

  // ----- What becomes of a message handed over -----

  /** Consumers hold the first deliveries of the messages handed to them, and what they completed is gone. */
  ghost predicate Settled(st: State)
  {
    && (forall d :: d in st.held ==> d.count == 1 && d in st.received)
    && (forall u :: u in st.handed <==> Delivery(u, 1) in st.held)
    && (forall u :: u in st.completed ==> u !in st.main && u in st.enqueued)
  }

  lemma StepKeepsSettled(st: State, ev: Event)
    requires Inv(st) && Traced(st) && Settled(st) && Enabled(st, ev)
    ensures Settled(Step(st, ev))
  {
    match ev
    case Return(call) => ReturnedAreFirst(st, call);
    case Enqueue(uid) =>
    case Receive(call, uids) =>
    case Keep(d) =>
    case CopyToDead(d) =>
    case DeleteCopied(d, reached) =>
    case Fail(call) =>
    case Expire(uid) =>
    case Complete(d) =>
  }

  /** Returning a call hands all its deliveries to the consumer, who can complete each of them. */
  lemma ReturnHandsOver(st: State, call: nat, d: Delivery)
    requires Enabled(st, Return(call)) && d in DeliveriesOf(st, call)
    ensures var next := Step(st, Return(call));
            d.uid in next.handed && d !in next.calls && Enabled(next, Complete(d))
  {
    assert d.uid in UidsOf(DeliveriesOf(st, call));
  }

  /**
   A completed delivery takes its message out of the main queue exactly unless it has been received again since; the
   message then counts as completed. No other message is touched.
   */
  lemma CompletionRemoves(events: seq<Event>, st: State, d: Delivery)
    requires Runs(events, st) && Enabled(st, Complete(d))
    ensures var next := Step(st, Complete(d));
            && (d.uid in next.main <==> d.uid in st.main && d.count < st.main[d.uid].dequeueCount)
            && (d.uid in st.main && d.uid !in next.main ==> next.completed == st.completed + {d.uid})
            && (d.uid !in st.main || d.uid in next.main ==> next.completed == st.completed)
            && next.main - {d.uid} == st.main - {d.uid} && next.dead == st.dead
  {
    RunKeepsHistory(events, st);
    assert ReceivedInv(st, d);
  }

  /** A completed message stays completed; it is not in the main queue and cannot be received again. */
  lemma CompletedIsFinal(events: seq<Event>, st: State, u: Uid, ev: Event)
    requires Runs(events, st) && u in st.completed && Enabled(st, ev)
    ensures u in Step(st, ev).completed && u !in Step(st, ev).main
    ensures ev.Receive? ==> u !in ev.uids
  {
    RunKeepsHistory(events, st);
    StepKeepsHistory(st, ev);
  }

  ghost predicate HistoryInv(st: State)
  {
    Inv(st) && Traced(st) && Counted(st) && Settled(st)
  }

  lemma EmptyHistory()
    ensures HistoryInv(EMPTY)
  {
    assert forall u :: OfMessage(EMPTY.copied, u) == {};
  }

  lemma StepKeepsHistory(st: State, ev: Event)
    requires HistoryInv(st) && Enabled(st, ev)
    ensures HistoryInv(Step(st, ev))
  {
    StepKeepsInv(st, ev);
    StepKeepsTraced(st, ev);
    StepKeepsCounted(st, ev);
    StepKeepsSettled(st, ev);
  }

  lemma RunKeepsHistory(events: seq<Event>, st: State)
    requires Runs(events, st)
    ensures HistoryInv(st)
  {
    EmptyHistory();
    forall s, ev, t | HistoryInv(s) && Moves(s, ev, t) ensures HistoryInv(t) {
      StepKeepsHistory(s, ev);
    }
    T.Invariance(EMPTY, Moves, HistoryInv, events, st);
  }

  /**
   A message in the dead queue was never handed to a consumer exactly when its first delivery was lost in a call that
   failed after receiving it, or is still in a call that has not ended.
   */
  lemma DeadUnseenIff(events: seq<Event>, st: State, u: Uid)
    requires Runs(events, st) && u in st.dead
    ensures u !in st.handed <==> u in st.lost || Delivery(u, 1) in st.calls
  {
    RunKeepsHistory(events, st);
    var d := CopyOf(st, u);
    assert CopiedInv(st, d) && ReceivedInv(st, d) && FirstInv(st, u);
  }

  lemma CopyOf(st: State, u: Uid) returns (d: Delivery)
    requires Counted(st) && u in st.dead
    ensures d in st.copied && d.uid == u
  {
    assert |OfMessage(st.copied, u)| > 0;
    d :| d in OfMessage(st.copied, u);
  }

  /** The deletion behind a copy leaves the message in the main queue exactly when it was there and the deletion failed or came with a superseded receipt. */
  lemma DeletionMisses(events: seq<Event>, st: State, d: Delivery, reached: bool)
    requires Runs(events, st) && Enabled(st, DeleteCopied(d, reached))
    ensures d.uid in Step(st, DeleteCopied(d, reached)).main
            <==> d.uid in st.main && (!reached || d.count < st.main[d.uid].dequeueCount)
  {
    QueueIsSafe(events, st);
    assert DeliveryInv(st, d);
  }

  /**
   A message is in the dead queue once for every copy made of it: fewer times than it was received, and at most once
   more than there are copies whose deletion did not take it out of the main queue. It is there more than once exactly
   when there is such a copy besides another.
   */
  lemma DeadCount(events: seq<Event>, st: State, u: Uid)
    requires Runs(events, st)
    ensures multiset(st.dead)[u] == |OfMessage(st.copied, u)| <= |OfMessage(st.copied - st.removing, u)| + 1
    ensures u in st.dead ==> multiset(st.dead)[u] < |OfMessage(st.received, u)|
    ensures multiset(st.dead)[u] > 1
            <==> exists d, e :: d in st.copied - st.removing && e in st.copied && d.uid == e.uid == u && d != e
  {
    RunKeepsHistory(events, st);
    AtMostOneRemoving(st, u);
    var copies := OfMessage(st.copied, u);
    if u in st.dead {
      var c := CopyOf(st, u);
      assert CopiedInv(st, c) && ReceivedInv(st, c);
      forall d | d in copies ensures d in OfMessage(st.received, u) - {Delivery(u, 1)} {
        assert CopiedInv(st, d);
      }
      Subset(copies, OfMessage(st.received, u) - {Delivery(u, 1)});
    }
    TwoOf(copies);
    if |copies| > 1 {
      var d, e :| d in copies && e in copies && d != e;
      var missed, other := if d in st.removing then e else d, if d in st.removing then d else e;
      assert missed in st.copied - st.removing && other in st.copied && missed.uid == other.uid == u && missed != other;
    } else {
      forall d, e | d in st.copied && e in st.copied && d.uid == e.uid == u ensures d == e {
        assert d in copies && e in copies;
      }
    }
  }

  lemma AtMostOneRemoving(st: State, u: Uid)
    requires Counted(st)
    ensures |OfMessage(st.copied, u)| <= |OfMessage(st.copied - st.removing, u)| + 1
  {
    var gone := OfMessage(st.removing, u);
    if d :| d in gone {
      OneMoreCopy(st.copied - st.removing, d, u);
      assert OfMessage(st.copied, u) == OfMessage(st.copied - st.removing + {d}, u);
    } else {
      assert forall d :: d in st.removing ==> d.uid != u by {
        assert forall d :: d in st.removing && d.uid == u ==> d in gone;
      }
      assert OfMessage(st.copied, u) == OfMessage(st.copied - st.removing, u);
    }
  }

  lemma {:induction false} Subset(a: set<Delivery>, b: set<Delivery>)
    requires a <= b
    ensures |a| <= |b|
  {
    if d :| d in a {
      Subset(a - {d}, b - {d});
    }
  }

  lemma TwoOf(ds: set<Delivery>)
    ensures |ds| > 1 <==> exists d, e :: d in ds && e in ds && d != e
  {
    if d :| d in ds {
      if e :| e in ds - {d} {
        assert |ds - {d}| > 0;
      } else {
        assert ds == {d};
      }
    }
  }

  // ----- Both failures happen -----

  /** The one message of a queue, never handed out. */
  ghost predicate Single(st: State, u: Uid, entry: Entry, dead: seq<Uid>, calls: map<Delivery, InCall>)
  {
    && Reachable(st) && st.main == map[u := entry] && st.dead == dead && st.calls == calls && st.handed == multiset{}
    && st.completed == {} && st.enqueued == {u}
  }

  lemma SingleReceived(st: State, u: Uid, count: nat, dead: seq<Uid>) returns (next: State)
    requires Single(st, u, Entry(count, true), dead, map[])
    ensures Single(next, u, Entry(count + 1, false), dead, map[Delivery(u, count + 1) := InCall(0, Pending)])
  {
    assert DeliveriesOf(st, 0) == {};
    assert Enabled(st, Receive(0, {u}));
    next := Step(st, Receive(0, {u}));
    T.MoveReachable(EMPTY, Moves, st, Receive(0, {u}), next);
    SingleReceipt(st, u, count);
  }

  lemma SingleReceipt(st: State, u: Uid, count: nat)
    requires st.main == map[u := Entry(count, true)] && st.calls == map[] && Enabled(st, Receive(0, {u}))
    ensures var next := Step(st, Receive(0, {u}));
            && next.main == map[u := Entry(count + 1, false)]
            && next.calls == map[Delivery(u, count + 1) := InCall(0, Pending)]
            && next.dead == st.dead && next.handed == st.handed
            && next.completed == st.completed && next.enqueued == st.enqueued
  {
    assert Receipts(st.main, {u}) == {Delivery(u, count + 1)};
    assert Received(st, {u}, 0) == map[Delivery(u, count + 1) := InCall(0, Pending)];
  }

  lemma SingleExpires(st: State, u: Uid, count: nat, dead: seq<Uid>) returns (next: State)
    requires Single(st, u, Entry(count, false), dead, map[])
    ensures Single(next, u, Entry(count, true), dead, map[])
  {
    next := Step(st, Expire(u));
    T.MoveReachable(EMPTY, Moves, st, Expire(u), next);
  }

  /** The call fails after receiving. */
  lemma SingleFails(st: State, u: Uid, count: nat) returns (next: State)
    requires Single(st, u, Entry(count, false), [], map[Delivery(u, count) := InCall(0, Pending)])
    ensures Single(next, u, Entry(count, false), [], map[])
  {
    next := Step(st, Fail(0));
    T.MoveReachable(EMPTY, Moves, st, Fail(0), next);
  }

  /** The copy to the dead queue succeeds, the deletion does not. */
  lemma SingleCopied(st: State, u: Uid, count: nat, dead: seq<Uid>) returns (next: State)
    requires count > MAX_DEQUEUE_COUNT
    requires Single(st, u, Entry(count, false), dead, map[Delivery(u, count) := InCall(0, Pending)])
    ensures Single(next, u, Entry(count, false), dead + [u], map[])
  {
    var d := Delivery(u, count);
    var copied := Step(st, CopyToDead(d));
    T.MoveReachable(EMPTY, Moves, st, CopyToDead(d), copied);
    next := Step(copied, DeleteCopied(d, false));
    T.MoveReachable(EMPTY, Moves, copied, DeleteCopied(d, false), next);
  }

  lemma SingleStarts(u: Uid) returns (st: State)
    ensures Single(st, u, Entry(0, true), [], map[])
  {
    st := Step(EMPTY, Enqueue(u));
    T.StartReachable(EMPTY, Moves);
    T.MoveReachable(EMPTY, Moves, EMPTY, Enqueue(u), st);
  }

  /** Once received, a message expires, is received again, copied to the dead queue and not deleted. */
  lemma SingleBuried(st: State, u: Uid, count: nat, dead: seq<Uid>) returns (next: State)
    requires 1 <= count && Single(st, u, Entry(count, false), dead, map[])
    ensures Single(next, u, Entry(count + 1, false), dead + [u], map[])
  {
    next := SingleExpires(st, u, count, dead);
    next := SingleReceived(next, u, count, dead);
    next := SingleCopied(next, u, count + 1, dead);
  }

  /** A run in which a message no consumer ever saw is in the dead queue twice, and still in the main queue. */
  lemma DeadWithoutBeingHanded(u: Uid)
    ensures exists st :: Reachable(st) && st.dead == [u, u] && st.handed == multiset{} && u in st.main
  {
    var st := SingleStarts(u);
    st := SingleReceived(st, u, 0, []);
    st := SingleFails(st, u, 1);
    st := SingleBuried(st, u, 1, []);
    st := SingleBuried(st, u, 2, [u]);
    assert st.dead == [u, u];
  }

  /** And the purpose of it all: a message received, handed over and completed leaves nothing behind. */
  lemma HandedAndCompleted(u: Uid)
    ensures exists st :: Reachable(st) && st.handed == multiset{u} && st.completed == {u} == st.enqueued
                         && st.main == map[] && st.dead == [] && st.calls == map[]
  {
    var st := SingleStarts(u);
    st := SingleReceived(st, u, 0, []);
    st := SingleKept(st, u);
    st := SingleReturned(st, u);
    st := SingleCompleted(st, u);
  }

  lemma SingleKept(st: State, u: Uid) returns (next: State)
    requires Single(st, u, Entry(1, false), [], map[Delivery(u, 1) := InCall(0, Pending)])
    ensures Single(next, u, Entry(1, false), [], map[Delivery(u, 1) := InCall(0, Kept)])
  {
    next := Step(st, Keep(Delivery(u, 1)));
    T.MoveReachable(EMPTY, Moves, st, Keep(Delivery(u, 1)), next);
  }

  /** The consumer has the message. */
  ghost predicate SingleHeld(st: State, u: Uid)
  {
    && Reachable(st) && st.main == map[u := Entry(1, false)] && st.dead == [] && st.calls == map[]
    && st.handed == multiset{u} && Delivery(u, 1) in st.held && st.completed == {} && st.enqueued == {u}
  }

  lemma SingleReturned(st: State, u: Uid) returns (next: State)
    requires Single(st, u, Entry(1, false), [], map[Delivery(u, 1) := InCall(0, Kept)])
    ensures SingleHeld(next, u)
  {
    OnlyCall(st, Delivery(u, 1));
    next := Step(st, Return(0));
    T.MoveReachable(EMPTY, Moves, st, Return(0), next);
  }

  lemma SingleCompleted(st: State, u: Uid) returns (next: State)
    requires SingleHeld(st, u)
    ensures Reachable(next) && next.handed == multiset{u} && next.completed == {u} == next.enqueued
    ensures next.main == map[] && next.dead == [] && next.calls == map[]
  {
    next := Step(st, Complete(Delivery(u, 1)));
    T.MoveReachable(EMPTY, Moves, st, Complete(Delivery(u, 1)), next);
  }

  lemma OnlyCall(st: State, d: Delivery)
    requires st.calls == map[d := InCall(0, Kept)]
    ensures DeliveriesOf(st, 0) == {d} && UidsOf(DeliveriesOf(st, 0)) == {d.uid}
  {
  }

  // ----- The loops of the calls -----

  datatype ServerMessage = ServerMessage(text: string, id: string, popReceipt: string, dequeueCount: nat)

  datatype Message = Message(text: string, id: string, popReceipt: string)

  /** The messages of a batch within the threshold, or those beyond it. */
  function Select(batch: seq<ServerMessage>, live: bool): seq<ServerMessage>
  {
    if |batch| == 0 then []
    else
      var rest, last := Select(AllButLast(batch), live), Last(batch);
      if (last.dequeueCount <= MAX_DEQUEUE_COUNT) == live then rest + [last] else rest
  }

  function ToMessages(batch: seq<ServerMessage>): (r: seq<Message>)
    ensures |r| == |batch|
  {
    seq(|batch|, i requires 0 <= i < |batch| => Message(batch[i].text, batch[i].id, batch[i].popReceipt))
  }

  function Texts(batch: seq<ServerMessage>): (r: seq<string>)
    ensures |r| == |batch|
  {
    seq(|batch|, i requires 0 <= i < |batch| => batch[i].text)
  }

  /** The messages of a batch handed to the caller. */
  function Live(batch: seq<ServerMessage>): seq<Message>
  {
    ToMessages(Select(batch, true))
  }

  /** The texts of a batch copied to the dead queue. */
  function Exceeded(batch: seq<ServerMessage>): seq<string>
  {
    Texts(Select(batch, false))
  }

  lemma {:induction false} SelectConcat(a: seq<ServerMessage>, b: seq<ServerMessage>, live: bool)
    ensures Select(a + b, live) == Select(a, live) + Select(b, live)
  {
    if |b| == 0 {
      assert a + b == a;
    } else {
      SelectConcat(a, AllButLast(b), live);
      assert AllButLast(a + b) == a + AllButLast(b);
    }
  }

  /** Which messages are handed over, and which texts copied, does not depend on how they were batched. */
  lemma BatchesConcat(a: seq<ServerMessage>, b: seq<ServerMessage>)
    ensures Live(a + b) == Live(a) + Live(b) && Exceeded(a + b) == Exceeded(a) + Exceeded(b)
  {
    SelectConcat(a, b, true);
    SelectConcat(a, b, false);
  }

  lemma {:induction false} SelectsSplit(batch: seq<ServerMessage>)
    ensures multiset(Select(batch, true)) + multiset(Select(batch, false)) == multiset(batch)
    ensures |Select(batch, true)| <= |batch|
  {
    if |batch| > 0 {
      SelectsSplit(AllButLast(batch));
      assert batch == AllButLast(batch) + [Last(batch)];
    }
  }

  lemma {:induction false} SelectedAre(batch: seq<ServerMessage>, live: bool)
    ensures forall m :: m in Select(batch, live) ==> (m.dequeueCount <= MAX_DEQUEUE_COUNT) == live
  {
    if |batch| > 0 {
      SelectedAre(AllButLast(batch), live);
    }
  }

  /** Every received message is either handed over or its text is copied to the dead queue, and not both. */
  lemma BatchIsSplit(batch: seq<ServerMessage>)
    ensures exists live: seq<ServerMessage>, exceeded: seq<ServerMessage> ::
              && multiset(live) + multiset(exceeded) == multiset(batch)
              && |Live(batch)| == |live| && |Exceeded(batch)| == |exceeded|
              && (forall i :: 0 <= i < |live| ==>
                    live[i].dequeueCount <= 1 && Live(batch)[i] == Message(live[i].text, live[i].id, live[i].popReceipt))
              && (forall i :: 0 <= i < |exceeded| ==>
                    exceeded[i].dequeueCount > 1 && Exceeded(batch)[i] == exceeded[i].text)
  {
    SelectsSplit(batch);
    SelectedAre(batch, true);
    SelectedAre(batch, false);
    var live, exceeded := Select(batch, true), Select(batch, false);
    assert multiset(live) + multiset(exceeded) == multiset(batch);
  }

  /** One more message of a batch. */
  lemma NextOfBatch(batch: seq<ServerMessage>, i: nat)
    requires i < |batch|
    ensures var m := batch[i];
            if m.dequeueCount > MAX_DEQUEUE_COUNT then
              Live(batch[..i + 1]) == Live(batch[..i]) && Exceeded(batch[..i + 1]) == Exceeded(batch[..i]) + [m.text]
            else
              && Live(batch[..i + 1]) == Live(batch[..i]) + [Message(m.text, m.id, m.popReceipt)]
              && Exceeded(batch[..i + 1]) == Exceeded(batch[..i])
  {
    assert AllButLast(batch[..i + 1]) == batch[..i];
  }

  class Queue {
    var arriving: seq<ServerMessage> // the messages storage will deliver, in order
    var dead: seq<string>
    var asked: seq<int> // the batch sizes asked of storage

    /** Storage delivers up to the number asked for, and rejects numbers outside 1 to 32. */
    method GetQueueMessages(numberOfMessages: int) returns (ok: bool, batch: seq<ServerMessage>)
      modifies this`arriving, this`asked
      ensures asked == old(asked) + [numberOfMessages]
      ensures ok == (1 <= numberOfMessages <= 32)
      ensures old(arriving) == batch + arriving
      ensures |batch| <= if ok then numberOfMessages else 0
    {
      asked := asked + [numberOfMessages];
      ok := 1 <= numberOfMessages <= MAX_BATCH;
      batch := [];
      if ok {
        var n :| 0 <= n <= numberOfMessages && n <= |arriving|;
        batch := arriving[..n];
        arriving := arriving[n..];
      }
    }

    method GetMessages(numberOfMessages: int) returns (ok: bool, messages: seq<Message>, ghost batch: seq<ServerMessage>)
      modifies this
      ensures asked == old(asked) + [numberOfMessages]
      ensures ok == (1 <= numberOfMessages <= 32)
      ensures old(arriving) == batch + arriving
      ensures |batch| <= if ok then numberOfMessages else 0
      ensures messages == Live(batch) && dead == old(dead) + Exceeded(batch)
    {
      messages := [];
      var serverMessages;
      ok, serverMessages := GetQueueMessages(numberOfMessages);
      batch := serverMessages;
      var i := 0;
      while i < |serverMessages|
        invariant 0 <= i <= |serverMessages|
        invariant messages == Live(serverMessages[..i]) && dead == old(dead) + Exceeded(serverMessages[..i])
        modifies this`dead
      {
        var m := serverMessages[i];
        if m.dequeueCount > MAX_DEQUEUE_COUNT {
          dead := dead + [m.text];
        } else {
          messages := messages + [Message(m.text, m.id, m.popReceipt)];
        }
        NextOfBatch(serverMessages, i);
        i := i + 1;
      }
      assert serverMessages[..i] == serverMessages;
    }

    /**
     Collects at most the total asked for, asking storage for 1 to 32 at a time and never for more than are
     missing. It stops short only after a batch without live messages, whether or not more are arriving.
     */
    method GetMessagesWithTotalCount(totalMessagesCount: int)
      returns (ok: bool, messages: seq<Message>, ghost received: seq<ServerMessage>, ghost lastBatch: seq<ServerMessage>)
      modifies this
      ensures ok == (1 <= totalMessagesCount)
      ensures old(arriving) == received + arriving
      ensures messages == Live(received) && dead == old(dead) + Exceeded(received)
      ensures ok ==> |messages| <= totalMessagesCount
      ensures ok && |messages| < totalMessagesCount ==> Live(lastBatch) == []
      ensures |old(asked)| < |asked| && asked[..|old(asked)|] == old(asked)
      ensures ok ==> forall k :: |old(asked)| <= k < |asked| ==> 1 <= asked[k] <= 32
    {
      messages := [];
      received, lastBatch := [], [];
      ok := true;
      var more := true;
      while more
        invariant ok && old(arriving) == received + arriving
        invariant messages == Live(received) && dead == old(dead) + Exceeded(received)
        invariant |old(asked)| <= |asked| && asked[..|old(asked)|] == old(asked)
        invariant |asked| == |old(asked)| ==> more && received == []
        invariant |asked| > |old(asked)| ==> 1 <= totalMessagesCount
        invariant 1 <= totalMessagesCount ==> |messages| <= totalMessagesCount
        invariant more && |asked| > |old(asked)| ==> |messages| < totalMessagesCount
        invariant !more && |messages| < totalMessagesCount ==> Live(lastBatch) == []
        invariant forall k :: |old(asked)| <= k < |asked| ==> 1 <= asked[k] <= MAX_BATCH
        decreases more, if totalMessagesCount > |messages| then totalMessagesCount - |messages| else 0
      {
        var remaining := totalMessagesCount - |messages|;
        var currentBatchCount := if remaining > 32 then 32 else remaining;
        var batch;
        ghost var was := received;
        ok, batch, lastBatch := GetMessages(currentBatchCount);
        BatchesConcat(received, lastBatch);
        SelectsSplit(lastBatch);
        received := received + lastBatch;
        if !ok {
          return;
        }
        if |batch| == 0 {
          more := false;
        } else {
          messages := messages + batch;
          more := |messages| < totalMessagesCount;
        }
      }
    }
  }
}
