/** ShippingManager (shipping_manager.cc): the retry loop that empties the observation store, and the worker thread
    against its clients. */
module SendLoop {
  import opened Common
  import opened EnvelopeMaker
  import opened MemoryObservationStore

  const MAX_FAILURES_WITHOUT_SUCCESS: nat := 3

  /** Taking a holder lowers the store's size by the holder's. */
  lemma TakeSize(st: Store, limits: Limits)
    requires Valid(st, limits)
    ensures var (holder, st') := TakeNext(st, limits);
            StoreSize(st) == StoreSize(st') + if holder.Some? then holder.value.numBytes else 0
  {
    TakeFinalizedSize(EMPTY, st, limits);
  }

  lemma {:induction false} TakeFinalizedSize(taken: Envelope, st: Store, limits: Limits)
    requires Valid(st, limits)
    ensures var (taken', st') := TakeFinalized(taken, st, limits.maxEnvelope);
            taken'.numBytes + StoreSize(st') == taken.numBytes + StoreSize(st)
    decreases |st.finalized|
  {
    if Takes(taken, st, limits.maxEnvelope) {
      assert AllFit(st.finalized[1..], limits);
      TakeFinalizedSize(Merge(taken, st.finalized[0]), DropOldest(st), limits);
    }
  }

  /** The attempts of one call: which ones succeeded, in order. */
  predicate AllSucceeded(outcomes: seq<bool>) { forall i :: 0 <= i < |outcomes| ==> outcomes[i] }

  /** The number of failures since the last success. */
  function TrailingFailures(outcomes: seq<bool>): nat {
    if outcomes == [] || outcomes[|outcomes| - 1] then 0 else 1 + TrailingFailures(outcomes[..|outcomes| - 1])
  }

  lemma TrailingStep(outcomes: seq<bool>, ok: bool)
    ensures TrailingFailures(outcomes + [ok]) == if ok then 0 else 1 + TrailingFailures(outcomes)
  {
    assert (outcomes + [ok])[..|outcomes|] == outcomes;
  }

  /** What was in the store is still there or was sent; only observations of size 0 can be missing. */
  predicate ConservesItem(before: Store, after: Store, sent: seq<Envelope>, item: Item) {
    && Holds(after, item) + CountAll(sent, item) <= Holds(before, item)
    && (0 < item.observation.size ==> Holds(before, item) == Holds(after, item) + CountAll(sent, item))
  }

  ghost predicate Conserves(before: Store, after: Store, sent: seq<Envelope>) {
    forall item: Item :: ConservesItem(before, after, sent, item)
  }

  lemma Delivered(start: Store, before: Store, limits: Limits, e: Envelope, sent: seq<Envelope>)
    requires Valid(before, limits) && TakeNext(before, limits).0 == Some(e) && Conserves(start, before, sent)
    ensures Conserves(start, TakeNext(before, limits).1, sent + [e])
  {
    forall item: Item ensures ConservesItem(start, TakeNext(before, limits).1, sent + [e], item) {
      assert ConservesItem(start, before, sent, item);
      TakeCounts(before, limits, item);
      Appended(sent, e, item);
    }
  }

  lemma Returned(start: Store, before: Store, limits: Limits, e: Envelope, sent: seq<Envelope>)
    requires Valid(before, limits) && TakeNext(before, limits).0 == Some(e) && Conserves(start, before, sent)
    ensures Conserves(start, AddEnvelopeToSend(TakeNext(before, limits).1, e), sent)
  {
    forall item: Item ensures ConservesItem(start, AddEnvelopeToSend(TakeNext(before, limits).1, e), sent, item) {
      assert ConservesItem(start, before, sent, item);
      TakeCounts(before, limits, item);
      Appended(TakeNext(before, limits).1.finalized, e, item);
    }
  }

  lemma Drained(start: Store, before: Store, limits: Limits, sent: seq<Envelope>)
    requires Valid(before, limits) && TakeNext(before, limits).0 == None && Conserves(start, before, sent)
    ensures Empty(TakeNext(before, limits).1) && Conserves(start, TakeNext(before, limits).1, sent)
  {
    TakenSize(before, limits);
    forall item: Item ensures ConservesItem(start, TakeNext(before, limits).1, sent, item) {
      assert ConservesItem(start, before, sent, item);
      TakeCounts(before, limits, item);
    }
  }

  /** One round of the loop: take a holder, try to deliver it, put it back if that fails. */
  method Attempt(store: MemoryStore, delivered: bool, ghost start: Store, sent: seq<Envelope>)
    returns (attempted: bool, sent': seq<Envelope>)
    requires store.Ok() && Conserves(start, store.Value(), sent)
    modifies store
    ensures store.Ok() && Conserves(start, store.Value(), sent')
    ensures !attempted ==> Empty(store.Value()) && sent' == sent
    ensures attempted && delivered ==> StoreSize(store.Value()) < old(StoreSize(store.Value()))
    ensures attempted && !delivered ==> StoreSize(store.Value()) == old(StoreSize(store.Value())) && sent' == sent
  {
    ghost var before := store.Value();
    sent' := sent;
    var holder := store.TakeNextEnvelopeHolder();
    TakeKeepsValid(before, store.limits);
    TakeSize(before, store.limits);
    if holder == None {
      Drained(start, before, store.limits, sent);
      return false, sent;
    }
    attempted := true;
    if delivered {
      Delivered(start, before, store.limits, holder.value, sent);
      sent' := sent + [holder.value];
    } else {
      Returned(start, before, store.limits, holder.value, sent);
      store.ReturnEnvelopeHolder(holder.value);
    }
  }

  /** The outcomes are the backend's, and none was asked for after three failures in a row. */
  predicate Faithful(outcomes: seq<bool>, backend: nat -> bool) {
    outcomes == []
    || (var front := outcomes[..|outcomes| - 1];
        && Faithful(front, backend)
        && outcomes[|outcomes| - 1] == backend(|front|)
        && TrailingFailures(front) < 3)
  }

  lemma FaithfulStep(outcomes: seq<bool>, backend: nat -> bool)
    requires Faithful(outcomes, backend) && TrailingFailures(outcomes) < MAX_FAILURES_WITHOUT_SUCCESS
    ensures Faithful(outcomes + [backend(|outcomes|)], backend)
  {
    assert (outcomes + [backend(|outcomes|)])[..|outcomes|] == outcomes;
  }

  /** SendAllEnvelopes when nothing is added concurrently. The backend decides the outcome of each attempt. The loop
      ends for every backend; what was in the store was sent or is still there; the callbacks are told success exactly
      when every attempt succeeded, and then the store is empty; and the loop stops after three failures in a row. */
  method SendAllEnvelopes(store: MemoryStore, disabled: bool, backend: nat -> bool)
    returns (success: Option<bool>, sent: seq<Envelope>, outcomes: seq<bool>)
    requires store.Ok()
    modifies store
    ensures store.Ok() && Conserves(old(store.Value()), store.Value(), sent)
    ensures disabled ==> success == None && sent == [] && outcomes == [] && store.Value() == old(store.Value())
    ensures !disabled ==> success.Some? && (success.value <==> AllSucceeded(outcomes))
    ensures !disabled ==> Empty(store.Value()) || TrailingFailures(outcomes) == 3
    ensures !disabled && success.value ==> Empty(store.Value())
    ensures Faithful(outcomes, backend)
  {
    sent, outcomes := [], [];
    if disabled {
      return None, sent, outcomes;
    }
    var ok := true;
    var failures := 0;
    ghost var start := store.Value();
    while true
      invariant store.Ok() && Conserves(start, store.Value(), sent)
      invariant ok <==> AllSucceeded(outcomes)
      invariant failures == TrailingFailures(outcomes) < MAX_FAILURES_WITHOUT_SUCCESS
      invariant Faithful(outcomes, backend)
      decreases StoreSize(store.Value()), MAX_FAILURES_WITHOUT_SUCCESS - failures
    {
      var delivered := backend(|outcomes|);
      var attempted;
      attempted, sent := Attempt(store, delivered, start, sent);
      if !attempted {
        break;
      }
      TrailingStep(outcomes, delivered);
      FaithfulStep(outcomes, backend);
      outcomes := outcomes + [delivered];
      if delivered {
        failures := 0;
      } else {
        ok := false;
        failures := failures + 1;
        assert !outcomes[|outcomes| - 1];
      }
      if failures >= MAX_FAILURES_WITHOUT_SUCCESS {
        break;
      }
    }
    success := Some(ok);
  }
}

/** The worker thread and its clients as a state machine. A step is what one thread does between acquiring and
    releasing the lock; any step of any thread can come next. */
module ShippingWorker {
  import SendLoop

  /** A send callback, with the observations that were not yet sent when it was registered. */
  datatype Callback = Callback(id: nat, pending: set<nat>)

  datatype Invocation = Invocation(callback: Callback, success: bool)

  /** The completed sends, the latest one outermost. */
  datatype SendLog = NoSends | Sends(earlier: SendLog, start: nat, end: nat)

  datatype Worker =
    | LoopTop
    | Sleeping(since: nat)
    | IdleWaiting
    | ScheduleWaiting
    | SendStart(start: nat)
    | Taking(start: nat, success: bool, failures: nat)
    | Uploading(start: nat, success: bool, failures: nat, holder: set<nat>)
    | SendDone(start: nat, success: bool)
    | Exited

  /** Where the observations are. An observation is `sent` when SendEnvelopeToBackend returned no holder to put back: it was
      delivered, written to the local file, or given up. `late` are those added since the worker last found the store
      empty. */
  datatype Shelf = Shelf(stored: set<nat>, inFlight: set<nat>, sent: set<nat>, notified: set<nat>, late: set<nat>)

  datatype Flags = Flags(idle: bool, disabled: bool, shutDown: bool, expedited: bool, waiting: bool)

  datatype Board = Board(queue: seq<Callback>, invoked: seq<Invocation>, registered: seq<Callback>)

  datatype Clock = Clock(now: nat, sends: SendLog)

  datatype State = State(shelf: Shelf, flags: Flags, board: Board, clock: Clock, worker: Worker)

  predicate Available(s: State) { s.shelf.stored != {} && !s.flags.disabled }

  /** Everything that can happen. The parameters are what the environment decides. */
  datatype Event =
    | Tick
    | AddObservation(id: nat)
    | Notify(almostFull: bool)
    | RequestSendSoon
    | RequestSendSoonWith(id: nat)
    | Disable(disabled: bool)
    | ShutDown
    | Work(due: bool, timeout: bool, holder: set<nat>, delivered: bool)

  function Told(queue: seq<Callback>, success: bool): seq<Invocation> {
    if queue == [] then [] else [Invocation(queue[0], success)] + Told(queue[1..], success)
  }

  /** InvokeSendCallbacksLockHeld, on the callbacks. */
  function InvokeAll(b: Board, success: bool): Board {
    b.(queue := [], invoked := b.invoked + Told(b.queue, success))
  }

  /** What clients did before Start: it resets the idle and waiting flags and nothing else, so that requests, callbacks,
      a shutdown and the disabled flag stay. */
  datatype Before = Before(stored: set<nat>, notified: set<nat>, disabled: bool, shutDown: bool, expedited: bool, board: Board)

  /** Nothing was sent yet, so a queued callback waits for observations that are all in the store. */
  predicate Possible(b: Before) {
    CallbacksInOrder(b.board) && forall i :: 0 <= i < |b.board.queue| ==> b.board.queue[i].pending <= b.stored
  }

  /** The state just after Start. */
  function Started(b: Before): State {
    State(Shelf(b.stored, {}, {}, b.notified, b.stored), Flags(false, b.disabled, b.shutDown, b.expedited, false), b.board,
          Clock(0, NoSends), LoopTop)
  }

  /** Observation 1 is stored and announced, and nothing else happened. */
  function JustOne(disabled: bool): Before { Before({1}, {1}, disabled, false, false, Board([], [], [])) }

  function EndSend(c: Clock, start: nat): Clock { c.(sends := Sends(c.sends, start, c.now)) }

  /** Run, from waking up after the minimum interval. */
  function WakeUp(s: State, due: bool): State {
    if !Available(s) then
      s.(board := InvokeAll(s.board, true), flags := s.flags.(expedited := false, idle := true), worker := IdleWaiting)
    else if due || s.flags.expedited then
      s.(flags := s.flags.(expedited := false), worker := SendStart(s.clock.now))
    else s.(flags := s.flags.(waiting := true), worker := ScheduleWaiting)
  }

  /** SendAllEnvelopes taking the next holder. */
  function TakeHolder(s: State, holder: set<nat>): State
    requires s.worker.Taking?
  {
    var Taking(start, success, failures) := s.worker;
    if s.shelf.stored == {} then s.(worker := SendDone(start, success), shelf := s.shelf.(late := {}))
    else if holder == {} || !(holder <= s.shelf.stored) then s
    else s.(shelf := s.shelf.(stored := s.shelf.stored - holder, inFlight := holder),
            worker := Uploading(start, success, failures, holder))
  }

  /** SendAllEnvelopes after the backend answered. */
  function Answer(s: State, delivered: bool): State
    requires s.worker.Uploading?
  {
    var Uploading(start, success, failures, holder) := s.worker;
    if delivered then
      s.(shelf := s.shelf.(sent := s.shelf.sent + s.shelf.inFlight, inFlight := {}), worker := Taking(start, success, 0))
    else
      s.(shelf := s.shelf.(stored := s.shelf.stored + s.shelf.inFlight, inFlight := {}),
         worker := if failures + 1 < SendLoop.MAX_FAILURES_WITHOUT_SUCCESS then Taking(start, false, failures + 1) else SendDone(start, false))
  }

  function WorkerStep(s: State, e: Event, minInterval: nat): State
    requires e.Work?
  {
    match s.worker
    case LoopTop => s.(worker := if s.flags.shutDown then Exited else Sleeping(s.clock.now))
    case Sleeping(since) =>
      if s.flags.shutDown then s.(worker := Exited)
      else if s.clock.now < since + minInterval then s
      else WakeUp(s, e.due)
    case IdleWaiting =>
      if s.flags.shutDown || Available(s) || !s.flags.idle then s.(flags := s.flags.(idle := false), worker := LoopTop) else s
    case ScheduleWaiting =>
      if e.timeout || s.flags.shutDown || s.flags.expedited then s.(flags := s.flags.(waiting := false), worker := LoopTop)
      else s
    case SendStart(start) =>
      if s.flags.disabled then s.(worker := LoopTop, clock := EndSend(s.clock, start))
      else s.(worker := Taking(start, true, 0))
    case Taking(_, _, _) => TakeHolder(s, e.holder)
    case Uploading(_, _, _, _) => Answer(s, e.delivered)
    case SendDone(start, success) =>
      s.(board := InvokeAll(s.board, success), flags := s.flags.(expedited := false), clock := EndSend(s.clock, start), worker := LoopTop)
    case Exited => s
  }

  function ClientStep(s: State, e: Event): State
    requires !e.Work?
  {
    match e
    case Tick => s.(clock := s.clock.(now := s.clock.now + 1))
    case AddObservation(id) =>
      if id in s.shelf.stored + s.shelf.inFlight + s.shelf.sent + s.shelf.notified then s
      else s.(shelf := s.shelf.(stored := s.shelf.stored + {id}, late := s.shelf.late + {id}))
    case Notify(almostFull) =>
      var flags := if almostFull then s.flags.(expedited := true, waiting := false) else s.flags;
      s.(shelf := s.shelf.(notified := s.shelf.notified + s.shelf.stored),
         flags := if s.shelf.stored != {} then flags.(idle := false) else flags)
    case RequestSendSoon => s.(flags := s.flags.(expedited := true, waiting := false))
    case RequestSendSoonWith(id) =>
      var callback := Callback(id, s.shelf.stored + s.shelf.inFlight);
      var b := s.board.(registered := s.board.registered + [callback]);
      if s.shelf.stored == {} && s.flags.idle then
        s.(board := b.(invoked := b.invoked + [Invocation(callback, true)]), flags := s.flags.(expedited := false, waiting := false))
      else
        s.(board := b.(queue := b.queue + [callback]), flags := s.flags.(expedited := true, waiting := false))
    case Disable(d) => s.(flags := if d then s.flags.(disabled := true) else s.flags.(disabled := false, idle := false))
    case ShutDown => s.(flags := s.flags.(shutDown := true))
  }

  function Next(s: State, e: Event, minInterval: nat): State {
    if e.Work? then WorkerStep(s, e, minInterval) else ClientStep(s, e)
  }

  function Run(events: seq<Event>, s: State, minInterval: nat): State {
    if events == [] then s else Next(Run(events[..|events| - 1], s, minInterval), events[|events| - 1], minInterval)
  }

  // ---------------------------------------------------------------- Callbacks

  function Callbacks(invoked: seq<Invocation>): seq<Callback> {
    if invoked == [] then [] else [invoked[0].callback] + Callbacks(invoked[1..])
  }

  /** The registered callbacks are those invoked, each once and in the order of registration, and then those queued. */
  predicate CallbacksInOrder(b: Board) {
    b.registered == Callbacks(b.invoked) + b.queue
  }

  lemma {:induction false} CallbacksAppend(a: seq<Invocation>, b: seq<Invocation>)
    ensures Callbacks(a + b) == Callbacks(a) + Callbacks(b)
  {
    if a == [] {
      assert a + b == b;
    } else {
      assert (a + b)[0] == a[0] && (a + b)[1..] == a[1..] + b;
      CallbacksAppend(a[1..], b);
    }
  }

  lemma {:induction false} CallbacksTold(queue: seq<Callback>, success: bool)
    ensures Callbacks(Told(queue, success)) == queue
  {
    if queue != [] {
      CallbacksTold(queue[1..], success);
      var told := Told(queue, success);
      assert told[0].callback == queue[0] && told[1..] == Told(queue[1..], success);
      assert Callbacks(told) == [queue[0]] + queue[1..] == queue;
    }
  }

  lemma InvokeAllInOrder(b: Board, success: bool)
    requires CallbacksInOrder(b)
    ensures CallbacksInOrder(InvokeAll(b, success))
  {
    CallbacksAppend(b.invoked, Told(b.queue, success));
    CallbacksTold(b.queue, success);
  }

  lemma InvokeNowInOrder(b: Board, callback: Callback)
    requires CallbacksInOrder(b) && b.queue == []
    ensures CallbacksInOrder(b.(registered := b.registered + [callback], invoked := b.invoked + [Invocation(callback, true)]))
  {
    CallbacksAppend(b.invoked, [Invocation(callback, true)]);
    assert Callbacks([Invocation(callback, true)]) == [callback];
  }

  lemma OrderKept(s: State, e: Event, minInterval: nat)
    requires CallbacksInOrder(s.board) && IdleIsIdle(s)
    ensures CallbacksInOrder(Next(s, e, minInterval).board)
  {
    if e.Work? {
      InvokeAllInOrder(s.board, true);
      InvokeAllInOrder(s.board, false);
    } else if e.RequestSendSoonWith? && s.shelf.stored == {} && s.flags.idle {
      InvokeNowInOrder(s.board, Callback(e.id, s.shelf.stored + s.shelf.inFlight));
    }
  }

  // ---------------------------------------------------------------- Idle

  /** Idle means waiting for work: nothing that was announced is left in the store while uploads are enabled. */
  predicate IdleIsIdle(s: State) {
    && (s.flags.idle ==> s.worker == IdleWaiting)
    && (s.flags.idle && !s.flags.disabled ==> s.shelf.stored !! s.shelf.notified)
    && (s.flags.idle && s.shelf.stored == {} ==> s.board.queue == [])
  }

  lemma IdleKept(s: State, e: Event, minInterval: nat)
    requires IdleIsIdle(s)
    ensures IdleIsIdle(Next(s, e, minInterval))
  {
  }

  // ---------------------------------------------------------------- Spacing

  predicate Sending(w: Worker) { w.SendStart? || w.Taking? || w.Uploading? || w.SendDone? }

  /** A send after the given ones may start at `start`. */
  predicate MayStart(log: SendLog, start: nat, minInterval: nat) {
    log.Sends? ==> log.end + minInterval <= start
  }

  /** Sends do not overlap, and each starts at least the minimum interval after the previous one ended. */
  predicate WellSpaced(log: SendLog, minInterval: nat) {
    log.Sends? ==> WellSpaced(log.earlier, minInterval) && log.start <= log.end && MayStart(log.earlier, log.start, minInterval)
  }

  /** The log as it was `k` sends ago. */
  function Ago(log: SendLog, k: nat): SendLog {
    if k == 0 || log.NoSends? then log else Ago(log.earlier, k - 1)
  }

  /** Any two sends are that far apart, not only neighbours. */
  lemma {:induction false} AllPairsSpaced(log: SendLog, minInterval: nat, k: nat)
    requires WellSpaced(log, minInterval) && log.Sends? && 0 < k && Ago(log, k).Sends?
    ensures Ago(log, k).end + minInterval <= log.start
  {
    if k > 1 {
      AllPairsSpaced(log.earlier, minInterval, k - 1);
    }
  }

  predicate Spaced(s: State, minInterval: nat) {
    && WellSpaced(s.clock.sends, minInterval)
    && MayStart(s.clock.sends, s.clock.now, 0)
    && (s.worker.Sleeping? ==> s.worker.since <= s.clock.now && MayStart(s.clock.sends, s.worker.since, 0))
    && (Sending(s.worker) ==> s.worker.start <= s.clock.now && MayStart(s.clock.sends, s.worker.start, minInterval))
  }

  lemma EndSendSpaced(c: Clock, start: nat, minInterval: nat)
    requires WellSpaced(c.sends, minInterval) && start <= c.now && MayStart(c.sends, start, minInterval)
    ensures WellSpaced(EndSend(c, start).sends, minInterval) && MayStart(EndSend(c, start).sends, c.now, 0)
  {
  }

  lemma SpacingKept(s: State, e: Event, minInterval: nat)
    requires Spaced(s, minInterval)
    ensures Spaced(Next(s, e, minInterval), minInterval)
  {
    if e.Work? && Sending(s.worker) {
      EndSendSpaced(s.clock, s.worker.start, minInterval);
    }
  }

  // ---------------------------------------------------------------- Observations

  function Known(f: Shelf): set<nat> { f.stored + f.inFlight + f.sent }

  /** Every observation is in exactly one place, and the callbacks wait for observations that exist. */
  predicate Accounted(s: State) {
    && s.shelf.stored !! s.shelf.sent && s.shelf.inFlight !! s.shelf.sent && s.shelf.inFlight !! s.shelf.stored
    && (!s.worker.Uploading? ==> s.shelf.inFlight == {})
    && (s.worker.SendDone? && s.worker.success ==> s.shelf.stored == s.shelf.late)
    && (forall i :: 0 <= i < |s.board.queue| ==> s.board.queue[i].pending <= Known(s.shelf))
  }

  /** Observations are only ever added, by clients, and none disappears. */
  lemma KnownGrows(s: State, e: Event, minInterval: nat)
    requires !s.worker.Uploading? ==> s.shelf.inFlight == {}
    ensures Known(s.shelf) <= Known(Next(s, e, minInterval).shelf)
    ensures Known(Next(s, e, minInterval).shelf) <= Known(s.shelf) + if e.AddObservation? then {e.id} else {}
    ensures e.AddObservation? && e.id !in s.shelf.notified ==> e.id in Known(Next(s, e, minInterval).shelf)
  {
  }

  lemma PlacesKept(s: State, e: Event, minInterval: nat)
    requires Accounted(s)
    ensures var f := Next(s, e, minInterval).shelf; f.stored !! f.sent && f.inFlight !! f.sent && f.inFlight !! f.stored
  {
  }

  lemma PendingKept(s: State, e: Event, minInterval: nat)
    requires Accounted(s)
    ensures var s' := Next(s, e, minInterval);
            forall i :: 0 <= i < |s'.board.queue| ==> s'.board.queue[i].pending <= Known(s'.shelf)
  {
    KnownGrows(s, e, minInterval);
  }

  lemma LateKept(s: State, e: Event, minInterval: nat)
    requires Accounted(s)
    ensures var s' := Next(s, e, minInterval);
            && (!s'.worker.Uploading? ==> s'.shelf.inFlight == {})
            && (s'.worker.SendDone? && s'.worker.success ==> s'.shelf.stored == s'.shelf.late)
  {
  }

  /** Whether envelopes may have been taken since the callbacks were last invoked. */
  predicate Shipping(w: Worker) { w.Taking? || w.Uploading? || w.SendDone? }

  /** Between sends, what a queued callback waits for is still in the store: all of it. */
  predicate WaitsForStored(s: State) {
    !Shipping(s.worker) ==> forall i :: 0 <= i < |s.board.queue| ==> s.board.queue[i].pending <= s.shelf.stored
  }

  lemma WaitingKept(s: State, e: Event, minInterval: nat)
    requires Accounted(s) && WaitsForStored(s)
    ensures WaitsForStored(Next(s, e, minInterval))
  {
  }

  // ---------------------------------------------------------------- Whole runs

  predicate Invariant(s: State, minInterval: nat) {
    CallbacksInOrder(s.board) && IdleIsIdle(s) && Spaced(s, minInterval) && Accounted(s) && WaitsForStored(s)
  }

  /** In every state that any interleaving of the worker and its clients can reach after Start, whatever clients did before
      it: callbacks are invoked exactly once and in order, idle means idle, sends keep their distance, and no observation is
      lost or doubled. */
  lemma {:induction false} Reachable(events: seq<Event>, before: Before, minInterval: nat)
    requires Possible(before)
    ensures Invariant(Run(events, Started(before), minInterval), minInterval)
  {
    if events != [] {
      var front := events[..|events| - 1];
      Reachable(front, before, minInterval);
      var s := Run(front, Started(before), minInterval);
      var e := events[|events| - 1];
      OrderKept(s, e, minInterval);
      IdleKept(s, e, minInterval);
      SpacingKept(s, e, minInterval);
      PlacesKept(s, e, minInterval);
      PendingKept(s, e, minInterval);
      LateKept(s, e, minInterval);
      WaitingKept(s, e, minInterval);
    }
  }

  // ---------------------------------------------------------------- What is sent

  /** The observations of all uploads that the backend took. */
  function Delivered(events: seq<Event>, s0: State, minInterval: nat): set<nat> {
    if events == [] then {}
    else
      var front, e := events[..|events| - 1], events[|events| - 1];
      var worker := Run(front, s0, minInterval).worker;
      Delivered(front, s0, minInterval) + if e.Work? && worker.Uploading? && e.delivered then worker.holder else {}
  }

  lemma SentStep(s: State, e: Event, minInterval: nat)
    requires Accounted(s) && (s.worker.Uploading? ==> s.worker.holder == s.shelf.inFlight != {})
    ensures var s' := Next(s, e, minInterval);
            && s'.shelf.sent == s.shelf.sent + (if e.Work? && s.worker.Uploading? && e.delivered then s.worker.holder else {})
            && (s'.worker.Uploading? ==> s'.worker.holder == s'.shelf.inFlight != {})
  {
  }

  /** In every state of every run, what counts as sent is what the backend took, no less and no more; and the holder that is
      being uploaded was taken from the store. */
  lemma {:induction false} SentIsDelivered(events: seq<Event>, before: Before, minInterval: nat)
    requires Possible(before)
    ensures var s := Run(events, Started(before), minInterval);
            && s.shelf.sent == Delivered(events, Started(before), minInterval)
            && (s.worker.Uploading? ==> s.worker.holder == s.shelf.inFlight != {})
  {
    if events != [] {
      var front := events[..|events| - 1];
      SentIsDelivered(front, before, minInterval);
      Reachable(front, before, minInterval);
      SentStep(Run(front, Started(before), minInterval), events[|events| - 1], minInterval);
    }
  }

  // ---------------------------------------------------------------- When sends start

  predicate Asks(e: Event) {
    e.RequestSendSoon? || e.RequestSendSoonWith? || (e.Notify? && e.almostFull) || (e.Work? && e.due)
  }

  predicate NoSend(s: State, sends: SendLog) { !Sending(s.worker) && s.clock.sends == sends && !s.flags.expedited }

  lemma NoSendStep(s: State, e: Event, sends: SendLog, minInterval: nat)
    requires NoSend(s, sends) && !Asks(e)
    ensures NoSend(Next(s, e, minInterval), sends)
  {
  }

  /** While nobody asks for a send and none is due, none starts: from any state in which none is under way or asked for. */
  lemma {:induction false} NoSendUnasked(events: seq<Event>, s: State, minInterval: nat)
    requires !Sending(s.worker) && !s.flags.expedited && forall i :: 0 <= i < |events| ==> !Asks(events[i])
    ensures NoSend(Run(events, s, minInterval), s.clock.sends)
  {
    if events != [] {
      var front := events[..|events| - 1];
      NoSendUnasked(front, s, minInterval);
      NoSendStep(Run(front, s, minInterval), events[|events| - 1], s.clock.sends, minInterval);
    }
  }

  /** One send serves all requests made before it ends, and going idle does too: without a new one no send follows. */
  lemma RequestsAreServed(events: seq<Event>, s: State, work: Event, minInterval: nat)
    requires work.Work? && forall i :: 0 <= i < |events| ==> !Asks(events[i])
    requires s.worker.SendDone? || (s.worker.Sleeping? && Next(s, work, minInterval).worker.IdleWaiting?)
    ensures Run(events, Next(s, work, minInterval), minInterval).clock.sends == Next(s, work, minInterval).clock.sends
  {
    NoSendUnasked(events, Next(s, work, minInterval), minInterval);
  }

  predicate Halted(s: State, shelf: Shelf) {
    s.flags.disabled && !s.worker.Taking? && !s.worker.Uploading? && s.shelf.sent == shelf.sent && s.shelf.inFlight == shelf.inFlight
  }

  lemma HaltedStep(s: State, e: Event, shelf: Shelf, minInterval: nat)
    requires Halted(s, shelf) && e != Disable(false)
    ensures Halted(Next(s, e, minInterval), shelf)
  {
  }

  /** Once uploads are disabled nothing is taken or sent until they are enabled, whatever is requested or due: a send that was
      about to start is called off. */
  lemma {:induction false} DisabledSendsNothing(events: seq<Event>, s: State, minInterval: nat)
    requires !s.worker.Taking? && !s.worker.Uploading? && forall i :: 0 <= i < |events| ==> events[i] != Disable(false)
    ensures Halted(Run(events, Next(s, Disable(true), minInterval), minInterval), s.shelf)
  {
    if events != [] {
      var front := events[..|events| - 1];
      DisabledSendsNothing(front, s, minInterval);
      HaltedStep(Run(front, Next(s, Disable(true), minInterval), minInterval), events[|events| - 1], s.shelf, minInterval);
    }
  }

  function Ticks(n: nat): seq<Event> { if n == 0 then [] else Ticks(n - 1) + [Tick] }

  lemma {:induction false} TimePasses(n: nat, s: State, minInterval: nat)
    ensures Run(Ticks(n), s, minInterval) == s.(clock := s.clock.(now := s.clock.now + n))
  {
    if n != 0 {
      TimePasses(n - 1, s, minInterval);
      RunStep(Ticks(n - 1), Tick, s, minInterval);
    }
  }

  /** What asks for a send soon: a request, with or without a callback, and the news that the store is almost full. */
  predicate AsksSoon(e: Event) { e.RequestSendSoon? || e.RequestSendSoonWith? || (e.Notify? && e.almostFull) }

  /** Asking for a send soon starts one although none is due: from a worker that sleeps, after the minimum interval; one that
      waits for work or for the schedule goes to sleep first, in two steps. */
  lemma RequestStartsSend(s: State, ask: Event, works: (Event, Event, Event), minInterval: nat)
    requires AsksSoon(ask) && works.0.Work? && works.1.Work? && works.2.Work?
    requires Available(s) && !s.flags.shutDown && (s.worker.Sleeping? ==> s.worker.since <= s.clock.now)
    requires s.worker.Sleeping? || s.worker.IdleWaiting? || s.worker.ScheduleWaiting?
    ensures var asked := Next(s, ask, minInterval);
            var asleep := if s.worker.Sleeping? then asked else Next(Next(asked, works.0, minInterval), works.1, minInterval);
            var sending := Next(Run(Ticks(minInterval), asleep, minInterval), works.2, minInterval);
            && asleep.worker.Sleeping?
            && sending.worker == SendStart(asleep.clock.now + minInterval)
            && !sending.flags.expedited
  {
    var asked := Next(s, ask, minInterval);
    var asleep := if s.worker.Sleeping? then asked else Next(Next(asked, works.0, minInterval), works.1, minInterval);
    TimePasses(minInterval, asleep, minInterval);
  }

  /** A send that is due starts without being asked for: the wait for the schedule ends, and after the minimum interval the
      worker sends what is there. */
  lemma ScheduleStartsSend(s: State, works: (Event, Event, Event), minInterval: nat)
    requires works.0.Work? && works.0.timeout && works.1.Work? && works.2.Work? && works.2.due
    requires s.worker.ScheduleWaiting? && Available(s) && !s.flags.shutDown
    ensures var asleep := Next(Next(s, works.0, minInterval), works.1, minInterval);
            && asleep.worker.Sleeping? && !asleep.flags.waiting
            && Next(Run(Ticks(minInterval), asleep, minInterval), works.2, minInterval).worker == SendStart(asleep.clock.now + minInterval)
  {
    TimePasses(minInterval, Next(Next(s, works.0, minInterval), works.1, minInterval), minInterval);
  }

  /** A worker that falls asleep wakes up after the minimum interval. It goes idle if there is nothing that it may send, and waits
      for the schedule, and says so, if there is but no send is due and none was asked for. */
  lemma WakesUpTo(s: State, works: (Event, Event), minInterval: nat)
    requires works.0.Work? && works.1.Work? && s.worker.LoopTop? && !s.flags.shutDown
    ensures var awake := Next(Run(Ticks(minInterval), Next(s, works.0, minInterval), minInterval), works.1, minInterval);
            && awake.clock.now == s.clock.now + minInterval && awake.shelf == s.shelf
            && (s.shelf.stored == {} || s.flags.disabled ==> awake.worker == IdleWaiting && awake.flags.idle && awake.board.queue == [])
            && (s.shelf.stored != {} && !s.flags.disabled && !works.1.due && !s.flags.expedited ==>
                  awake.worker == ScheduleWaiting && awake.flags.waiting && awake.board == s.board)
  {
    TimePasses(minInterval, Next(s, works.0, minInterval), minInterval);
  }

  /** The wait for the schedule lasts until the time has come, a send is asked for or the worker is shut down. */
  lemma {:induction false} WaitsForSchedule(events: seq<Event>, s: State, minInterval: nat)
    requires s.worker.ScheduleWaiting? && !s.flags.expedited && !s.flags.shutDown
    requires forall i :: 0 <= i < |events| ==> events[i] != ShutDown && !AsksSoon(events[i]) && !(events[i].Work? && events[i].timeout)
    ensures var s' := Run(events, s, minInterval); s'.worker.ScheduleWaiting? && !s'.flags.expedited && !s'.flags.shutDown
  {
    if events != [] {
      WaitsForSchedule(events[..|events| - 1], s, minInterval);
    }
  }

  /** In two steps the worker is asleep, and after the minimum interval it starts a send. */
  predicate StartsSend(s: State, works: (Event, Event, Event), minInterval: nat)
    requires works.2.Work?
  {
    var asleep := Next(Next(s, works.0, minInterval), works.1, minInterval);
    && asleep.worker.Sleeping?
    && Next(Run(Ticks(minInterval), asleep, minInterval), works.2, minInterval).worker == SendStart(asleep.clock.now + minInterval)
  }

  lemma WokenSends(s: State, works: (Event, Event, Event), minInterval: nat)
    requires works.0.Work? && works.1.Work? && works.2.Work? && works.2.due
    requires s.worker.IdleWaiting? && Available(s) && !s.flags.shutDown
    ensures StartsSend(s, works, minInterval)
  {
    TimePasses(minInterval, Next(Next(s, works.0, minInterval), works.1, minInterval), minInterval);
  }

  /** What ends the wait for work: an observation that is added and announced, and uploads being enabled again. What is in the
      store is then sent when a send is due. */
  lemma IdleEnds(s: State, id: nat, works: (Event, Event, Event), minInterval: nat)
    requires works.0.Work? && works.1.Work? && works.2.Work? && works.2.due
    requires s.worker.IdleWaiting? && !s.flags.shutDown
    ensures !s.flags.disabled && IsNew(s.shelf, id) ==>
              StartsSend(Next(Next(s, AddObservation(id), minInterval), Notify(false), minInterval), works, minInterval)
    ensures s.shelf.stored != {} ==> StartsSend(Next(s, Disable(false), minInterval), works, minInterval)
  {
    if !s.flags.disabled && IsNew(s.shelf, id) {
      WokenSends(Next(Next(s, AddObservation(id), minInterval), Notify(false), minInterval), works, minInterval);
    }
    if s.shelf.stored != {} {
      WokenSends(Next(s, Disable(false), minInterval), works, minInterval);
    }
  }

  predicate IsNew(shelf: Shelf, id: nat) { id !in shelf.stored + shelf.inFlight + shelf.sent + shelf.notified }

  /** In every state of every run: a request with a callback that finds the worker idle and the store empty is answered at once, and
      then no callback waits; any other one joins the end of the queue, and nobody is told anything yet. */
  lemma AnsweredAtOnce(events: seq<Event>, before: Before, id: nat, minInterval: nat)
    requires Possible(before)
    ensures var s := Run(events, Started(before), minInterval);
            var s', callback := Next(s, RequestSendSoonWith(id), minInterval), Callback(id, s.shelf.stored + s.shelf.inFlight);
            if s.flags.idle && s.shelf.stored == {}
            then s'.board.invoked == s.board.invoked + [Invocation(callback, true)] && s'.board.queue == []
            else s'.board.invoked == s.board.invoked && s'.board.queue == s.board.queue + [callback]
  {
    Reachable(events, before, minInterval);
  }

  lemma WaitingStep(s: State, e: Event, minInterval: nat)
    requires s.flags.waiting ==> s.worker.ScheduleWaiting?
    ensures Next(s, e, minInterval).flags.waiting ==> Next(s, e, minInterval).worker.ScheduleWaiting?
  {
  }

  /** The flag that says that the worker waits for the schedule is never up at another time. */
  lemma {:induction false} WaitingIsTrue(events: seq<Event>, before: Before, minInterval: nat)
    ensures var s := Run(events, Started(before), minInterval); s.flags.waiting ==> s.worker.ScheduleWaiting?
  {
    if events != [] {
      var front := events[..|events| - 1];
      WaitingIsTrue(front, before, minInterval);
      WaitingStep(Run(front, Started(before), minInterval), events[|events| - 1], minInterval);
    }
  }

  /** After a shutdown a worker that is not sending exits within two steps. */
  lemma ShutDownExits(s: State, first: Event, second: Event, minInterval: nat)
    requires first.Work? && second.Work? && !Sending(s.worker)
    ensures Next(Next(Next(s, ShutDown, minInterval), first, minInterval), second, minInterval).worker == Exited
  {
  }

  // ---------------------------------------------------------------- What a callback is told

  /** How the backend answered the uploads of the latest send, in order. */
  function Answers(events: seq<Event>, s0: State, minInterval: nat): seq<bool> {
    if events == [] then []
    else
      var front, e := events[..|events| - 1], events[|events| - 1];
      var worker, before := Run(front, s0, minInterval).worker, Answers(front, s0, minInterval);
      if e.Work? && worker.SendStart? then []
      else if e.Work? && worker.Uploading? then before + [e.delivered]
      else before
  }

  /** What the worker remembers of the answers while it is sending. */
  predicate Remembers(w: Worker, answers: seq<bool>) {
    && (w.Taking? || w.Uploading? ==> w.failures == SendLoop.TrailingFailures(answers) < 3)
    && (Shipping(w) ==> (w.success <==> SendLoop.AllSucceeded(answers)))
  }

  lemma AllSucceededStep(answers: seq<bool>, ok: bool)
    ensures SendLoop.AllSucceeded(answers + [ok]) <==> SendLoop.AllSucceeded(answers) && ok
  {
    var all := answers + [ok];
    if SendLoop.AllSucceeded(all) {
      assert all[|answers|] && forall i :: 0 <= i < |answers| ==> all[i] == answers[i];
    }
  }

  lemma RemembersStep(s: State, e: Event, minInterval: nat, answers: seq<bool>)
    requires Remembers(s.worker, answers)
    ensures var answers' := if e.Work? && s.worker.SendStart? then []
                            else if e.Work? && s.worker.Uploading? then answers + [e.delivered] else answers;
            Remembers(Next(s, e, minInterval).worker, answers')
  {
    if e.Work? && s.worker.Uploading? {
      SendLoop.TrailingStep(answers, e.delivered);
      AllSucceededStep(answers, e.delivered);
    }
  }

  lemma {:induction false} AlwaysRemembers(events: seq<Event>, before: Before, minInterval: nat)
    ensures Remembers(Run(events, Started(before), minInterval).worker, Answers(events, Started(before), minInterval))
  {
    if events != [] {
      var front := events[..|events| - 1];
      AlwaysRemembers(front, before, minInterval);
      RemembersStep(Run(front, Started(before), minInterval), events[|events| - 1], minInterval, Answers(front, Started(before), minInterval));
    }
  }

  lemma SendEndsStep(s: State, e: Event, minInterval: nat, answers: seq<bool>)
    requires Remembers(s.worker, answers) && e.Work? && (s.worker.Taking? || s.worker.Uploading?)
    ensures Next(s, e, minInterval).worker.SendDone? <==>
              (s.worker.Taking? && s.shelf.stored == {}) ||
              (s.worker.Uploading? && SendLoop.TrailingFailures(answers + [e.delivered]) == 3)
  {
    SendLoop.TrailingStep(answers, e.delivered);
  }

  /** When a send ends: when the worker finds the store empty, or with the third failure in a row and no other. */
  lemma SendEndsWhen(events: seq<Event>, before: Before, minInterval: nat)
    requires events != []
    ensures var s0 := Started(before);
            var s, e, s' := Run(events[..|events| - 1], s0, minInterval), events[|events| - 1], Run(events, s0, minInterval);
            e.Work? && (s.worker.Taking? || s.worker.Uploading?) ==>
              (s'.worker.SendDone? <==>
               (s.worker.Taking? && s.shelf.stored == {}) ||
               (s.worker.Uploading? && SendLoop.TrailingFailures(Answers(events, s0, minInterval)) == 3))
  {
    var front, e := events[..|events| - 1], events[|events| - 1];
    AlwaysRemembers(front, before, minInterval);
    var s := Run(front, Started(before), minInterval);
    if e.Work? && (s.worker.Taking? || s.worker.Uploading?) {
      SendEndsStep(s, e, minInterval, Answers(front, Started(before), minInterval));
    }
  }

  lemma {:induction false} ToldAll(queue: seq<Callback>, success: bool)
    ensures |Told(queue, success)| == |queue|
    ensures forall i :: 0 <= i < |queue| ==> Told(queue, success)[i] == Invocation(queue[i], success)
  {
    if queue != [] {
      ToldAll(queue[1..], success);
    }
  }

  /** What every callback of every run is told, by the step that invokes it. The step that ends a send tells all queued
      callbacks true if and only if the backend took every upload of that send. Other steps tell true: the worker going idle
      for lack of anything that may be sent, and a request that finds the worker idle and the store empty. */
  lemma ToldExactly(events: seq<Event>, before: Before, minInterval: nat, k: nat)
    requires events != []
    requires var s0 := Started(before);
             |Run(events[..|events| - 1], s0, minInterval).board.invoked| <= k < |Run(events, s0, minInterval).board.invoked|
    ensures var s0 := Started(before);
            var front, e := events[..|events| - 1], events[|events| - 1];
            var s, told := Run(front, s0, minInterval), Run(events, s0, minInterval).board.invoked[k];
            && (e.Work? && s.worker.SendDone? ==>
                  && (told.success <==> SendLoop.AllSucceeded(Answers(front, s0, minInterval)))
                  && k - |s.board.invoked| < |s.board.queue| && told.callback == s.board.queue[k - |s.board.invoked|])
            && (!(e.Work? && s.worker.SendDone?) ==>
                  && told.success
                  && ((e.Work? && s.worker.Sleeping? && (s.shelf.stored == {} || s.flags.disabled)) ||
                      (e.RequestSendSoonWith? && s.shelf.stored == {} && s.flags.idle && told.callback.id == e.id)))
  {
    var front, e := events[..|events| - 1], events[|events| - 1];
    var s := Run(front, Started(before), minInterval);
    AlwaysRemembers(front, before, minInterval);
    ToldAll(s.board.queue, true);
    ToldAll(s.board.queue, false);
  }

  /** A callback that the end of a send tells true keeps its promise, that everything pending when it was registered has been
      sent, if and only if none of that was added after the send loop found the store empty. */
  lemma CallbackPromise(events: seq<Event>, before: Before, minInterval: nat, k: nat)
    requires Possible(before) && events != []
    requires var s := Run(events[..|events| - 1], Started(before), minInterval);
             s.worker.SendDone? && events[|events| - 1].Work? &&
             |s.board.invoked| <= k < |Run(events, Started(before), minInterval).board.invoked|
    ensures var s' := Run(events, Started(before), minInterval);
            var told := s'.board.invoked[k];
            told.success ==> (told.callback.pending <= s'.shelf.sent <==> told.callback.pending !! s'.shelf.late)
  {
    var front := events[..|events| - 1];
    var s := Run(front, Started(before), minInterval);
    Reachable(front, before, minInterval);
    AlwaysRemembers(front, before, minInterval);
    ToldExactly(events, before, minInterval, k);
    if s.worker.success {
      PromiseOnShelf(s.shelf, s.board.queue[k - |s.board.invoked|].pending);
    }
  }

  lemma PromiseOnShelf(f: Shelf, pending: set<nat>)
    requires f.stored !! f.sent && f.inFlight == {} && f.stored == f.late && pending <= Known(f)
    ensures pending <= f.sent <==> pending !! f.late
  {
    if pending !! f.late {
      forall x | x in pending ensures x in f.sent { assert x in Known(f); }
    }
  }

  /** Going idle also tells the queued callbacks true. That promise is kept exactly for the callbacks that were registered
      when nothing was stored or in flight. While uploads are enabled no others can be queued; while they are disabled
      every callback with something to wait for is told true in vain. */
  lemma IdleCallbackPromise(events: seq<Event>, before: Before, minInterval: nat, k: nat)
    requires Possible(before) && events != []
    requires var s := Run(events[..|events| - 1], Started(before), minInterval);
             s.worker.Sleeping? && events[|events| - 1].Work? &&
             |s.board.invoked| <= k < |Run(events, Started(before), minInterval).board.invoked|
    ensures var s' := Run(events, Started(before), minInterval);
            var told := s'.board.invoked[k];
            && told.success && (told.callback.pending <= s'.shelf.sent <==> told.callback.pending == {})
            && (!s'.flags.disabled ==> told.callback.pending == {})
  {
    var front := events[..|events| - 1];
    var s := Run(front, Started(before), minInterval);
    Reachable(front, before, minInterval);
    ToldAll(s.board.queue, true);
    NothingSent(s.shelf, s.board.queue[k - |s.board.invoked|].pending);
  }

  lemma NothingSent(f: Shelf, pending: set<nat>)
    requires f.stored !! f.sent && pending <= f.stored
    ensures pending <= f.sent <==> pending == {}
    ensures f.stored == {} ==> pending == {}
  {
    if x :| x in pending {
      assert x !in f.sent;
    }
  }

  /** With uploads disabled: callback 7 waits for observation 1, which was never sent, and is told true. */
  lemma DisabledCallbackToldTrue() returns (events: seq<Event>)
    ensures var s := Run(events, Started(JustOne(true)), 0);
            && s.shelf.stored == {1} && s.shelf.sent == {}
            && s.board.invoked == [Invocation(Callback(7, {1}), true)]
  {
    var s0 := Started(JustOne(true));
    var asked := [RequestSendSoonWith(7)];
    assert asked == [] + [RequestSendSoonWith(7)];
    RunStep([], RequestSendSoonWith(7), s0, 0);
    assert {1} + {} == {1};
    assert Run(asked, s0, 0).board == Board([Callback(7, {1})], [], [Callback(7, {1})]);
    var slept := asked + [WORK];
    RunStep(asked, WORK, s0, 0);
    assert Run(slept, s0, 0).worker == Sleeping(0);
    events := slept + [WORK];
    RunStep(slept, WORK, s0, 0);
    assert Told([Callback(7, {1})], true) == [Invocation(Callback(7, {1}), true)];
    assert Run(events, s0, 0).board == InvokeAll(Run(slept, s0, 0).board, true);
  }

  lemma RunStep(events: seq<Event>, e: Event, s: State, minInterval: nat)
    ensures Run(events + [e], s, minInterval) == Next(Run(events, s, minInterval), e, minInterval)
  {
    assert (events + [e])[..|events|] == events;
  }

  /** A step of the worker in which everything goes well. */
  const WORK: Event := Work(true, false, {1}, true)

  function Works(n: nat): seq<Event> { if n == 0 then [] else Works(n - 1) + [WORK] }

  lemma WorksStep(n: nat, s: State)
    requires 0 < n
    ensures Run(Works(n), s, 0) == Next(Run(Works(n - 1), s, 0), WORK, 0)
  {
    RunStep(Works(n - 1), WORK, s, 0);
  }

  function SendState(worker: Worker, shelf: Shelf): State {
    State(shelf, Flags(false, false, false, false, false), Board([], [], []), Clock(0, NoSends), worker)
  }

  lemma FirstHalf()
    ensures Run(Works(3), Started(JustOne(false)), 0) == SendState(Taking(0, true, 0), Shelf({1}, {}, {}, {1}, {1}))
  {
    var s0 := Started(JustOne(false));
    WorksStep(1, s0);
    WorksStep(2, s0);
    assert Run(Works(2), s0, 0) == SendState(SendStart(0), Shelf({1}, {}, {}, {1}, {1}));
    WorksStep(3, s0);
  }

  lemma TakesOne()
    ensures Next(SendState(Taking(0, true, 0), Shelf({1}, {}, {}, {1}, {1})), WORK, 0) ==
            SendState(Uploading(0, true, 0, {1}), Shelf({}, {1}, {}, {1}, {1}))
  {
    assert {1} - {1} == {};
  }

  lemma DeliversOne()
    ensures Next(SendState(Uploading(0, true, 0, {1}), Shelf({}, {1}, {}, {1}, {1})), WORK, 0) ==
            SendState(Taking(0, true, 0), Shelf({}, {}, {1}, {1}, {1}))
  {
    assert {} + {1} == {1};
  }

  lemma FindsNone()
    ensures Next(SendState(Taking(0, true, 0), Shelf({}, {}, {1}, {1}, {1})), WORK, 0) ==
            SendState(SendDone(0, true), Shelf({}, {}, {1}, {1}, {}))
  {
  }

  lemma SecondHalf()
    ensures Run(Works(6), Started(JustOne(false)), 0) == SendState(SendDone(0, true), Shelf({}, {}, {1}, {1}, {}))
  {
    var s0 := Started(JustOne(false));
    FirstHalf();
    WorksStep(4, s0);
    TakesOne();
    WorksStep(5, s0);
    DeliversOne();
    WorksStep(6, s0);
    FindsNone();
  }

  /** An observation arrives between the last look at the store and the invocation of the callbacks. */
  lemma AddsSecond()
    ensures Next(SendState(SendDone(0, true), Shelf({}, {}, {1}, {1}, {})), AddObservation(2), 0) ==
            SendState(SendDone(0, true), Shelf({2}, {}, {1}, {1}, {2}))
  {
    assert {} + {2} == {2};
  }

  /** And a callback that waits for it. */
  lemma AsksForSecond()
    ensures var s := Next(SendState(SendDone(0, true), Shelf({2}, {}, {1}, {1}, {2})), RequestSendSoonWith(7), 0);
            && s.worker == SendDone(0, true) && s.shelf == Shelf({2}, {}, {1}, {1}, {2})
            && s.board == Board([Callback(7, {2})], [], [Callback(7, {2})])
  {
    assert {2} + {} == {2};
  }

  lemma TellsSecond(s: State)
    requires s.worker == SendDone(0, true) && s.board == Board([Callback(7, {2})], [], [Callback(7, {2})])
    ensures Next(s, WORK, 0).shelf == s.shelf && Next(s, WORK, 0).board.invoked == [Invocation(Callback(7, {2}), true)]
  {
    assert Told([Callback(7, {2})], true) == [Invocation(Callback(7, {2}), true)];
  }

  /** The broken promise can happen: callback 7 waits for observation 2, which is still in the store, and is told true. */
  lemma CallbackToldTooEarly() returns (events: seq<Event>)
    ensures var s := Run(events, Started(JustOne(false)), 0);
            && s.shelf.stored == {2}
            && s.board.invoked == [Invocation(Callback(7, {2}), true)]
  {
    var s0 := Started(JustOne(false));
    SecondHalf();
    var added := Works(6) + [AddObservation(2)];
    RunStep(Works(6), AddObservation(2), s0, 0);
    AddsSecond();
    var asked := added + [RequestSendSoonWith(7)];
    RunStep(added, RequestSendSoonWith(7), s0, 0);
    AsksForSecond();
    events := asked + [WORK];
    RunStep(asked, WORK, s0, 0);
    TellsSecond(Run(asked, s0, 0));
  }
}
