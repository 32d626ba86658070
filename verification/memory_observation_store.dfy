/** MemoryObservationStore: a current envelope, a queue of finalized ones, and byte accounting
    (memory_observation_store.cc). Holders are taken out of the store, returned to it, or discarded. */
module MemoryObservationStore {
  import opened Common
  import opened EnvelopeMaker

  datatype Limits = Limits(maxObservation: nat, maxEnvelope: nat, maxTotal: nat)

  datatype Store = Store(current: Envelope, finalized: seq<Envelope>, finalizedSize: nat)

  function StoreSize(st: Store): nat { st.current.numBytes + st.finalizedSize }

  /** AddEnvelopeToSend, at the back of the queue. */
  function AddEnvelopeToSend(st: Store, e: Envelope): Store {
    st.(finalized := st.finalized + [e], finalizedSize := st.finalizedSize + e.numBytes)
  }

  /** StoreObservation of an enabled store. */
  function StoreStep(st: Store, item: Item, limits: Limits): (Store, StoreStatus) {
    if limits.maxTotal < StoreSize(st) then (st, StoreFull)
    else
      var full := CanAddObservation(st.current, item.observation, limits.maxObservation, limits.maxEnvelope) == StoreFull;
      var st1 := if full then AddEnvelopeToSend(st, st.current).(current := EMPTY) else st;
      var status := CanAddObservation(st1.current, item.observation, limits.maxObservation, limits.maxEnvelope);
      if status != StoredOk then (st1, status) else (st1.(current := Add(st1.current, item)), StoredOk)
  }

  /** The clamped subtraction of TakeOldestEnvelopeHolderLocked. */
  function Clamped(total: nat, part: nat): nat { if total < part then 0 else total - part }

  /** TakeOldestEnvelopeHolderLocked. */
  function DropOldest(st: Store): Store
    requires st.finalized != []
  {
    st.(finalized := st.finalized[1..], finalizedSize := Clamped(st.finalizedSize, st.finalized[0].numBytes))
  }

  predicate Takes(taken: Envelope, st: Store, maxEnvelope: nat) {
    st.finalized != [] && (taken.numBytes == 0 || taken.numBytes + st.finalized[0].numBytes <= maxEnvelope)
  }

  /** The merging loop of TakeNextEnvelopeHolder. */
  function TakeFinalized(taken: Envelope, st: Store, maxEnvelope: nat): (Envelope, Store)
    decreases |st.finalized|
  {
    if !Takes(taken, st, maxEnvelope) then (taken, st)
    else TakeFinalized(Merge(taken, st.finalized[0]), DropOldest(st), maxEnvelope)
  }

  function TakeAll(st: Store, limits: Limits): (Envelope, Store) {
    var (taken, rest) := TakeFinalized(EMPTY, st, limits.maxEnvelope);
    if taken.numBytes + rest.current.numBytes <= limits.maxEnvelope
    then (Merge(taken, rest.current), rest.(current := EMPTY))
    else (taken, rest)
  }

  /** TakeNextEnvelopeHolder. */
  function TakeNext(st: Store, limits: Limits): (Option<Envelope>, Store) {
    var (taken, rest) := TakeAll(st, limits);
    (if taken.numBytes == 0 then None else Some(taken), rest)
  }

  // ---------------------------------------------------------------- What the store holds

  function CountAll(es: seq<Envelope>, item: Item): nat {
    if es == [] then 0 else Count(es[0].batches, item) + CountAll(es[1..], item)
  }

  function SizeAll(es: seq<Envelope>): nat {
    if es == [] then 0 else es[0].numBytes + SizeAll(es[1..])
  }

  function Holds(st: Store, item: Item): nat { Count(st.current.batches, item) + CountAll(st.finalized, item) }

  lemma {:induction false} CountAllAppend(a: seq<Envelope>, b: seq<Envelope>, item: Item)
    ensures CountAll(a + b, item) == CountAll(a, item) + CountAll(b, item)
    ensures SizeAll(a + b) == SizeAll(a) + SizeAll(b)
  {
    if a == [] {
      assert a + b == b;
    } else {
      assert (a + b)[0] == a[0] && (a + b)[1..] == a[1..] + b;
      CountAllAppend(a[1..], b, item);
    }
  }

  /** An envelope as the store makes them: accounted for and within the limit. */
  ghost predicate Fit(e: Envelope, limits: Limits) {
    Sound(e) && e.numBytes <= limits.maxEnvelope
  }

  ghost predicate AllFit(es: seq<Envelope>, limits: Limits) {
    forall i :: 0 <= i < |es| ==> Fit(es[i], limits) && 0 < es[i].numBytes
  }

  ghost predicate Valid(st: Store, limits: Limits) {
    Fit(st.current, limits) && AllFit(st.finalized, limits) && st.finalizedSize == SizeAll(st.finalized)
  }

  predicate Empty(st: Store) { st.current.batches == map[] && st.finalized == [] }

  /** A store of size 0 has at most observations of size 0, all in the current envelope. */
  lemma SizeZero(st: Store, limits: Limits)
    requires Valid(st, limits)
    ensures StoreSize(st) == 0 <==> st.current.numBytes == 0 && st.finalized == []
  {
    if st.finalized != [] {
      assert 0 < st.finalized[0].numBytes;
    }
  }

  lemma EmptyFits(limits: Limits)
    ensures Fit(EMPTY, limits)
  {
    EmptySize();
  }

  lemma AddFits(e: Envelope, item: Item, limits: Limits)
    requires Fit(e, limits) && e.numBytes + item.observation.size <= limits.maxEnvelope
    ensures Fit(Add(e, item), limits)
  {
    AddSound(e, item);
  }

  lemma QueueKeepsValid(st: Store, e: Envelope, limits: Limits)
    requires Valid(st, limits) && Fit(e, limits) && 0 < e.numBytes
    ensures Valid(AddEnvelopeToSend(st, e), limits)
  {
    CountAllAppend(st.finalized, [e], Item("", StoredObservation(0, 0)));
    assert SizeAll([e]) == e.numBytes + SizeAll([e][1..]);
  }

  lemma StoreKeepsValid(st: Store, item: Item, limits: Limits)
    requires Valid(st, limits) && limits.maxObservation <= limits.maxEnvelope
    ensures Valid(StoreStep(st, item, limits).0, limits)
  {
    var o := item.observation;
    EmptyFits(limits);
    if o.size <= limits.maxObservation {
      if limits.maxEnvelope < st.current.numBytes + o.size {
        QueueKeepsValid(st, st.current, limits);
        AddFits(EMPTY, item, limits);
      } else {
        AddFits(st.current, item, limits);
      }
    }
  }

  /** A stored observation is in the store once more than before; a refused one leaves everything as it was. */
  lemma StoreCounts(st: Store, item: Item, limits: Limits, other: Item)
    ensures Holds(StoreStep(st, item, limits).0, other) ==
            Holds(st, other) + if StoreStep(st, item, limits).1 == StoredOk && other == item then 1 else 0
  {
    CountAllAppend(st.finalized, [st.current], other);
    assert CountAll([st.current], other) == Count(st.current.batches, other) + CountAll([st.current][1..], other);
    AddCounts(st.current, item, other);
    AddCounts(EMPTY, item, other);
  }

  lemma {:induction false} TakeFinalizedKeeps(taken: Envelope, st: Store, limits: Limits)
    requires Fit(taken, limits) && Valid(st, limits)
    ensures var (taken', st') := TakeFinalized(taken, st, limits.maxEnvelope);
            Fit(taken', limits) && Valid(st', limits) && (taken'.numBytes == 0 ==> st'.finalized == [])
    decreases |st.finalized|
  {
    if Takes(taken, st, limits.maxEnvelope) {
      MergeSound(taken, st.finalized[0]);
      assert AllFit(st.finalized[1..], limits);
      TakeFinalizedKeeps(Merge(taken, st.finalized[0]), DropOldest(st), limits);
    }
  }

  lemma {:induction false} TakeFinalizedCounts(taken: Envelope, st: Store, maxEnvelope: nat, item: Item)
    ensures var (taken', st') := TakeFinalized(taken, st, maxEnvelope);
            Count(taken'.batches, item) + Holds(st', item) == Count(taken.batches, item) + Holds(st, item)
    decreases |st.finalized|
  {
    if Takes(taken, st, maxEnvelope) {
      MergeCounts(taken.batches, st.finalized[0].batches, item);
      TakeFinalizedCounts(Merge(taken, st.finalized[0]), DropOldest(st), maxEnvelope, item);
    }
  }

  /** Taking a holder: it is within the limit and not empty, and there is none exactly when the store has size 0. */
  lemma TakeKeepsValid(st: Store, limits: Limits)
    requires Valid(st, limits)
    ensures var (holder, st') := TakeNext(st, limits);
            && Valid(st', limits)
            && (holder.Some? ==> Fit(holder.value, limits) && 0 < holder.value.numBytes)
            && (holder.None? <==> StoreSize(st) == 0)
  {
    EmptyFits(limits);
    TakeFinalizedKeeps(EMPTY, st, limits);
    var (taken, rest) := TakeFinalized(EMPTY, st, limits.maxEnvelope);
    MergeSound(taken, rest.current);
    SizeZero(st, limits);
    CurrentKept(EMPTY, st, limits.maxEnvelope);
  }

  /** If the current envelope holds only observations of positive size, there is no holder exactly when the store is
      empty. */
  lemma NoneIffEmpty(st: Store, limits: Limits)
    requires Valid(st, limits) && PositiveSizes(st.current.batches)
    ensures TakeNext(st, limits).0.None? <==> Empty(st)
  {
    TakeKeepsValid(st, limits);
    SizeZero(st, limits);
    ZeroMeansEmpty(st.current);
  }

  lemma {:induction false} CurrentKept(taken: Envelope, st: Store, maxEnvelope: nat)
    ensures TakeFinalized(taken, st, maxEnvelope).1.current == st.current
    ensures taken.numBytes <= TakeFinalized(taken, st, maxEnvelope).0.numBytes
    ensures taken.numBytes == 0 && st.finalized != [] ==>
              st.finalized[0].numBytes <= TakeFinalized(taken, st, maxEnvelope).0.numBytes
    decreases |st.finalized|
  {
    if Takes(taken, st, maxEnvelope) {
      CurrentKept(Merge(taken, st.finalized[0]), DropOldest(st), maxEnvelope);
    }
  }

  lemma TakeAllCounts(st: Store, limits: Limits, item: Item)
    ensures var (taken, st') := TakeAll(st, limits);
            Count(taken.batches, item) + Holds(st', item) == Holds(st, item)
  {
    TakeFinalizedCounts(EMPTY, st, limits.maxEnvelope, item);
    var (taken, rest) := TakeFinalized(EMPTY, st, limits.maxEnvelope);
    MergeCounts(taken.batches, rest.current.batches, item);
  }

  /** An envelope of size 0 holds observations of size 0 only. */
  lemma WeightlessItems(e: Envelope, item: Item)
    requires Sound(e) && e.numBytes == 0 && 0 < Count(e.batches, item)
    ensures item.observation.size == 0
  {
    SizeSplit(e.batches, item.metadata);
    MemberSize(e.batches[item.metadata], item.observation);
  }

  lemma {:induction false} MemberSize(s: seq<StoredObservation>, o: StoredObservation)
    requires o in multiset(s)
    ensures o.size <= SeqSize(s)
  {
    var front := s[..|s| - 1];
    assert s == front + [s[|s| - 1]];
    if s[|s| - 1] != o {
      assert o in multiset(front);
      MemberSize(front, o);
    }
  }

  /** Taking moves observations from the store to the holder. If there is no holder, observations of size 0 are gone. */
  lemma TakeCounts(st: Store, limits: Limits, item: Item)
    requires Valid(st, limits)
    ensures var (holder, st') := TakeNext(st, limits);
            && Holds(st', item) + (if holder.Some? then Count(holder.value.batches, item) else 0) <= Holds(st, item)
            && (holder.Some? || 0 < item.observation.size ==>
                  Holds(st, item) == Holds(st', item) + if holder.Some? then Count(holder.value.batches, item) else 0)
  {
    TakeAllCounts(st, limits, item);
    TakenFits(st, limits);
    var (taken, rest) := TakeAll(st, limits);
    if taken.numBytes == 0 && 0 < Count(taken.batches, item) {
      WeightlessItems(taken, item);
    }
  }

  // ---------------------------------------------------------------- Whole runs

  datatype Op = StoreItem(item: Item) | Take | Return(index: nat) | Discard(index: nat) | SetDisabled(disabled: bool)

  /** The store with the holders taken from it, those that were dropped after use, and what Take dropped itself because
      it had size 0. */
  datatype System = System(
    store: Store,
    disabled: bool,
    outstanding: seq<Envelope>,
    discarded: seq<Envelope>,
    lost: seq<Envelope>,
    accepted: seq<Item>)

  function Without(es: seq<Envelope>, i: nat): seq<Envelope>
    requires i < |es|
  {
    es[..i] + es[i + 1..]
  }

  /** What was taken goes to a holder, or is dropped if it has size 0. */
  function HandOut(sys: System, taken: Envelope, st: Store): System {
    if taken.numBytes == 0 then sys.(store := st, lost := sys.lost + [taken])
    else sys.(store := st, outstanding := sys.outstanding + [taken])
  }

  function Apply(sys: System, op: Op, limits: Limits): System {
    match op
    case StoreItem(item) =>
      if sys.disabled then sys
      else
        var (st, status) := StoreStep(sys.store, item, limits);
        sys.(store := st, accepted := if status == StoredOk then sys.accepted + [item] else sys.accepted)
    case Take =>
      var (taken, st) := TakeAll(sys.store, limits);
      HandOut(sys, taken, st)
    case Return(i) =>
      if |sys.outstanding| <= i then sys
      else sys.(store := AddEnvelopeToSend(sys.store, sys.outstanding[i]), outstanding := Without(sys.outstanding, i))
    case Discard(i) =>
      if |sys.outstanding| <= i then sys
      else sys.(discarded := sys.discarded + [sys.outstanding[i]], outstanding := Without(sys.outstanding, i))
    case SetDisabled(d) => sys.(disabled := d)
  }

  function Run(ops: seq<Op>, limits: Limits): System {
    if ops == [] then System(Store(EMPTY, [], 0), false, [], [], [], [])
    else Apply(Run(ops[..|ops| - 1], limits), ops[|ops| - 1], limits)
  }

  ghost predicate ValidSystem(sys: System, limits: Limits) {
    && Valid(sys.store, limits)
    && AllFit(sys.outstanding, limits)
    && AllFit(sys.discarded, limits)
    && Weightless(sys.lost)
  }

  ghost predicate Weightless(es: seq<Envelope>) { forall i :: 0 <= i < |es| ==> Sound(es[i]) && es[i].numBytes == 0 }

  predicate Conserved(sys: System, item: Item) {
    multiset(sys.accepted)[item] ==
    Holds(sys.store, item) + CountAll(sys.outstanding, item) + CountAll(sys.discarded, item) + CountAll(sys.lost, item)
  }

  lemma {:induction false} CountWithout(es: seq<Envelope>, i: nat, item: Item)
    requires i < |es|
    ensures CountAll(es, item) == Count(es[i].batches, item) + CountAll(Without(es, i), item)
    ensures SizeAll(es) == es[i].numBytes + SizeAll(Without(es, i))
  {
    CountAllAppend(es[..i], es[i..], item);
    CountAllAppend(es[..i], es[i + 1..], item);
    assert es[..i] + es[i..] == es;
    assert es[i..][0] == es[i] && es[i..][1..] == es[i + 1..];
  }

  lemma FitWithout(es: seq<Envelope>, i: nat, limits: Limits)
    requires AllFit(es, limits) && i < |es|
    ensures AllFit(Without(es, i), limits)
  {
    var rest := Without(es, i);
    forall j | 0 <= j < |rest| ensures Fit(rest[j], limits) && 0 < rest[j].numBytes {
      assert rest[j] == es[if j < i then j else j + 1];
    }
  }

  lemma HandOutValid(sys: System, taken: Envelope, st: Store, limits: Limits)
    requires ValidSystem(sys, limits) && Valid(st, limits) && Fit(taken, limits)
    ensures ValidSystem(HandOut(sys, taken, st), limits)
  {
  }

  lemma HandOutConserves(sys: System, taken: Envelope, st: Store, item: Item)
    requires Conserved(sys, item) && Count(taken.batches, item) + Holds(st, item) == Holds(sys.store, item)
    ensures Conserved(HandOut(sys, taken, st), item)
  {
    Appended(sys.outstanding, taken, item);
    Appended(sys.lost, taken, item);
  }

  lemma TakenFits(st: Store, limits: Limits)
    requires Valid(st, limits)
    ensures Fit(TakeAll(st, limits).0, limits) && Valid(TakeAll(st, limits).1, limits)
  {
    EmptyFits(limits);
    TakeFinalizedKeeps(EMPTY, st, limits);
    var (taken, rest) := TakeFinalized(EMPTY, st, limits.maxEnvelope);
    MergeSound(taken, rest.current);
  }

  lemma StoreItemValid(sys: System, item: Item, limits: Limits)
    requires ValidSystem(sys, limits) && limits.maxObservation <= limits.maxEnvelope
    ensures ValidSystem(Apply(sys, StoreItem(item), limits), limits)
  {
    StoreKeepsValid(sys.store, item, limits);
  }

  lemma TakeValid(sys: System, limits: Limits)
    requires ValidSystem(sys, limits)
    ensures ValidSystem(Apply(sys, Take, limits), limits)
  {
    TakenFits(sys.store, limits);
    HandOutValid(sys, TakeAll(sys.store, limits).0, TakeAll(sys.store, limits).1, limits);
  }

  lemma ReturnValid(sys: System, i: nat, limits: Limits)
    requires ValidSystem(sys, limits)
    ensures ValidSystem(Apply(sys, Return(i), limits), limits)
  {
    if i < |sys.outstanding| {
      FitWithout(sys.outstanding, i, limits);
      QueueKeepsValid(sys.store, sys.outstanding[i], limits);
    }
  }

  lemma DiscardValid(sys: System, i: nat, limits: Limits)
    requires ValidSystem(sys, limits)
    ensures ValidSystem(Apply(sys, Discard(i), limits), limits)
  {
    if i < |sys.outstanding| {
      FitWithout(sys.outstanding, i, limits);
    }
  }

  lemma StepKeepsValid(sys: System, op: Op, limits: Limits)
    requires ValidSystem(sys, limits) && limits.maxObservation <= limits.maxEnvelope
    ensures ValidSystem(Apply(sys, op, limits), limits)
  {
    match op {
      case StoreItem(item) => StoreItemValid(sys, item, limits);
      case Take => TakeValid(sys, limits);
      case Return(i) => ReturnValid(sys, i, limits);
      case Discard(i) => DiscardValid(sys, i, limits);
      case SetDisabled(_) =>
    }
  }

  lemma StepConserves(sys: System, op: Op, limits: Limits, item: Item)
    requires Conserved(sys, item)
    ensures Conserved(Apply(sys, op, limits), item)
  {
    match op {
      case StoreItem(i) => StoreCounts(sys.store, i, limits, item);
      case Take =>
        TakeAllCounts(sys.store, limits, item);
        HandOutConserves(sys, TakeAll(sys.store, limits).0, TakeAll(sys.store, limits).1, item);
      case Return(i) =>
        if i < |sys.outstanding| {
          CountWithout(sys.outstanding, i, item);
          Appended(sys.store.finalized, sys.outstanding[i], item);
        }
      case Discard(i) =>
        if i < |sys.outstanding| {
          CountWithout(sys.outstanding, i, item);
          Appended(sys.discarded, sys.outstanding[i], item);
        }
      case SetDisabled(_) =>
    }
  }

  lemma Appended(es: seq<Envelope>, e: Envelope, item: Item)
    ensures CountAll(es + [e], item) == CountAll(es, item) + Count(e.batches, item)
  {
    CountAllAppend(es, [e], item);
    assert CountAll([e], item) == Count(e.batches, item) + CountAll([e][1..], item);
  }

  /** Over every run of storing, taking, returning and discarding, the accepted observations are exactly those in the
      store, in outstanding holders, in discarded ones, and those of size 0 that Take dropped; every tracked size is the
      sum of the sizes it stands for; and every holder handed out is within the limit. */
  lemma {:induction false} RunConserves(ops: seq<Op>, limits: Limits, item: Item)
    requires limits.maxObservation <= limits.maxEnvelope
    ensures ValidSystem(Run(ops, limits), limits) && Conserved(Run(ops, limits), item)
    ensures 0 < item.observation.size ==> CountAll(Run(ops, limits).lost, item) == 0
  {
    if ops == [] {
      EmptySize();
    } else {
      var front := ops[..|ops| - 1];
      RunConserves(front, limits, item);
      StepKeepsValid(Run(front, limits), ops[|ops| - 1], limits);
      StepConserves(Run(front, limits), ops[|ops| - 1], limits, item);
      WeightlessOnly(Run(ops, limits).lost, item);
    }
  }

  lemma {:induction false} WeightlessOnly(es: seq<Envelope>, item: Item)
    requires Weightless(es)
    ensures 0 < item.observation.size ==> CountAll(es, item) == 0
  {
    if es != [] {
      WeightlessOnly(es[1..], item);
      if 0 < Count(es[0].batches, item) {
        WeightlessItems(es[0], item);
      }
    }
  }

  lemma {:induction false} CurrentIsPositive(ops: seq<Op>, limits: Limits)
    requires forall i :: 0 <= i < |ops| && ops[i].StoreItem? ==> 0 < ops[i].item.observation.size
    ensures PositiveSizes(Run(ops, limits).store.current.batches)
  {
    if ops != [] {
      var front, op := ops[..|ops| - 1], ops[|ops| - 1];
      CurrentIsPositive(front, limits);
      CurrentKept(EMPTY, Run(front, limits).store, limits.maxEnvelope);
    }
  }

  /** In a run that stores only observations of positive size, Take returns null exactly when the store is empty. */
  lemma NullExactlyWhenEmpty(ops: seq<Op>, limits: Limits)
    requires limits.maxObservation <= limits.maxEnvelope
    requires forall i :: 0 <= i < |ops| && ops[i].StoreItem? ==> 0 < ops[i].item.observation.size
    ensures TakeNext(Run(ops, limits).store, limits).0.None? <==> Empty(Run(ops, limits).store)
  {
    RunConserves(ops, limits, Item("", StoredObservation(0, 0)));
    CurrentIsPositive(ops, limits);
    NoneIffEmpty(Run(ops, limits).store, limits);
  }

  // ---------------------------------------------------------------- Accepting and refusing

  /** The sizes of everything that is in the store. */
  ghost function HeldBytes(st: Store): nat { Size(st.current.batches) + HeldIn(st.finalized) }

  ghost function HeldIn(es: seq<Envelope>): nat {
    if es == [] then 0 else Size(es[0].batches) + HeldIn(es[1..])
  }

  lemma {:induction false} HeldIsTracked(es: seq<Envelope>, limits: Limits)
    requires AllFit(es, limits)
    ensures HeldIn(es) == SizeAll(es)
  {
    if es != [] {
      HeldIsTracked(es[1..], limits);
    }
  }

  /** In every state of every run, which observations are accepted: those that are not too big themselves, while the store
      holds no more than its limit. What the store holds now counts, not what it would hold. */
  lemma AcceptedExactly(ops: seq<Op>, limits: Limits, item: Item)
    requires limits.maxObservation <= limits.maxEnvelope
    ensures var st := Run(ops, limits).store;
            var status := StoreStep(st, item, limits).1;
            && (status == StoreFull <==> limits.maxTotal < HeldBytes(st))
            && (status == ObservationTooBig <==> HeldBytes(st) <= limits.maxTotal && limits.maxObservation < item.observation.size)
            && (status == StoredOk <==> HeldBytes(st) <= limits.maxTotal && item.observation.size <= limits.maxObservation)
  {
    RunConserves(ops, limits, item);
    HeldIsTracked(Run(ops, limits).store.finalized, limits);
  }

  /** Where an accepted observation goes: to the end of its batch in the current envelope if that has room for it; else the
      current envelope is finalized first, and the observation is alone in a new one. A refused one changes nothing. */
  lemma StoredWhere(st: Store, item: Item, limits: Limits)
    requires Valid(st, limits) && limits.maxObservation <= limits.maxEnvelope
    ensures var (st', status) := StoreStep(st, item, limits);
            && (status != StoredOk ==> st' == st)
            && (status == StoredOk && Size(st.current.batches) + item.observation.size <= limits.maxEnvelope ==>
                  && st'.finalized == st.finalized && item.metadata in st'.current.batches
                  && st'.current.batches[item.metadata] == BatchOf(st.current.batches, item.metadata) + [item.observation]
                  && forall m :: m != item.metadata ==> (m in st'.current.batches <==> m in st.current.batches)
                                                        && BatchOf(st'.current.batches, m) == BatchOf(st.current.batches, m))
            && (status == StoredOk && limits.maxEnvelope < Size(st.current.batches) + item.observation.size ==>
                  && st'.finalized == st.finalized + [st.current]
                  && st'.current.batches == map[item.metadata := [item.observation]])
  {
    assert Add(EMPTY, item).batches == map[item.metadata := [item.observation]] by {
      assert [] + [item.observation] == [item.observation];
    }
  }

  // ---------------------------------------------------------------- What a holder is made of

  lemma {:induction false} TakesPrefix(taken: Envelope, st: Store, limits: Limits) returns (k: nat)
    requires Valid(st, limits)
    ensures k <= |st.finalized| && (taken.numBytes == 0 && st.finalized != [] ==> 0 < k)
    ensures var (taken', st') := TakeFinalized(taken, st, limits.maxEnvelope);
            && st'.finalized == st.finalized[k..] && st'.current == st.current
            && taken'.numBytes == taken.numBytes + SizeAll(st.finalized[..k])
            && (k < |st.finalized| ==> limits.maxEnvelope < taken'.numBytes + st.finalized[k].numBytes)
            && (0 < k && (0 < taken.numBytes || 1 < k) ==> taken'.numBytes <= limits.maxEnvelope)
    decreases |st.finalized|
  {
    k := 0;
    if Takes(taken, st, limits.maxEnvelope) {
      assert AllFit(st.finalized[1..], limits) && 0 < st.finalized[0].numBytes;
      var rest := TakesPrefix(Merge(taken, st.finalized[0]), DropOldest(st), limits);
      k := rest + 1;
      assert st.finalized[..k][0] == st.finalized[0] && st.finalized[..k][1..] == st.finalized[1..][..rest];
      assert st.finalized[1..][rest..] == st.finalized[k..];
    }
  }

  /** A holder is made of the k oldest finalized envelopes, at least one if there is any, and stops only before one that does
      not fit with them any more; the current envelope is added if it still fits, and otherwise stays. */
  lemma TakenExactly(st: Store, limits: Limits) returns (k: nat)
    requires Valid(st, limits)
    ensures k <= |st.finalized| && (st.finalized != [] ==> 0 < k)
    ensures var (taken, st') := TakeAll(st, limits);
            var oldest := SizeAll(st.finalized[..k]);
            && st'.finalized == st.finalized[k..]
            && (k < |st.finalized| ==> limits.maxEnvelope < oldest + st.finalized[k].numBytes)
            && (oldest + st.current.numBytes <= limits.maxEnvelope ==> st'.current == EMPTY && taken.numBytes == oldest + st.current.numBytes)
            && (limits.maxEnvelope < oldest + st.current.numBytes ==> st'.current == st.current && taken.numBytes == oldest)
  {
    k := TakesPrefix(EMPTY, st, limits);
  }

  // ---------------------------------------------------------------- Observations of size zero

  lemma {:induction false} TakesZeros(taken: Envelope, st: Store, maxEnvelope: nat)
    ensures TakeFinalized(taken, st, maxEnvelope).0.numBytes == 0 ==>
              taken.numBytes == 0 && SizeAll(st.finalized) == 0 && TakeFinalized(taken, st, maxEnvelope).1.finalized == []
    ensures taken.numBytes == 0 && SizeAll(st.finalized) == 0 ==> TakeFinalized(taken, st, maxEnvelope).0.numBytes == 0
    decreases |st.finalized|
  {
    if Takes(taken, st, maxEnvelope) {
      TakesZeros(Merge(taken, st.finalized[0]), DropOldest(st), maxEnvelope);
    }
  }

  predicate TakeLoses(st: Store, limits: Limits, item: Item) {
    var (holder, st') := TakeNext(st, limits);
    Holds(st, item) != Holds(st', item) + if holder.Some? then Count(holder.value.batches, item) else 0
  }

  lemma TakenSize(st: Store, limits: Limits)
    requires st.current.numBytes <= limits.maxEnvelope
    ensures var (taken, st') := TakeAll(st, limits);
            taken.numBytes == 0 <==> st.current.numBytes + SizeAll(st.finalized) == 0
    ensures var (taken, st') := TakeAll(st, limits);
            taken.numBytes == 0 ==> st'.finalized == [] && st'.current == EMPTY
  {
    TakesZeros(EMPTY, st, limits.maxEnvelope);
    CurrentKept(EMPTY, st, limits.maxEnvelope);
  }

  /** Without the promise that sizes are positive: taking loses an observation if and only if the store holds it and
      everything the store holds has size zero, because the merged holder is then dropped as empty. */
  lemma TakeLosesExactly(st: Store, limits: Limits, item: Item)
    requires st.current.numBytes <= limits.maxEnvelope
    ensures TakeLoses(st, limits, item) <==>
            st.current.numBytes + SizeAll(st.finalized) == 0 && 0 < Holds(st, item)
  {
    TakeAllCounts(st, limits, item);
    TakenSize(st, limits);
  }

  lemma StoreFirst(item: Item, limits: Limits)
    requires item.observation.size == 0
    ensures StoreStep(Store(EMPTY, [], 0), item, limits) == (Store(Add(EMPTY, item), [], 0), StoredOk)
    ensures Add(EMPTY, item).numBytes == 0 && Count(Add(EMPTY, item).batches, item) == 1
  {
    AddCounts(EMPTY, item, item);
  }

  lemma TakeCurrent(st: Store, limits: Limits, item: Item)
    requires st.current.numBytes == 0 && st.finalized == []
    ensures var (taken, st') := TakeAll(st, limits);
            taken.numBytes == 0 && st' == st.(current := EMPTY) && Count(taken.batches, item) == Count(st.current.batches, item)
  {
    TakeAllCounts(st, limits, item);
    assert TakeFinalized(EMPTY, st, limits.maxEnvelope) == (EMPTY, st);
  }

  lemma RunMore(ops: seq<Op>, op: Op, limits: Limits)
    ensures Run(ops + [op], limits) == Apply(Run(ops, limits), op, limits)
  {
    assert (ops + [op])[..|ops|] == ops;
  }

  /** An observation of size 0 is accepted, and the next Take drops it: it is in no holder and not in the store. */
  lemma ZeroSizeIsLost(limits: Limits, item: Item)
    requires item.observation.size == 0
    ensures var stored := Run([] + [StoreItem(item)], limits);
            var taken := Run([] + [StoreItem(item)] + [Take], limits);
            && stored.accepted == [item] && Holds(stored.store, item) == 1
            && taken.outstanding == [] && taken.discarded == [] && Empty(taken.store) && CountAll(taken.lost, item) == 1
  {
    RunMore([], StoreItem(item), limits);
    RunMore([] + [StoreItem(item)], Take, limits);
    StoreFirst(item, limits);
    var st := Store(Add(EMPTY, item), [], 0);
    TakeCurrent(st, limits, item);
    Appended([], TakeAll(st, limits).0, item);
  }

  /** The step from the merged finalized envelopes to the holder. */
  lemma TakeNextFrom(st: Store, taken: Envelope, rest: Store, limits: Limits)
    requires (taken, rest) == TakeFinalized(EMPTY, st, limits.maxEnvelope)
    ensures TakeNext(st, limits) ==
            if taken.numBytes + rest.current.numBytes <= limits.maxEnvelope then
              var all := Merge(taken, rest.current);
              (if all.numBytes == 0 then None else Some(all), rest.(current := EMPTY))
            else (if taken.numBytes == 0 then None else Some(taken), rest)
  {
  }

  // ---------------------------------------------------------------- The class

  class MemoryStore {
    var current: Envelope
    var finalized: seq<Envelope>
    var finalizedSize: nat
    var disabled: bool
    const limits: Limits

    ghost function Value(): Store
      reads this
    {
      Store(current, finalized, finalizedSize)
    }

    ghost predicate Ok()
      reads this
    {
      limits.maxObservation <= limits.maxEnvelope && Valid(Value(), limits)
    }

    constructor (limits: Limits)
      requires limits.maxObservation <= limits.maxEnvelope
      ensures this.limits == limits && Value() == Store(EMPTY, [], 0) && !disabled && Ok()
    {
      this.limits := limits;
      current, finalized, finalizedSize, disabled := EMPTY, [], 0, false;
      new;
      EmptySize();
    }

    method StoreObservation(item: Item) returns (status: StoreStatus)
      requires Ok()
      modifies this`current, this`finalized, this`finalizedSize
      ensures Ok()
      ensures (Value(), status) ==
              if disabled then (old(Value()), StoredOk)
              else StoreStep(old(Value()), item, limits)
    {
      if disabled {
        return StoredOk;
      }
      if limits.maxTotal < current.numBytes + finalizedSize {
        return StoreFull;
      }
      StoreKeepsValid(Value(), item, limits);
      var peek := CanAddObservation(current, item.observation, limits.maxObservation, limits.maxEnvelope);
      if peek == StoreFull {
        finalizedSize := finalizedSize + current.numBytes;
        finalized := finalized + [current];
        current := EMPTY;
      }
      status := CanAddObservation(current, item.observation, limits.maxObservation, limits.maxEnvelope);
      if status == StoredOk {
        current := Add(current, item);
      }
    }

    /** TakeOldestEnvelopeHolderLocked: the branch that clamps the size to 0 is never taken. */
    method TakeOldest() returns (e: Envelope)
      requires Ok() && finalized != []
      modifies this`finalized, this`finalizedSize
      ensures Ok() && e == old(finalized)[0] && Value() == DropOldest(old(Value()))
      ensures finalizedSize == old(finalizedSize) - e.numBytes
    {
      e := finalized[0];
      assert Fit(e, limits);
      finalized := finalized[1..];
      finalizedSize := Clamped(finalizedSize, e.numBytes);
    }

    /** The merging loop of TakeNextEnvelopeHolder. */
    method MergeFinalized() returns (taken: Envelope)
      requires Ok()
      modifies this`finalized, this`finalizedSize
      ensures (taken, Value()) == TakeFinalized(EMPTY, old(Value()), limits.maxEnvelope)
    {
      taken := EMPTY;
      ghost var goal := TakeFinalized(EMPTY, Value(), limits.maxEnvelope);
      while finalized != [] && (taken.numBytes == 0 || taken.numBytes + finalized[0].numBytes <= limits.maxEnvelope)
        invariant Ok()
        invariant goal == TakeFinalized(taken, Value(), limits.maxEnvelope)
        decreases |finalized|
      {
        var oldest := TakeOldest();
        taken := MergeWith(taken, oldest);
      }
    }

    method TakeNextEnvelopeHolder() returns (holder: Option<Envelope>)
      requires Ok()
      modifies this`current, this`finalized, this`finalizedSize
      ensures Ok()
      ensures (holder, Value()) == TakeNext(old(Value()), limits)
    {
      ghost var before := Value();
      var taken := MergeFinalized();
      TakeNextFrom(before, taken, Value(), limits);
      if taken.numBytes + current.numBytes <= limits.maxEnvelope {
        taken := MergeWith(taken, current);
        current := EMPTY;
      }
      holder := if taken.numBytes == 0 then None else Some(taken);
      assert Valid(Value(), limits) by {
        TakeKeepsValid(before, limits);
      }
    }

    method ReturnEnvelopeHolder(e: Envelope)
      requires Ok() && Fit(e, limits) && 0 < e.numBytes
      modifies this`finalized, this`finalizedSize
      ensures Ok() && finalized == old(finalized) + [e]
      ensures Value() == AddEnvelopeToSend(old(Value()), e)
    {
      QueueKeepsValid(Value(), e, limits);
      finalizedSize := finalizedSize + e.numBytes;
      finalized := finalized + [e];
    }
  }
}
