/** UndatedEventManager: events saved while the system clock is not accurate, in a bounded queue, and logged with
    re-based timestamps once it is (undated_event_manager.cc). Times are in nanoseconds. */
module UndatedEventManager {

  const SECOND: int := 1_000_000_000

  datatype ProjectId = ProjectId(customer: nat, project: nat)

  datatype SavedRecord = SavedRecord(time: int, id: nat, project: ProjectId)

  datatype Logged = Logged(record: SavedRecord, timestamp: int)

  datatype Reference = Reference(system: int, monotonic: int)

  type Counters = map<ProjectId, nat>

  // ---------------------------------------------------------------- Time

  /** duration_cast to seconds truncates towards zero. */
  function WholeSeconds(d: int): int { if 0 <= d then d / SECOND else -(-d / SECOND) }

  /** The timestamp that FlushSavedRecord gives to an event. */
  function Rebased(ref: Reference, time: int): int { ref.system - WholeSeconds(ref.monotonic - time) * SECOND }

  /** The exact time of an event on the system clock. */
  function Exact(ref: Reference, time: int): int { ref.system - (ref.monotonic - time) }

  /** A re-based timestamp is less than a second off: never early for an event before the reference time, never late for
      one after it. */
  lemma RebasedWithinASecond(ref: Reference, time: int)
    ensures time <= ref.monotonic ==> Exact(ref, time) <= Rebased(ref, time) < Exact(ref, time) + SECOND
    ensures ref.monotonic <= time ==> Exact(ref, time) - SECOND < Rebased(ref, time) <= Exact(ref, time)
    ensures (Rebased(ref, time) - ref.system) % SECOND == 0
  {
    var d := ref.monotonic - time;
    if 0 <= d {
      assert d == d / SECOND * SECOND + d % SECOND;
    } else {
      assert -d == -d / SECOND * SECOND + -d % SECOND;
    }
  }

  lemma WholeSecondsMonotone(d: int, e: int)
    requires d <= e
    ensures WholeSeconds(d) <= WholeSeconds(e)
  {
    if 0 <= d {
      DivisionMonotone(d, e);
    } else if e < 0 {
      DivisionMonotone(-e, -d);
    } else {
      DivisionMonotone(0, e);
      DivisionMonotone(0, -d);
    }
  }

  lemma DivisionMonotone(d: nat, e: nat)
    requires d <= e
    ensures d / SECOND <= e / SECOND
  {
  }

  /** Re-basing keeps the order of the monotonic clock, also across the reference time. */
  lemma RebasedKeepsOrder(ref: Reference, s: int, t: int)
    requires s <= t
    ensures Rebased(ref, s) <= Rebased(ref, t)
  {
    WholeSecondsMonotone(ref.monotonic - t, ref.monotonic - s);
  }

  // ---------------------------------------------------------------- The manager as a value

  datatype Manager = Manager(saved: seq<SavedRecord>, cached: Counters, dropped: Counters, flushed: bool, reference: Reference)

  const NEW_MANAGER: Manager := Manager([], map[], map[], false, Reference(0, 0))

  function CountOf(c: Counters, p: ProjectId): nat { if p in c then c[p] else 0 }

  function Increment(c: Counters, p: ProjectId): Counters { c[p := CountOf(c, p) + 1] }

  function LogOne(ref: Reference, r: SavedRecord): Logged { Logged(r, Rebased(ref, r.time)) }

  function LogAll(ref: Reference, records: seq<SavedRecord>): seq<Logged> {
    if records == [] then [] else [LogOne(ref, records[0])] + LogAll(ref, records[1..])
  }

  /** Save: what happens to the manager, and what is logged at once. */
  function SaveStep(m: Manager, r: SavedRecord, max: nat): (Manager, seq<Logged>) {
    if m.flushed then (m, [LogOne(m.reference, r)])
    else
      var full := max <= |m.saved| && m.saved != [];
      var dropped := if full then Increment(m.dropped, m.saved[0].project) else m.dropped;
      var kept := if full then m.saved[1..] else m.saved;
      (m.(saved := kept + [r], cached := Increment(m.cached, r.project), dropped := dropped), [])
  }

  /** Flush: everything is logged in order, and the counters are reported and cleared. */
  function FlushStep(m: Manager, ref: Reference): (Manager, seq<Logged>) {
    (Manager([], map[], map[], true, ref), LogAll(ref, m.saved))
  }

  // ---------------------------------------------------------------- Runs

  datatype Op = Save(record: SavedRecord) | Flush(reference: Reference)

  datatype Report = Report(cached: Counters, dropped: Counters)

  /** The manager with everything saved so far, what was pushed out of the queue, everything logged, and what the
      flushes reported. */
  datatype System = System(manager: Manager, all: seq<SavedRecord>, lost: seq<SavedRecord>, logged: seq<Logged>, reports: seq<Report>)

  /** The record that a save pushes out of the queue. */
  function PushedOut(m: Manager, max: nat): seq<SavedRecord> {
    if !m.flushed && max <= |m.saved| && m.saved != [] then [m.saved[0]] else []
  }

  function Apply(sys: System, op: Op, max: nat): System {
    match op
    case Save(r) =>
      var (m, out) := SaveStep(sys.manager, r, max);
      sys.(manager := m, all := sys.all + [r], lost := sys.lost + PushedOut(sys.manager, max), logged := sys.logged + out)
    case Flush(ref) =>
      var (m, out) := FlushStep(sys.manager, ref);
      System(m, sys.all, sys.lost, sys.logged + out, sys.reports + [Report(sys.manager.cached, sys.manager.dropped)])
  }

  function Run(ops: seq<Op>, max: nat): System {
    if ops == [] then System(NEW_MANAGER, [], [], [], []) else Apply(Run(ops[..|ops| - 1], max), ops[|ops| - 1], max)
  }

  function OfProject(records: seq<SavedRecord>, p: ProjectId): nat {
    if records == [] then 0
    else OfProject(records[..|records| - 1], p) + if records[|records| - 1].project == p then 1 else 0
  }

  function Records(logged: seq<Logged>): seq<SavedRecord> {
    if logged == [] then [] else Records(logged[..|logged| - 1]) + [logged[|logged| - 1].record]
  }

  /** The queue is the most recent saved records, as many as fit. */
  predicate QueueIsRecent(sys: System, max: nat) {
    && |sys.manager.saved| == (if |sys.all| <= max then |sys.all| else max)
    && sys.all == sys.lost + sys.manager.saved
  }

  /** The counters tell what was saved and what was dropped for a project. */
  predicate Counted(sys: System, p: ProjectId) {
    CountOf(sys.manager.cached, p) == OfProject(sys.all, p) && CountOf(sys.manager.dropped, p) == OfProject(sys.lost, p)
  }

  /** Before a flush. */
  ghost predicate Buffering(sys: System, max: nat) {
    QueueIsRecent(sys, max) && sys.logged == [] && sys.reports == [] && forall p: ProjectId :: Counted(sys, p)
  }

  /** After a flush: nothing is queued, and what was logged is what was saved without the records that were dropped. */
  ghost predicate Flushed(sys: System) {
    && sys.manager.saved == [] && sys.manager.cached == map[] && sys.manager.dropped == map[]
    && sys.all == sys.lost + Records(sys.logged)
  }

  ghost predicate Invariant(sys: System, max: nat) {
    if sys.manager.flushed then Flushed(sys) else Buffering(sys, max)
  }

  lemma OfProjectAppend(records: seq<SavedRecord>, r: SavedRecord, p: ProjectId)
    ensures OfProject(records + [r], p) == OfProject(records, p) + if r.project == p then 1 else 0
  {
    assert (records + [r])[..|records|] == records;
  }

  lemma {:induction false} OfProjectConcat(a: seq<SavedRecord>, b: seq<SavedRecord>, p: ProjectId)
    ensures OfProject(a + b, p) == OfProject(a, p) + OfProject(b, p)
  {
    if b == [] {
      assert a + b == a;
    } else {
      OfProjectConcat(a, b[..|b| - 1], p);
      assert (a + b)[..|a + b| - 1] == a + b[..|b| - 1];
    }
  }

  lemma RecordsStep(a: seq<Logged>, front: seq<Logged>, last: Logged)
    ensures Records(a + (front + [last])) == Records(a + front) + [last.record]
    ensures Records(front + [last]) == Records(front) + [last.record]
  {
    assert (front + [last])[..|front|] == front;
    var all := a + (front + [last]);
    assert all[..|all| - 1] == a + front;
  }

  lemma {:induction false} RecordsConcat(a: seq<Logged>, b: seq<Logged>)
    ensures Records(a + b) == Records(a) + Records(b) && |Records(b)| == |b|
  {
    if b == [] {
      assert a + b == a;
    } else {
      var front, last := b[..|b| - 1], b[|b| - 1];
      RecordsConcat(a, front);
      RecordsStep(a, front, last);
      assert b == front + [last];
    }
  }

  lemma {:induction false} RecordsOfLogAll(ref: Reference, records: seq<SavedRecord>)
    ensures Records(LogAll(ref, records)) == records && |LogAll(ref, records)| == |records|
  {
    if records != [] {
      RecordsOfLogAll(ref, records[1..]);
      RecordsConcat([LogOne(ref, records[0])], LogAll(ref, records[1..]));
      assert [LogOne(ref, records[0])][..0] == [];
      assert Records([LogOne(ref, records[0])]) == [records[0]];
    }
  }

  /** The queue after a save is again the end of everything saved. */
  lemma SaveQueue(sys: System, r: SavedRecord, max: nat)
    requires QueueIsRecent(sys, max) && !sys.manager.flushed && 1 <= max
    ensures QueueIsRecent(Apply(sys, Save(r), max), max)
  {
    var saved, lost := sys.manager.saved, sys.lost;
    if max <= |saved| {
      assert lost + saved + [r] == (lost + [saved[0]]) + (saved[1..] + [r]);
    } else {
      assert lost + saved + [r] == (lost + []) + (saved + [r]);
    }
  }

  lemma SaveCounts(sys: System, r: SavedRecord, max: nat, p: ProjectId)
    requires !sys.manager.flushed && 1 <= max && Counted(sys, p)
    ensures Counted(Apply(sys, Save(r), max), p)
  {
    OfProjectAppend(sys.all, r, p);
    if max <= |sys.manager.saved| {
      OfProjectAppend(sys.lost, sys.manager.saved[0], p);
    } else {
      assert sys.lost + [] == sys.lost;
    }
  }

  lemma StepKeeps(sys: System, op: Op, max: nat)
    requires Invariant(sys, max) && 1 <= max
    ensures Invariant(Apply(sys, op, max), max)
  {
    match op {
      case Save(r) =>
        if sys.manager.flushed {
          var out := [LogOne(sys.manager.reference, r)];
          RecordsConcat(sys.logged, out);
          assert out[..0] == [];
          assert Records(out) == [r];
          assert sys.lost + [] == sys.lost;
          assert sys.lost + Records(sys.logged) + [r] == sys.lost + (Records(sys.logged) + [r]);
        } else {
          SaveQueue(sys, r, max);
          forall p: ProjectId ensures Counted(Apply(sys, op, max), p) {
            assert Counted(sys, p);
            SaveCounts(sys, r, max, p);
          }
        }
      case Flush(ref) =>
        RecordsOfLogAll(ref, sys.manager.saved);
        RecordsConcat(sys.logged, LogAll(ref, sys.manager.saved));
        if !sys.manager.flushed {
          assert sys.logged + LogAll(ref, sys.manager.saved) == LogAll(ref, sys.manager.saved);
        }
    }
  }

  /** In every state of every run: before a flush the queue holds the most recent records in order and the counters are
      exact; after it nothing is queued and everything that was not dropped was logged once and in order. */
  lemma {:induction false} RunInvariant(ops: seq<Op>, max: nat)
    requires 1 <= max
    ensures Invariant(Run(ops, max), max)
  {
    if ops != [] {
      RunInvariant(ops[..|ops| - 1], max);
      StepKeeps(Run(ops[..|ops| - 1], max), ops[|ops| - 1], max);
    }
  }

  /** For each project, cached minus dropped is what the queue holds: the sum that a flush reports. */
  lemma CountersMatchQueue(ops: seq<Op>, max: nat, p: ProjectId)
    requires 1 <= max
    ensures var m := Run(ops, max).manager;
            CountOf(m.cached, p) == CountOf(m.dropped, p) + OfProject(m.saved, p)
  {
    RunInvariant(ops, max);
    var sys := Run(ops, max);
    if !sys.manager.flushed {
      assert Counted(sys, p);
      OfProjectConcat(sys.lost, sys.manager.saved, p);
    }
  }

  // ---------------------------------------------------------------- Timestamps of a run

  predicate NoneAfter(ops: seq<Op>, t: int) {
    ops == [] || (NoneAfter(ops[..|ops| - 1], t) && (ops[|ops| - 1].Save? ==> ops[|ops| - 1].record.time <= t))
  }

  /** The records of a run come in the order of the monotonic clock. */
  predicate InOrder(ops: seq<Op>) {
    ops == []
    || (InOrder(ops[..|ops| - 1]) && (ops[|ops| - 1].Save? ==> NoneAfter(ops[..|ops| - 1], ops[|ops| - 1].record.time)))
  }

  predicate HasFlush(ops: seq<Op>) { ops != [] && (HasFlush(ops[..|ops| - 1]) || ops[|ops| - 1].Flush?) }

  predicate AtMostOneFlush(ops: seq<Op>) {
    ops == [] || (AtMostOneFlush(ops[..|ops| - 1]) && !(ops[|ops| - 1].Flush? && HasFlush(ops[..|ops| - 1])))
  }

  predicate Stamped(logged: seq<Logged>, ref: Reference) {
    forall i :: 0 <= i < |logged| ==> logged[i].timestamp == Rebased(ref, logged[i].record.time)
  }

  lemma {:induction false} LogAllStamped(ref: Reference, records: seq<SavedRecord>)
    ensures Stamped(LogAll(ref, records), ref)
  {
    if records != [] {
      LogAllStamped(ref, records[1..]);
    }
  }

  lemma StampedAppend(a: seq<Logged>, b: seq<Logged>, ref: Reference)
    requires Stamped(a, ref) && Stamped(b, ref)
    ensures Stamped(a + b, ref)
  {
  }

  lemma {:induction false} RunStamped(ops: seq<Op>, max: nat)
    requires AtMostOneFlush(ops)
    ensures Run(ops, max).manager.flushed == HasFlush(ops)
    ensures !HasFlush(ops) ==> Run(ops, max).logged == []
    ensures Stamped(Run(ops, max).logged, Run(ops, max).manager.reference)
  {
    if ops != [] {
      var front, op := ops[..|ops| - 1], ops[|ops| - 1];
      var before := Run(front, max);
      RunStamped(front, max);
      match op {
        case Flush(ref) =>
          LogAllStamped(ref, before.manager.saved);
          assert [] + LogAll(ref, before.manager.saved) == LogAll(ref, before.manager.saved);
        case Save(r) =>
          var out := SaveStep(before.manager, r, max).1;
          StampedAppend(before.logged, out, before.manager.reference);
      }
    }
  }

  predicate Sorted(records: seq<SavedRecord>) {
    records == []
    || (Sorted(records[..|records| - 1]) && Before(records[..|records| - 1], records[|records| - 1].time))
  }

  predicate Before(records: seq<SavedRecord>, t: int) { forall i :: 0 <= i < |records| ==> records[i].time <= t }

  lemma {:induction false} AllBefore(ops: seq<Op>, max: nat, t: int)
    requires NoneAfter(ops, t)
    ensures Before(Run(ops, max).all, t)
  {
    if ops != [] {
      AllBefore(ops[..|ops| - 1], max, t);
    }
  }

  lemma {:induction false} AllSorted(ops: seq<Op>, max: nat)
    requires InOrder(ops)
    ensures Sorted(Run(ops, max).all)
  {
    if ops != [] {
      var front, op := ops[..|ops| - 1], ops[|ops| - 1];
      AllSorted(front, max);
      if op.Save? {
        AllBefore(front, max, op.record.time);
        var before := Run(front, max).all;
        assert (before + [op.record])[..|before|] == before;
      }
    }
  }

  lemma {:induction false} SortedPair(records: seq<SavedRecord>, i: nat, j: nat)
    requires Sorted(records) && i < j < |records|
    ensures records[i].time <= records[j].time
  {
    if j < |records| - 1 {
      SortedPair(records[..|records| - 1], i, j);
    } else {
      assert records[..|records| - 1][i] == records[i];
    }
  }

  lemma {:induction false} RecordsAt(logged: seq<Logged>, i: nat)
    requires i < |logged|
    ensures |Records(logged)| == |logged| && Records(logged)[i] == logged[i].record
  {
    RecordsConcat([], logged);
    if i < |logged| - 1 {
      RecordsAt(logged[..|logged| - 1], i);
    } else {
      RecordsConcat([], logged[..|logged| - 1]);
    }
  }

  /** With one flush and a monotonic clock, the timestamps of everything logged, by the flush and after it, are in the
      order in which the events were saved. */
  lemma TimestampsInOrder(ops: seq<Op>, max: nat, i: nat, j: nat)
    requires 1 <= max && InOrder(ops) && AtMostOneFlush(ops)
    requires i < j < |Run(ops, max).logged|
    ensures Run(ops, max).logged[i].timestamp <= Run(ops, max).logged[j].timestamp
  {
    RunInvariant(ops, max);
    RunStamped(ops, max);
    AllSorted(ops, max);
    var sys := Run(ops, max);
    RecordsAt(sys.logged, i);
    RecordsAt(sys.logged, j);
    LoggedInOrder(sys.lost, Records(sys.logged), i, j);
    RebasedKeepsOrder(sys.manager.reference, sys.logged[i].record.time, sys.logged[j].record.time);
  }

  lemma LoggedInOrder(lost: seq<SavedRecord>, rest: seq<SavedRecord>, i: nat, j: nat)
    requires Sorted(lost + rest) && i < j < |rest|
    ensures rest[i].time <= rest[j].time
  {
    SortedPair(lost + rest, |lost| + i, |lost| + j);
  }

  // ---------------------------------------------------------------- Which reference

  /** An event is logged with a timestamp whole seconds from the reference and less than a second from the system time of the reference, shifted by how long
      before or after it the event was saved on the monotonic clock. */
  predicate Near(system: int, monotonic: int, l: Logged) {
    var exact := system + (l.record.time - monotonic);
    && (l.record.time <= monotonic ==> exact <= l.timestamp < exact + 1_000_000_000)
    && (monotonic <= l.record.time ==> exact - 1_000_000_000 < l.timestamp <= exact)
    && (l.timestamp - system) % 1_000_000_000 == 0
  }

  /** The position of the latest flush of a run. */
  ghost predicate LatestFlush(ops: seq<Op>, k: nat) {
    k < |ops| && ops[k].Flush? && forall j :: k < j < |ops| ==> !ops[j].Flush?
  }

  lemma {:induction false} ReferenceIsLatest(ops: seq<Op>, max: nat, k: nat)
    requires LatestFlush(ops, k)
    ensures Run(ops, max).manager.flushed && Run(ops, max).manager.reference == ops[k].reference
  {
    if k < |ops| - 1 {
      var front := ops[..|ops| - 1];
      assert front[k] == ops[k] && !ops[|ops| - 1].Flush?;
      assert LatestFlush(front, k);
      ReferenceIsLatest(front, max, k);
    }
  }

  lemma {:induction false} LogAllNear(ref: Reference, records: seq<SavedRecord>, i: nat)
    requires i < |LogAll(ref, records)|
    ensures Near(ref.system, ref.monotonic, LogAll(ref, records)[i])
  {
    if i == 0 {
      RebasedWithinASecond(ref, records[0].time);
    } else {
      LogAllNear(ref, records[1..], i - 1);
    }
  }

  /** Over every run with any number of flushes: nothing is logged before the first one, and what an operation logs is
      stamped by the reference that was passed to the latest flush. */
  lemma StampedByLatestFlush(ops: seq<Op>, max: nat, k: nat, i: nat)
    requires ops != [] && LatestFlush(ops, k)
    requires |Run(ops[..|ops| - 1], max).logged| <= i < |Run(ops, max).logged|
    ensures Near(ops[k].reference.system, ops[k].reference.monotonic, Run(ops, max).logged[i])
  {
    var front, op := ops[..|ops| - 1], ops[|ops| - 1];
    var before := Run(front, max);
    match op {
      case Flush(ref) =>
        assert k == |ops| - 1;
        LogAllNear(ref, before.manager.saved, i - |before.logged|);
      case Save(r) =>
        assert front[k] == ops[k] && LatestFlush(front, k);
        ReferenceIsLatest(front, max, k);
        RebasedWithinASecond(ops[k].reference, r.time);
    }
  }

  lemma {:induction false} NothingBeforeFlush(ops: seq<Op>, max: nat)
    requires forall j :: 0 <= j < |ops| ==> !ops[j].Flush?
    ensures Run(ops, max).logged == [] && !Run(ops, max).manager.flushed
  {
    if ops != [] {
      NothingBeforeFlush(ops[..|ops| - 1], max);
    }
  }

  /** With one flush, at position k of the run, everything that the run logs is stamped by the reference passed to it. */
  lemma {:induction false} StampedByOnlyFlush(ops: seq<Op>, max: nat, k: nat, i: nat)
    requires k < |ops| && ops[k].Flush? && (forall j :: 0 <= j < |ops| && ops[j].Flush? ==> j == k) && i < |Run(ops, max).logged|
    ensures Near(ops[k].reference.system, ops[k].reference.monotonic, Run(ops, max).logged[i])
  {
    var front := ops[..|ops| - 1];
    var before := Run(front, max).logged;
    assert LatestFlush(ops, k);
    if |before| <= i {
      StampedByLatestFlush(ops, max, k, i);
    } else if k < |ops| - 1 {
      assert front[k] == ops[k];
      StampedByOnlyFlush(front, max, k, i);
      assert Run(ops, max).logged[i] == before[i];
    } else {
      NothingBeforeFlush(front, max);
    }
  }

  /** The first flush reports, for each project, how many records were saved and how many of them were pushed out of the
      queue; the rest is what it logs. */
  lemma FlushReports(ops: seq<Op>, max: nat, ref: Reference, p: ProjectId)
    requires 1 <= max && !Run(ops, max).manager.flushed
    ensures var sys, sys' := Run(ops, max), Apply(Run(ops, max), Flush(ref), max);
            && |sys'.reports| == 1
            && CountOf(sys'.reports[0].cached, p) == OfProject(sys.all, p)
            && CountOf(sys'.reports[0].dropped, p) == OfProject(sys.lost, p)
            && OfProject(sys.all, p) == OfProject(sys.lost, p) + OfProject(Records(sys'.logged), p)
  {
    RunInvariant(ops, max);
    var sys := Run(ops, max);
    assert Counted(sys, p);
    OfProjectConcat(sys.lost, sys.manager.saved, p);
    RecordsOfLogAll(ref, sys.manager.saved);
    assert [] + LogAll(ref, sys.manager.saved) == LogAll(ref, sys.manager.saved);
  }

  // ---------------------------------------------------------------- The class

  class EventManager {
    var saved: seq<SavedRecord>
    var cached: Counters
    var dropped: Counters
    var flushed: bool
    var reference: Reference
    /** What the event loggers received. */
    var logged: seq<Logged>
    const max: nat

    ghost function Value(): Manager
      reads this
    {
      Manager(saved, cached, dropped, flushed, reference)
    }

    constructor (max: nat)
      requires 1 <= max
      ensures Value() == NEW_MANAGER && logged == [] && this.max == max
    {
      this.max := max;
      saved, cached, dropped, flushed, reference, logged := [], map[], map[], false, Reference(0, 0), [];
    }

    method FlushSavedRecord(r: SavedRecord, ref: Reference)
      modifies this`logged
      ensures logged == old(logged) + [LogOne(ref, r)]
    {
      var shift := WholeSeconds(ref.monotonic - r.time);
      logged := logged + [Logged(r, ref.system - shift * SECOND)];
    }

    method Save(r: SavedRecord)
      requires 1 <= max
      modifies this
      ensures Value() == SaveStep(old(Value()), r, max).0
      ensures logged == old(logged) + SaveStep(old(Value()), r, max).1
      ensures !old(flushed) ==> logged == old(logged)
      ensures old(flushed) ==>
                |logged| == |old(logged)| + 1 && logged[|old(logged)|].record == r && saved == old(saved) &&
                Near(old(reference).system, old(reference).monotonic, logged[|old(logged)|])
    {
      if flushed {
        RebasedWithinASecond(reference, r.time);
        FlushSavedRecord(r, reference);
        return;
      }
      if max <= |saved| {
        var oldest := saved[0];
        saved := saved[1..];
        dropped := Increment(dropped, oldest.project);
      }
      saved := saved + [r];
      cached := Increment(cached, r.project);
    }

    method Flush(system: int, monotonic: int) returns (report: Report)
      modifies this
      ensures Value() == FlushStep(old(Value()), Reference(system, monotonic)).0
      ensures logged == old(logged) + FlushStep(old(Value()), Reference(system, monotonic)).1
      ensures report.cached == old(cached) && report.dropped == old(dropped)
      ensures |logged| == |old(logged)| + |old(saved)|
      ensures forall i :: 0 <= i < |old(saved)| ==>
                logged[|old(logged)| + i].record == old(saved)[i] && Near(system, monotonic, logged[|old(logged)| + i])
      ensures flushed && reference.system == system && reference.monotonic == monotonic
    {
      reference := Reference(system, monotonic);
      ghost var before := logged;
      ghost var all := LogAll(reference, saved);
      while saved != []
        invariant logged + LogAll(reference, saved) == before + all
        invariant reference == Reference(system, monotonic) && cached == old(cached) && dropped == old(dropped)
        decreases |saved|
      {
        var r := saved[0];
        assert logged + LogAll(reference, saved) == (logged + [LogOne(reference, r)]) + LogAll(reference, saved[1..]);
        FlushSavedRecord(r, reference);
        saved := saved[1..];
      }
      forall i | 0 <= i < |old(saved)|
        ensures i < |all| && all[i].record == old(saved)[i] && Near(system, monotonic, all[i])
      {
        RecordsOfLogAll(reference, old(saved));
        RecordsAt(all, i);
        LogAllNear(reference, old(saved), i);
      }
      RecordsOfLogAll(reference, old(saved));
      report := Report(cached, dropped);
      cached, dropped := map[], map[];
      flushed := true;
    }
  }
}
