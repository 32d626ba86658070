/** Whole runs of the aggregate store: any sequence of registrations, logged events, garbage collections and
    generation calls, with any pattern of encoder and writer failures. */
module AggregateRuns {
  import opened Common
  import opened AggregationWindows
  import opened AggregateModel
  import opened AggregateOnce

  /** The days passed to a call; a local day of 0 stands for the UTC day. */
  datatype Call = Call(utc: nat, givenLocal: nat) {
    function Local(): nat { if givenLocal == 0 then utc else givenLocal }
  }

  datatype Op =
    | Insert(key: ReportKey, config: Config)
    | LogActive(key: ReportKey, code: nat, day: nat)
    | LogNumeric(key: ReportKey, cell: Cell, day: nat, value: int)
    | GarbageCollect(call: Call)
    | Generate(order: Order, call: Call)

  /** The store, the generator's state, and the days of the latest generation call. */
  datatype System = System(store: Store, gen: GenState, utc: nat, local: nat)

  function EmptyAggregates(reportType: ReportType): Aggregates {
    match reportType
    case UniqueNDayActives => UniqueActives(map[])
    case PerDeviceNumericStats => Numeric(map[])
    case PerDeviceHistogram => Numeric(map[])
    case OtherReport => NoAggregates
  }

  /** MaybeInsertReportConfig, given the sorted windows of the report. */
  function InsertReport(store: Store, key: ReportKey, config: Config): (Store, Status) {
    if key in store then (store, Ok)
    else if config.reportType == OtherReport then (store, InvalidArguments)
    else (store[key := Report(config, EmptyAggregates(config.reportType))], Ok)
  }

  function GenerateWith(sys: System, order: Order, call: Call, backfill: nat, oracle: Oracle): (GenState, Status) {
    Execute(Plan(sys.store, order.reports, order, sys.gen.history, backfill, call.utc, call.Local()), sys.gen, oracle)
  }

  function Apply(op: Op, sys: System, backfill: nat, oracle: Oracle): System {
    match op
    case Insert(key, config) => sys.(store := InsertReport(sys.store, key, config).0)
    case LogActive(key, code, day) => sys.(store := SetActive(sys.store, key, code, day).0)
    case LogNumeric(key, cell, day, value) => sys.(store := UpdateNumeric(sys.store, key, cell, day, value).0)
    case GarbageCollect(call) => sys.(store := Collect(sys.store, backfill, call.utc, call.Local()))
    case Generate(order, call) =>
      System(sys.store, GenerateWith(sys, order, call, backfill, oracle).0, call.utc, call.Local())
  }

  function Run(ops: seq<Op>, sys: System, backfill: nat, oracle: Oracle): System {
    if ops == [] then sys
    else Apply(ops[|ops| - 1], Run(ops[..|ops| - 1], sys, backfill, oracle), backfill, oracle)
  }

  function Initial(store: Store, backfill: nat): System {
    System(store, GenState(map[], [], 0), MAX_AGGREGATION_DAYS + backfill, MAX_AGGREGATION_DAYS + backfill)
  }

  /** The checks a call makes on its days before it does anything. */
  predicate InBounds(call: Call, backfill: nat) {
    && MAX_AGGREGATION_DAYS + backfill <= call.utc < UINT32_MAX
    && MAX_AGGREGATION_DAYS + backfill <= (if call.givenLocal == 0 then call.utc else call.givenLocal) < UINT32_MAX
  }

  // ---------------------------------------------------------------- What a call is for

  /** The reports that call for an observation per event code, and those that call for one per component and code. */
  predicate CountsActivity(config: Config) { config.metricType == EventOccurred && config.reportType == UniqueNDayActives }

  predicate AggregatesValues(config: Config) {
    config.metricType == NumericMetric && (config.reportType == PerDeviceNumericStats || config.reportType == PerDeviceHistogram)
  }

  /** The last day that a call generates for a report: the UTC day or the local day that was passed, by the time zone of the
      report; a local day of 0 stands for the UTC day. None for an unknown time zone or without windows. */
  function FinalDayOf(config: Config, call: Call): Option<nat> {
    if config.windows == [] then None
    else match config.zone
         case Utc => Some(call.utc)
         case Local => Some(if call.givenLocal == 0 then call.utc else call.givenLocal)
         case UnknownPolicy => None
  }

  /** The days that a call generates for a report, within its backfill period. */
  predicate InPeriod(config: Config, call: Call, backfill: nat, day: nat) {
    FinalDayOf(config, call).Some? && FinalDayOf(config, call).value - backfill <= day <= FinalDayOf(config, call).value
  }

  /** A registered report is skipped by a call within bounds only for its time zone or for having no windows. */
  lemma NotSkipped(config: Config, call: Call, backfill: nat)
    requires ValidWindows(config.windows) && InBounds(call, backfill)
    ensures var day := DayFor(config.zone, call.utc, call.Local());
            FinalDayOf(config, call) == if day.None? || Skipped(config.windows, day.value) then None else day
  {
    if config.windows != [] {
      assert InRange(config.windows[|config.windows| - 1]);
    }
  }

  // ---------------------------------------------------------------- At most once

  lemma {:induction false} ConfigsKept(op: Op, sys: System, backfill: nat, oracle: Oracle)
    ensures forall k :: k in sys.store ==>
              k in Apply(op, sys, backfill, oracle).store &&
              Apply(op, sys, backfill, oracle).store[k].config == sys.store[k].config
    ensures !op.Insert? ==> forall k :: k in Apply(op, sys, backfill, oracle).store ==> k in sys.store
    ensures op.Insert? ==> forall k :: k in Apply(op, sys, backfill, oracle).store && k !in sys.store ==>
              k == op.key && Apply(op, sys, backfill, oracle).store[k].config == op.config
  {
  }

  /** What is recorded for a store stays recorded when an operation changes it: configurations never change, and a new
      report can only take series out of the promise. */
  lemma StepKeepsRecorded(op: Op, sys: System, backfill: nat, oracle: Oracle)
    requires Recorded(sys.gen, sys.store)
    ensures Recorded(Apply(op, sys, backfill, oracle).gen, Apply(op, sys, backfill, oracle).store)
  {
    ConfigsKept(op, sys, backfill, oracle);
    if op.Generate? {
      var plan := Plan(sys.store, op.order.reports, op.order, sys.gen.history, backfill, op.call.utc, op.call.Local());
      PlanAdvances(sys.store, op.order.reports, op.order, sys.gen.history, backfill, op.call.utc, op.call.Local());
      ExecuteRecords(plan, sys.gen, oracle, sys.store);
    } else {
      var store' := Apply(op, sys, backfill, oracle).store;
      forall s: Series | ListedOnce(store', s) ensures ListedOnce(sys.store, s) {
      }
    }
  }

  /** Over every run, no observation is written twice of any unique-actives or participation series, nor of any numeric
      series whose window its report lists once: not by repeated calls, not by calls with decreasing days, and not by a
      call that takes up where a failed one stopped. Each such series is written in strictly ascending day order, and the
      history is never behind it. */
  lemma {:induction false} WrittenAtMostOnce(ops: seq<Op>, store: Store, backfill: nat, oracle: Oracle)
    ensures var sys := Run(ops, Initial(store, backfill), backfill, oracle); Recorded(sys.gen, sys.store)
  {
    if ops != [] {
      var front := ops[..|ops| - 1];
      WrittenAtMostOnce(front, store, backfill, oracle);
      StepKeepsRecorded(ops[|ops| - 1], Run(front, Initial(store, backfill), backfill, oracle), backfill, oracle);
    }
  }

  // ---------------------------------------------------------------- At least once

  /** The first day of the backfill period of the latest call, in a report's time zone. */
  function Low(store: Store, backfill: nat, utc: nat, local: nat, key: ReportKey): nat {
    if key in store && DayFor(store[key].config.zone, utc, local).Some?
    then Start(DayFor(store[key].config.zone, utc, local).value, backfill)
    else 1
  }

  ghost predicate CoveredSystem(sys: System, backfill: nat) {
    && MAX_AGGREGATION_DAYS + backfill <= sys.utc
    && MAX_AGGREGATION_DAYS + backfill <= sys.local
    && AllCovered(sys.gen, k => Low(sys.store, backfill, sys.utc, sys.local, k))
  }

  /** The calls of a run: each passes the checks, iterates over the whole store, and is not earlier than the
      generation call before it. */
  ghost predicate Allowed(op: Op, sys: System, backfill: nat) {
    match op
    case GarbageCollect(call) => InBounds(call, backfill)
    case Generate(order, call) =>
      InBounds(call, backfill) && Enumerates(order, sys.store) && sys.utc <= call.utc && sys.local <= call.Local()
    case _ => true
  }

  ghost predicate AllowedRun(ops: seq<Op>, sys: System, backfill: nat, oracle: Oracle) {
    ops == []
    || (AllowedRun(ops[..|ops| - 1], sys, backfill, oracle)
        && Allowed(ops[|ops| - 1], Run(ops[..|ops| - 1], sys, backfill, oracle), backfill))
  }

  lemma RaiseLow(st: GenState, lo: ReportKey -> nat, lo': ReportKey -> nat)
    requires AllCovered(st, lo) && forall k: ReportKey :: lo(k) <= lo'(k)
    ensures AllCovered(st, lo')
  {
    forall s: Series | s.UniqueSeries? ensures CoveredFrom(st, s, lo'(s.report)) {
      assert CoveredFrom(st, s, lo(s.report));
    }
  }

  lemma GenerateCovers(sys: System, order: Order, call: Call, backfill: nat, oracle: Oracle)
    requires CoveredSystem(sys, backfill) && sys.utc <= call.utc && sys.local <= call.Local()
    ensures AllCovered(GenerateWith(sys, order, call, backfill, oracle).0,
                       k => Low(sys.store, backfill, call.utc, call.Local(), k))
  {
    var lo := k => Low(sys.store, backfill, sys.utc, sys.local, k);
    var lo' := k => Low(sys.store, backfill, call.utc, call.Local(), k);
    RaiseLow(sys.gen, lo, lo');
    PlanContiguous(sys.store, order.reports, order, sys.gen.history, backfill, call.utc, call.Local(), lo');
    ExecuteCovers(Plan(sys.store, order.reports, order, sys.gen.history, backfill, call.utc, call.Local()), sys.gen, oracle, lo');
  }

  lemma StepCoversSystem(op: Op, sys: System, backfill: nat, oracle: Oracle)
    requires CoveredSystem(sys, backfill) && Allowed(op, sys, backfill)
    ensures CoveredSystem(Apply(op, sys, backfill, oracle), backfill)
  {
    var sys' := Apply(op, sys, backfill, oracle);
    ConfigsKept(op, sys, backfill, oracle);
    var lo' := k => Low(sys'.store, backfill, sys'.utc, sys'.local, k);
    if op.Generate? {
      GenerateCovers(sys, op.order, op.call, backfill, oracle);
      RaiseLow(sys'.gen, k => Low(sys.store, backfill, op.call.utc, op.call.Local(), k), lo');
    } else {
      RaiseLow(sys.gen, k => Low(sys.store, backfill, sys.utc, sys.local, k), lo');
    }
  }

  lemma {:induction false} RunCovers(ops: seq<Op>, store: Store, backfill: nat, oracle: Oracle)
    requires AllowedRun(ops, Initial(store, backfill), backfill, oracle)
    ensures CoveredSystem(Run(ops, Initial(store, backfill), backfill, oracle), backfill)
  {
    if ops != [] {
      var front := ops[..|ops| - 1];
      RunCovers(front, store, backfill, oracle);
      StepCoversSystem(ops[|ops| - 1], Run(front, Initial(store, backfill), backfill, oracle), backfill, oracle);
    }
  }

  /** After any run of calls with non-decreasing days, some of them cut short by failures, a call that returns
      kOK leaves every day of its backfill period written for every event code and every daily window: the days up to
      the one that was passed for the report's time zone. */
  lemma CompleteAfterOk(ops: seq<Op>, store: Store, backfill: nat, oracle: Oracle, order: Order, call: Call,
                        key: ReportKey, code: nat, w: nat, day: nat)
    requires AllowedRun(ops + [Generate(order, call)], Initial(store, backfill), backfill, oracle)
    requires var sys := Run(ops, Initial(store, backfill), backfill, oracle);
             && GenerateWith(sys, order, call, backfill, oracle).1 == Ok
             && key in sys.store
             && var config := sys.store[key].config;
                && CountsActivity(config) && ValidWindows(config.windows)
                && code < config.numEventCodes && Days(w) in config.windows && InPeriod(config, call, backfill, day)
    ensures Written(Run(ops + [Generate(order, call)], Initial(store, backfill), backfill, oracle).gen,
                    UniqueSeries(key, code, w), day)
  {
    var all := ops + [Generate(order, call)];
    assert all[..|all| - 1] == ops;
    var sys := Run(ops, Initial(store, backfill), backfill, oracle);
    var sys' := Run(all, Initial(store, backfill), backfill, oracle);
    var config := sys.store[key].config;
    NotSkipped(config, call, backfill);
    var i :| 0 <= i < |config.windows| && config.windows[i] == Days(w);
    assert InRange(config.windows[i]);
    RunCovers(all, store, backfill, oracle);
    var plan := Plan(sys.store, order.reports, order, sys.gen.history, backfill, call.utc, call.Local());
    CompletedHistory(plan, sys.gen, oracle);
    PlanReaches(sys.store, order.reports, order, sys.gen.history, backfill, call.utc, call.Local(), key, code, w);
    assert CoveredFrom(sys'.gen, UniqueSeries(key, code, w), Start(DayFor(sys.store[key].config.zone, call.utc, call.Local()).value, backfill));
  }
}
