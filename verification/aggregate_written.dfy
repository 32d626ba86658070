/** From the event log to the written observations: every observation that a call of GenerateObservations writes, at
    any point of any run, says what the events logged until then make true of its window. */
module AggregateWritten {
  import opened Common
  import opened AggregationWindows
  import opened AggregateModel
  import opened AggregateRuns
  import opened AggregateLog
  import AggregateScripts
  import AggregateGc

  /** What a call sees: the store, and the days it was made for. */
  datatype View = View(store: Store, backfill: nat, utc: nat, local: nat)

  /** A numeric observation tells the fold of a cell's stored days over its window. */
  predicate TellsCell(o: Observation, report: Report, cell: Cell) {
    && o.series.NumericSeries?
    && o.series == CellSeries(o.series.report, cell, o.series.window)
    && (report.config.aggregation == UnknownType ==> o.series.window == 0)
    && (o.payload.NumericValue? || o.payload.HistogramValue?)
    && WindowFold(report.config.aggregation, DaysOf(report.aggregates, cell), o.day, o.series.window) == Some(o.payload.value)
  }

  ghost predicate TellsStored(o: Observation, report: Report) {
    match o.series
    case UniqueSeries(_, code, w) =>
      o.payload == Activity(WasActive(ActivityOf(report.aggregates, code), o.day, w)) && Days(w) in report.config.windows
    case NumericSeries(_, _, _, w) => Days(w) in report.config.windows && exists cell: Cell :: TellsCell(o, report, cell)
    case ParticipationSeries(_) => o.payload == Participation
  }

  /** An observation is for a day of the backfill period, in its report's time zone, and tells what the store holds. */
  ghost predicate Truthful(o: Observation, v: View) {
    && o.series.report in v.store
    && var report := v.store[o.series.report];
       && DayFor(report.config.zone, v.utc, v.local).Some?
       && var final := DayFor(report.config.zone, v.utc, v.local).value;
          && !Skipped(report.config.windows, final)
          && Start(final, v.backfill) <= o.day <= final
          && TellsStored(o, report)
  }

  /** Every attempt of the script is truthful; those whose failure is ignored are the participation observations. */
  ghost predicate TruthfulScript(script: Script, v: View) {
    forall i :: 0 <= i < |script| && (script[i].Emit? || script[i].TryEmit?) ==>
      Truthful(script[i].obs, v) && (script[i].TryEmit? <==> script[i].obs.series.ParticipationSeries?)
  }

  /** A report that the call does not skip. */
  predicate Reported(v: View, key: ReportKey, final: nat) {
    && key in v.store
    && DayFor(v.store[key].config.zone, v.utc, v.local) == Some(final)
    && !Skipped(v.store[key].config.windows, final)
  }

  lemma {:induction false} UniqueDaysTruthful(v: View, key: ReportKey, code: nat, window: nat, day: nat, final: nat)
    requires Reported(v, key, final) && Start(final, v.backfill) <= day && Days(window) in v.store[key].config.windows
    ensures TruthfulScript(UniqueDays(UniqueSeries(key, code, window), ActivityOf(v.store[key].aggregates, code), window, day, final), v)
    decreases final + 1 - day
  {
    if day <= final {
      UniqueDaysTruthful(v, key, code, window, day + 1, final);
    }
  }

  lemma {:induction false} UniqueWindowsTruthful(v: View, key: ReportKey, code: nat, windows: seq<Window>, history: History, final: nat)
    requires Reported(v, key, final) && forall w :: w in windows ==> w in v.store[key].config.windows
    ensures TruthfulScript(UniqueWindows(key, ActivityOf(v.store[key].aggregates, code), code, windows, history, v.backfill, final), v)
    decreases windows
  {
    var active := ActivityOf(v.store[key].aggregates, code);
    if windows == [] {
    } else if !UniqueWindow(windows[0]) {
      UniqueWindowsTruthful(v, key, code, windows[1..], history, final);
    } else {
      var series := UniqueSeries(key, code, windows[0].days);
      var first := FirstDay(history, series, final, v.backfill);
      UniqueDaysTruthful(v, key, code, windows[0].days, first, final);
      var head := UniqueDays(series, active, windows[0].days, first, final);
      UniqueWindowsTruthful(v, key, code, windows[1..], After(history, head), final);
    }
  }

  lemma {:induction false} UniqueCodesTruthful(v: View, key: ReportKey, code: nat, history: History, final: nat)
    requires Reported(v, key, final)
    ensures TruthfulScript(UniqueCodes(key, v.store[key], code, history, v.backfill, final), v)
    decreases v.store[key].config.numEventCodes - code
  {
    var report := v.store[key];
    if code < report.config.numEventCodes {
      UniqueWindowsTruthful(v, key, code, report.config.windows, history, final);
      var head := UniqueWindows(key, ActivityOf(report.aggregates, code), code, report.config.windows, history, v.backfill, final);
      UniqueCodesTruthful(v, key, code + 1, After(history, head), final);
    }
  }

  lemma CellDaysTruthful(v: View, key: ReportKey, cell: Cell, history: History, final: nat)
    requires Reported(v, key, final)
    ensures var report := v.store[key];
            TruthfulScript(CellDays(key, report.config, cell, DaysOf(report.aggregates, cell), history, v.backfill,
                                    Start(final, v.backfill), final), v)
  {
    var report := v.store[key];
    var script := CellDays(key, report.config, cell, DaysOf(report.aggregates, cell), history, v.backfill,
                           Start(final, v.backfill), final);
    forall i | 0 <= i < |script| && (script[i].Emit? || script[i].TryEmit?)
      ensures Truthful(script[i].obs, v) && script[i].Emit? && !script[i].obs.series.ParticipationSeries?
    {
      var d, w := CellDaysSteps(key, report.config, cell, DaysOf(report.aggregates, cell), history, v.backfill,
                                Start(final, v.backfill), final, i);
      assert TellsCell(script[i].obs, report, cell);
    }
  }

  lemma {:induction false} NumericCellsTruthful(v: View, key: ReportKey, cells: seq<Cell>, history: History, final: nat)
    requires Reported(v, key, final)
    ensures TruthfulScript(NumericCells(key, v.store[key], cells, history, v.backfill, final), v)
    decreases cells
  {
    if cells != [] {
      var report := v.store[key];
      CellDaysTruthful(v, key, cells[0], history, final);
      var head := CellDays(key, report.config, cells[0], DaysOf(report.aggregates, cells[0]), history, v.backfill,
                           Start(final, v.backfill), final);
      NumericCellsTruthful(v, key, cells[1..], After(history, head), final);
    }
  }

  lemma {:induction false} ParticipationTruthful(v: View, key: ReportKey, day: nat, final: nat)
    requires Reported(v, key, final) && Start(final, v.backfill) <= day
    ensures TruthfulScript(ParticipationDays(key, day, final), v)
    decreases final + 1 - day
  {
    if day <= final {
      ParticipationTruthful(v, key, day + 1, final);
    }
  }

  lemma ReportPlanTruthful(v: View, key: ReportKey, cells: seq<Cell>, history: History)
    requires key in v.store
    ensures TruthfulScript(ReportPlan(key, v.store[key], cells, history, v.backfill, v.utc, v.local), v)
  {
    var report := v.store[key];
    var day := DayFor(report.config.zone, v.utc, v.local);
    if day.Some? && !Skipped(report.config.windows, day.value) {
      match PathOf(report.config) {
        case UniquePath => UniqueCodesTruthful(v, key, 0, history, day.value);
        case NumericPath =>
          NumericCellsTruthful(v, key, cells, history, day.value);
          var head := NumericCells(key, report, cells, history, v.backfill, day.value);
          ParticipationTruthful(v, key, FirstDay(After(history, head), ParticipationSeries(key), day.value, v.backfill), day.value);
        case NoPath =>
      }
    }
  }

  lemma {:induction false} PlanTruthful(v: View, reports: seq<ReportKey>, order: Order, history: History)
    ensures TruthfulScript(Plan(v.store, reports, order, history, v.backfill, v.utc, v.local), v)
    decreases reports
  {
    if reports == [] {
    } else if reports[0] !in v.store {
      PlanTruthful(v, reports[1..], order, history);
    } else {
      var key := reports[0];
      ReportPlanTruthful(v, key, CellsOf(order, key), history);
      var head := ReportPlan(key, v.store[key], CellsOf(order, key), history, v.backfill, v.utc, v.local);
      PlanTruthful(v, reports[1..], order, After(history, head));
    }
  }

  /** Executing a script writes nothing but what is in it, whatever fails. */
  lemma {:induction false} ExecuteTruthful(script: Script, st: GenState, oracle: Oracle, v: View)
    requires TruthfulScript(script, v)
    ensures var st' := Execute(script, st, oracle).0;
            st.written <= st'.written && forall i :: |st.written| <= i < |st'.written| ==> Truthful(st'.written[i], v)
  {
    if script != [] {
      var (st', status) := DoStep(script[0], st, oracle);
      if status == Ok {
        ExecuteTruthful(script[1..], st', oracle, v);
      }
    }
  }

  lemma {:induction false} FailureHasCause(script: Script, st: GenState, oracle: Oracle, v: View) returns (o: Observation)
    requires TruthfulScript(script, v) && AggregateScripts.NoAbort(script) && Execute(script, st, oracle).1 != Ok
    ensures Truthful(o, v) && !o.series.ParticipationSeries?
    ensures var (st', status) := Execute(script, st, oracle); st.attempts < st'.attempts && status == oracle(st'.attempts - 1)
  {
    var (st', status) := DoStep(script[0], st, oracle);
    if status == Ok {
      o := FailureHasCause(script[1..], st', oracle, v);
    } else {
      o := script[0].obs;
    }
  }

  /** A call fails only for an observation with content: the status it returns is the one that encoding or writing that
      observation returned, last of all. A participation observation that fails is never the reason. */
  lemma CallFailsFor(sys: System, order: Order, call: Call, backfill: nat, oracle: Oracle) returns (o: Observation)
    requires forall k :: k in sys.store && AggregatesValues(sys.store[k].config) ==> sys.store[k].config.aggregation != UnknownType
    requires GenerateWith(sys, order, call, backfill, oracle).1 != Ok
    ensures Truthful(o, View(sys.store, backfill, call.utc, call.Local())) && !o.series.ParticipationSeries?
    ensures var (gen, status) := GenerateWith(sys, order, call, backfill, oracle);
            sys.gen.attempts < gen.attempts && status == oracle(gen.attempts - 1)
  {
    var v := View(sys.store, backfill, call.utc, call.Local());
    PlanTruthful(v, order.reports, order, sys.gen.history);
    AggregateScripts.PlanNoAbort(sys.store, order.reports, order, sys.gen.history, backfill, call.utc, call.Local());
    o := FailureHasCause(Plan(sys.store, order.reports, order, sys.gen.history, backfill, call.utc, call.Local()), sys.gen, oracle, v);
  }

  /** Nothing was stored before the run. */
  ghost predicate NothingLogged(store: Store) {
    && (forall key: ReportKey, cell: Cell :: StoredDays(store, key, cell) == map[])
    && (forall key: ReportKey, code: nat :: StoredActivity(store, key, code) == map[])
  }

  /** An observation tells the raw events that a run accepted for its window. */
  ghost predicate TellsLog(o: Observation, ops: seq<Op>, sys0: System, backfill: nat, oracle: Oracle, report: Report) {
    var key := o.series.report;
    match o.series
    case UniqueSeries(_, code, w) =>
      && o.payload.Activity?
      && (o.payload.wasActive <==>
          exists d: nat :: InWindow(d, o.day, w) && Marked(ops, sys0, backfill, oracle, key, code, d))
    case NumericSeries(_, _, _, w) =>
      && (o.payload.NumericValue? || o.payload.HistogramValue?)
      && exists cell: Cell ::
           && o.series == CellSeries(key, cell, w)
           && Fold(report.config.aggregation, ValuesIn(Accepted(ops, sys0, backfill, oracle, key, cell), o.day, w)) ==
              Some(o.payload.value)
    case ParticipationSeries(_) => o.payload == Participation
  }

  lemma TruthfulFollowsLog(o: Observation, ops: seq<Op>, store: Store, backfill: nat, oracle: Oracle, call: Call)
    requires NothingLogged(store) && CollectedBy(ops, call.utc, call.Local()) && InBounds(call, backfill)
    requires var sys := Run(ops, Initial(store, backfill), backfill, oracle);
             Truthful(o, View(sys.store, backfill, call.utc, call.Local())) &&
             ValidWindows(sys.store[o.series.report].config.windows)
    ensures var sys := Run(ops, Initial(store, backfill), backfill, oracle);
            TellsLog(o, ops, Initial(store, backfill), backfill, oracle, sys.store[o.series.report])
  {
    var sys := Run(ops, Initial(store, backfill), backfill, oracle);
    var key := o.series.report;
    var report := sys.store[key];
    match o.series {
      case UniqueSeries(_, code, w) =>
        AggregateGc.LargestIsLargest(report.config.windows, w);
        assert StoredActivity(store, key, code) == map[];
        UniqueObservationFollowsLog(ops, store, backfill, oracle, key, code, call.utc, call.Local(), o.day, w);
      case NumericSeries(_, _, _, w) =>
        AggregateGc.LargestIsLargest(report.config.windows, w);
        var cell: Cell :| TellsCell(o, report, cell);
        assert StoredDays(store, key, cell) == map[];
        WindowsFollowLog(ops, store, backfill, oracle, key, cell, call.utc, call.Local(), o.day, w);
      case ParticipationSeries(_) =>
    }
  }

  /** After any run of registrations, logged events, garbage collections and generation calls with any failures, every
      observation that the next call writes is for a day of the backfill period that ends with the day passed for the
      report's time zone, and tells exactly the raw events of its window: a numeric one carries the fold
      of the values logged for its report, component and event code, and a unique-actives one whether any event was. */
  lemma WrittenFollowsLog(ops: seq<Op>, store: Store, backfill: nat, oracle: Oracle, order: Order, call: Call, i: nat)
    requires NothingLogged(store) && CollectedBy(ops, call.utc, call.Local()) && InBounds(call, backfill)
    requires var sys := Run(ops, Initial(store, backfill), backfill, oracle);
             && (forall k :: k in sys.store ==> ValidWindows(sys.store[k].config.windows))
             && |sys.gen.written| <= i < |GenerateWith(sys, order, call, backfill, oracle).0.written|
    ensures var sys := Run(ops, Initial(store, backfill), backfill, oracle);
            var o := GenerateWith(sys, order, call, backfill, oracle).0.written[i];
            && o.series.report in sys.store
            && InPeriod(sys.store[o.series.report].config, call, backfill, o.day)
            && TellsLog(o, ops, Initial(store, backfill), backfill, oracle, sys.store[o.series.report])
  {
    var sys := Run(ops, Initial(store, backfill), backfill, oracle);
    var v := View(sys.store, backfill, call.utc, call.Local());
    var plan := Plan(sys.store, order.reports, order, sys.gen.history, backfill, call.utc, call.Local());
    PlanTruthful(v, order.reports, order, sys.gen.history);
    ExecuteTruthful(plan, sys.gen, oracle, v);
    var o := Execute(plan, sys.gen, oracle).0.written[i];
    NotSkipped(sys.store[o.series.report].config, call, backfill);
    TruthfulFollowsLog(o, ops, store, backfill, oracle, call);
  }
}
