/** The whole output of a run as a function of what was logged: over runs in which nothing fails and no numeric event
    comes late, the observations that were written, with their multiplicities, are determined by the registrations, the
    logged events and the days of the generation calls. */
module AggregateExact {
  import opened AggregationWindows
  import opened AggregateModel
  import opened AggregateScripts
  import opened AggregateSeries
  import opened AggregateRuns
  import opened AggregateLog
  import opened AggregateVisible

  /** How often a call owes an observation: it is for a day of the backfill period that no earlier call reached, and it
      tells what was logged. */
  ghost function Owes(v: seq<Op>, call: Call, backfill: nat, o: Observation): nat {
    var key := o.series.report;
    match CallDay(v, key, call)
    case None => 0
    case Some(final) =>
      var config := ConfigOf(v, key).value;
      if final - backfill <= o.day <= final && Reached(v, key) < o.day && Tells(v, config, o)
      then (if o.series.NumericSeries? then multiset(config.windows)[Days(o.series.window)] else 1) else 0
  }

  /** How often a run owes an observation. */
  ghost function Expected(v: seq<Op>, backfill: nat, o: Observation): nat {
    if v == [] then 0
    else Expected(Front(v), backfill, o) + if Last(v).Generate? then Owes(Front(v), Last(v).call, backfill, o) else 0
  }

  // ---------------------------------------------------------------- The history follows the visible operations

  lemma {:induction false} NothingFails(script: Script, st: GenState)
    requires NoAbort(script)
    ensures Execute(script, st, AlwaysOk()).1 == Ok
  {
    if script != [] {
      NothingFails(script[1..], DoStep(script[0], st, AlwaysOk()).0);
    }
  }

  /** A call in which nothing fails goes through its whole plan. */
  lemma PlanCompletes(ops: seq<Op>, backfill: nat, op: Op)
    requires TimelyRun(ops, backfill, AlwaysOk()) && op.Generate?
    ensures var sys := RunOf(ops, backfill, AlwaysOk());
            var plan := Plan(sys.store, op.order.reports, op.order, sys.gen.history, backfill, op.call.utc, op.call.Local());
            NoAbort(plan) && Apply(op, sys, backfill, AlwaysOk()).gen.history == After(sys.gen.history, plan)
  {
    var sys := RunOf(ops, backfill, AlwaysOk());
    forall k | k in sys.store && PathOf(sys.store[k].config) == NumericPath ensures sys.store[k].config.aggregation != UnknownType {
      StoreFollows(ops, backfill, AlwaysOk(), k);
      UsableConfig(ops, backfill, AlwaysOk(), k);
    }
    PlanNoAbort(sys.store, op.order.reports, op.order, sys.gen.history, backfill, op.call.utc, op.call.Local());
    var plan := Plan(sys.store, op.order.reports, op.order, sys.gen.history, backfill, op.call.utc, op.call.Local());
    NothingFails(plan, sys.gen);
    CompletedHistory(plan, sys.gen, AlwaysOk());
  }

  /** Where a call leaves the history of a series. */
  lemma CallMoves(ops: seq<Op>, backfill: nat, op: Op, s: Series)
    requires TimelyRun(ops, backfill, AlwaysOk()) && LabelsApart(Visible(ops)) && op.Generate? && Timely(op, ops, backfill, AlwaysOk())
    ensures var store, final := RunOf(ops, backfill, AlwaysOk()).store, CallDay(Visible(ops), s.report, op.call);
            var before := HistoryOf(ops, backfill, AlwaysOk(), s);
            var after := LastGenerated(Apply(op, RunOf(ops, backfill, AlwaysOk()), backfill, AlwaysOk()).gen.history, s);
            && (final.Some? ==> s.report in store)
            && after == if final.Some? && Generates(store[s.report], s) && before <= final.value then final.value else before
  {
    var sys := RunOf(ops, backfill, AlwaysOk());
    StoreFollows(ops, backfill, AlwaysOk(), s.report);
    PlanCompletes(ops, backfill, op);
    if s.report in sys.store {
      SoundReports(ops, backfill, AlwaysOk(), s.report);
      CallDayIsFinal(ops, backfill, AlwaysOk(), op, s.report);
    }
    PlanEnds(sys.store, op.order, sys.gen.history, backfill, op.call.utc, op.call.Local(), s);
  }

  /** The history of a series never passes the day that calls reached for its report; the series that every call
      generates are just there. */
  lemma {:induction false} HistoryTracks(ops: seq<Op>, backfill: nat, s: Series)
    requires TimelyRun(ops, backfill, AlwaysOk()) && LabelsApart(Visible(ops))
    ensures HistoryOf(ops, backfill, AlwaysOk(), s) <= Reached(Visible(ops), s.report)
    ensures ConfigOf(Visible(ops), s.report).Some? && Always(ConfigOf(Visible(ops), s.report).value, s) ==>
            HistoryOf(ops, backfill, AlwaysOk(), s) == Reached(Visible(ops), s.report)
  {
    if ops != [] {
      var front, op, key := Front(ops), Last(ops), s.report;
      VisibleStep(ops);
      FrontApart(ops);
      HistoryTracks(front, backfill, s);
      if ConfigOf(Visible(front), key).None? {
        ReachedNeedsConfig(Visible(front), key);
      }
      if op.Generate? {
        CallMoves(front, backfill, op, s);
        var final := CallDay(Visible(front), key, op.call);
        if final.Some? {
          ReachedBeforeCall(front, backfill, AlwaysOk(), op, key, final.value);
          StoreFollows(front, backfill, AlwaysOk(), key);
          UsableConfig(front, backfill, AlwaysOk(), key);
          if Always(ConfigOf(Visible(front), key).value, s) {
            AlwaysGenerates(RunOf(front, backfill, AlwaysOk()).store[key], s);
          }
        }
      }
    }
  }

  /** For every day that a call reached for the report but not for the series, the window is empty. */
  lemma {:induction false} PassedOver(ops: seq<Op>, backfill: nat, key: ReportKey, cell: Cell, w: nat, day: nat)
    requires TimelyRun(ops, backfill, AlwaysOk()) && LabelsApart(Visible(ops)) && ConfigOf(Visible(ops), key).Some?
    requires var config := ConfigOf(Visible(ops), key).value; PathOf(config) == NumericPath && Days(w) in config.windows
    requires HistoryOf(ops, backfill, AlwaysOk(), CellSeries(key, cell, w)) < day <= Reached(Visible(ops), key)
    requires Start(Reached(Visible(ops), key), backfill) <= day
    ensures ValuesIn(Values(Visible(ops), key, cell), day, w) == []
  {
    if ops != [] {
      var front, op := Front(ops), Last(ops);
      VisibleStep(ops);
      FrontApart(ops);
      if ConfigOf(Visible(front), key).None? {
        ReachedNeedsConfig(Visible(front), key);
      } else if op.Generate? && CallDay(Visible(front), key, op.call).Some? {
        PassedOverByCall(front, backfill, op, key, cell, w, day, CallDay(Visible(front), key, op.call).value);
      } else {
        if op.Generate? {
          CallMoves(front, backfill, op, CellSeries(key, cell, w));
        }
        PassedOver(front, backfill, key, cell, w, day);
        ValuesKept(ops, backfill, AlwaysOk(), key, cell, day, w);
      }
    }
  }

  lemma PassedOverByCall(ops: seq<Op>, backfill: nat, op: Op, key: ReportKey, cell: Cell, w: nat, day: nat, final: nat)
    requires NextCall(ops, backfill, AlwaysOk(), op, key, final) && Start(final, backfill) <= day <= final
    requires var config := ConfigOf(Visible(ops), key).value; PathOf(config) == NumericPath && Days(w) in config.windows
    requires LastGenerated(Apply(op, RunOf(ops, backfill, AlwaysOk()), backfill, AlwaysOk()).gen.history, CellSeries(key, cell, w)) < day
    ensures ValuesIn(Values(Visible(ops), key, cell), day, w) == []
  {
    var s := CellSeries(key, cell, w);
    CallMoves(ops, backfill, op, s);
    StoreFollows(ops, backfill, AlwaysOk(), key);
    HistoryTracks(ops, backfill, s);
    ReachedBeforeCall(ops, backfill, AlwaysOk(), op, key, final);
    var report := RunOf(ops, backfill, AlwaysOk()).store[key];
    assert !HasEntry(report.aggregates, s);
    assert !HasCell(report.aggregates, cell);
    NoEntryNoValues(ops, backfill, AlwaysOk(), op, key, final, cell, w, day);
  }

  // ---------------------------------------------------------------- What a call attempts

  /** Nothing that the events tell about a day which was already reached is still open. */
  lemma ReachedIsClosed(ops: seq<Op>, backfill: nat, op: Op, final: nat, o: Observation)
    requires NextCall(ops, backfill, AlwaysOk(), op, o.series.report, final) && Start(final, backfill) <= o.day <= Reached(Visible(ops), o.series.report)
    requires Tells(Visible(ops), ConfigOf(Visible(ops), o.series.report).value, o)
    ensures o.day <= HistoryOf(ops, backfill, AlwaysOk(), o.series)
  {
    var s, v := o.series, Visible(ops);
    HistoryTracks(ops, backfill, s);
    ReachedBeforeCall(ops, backfill, AlwaysOk(), op, s.report, final);
    if s.NumericSeries? && HistoryOf(ops, backfill, AlwaysOk(), s) < o.day {
      var cell: Cell :| TellsValues(v, ConfigOf(v, s.report).value, o, cell);
      PassedOver(ops, backfill, s.report, cell, s.window, o.day);
      assert false;
    }
  }

  /** The days that the history of a generated series leaves open are the days that the visible operations leave open. */
  lemma OpenDays(ops: seq<Op>, backfill: nat, op: Op, final: nat, o: Observation)
    requires NextCall(ops, backfill, AlwaysOk(), op, o.series.report, final)
    ensures var key, h := o.series.report, RunOf(ops, backfill, AlwaysOk()).gen.history;
            && key in RunOf(ops, backfill, AlwaysOk()).store
            && var report := RunOf(ops, backfill, AlwaysOk()).store[key];
               (FirstDay(h, o.series, final, backfill) <= o.day <= final && Generates(report, o.series) && Attempted(report, o)) <==>
               (Start(final, backfill) <= o.day <= final && Reached(Visible(ops), key) < o.day && Tells(Visible(ops), report.config, o))
  {
    StoreFollows(ops, backfill, AlwaysOk(), o.series.report);
    HistoryTracks(ops, backfill, o.series);
    if Start(final, backfill) <= o.day <= final {
      AttemptTells(ops, backfill, AlwaysOk(), op, final, o);
      if o.day <= Reached(Visible(ops), o.series.report) && Tells(Visible(ops), ConfigOf(Visible(ops), o.series.report).value, o) {
        ReachedIsClosed(ops, backfill, op, final, o);
      }
    }
  }

  /** Everything that a call attempts, with multiplicities, is what the visible operations make it owe. */
  lemma CallExact(ops: seq<Op>, backfill: nat, op: Op, o: Observation)
    requires TimelyRun(ops, backfill, AlwaysOk()) && LabelsApart(Visible(ops)) && op.Generate? && Timely(op, ops, backfill, AlwaysOk())
    ensures var sys := RunOf(ops, backfill, AlwaysOk());
            var plan := Plan(sys.store, op.order.reports, op.order, sys.gen.history, backfill, op.call.utc, op.call.Local());
            Times(plan, o) == Owes(Visible(ops), op.call, backfill, o)
  {
    var sys, s := RunOf(ops, backfill, AlwaysOk()), o.series;
    StoreFollows(ops, backfill, AlwaysOk(), s.report);
    if s.report in sys.store {
      SoundReports(ops, backfill, AlwaysOk(), s.report);
      CallDayIsFinal(ops, backfill, AlwaysOk(), op, s.report);
    }
    var final := CallDay(Visible(ops), s.report, op.call);
    if final.Some? {
      ReachedBeforeCall(ops, backfill, AlwaysOk(), op, s.report, final.value);
      OpenDays(ops, backfill, op, final.value, o);
    }
    PlanAttempts(sys.store, op.order, sys.gen.history, backfill, op.call.utc, op.call.Local(), o);
  }

  // ---------------------------------------------------------------- The whole output

  /** Over every timely run in which nothing fails, each observation was written exactly as often as the registrations,
      the logged events and the days of the calls make the run owe it. */
  lemma {:induction false} WrittenExactly(ops: seq<Op>, backfill: nat, o: Observation)
    requires TimelyRun(ops, backfill, AlwaysOk()) && LabelsApart(Visible(ops))
    ensures multiset(RunOf(ops, backfill, AlwaysOk()).gen.written)[o] == Expected(Visible(ops), backfill, o)
  {
    if ops != [] {
      var front, op := Front(ops), Last(ops);
      VisibleStep(ops);
      FrontApart(ops);
      WrittenExactly(front, backfill, o);
      if op.Generate? {
        var sys := RunOf(front, backfill, AlwaysOk());
        PlanCompletes(front, backfill, op);
        var plan := Plan(sys.store, op.order.reports, op.order, sys.gen.history, backfill, op.call.utc, op.call.Local());
        AllAttemptsWritten(plan, sys.gen, o);
        CallExact(front, backfill, op, o);
      }
    }
  }

  /** Garbage collection and iteration order are invisible over whole runs: two timely runs that differ in nothing else
      write the same bag of observations. */
  lemma GcInvisibleOverRuns(ops: seq<Op>, ops': seq<Op>, backfill: nat)
    requires TimelyRun(ops, backfill, AlwaysOk()) && TimelyRun(ops', backfill, AlwaysOk())
    requires Visible(ops) == Visible(ops') && LabelsApart(Visible(ops))
    ensures multiset(RunOf(ops, backfill, AlwaysOk()).gen.written) == multiset(RunOf(ops', backfill, AlwaysOk()).gen.written)
  {
    forall o: Observation
      ensures multiset(RunOf(ops, backfill, AlwaysOk()).gen.written)[o] == multiset(RunOf(ops', backfill, AlwaysOk()).gen.written)[o]
    {
      WrittenExactly(ops, backfill, o);
      WrittenExactly(ops', backfill, o);
    }
  }
}
