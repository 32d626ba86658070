/** Runs as they look from outside: the registrations, the logged events and the days of the generation calls, without the
    stored aggregates, the observation history, garbage collection and the order in which maps are iterated. What the next
    call attempts is a function of that, whatever failed before. */
module AggregateVisible {
  import opened Common
  import opened AggregationWindows
  import opened AggregateModel
  import opened AggregateScripts
  import opened AggregateSeries
  import opened AggregateRuns
  import opened AggregateLog
  import opened AggregateGc
  import AggregateComplete

  /** The operations of a run without its garbage collections and without the iteration orders. */
  function Visible(ops: seq<Op>): seq<Op> {
    if ops == [] then []
    else
      var front := Visible(ops[..|ops| - 1]);
      match ops[|ops| - 1]
      case GarbageCollect(_) => front
      case Generate(_, call) => front + [Generate(Order([], map[]), call)]
      case op => front + [op]
  }

  function Front(v: seq<Op>): seq<Op>
    requires v != []
  {
    v[..|v| - 1]
  }

  function Last(v: seq<Op>): Op
    requires v != []
  {
    v[|v| - 1]
  }

  /** The configuration that a report was registered with. */
  function ConfigOf(v: seq<Op>, key: ReportKey): Option<Config> {
    if v == [] then None
    else
      var before, op := ConfigOf(Front(v), key), Last(v);
      if before.None? && op.Insert? && op.key == key && op.config.reportType != OtherReport then Some(op.config) else before
  }

  predicate TakesNumbers(config: Option<Config>) {
    config.Some? && config.value.reportType in {PerDeviceNumericStats, PerDeviceHistogram}
  }

  predicate TakesActivity(config: Option<Config>) {
    config.Some? && config.value.reportType == UniqueNDayActives
  }

  /** The numeric events logged for a component and event code of a registered report. */
  function Values(v: seq<Op>, key: ReportKey, cell: Cell): seq<Event> {
    if v == [] then []
    else
      var before, op := Values(Front(v), key, cell), Last(v);
      if op.LogNumeric? && op.key == key && op.cell == cell && TakesNumbers(ConfigOf(Front(v), key))
      then before + [Event(op.day, op.value)] else before
  }

  /** Whether activity was logged for an event code and a day of a registered report. */
  predicate Active(v: seq<Op>, key: ReportKey, code: nat, d: nat) {
    v != []
    && (|| Active(Front(v), key, code, d)
        || (var op := Last(v);
            op.LogActive? && op.key == key && op.code % UINT32_SIZE == code && op.day == d && TakesActivity(ConfigOf(Front(v), key))))
  }

  /** The final day of a call for a report, unless the report is unknown or skipped. */
  function CallDay(v: seq<Op>, key: ReportKey, call: Call): Option<nat> {
    match ConfigOf(v, key)
    case None => None
    case Some(config) => FinalDayOf(config, call)
  }

  /** The final day of the latest call that generated the report. */
  function Reached(v: seq<Op>, key: ReportKey): nat {
    if v == [] then 0
    else
      var op := Last(v);
      if op.Generate? && CallDay(Front(v), key, op.call).Some? then CallDay(Front(v), key, op.call).value
      else Reached(Front(v), key)
  }

  /** Activity was logged for one of the w days ending on `day`. */
  ghost predicate ActiveWithin(v: seq<Op>, key: ReportKey, code: nat, day: nat, w: nat) {
    exists d: nat :: d <= day < d + w && Active(v, key, code, d)
  }

  /** An observation tells the events logged in its window. */
  ghost predicate Tells(v: seq<Op>, config: Config, o: Observation) {
    match o.series
    case UniqueSeries(key, code, w) =>
      && CountsActivity(config) && code < config.numEventCodes && Days(w) in config.windows
      && o.payload.Activity?
      && (o.payload.wasActive <==> ActiveWithin(v, key, code, o.day, w))
    case NumericSeries(_, _, _, w) =>
      AggregatesValues(config) && Days(w) in config.windows && exists cell: Cell :: TellsValues(v, config, o, cell)
    case ParticipationSeries(_) => AggregatesValues(config) && o.payload == Participation
  }

  predicate TellsValues(v: seq<Op>, config: Config, o: Observation, cell: Cell)
    requires o.series.NumericSeries?
  {
    var s := o.series;
    var fold := Fold(config.aggregation, ValuesIn(Values(v, s.report, cell), o.day, s.window));
    && s.component == cell.component && s.code == cell.code % 0x1_0000_0000
    && fold.Some?
    && o.payload == if config.reportType == PerDeviceHistogram then HistogramValue(fold.value) else NumericValue(fold.value)
  }

  // ---------------------------------------------------------------- Runs

  /** A run from an empty store in which nothing fails. */
  function RunOf(ops: seq<Op>, backfill: nat, oracle: Oracle): System { Run(ops, Initial(map[], backfill), backfill, oracle) }

  predicate Usable(config: Config) {
    ValidWindows(config.windows) && (PathOf(config) == NumericPath ==> config.aggregation != UnknownType)
  }

  /** What the next operation of a run must respect: registered configurations are usable, a numeric event is not for a
      day that was already generated, and a generation call passes its checks, iterates over the whole store and is not
      earlier than an earlier generation call or garbage collection. */
  ghost predicate Timely(op: Op, ops: seq<Op>, backfill: nat, oracle: Oracle) {
    match op
    case Insert(_, config) => Usable(config)
    case LogNumeric(key, _, day, _) => Reached(Visible(ops), key) < day
    case Generate(order, call) =>
      && InBounds(call, backfill) && Enumerates(order, RunOf(ops, backfill, oracle).store)
      && RunOf(ops, backfill, oracle).utc <= call.utc && RunOf(ops, backfill, oracle).local <= call.Local()
      && CollectedBy(ops, call.utc, call.Local())
    case _ => true
  }

  ghost predicate TimelyRun(ops: seq<Op>, backfill: nat, oracle: Oracle) {
    ops == [] || (TimelyRun(Front(ops), backfill, oracle) && Timely(Last(ops), Front(ops), backfill, oracle))
  }

  /** No two logged entries of a report share a label. */
  predicate LabelsApart(v: seq<Op>) {
    forall i, j ::
      0 <= i < |v| && 0 <= j < |v| && v[i].LogNumeric? && v[j].LogNumeric? && v[i].key == v[j].key && v[i].cell != v[j].cell
      ==> DifferentLabels(v[i].cell, v[j].cell)
  }

  // ---------------------------------------------------------------- The store follows the visible operations

  lemma VisibleStep(ops: seq<Op>)
    requires ops != []
    ensures var v, v' := Visible(Front(ops)), Visible(ops);
            if Last(ops).GarbageCollect? then v' == v
            else v' != [] && Front(v') == v &&
                 if Last(ops).Generate? then Last(v').Generate? && Last(v').call == Last(ops).call else Last(v') == Last(ops)
  {
  }

  lemma ConfigStep(ops: seq<Op>, key: ReportKey)
    requires ops != []
    ensures var before, op := ConfigOf(Visible(Front(ops)), key), Last(ops);
            ConfigOf(Visible(ops), key) ==
            if before.None? && op.Insert? && op.key == key && op.config.reportType != OtherReport then Some(op.config) else before
  {
    VisibleStep(ops);
  }

  lemma ReachedStep(ops: seq<Op>, key: ReportKey)
    requires ops != []
    ensures var v, op := Visible(Front(ops)), Last(ops);
            Reached(Visible(ops), key) ==
            if op.Generate? && CallDay(v, key, op.call).Some? then CallDay(v, key, op.call).value else Reached(v, key)
  {
    VisibleStep(ops);
  }

  lemma {:induction false} ReachedNeedsConfig(v: seq<Op>, key: ReportKey)
    requires ConfigOf(v, key).None?
    ensures Reached(v, key) == 0
  {
    if v != [] {
      ReachedNeedsConfig(Front(v), key);
    }
  }

  /** A report that is stored keeps its configuration and its kind of aggregates; only a registration adds one. */
  lemma KindKept(op: Op, sys: System, backfill: nat, oracle: Oracle, key: ReportKey)
    ensures var store, store' := sys.store, Apply(op, sys, backfill, oracle).store;
            if key in store
            then && key in store' && store'[key].config == store[key].config
                 && (store'[key].aggregates.Numeric? <==> store[key].aggregates.Numeric?)
                 && (store'[key].aggregates.UniqueActives? <==> store[key].aggregates.UniqueActives?)
            else if op.Insert? && op.key == key && op.config.reportType != OtherReport
            then key in store' && store'[key] == Report(op.config, EmptyAggregates(op.config.reportType))
            else key !in store'
  {
  }

  lemma {:induction false} StoreFollows(ops: seq<Op>, backfill: nat, oracle: Oracle, key: ReportKey)
    ensures var store, config := RunOf(ops, backfill, oracle).store, ConfigOf(Visible(ops), key);
            && (key in store <==> config.Some?)
            && (key in store ==> && store[key].config == config.value
                                 && (store[key].aggregates.Numeric? <==> TakesNumbers(config))
                                 && (store[key].aggregates.UniqueActives? <==> TakesActivity(config)))
  {
    if ops != [] {
      StoreFollows(Front(ops), backfill, oracle, key);
      ConfigStep(ops, key);
      KindKept(Last(ops), RunOf(Front(ops), backfill, oracle), backfill, oracle, key);
    }
  }

  lemma {:induction false} UsableConfig(ops: seq<Op>, backfill: nat, oracle: Oracle, key: ReportKey)
    requires TimelyRun(ops, backfill, oracle) && ConfigOf(Visible(ops), key).Some?
    ensures Usable(ConfigOf(Visible(ops), key).value)
  {
    if ops != [] {
      ConfigStep(ops, key);
      if ConfigOf(Visible(Front(ops)), key).Some? {
        UsableConfig(Front(ops), backfill, oracle, key);
      }
    }
  }

  lemma {:induction false} ValuesFollow(ops: seq<Op>, backfill: nat, oracle: Oracle, key: ReportKey, cell: Cell)
    requires ConfigOf(Visible(ops), key).Some? ==> ConfigOf(Visible(ops), key).value.aggregation != UnknownType
    ensures Accepted(ops, Initial(map[], backfill), backfill, oracle, key, cell) == Values(Visible(ops), key, cell)
  {
    if ops != [] {
      VisibleStep(ops);
      ValuesFollow(Front(ops), backfill, oracle, key, cell);
      StoreFollows(Front(ops), backfill, oracle, key);
    }
  }

  lemma {:induction false} ActiveFollows(ops: seq<Op>, backfill: nat, oracle: Oracle, key: ReportKey, code: nat, d: nat)
    ensures Marked(ops, Initial(map[], backfill), backfill, oracle, key, code, d) == Active(Visible(ops), key, code, d)
  {
    if ops != [] {
      VisibleStep(ops);
      ActiveFollows(Front(ops), backfill, oracle, key, code, d);
      StoreFollows(Front(ops), backfill, oracle, key);
    }
  }

  /** Only a logged numeric event adds an entry. */
  lemma EntryAdded(op: Op, sys: System, backfill: nat, oracle: Oracle, key: ReportKey, cell: Cell)
    requires var store' := Apply(op, sys, backfill, oracle).store; key in store' && HasCell(store'[key].aggregates, cell)
    requires key !in sys.store || !HasCell(sys.store[key].aggregates, cell)
    ensures op.LogNumeric? && op.key == key && op.cell == cell && key in sys.store && sys.store[key].aggregates.Numeric?
  {
  }

  /** An entry that is stored was logged. */
  lemma {:induction false} StoredWasLogged(ops: seq<Op>, backfill: nat, oracle: Oracle, key: ReportKey, cell: Cell)
    requires var store := RunOf(ops, backfill, oracle).store; key in store && HasCell(store[key].aggregates, cell)
    ensures Values(Visible(ops), key, cell) != []
  {
    if ops != [] {
      VisibleStep(ops);
      var before := RunOf(Front(ops), backfill, oracle);
      if key in before.store && HasCell(before.store[key].aggregates, cell) {
        StoredWasLogged(Front(ops), backfill, oracle, key, cell);
      } else {
        StoreFollows(Front(ops), backfill, oracle, key);
        EntryAdded(Last(ops), before, backfill, oracle, key, cell);
      }
    }
  }

  lemma {:induction false} LoggedAt(v: seq<Op>, key: ReportKey, cell: Cell) returns (i: nat)
    requires Values(v, key, cell) != []
    ensures i < |v| && v[i].LogNumeric? && v[i].key == key && v[i].cell == cell
  {
    if Values(Front(v), key, cell) != [] {
      i := LoggedAt(Front(v), key, cell);
    } else {
      i := |v| - 1;
    }
  }

  lemma LoggedApart(v: seq<Op>, key: ReportKey, c: Cell, c': Cell)
    requires LabelsApart(v) && Values(v, key, c) != [] && Values(v, key, c') != [] && !DifferentLabels(c, c')
    ensures c == c'
  {
    var i := LoggedAt(v, key, c);
    var j := LoggedAt(v, key, c');
  }

  lemma SoundReports(ops: seq<Op>, backfill: nat, oracle: Oracle, key: ReportKey)
    requires TimelyRun(ops, backfill, oracle) && LabelsApart(Visible(ops)) && key in RunOf(ops, backfill, oracle).store
    ensures Sound(RunOf(ops, backfill, oracle).store[key]) && ValidWindows(RunOf(ops, backfill, oracle).store[key].config.windows)
  {
    var report := RunOf(ops, backfill, oracle).store[key];
    StoreFollows(ops, backfill, oracle, key);
    UsableConfig(ops, backfill, oracle, key);
    forall c: Cell, c': Cell | HasCell(report.aggregates, c) && HasCell(report.aggregates, c') && !DifferentLabels(c, c') ensures c == c' {
      StoredWasLogged(ops, backfill, oracle, key, c);
      StoredWasLogged(ops, backfill, oracle, key, c');
      LoggedApart(Visible(ops), key, c, c');
    }
  }

  lemma FrontApart(ops: seq<Op>)
    requires ops != [] && LabelsApart(Visible(ops))
    ensures LabelsApart(Visible(Front(ops)))
  {
    VisibleStep(ops);
    var v, v' := Visible(Front(ops)), Visible(ops);
    assert forall i :: 0 <= i < |v| ==> v[i] == v'[i];
  }
  // ---------------------------------------------------------------- The history follows the visible operations

  lemma DaysMove(ops: seq<Op>, backfill: nat, oracle: Oracle)
    requires ops != []
    ensures var before, after, op := RunOf(Front(ops), backfill, oracle), RunOf(ops, backfill, oracle), Last(ops);
            if op.Generate? then after.utc == op.call.utc && after.local == op.call.Local()
            else after.utc == before.utc && after.local == before.local
  {
  }

  /** The days of a call are not before the days that earlier calls reached. */
  lemma {:induction false} ReachedBound(ops: seq<Op>, backfill: nat, oracle: Oracle, key: ReportKey)
    requires TimelyRun(ops, backfill, oracle) && ConfigOf(Visible(ops), key).Some?
    ensures var day := DayFor(ConfigOf(Visible(ops), key).value.zone, RunOf(ops, backfill, oracle).utc, RunOf(ops, backfill, oracle).local);
            Reached(Visible(ops), key) <= (if day.Some? then day.value else 0)
  {
    if ops != [] {
      ConfigStep(ops, key);
      ReachedStep(ops, key);
      DaysMove(ops, backfill, oracle);
      if ConfigOf(Visible(Front(ops)), key).Some? {
        ReachedBound(Front(ops), backfill, oracle, key);
      } else {
        ReachedNeedsConfig(Visible(Front(ops)), key);
      }
    }
  }

  /** The final day that the call itself computes. */
  lemma CallDayIsFinal(ops: seq<Op>, backfill: nat, oracle: Oracle, op: Op, key: ReportKey)
    requires TimelyRun(ops, backfill, oracle) && op.Generate? && Timely(op, ops, backfill, oracle) && ConfigOf(Visible(ops), key).Some?
    ensures CallDay(Visible(ops), key, op.call) == FinalDay(ConfigOf(Visible(ops), key).value, op.call.utc, op.call.Local())
  {
    UsableConfig(ops, backfill, oracle, key);
    NotSkipped(ConfigOf(Visible(ops), key).value, op.call, backfill);
  }

  lemma DaysInOrder(config: Config, utc: nat, local: nat, utc': nat, local': nat, final: nat)
    requires utc <= utc' && local <= local' && FinalDay(config, utc', local') == Some(final)
    ensures DayFor(config.zone, utc', local') == Some(final)
    ensures DayFor(config.zone, utc, local).Some? && DayFor(config.zone, utc, local).value <= final
  {
  }

  lemma ReachedBeforeCall(ops: seq<Op>, backfill: nat, oracle: Oracle, op: Op, key: ReportKey, final: nat)
    requires TimelyRun(ops, backfill, oracle) && op.Generate? && Timely(op, ops, backfill, oracle)
    requires CallDay(Visible(ops), key, op.call) == Some(final)
    ensures Reached(Visible(ops), key) <= final && backfill < final
    ensures FinalDay(ConfigOf(Visible(ops), key).value, op.call.utc, op.call.Local()) == Some(final)
  {
    var sys := RunOf(ops, backfill, oracle);
    ReachedBound(ops, backfill, oracle, key);
    CallDayIsFinal(ops, backfill, oracle, op, key);
    DaysInOrder(ConfigOf(Visible(ops), key).value, sys.utc, sys.local, op.call.utc, op.call.Local(), final);
  }

  // ---------------------------------------------------------------- What the next call is asked for

  /** The series that every call which does not skip the report generates. */
  predicate Always(config: Config, s: Series) {
    match s
    case UniqueSeries(_, code, w) => PathOf(config) == UniquePath && code < config.numEventCodes && Days(w) in config.windows
    case NumericSeries(_, _, _, _) => false
    case ParticipationSeries(_) => PathOf(config) == NumericPath
  }

  lemma AlwaysGenerates(report: Report, s: Series)
    requires Always(report.config, s) && ValidWindows(report.config.windows)
    ensures Generates(report, s)
  {
    if s.UniqueSeries? {
      var i :| 0 <= i < |report.config.windows| && report.config.windows[i] == Days(s.window);
    }
  }

  function HistoryOf(ops: seq<Op>, backfill: nat, oracle: Oracle, s: Series): nat { LastGenerated(RunOf(ops, backfill, oracle).gen.history, s) }

  /** The next call of a run, and a report that it generates. */
  ghost predicate NextCall(ops: seq<Op>, backfill: nat, oracle: Oracle, op: Op, key: ReportKey, final: nat) {
    && TimelyRun(ops, backfill, oracle) && LabelsApart(Visible(ops)) && op.Generate? && Timely(op, ops, backfill, oracle)
    && CallDay(Visible(ops), key, op.call) == Some(final)
  }

  /** The stored window of an entry is the fold of the visible log. */
  lemma StoredWindow(ops: seq<Op>, backfill: nat, oracle: Oracle, op: Op, key: ReportKey, final: nat, cell: Cell, w: nat, day: nat)
    requires NextCall(ops, backfill, oracle, op, key, final) && Start(final, backfill) <= day <= final
    requires var config := ConfigOf(Visible(ops), key).value; PathOf(config) == NumericPath && Days(w) in config.windows
    ensures var config, store := ConfigOf(Visible(ops), key).value, RunOf(ops, backfill, oracle).store;
            && key in store && store[key].config == config && config.aggregation != UnknownType
            && WindowFold(config.aggregation, DaysOf(store[key].aggregates, cell), day, w) ==
               Fold(config.aggregation, ValuesIn(Values(Visible(ops), key, cell), day, w))
  {
    StoreFollows(ops, backfill, oracle, key);
    UsableConfig(ops, backfill, oracle, key);
    LargestIsLargest(ConfigOf(Visible(ops), key).value.windows, w);
    ReachedBeforeCall(ops, backfill, oracle, op, key, final);
    WindowsFollowLog(ops, map[], backfill, oracle, key, cell, op.call.utc, op.call.Local(), day, w);
    ValuesFollow(ops, backfill, oracle, key, cell);
  }

  lemma NoEntryNoValues(ops: seq<Op>, backfill: nat, oracle: Oracle, op: Op, key: ReportKey, final: nat, cell: Cell, w: nat, day: nat)
    requires NextCall(ops, backfill, oracle, op, key, final) && Start(final, backfill) <= day <= final
    requires var config := ConfigOf(Visible(ops), key).value; PathOf(config) == NumericPath && Days(w) in config.windows
    requires key in RunOf(ops, backfill, oracle).store && !HasCell(RunOf(ops, backfill, oracle).store[key].aggregates, cell)
    ensures ValuesIn(Values(Visible(ops), key, cell), day, w) == []
  {
    StoredWindow(ops, backfill, oracle, op, key, final, cell, w, day);
    EmptyFold(ConfigOf(Visible(ops), key).value.aggregation, day, w);
  }

  lemma StepTells(key: ReportKey, config: Config, cell: Cell, days: map<nat, int>, w: nat, o: Observation)
    requires PathOf(config) == NumericPath && config.aggregation != UnknownType && o.series == CellSeries(key, cell, w)
    ensures var fold := WindowFold(config.aggregation, days, o.day, w);
            CellStep(key, config, cell, days, o.day, w) == Emit(o) <==>
            fold.Some? && o.payload == AggregateComplete.PayloadFor(config.reportType, fold.value)
  {
  }

  lemma EntryTells(ops: seq<Op>, backfill: nat, oracle: Oracle, op: Op, final: nat, o: Observation, cell: Cell)
    requires NextCall(ops, backfill, oracle, op, o.series.report, final) && Start(final, backfill) <= o.day <= final && o.series.NumericSeries?
    requires var config := ConfigOf(Visible(ops), o.series.report).value;
             PathOf(config) == NumericPath && Days(o.series.window) in config.windows
    ensures var key := o.series.report;
            && key in RunOf(ops, backfill, oracle).store
            && (AttemptedFor(RunOf(ops, backfill, oracle).store[key], o, cell) <==> TellsValues(Visible(ops), ConfigOf(Visible(ops), key).value, o, cell))
  {
    var s := o.series;
    StoredWindow(ops, backfill, oracle, op, s.report, final, cell, s.window, o.day);
    var report := RunOf(ops, backfill, oracle).store[s.report];
    if s == CellSeries(s.report, cell, s.window) {
      StepTells(s.report, report.config, cell, DaysOf(report.aggregates, cell), s.window, o);
    }
    if !HasCell(report.aggregates, cell) {
      NoEntryNoValues(ops, backfill, oracle, op, s.report, final, cell, s.window, o.day);
    }
  }

  lemma ActiveWithinIsMarked(ops: seq<Op>, backfill: nat, oracle: Oracle, key: ReportKey, code: nat, day: nat, w: nat)
    ensures ActiveWithin(Visible(ops), key, code, day, w) <==>
            exists d: nat :: InWindow(d, day, w) && Marked(ops, Initial(map[], backfill), backfill, oracle, key, code, d)
  {
    if d: nat :| d <= day < d + w && Active(Visible(ops), key, code, d) {
      ActiveFollows(ops, backfill, oracle, key, code, d);
      assert InWindow(d, day, w);
    }
    if d: nat :| InWindow(d, day, w) && Marked(ops, Initial(map[], backfill), backfill, oracle, key, code, d) {
      ActiveFollows(ops, backfill, oracle, key, code, d);
    }
  }

  lemma ActivityTells(ops: seq<Op>, backfill: nat, oracle: Oracle, op: Op, final: nat, o: Observation)
    requires NextCall(ops, backfill, oracle, op, o.series.report, final) && Start(final, backfill) <= o.day <= final && o.series.UniqueSeries?
    requires Always(ConfigOf(Visible(ops), o.series.report).value, o.series)
    ensures var key := o.series.report;
            && key in RunOf(ops, backfill, oracle).store
            && (Attempted(RunOf(ops, backfill, oracle).store[key], o) <==> Tells(Visible(ops), ConfigOf(Visible(ops), key).value, o))
  {
    var s, key := o.series, o.series.report;
    StoreFollows(ops, backfill, oracle, key);
    UsableConfig(ops, backfill, oracle, key);
    LargestIsLargest(ConfigOf(Visible(ops), key).value.windows, s.window);
    ReachedBeforeCall(ops, backfill, oracle, op, key, final);
    UniqueObservationFollowsLog(ops, map[], backfill, oracle, key, s.code, op.call.utc, op.call.Local(), o.day, s.window);
    ActiveWithinIsMarked(ops, backfill, oracle, key, s.code, o.day, s.window);
  }

  /** A report attempts an observation of its backfill period exactly when it tells what was logged. */
  lemma AttemptTells(ops: seq<Op>, backfill: nat, oracle: Oracle, op: Op, final: nat, o: Observation)
    requires NextCall(ops, backfill, oracle, op, o.series.report, final) && Start(final, backfill) <= o.day <= final
    ensures var key := o.series.report;
            && key in RunOf(ops, backfill, oracle).store
            && (Generates(RunOf(ops, backfill, oracle).store[key], o.series) && Attempted(RunOf(ops, backfill, oracle).store[key], o) <==>
                Tells(Visible(ops), ConfigOf(Visible(ops), key).value, o))
  {
    var key := o.series.report;
    StoreFollows(ops, backfill, oracle, key);
    UsableConfig(ops, backfill, oracle, key);
    var report, config := RunOf(ops, backfill, oracle).store[key], ConfigOf(Visible(ops), key).value;
    if Always(config, o.series) {
      AlwaysGenerates(report, o.series);
      if o.series.UniqueSeries? {
        ActivityTells(ops, backfill, oracle, op, final, o);
      }
    } else if o.series.NumericSeries? && PathOf(config) == NumericPath && Days(o.series.window) in config.windows {
      forall cell: Cell ensures AttemptedFor(report, o, cell) <==> TellsValues(Visible(ops), config, o, cell) {
        EntryTells(ops, backfill, oracle, op, final, o, cell);
      }
      assert Attempted(report, o) ==> HasEntry(report.aggregates, o.series);
    }
  }

  // ---------------------------------------------------------------- Events that come late

  lemma {:induction false} LateNotIn(log: seq<Event>, e: Event, day: nat, w: nat)
    requires day < e.day
    ensures ValuesIn(log + [e], day, w) == ValuesIn(log, day, w)
  {
    assert (log + [e])[..|log|] == log;
  }

  /** No activity was logged for a day that was already reached. */
  predicate TimelyActivity(v: seq<Op>) {
    v == []
    || (TimelyActivity(Front(v)) && (Last(v).LogActive? ==> Reached(Front(v), Last(v).key) < Last(v).day))
  }

  lemma ValuesKept(ops: seq<Op>, backfill: nat, oracle: Oracle, key: ReportKey, cell: Cell, day: nat, w: nat)
    requires ops != [] && TimelyRun(ops, backfill, oracle) && day <= Reached(Visible(Front(ops)), key)
    ensures ValuesIn(Values(Visible(ops), key, cell), day, w) == ValuesIn(Values(Visible(Front(ops)), key, cell), day, w)
  {
    VisibleStep(ops);
    var op := Last(ops);
    if op.LogNumeric? && op.key == key {
      LateNotIn(Values(Visible(Front(ops)), key, cell), Event(op.day, op.value), day, w);
    }
  }

  lemma ActivityKept(ops: seq<Op>, key: ReportKey, code: nat, d: nat)
    requires ops != [] && TimelyActivity(Visible(ops)) && d <= Reached(Visible(Front(ops)), key)
    ensures Active(Visible(ops), key, code, d) == Active(Visible(Front(ops)), key, code, d) && TimelyActivity(Visible(Front(ops)))
  {
    VisibleStep(ops);
  }

  /** What the events tell about a day that was already reached does not change any more. */
  lemma TellsKept(ops: seq<Op>, backfill: nat, oracle: Oracle, config: Config, o: Observation)
    requires ops != [] && TimelyRun(ops, backfill, oracle) && o.day <= Reached(Visible(Front(ops)), o.series.report)
    requires o.series.UniqueSeries? ==> TimelyActivity(Visible(ops))
    ensures Tells(Visible(ops), config, o) <==> Tells(Visible(Front(ops)), config, o)
  {
    var v, v' := Visible(Front(ops)), Visible(ops);
    match o.series {
      case UniqueSeries(key, code, w) =>
        forall d: nat | d <= o.day ensures Active(v', key, code, d) == Active(v, key, code, d) {
          ActivityKept(ops, key, code, d);
        }
      case NumericSeries(key, _, _, w) =>
        forall cell: Cell ensures TellsValues(v', config, o, cell) <==> TellsValues(v, config, o, cell) {
          ValuesKept(ops, backfill, oracle, key, cell, o.day, w);
        }
      case ParticipationSeries(_) =>
    }
  }
}
