/** Nothing that a call owes is missing: a call of GenerateObservations that returns kOK has written the numeric
    observation of every entry, daily window and day that was still due and whose window holds a value. */
module AggregateComplete {
  import opened Common
  import opened AggregationWindows
  import opened AggregateModel
  import opened AggregateRuns
  import opened AggregateOnce
  import opened AggregateLog
  import opened AggregateScripts
  import opened AggregateSeries
  import AggregateGc

  /** A component and event code, window and day for which a call still owes an observation. */
  ghost predicate Due(store: Store, history: History, backfill: nat, call: Call, key: ReportKey, cell: Cell, w: nat, day: nat) {
    && key in store && InBounds(call, backfill)
    && var config := store[key].config;
       && AggregatesValues(config) && config.aggregation != UnknownType && ValidWindows(config.windows)
       && Days(w) in config.windows && InPeriod(config, call, backfill, day)
       && LastGenerated(history, CellSeries(key, cell, w)) < day
  }

  /** The kind of observation that the report type asks for. */
  function PayloadFor(reportType: ReportType, v: int): Payload {
    if reportType == PerDeviceHistogram then HistogramValue(v) else NumericValue(v)
  }

  /** A call that returns kOK has written, for every due window that holds a stored value, the observation with the
      window's aggregate, exactly as often as the report lists the window. */
  lemma DueIsWritten(store: Store, order: Order, st: GenState, backfill: nat, call: Call, oracle: Oracle,
                     key: ReportKey, cell: Cell, w: nat, day: nat, v: int)
    requires Enumerates(order, store) && Due(store, st.history, backfill, call, key, cell, w, day)
    requires DistinctLabels(store[key].aggregates)
    requires WindowFold(store[key].config.aggregation, DaysOf(store[key].aggregates, cell), day, w) == Some(v)
    requires Execute(Plan(store, order.reports, order, st.history, backfill, call.utc, call.Local()), st, oracle).1 == Ok
    ensures var plan := Plan(store, order.reports, order, st.history, backfill, call.utc, call.Local());
            var o := Observation(CellSeries(key, cell, w), day, PayloadFor(store[key].config.reportType, v));
            multiset(Execute(plan, st, oracle).0.written)[o] == multiset(st.written)[o] + multiset(store[key].config.windows)[Days(w)]
  {
    var o := Observation(CellSeries(key, cell, w), day, PayloadFor(store[key].config.reportType, v));
    if !HasCell(store[key].aggregates, cell) {
      AggregateGc.EmptyFold(store[key].config.aggregation, day, w);
      assert false;
    }
    assert AttemptedFor(store[key], o, cell);
    NotSkipped(store[key].config, call, backfill);
    OkCall(store, order, st, backfill, call.utc, call.Local(), oracle, o);
  }

  /** What the run so far promises for the next call about one window of one component and event code. */
  ghost predicate Owed(ops: seq<Op>, store: Store, backfill: nat, oracle: Oracle, order: Order, call: Call,
                       key: ReportKey, cell: Cell, w: nat, day: nat)
  {
    var sys := Run(ops, Initial(store, backfill), backfill, oracle);
    && StoredDays(store, key, cell) == map[] && CollectedBy(ops, call.utc, call.Local()) && InBounds(call, backfill)
    && Enumerates(order, sys.store)
    && Due(sys.store, sys.gen.history, backfill, call, key, cell, w, day)
    && ValidWindows(sys.store[key].config.windows) && DistinctLabels(sys.store[key].aggregates)
    && ValuesIn(Accepted(ops, Initial(store, backfill), backfill, oracle, key, cell), day, w) != []
  }

  /** The fold of the values that a run logged for a window. */
  function LoggedFold(ops: seq<Op>, store: Store, backfill: nat, oracle: Oracle, aggregation: AggregationType,
                      key: ReportKey, cell: Cell, w: nat, day: nat): Option<int>
  {
    Fold(aggregation, ValuesIn(Accepted(ops, Initial(store, backfill), backfill, oracle, key, cell), day, w))
  }

  lemma OwedFold(ops: seq<Op>, store: Store, backfill: nat, oracle: Oracle, order: Order, call: Call,
                 key: ReportKey, cell: Cell, w: nat, day: nat)
    requires Owed(ops, store, backfill, oracle, order, call, key, cell, w, day)
    ensures var report := Run(ops, Initial(store, backfill), backfill, oracle).store[key];
            var fold := LoggedFold(ops, store, backfill, oracle, report.config.aggregation, key, cell, w, day);
            fold.Some? && WindowFold(report.config.aggregation, DaysOf(report.aggregates, cell), day, w) == fold
  {
    var report := Run(ops, Initial(store, backfill), backfill, oracle).store[key];
    AggregateGc.LargestIsLargest(report.config.windows, w);
    WindowsFollowLog(ops, store, backfill, oracle, key, cell, call.utc, call.Local(), day, w);
  }

  /** Over every run: a kOK call writes, for every due window in which some value was logged, the fold of the values
      logged in that window, exactly as often as the report lists the window. */
  lemma LoggedIsWritten(ops: seq<Op>, store: Store, backfill: nat, oracle: Oracle, order: Order, call: Call,
                        key: ReportKey, cell: Cell, w: nat, day: nat)
    requires Owed(ops, store, backfill, oracle, order, call, key, cell, w, day)
    requires GenerateWith(Run(ops, Initial(store, backfill), backfill, oracle), order, call, backfill, oracle).1 == Ok
    ensures var sys := Run(ops, Initial(store, backfill), backfill, oracle);
            var config := sys.store[key].config;
            var fold := LoggedFold(ops, store, backfill, oracle, config.aggregation, key, cell, w, day);
            && fold.Some?
            && var o := Observation(CellSeries(key, cell, w), day, PayloadFor(config.reportType, fold.value));
               multiset(GenerateWith(sys, order, call, backfill, oracle).0.written)[o] ==
               multiset(sys.gen.written)[o] + multiset(config.windows)[Days(w)]
  {
    OwedFold(ops, store, backfill, oracle, order, call, key, cell, w, day);
    var sys := Run(ops, Initial(store, backfill), backfill, oracle);
    var fold := LoggedFold(ops, store, backfill, oracle, sys.store[key].config.aggregation, key, cell, w, day);
    DueIsWritten(sys.store, order, sys.gen, backfill, call, oracle, key, cell, w, day, fold.value);
  }

  lemma {:induction false} Positions<T>(s: seq<T>, x: T) returns (a: nat, b: nat)
    requires 2 <= multiset(s)[x]
    ensures a < b < |s| && s[a] == s[b] == x
  {
    var front, last := s[..|s| - 1], |s| - 1;
    assert s == front + [s[last]];
    if s[last] != x {
      a, b := Positions(front, x);
    } else {
      assert x in multiset(front);
      a :| 0 <= a < |front| && front[a] == x;
      b := last;
    }
  }

  /** The converse of exactly-once: over every run, a kOK call writes the same observation twice for every due window in
      which some value was logged and which the report lists more than once. */
  lemma RepeatedWindowWrittenTwice(ops: seq<Op>, store: Store, backfill: nat, oracle: Oracle, order: Order, call: Call,
                                   key: ReportKey, cell: Cell, w: nat, day: nat) returns (a: nat, b: nat)
    requires Owed(ops, store, backfill, oracle, order, call, key, cell, w, day)
    requires var sys := Run(ops, Initial(store, backfill), backfill, oracle);
             && GenerateWith(sys, order, call, backfill, oracle).1 == Ok
             && !ListedOnce(sys.store, CellSeries(key, cell, w))
    ensures var sys := Run(ops, Initial(store, backfill), backfill, oracle);
            var written := GenerateWith(sys, order, call, backfill, oracle).0.written;
            a < b < |written| && written[a] == written[b] && written[a].series == CellSeries(key, cell, w) && written[a].day == day
  {
    var sys := Run(ops, Initial(store, backfill), backfill, oracle);
    var config := sys.store[key].config;
    LoggedIsWritten(ops, store, backfill, oracle, order, call, key, cell, w, day);
    var fold := LoggedFold(ops, store, backfill, oracle, config.aggregation, key, cell, w, day);
    var o := Observation(CellSeries(key, cell, w), day, PayloadFor(config.reportType, fold.value));
    a, b := Positions(GenerateWith(sys, order, call, backfill, oracle).0.written, o);
  }
}
