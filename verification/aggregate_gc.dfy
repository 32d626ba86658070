/** Garbage collection is invisible to the next generation call, although it erases day entries, whole event-code entries
    and whole component entries, and although the maps may be iterated in a different order afterwards. */
module AggregateGc {
  import opened Common
  import opened AggregationWindows
  import opened AggregateModel
  import opened AggregateScripts
  import opened AggregateSeries

  // ---------------------------------------------------------------- Collected entries are out of every window

  /** A day map and its collected form look the same through every window that starts after the cutoff. */
  lemma {:induction false} FoldAfterDrop(aggregation: AggregationType, days: map<nat, int>, cutoff: int, day: nat, window: nat)
    requires cutoff < day - window + 1
    ensures WindowFold(aggregation, DropOld(days, cutoff), day, window) == WindowFold(aggregation, days, day, window)
  {
    if window != 0 {
      FoldAfterDrop(aggregation, days, cutoff, day, window - 1);
    }
  }

  lemma ActiveAfterDrop(active: map<nat, bool>, cutoff: int, day: nat, window: nat)
    requires cutoff < day - window + 1
    ensures WasActive(DropOld(active, cutoff), day, window) == WasActive(active, day, window)
  {
    var kept := DropOld(active, cutoff);
    if WasActive(active, day, window) {
      var d :| d in active && active[d] && InWindow(d, day, window);
      assert d in kept && kept[d];
    }
  }

  lemma CollectedDays(a: Aggregates, cutoff: int, cell: Cell)
    ensures DaysOf(CollectAggregates(a, cutoff), cell) == DropOld(DaysOf(a, cell), cutoff)
    ensures HasCell(CollectAggregates(a, cutoff), cell) ==> HasCell(a, cell)
    ensures HasCell(a, cell) && !HasCell(CollectAggregates(a, cutoff), cell) ==> DropOld(DaysOf(a, cell), cutoff) == map[]
  {
    if a.Numeric? && cell.component in a.byComponent {
      var byCode := a.byComponent[cell.component];
      var kept := CollectCodes(byCode, cutoff);
      if cell.code in byCode && DropOld(byCode[cell.code], cutoff) != map[] {
        assert cell.code in kept;
      }
    }
  }

  lemma CollectedActivity(a: Aggregates, cutoff: int, code: nat)
    ensures ActivityOf(CollectAggregates(a, cutoff), code) == DropOld(ActivityOf(a, code), cutoff)
  {
  }

  /** Every daily window of a valid configuration is at most the one that garbage collection looks at. */
  lemma LargestIsLargest(windows: seq<Window>, w: nat)
    requires ValidWindows(windows) && Days(w) in windows
    ensures w <= LargestWindow(windows) && 1 <= w
  {
    var i :| 0 <= i < |windows| && windows[i] == Days(w);
    assert i == |windows| - 1 || Precedes(windows[i], windows[|windows| - 1]);
  }

  lemma {:induction false} EmptyFold(aggregation: AggregationType, day: nat, window: nat)
    ensures WindowFold(aggregation, map[], day, window) == None
  {
    if window != 0 {
      EmptyFold(aggregation, day, window - 1);
    }
  }

  // ---------------------------------------------------------------- The whole call

  /** What registration promises of a report, and what the two widths of the event code ask of its entries. */
  ghost predicate WellFormed(report: Report) {
    && ValidWindows(report.config.windows)
    && DistinctLabels(report.aggregates)
    && (PathOf(report.config) == NumericPath ==> report.config.aggregation != UnknownType)
  }

  lemma CutoffIsOld(windows: seq<Window>, backfill: nat, gcDay: nat, final: nat)
    requires ValidWindows(windows) && windows != [] && gcDay <= final && backfill <= final
    ensures forall w :: Days(w) in windows ==> CutoffDay(windows, backfill, gcDay) < Start(final, backfill) - w + 1
  {
    forall w | Days(w) in windows
      ensures CutoffDay(windows, backfill, gcDay) < Start(final, backfill) - w + 1
    {
      LargestIsLargest(windows, w);
    }
  }

  lemma EntryCollected(report: Report, o: Observation, cell: Cell, cutoff: int)
    requires o.series.NumericSeries? && cutoff < o.day - o.series.window + 1
    ensures AttemptedFor(report.(aggregates := CollectAggregates(report.aggregates, cutoff)), o, cell) <==> AttemptedFor(report, o, cell)
  {
    var days := DaysOf(report.aggregates, cell);
    CollectedDays(report.aggregates, cutoff, cell);
    FoldAfterDrop(report.config.aggregation, days, cutoff, o.day, o.series.window);
    if HasCell(report.aggregates, cell) && !HasCell(CollectAggregates(report.aggregates, cutoff), cell) {
      EmptyFold(report.config.aggregation, o.day, o.series.window);
    }
  }

  /** A report attempts the same observations of a window after the cutoff, although it may have lost the entry. */
  lemma AttemptCollected(report: Report, o: Observation, cutoff: int)
    requires forall w :: Days(w) in report.config.windows ==> cutoff < o.day - w + 1
    ensures var report' := report.(aggregates := CollectAggregates(report.aggregates, cutoff));
            Generates(report', o.series) && Attempted(report', o) <==> Generates(report, o.series) && Attempted(report, o)
  {
    var report' := report.(aggregates := CollectAggregates(report.aggregates, cutoff));
    match o.series {
      case UniqueSeries(_, code, w) =>
        CollectedActivity(report.aggregates, cutoff, code);
        if Days(w) in report.config.windows {
          ActiveAfterDrop(ActivityOf(report.aggregates, code), cutoff, o.day, w);
        }
      case NumericSeries(_, _, _, w) =>
        if Days(w) in report.config.windows {
          forall c: Cell ensures AttemptedFor(report', o, c) <==> AttemptedFor(report, o, c) {
            EntryCollected(report, o, c, cutoff);
          }
          assert Attempted(report, o) ==> HasEntry(report.aggregates, o.series);
          assert Attempted(report', o) ==> HasEntry(report'.aggregates, o.series);
        }
      case ParticipationSeries(_) =>
    }
  }

  lemma SoundCollected(report: Report, backfill: nat, gcUtc: nat, gcLocal: nat)
    requires Sound(report)
    ensures Sound(CollectReport(report, backfill, gcUtc, gcLocal))
  {
    var config := report.config;
    var gcDay := DayFor(config.zone, gcUtc, gcLocal);
    if gcDay.Some? && !Skipped(config.windows, gcDay.value) {
      var cutoff := CutoffDay(config.windows, backfill, gcDay.value);
      forall c: Cell ensures HasCell(CollectAggregates(report.aggregates, cutoff), c) ==> HasCell(report.aggregates, c) {
        CollectedDays(report.aggregates, cutoff, c);
      }
    }
  }

  lemma SameAttempts(report: Report, report': Report, h: History, backfill: nat, utc: nat, local: nat, o: Observation)
    requires report.config == report'.config
    requires var final := FinalDay(report.config, utc, local);
             final.Some? && Start(final.value, backfill) <= o.day <= final.value ==>
             (Generates(report, o.series) && Attempted(report, o) <==> Generates(report', o.series) && Attempted(report', o))
    ensures ReportAttempts(report, h, backfill, utc, local, o) == ReportAttempts(report', h, backfill, utc, local, o)
  {
  }

  lemma ReportCollected(report: Report, h: History, backfill: nat, gcUtc: nat, gcLocal: nat, utc: nat, local: nat, o: Observation)
    requires WellFormed(report) && backfill <= utc && backfill <= local && gcUtc <= utc && gcLocal <= local
    ensures ReportAttempts(CollectReport(report, backfill, gcUtc, gcLocal), h, backfill, utc, local, o) ==
            ReportAttempts(report, h, backfill, utc, local, o)
  {
    var config := report.config;
    var gcDay, final := DayFor(config.zone, gcUtc, gcLocal), FinalDay(config, utc, local);
    var report' := CollectReport(report, backfill, gcUtc, gcLocal);
    if final.Some? && Start(final.value, backfill) <= o.day <= final.value && !Skipped(config.windows, gcDay.value) {
      var cutoff := CutoffDay(config.windows, backfill, gcDay.value);
      CutoffIsOld(config.windows, backfill, gcDay.value, final.value);
      AttemptCollected(report, o, cutoff);
      assert report' == report.(aggregates := CollectAggregates(report.aggregates, cutoff));
    }
    SameAttempts(report, report', h, backfill, utc, local, o);
  }

  /** What a whole call attempts does not change when the store is collected first. */
  lemma PlanCollected(store: Store, order: Order, order': Order, h: History, backfill: nat,
                      gcUtc: nat, gcLocal: nat, utc: nat, local: nat, o: Observation)
    requires forall k :: k in store ==> WellFormed(store[k])
    requires Enumerates(order, store) && Enumerates(order', Collect(store, backfill, gcUtc, gcLocal))
    requires backfill <= utc && backfill <= local && gcUtc <= utc && gcLocal <= local
    ensures Times(Plan(Collect(store, backfill, gcUtc, gcLocal), order'.reports, order', h, backfill, utc, local), o) ==
            Times(Plan(store, order.reports, order, h, backfill, utc, local), o)
  {
    if o.series.report in store {
      SoundCollected(store[o.series.report], backfill, gcUtc, gcLocal);
      ReportCollected(store[o.series.report], h, backfill, gcUtc, gcLocal, utc, local, o);
    }
    PlanAttempts(store, order, h, backfill, utc, local, o);
    PlanAttempts(Collect(store, backfill, gcUtc, gcLocal), order', h, backfill, utc, local, o);
  }

  /** From any store, any history and any earlier output: collecting on a day no later than the final day, in each
      time zone, and then generating writes the same bag of observations as generating without collecting, in
      whatever order the maps are iterated before and after. */
  lemma GcInvisible(store: Store, order: Order, order': Order, st: GenState, backfill: nat,
                    gcUtc: nat, gcLocal: nat, utc: nat, local: nat)
    requires forall k :: k in store ==> WellFormed(store[k])
    requires Enumerates(order, store) && Enumerates(order', Collect(store, backfill, gcUtc, gcLocal))
    requires backfill <= utc && backfill <= local && gcUtc <= utc && gcLocal <= local
    ensures var store' := Collect(store, backfill, gcUtc, gcLocal);
            var kept := Execute(Plan(store', order'.reports, order', st.history, backfill, utc, local), st, AlwaysOk());
            var all := Execute(Plan(store, order.reports, order, st.history, backfill, utc, local), st, AlwaysOk());
            forall o: Observation :: multiset(kept.0.written)[o] == multiset(all.0.written)[o]
  {
    var store' := Collect(store, backfill, gcUtc, gcLocal);
    var kept := Plan(store', order'.reports, order', st.history, backfill, utc, local);
    var all := Plan(store, order.reports, order, st.history, backfill, utc, local);
    PlanNoAbort(store', order'.reports, order', st.history, backfill, utc, local);
    PlanNoAbort(store, order.reports, order, st.history, backfill, utc, local);
    forall o: Observation
      ensures multiset(Execute(kept, st, AlwaysOk()).0.written)[o] == multiset(Execute(all, st, AlwaysOk()).0.written)[o]
    {
      AllAttemptsWritten(kept, st, o);
      AllAttemptsWritten(all, st, o);
      PlanCollected(store, order, order', st.history, backfill, gcUtc, gcLocal, utc, local, o);
    }
  }
}
