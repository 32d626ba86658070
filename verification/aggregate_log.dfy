/** What a window observation says about the events that were logged: the stored daily aggregates, updated in place
    and garbage-collected along the way, always give the aggregate of the raw event log over the window. */
module AggregateLog {
  import opened Common
  import opened AggregationWindows
  import opened AggregateModel
  import opened AggregateRuns
  import AggregateGc
  import AggregateOnce

  datatype Event = Event(day: nat, value: int)

  /** The values logged on the `window` days ending on `day`, in the order they were logged. */
  function ValuesIn(log: seq<Event>, day: nat, window: nat): seq<int> {
    if log == [] then []
    else
      var last := log[|log| - 1];
      ValuesIn(log[..|log| - 1], day, window) + (if InWindow(last.day, day, window) then [last.value] else [])
  }

  function Total(values: seq<int>): int {
    if values == [] then 0 else Total(values[..|values| - 1]) + values[|values| - 1]
  }

  /** The values folded one by one, without any grouping by day. */
  function Fold(aggregation: AggregationType, values: seq<int>): Option<int> {
    if values == [] then None
    else Some(Combine(aggregation, Fold(aggregation, values[..|values| - 1]), values[|values| - 1]))
  }

  predicate IsLeast(m: Option<int>, values: seq<int>) {
    m.Some? && m.value in values && forall v :: v in values ==> m.value <= v
  }

  lemma {:induction false} FoldMin(values: seq<int>)
    requires values != []
    ensures IsLeast(Fold(Min, values), values)
  {
    var front, last := values[..|values| - 1], values[|values| - 1];
    assert forall v :: v in values <==> v in front || v == last by { assert values == front + [last]; }
    if front != [] {
      FoldMin(front);
    }
  }

  predicate IsGreatestWithZero(m: Option<int>, values: seq<int>) {
    && m.Some? && 0 <= m.value && (m.value in values || m.value == 0)
    && forall v :: v in values ==> v <= m.value
  }

  lemma {:induction false} FoldMax(values: seq<int>)
    requires values != []
    ensures IsGreatestWithZero(Fold(Max, values), values)
  {
    var front, last := values[..|values| - 1], values[|values| - 1];
    assert forall v :: v in values <==> v in front || v == last by { assert values == front + [last]; }
    if front != [] {
      FoldMax(front);
    }
  }

  /** What the fold computes: the sum, the minimum, and the maximum of the values and 0. */
  lemma {:induction false} FoldMeaning(values: seq<int>)
    ensures values != [] ==> Fold(Sum, values) == Some(Total(values))
    ensures values != [] ==> IsLeast(Fold(Min, values), values) && IsGreatestWithZero(Fold(Max, values), values)
    ensures values == [] ==> forall t :: Fold(t, values) == None
  {
    if values != [] {
      FoldMeaning(values[..|values| - 1]);
      FoldMin(values);
      FoldMax(values);
    }
  }

  /** A MAX observation carries the maximum of the logged values if and only if one of them is not negative:
      the accumulator starts from 0. */
  lemma MaxIsMaximum(values: seq<int>)
    requires values != []
    ensures Fold(Max, values).Some?
    ensures (Fold(Max, values).value in values && forall v :: v in values ==> v <= Fold(Max, values).value)
            <==> exists v :: v in values && 0 <= v
  {
    FoldMeaning(values);
    if v :| v in values && 0 <= v {
      assert v <= Fold(Max, values).value;
    }
  }

  lemma MaxOfNegativeValues()
    ensures Fold(Max, [-5, -3]) == Some(0)
  {
    assert [-5, -3][..1] == [-5];
  }

  // ---------------------------------------------------------------- One update

  function Updated(aggregation: AggregationType, days: map<nat, int>, day: nat, value: int): map<nat, int>
    requires aggregation != UnknownType
  {
    days[day := GetUpdatedAggregate(aggregation, Lookup(days, day), value).value]
  }

  lemma {:induction false} OutsideUntouched(aggregation: AggregationType, days: map<nat, int>, day: nat, window: nat, d: nat, v: int)
    requires !InWindow(d, day, window)
    ensures WindowFold(aggregation, days[d := v], day, window) == WindowFold(aggregation, days, day, window)
  {
    if window != 0 {
      OutsideUntouched(aggregation, days, day, window - 1, d, v);
    }
  }

  /** Updating one day of a window combines the new value into the window's aggregate. */
  lemma {:induction false} UpdateFold(aggregation: AggregationType, days: map<nat, int>, day: nat, window: nat, d: nat, v: int)
    requires aggregation != UnknownType && InWindow(d, day, window)
    ensures WindowFold(aggregation, Updated(aggregation, days, d, v), day, window) ==
            Some(Combine(aggregation, WindowFold(aggregation, days, day, window), v))
  {
    var days' := Updated(aggregation, days, d, v);
    if day - window + 1 == d {
      OutsideUntouched(aggregation, days, day, window - 1, d, days'[d]);
    } else {
      UpdateFold(aggregation, days, day, window - 1, d, v);
      var x := day - window + 1;
      assert x in days' <==> x in days;
    }
  }

  // ---------------------------------------------------------------- Numeric runs

  function StoredDays(store: Store, key: ReportKey, cell: Cell): map<nat, int> {
    if key in store then DaysOf(store[key].aggregates, cell) else map[]
  }

  /** The events for one report, component and event code that a run accepts. */
  function Accepted(ops: seq<Op>, sys: System, backfill: nat, oracle: Oracle, key: ReportKey, cell: Cell): seq<Event> {
    if ops == [] then []
    else
      var front := ops[..|ops| - 1];
      var op := ops[|ops| - 1];
      var before := Accepted(front, sys, backfill, oracle, key, cell);
      if op.LogNumeric? && op.key == key && op.cell == cell &&
         UpdateNumeric(Run(front, sys, backfill, oracle).store, key, cell, op.day, op.value).1 == Ok
      then before + [Event(op.day, op.value)]
      else before
  }

  /** A window that generation may still ask for: it ends in the backfill period of a call on the given days. */
  predicate AskedFor(config: Config, backfill: nat, utc: nat, local: nat, day: nat, window: nat) {
    && config.windows != [] && window <= LargestWindow(config.windows)
    && DayFor(config.zone, utc, local).Some?
    && var final := DayFor(config.zone, utc, local).value;
       backfill <= final && Start(final, backfill) <= day <= final
  }

  /** No garbage collection of the run is later than the given days. */
  predicate CollectedBy(ops: seq<Op>, utc: nat, local: nat) {
    forall i :: 0 <= i < |ops| && ops[i].GarbageCollect? ==> ops[i].call.utc <= utc && ops[i].call.Local() <= local
  }

  lemma CollectKeepsFold(store: Store, backfill: nat, gc: Call, key: ReportKey, cell: Cell, utc: nat, local: nat,
                         aggregation: AggregationType, day: nat, window: nat)
    requires key in store && AskedFor(store[key].config, backfill, utc, local, day, window)
    requires gc.utc <= utc && gc.Local() <= local
    ensures WindowFold(aggregation, StoredDays(Collect(store, backfill, gc.utc, gc.Local()), key, cell), day, window) ==
            WindowFold(aggregation, StoredDays(store, key, cell), day, window)
  {
    var config, days := store[key].config, StoredDays(store, key, cell);
    var days' := StoredDays(Collect(store, backfill, gc.utc, gc.Local()), key, cell);
    var gcDay := DayFor(config.zone, gc.utc, gc.Local()).value;
    if !Skipped(config.windows, gcDay) {
      var cutoff := CutoffDay(config.windows, backfill, gcDay);
      assert days' == DropOld(days, cutoff) by {
        AggregateGc.CollectedDays(store[key].aggregates, cutoff, cell);
      }
      AggregateGc.FoldAfterDrop(aggregation, days, cutoff, day, window);
    } else {
      assert days' == days;
    }
  }

  /** The largest daily window of a report, in days; 1 when all its windows are hourly. */
  ghost predicate IsLargestDaily(windows: seq<Window>, largest: nat) {
    && (forall w: nat :: Days(w) in windows ==> w <= largest)
    && (Days(largest) in windows || (largest == 1 && forall w: nat :: Days(w) !in windows))
  }

  lemma LargestDaily(windows: seq<Window>, largest: nat)
    requires ValidWindows(windows) && windows != [] && IsLargestDaily(windows, largest)
    ensures LargestWindow(windows) == largest
  {
    var last := windows[|windows| - 1];
    assert last in windows;
    if Days(largest) in windows {
      AggregateGc.LargestIsLargest(windows, largest);
      assert last.Days? by {
        var i :| 0 <= i < |windows| && windows[i] == Days(largest);
        assert i == |windows| - 1 || Precedes(windows[i], last);
      }
    }
  }

  /** Garbage collection keeps exactly the days that a window of the backfill period can still reach: those after the day
      passed for the report's time zone, less the backfill days and the largest daily window. It keeps no entry without
      days, and leaves reports alone that have no windows or an unknown time zone. */
  lemma CollectedExactly(store: Store, backfill: nat, call: Call, key: ReportKey, cell: Cell, code: nat, largest: nat, d: nat)
    requires key in store && ValidWindows(store[key].config.windows) && InBounds(call, backfill)
    requires IsLargestDaily(store[key].config.windows, largest)
    ensures var store', final := Collect(store, backfill, call.utc, call.Local()), FinalDayOf(store[key].config, call);
            var days, days' := StoredDays(store, key, cell), StoredDays(store', key, cell);
            var active, active' := StoredActivity(store, key, code), StoredActivity(store', key, code);
            && key in store' && store'[key].config == store[key].config
            && (d in days' <==> d in days && (final.None? || final.value - backfill - largest < d))
            && (d in days' ==> days'[d] == days[d])
            && (d in active' <==> d in active && (final.None? || final.value - backfill - largest < d))
            && (d in active' ==> active'[d] == active[d])
            && (final.Some? && HasCell(store'[key].aggregates, cell) ==> days' != map[])
  {
    var report := store[key];
    NotSkipped(report.config, call, backfill);
    if FinalDayOf(report.config, call).Some? {
      LargestDaily(report.config.windows, largest);
      var cutoff := CutoffDay(report.config.windows, backfill, FinalDayOf(report.config, call).value);
      AggregateGc.CollectedDays(report.aggregates, cutoff, cell);
      AggregateGc.CollectedActivity(report.aggregates, cutoff, code);
    }
  }

  /** How one operation changes the stored days of a cell. */
  lemma StepDays(op: Op, sys: System, backfill: nat, oracle: Oracle, key: ReportKey, cell: Cell)
    ensures var sys' := Apply(op, sys, backfill, oracle);
            var days, days' := StoredDays(sys.store, key, cell), StoredDays(sys'.store, key, cell);
            if op.LogNumeric? && op.key == key && op.cell == cell && UpdateNumeric(sys.store, key, cell, op.day, op.value).1 == Ok
            then key in sys.store &&
                 (sys.store[key].config.aggregation != UnknownType ==>
                    days' == Updated(sys.store[key].config.aggregation, days, op.day, op.value))
            else op.GarbageCollect? || days' == days
  {
    if op.LogNumeric? && op.key == key && op.cell != cell && key in sys.store && sys.store[key].aggregates.Numeric? {
      assert StoredDays(Apply(op, sys, backfill, oracle).store, key, cell) == StoredDays(sys.store, key, cell);
    }
  }

  lemma {:induction false} AcceptedAreStored(ops: seq<Op>, store: Store, backfill: nat, oracle: Oracle, key: ReportKey, cell: Cell)
    requires key !in Run(ops, Initial(store, backfill), backfill, oracle).store
    ensures Accepted(ops, Initial(store, backfill), backfill, oracle, key, cell) == []
    ensures key !in store
  {
    if ops != [] {
      var front := ops[..|ops| - 1];
      ConfigsKept(ops[|ops| - 1], Run(front, Initial(store, backfill), backfill, oracle), backfill, oracle);
      AcceptedAreStored(front, store, backfill, oracle, key, cell);
    }
  }

  /** Over every run of registrations, updates, garbage collections and generation calls, the shared daily aggregates
      give, for every window that a call on the given days can ask for, the aggregate of the raw values that were
      logged for that report, component and event code on the days of the window. */
  lemma {:induction false} WindowsFollowLog(ops: seq<Op>, store: Store, backfill: nat, oracle: Oracle, key: ReportKey, cell: Cell,
                                            utc: nat, local: nat, day: nat, window: nat)
    requires StoredDays(store, key, cell) == map[]
    requires CollectedBy(ops, utc, local)
    requires var sys := Run(ops, Initial(store, backfill), backfill, oracle);
             && key in sys.store && AskedFor(sys.store[key].config, backfill, utc, local, day, window)
             && sys.store[key].config.aggregation != UnknownType
    ensures var sys := Run(ops, Initial(store, backfill), backfill, oracle);
            var log := Accepted(ops, Initial(store, backfill), backfill, oracle, key, cell);
            var aggregation := sys.store[key].config.aggregation;
            WindowFold(aggregation, StoredDays(sys.store, key, cell), day, window) ==
            Fold(aggregation, ValuesIn(log, day, window))
  {
    var sys := Run(ops, Initial(store, backfill), backfill, oracle);
    var aggregation := sys.store[key].config.aggregation;
    if ops == [] {
      AggregateGc.EmptyFold(aggregation, day, window);
    } else {
      var front := ops[..|ops| - 1];
      var op := ops[|ops| - 1];
      var before := Run(front, Initial(store, backfill), backfill, oracle);
      ConfigsKept(op, before, backfill, oracle);
      StepDays(op, before, backfill, oracle, key, cell);
      if key !in before.store {
        AcceptedAreStored(front, store, backfill, oracle, key, cell);
        AggregateGc.EmptyFold(aggregation, day, window);
      } else {
        WindowsFollowLog(front, store, backfill, oracle, key, cell, utc, local, day, window);
        if op.GarbageCollect? {
          CollectKeepsFold(before.store, backfill, op.call, key, cell, utc, local, aggregation, day, window);
        } else if op.LogNumeric? && op.key == key && op.cell == cell &&
                  UpdateNumeric(before.store, key, cell, op.day, op.value).1 == Ok {
          AppendedEvent(aggregation, StoredDays(before.store, key, cell),
                        Accepted(front, Initial(store, backfill), backfill, oracle, key, cell), Event(op.day, op.value), day, window);
        }
      }
    }
  }

  lemma AppendedEvent(aggregation: AggregationType, days: map<nat, int>, log: seq<Event>, e: Event, day: nat, window: nat)
    requires aggregation != UnknownType
    requires WindowFold(aggregation, days, day, window) == Fold(aggregation, ValuesIn(log, day, window))
    ensures WindowFold(aggregation, Updated(aggregation, days, e.day, e.value), day, window) ==
            Fold(aggregation, ValuesIn(log + [e], day, window))
  {
    assert (log + [e])[..|log|] == log;
    var values := ValuesIn(log, day, window);
    if InWindow(e.day, day, window) {
      UpdateFold(aggregation, days, day, window, e.day, e.value);
      assert (values + [e.value])[..|values|] == values;
    } else {
      OutsideUntouched(aggregation, days, day, window, e.day, Updated(aggregation, days, e.day, e.value)[e.day]);
      assert values + [] == values;
    }
  }

  // ---------------------------------------------------------------- What gets emitted

  lemma {:induction false} CellDaySteps(key: ReportKey, config: Config, cell: Cell, days: map<nat, int>, day: nat,
                                        needed: seq<nat>, i: nat) returns (w: nat)
    requires i < |CellDay(key, config, cell, days, day, needed)|
    ensures w in needed && CellDay(key, config, cell, days, day, needed)[i] == CellStep(key, config, cell, days, day, w)
  {
    if i == 0 {
      w := needed[0];
    } else {
      w := CellDaySteps(key, config, cell, days, day, needed[1..], i - 1);
    }
  }

  lemma {:induction false} CellDaysSteps(key: ReportKey, config: Config, cell: Cell, days: map<nat, int>, history: History,
                                         backfill: nat, day: nat, final: nat, i: nat) returns (d: nat, w: nat)
    requires i < |CellDays(key, config, cell, days, history, backfill, day, final)|
    ensures day <= d <= final && Days(w) in config.windows
    ensures CellDays(key, config, cell, days, history, backfill, day, final)[i] == CellStep(key, config, cell, days, d, w)
    decreases final + 1 - day
  {
    var needed := Needed(key, cell, config.windows, history, backfill, final, day);
    var head := CellDay(key, config, cell, days, day, needed);
    if i < |head| {
      d := day;
      w := CellDaySteps(key, config, cell, days, day, needed, i);
      AggregateOnce.NeededMeaning(key, cell, config.windows, history, backfill, final, day);
    } else {
      d, w := CellDaysSteps(key, config, cell, days, history, backfill, day + 1, final, i - |head|);
    }
  }

  // ---------------------------------------------------------------- Unique-actives runs

  function StoredActivity(store: Store, key: ReportKey, code: nat): map<nat, bool> {
    if key in store then ActivityOf(store[key].aggregates, code) else map[]
  }

  /** Whether the run marked the report active for the event code on the day. */
  predicate Marked(ops: seq<Op>, sys: System, backfill: nat, oracle: Oracle, key: ReportKey, code: nat, d: nat) {
    if ops == [] then false
    else
      var front := ops[..|ops| - 1];
      var op := ops[|ops| - 1];
      || Marked(front, sys, backfill, oracle, key, code, d)
      || (op.LogActive? && op.key == key && op.code % UINT32_SIZE == code && op.day == d &&
          SetActive(Run(front, sys, backfill, oracle).store, key, op.code, op.day).1 == Ok)
  }

  lemma StepActivity(op: Op, sys: System, backfill: nat, oracle: Oracle, key: ReportKey, code: nat)
    ensures var sys' := Apply(op, sys, backfill, oracle);
            var days, days' := StoredActivity(sys.store, key, code), StoredActivity(sys'.store, key, code);
            if op.LogActive? && op.key == key && op.code % UINT32_SIZE == code && SetActive(sys.store, key, op.code, op.day).1 == Ok
            then days' == days[op.day := true]
            else op.GarbageCollect? || days' == days
  {
  }

  lemma {:induction false} MarkedAreStored(ops: seq<Op>, store: Store, backfill: nat, oracle: Oracle, key: ReportKey, code: nat, d: nat)
    requires key !in Run(ops, Initial(store, backfill), backfill, oracle).store
    ensures !Marked(ops, Initial(store, backfill), backfill, oracle, key, code, d)
  {
    if ops != [] {
      var front := ops[..|ops| - 1];
      ConfigsKept(ops[|ops| - 1], Run(front, Initial(store, backfill), backfill, oracle), backfill, oracle);
      MarkedAreStored(front, store, backfill, oracle, key, code, d);
    }
  }

  /** Over every run, the activity indicator of a day that some window of a call on the given days still covers is
      set exactly when an event was logged for that day. */
  lemma {:induction false} ActivityFollowsLog(ops: seq<Op>, store: Store, backfill: nat, oracle: Oracle, key: ReportKey, code: nat,
                                              utc: nat, local: nat, day: nat, window: nat, d: nat)
    requires StoredActivity(store, key, code) == map[] && CollectedBy(ops, utc, local)
    requires var sys := Run(ops, Initial(store, backfill), backfill, oracle);
             key in sys.store && AskedFor(sys.store[key].config, backfill, utc, local, day, window)
    requires InWindow(d, day, window)
    ensures var activity := StoredActivity(Run(ops, Initial(store, backfill), backfill, oracle).store, key, code);
            (d in activity && activity[d]) <==> Marked(ops, Initial(store, backfill), backfill, oracle, key, code, d)
  {
    if ops != [] {
      var front := ops[..|ops| - 1];
      var op := ops[|ops| - 1];
      var before := Run(front, Initial(store, backfill), backfill, oracle);
      ConfigsKept(op, before, backfill, oracle);
      StepActivity(op, before, backfill, oracle, key, code);
      if key !in before.store {
        MarkedAreStored(front, store, backfill, oracle, key, code, d);
      } else {
        ActivityFollowsLog(front, store, backfill, oracle, key, code, utc, local, day, window, d);
        if op.GarbageCollect? {
          var report := before.store[key];
          var gcDay := DayFor(report.config.zone, op.call.utc, op.call.Local()).value;
          if !Skipped(report.config.windows, gcDay) {
            AggregateGc.CollectedActivity(report.aggregates, CutoffDay(report.config.windows, backfill, gcDay), code);
          }
        }
      }
    }
  }

  /** A unique-actives observation reports activity exactly when an event was logged on some day of its window. */
  lemma UniqueObservationFollowsLog(ops: seq<Op>, store: Store, backfill: nat, oracle: Oracle, key: ReportKey, code: nat,
                                    utc: nat, local: nat, day: nat, window: nat)
    requires StoredActivity(store, key, code) == map[] && CollectedBy(ops, utc, local)
    requires var sys := Run(ops, Initial(store, backfill), backfill, oracle);
             key in sys.store && AskedFor(sys.store[key].config, backfill, utc, local, day, window)
    ensures var activity := StoredActivity(Run(ops, Initial(store, backfill), backfill, oracle).store, key, code);
            WasActive(activity, day, window) <==>
            exists d: nat :: InWindow(d, day, window) && Marked(ops, Initial(store, backfill), backfill, oracle, key, code, d)
  {
    forall d: nat | InWindow(d, day, window)
      ensures var activity := StoredActivity(Run(ops, Initial(store, backfill), backfill, oracle).store, key, code);
              (d in activity && activity[d]) <==> Marked(ops, Initial(store, backfill), backfill, oracle, key, code, d)
    {
      ActivityFollowsLog(ops, store, backfill, oracle, key, code, utc, local, day, window, d);
    }
  }
}
