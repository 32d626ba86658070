/** Exactly-once generation: what the observation history guarantees over every run of the store, including calls
    that an encoder or writer failure cuts short. */
module AggregateOnce {
  import opened AggregationWindows
  import opened AggregateModel

  // ---------------------------------------------------------------- No observation twice

  /** A series whose window is listed at most once by its report. Only numeric series can be others: the unique-actives
      path looks at the history again for each window of the list, and the numeric path once for the whole list. */
  predicate ListedOnce(store: Store, s: Series) {
    s.NumericSeries? && s.report in store ==> multiset(store[s.report].config.windows)[Days(s.window)] <= 1
  }

  /** Every step of the script on a series that is listed once moves it to a later day. */
  predicate Advances(history: History, script: Script, store: Store)
    decreases script
  {
    script == []
    || (script[0].Abort? && Advances(history, script[1..], store))
    || (!script[0].Abort?
        && (ListedOnce(store, script[0].Target()) ==> LastGenerated(history, script[0].Target()) < script[0].Day())
        && Advances(history[script[0].Target() := script[0].Day()], script[1..], store))
  }

  /** The history is ahead of everything written, and each series that is listed once was written in strictly ascending
      day order: in particular none of its observations was written twice. */
  predicate Recorded(st: GenState, store: Store) {
    && (forall i :: 0 <= i < |st.written| && ListedOnce(store, st.written[i].series) ==>
          st.written[i].day <= LastGenerated(st.history, st.written[i].series))
    && (forall i, j ::
          0 <= i < j < |st.written| && st.written[i].series == st.written[j].series && ListedOnce(store, st.written[i].series)
          ==> st.written[i].day < st.written[j].day)
  }

  lemma StepRecords(step: Step, st: GenState, oracle: Oracle, store: Store)
    requires Recorded(st, store)
    requires !step.Abort? && ListedOnce(store, step.Target()) ==> LastGenerated(st.history, step.Target()) < step.Day()
    ensures Recorded(DoStep(step, st, oracle).0, store)
  {
  }

  lemma {:induction false} ExecuteRecords(script: Script, st: GenState, oracle: Oracle, store: Store)
    requires Recorded(st, store) && Advances(st.history, script, store)
    ensures Recorded(Execute(script, st, oracle).0, store)
  {
    if script != [] {
      StepRecords(script[0], st, oracle, store);
      var (st', status) := DoStep(script[0], st, oracle);
      if status == Ok {
        ExecuteRecords(script[1..], st', oracle, store);
      }
    }
  }

  lemma {:induction false} AdvancesAppend(a: Script, b: Script, history: History, store: Store)
    requires Advances(history, a, store) && Advances(After(history, a), b, store)
    ensures Advances(history, a + b, store)
    decreases a
  {
    if a == [] {
      assert a + b == b;
    } else {
      assert (a + b)[0] == a[0] && (a + b)[1..] == a[1..] + b;
      AdvancesAppend(a[1..], b, if a[0].Abort? then history else history[a[0].Target() := a[0].Day()], store);
    }
  }

  lemma {:induction false} UniqueDaysAdvance(series: Series, active: map<nat, bool>, window: nat, day: nat, final: nat,
                                             history: History, store: Store)
    requires LastGenerated(history, series) < day
    ensures Advances(history, UniqueDays(series, active, window, day, final), store)
    decreases final + 1 - day
  {
    if day <= final {
      UniqueDaysAdvance(series, active, window, day + 1, final, history[series := day], store);
      var script := UniqueDays(series, active, window, day, final);
      assert script[1..] == UniqueDays(series, active, window, day + 1, final);
    }
  }

  lemma {:induction false} UniqueWindowsAdvance(key: ReportKey, active: map<nat, bool>, code: nat, windows: seq<Window>,
                                                history: History, backfill: nat, final: nat, store: Store)
    ensures Advances(history, UniqueWindows(key, active, code, windows, history, backfill, final), store)
    decreases windows
  {
    if windows == [] {
    } else if !UniqueWindow(windows[0]) {
      UniqueWindowsAdvance(key, active, code, windows[1..], history, backfill, final, store);
    } else {
      var series := UniqueSeries(key, code, windows[0].days);
      var first := FirstDay(history, series, final, backfill);
      var head := UniqueDays(series, active, windows[0].days, first, final);
      UniqueDaysAdvance(series, active, windows[0].days, first, final, history, store);
      UniqueWindowsAdvance(key, active, code, windows[1..], After(history, head), backfill, final, store);
      AdvancesAppend(head, UniqueWindows(key, active, code, windows[1..], After(history, head), backfill, final), history, store);
    }
  }

  lemma {:induction false} UniqueCodesAdvance(key: ReportKey, report: Report, code: nat, history: History,
                                              backfill: nat, final: nat, store: Store)
    ensures Advances(history, UniqueCodes(key, report, code, history, backfill, final), store)
    decreases report.config.numEventCodes - code
  {
    if code < report.config.numEventCodes {
      var active := ActivityOf(report.aggregates, code);
      var head := UniqueWindows(key, active, code, report.config.windows, history, backfill, final);
      UniqueWindowsAdvance(key, active, code, report.config.windows, history, backfill, final, store);
      UniqueCodesAdvance(key, report, code + 1, After(history, head), backfill, final, store);
      AdvancesAppend(head, UniqueCodes(key, report, code + 1, After(history, head), backfill, final), history, store);
    }
  }

  /** A window is needed as often as it is listed, if its observation for the day is still due. */
  lemma {:induction false} NeededCount(key: ReportKey, cell: Cell, windows: seq<Window>, history: History,
                                       backfill: nat, final: nat, day: nat, w: nat)
    ensures multiset(Needed(key, cell, windows, history, backfill, final, day))[w] ==
            if FirstDay(history, CellSeries(key, cell, w), final, backfill) <= day then multiset(windows)[Days(w)] else 0
  {
    if windows != [] {
      NeededCount(key, cell, windows[1..], history, backfill, final, day, w);
      assert windows == [windows[0]] + windows[1..];
    }
  }

  /** A needed window of a series that is listed once lags behind the day and is needed once. */
  ghost predicate Lagging(key: ReportKey, cell: Cell, day: nat, needed: seq<nat>, history: History, store: Store) {
    forall w :: w in needed && ListedOnce(store, CellSeries(key, cell, w)) ==>
      multiset(needed)[w] == 1 && LastGenerated(history, CellSeries(key, cell, w)) < day
  }

  lemma LaggingRest(key: ReportKey, cell: Cell, day: nat, needed: seq<nat>, history: History, store: Store)
    requires Lagging(key, cell, day, needed, history, store) && needed != []
    ensures Lagging(key, cell, day, needed[1..], history, store)
    ensures Lagging(key, cell, day, needed[1..], history[CellSeries(key, cell, needed[0]) := day], store)
  {
    assert needed == [needed[0]] + needed[1..];
    forall w | w in needed[1..] && ListedOnce(store, CellSeries(key, cell, w))
      ensures multiset(needed[1..])[w] == 1 && w != needed[0]
    {
      assert w in needed && w in multiset(needed[1..]);
    }
  }

  lemma CellStepTarget(key: ReportKey, config: Config, cell: Cell, days: map<nat, int>, day: nat, w: nat)
    ensures var step := CellStep(key, config, cell, days, day, w);
            !step.Abort? ==> step.Target() == CellSeries(key, cell, w) && step.Day() == day
  {
  }

  /** One day of a cell: the needed windows advance to that day. */
  lemma {:induction false} CellDayAdvances(key: ReportKey, config: Config, cell: Cell, days: map<nat, int>, day: nat,
                                           needed: seq<nat>, history: History, store: Store)
    requires Lagging(key, cell, day, needed, history, store)
    ensures Advances(history, CellDay(key, config, cell, days, day, needed), store)
    decreases needed
  {
    if needed != [] {
      var step := CellStep(key, config, cell, days, day, needed[0]);
      var script := CellDay(key, config, cell, days, day, needed);
      assert script[0] == step && script[1..] == CellDay(key, config, cell, days, day, needed[1..]);
      var history' := if step.Abort? then history else history[step.Target() := step.Day()];
      CellStepTarget(key, config, cell, days, day, needed[0]);
      assert Lagging(key, cell, day, needed[1..], history', store) by {
        LaggingRest(key, cell, day, needed, history, store);
      }
      assert needed[0] in needed;
      CellDayAdvances(key, config, cell, days, day, needed[1..], history', store);
    }
  }

  lemma {:induction false} CellDayMoves(key: ReportKey, config: Config, cell: Cell, days: map<nat, int>, day: nat,
                                        needed: seq<nat>, history: History, w: nat)
    ensures LastGenerated(After(history, CellDay(key, config, cell, days, day, needed)), CellSeries(key, cell, w)) in
            {LastGenerated(history, CellSeries(key, cell, w)), day}
    ensures w !in needed ==>
            LastGenerated(After(history, CellDay(key, config, cell, days, day, needed)), CellSeries(key, cell, w)) ==
            LastGenerated(history, CellSeries(key, cell, w))
    decreases needed
  {
    if needed != [] {
      var step := CellStep(key, config, cell, days, day, needed[0]);
      var script := CellDay(key, config, cell, days, day, needed);
      assert script[0] == step && script[1..] == CellDay(key, config, cell, days, day, needed[1..]);
      CellDayMoves(key, config, cell, days, day, needed[1..],
                   if step.Abort? then history else history[step.Target() := step.Day()], w);
    }
  }

  lemma {:induction false} CellDaysAdvance(key: ReportKey, config: Config, cell: Cell, days: map<nat, int>, history0: History,
                                           backfill: nat, day: nat, final: nat, history: History, store: Store)
    requires key in store && store[key].config == config
    requires forall w :: Days(w) in config.windows ==>
               LastGenerated(history, CellSeries(key, cell, w)) < day
               || LastGenerated(history, CellSeries(key, cell, w)) < FirstDay(history0, CellSeries(key, cell, w), final, backfill)
    ensures Advances(history, CellDays(key, config, cell, days, history0, backfill, day, final), store)
    decreases final + 1 - day
  {
    if day <= final {
      var needed := Needed(key, cell, config.windows, history0, backfill, final, day);
      NeededMeaning(key, cell, config.windows, history0, backfill, final, day);
      forall w | w in needed && ListedOnce(store, CellSeries(key, cell, w))
        ensures multiset(needed)[w] == 1 && LastGenerated(history, CellSeries(key, cell, w)) < day
      {
        NeededCount(key, cell, config.windows, history0, backfill, final, day, w);
        assert w in multiset(needed);
      }
      var head := CellDay(key, config, cell, days, day, needed);
      CellDayAdvances(key, config, cell, days, day, needed, history, store);
      forall w | Days(w) in config.windows
        ensures LastGenerated(After(history, head), CellSeries(key, cell, w)) < day + 1
                || LastGenerated(After(history, head), CellSeries(key, cell, w)) < FirstDay(history0, CellSeries(key, cell, w), final, backfill)
      {
        CellDayMoves(key, config, cell, days, day, needed, history, w);
      }
      CellDaysAdvance(key, config, cell, days, history0, backfill, day + 1, final, After(history, head), store);
      AdvancesAppend(head, CellDays(key, config, cell, days, history0, backfill, day + 1, final), history, store);
    }
  }

  lemma {:induction false} NeededMeaning(key: ReportKey, cell: Cell, windows: seq<Window>, history: History,
                                         backfill: nat, final: nat, day: nat)
    ensures forall w :: w in Needed(key, cell, windows, history, backfill, final, day) <==>
              Days(w) in windows && FirstDay(history, CellSeries(key, cell, w), final, backfill) <= day
  {
    if windows != [] {
      NeededMeaning(key, cell, windows[1..], history, backfill, final, day);
      assert windows == [windows[0]] + windows[1..];
    }
  }

  lemma {:induction false} NumericCellsAdvance(key: ReportKey, report: Report, cells: seq<Cell>, history: History,
                                               backfill: nat, final: nat, store: Store)
    requires key in store && store[key] == report
    ensures Advances(history, NumericCells(key, report, cells, history, backfill, final), store)
    decreases cells
  {
    if cells != [] {
      var days := DaysOf(report.aggregates, cells[0]);
      var head := CellDays(key, report.config, cells[0], days, history, backfill, Start(final, backfill), final);
      CellDaysAdvance(key, report.config, cells[0], days, history, backfill, Start(final, backfill), final, history, store);
      NumericCellsAdvance(key, report, cells[1..], After(history, head), backfill, final, store);
      AdvancesAppend(head, NumericCells(key, report, cells[1..], After(history, head), backfill, final), history, store);
    }
  }

  lemma {:induction false} ParticipationAdvances(key: ReportKey, day: nat, final: nat, history: History, store: Store)
    requires LastGenerated(history, ParticipationSeries(key)) < day
    ensures Advances(history, ParticipationDays(key, day, final), store)
    decreases final + 1 - day
  {
    if day <= final {
      ParticipationAdvances(key, day + 1, final, history[ParticipationSeries(key) := day], store);
      assert ParticipationDays(key, day, final)[1..] == ParticipationDays(key, day + 1, final);
    }
  }

  lemma ReportPlanAdvances(key: ReportKey, cells: seq<Cell>, history: History, backfill: nat, utc: nat, local: nat, store: Store)
    requires key in store
    ensures Advances(history, ReportPlan(key, store[key], cells, history, backfill, utc, local), store)
  {
    var report := store[key];
    var day := DayFor(report.config.zone, utc, local);
    if day.Some? && !Skipped(report.config.windows, day.value) {
      match PathOf(report.config) {
        case UniquePath => UniqueCodesAdvance(key, report, 0, history, backfill, day.value, store);
        case NumericPath =>
          var head := NumericCells(key, report, cells, history, backfill, day.value);
          NumericCellsAdvance(key, report, cells, history, backfill, day.value, store);
          var first := FirstDay(After(history, head), ParticipationSeries(key), day.value, backfill);
          ParticipationAdvances(key, first, day.value, After(history, head), store);
          AdvancesAppend(head, ParticipationDays(key, first, day.value), history, store);
        case NoPath =>
      }
    }
  }

  lemma {:induction false} PlanAdvances(store: Store, reports: seq<ReportKey>, order: Order, history: History,
                                        backfill: nat, utc: nat, local: nat)
    ensures Advances(history, Plan(store, reports, order, history, backfill, utc, local), store)
    decreases reports
  {
    if reports == [] {
    } else if reports[0] !in store {
      PlanAdvances(store, reports[1..], order, history, backfill, utc, local);
    } else {
      var key := reports[0];
      var head := ReportPlan(key, store[key], CellsOf(order, key), history, backfill, utc, local);
      ReportPlanAdvances(key, CellsOf(order, key), history, backfill, utc, local, store);
      PlanAdvances(store, reports[1..], order, After(history, head), backfill, utc, local);
      AdvancesAppend(head, Plan(store, reports[1..], order, After(history, head), backfill, utc, local), history, store);
    }
  }

  // ---------------------------------------------------------------- No day left out

  predicate Written(st: GenState, series: Series, day: nat) {
    exists i :: 0 <= i < |st.written| && st.written[i].series == series && st.written[i].day == day
  }

  /** From day `lo` to the day the history records, every day of the series was written. */
  ghost predicate CoveredFrom(st: GenState, series: Series, lo: nat) {
    forall d: nat :: lo <= d <= LastGenerated(st.history, series) ==> Written(st, series, d)
  }

  ghost predicate AllCovered(st: GenState, lo: ReportKey -> nat) {
    forall s: Series :: s.UniqueSeries? ==> CoveredFrom(st, s, lo(s.report))
  }

  /** Steps on unique-actives series are observations, each for the day after the recorded one or for the first
      day of the backfill period. */
  predicate Contiguous(history: History, script: Script, lo: ReportKey -> nat)
    decreases script
  {
    if script == [] then true
    else if script[0].Abort? then Contiguous(history, script[1..], lo)
    else
      var (s, d) := (script[0].Target(), script[0].Day());
      && (s.UniqueSeries? ==> script[0].Emit? && (d == LastGenerated(history, s) + 1 || d == lo(s.report)))
      && Contiguous(history[s := d], script[1..], lo)
  }

  lemma StepCovers(step: Step, st: GenState, oracle: Oracle, lo: ReportKey -> nat)
    requires AllCovered(st, lo)
    requires !step.Abort? && step.Target().UniqueSeries? ==>
               step.Emit? && (step.Day() == LastGenerated(st.history, step.Target()) + 1 || step.Day() == lo(step.Target().report))
    ensures AllCovered(DoStep(step, st, oracle).0, lo)
  {
    var st' := DoStep(step, st, oracle).0;
    forall s: Series, d: nat | s.UniqueSeries? && lo(s.report) <= d <= LastGenerated(st'.history, s)
      ensures Written(st', s, d)
    {
      if d <= LastGenerated(st.history, s) {
        assert CoveredFrom(st, s, lo(s.report)) && Written(st, s, d);
        var i :| 0 <= i < |st.written| && st.written[i].series == s && st.written[i].day == d;
        assert st'.written[i] == st.written[i];
      } else {
        assert st'.written[|st.written|] == step.obs;
      }
    }
  }

  lemma {:induction false} ExecuteCovers(script: Script, st: GenState, oracle: Oracle, lo: ReportKey -> nat)
    requires AllCovered(st, lo) && Contiguous(st.history, script, lo)
    ensures AllCovered(Execute(script, st, oracle).0, lo)
  {
    if script != [] {
      StepCovers(script[0], st, oracle, lo);
      var (st', status) := DoStep(script[0], st, oracle);
      if status == Ok {
        ExecuteCovers(script[1..], st', oracle, lo);
      }
    }
  }

  lemma {:induction false} ContiguousAppend(a: Script, b: Script, history: History, lo: ReportKey -> nat)
    requires Contiguous(history, a, lo) && Contiguous(After(history, a), b, lo)
    ensures Contiguous(history, a + b, lo)
    decreases a
  {
    if a == [] {
      assert a + b == b;
    } else {
      assert (a + b)[0] == a[0] && (a + b)[1..] == a[1..] + b;
      ContiguousAppend(a[1..], b, if a[0].Abort? then history else history[a[0].Target() := a[0].Day()], lo);
    }
  }

  lemma {:induction false} UniqueDaysContiguous(series: Series, active: map<nat, bool>, window: nat, day: nat, final: nat,
                                                history: History, lo: ReportKey -> nat)
    requires series.UniqueSeries?
    requires day == LastGenerated(history, series) + 1 || day == lo(series.report)
    ensures Contiguous(history, UniqueDays(series, active, window, day, final), lo)
    decreases final + 1 - day
  {
    if day <= final {
      UniqueDaysContiguous(series, active, window, day + 1, final, history[series := day], lo);
      var script := UniqueDays(series, active, window, day, final);
      assert script[1..] == UniqueDays(series, active, window, day + 1, final);
    }
  }

  lemma {:induction false} UniqueWindowsContiguous(key: ReportKey, active: map<nat, bool>, code: nat, windows: seq<Window>,
                                                   history: History, backfill: nat, final: nat, lo: ReportKey -> nat)
    requires lo(key) == Start(final, backfill)
    ensures Contiguous(history, UniqueWindows(key, active, code, windows, history, backfill, final), lo)
    decreases windows
  {
    if windows == [] {
    } else if !UniqueWindow(windows[0]) {
      UniqueWindowsContiguous(key, active, code, windows[1..], history, backfill, final, lo);
    } else {
      var series := UniqueSeries(key, code, windows[0].days);
      var first := FirstDay(history, series, final, backfill);
      var head := UniqueDays(series, active, windows[0].days, first, final);
      UniqueDaysContiguous(series, active, windows[0].days, first, final, history, lo);
      UniqueWindowsContiguous(key, active, code, windows[1..], After(history, head), backfill, final, lo);
      ContiguousAppend(head, UniqueWindows(key, active, code, windows[1..], After(history, head), backfill, final), history, lo);
    }
  }

  lemma {:induction false} UniqueCodesContiguous(key: ReportKey, report: Report, code: nat, history: History,
                                                 backfill: nat, final: nat, lo: ReportKey -> nat)
    requires lo(key) == Start(final, backfill)
    ensures Contiguous(history, UniqueCodes(key, report, code, history, backfill, final), lo)
    decreases report.config.numEventCodes - code
  {
    if code < report.config.numEventCodes {
      var active := ActivityOf(report.aggregates, code);
      var head := UniqueWindows(key, active, code, report.config.windows, history, backfill, final);
      UniqueWindowsContiguous(key, active, code, report.config.windows, history, backfill, final, lo);
      UniqueCodesContiguous(key, report, code + 1, After(history, head), backfill, final, lo);
      ContiguousAppend(head, UniqueCodes(key, report, code + 1, After(history, head), backfill, final), history, lo);
    }
  }

  predicate NoUniqueStep(script: Script) {
    forall i :: 0 <= i < |script| && !script[i].Abort? ==> !script[i].Target().UniqueSeries?
  }

  lemma {:induction false} OtherStepsContiguous(script: Script, history: History, lo: ReportKey -> nat)
    requires NoUniqueStep(script)
    ensures Contiguous(history, script, lo)
    decreases script
  {
    if script != [] {
      OtherStepsContiguous(script[1..], if script[0].Abort? then history else history[script[0].Target() := script[0].Day()], lo);
    }
  }

  lemma {:induction false} CellDayNumeric(key: ReportKey, config: Config, cell: Cell, days: map<nat, int>, day: nat, needed: seq<nat>)
    ensures NoUniqueStep(CellDay(key, config, cell, days, day, needed))
  {
    if needed != [] {
      CellDayNumeric(key, config, cell, days, day, needed[1..]);
    }
  }

  lemma {:induction false} CellDaysNumeric(key: ReportKey, config: Config, cell: Cell, days: map<nat, int>,
                                           history: History, backfill: nat, day: nat, final: nat)
    ensures NoUniqueStep(CellDays(key, config, cell, days, history, backfill, day, final))
    decreases final + 1 - day
  {
    if day <= final {
      CellDayNumeric(key, config, cell, days, day, Needed(key, cell, config.windows, history, backfill, final, day));
      CellDaysNumeric(key, config, cell, days, history, backfill, day + 1, final);
    }
  }

  lemma {:induction false} NumericCellsNumeric(key: ReportKey, report: Report, cells: seq<Cell>, history: History,
                                               backfill: nat, final: nat)
    ensures NoUniqueStep(NumericCells(key, report, cells, history, backfill, final))
    decreases cells
  {
    if cells != [] {
      var days := DaysOf(report.aggregates, cells[0]);
      var head := CellDays(key, report.config, cells[0], days, history, backfill, Start(final, backfill), final);
      CellDaysNumeric(key, report.config, cells[0], days, history, backfill, Start(final, backfill), final);
      NumericCellsNumeric(key, report, cells[1..], After(history, head), backfill, final);
    }
  }

  lemma {:induction false} ParticipationNumeric(key: ReportKey, day: nat, final: nat)
    ensures NoUniqueStep(ParticipationDays(key, day, final))
    decreases final + 1 - day
  {
    if day <= final {
      ParticipationNumeric(key, day + 1, final);
    }
  }

  lemma ReportPlanContiguous(key: ReportKey, report: Report, cells: seq<Cell>, history: History, backfill: nat,
                             utc: nat, local: nat, lo: ReportKey -> nat)
    requires var day := DayFor(report.config.zone, utc, local); day.Some? ==> lo(key) == Start(day.value, backfill)
    ensures Contiguous(history, ReportPlan(key, report, cells, history, backfill, utc, local), lo)
  {
    var day := DayFor(report.config.zone, utc, local);
    if day.Some? && !Skipped(report.config.windows, day.value) {
      match PathOf(report.config) {
        case UniquePath => UniqueCodesContiguous(key, report, 0, history, backfill, day.value, lo);
        case NumericPath =>
          var head := NumericCells(key, report, cells, history, backfill, day.value);
          NumericCellsNumeric(key, report, cells, history, backfill, day.value);
          ParticipationNumeric(key, FirstDay(After(history, head), ParticipationSeries(key), day.value, backfill), day.value);
          OtherStepsContiguous(NumericPlan(key, report, cells, history, backfill, day.value), history, lo);
        case NoPath =>
      }
    }
  }

  lemma {:induction false} PlanContiguous(store: Store, reports: seq<ReportKey>, order: Order, history: History,
                                          backfill: nat, utc: nat, local: nat, lo: ReportKey -> nat)
    requires forall k :: k in store && DayFor(store[k].config.zone, utc, local).Some? ==>
               lo(k) == Start(DayFor(store[k].config.zone, utc, local).value, backfill)
    ensures Contiguous(history, Plan(store, reports, order, history, backfill, utc, local), lo)
    decreases reports
  {
    if reports == [] {
    } else if reports[0] !in store {
      PlanContiguous(store, reports[1..], order, history, backfill, utc, local, lo);
    } else {
      var key := reports[0];
      var head := ReportPlan(key, store[key], CellsOf(order, key), history, backfill, utc, local);
      ReportPlanContiguous(key, store[key], CellsOf(order, key), history, backfill, utc, local, lo);
      PlanContiguous(store, reports[1..], order, After(history, head), backfill, utc, local, lo);
      ContiguousAppend(head, Plan(store, reports[1..], order, After(history, head), backfill, utc, local), history, lo);
    }
  }

  // ---------------------------------------------------------------- A completed call reaches its final day

  lemma {:induction false} HistoryGrows(script: Script, history: History, series: Series, store: Store)
    requires Advances(history, script, store) && ListedOnce(store, series)
    ensures LastGenerated(history, series) <= LastGenerated(After(history, script), series)
    decreases script
  {
    if script != [] {
      HistoryGrows(script[1..], if script[0].Abort? then history else history[script[0].Target() := script[0].Day()], series, store);
    }
  }

  lemma {:induction false} UniqueDaysReach(series: Series, active: map<nat, bool>, window: nat, day: nat, final: nat,
                                           history: History)
    requires LastGenerated(history, series) < day <= final
    ensures final <= LastGenerated(After(history, UniqueDays(series, active, window, day, final)), series)
    decreases final + 1 - day
  {
    var script := UniqueDays(series, active, window, day, final);
    assert script[1..] == UniqueDays(series, active, window, day + 1, final);
    if day < final {
      UniqueDaysReach(series, active, window, day + 1, final, history[series := day]);
    }
  }

  lemma {:induction false} UniqueWindowsReach(key: ReportKey, active: map<nat, bool>, code: nat, windows: seq<Window>,
                                              history: History, backfill: nat, final: nat, w: nat)
    requires Days(w) in windows && UniqueWindow(Days(w))
    ensures final <= LastGenerated(After(history, UniqueWindows(key, active, code, windows, history, backfill, final)),
                                   UniqueSeries(key, code, w))
    decreases windows
  {
    var head := [];
    if UniqueWindow(windows[0]) {
      var series := UniqueSeries(key, code, windows[0].days);
      var first := FirstDay(history, series, final, backfill);
      head := UniqueDays(series, active, windows[0].days, first, final);
      if first <= final {
        UniqueDaysReach(series, active, windows[0].days, first, final, history);
      }
    }
    var tail := UniqueWindows(key, active, code, windows[1..], After(history, head), backfill, final);
    AfterAppend(head, tail, history);
    if windows[0] == Days(w) {
      UniqueWindowsAdvance(key, active, code, windows[1..], After(history, head), backfill, final, map[]);
      HistoryGrows(tail, After(history, head), UniqueSeries(key, code, w), map[]);
    } else {
      UniqueWindowsReach(key, active, code, windows[1..], After(history, head), backfill, final, w);
    }
    assert UniqueWindow(windows[0]) || head + tail == tail;
  }

  lemma {:induction false} UniqueCodesReach(key: ReportKey, report: Report, code: nat, history: History,
                                            backfill: nat, final: nat, c: nat, w: nat)
    requires code <= c < report.config.numEventCodes
    requires Days(w) in report.config.windows && UniqueWindow(Days(w))
    ensures final <= LastGenerated(After(history, UniqueCodes(key, report, code, history, backfill, final)),
                                   UniqueSeries(key, c, w))
    decreases report.config.numEventCodes - code
  {
    var active := ActivityOf(report.aggregates, code);
    var head := UniqueWindows(key, active, code, report.config.windows, history, backfill, final);
    var tail := UniqueCodes(key, report, code + 1, After(history, head), backfill, final);
    AfterAppend(head, tail, history);
    if code == c {
      UniqueWindowsReach(key, active, code, report.config.windows, history, backfill, final, w);
      UniqueCodesAdvance(key, report, code + 1, After(history, head), backfill, final, map[]);
      HistoryGrows(tail, After(history, head), UniqueSeries(key, c, w), map[]);
    } else {
      UniqueCodesReach(key, report, code + 1, After(history, head), backfill, final, c, w);
    }
  }

  /** The unique-actives series that a call on the given days is answerable for. */
  predicate Answerable(store: Store, utc: nat, local: nat, key: ReportKey, code: nat, w: nat) {
    && key in store
    && PathOf(store[key].config) == UniquePath
    && DayFor(store[key].config.zone, utc, local).Some?
    && !Skipped(store[key].config.windows, DayFor(store[key].config.zone, utc, local).value)
    && code < store[key].config.numEventCodes
    && Days(w) in store[key].config.windows && UniqueWindow(Days(w))
  }

  lemma {:induction false} PlanReaches(store: Store, reports: seq<ReportKey>, order: Order, history: History,
                                       backfill: nat, utc: nat, local: nat, key: ReportKey, code: nat, w: nat)
    requires key in reports && Answerable(store, utc, local, key, code, w)
    ensures DayFor(store[key].config.zone, utc, local).value <=
            LastGenerated(After(history, Plan(store, reports, order, history, backfill, utc, local)), UniqueSeries(key, code, w))
    decreases reports
  {
    if reports[0] !in store {
      PlanReaches(store, reports[1..], order, history, backfill, utc, local, key, code, w);
    } else {
      var head := ReportPlan(reports[0], store[reports[0]], CellsOf(order, reports[0]), history, backfill, utc, local);
      var tail := Plan(store, reports[1..], order, After(history, head), backfill, utc, local);
      AfterAppend(head, tail, history);
      if reports[0] == key {
        UniqueCodesReach(key, store[key], 0, history, backfill, DayFor(store[key].config.zone, utc, local).value, code, w);
        PlanAdvances(store, reports[1..], order, After(history, head), backfill, utc, local);
        HistoryGrows(tail, After(history, head), UniqueSeries(key, code, w), store);
      } else {
        PlanReaches(store, reports[1..], order, After(history, head), backfill, utc, local, key, code, w);
      }
    }
  }
}
