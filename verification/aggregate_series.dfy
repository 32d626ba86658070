/** One series at a time: the steps that a whole call takes on a single stream of observations, whatever else the store
    holds and in whatever order the maps are iterated. */
module AggregateSeries {
  import opened Common
  import opened AggregationWindows
  import opened AggregateModel
  import opened AggregateScripts
  import opened AggregateOnce

  predicate On(step: Step, s: Series) { !step.Abort? && step.Target() == s }

  /** The steps of a script on one series. */
  function Only(script: Script, s: Series): Script {
    if script == [] then []
    else if On(script[0], s) then [script[0]] + Only(script[1..], s)
    else Only(script[1..], s)
  }

  lemma {:induction false} OnlyAppend(a: Script, b: Script, s: Series)
    ensures Only(a + b, s) == Only(a, s) + Only(b, s)
  {
    if a == [] {
      assert a + b == b;
    } else {
      assert (a + b)[0] == a[0] && (a + b)[1..] == a[1..] + b;
      OnlyAppend(a[1..], b, s);
    }
  }

  lemma {:induction false} OnlyNothing(script: Script, s: Series)
    requires forall i :: 0 <= i < |script| ==> !On(script[i], s)
    ensures Only(script, s) == []
  {
    if script != [] {
      OnlyNothing(script[1..], s);
    }
  }

  /** The steps on one series decide what is attempted for it. */
  lemma {:induction false} OnlyTimes(script: Script, o: Observation)
    ensures Times(script, o) == Times(Only(script, o.series), o)
  {
    if script != [] {
      OnlyTimes(script[1..], o);
      var rest := Only(script[1..], o.series);
      if On(script[0], o.series) {
        assert Only(script, o.series)[1..] == rest;
      }
    }
  }

  lemma {:induction false} SameEnd(script: Script, h: History, h': History, s: Series)
    requires LastGenerated(h, s) == LastGenerated(h', s)
    ensures LastGenerated(After(h, script), s) == LastGenerated(After(h', script), s)
    decreases script
  {
    if script != [] {
      if script[0].Abort? {
        SameEnd(script[1..], h, h', s);
      } else {
        var (t, d) := (script[0].Target(), script[0].Day());
        SameEnd(script[1..], h[t := d], h'[t := d], s);
      }
    }
  }

  /** And they decide where its history ends. */
  lemma {:induction false} OnlyEnd(script: Script, h: History, s: Series)
    ensures LastGenerated(After(h, script), s) == LastGenerated(After(h, Only(script, s)), s)
    decreases script
  {
    if script != [] {
      var h' := if script[0].Abort? then h else h[script[0].Target() := script[0].Day()];
      OnlyEnd(script[1..], h', s);
      if On(script[0], s) {
        assert Only(script, s)[0] == script[0] && Only(script, s)[1..] == Only(script[1..], s);
      } else {
        SameEnd(Only(script[1..], s), h, h', s);
      }
    }
  }

  lemma OnlyElsewhere(script: Script, rest: Script, key: ReportKey, s: Series)
    requires Within(script, key) && s.report != key
    ensures Only(script + rest, s) == Only(rest, s)
  {
    OnlyNothing(script, s);
    OnlyAppend(script, rest, s);
  }

  lemma {:induction false} PlanElsewhere(store: Store, reports: seq<ReportKey>, order: Order, h: History,
                                         backfill: nat, utc: nat, local: nat, s: Series)
    requires s.report !in reports || s.report !in store
    ensures Only(Plan(store, reports, order, h, backfill, utc, local), s) == []
    decreases reports
  {
    if reports == [] {
    } else if reports[0] !in store {
      PlanElsewhere(store, reports[1..], order, h, backfill, utc, local, s);
    } else {
      var k := reports[0];
      var head := ReportPlan(k, store[k], CellsOf(order, k), h, backfill, utc, local);
      ReportPlanAgrees(k, store[k], CellsOf(order, k), h, h, backfill, utc, local);
      PlanElsewhere(store, reports[1..], order, After(h, head), backfill, utc, local, s);
      OnlyElsewhere(head, Plan(store, reports[1..], order, After(h, head), backfill, utc, local), k, s);
    }
  }

  /** Of a whole call only the report's own plan matters, from the history at the start of the call. */
  lemma {:induction false} PlanOnly(store: Store, reports: seq<ReportKey>, order: Order, h0: History, h: History,
                                    backfill: nat, utc: nat, local: nat, s: Series)
    requires NoDuplicates(reports) && s.report in reports && s.report in store && Agree(h0, h, s.report)
    ensures Only(Plan(store, reports, order, h, backfill, utc, local), s) ==
            Only(ReportPlan(s.report, store[s.report], CellsOf(order, s.report), h0, backfill, utc, local), s)
    decreases reports
  {
    var k := reports[0];
    if k !in store {
      PlanOnly(store, reports[1..], order, h0, h, backfill, utc, local, s);
    } else {
      var head := ReportPlan(k, store[k], CellsOf(order, k), h, backfill, utc, local);
      var tail := Plan(store, reports[1..], order, After(h, head), backfill, utc, local);
      if k == s.report {
        ReportPlanAgrees(k, store[k], CellsOf(order, k), h0, h, backfill, utc, local);
        OnlyAppend(head, tail, s);
        PlanElsewhere(store, reports[1..], order, After(h, head), backfill, utc, local, s);
      } else {
        ReportPlanAgrees(k, store[k], CellsOf(order, k), h, h, backfill, utc, local);
        OnlyElsewhere(head, tail, k, s);
        OthersUntouched(h, head, k, s.report);
        PlanOnly(store, reports[1..], order, h0, After(h, head), backfill, utc, local, s);
      }
    }
  }

  // ---------------------------------------------------------------- Unique actives

  lemma {:induction false} UniqueDaysOnly(series: Series, active: map<nat, bool>, window: nat, day: nat, final: nat, s: Series)
    ensures Only(UniqueDays(series, active, window, day, final), s) ==
            if s == series then UniqueDays(series, active, window, day, final) else []
    decreases final + 1 - day
  {
    if day <= final {
      var rest := UniqueDays(series, active, window, day + 1, final);
      assert UniqueDays(series, active, window, day, final)[1..] == rest;
      UniqueDaysOnly(series, active, window, day + 1, final, s);
    }
  }

  lemma {:induction false} UniqueDaysTimes(s: Series, active: map<nat, bool>, window: nat, day: nat, final: nat, o: Observation)
    requires o.series == s
    ensures Times(UniqueDays(s, active, window, day, final), o) ==
            if day <= o.day <= final && o.payload == Activity(WasActive(active, o.day, window)) then 1 else 0
    decreases final + 1 - day
  {
    if day <= final {
      assert UniqueDays(s, active, window, day, final)[1..] == UniqueDays(s, active, window, day + 1, final);
      UniqueDaysTimes(s, active, window, day + 1, final, o);
    }
  }

  lemma {:induction false} UniqueDaysEnd(s: Series, active: map<nat, bool>, window: nat, day: nat, final: nat, h: History)
    ensures LastGenerated(After(h, UniqueDays(s, active, window, day, final)), s) ==
            if day <= final then final else LastGenerated(h, s)
    decreases final + 1 - day
  {
    if day <= final {
      assert UniqueDays(s, active, window, day, final)[1..] == UniqueDays(s, active, window, day + 1, final);
      UniqueDaysEnd(s, active, window, day + 1, final, h[s := day]);
    }
  }

  /** Whether a unique-actives report with these windows generates a series for the event code. */
  predicate HasSeries(key: ReportKey, code: nat, windows: seq<Window>, s: Series) {
    s.UniqueSeries? && s.report == key && s.code == code && Days(s.window) in windows && UniqueWindow(Days(s.window))
  }

  /** Nothing is generated for other series, nor for a series that reached the final day. */
  lemma {:induction false} UniqueWindowsIdle(key: ReportKey, active: map<nat, bool>, code: nat, windows: seq<Window>,
                                             h: History, backfill: nat, final: nat, s: Series)
    requires HasSeries(key, code, windows, s) ==> final <= LastGenerated(h, s)
    ensures Only(UniqueWindows(key, active, code, windows, h, backfill, final), s) == []
    decreases windows
  {
    if windows == [] {
    } else if !UniqueWindow(windows[0]) {
      UniqueWindowsIdle(key, active, code, windows[1..], h, backfill, final, s);
    } else {
      var series := UniqueSeries(key, code, windows[0].days);
      var first := FirstDay(h, series, final, backfill);
      var head := UniqueDays(series, active, windows[0].days, first, final);
      OnlyAppend(head, UniqueWindows(key, active, code, windows[1..], After(h, head), backfill, final), s);
      assert Only(head, s) == [] by {
        UniqueDaysOnly(series, active, windows[0].days, first, final, s);
      }
      OnlyEnd(head, h, s);
      UniqueWindowsIdle(key, active, code, windows[1..], After(h, head), backfill, final, s);
    }
  }

  lemma {:induction false} UniqueWindowsOnly(key: ReportKey, active: map<nat, bool>, code: nat, windows: seq<Window>,
                                             h0: History, h: History, backfill: nat, final: nat, s: Series)
    requires LastGenerated(h0, s) == LastGenerated(h, s) && HasSeries(key, code, windows, s)
    ensures Only(UniqueWindows(key, active, code, windows, h, backfill, final), s) ==
            UniqueDays(s, active, s.window, FirstDay(h0, s, final, backfill), final)
    decreases windows
  {
    if !UniqueWindow(windows[0]) {
      UniqueWindowsOnly(key, active, code, windows[1..], h0, h, backfill, final, s);
    } else {
      var series := UniqueSeries(key, code, windows[0].days);
      var first := FirstDay(h, series, final, backfill);
      var head := UniqueDays(series, active, windows[0].days, first, final);
      OnlyAppend(head, UniqueWindows(key, active, code, windows[1..], After(h, head), backfill, final), s);
      UniqueDaysOnly(series, active, windows[0].days, first, final, s);
      if s == series {
        UniqueDaysEnd(s, active, s.window, first, final, h);
        UniqueWindowsIdle(key, active, code, windows[1..], After(h, head), backfill, final, s);
      } else {
        OnlyEnd(head, h, s);
        UniqueWindowsOnly(key, active, code, windows[1..], h0, After(h, head), backfill, final, s);
      }
    }
  }

  /** Nothing is generated for the series of other event codes. */
  lemma {:induction false} UniqueCodesIdle(key: ReportKey, report: Report, code: nat, h: History, backfill: nat, final: nat, s: Series)
    requires s.UniqueSeries? && code <= s.code < report.config.numEventCodes ==> !HasSeries(key, s.code, report.config.windows, s)
    ensures Only(UniqueCodes(key, report, code, h, backfill, final), s) == []
    decreases report.config.numEventCodes - code
  {
    if code < report.config.numEventCodes {
      var active := ActivityOf(report.aggregates, code);
      var head := UniqueWindows(key, active, code, report.config.windows, h, backfill, final);
      UniqueWindowsIdle(key, active, code, report.config.windows, h, backfill, final, s);
      OnlyAppend(head, UniqueCodes(key, report, code + 1, After(h, head), backfill, final), s);
      UniqueCodesIdle(key, report, code + 1, After(h, head), backfill, final, s);
    }
  }

  lemma {:induction false} UniqueCodesOnly(key: ReportKey, report: Report, code: nat, h0: History, h: History,
                                           backfill: nat, final: nat, s: Series)
    requires LastGenerated(h0, s) == LastGenerated(h, s)
    requires s.UniqueSeries? && code <= s.code < report.config.numEventCodes && HasSeries(key, s.code, report.config.windows, s)
    ensures Only(UniqueCodes(key, report, code, h, backfill, final), s) ==
            UniqueDays(s, ActivityOf(report.aggregates, s.code), s.window, FirstDay(h0, s, final, backfill), final)
    decreases report.config.numEventCodes - code
  {
    var active := ActivityOf(report.aggregates, code);
    var head := UniqueWindows(key, active, code, report.config.windows, h, backfill, final);
    OnlyAppend(head, UniqueCodes(key, report, code + 1, After(h, head), backfill, final), s);
    if s.code == code {
      UniqueWindowsOnly(key, active, code, report.config.windows, h0, h, backfill, final, s);
      UniqueCodesIdle(key, report, code + 1, After(h, head), backfill, final, s);
    } else {
      UniqueWindowsIdle(key, active, code, report.config.windows, h, backfill, final, s);
      OnlyEnd(head, h, s);
      UniqueCodesOnly(key, report, code + 1, h0, After(h, head), backfill, final, s);
    }
  }

  // ---------------------------------------------------------------- Numeric series

  function Repeat(step: Step, n: nat): Script {
    if n == 0 then [] else [step] + Repeat(step, n - 1)
  }

  /** The n windows of one size, day by day. */
  function SeriesDays(key: ReportKey, config: Config, cell: Cell, days: map<nat, int>, w: nat, n: nat, day: nat, final: nat): Script
    decreases final + 1 - day
  {
    if final < day then []
    else Repeat(CellStep(key, config, cell, days, day, w), n) + SeriesDays(key, config, cell, days, w, n, day + 1, final)
  }

  lemma {:induction false} CellDayOnly(key: ReportKey, config: Config, cell: Cell, days: map<nat, int>, day: nat, needed: seq<nat>, w: nat)
    requires PathOf(config) == NumericPath && config.aggregation != UnknownType
    ensures Only(CellDay(key, config, cell, days, day, needed), CellSeries(key, cell, w)) ==
            Repeat(CellStep(key, config, cell, days, day, w), multiset(needed)[w])
  {
    if needed != [] {
      var step, rest := CellStep(key, config, cell, days, day, needed[0]), CellDay(key, config, cell, days, day, needed[1..]);
      CellDayOnly(key, config, cell, days, day, needed[1..], w);
      CountFirst(needed, w);
      CellStepTarget(key, config, cell, days, day, needed[0]);
      assert ([step] + rest)[1..] == rest;
      assert On(step, CellSeries(key, cell, w)) <==> needed[0] == w;
    }
  }

  lemma NeededOnly(key: ReportKey, config: Config, cell: Cell, days: map<nat, int>, h: History, backfill: nat, final: nat,
                   day: nat, w: nat)
    requires PathOf(config) == NumericPath && config.aggregation != UnknownType
    ensures var needed := Needed(key, cell, config.windows, h, backfill, final, day);
            Only(CellDay(key, config, cell, days, day, needed), CellSeries(key, cell, w)) ==
            if FirstDay(h, CellSeries(key, cell, w), final, backfill) <= day
            then Repeat(CellStep(key, config, cell, days, day, w), multiset(config.windows)[Days(w)]) else []
  {
    CellDayOnly(key, config, cell, days, day, Needed(key, cell, config.windows, h, backfill, final, day), w);
    NeededCount(key, cell, config.windows, h, backfill, final, day, w);
  }

  lemma CellDaysStep(key: ReportKey, config: Config, cell: Cell, days: map<nat, int>, h: History,
                     backfill: nat, day: nat, final: nat, w: nat, step: Step, n: nat)
    requires PathOf(config) == NumericPath && config.aggregation != UnknownType && day <= final
    requires n == multiset(config.windows)[Days(w)] && step == CellStep(key, config, cell, days, day, w)
    ensures var rest := Only(CellDays(key, config, cell, days, h, backfill, day + 1, final), CellSeries(key, cell, w));
            Only(CellDays(key, config, cell, days, h, backfill, day, final), CellSeries(key, cell, w)) ==
            if FirstDay(h, CellSeries(key, cell, w), final, backfill) <= day then Repeat(step, n) + rest else rest
  {
    var head := CellDay(key, config, cell, days, day, Needed(key, cell, config.windows, h, backfill, final, day));
    OnlyAppend(head, CellDays(key, config, cell, days, h, backfill, day + 1, final), CellSeries(key, cell, w));
    NeededOnly(key, config, cell, days, h, backfill, final, day, w);
  }

  lemma {:induction false} CellDaysOnly(key: ReportKey, config: Config, cell: Cell, days: map<nat, int>, h: History,
                                        backfill: nat, day: nat, final: nat, w: nat, n: nat, first: nat)
    requires PathOf(config) == NumericPath && config.aggregation != UnknownType
    requires n == multiset(config.windows)[Days(w)] && first == FirstDay(h, CellSeries(key, cell, w), final, backfill)
    ensures Only(CellDays(key, config, cell, days, h, backfill, day, final), CellSeries(key, cell, w)) ==
            SeriesDays(key, config, cell, days, w, n, if day <= first then first else day, final)
    decreases final + 1 - day
  {
    if day <= final {
      CellDaysStep(key, config, cell, days, h, backfill, day, final, w, CellStep(key, config, cell, days, day, w), n);
      CellDaysOnly(key, config, cell, days, h, backfill, day + 1, final, w, n, first);
    }
  }

  lemma {:induction false} TimesRepeat(step: Step, n: nat, o: Observation)
    ensures Times(Repeat(step, n), o) == if step == Emit(o) || step == TryEmit(o) then n else 0
  {
    if n != 0 {
      assert Repeat(step, n)[1..] == Repeat(step, n - 1);
      TimesRepeat(step, n - 1, o);
    }
  }

  lemma {:induction false} SeriesDaysTimes(key: ReportKey, config: Config, cell: Cell, days: map<nat, int>, w: nat, n: nat,
                                           day: nat, final: nat, o: Observation)
    requires PathOf(config) == NumericPath && config.aggregation != UnknownType
    ensures Times(SeriesDays(key, config, cell, days, w, n, day, final), o) ==
            if day <= o.day <= final && CellStep(key, config, cell, days, o.day, w) == Emit(o) then n else 0
    decreases final + 1 - day
  {
    if day <= final {
      var step := CellStep(key, config, cell, days, day, w);
      TimesAppend(Repeat(step, n), SeriesDays(key, config, cell, days, w, n, day + 1, final), o);
      TimesRepeat(step, n, o);
      SeriesDaysTimes(key, config, cell, days, w, n, day + 1, final, o);
    }
  }

  lemma {:induction false} EndRepeat(step: Step, n: nat, h: History)
    requires !step.Abort? && 0 < n
    ensures LastGenerated(After(h, Repeat(step, n)), step.Target()) == step.Day()
    decreases n
  {
    assert Repeat(step, n)[1..] == Repeat(step, n - 1);
    if n != 1 {
      EndRepeat(step, n - 1, h[step.Target() := step.Day()]);
    }
  }

  lemma {:induction false} SeriesDaysEnd(key: ReportKey, config: Config, cell: Cell, days: map<nat, int>, w: nat, n: nat,
                                         day: nat, final: nat, h: History)
    requires PathOf(config) == NumericPath && config.aggregation != UnknownType && 0 < n
    ensures LastGenerated(After(h, SeriesDays(key, config, cell, days, w, n, day, final)), CellSeries(key, cell, w)) ==
            if day <= final then final else LastGenerated(h, CellSeries(key, cell, w))
    decreases final + 1 - day
  {
    if day <= final {
      var step := CellStep(key, config, cell, days, day, w);
      var head := Repeat(step, n);
      AfterAppend(head, SeriesDays(key, config, cell, days, w, n, day + 1, final), h);
      CellStepTarget(key, config, cell, days, day, w);
      EndRepeat(step, n, h);
      SeriesDaysEnd(key, config, cell, days, w, n, day + 1, final, After(h, head));
    }
  }

  lemma CellDaysElsewhere(key: ReportKey, config: Config, cell: Cell, days: map<nat, int>, h: History,
                          backfill: nat, day: nat, final: nat, s: Series)
    requires s.NumericSeries? ==> s != CellSeries(key, cell, s.window)
    ensures Only(CellDays(key, config, cell, days, h, backfill, day, final), s) == []
  {
    CellDaysOnCell(key, config, cell, days, h, backfill, day, final);
    OnlyNothing(CellDays(key, config, cell, days, h, backfill, day, final), s);
  }

  /** A series that no entry of the list stands for. */
  ghost predicate Unlisted(key: ReportKey, cells: seq<Cell>, s: Series) {
    s.NumericSeries? ==> forall c :: c in cells ==> s != CellSeries(key, c, s.window)
  }

  lemma {:induction false} NumericCellsElsewhere(key: ReportKey, report: Report, cells: seq<Cell>, h: History,
                                                 backfill: nat, final: nat, s: Series)
    requires Unlisted(key, cells, s)
    ensures Only(NumericCells(key, report, cells, h, backfill, final), s) == []
    decreases cells
  {
    if cells != [] {
      var days := DaysOf(report.aggregates, cells[0]);
      var head := CellDays(key, report.config, cells[0], days, h, backfill, Start(final, backfill), final);
      OnlyAppend(head, NumericCells(key, report, cells[1..], After(h, head), backfill, final), s);
      CellDaysElsewhere(key, report.config, cells[0], days, h, backfill, Start(final, backfill), final, s);
      NumericCellsElsewhere(key, report, cells[1..], After(h, head), backfill, final, s);
    }
  }

  /** The steps on a series of one entry do not depend on the other entries. */
  lemma {:induction false} NumericCellsOnly(key: ReportKey, report: Report, cells: seq<Cell>, h0: History, h: History,
                                            backfill: nat, final: nat, cell: Cell, w: nat)
    requires LabelsDiffer(cells) && cell in cells && AgreeOnCell(h0, h, key, cell)
    ensures var days := DaysOf(report.aggregates, cell);
            Only(NumericCells(key, report, cells, h, backfill, final), CellSeries(key, cell, w)) ==
            Only(CellDays(key, report.config, cell, days, h0, backfill, Start(final, backfill), final), CellSeries(key, cell, w))
    decreases cells
  {
    var s, c := CellSeries(key, cell, w), cells[0];
    var days := DaysOf(report.aggregates, c);
    var head := CellDays(key, report.config, c, days, h, backfill, Start(final, backfill), final);
    var h' := After(h, head);
    OnlyAppend(head, NumericCells(key, report, cells[1..], h', backfill, final), s);
    if c == cell {
      CellDaysAgree(key, report.config, c, days, h0, h, backfill, Start(final, backfill), final);
      forall d | d in cells[1..] ensures s != CellSeries(key, d, w) {
        var j :| 0 <= j < |cells[1..]| && cells[1..][j] == d;
        assert DifferentLabels(cells[0], cells[j + 1]);
      }
      NumericCellsElsewhere(key, report, cells[1..], h', backfill, final, s);
    } else {
      var j :| 0 < j < |cells| && cells[j] == cell;
      assert DifferentLabels(cells[0], cells[j]) && cells[1..][j - 1] == cell;
      CellDaysElsewhere(key, report.config, c, days, h, backfill, Start(final, backfill), final, s);
      CellDaysOnCell(key, report.config, c, days, h, backfill, Start(final, backfill), final);
      OtherCellsUntouched(h, head, key, c, cell);
      NumericCellsOnly(key, report, cells[1..], h0, h', backfill, final, cell, w);
    }
  }

  // ---------------------------------------------------------------- Participation

  lemma {:induction false} ParticipationOnly(key: ReportKey, day: nat, final: nat, s: Series)
    ensures Only(ParticipationDays(key, day, final), s) ==
            if s == ParticipationSeries(key) then ParticipationDays(key, day, final) else []
    decreases final + 1 - day
  {
    if day <= final {
      assert ParticipationDays(key, day, final)[1..] == ParticipationDays(key, day + 1, final);
      ParticipationOnly(key, day + 1, final, s);
    }
  }

  lemma {:induction false} ParticipationTimes(key: ReportKey, day: nat, final: nat, o: Observation)
    requires o.series == ParticipationSeries(key)
    ensures Times(ParticipationDays(key, day, final), o) == if day <= o.day <= final && o.payload == Participation then 1 else 0
    decreases final + 1 - day
  {
    if day <= final {
      assert ParticipationDays(key, day, final)[1..] == ParticipationDays(key, day + 1, final);
      ParticipationTimes(key, day + 1, final, o);
    }
  }

  lemma {:induction false} ParticipationEnd(key: ReportKey, day: nat, final: nat, h: History)
    ensures LastGenerated(After(h, ParticipationDays(key, day, final)), ParticipationSeries(key)) ==
            if day <= final then final else LastGenerated(h, ParticipationSeries(key))
    decreases final + 1 - day
  {
    if day <= final {
      assert ParticipationDays(key, day, final)[1..] == ParticipationDays(key, day + 1, final);
      ParticipationEnd(key, day + 1, final, h[ParticipationSeries(key) := day]);
    }
  }

  lemma NumericPlanOnly(key: ReportKey, report: Report, cells: seq<Cell>, h: History, backfill: nat, final: nat, s: Series)
    ensures Only(NumericPlan(key, report, cells, h, backfill, final), s) ==
            if s == ParticipationSeries(key) then ParticipationDays(key, FirstDay(h, s, final, backfill), final)
            else Only(NumericCells(key, report, cells, h, backfill, final), s)
  {
    var head := NumericCells(key, report, cells, h, backfill, final);
    var first := FirstDay(After(h, head), ParticipationSeries(key), final, backfill);
    OnlyAppend(head, ParticipationDays(key, first, final), s);
    ParticipationOnly(key, first, final, s);
    ParticipationStart(key, report, cells, h, backfill, final);
    if s == ParticipationSeries(key) {
      NumericCellsElsewhere(key, report, cells, h, backfill, final, s);
    }
  }

  // ---------------------------------------------------------------- Whole calls

  /** A stored entry that a numeric series stands for. */
  ghost predicate HasEntry(a: Aggregates, s: Series) {
    s.NumericSeries? && exists c: Cell :: HasCell(a, c) && s == CellSeries(s.report, c, s.window)
  }

  /** Whether a report generates a series, given its entries. */
  ghost predicate Generates(report: Report, s: Series) {
    match s
    case UniqueSeries(key, code, w) =>
      PathOf(report.config) == UniquePath && code < report.config.numEventCodes && HasSeries(key, code, report.config.windows, s)
    case NumericSeries(_, _, _, w) => PathOf(report.config) == NumericPath && Days(w) in report.config.windows && HasEntry(report.aggregates, s)
    case ParticipationSeries(_) => PathOf(report.config) == NumericPath
  }

  /** The final day of a call for a report, unless the call skips the report. */
  function FinalDay(config: Config, utc: nat, local: nat): Option<nat> {
    match DayFor(config.zone, utc, local)
    case None => None
    case Some(final) => if Skipped(config.windows, final) then None else Some(final)
  }

  /** The entries of the report can be told apart, and a numeric report has a known aggregation type. */
  ghost predicate Sound(report: Report) {
    DistinctLabels(report.aggregates) && (PathOf(report.config) == NumericPath ==> report.config.aggregation != UnknownType)
  }

  lemma {:induction false} NoWindowNoDays(key: ReportKey, config: Config, cell: Cell, days: map<nat, int>, w: nat, day: nat, final: nat)
    ensures SeriesDays(key, config, cell, days, w, 0, day, final) == []
    decreases final + 1 - day
  {
    if day <= final {
      NoWindowNoDays(key, config, cell, days, w, day + 1, final);
    }
  }

  lemma CellPlan(key: ReportKey, report: Report, cells: seq<Cell>, h: History, backfill: nat, final: nat, cell: Cell, w: nat)
    requires PathOf(report.config) == NumericPath && Sound(report)
    requires EnumeratesCells(cells, report.aggregates) && HasCell(report.aggregates, cell)
    ensures var s, n := CellSeries(key, cell, w), multiset(report.config.windows)[Days(w)];
            Only(NumericPlan(key, report, cells, h, backfill, final), s) ==
            SeriesDays(key, report.config, cell, DaysOf(report.aggregates, cell), w, n, FirstDay(h, s, final, backfill), final)
  {
    var s, n := CellSeries(key, cell, w), multiset(report.config.windows)[Days(w)];
    NumericPlanOnly(key, report, cells, h, backfill, final, s);
    forall i, j | 0 <= i < j < |cells| ensures DifferentLabels(cells[i], cells[j]) {
      assert cells[i] in cells && cells[j] in cells && cells[i] != cells[j];
    }
    NumericCellsOnly(key, report, cells, h, h, backfill, final, cell, w);
    CellDaysOnly(key, report.config, cell, DaysOf(report.aggregates, cell), h, backfill, Start(final, backfill), final, w, n,
                 FirstDay(h, s, final, backfill));
  }

  lemma IdleNumeric(key: ReportKey, report: Report, cells: seq<Cell>, h: History, backfill: nat, final: nat, s: Series)
    requires PathOf(report.config) == NumericPath && Sound(report) && s.report == key
    requires EnumeratesCells(cells, report.aggregates) && !Generates(report, s)
    ensures Only(NumericPlan(key, report, cells, h, backfill, final), s) == []
  {
    if HasEntry(report.aggregates, s) {
      var c: Cell :| HasCell(report.aggregates, c) && s == CellSeries(s.report, c, s.window);
      CellPlan(key, report, cells, h, backfill, final, c, s.window);
      NoWindowNoDays(key, report.config, c, DaysOf(report.aggregates, c), s.window, FirstDay(h, s, final, backfill), final);
    } else {
      NumericPlanOnly(key, report, cells, h, backfill, final, s);
      NumericCellsElsewhere(key, report, cells, h, backfill, final, s);
    }
  }

  lemma IdleReport(key: ReportKey, report: Report, cells: seq<Cell>, h: History, backfill: nat, utc: nat, local: nat, s: Series)
    requires Sound(report) && s.report == key && EnumeratesCells(cells, report.aggregates)
    requires FinalDay(report.config, utc, local).None? || !Generates(report, s)
    ensures Only(ReportPlan(key, report, cells, h, backfill, utc, local), s) == []
  {
    var day := FinalDay(report.config, utc, local);
    if day.Some? {
      match PathOf(report.config) {
        case UniquePath => UniqueCodesIdle(key, report, 0, h, backfill, day.value, s);
        case NumericPath => IdleNumeric(key, report, cells, h, backfill, day.value, s);
        case NoPath =>
      }
    }
  }

  /** A call leaves a series alone that its report does not generate. */
  lemma IdleCall(store: Store, order: Order, h: History, backfill: nat, utc: nat, local: nat, s: Series)
    requires Enumerates(order, store)
    requires s.report in store ==>
               Sound(store[s.report]) && (FinalDay(store[s.report].config, utc, local).None? || !Generates(store[s.report], s))
    ensures Only(Plan(store, order.reports, order, h, backfill, utc, local), s) == []
  {
    if s.report in store {
      PlanOnly(store, order.reports, order, h, h, backfill, utc, local, s);
      IdleReport(s.report, store[s.report], CellsOf(order, s.report), h, backfill, utc, local, s);
    } else {
      PlanElsewhere(store, order.reports, order, h, backfill, utc, local, s);
    }
  }

  /** What a call attempts of a series that its report generates. */
  ghost predicate Attempted(report: Report, o: Observation) {
    match o.series
    case UniqueSeries(_, code, w) => o.payload == Activity(WasActive(ActivityOf(report.aggregates, code), o.day, w))
    case NumericSeries(key, _, _, w) => exists c: Cell :: AttemptedFor(report, o, c)
    case ParticipationSeries(_) => o.payload == Participation
  }

  predicate AttemptedFor(report: Report, o: Observation, c: Cell)
    requires o.series.NumericSeries?
  {
    var s := o.series;
    && HasCell(report.aggregates, c) && s == CellSeries(s.report, c, s.window)
    && CellStep(s.report, report.config, c, DaysOf(report.aggregates, c), o.day, s.window) == Emit(o)
  }

  /** How often the report lists the window of a numeric series. */
  function Copies(config: Config, s: Series): nat {
    if s.NumericSeries? then multiset(config.windows)[Days(s.window)] else 1
  }

  /** A script on a series that goes through the days from `first` to `last`, in each of them as the report asks. */
  ghost predicate Covers(script: Script, h: History, report: Report, first: nat, last: nat, s: Series) {
    && LastGenerated(After(h, script), s) == (if first <= last then last else LastGenerated(h, s))
    && forall o: Observation :: o.series == s ==>
         Times(script, o) == if first <= o.day <= last && Attempted(report, o) then Copies(report.config, s) else 0
  }

  predicate NoTry(script: Script) { forall i :: 0 <= i < |script| ==> !script[i].TryEmit? }

  lemma UniqueCovers(s: Series, report: Report, h: History, first: nat, last: nat)
    requires s.UniqueSeries?
    ensures Covers(UniqueDays(s, ActivityOf(report.aggregates, s.code), s.window, first, last), h, report, first, last, s)
  {
    var active := ActivityOf(report.aggregates, s.code);
    UniqueDaysEnd(s, active, s.window, first, last, h);
    forall o: Observation | o.series == s
      ensures Times(UniqueDays(s, active, s.window, first, last), o) == if first <= o.day <= last && Attempted(report, o) then 1 else 0
    {
      UniqueDaysTimes(s, active, s.window, first, last, o);
    }
  }

  lemma ParticipationCovers(s: Series, report: Report, h: History, first: nat, last: nat)
    requires s.ParticipationSeries?
    ensures Covers(ParticipationDays(s.report, first, last), h, report, first, last, s)
  {
    ParticipationEnd(s.report, first, last, h);
    forall o: Observation | o.series == s
      ensures Times(ParticipationDays(s.report, first, last), o) == if first <= o.day <= last && Attempted(report, o) then 1 else 0
    {
      ParticipationTimes(s.report, first, last, o);
    }
  }

  /** The script of a cell is about a series of a sound report. */
  predicate CellOf(report: Report, s: Series, c: Cell) {
    s.NumericSeries? && HasCell(report.aggregates, c) && s == CellSeries(s.report, c, s.window) && Days(s.window) in report.config.windows
  }

  function CellScript(report: Report, s: Series, c: Cell, first: nat, last: nat): Script
    requires s.NumericSeries?
  {
    SeriesDays(s.report, report.config, c, DaysOf(report.aggregates, c), s.window, Copies(report.config, s), first, last)
  }

  lemma CellCovers(s: Series, report: Report, h: History, first: nat, last: nat, c: Cell)
    requires PathOf(report.config) == NumericPath && Sound(report) && CellOf(report, s, c)
    ensures Covers(CellScript(report, s, c, first, last), h, report, first, last, s)
  {
    var days, n := DaysOf(report.aggregates, c), Copies(report.config, s);
    assert Days(s.window) in multiset(report.config.windows);
    SeriesDaysEnd(s.report, report.config, c, days, s.window, n, first, last, h);
    forall o: Observation | o.series == s
      ensures Times(CellScript(report, s, c, first, last), o) == if first <= o.day <= last && Attempted(report, o) then n else 0
    {
      SeriesDaysTimes(s.report, report.config, c, days, s.window, n, first, last, o);
      if Attempted(report, o) {
        var c': Cell :| AttemptedFor(report, o, c');
        assert c == c';
      } else {
        assert !AttemptedFor(report, o, c);
      }
    }
  }

  // ---------------------------------------------------------------- Calls cut short

  lemma {:induction false} UniquePrefix(s: Series, active: map<nat, bool>, window: nat, first: nat, last: nat, k: nat)
    requires 0 < first && k <= |UniqueDays(s, active, window, first, last)|
    ensures UniqueDays(s, active, window, first, last)[..k] == UniqueDays(s, active, window, first, first + k - 1)
    ensures 0 < k ==> first + k - 1 <= last
    ensures k == |UniqueDays(s, active, window, first, last)| && first <= last ==> first + k - 1 == last
    ensures NoTry(UniqueDays(s, active, window, first, last))
    decreases last + 1 - first
  {
    if first <= last {
      var rest := UniqueDays(s, active, window, first + 1, last);
      UniquePrefix(s, active, window, first + 1, last, if k == 0 then 0 else k - 1);
      if 0 < k {
        assert ([UniqueDays(s, active, window, first, last)[0]] + rest)[..k] == [UniqueDays(s, active, window, first, last)[0]] + rest[..k - 1];
      }
    }
  }

  lemma {:induction false} SeriesPrefix(key: ReportKey, config: Config, cell: Cell, days: map<nat, int>, w: nat, first: nat, last: nat, k: nat)
    requires 0 < first && k <= |SeriesDays(key, config, cell, days, w, 1, first, last)|
    ensures SeriesDays(key, config, cell, days, w, 1, first, last)[..k] == SeriesDays(key, config, cell, days, w, 1, first, first + k - 1)
    ensures 0 < k ==> first + k - 1 <= last
    ensures k == |SeriesDays(key, config, cell, days, w, 1, first, last)| && first <= last ==> first + k - 1 == last
    decreases last + 1 - first
  {
    if first <= last {
      var step, rest := CellStep(key, config, cell, days, first, w), SeriesDays(key, config, cell, days, w, 1, first + 1, last);
      assert Repeat(step, 1) == [step];
      SeriesPrefix(key, config, cell, days, w, first + 1, last, if k == 0 then 0 else k - 1);
      if 0 < k {
        assert ([step] + rest)[..k] == [step] + rest[..k - 1];
      }
    }
  }

  lemma {:induction false} RepeatNoTry(step: Step, n: nat)
    requires !step.TryEmit?
    ensures NoTry(Repeat(step, n))
  {
    if n != 0 {
      RepeatNoTry(step, n - 1);
    }
  }

  lemma {:induction false} SeriesNoTry(key: ReportKey, config: Config, cell: Cell, days: map<nat, int>, w: nat, n: nat, first: nat, last: nat)
    ensures NoTry(SeriesDays(key, config, cell, days, w, n, first, last))
    decreases last + 1 - first
  {
    if first <= last {
      RepeatNoTry(CellStep(key, config, cell, days, first, w), n);
      SeriesNoTry(key, config, cell, days, w, n, first + 1, last);
    }
  }

  /** The steps on a series that a script gets through when any attempt can fail. */
  function Done(script: Script, st: GenState, oracle: Oracle, s: Series): Script {
    if script == [] || DoStep(script[0], st, oracle).1 != Ok then []
    else
      var rest := Done(script[1..], DoStep(script[0], st, oracle).0, oracle, s);
      if On(script[0], s) then [script[0]] + rest else rest
  }

  /** They are the first ones, and all of them if the call returns kOK. */
  lemma {:induction false} DoneIsPrefix(script: Script, st: GenState, oracle: Oracle, s: Series)
    ensures Done(script, st, oracle, s) <= Only(script, s)
    ensures Execute(script, st, oracle).1 == Ok ==> Done(script, st, oracle, s) == Only(script, s)
  {
    if script != [] {
      DoneIsPrefix(script[1..], DoStep(script[0], st, oracle).0, oracle, s);
    }
  }

  /** They decide where the history of the series ends. */
  lemma {:induction false} DoneEnd(script: Script, st: GenState, oracle: Oracle, s: Series)
    ensures LastGenerated(Execute(script, st, oracle).0.history, s) == LastGenerated(After(st.history, Done(script, st, oracle, s)), s)
  {
    if script != [] && DoStep(script[0], st, oracle).1 == Ok {
      var st' := DoStep(script[0], st, oracle).0;
      var rest := Done(script[1..], st', oracle, s);
      DoneEnd(script[1..], st', oracle, s);
      if On(script[0], s) {
        assert ([script[0]] + rest)[1..] == rest;
      } else {
        SameEnd(rest, st.history, st'.history, s);
      }
    }
  }

  /** And what is written of it. */
  lemma {:induction false} DoneTimes(script: Script, st: GenState, oracle: Oracle, o: Observation)
    requires NoTry(Only(script, o.series))
    ensures multiset(Execute(script, st, oracle).0.written)[o] == multiset(st.written)[o] + Times(Done(script, st, oracle, o.series), o)
  {
    if script != [] && DoStep(script[0], st, oracle).1 == Ok {
      var st' := DoStep(script[0], st, oracle).0;
      var rest := Done(script[1..], st', oracle, o.series);
      if On(script[0], o.series) {
        assert Only(script, o.series)[0] == script[0] && Only(script, o.series)[1..] == Only(script[1..], o.series);
        assert ([script[0]] + rest)[1..] == rest;
      }
      DoneTimes(script[1..], st', oracle, o);
    }
  }

  /** A script without steps on a series leaves it alone, whatever fails. */
  lemma NothingDone(script: Script, st: GenState, oracle: Oracle, o: Observation)
    requires Only(script, o.series) == []
    ensures LastGenerated(Execute(script, st, oracle).0.history, o.series) == LastGenerated(st.history, o.series)
    ensures multiset(Execute(script, st, oracle).0.written)[o] == multiset(st.written)[o]
  {
    DoneIsPrefix(script, st, oracle, o.series);
    DoneEnd(script, st, oracle, o.series);
    DoneTimes(script, st, oracle, o);
  }

  // ---------------------------------------------------------------- What a whole call does

  /** The steps of a report on a series that it generates. */
  lemma SeriesPlan(report: Report, cells: seq<Cell>, h: History, backfill: nat, utc: nat, local: nat, s: Series, final: nat)
      returns (cell: Cell)
    requires Sound(report) && EnumeratesCells(cells, report.aggregates)
    requires FinalDay(report.config, utc, local) == Some(final) && Generates(report, s)
    ensures s.NumericSeries? ==> CellOf(report, s, cell)
    ensures var first := FirstDay(h, s, final, backfill);
            Only(ReportPlan(s.report, report, cells, h, backfill, utc, local), s) == SeriesScript(report, s, cell, first, final)
  {
    cell := Cell("", 0);
    match s {
      case UniqueSeries(key, code, w) => UniqueCodesOnly(key, report, 0, h, h, backfill, final, s);
      case NumericSeries(key, _, _, w) =>
        cell :| HasCell(report.aggregates, cell) && s == CellSeries(key, cell, w);
        CellPlan(key, report, cells, h, backfill, final, cell, w);
      case ParticipationSeries(key) => NumericPlanOnly(key, report, cells, h, backfill, final, s);
    }
  }

  function SeriesScript(report: Report, s: Series, cell: Cell, first: nat, last: nat): Script {
    match s
    case UniqueSeries(_, code, w) => UniqueDays(s, ActivityOf(report.aggregates, code), w, first, last)
    case NumericSeries(_, _, _, _) => CellScript(report, s, cell, first, last)
    case ParticipationSeries(key) => ParticipationDays(key, first, last)
  }

  lemma ScriptCovers(report: Report, s: Series, cell: Cell, h: History, first: nat, last: nat)
    requires Sound(report) && Generates(report, s) && (s.NumericSeries? ==> CellOf(report, s, cell))
    ensures Covers(SeriesScript(report, s, cell, first, last), h, report, first, last, s)
  {
    match s {
      case UniqueSeries(_, _, _) => UniqueCovers(s, report, h, first, last);
      case NumericSeries(_, _, _, _) => CellCovers(s, report, h, first, last, cell);
      case ParticipationSeries(_) => ParticipationCovers(s, report, h, first, last);
    }
  }

  /** The first steps on a series whose window is listed once are those for the first days. */
  lemma ScriptPrefix(report: Report, s: Series, cell: Cell, first: nat, last: nat, k: nat)
    requires !s.ParticipationSeries? && Copies(report.config, s) == 1 && 0 < first && k <= |SeriesScript(report, s, cell, first, last)|
    ensures SeriesScript(report, s, cell, first, last)[..k] == SeriesScript(report, s, cell, first, first + k - 1)
    ensures 0 < k ==> first + k - 1 <= last
    ensures k == |SeriesScript(report, s, cell, first, last)| && first <= last ==> first + k - 1 == last
  {
    match s {
      case UniqueSeries(_, code, w) => UniquePrefix(s, ActivityOf(report.aggregates, code), w, first, last, k);
      case NumericSeries(_, _, _, w) => SeriesPrefix(s.report, report.config, cell, DaysOf(report.aggregates, cell), w, first, last, k);
    }
  }

  lemma ScriptNoTry(report: Report, s: Series, cell: Cell, first: nat, last: nat)
    requires !s.ParticipationSeries? && 0 < first
    ensures NoTry(SeriesScript(report, s, cell, first, last))
  {
    match s {
      case UniqueSeries(_, code, w) => UniquePrefix(s, ActivityOf(report.aggregates, code), w, first, last, 0);
      case NumericSeries(_, _, _, w) =>
        SeriesNoTry(s.report, report.config, cell, DaysOf(report.aggregates, cell), w, Copies(report.config, s), first, last);
    }
  }

  /** A call brings a series that its report generates to the final day, and attempts, for each day from the first one
      that the history leaves open, the observation that the store asks for: once, or once for each time that the report
      lists the window. */
  lemma BusyCall(store: Store, order: Order, h: History, backfill: nat, utc: nat, local: nat, s: Series, final: nat)
    requires Enumerates(order, store) && s.report in store && Sound(store[s.report])
    requires FinalDay(store[s.report].config, utc, local) == Some(final) && Generates(store[s.report], s)
    ensures var plan := Plan(store, order.reports, order, h, backfill, utc, local);
            Covers(plan, h, store[s.report], FirstDay(h, s, final, backfill), final, s)
  {
    var plan := Plan(store, order.reports, order, h, backfill, utc, local);
    var first := FirstDay(h, s, final, backfill);
    PlanOnly(store, order.reports, order, h, h, backfill, utc, local, s);
    var cell := SeriesPlan(store[s.report], CellsOf(order, s.report), h, backfill, utc, local, s, final);
    ScriptCovers(store[s.report], s, cell, h, first, final);
    OnlyEnd(plan, h, s);
    forall o: Observation | o.series == s ensures Times(plan, o) == Times(Only(plan, s), o) {
      OnlyTimes(plan, o);
    }
  }

  /** What is left of the script of a series when attempts can fail: the part up to some day. */
  lemma SeriesCutShort(plan: Script, st: GenState, oracle: Oracle, report: Report, s: Series, cell: Cell, first: nat, final: nat)
      returns (last: nat)
    requires Only(plan, s) == SeriesScript(report, s, cell, first, final) && 0 < first && !s.ParticipationSeries?
    requires Copies(report.config, s) == 1
    ensures Done(plan, st, oracle, s) == SeriesScript(report, s, cell, first, last)
    ensures (first <= last ==> last <= final) && (Execute(plan, st, oracle).1 == Ok && first <= final ==> last == final)
  {
    var done := Done(plan, st, oracle, s);
    DoneIsPrefix(plan, st, oracle, s);
    assert done == Only(plan, s)[..|done|];
    ScriptPrefix(report, s, cell, first, final, |done|);
    last := first + |done| - 1;
  }

  /** The same when attempts can fail, for a series whose window is listed once: the call goes through the open days up to
      some day, and up to the final day if it returns kOK. Nothing else of the call touches the series. */
  lemma FailingCall(store: Store, order: Order, st: GenState, backfill: nat, utc: nat, local: nat, oracle: Oracle, final: nat, o: Observation)
      returns (last: nat)
    requires var s := o.series; Enumerates(order, store) && s.report in store && Sound(store[s.report]) && !s.ParticipationSeries?
    requires FinalDay(store[o.series.report].config, utc, local) == Some(final) && Generates(store[o.series.report], o.series)
    requires Copies(store[o.series.report].config, o.series) == 1
    ensures var first := FirstDay(st.history, o.series, final, backfill);
            var (st', status) := Execute(Plan(store, order.reports, order, st.history, backfill, utc, local), st, oracle);
            && (first <= last ==> last <= final) && (status == Ok && first <= final ==> last == final)
            && LastGenerated(st'.history, o.series) == (if first <= last then last else LastGenerated(st.history, o.series))
            && multiset(st'.written)[o] ==
               multiset(st.written)[o] + if first <= o.day <= last && Attempted(store[o.series.report], o) then 1 else 0
  {
    var plan := Plan(store, order.reports, order, st.history, backfill, utc, local);
    var s, report, first := o.series, store[o.series.report], FirstDay(st.history, o.series, final, backfill);
    PlanOnly(store, order.reports, order, st.history, st.history, backfill, utc, local, s);
    var cell := SeriesPlan(report, CellsOf(order, s.report), st.history, backfill, utc, local, s, final);
    last := SeriesCutShort(plan, st, oracle, report, s, cell, first, final);
    ScriptNoTry(report, s, cell, first, final);
    DoneEnd(plan, st, oracle, s);
    DoneTimes(plan, st, oracle, o);
    ScriptCovers(report, s, cell, st.history, first, last);
  }

  /** A call that returns kOK has written everything that it attempts of a series, however often. */
  lemma OkCall(store: Store, order: Order, st: GenState, backfill: nat, utc: nat, local: nat, oracle: Oracle, o: Observation)
    requires Enumerates(order, store) && !o.series.ParticipationSeries?
    requires o.series.report in store && Sound(store[o.series.report])
    requires Execute(Plan(store, order.reports, order, st.history, backfill, utc, local), st, oracle).1 == Ok
    ensures var plan := Plan(store, order.reports, order, st.history, backfill, utc, local);
            multiset(Execute(plan, st, oracle).0.written)[o] ==
            multiset(st.written)[o] + ReportAttempts(store[o.series.report], st.history, backfill, utc, local, o)
  {
    var plan := Plan(store, order.reports, order, st.history, backfill, utc, local);
    var s, report := o.series, store[o.series.report];
    var final := FinalDay(report.config, utc, local);
    if final.Some? && Generates(report, s) {
      PlanOnly(store, order.reports, order, st.history, st.history, backfill, utc, local, s);
      var cell := SeriesPlan(report, CellsOf(order, s.report), st.history, backfill, utc, local, s, final.value);
      ScriptNoTry(report, s, cell, FirstDay(st.history, s, final.value, backfill), final.value);
    } else {
      IdleCall(store, order, st.history, backfill, utc, local, s);
    }
    DoneIsPrefix(plan, st, oracle, s);
    DoneTimes(plan, st, oracle, o);
    OnlyTimes(plan, o);
    PlanAttempts(store, order, st.history, backfill, utc, local, o);
  }

  /** How often a report attempts an observation in a call: a function of the report's own entries and of the history of
      the one series. */
  ghost function ReportAttempts(report: Report, h: History, backfill: nat, utc: nat, local: nat, o: Observation): nat {
    match FinalDay(report.config, utc, local)
    case None => 0
    case Some(final) =>
      if FirstDay(h, o.series, final, backfill) <= o.day <= final && Generates(report, o.series) && Attempted(report, o)
      then Copies(report.config, o.series) else 0
  }

  /** What a whole call attempts, in whatever order it visits the reports and their entries. */
  lemma PlanAttempts(store: Store, order: Order, h: History, backfill: nat, utc: nat, local: nat, o: Observation)
    requires Enumerates(order, store) && (o.series.report in store ==> Sound(store[o.series.report]))
    ensures Times(Plan(store, order.reports, order, h, backfill, utc, local), o) ==
            if o.series.report in store then ReportAttempts(store[o.series.report], h, backfill, utc, local, o) else 0
  {
    var s := o.series;
    if s.report in store && FinalDay(store[s.report].config, utc, local).Some? && Generates(store[s.report], s) {
      BusyCall(store, order, h, backfill, utc, local, s, FinalDay(store[s.report].config, utc, local).value);
    } else {
      IdleCall(store, order, h, backfill, utc, local, s);
      OnlyTimes(Plan(store, order.reports, order, h, backfill, utc, local), o);
    }
  }

  /** Where a whole call in which nothing fails leaves the history of a series. */
  lemma PlanEnds(store: Store, order: Order, h: History, backfill: nat, utc: nat, local: nat, s: Series)
    requires Enumerates(order, store) && (s.report in store ==> Sound(store[s.report]))
    ensures LastGenerated(After(h, Plan(store, order.reports, order, h, backfill, utc, local)), s) ==
            if s.report in store && FinalDay(store[s.report].config, utc, local).Some? && Generates(store[s.report], s)
               && LastGenerated(h, s) <= FinalDay(store[s.report].config, utc, local).value
            then FinalDay(store[s.report].config, utc, local).value else LastGenerated(h, s)
  {
    if s.report in store && FinalDay(store[s.report].config, utc, local).Some? && Generates(store[s.report], s) {
      BusyCall(store, order, h, backfill, utc, local, s, FinalDay(store[s.report].config, utc, local).value);
    } else {
      IdleCall(store, order, h, backfill, utc, local, s);
      OnlyEnd(Plan(store, order.reports, order, h, backfill, utc, local), h, s);
    }
  }
}
