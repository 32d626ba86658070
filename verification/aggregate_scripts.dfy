/** How the scripts of generation calls fit together: how often they attempt an observation, what they leave alone, and
    which parts of the history they depend on. */
module AggregateScripts {
  import opened Common
  import opened AggregationWindows
  import opened AggregateModel

  // ---------------------------------------------------------------- Counting attempts

  /** How often a script attempts to write an observation. */
  function Times(script: Script, o: Observation): nat {
    if script == [] then 0
    else (if (script[0].Emit? || script[0].TryEmit?) && script[0].obs == o then 1 else 0) + Times(script[1..], o)
  }

  lemma {:induction false} TimesAppend(a: Script, b: Script, o: Observation)
    ensures Times(a + b, o) == Times(a, o) + Times(b, o)
  {
    if a == [] {
      assert a + b == b;
    } else {
      assert (a + b)[0] == a[0] && (a + b)[1..] == a[1..] + b;
      TimesAppend(a[1..], b, o);
    }
  }

  predicate NoAbort(script: Script) { forall i :: 0 <= i < |script| ==> !script[i].Abort? }

  function AlwaysOk(): Oracle { n => Ok }

  /** With nothing failing, what a script attempts is what gets written. */
  lemma {:induction false} AllAttemptsWritten(script: Script, st: GenState, o: Observation)
    requires NoAbort(script)
    ensures multiset(Execute(script, st, AlwaysOk()).0.written)[o] == multiset(st.written)[o] + Times(script, o)
  {
    if script != [] {
      var st' := DoStep(script[0], st, AlwaysOk()).0;
      AllAttemptsWritten(script[1..], st', o);
      assert multiset(st'.written)[o] == multiset(st.written)[o] + Times([script[0]], o);
    }
  }

  // ---------------------------------------------------------------- Plans depend on their own report's history

  /** Two histories agree on the series of a report. */
  ghost predicate Agree(h: History, h': History, key: ReportKey) {
    forall s: Series :: s.report == key ==> LastGenerated(h, s) == LastGenerated(h', s)
  }

  lemma {:induction false} AfterAgrees(h: History, h': History, script: Script, key: ReportKey)
    requires Agree(h, h', key)
    ensures Agree(After(h, script), After(h', script), key)
    decreases script
  {
    if script != [] {
      if script[0].Abort? {
        AfterAgrees(h, h', script[1..], key);
      } else {
        var (s, d) := (script[0].Target(), script[0].Day());
        AfterAgrees(h[s := d], h'[s := d], script[1..], key);
      }
    }
  }

  /** All steps of a script belong to one report. */
  predicate Within(script: Script, key: ReportKey) {
    forall i :: 0 <= i < |script| && !script[i].Abort? ==> script[i].Target().report == key
  }

  lemma {:induction false} OthersUntouched(h: History, script: Script, key: ReportKey, other: ReportKey)
    requires Within(script, key) && key != other
    ensures Agree(h, After(h, script), other)
    decreases script
  {
    if script != [] {
      var h' := if script[0].Abort? then h else h[script[0].Target() := script[0].Day()];
      OthersUntouched(h', script[1..], key, other);
    }
  }

  lemma {:induction false} UniqueDaysWithin(series: Series, active: map<nat, bool>, window: nat, day: nat, final: nat)
    ensures Within(UniqueDays(series, active, window, day, final), series.report)
    ensures NoAbort(UniqueDays(series, active, window, day, final))
    decreases final + 1 - day
  {
    if day <= final {
      UniqueDaysWithin(series, active, window, day + 1, final);
    }
  }

  lemma {:induction false} UniqueWindowsAgree(key: ReportKey, active: map<nat, bool>, code: nat, windows: seq<Window>,
                                              h: History, h': History, backfill: nat, final: nat)
    requires Agree(h, h', key)
    ensures UniqueWindows(key, active, code, windows, h, backfill, final) ==
            UniqueWindows(key, active, code, windows, h', backfill, final)
    ensures Within(UniqueWindows(key, active, code, windows, h, backfill, final), key)
    ensures NoAbort(UniqueWindows(key, active, code, windows, h, backfill, final))
    decreases windows
  {
    if windows == [] {
    } else if !UniqueWindow(windows[0]) {
      UniqueWindowsAgree(key, active, code, windows[1..], h, h', backfill, final);
    } else {
      var series := UniqueSeries(key, code, windows[0].days);
      var first := FirstDay(h, series, final, backfill);
      var head := UniqueDays(series, active, windows[0].days, first, final);
      UniqueDaysWithin(series, active, windows[0].days, first, final);
      AfterAgrees(h, h', head, key);
      UniqueWindowsAgree(key, active, code, windows[1..], After(h, head), After(h', head), backfill, final);
    }
  }

  lemma {:induction false} UniqueCodesAgree(key: ReportKey, report: Report, code: nat, h: History, h': History,
                                            backfill: nat, final: nat)
    requires Agree(h, h', key)
    ensures UniqueCodes(key, report, code, h, backfill, final) == UniqueCodes(key, report, code, h', backfill, final)
    ensures Within(UniqueCodes(key, report, code, h, backfill, final), key)
    ensures NoAbort(UniqueCodes(key, report, code, h, backfill, final))
    decreases report.config.numEventCodes - code
  {
    if code < report.config.numEventCodes {
      var active := ActivityOf(report.aggregates, code);
      UniqueWindowsAgree(key, active, code, report.config.windows, h, h', backfill, final);
      var head := UniqueWindows(key, active, code, report.config.windows, h, backfill, final);
      AfterAgrees(h, h', head, key);
      UniqueCodesAgree(key, report, code + 1, After(h, head), After(h', head), backfill, final);
    }
  }

  /** Two histories agree on the series of a cell. */
  ghost predicate AgreeOnCell(h: History, h': History, key: ReportKey, cell: Cell) {
    forall w: nat :: LastGenerated(h, CellSeries(key, cell, w)) == LastGenerated(h', CellSeries(key, cell, w))
  }

  lemma {:induction false} NeededAgrees(key: ReportKey, cell: Cell, windows: seq<Window>, h: History, h': History,
                                        backfill: nat, final: nat, day: nat)
    requires AgreeOnCell(h, h', key, cell)
    ensures Needed(key, cell, windows, h, backfill, final, day) == Needed(key, cell, windows, h', backfill, final, day)
    decreases windows
  {
    if windows != [] {
      NeededAgrees(key, cell, windows[1..], h, h', backfill, final, day);
    }
  }

  lemma {:induction false} CellDaysAgree(key: ReportKey, config: Config, cell: Cell, days: map<nat, int>, h: History,
                                         h': History, backfill: nat, day: nat, final: nat)
    requires AgreeOnCell(h, h', key, cell)
    ensures CellDays(key, config, cell, days, h, backfill, day, final) ==
            CellDays(key, config, cell, days, h', backfill, day, final)
    decreases final + 1 - day
  {
    if day <= final {
      NeededAgrees(key, cell, config.windows, h, h', backfill, final, day);
      CellDaysAgree(key, config, cell, days, h, h', backfill, day + 1, final);
    }
  }

  /** All steps of a script belong to one cell. */
  predicate OnCell(script: Script, key: ReportKey, cell: Cell) {
    forall i :: 0 <= i < |script| && !script[i].Abort? ==>
      script[i].Target() == CellSeries(key, cell, match script[i].Target() case NumericSeries(_, _, _, w) => w case _ => 0)
  }

  lemma {:induction false} CellDayOnCell(key: ReportKey, config: Config, cell: Cell, days: map<nat, int>, day: nat, needed: seq<nat>)
    ensures OnCell(CellDay(key, config, cell, days, day, needed), key, cell)
  {
    if needed != [] {
      CellDayOnCell(key, config, cell, days, day, needed[1..]);
    }
  }

  lemma {:induction false} CellDaysOnCell(key: ReportKey, config: Config, cell: Cell, days: map<nat, int>, h: History,
                                          backfill: nat, day: nat, final: nat)
    ensures OnCell(CellDays(key, config, cell, days, h, backfill, day, final), key, cell)
    decreases final + 1 - day
  {
    if day <= final {
      CellDayOnCell(key, config, cell, days, day, Needed(key, cell, config.windows, h, backfill, final, day));
      CellDaysOnCell(key, config, cell, days, h, backfill, day + 1, final);
    }
  }

  /** The two cells have different labels: they differ in the component or in the low 32 bits of the event code. */
  predicate DifferentLabels(c: Cell, c': Cell) {
    c.component != c'.component || c.code % UINT32_SIZE != c'.code % UINT32_SIZE
  }

  lemma {:induction false} OtherCellsUntouched(h: History, script: Script, key: ReportKey, cell: Cell, other: Cell)
    requires OnCell(script, key, cell) && DifferentLabels(cell, other)
    ensures AgreeOnCell(h, After(h, script), key, other)
    decreases script
  {
    if script != [] {
      var h' := if script[0].Abort? then h else h[script[0].Target() := script[0].Day()];
      OtherCellsUntouched(h', script[1..], key, cell, other);
    }
  }

  lemma {:induction false} NumericCellsAgree(key: ReportKey, report: Report, cells: seq<Cell>, h: History, h': History,
                                             backfill: nat, final: nat)
    requires Agree(h, h', key)
    ensures NumericCells(key, report, cells, h, backfill, final) == NumericCells(key, report, cells, h', backfill, final)
    ensures Within(NumericCells(key, report, cells, h, backfill, final), key)
    decreases cells
  {
    if cells != [] {
      var days := DaysOf(report.aggregates, cells[0]);
      CellDaysAgree(key, report.config, cells[0], days, h, h', backfill, Start(final, backfill), final);
      var head := CellDays(key, report.config, cells[0], days, h, backfill, Start(final, backfill), final);
      CellDaysOnCell(key, report.config, cells[0], days, h, backfill, Start(final, backfill), final);
      AfterAgrees(h, h', head, key);
      NumericCellsAgree(key, report, cells[1..], After(h, head), After(h', head), backfill, final);
    }
  }

  lemma {:induction false} ParticipationWithin(key: ReportKey, day: nat, final: nat)
    ensures Within(ParticipationDays(key, day, final), key) && NoAbort(ParticipationDays(key, day, final))
    decreases final + 1 - day
  {
    if day <= final {
      ParticipationWithin(key, day + 1, final);
    }
  }

  lemma ReportPlanAgrees(key: ReportKey, report: Report, cells: seq<Cell>, h: History, h': History, backfill: nat,
                         utc: nat, local: nat)
    requires Agree(h, h', key)
    ensures ReportPlan(key, report, cells, h, backfill, utc, local) == ReportPlan(key, report, cells, h', backfill, utc, local)
    ensures Within(ReportPlan(key, report, cells, h, backfill, utc, local), key)
  {
    var day := DayFor(report.config.zone, utc, local);
    if day.Some? {
      UniqueCodesAgree(key, report, 0, h, h', backfill, day.value);
      NumericCellsAgree(key, report, cells, h, h', backfill, day.value);
      var head := NumericCells(key, report, cells, h, backfill, day.value);
      AfterAgrees(h, h', head, key);
      ParticipationWithin(key, FirstDay(After(h, head), ParticipationSeries(key), day.value, backfill), day.value);
    }
  }

  predicate LabelsDiffer(cells: seq<Cell>) {
    forall i, j :: 0 <= i < j < |cells| ==> DifferentLabels(cells[i], cells[j])
  }

  /** No two entries of a report's numeric aggregates share a label. */
  ghost predicate DistinctLabels(a: Aggregates) {
    forall c: Cell, c': Cell :: HasCell(a, c) && HasCell(a, c') && c != c' ==> DifferentLabels(c, c')
  }

  // ---------------------------------------------------------------- Participation

  lemma ParticipationStart(key: ReportKey, report: Report, cells: seq<Cell>, h: History, backfill: nat, final: nat)
    ensures LastGenerated(After(h, NumericCells(key, report, cells, h, backfill, final)), ParticipationSeries(key)) ==
            LastGenerated(h, ParticipationSeries(key))
  {
    NoParticipationStep(key, report, cells, h, backfill, final);
    Unmoved(h, NumericCells(key, report, cells, h, backfill, final), ParticipationSeries(key));
  }

  predicate NumericOnly(script: Script) {
    forall i :: 0 <= i < |script| && !script[i].Abort? ==> script[i].Target().NumericSeries?
  }

  lemma {:induction false} NoParticipationStep(key: ReportKey, report: Report, cells: seq<Cell>, h: History, backfill: nat, final: nat)
    ensures NumericOnly(NumericCells(key, report, cells, h, backfill, final))
    decreases cells
  {
    if cells != [] {
      var days := DaysOf(report.aggregates, cells[0]);
      var head := CellDays(key, report.config, cells[0], days, h, backfill, Start(final, backfill), final);
      CellDaysOnCell(key, report.config, cells[0], days, h, backfill, Start(final, backfill), final);
      NoParticipationStep(key, report, cells[1..], After(h, head), backfill, final);
    }
  }

  lemma {:induction false} Unmoved(h: History, script: Script, s: Series)
    requires forall i :: 0 <= i < |script| && !script[i].Abort? ==> script[i].Target() != s
    ensures LastGenerated(After(h, script), s) == LastGenerated(h, s)
    decreases script
  {
    if script != [] {
      Unmoved(if script[0].Abort? then h else h[script[0].Target() := script[0].Day()], script[1..], s);
    }
  }

  // ---------------------------------------------------------------- Nothing aborts

  lemma {:induction false} CellDayNoAbort(key: ReportKey, config: Config, cell: Cell, days: map<nat, int>, day: nat, needed: seq<nat>)
    requires config.aggregation != UnknownType && PathOf(config) == NumericPath
    ensures NoAbort(CellDay(key, config, cell, days, day, needed))
  {
    if needed != [] {
      CellDayNoAbort(key, config, cell, days, day, needed[1..]);
    }
  }

  lemma {:induction false} CellDaysNoAbort(key: ReportKey, config: Config, cell: Cell, days: map<nat, int>, h: History,
                                           backfill: nat, day: nat, final: nat)
    requires config.aggregation != UnknownType && PathOf(config) == NumericPath
    ensures NoAbort(CellDays(key, config, cell, days, h, backfill, day, final))
    decreases final + 1 - day
  {
    if day <= final {
      CellDayNoAbort(key, config, cell, days, day, Needed(key, cell, config.windows, h, backfill, final, day));
      CellDaysNoAbort(key, config, cell, days, h, backfill, day + 1, final);
    }
  }

  lemma {:induction false} NumericCellsNoAbort(key: ReportKey, report: Report, cells: seq<Cell>, h: History, backfill: nat, final: nat)
    requires report.config.aggregation != UnknownType && PathOf(report.config) == NumericPath
    ensures NoAbort(NumericCells(key, report, cells, h, backfill, final))
    decreases cells
  {
    if cells != [] {
      var days := DaysOf(report.aggregates, cells[0]);
      var head := CellDays(key, report.config, cells[0], days, h, backfill, Start(final, backfill), final);
      CellDaysNoAbort(key, report.config, cells[0], days, h, backfill, Start(final, backfill), final);
      NumericCellsNoAbort(key, report, cells[1..], After(h, head), backfill, final);
    }
  }

  lemma ReportPlanNoAbort(key: ReportKey, report: Report, cells: seq<Cell>, h: History, backfill: nat, utc: nat, local: nat)
    requires PathOf(report.config) == NumericPath ==> report.config.aggregation != UnknownType
    ensures NoAbort(ReportPlan(key, report, cells, h, backfill, utc, local))
  {
    var day := DayFor(report.config.zone, utc, local);
    if day.Some? && !Skipped(report.config.windows, day.value) {
      match PathOf(report.config) {
        case NoPath =>
        case UniquePath => UniqueCodesAgree(key, report, 0, h, h, backfill, day.value);
        case NumericPath =>
          NumericCellsNoAbort(key, report, cells, h, backfill, day.value);
          var head := NumericCells(key, report, cells, h, backfill, day.value);
          ParticipationWithin(key, FirstDay(After(h, head), ParticipationSeries(key), day.value, backfill), day.value);
      }
    }
  }

  lemma {:induction false} PlanNoAbort(store: Store, reports: seq<ReportKey>, order: Order, h: History, backfill: nat, utc: nat, local: nat)
    requires forall k :: k in store && PathOf(store[k].config) == NumericPath ==> store[k].config.aggregation != UnknownType
    ensures NoAbort(Plan(store, reports, order, h, backfill, utc, local))
    decreases reports
  {
    if reports == [] {
    } else if reports[0] !in store {
      PlanNoAbort(store, reports[1..], order, h, backfill, utc, local);
    } else {
      var k := reports[0];
      var head := ReportPlan(k, store[k], CellsOf(order, k), h, backfill, utc, local);
      ReportPlanNoAbort(k, store[k], CellsOf(order, k), h, backfill, utc, local);
      PlanNoAbort(store, reports[1..], order, After(h, head), backfill, utc, local);
    }
  }
}
