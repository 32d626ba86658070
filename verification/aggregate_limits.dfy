/** Where the store's promises stop: the conditions of the other theorems cannot be dropped. */
module AggregateLimits {
  import opened AggregationWindows
  import opened AggregateModel
  import opened AggregateOnce
  import opened AggregateRuns
  import opened AggregateScripts

  // ---------------------------------------------------------------- Event codes with equal low 32 bits

  lemma {:induction false} CellDaySets(key: ReportKey, config: Config, cell: Cell, days: map<nat, int>, day: nat,
                                        needed: seq<nat>, history: History, w: nat)
    requires PathOf(config) == NumericPath && config.aggregation != UnknownType
    ensures LastGenerated(After(history, CellDay(key, config, cell, days, day, needed)), CellSeries(key, cell, w)) ==
            if w in needed then day else LastGenerated(history, CellSeries(key, cell, w))
    decreases needed
  {
    if needed != [] {
      var step := CellStep(key, config, cell, days, day, needed[0]);
      var script := CellDay(key, config, cell, days, day, needed);
      assert script[0] == step && script[1..] == CellDay(key, config, cell, days, day, needed[1..]);
      CellDaySets(key, config, cell, days, day, needed[1..], history[step.Target() := step.Day()], w);
    }
  }

  /** After one cell was generated, its history has reached the final day for every daily window. */
  lemma {:induction false} CellReaches(key: ReportKey, config: Config, cell: Cell, days: map<nat, int>, h0: History,
                                       backfill: nat, day: nat, final: nat, history: History, w: nat)
    requires PathOf(config) == NumericPath && config.aggregation != UnknownType && Days(w) in config.windows && day <= final
    requires final < FirstDay(h0, CellSeries(key, cell, w), final, backfill) ==>
               final <= LastGenerated(history, CellSeries(key, cell, w))
    ensures final <= LastGenerated(After(history, CellDays(key, config, cell, days, h0, backfill, day, final)), CellSeries(key, cell, w))
    decreases final + 1 - day
  {
    var needed := Needed(key, cell, config.windows, h0, backfill, final, day);
    var head := CellDay(key, config, cell, days, day, needed);
    var tail := CellDays(key, config, cell, days, h0, backfill, day + 1, final);
    NeededMeaning(key, cell, config.windows, h0, backfill, final, day);
    CellDaySets(key, config, cell, days, day, needed, history, w);
    AfterAppend(head, tail, history);
    if day < final {
      CellReaches(key, config, cell, days, h0, backfill, day + 1, final, After(history, head), w);
    }
  }

  lemma {:induction false} NothingNeeded(key: ReportKey, cell: Cell, windows: seq<Window>, history: History, backfill: nat,
                                         final: nat, day: nat)
    requires day <= final
    requires forall w :: Days(w) in windows ==> final <= LastGenerated(history, CellSeries(key, cell, w))
    ensures Needed(key, cell, windows, history, backfill, final, day) == []
  {
    if windows != [] {
      assert windows == [windows[0]] + windows[1..];
      NothingNeeded(key, cell, windows[1..], history, backfill, final, day);
    }
  }

  lemma {:induction false} NothingEmitted(key: ReportKey, config: Config, cell: Cell, days: map<nat, int>, history: History,
                                          backfill: nat, day: nat, final: nat)
    requires forall w :: Days(w) in config.windows ==> final <= LastGenerated(history, CellSeries(key, cell, w))
    ensures CellDays(key, config, cell, days, history, backfill, day, final) == []
    decreases final + 1 - day
  {
    if day <= final {
      NothingNeeded(key, cell, config.windows, history, backfill, final, day);
      NothingEmitted(key, config, cell, days, history, backfill, day + 1, final);
    }
  }

  /** Two entries whose labels differ are generated independently of each other. */
  lemma IndependentCells(key: ReportKey, config: Config, c: Cell, days: map<nat, int>, c': Cell, days': map<nat, int>,
                         history: History, backfill: nat, final: nat)
    requires DifferentLabels(c, c')
    ensures var head := CellDays(key, config, c, days, history, backfill, Start(final, backfill), final);
            CellDays(key, config, c', days', After(history, head), backfill, Start(final, backfill), final) ==
            CellDays(key, config, c', days', history, backfill, Start(final, backfill), final)
  {
    var head := CellDays(key, config, c, days, history, backfill, Start(final, backfill), final);
    CellDaysOnCell(key, config, c, days, history, backfill, Start(final, backfill), final);
    OtherCellsUntouched(history, head, key, c, c');
    CellDaysAgree(key, config, c', days', history, After(history, head), backfill, Start(final, backfill), final);
  }

  // ---------------------------------------------------------------- Unknown aggregation types

  /** A numeric event for a report whose aggregation type is not a known one: the first one for a day is stored as it is, and
      every other one is refused and changes nothing. */
  lemma UnknownTypeRefused(store: Store, key: ReportKey, cell: Cell, day: nat, value: int)
    requires key in store && store[key].aggregates.Numeric? && store[key].config.aggregation == UnknownType
    ensures var days, (store', status) := DaysOf(store[key].aggregates, cell), UpdateNumeric(store, key, cell, day, value);
            if day in days then status == InvalidArguments && store' == store
            else status == Ok && key in store' && DaysOf(store'[key].aggregates, cell) == days[day := value]
  {
  }

  /** And its observations end the call: when a window of such a report is due, the call returns kInvalidArguments without
      another attempt. */
  lemma UnknownTypeAborts(key: ReportKey, config: Config, cell: Cell, days: map<nat, int>, day: nat, needed: seq<nat>, st: GenState, oracle: Oracle)
    requires config.aggregation == UnknownType && needed != [] && 0 < needed[0]
    ensures Execute(CellDay(key, config, cell, days, day, needed), st, oracle) == (st, InvalidArguments)
  {
  }

  // ---------------------------------------------------------------- Whole calls

  /** All daily windows of an entry have reached the final day. */
  ghost predicate UsedUp(key: ReportKey, config: Config, c: Cell, history: History, final: nat) {
    forall w :: Days(w) in config.windows ==> final <= LastGenerated(history, CellSeries(key, c, w))
  }

  /** Generating an entry uses up every entry with the same label. */
  lemma CellUsesUp(key: ReportKey, config: Config, c: Cell, days: map<nat, int>, c': Cell, history: History, backfill: nat, final: nat)
    requires PathOf(config) == NumericPath && config.aggregation != UnknownType && !DifferentLabels(c, c')
    ensures UsedUp(key, config, c', After(history, CellDays(key, config, c, days, history, backfill, Start(final, backfill), final)), final)
  {
    var head := CellDays(key, config, c, days, history, backfill, Start(final, backfill), final);
    forall w | Days(w) in config.windows ensures final <= LastGenerated(After(history, head), CellSeries(key, c', w)) {
      CellReaches(key, config, c, days, history, backfill, Start(final, backfill), final, history, w);
      assert CellSeries(key, c, w) == CellSeries(key, c', w);
    }
  }

  /** And no other entry brings it back. */
  lemma StaysUsedUp(key: ReportKey, config: Config, c: Cell, days: map<nat, int>, c': Cell, history: History, backfill: nat, final: nat)
    requires PathOf(config) == NumericPath && config.aggregation != UnknownType && UsedUp(key, config, c', history, final)
    ensures UsedUp(key, config, c', After(history, CellDays(key, config, c, days, history, backfill, Start(final, backfill), final)), final)
  {
    var head := CellDays(key, config, c, days, history, backfill, Start(final, backfill), final);
    if DifferentLabels(c, c') {
      CellDaysOnCell(key, config, c, days, history, backfill, Start(final, backfill), final);
      OtherCellsUntouched(history, head, key, c, c');
    } else {
      CellUsesUp(key, config, c, days, c', history, backfill, final);
    }
  }

  function Without(cells: seq<Cell>, j: nat): seq<Cell>
    requires j < |cells|
  {
    cells[..j] + cells[j + 1..]
  }

  lemma WithoutLater(key: ReportKey, report: Report, cells: seq<Cell>, history: History, backfill: nat, final: nat, j: nat)
    requires 0 < j < |cells|
    requires var head := CellDays(key, report.config, cells[0], DaysOf(report.aggregates, cells[0]), history, backfill, Start(final, backfill), final);
             NumericCells(key, report, cells[1..], After(history, head), backfill, final) ==
             NumericCells(key, report, Without(cells[1..], j - 1), After(history, head), backfill, final)
    ensures NumericCells(key, report, cells, history, backfill, final) == NumericCells(key, report, Without(cells, j), history, backfill, final)
  {
    assert Without(cells, j)[0] == cells[0] && Without(cells, j)[1..] == Without(cells[1..], j - 1);
  }

  /** An entry that is used up makes no difference, wherever it is visited. */
  lemma {:induction false} UsedUpSkipped(key: ReportKey, report: Report, cells: seq<Cell>, history: History, backfill: nat, final: nat, j: nat)
    requires PathOf(report.config) == NumericPath && report.config.aggregation != UnknownType
    requires j < |cells| && UsedUp(key, report.config, cells[j], history, final)
    ensures NumericCells(key, report, cells, history, backfill, final) == NumericCells(key, report, Without(cells, j), history, backfill, final)
    decreases cells
  {
    var days := DaysOf(report.aggregates, cells[0]);
    var head := CellDays(key, report.config, cells[0], days, history, backfill, Start(final, backfill), final);
    if j == 0 {
      NothingEmitted(key, report.config, cells[0], days, history, backfill, Start(final, backfill), final);
      assert Without(cells, 0) == cells[1..];
    } else {
      StaysUsedUp(key, report.config, cells[0], days, cells[j], history, backfill, final);
      UsedUpSkipped(key, report, cells[1..], After(history, head), backfill, final, j - 1);
      WithoutLater(key, report, cells, history, backfill, final, j);
    }
  }

  /** Of two entries of one component whose packed event codes agree in their low 32 bits, the one that is visited later
      gets no observation at all, whatever was logged for it and whatever is visited in between: the script of the report
      is the same without it. */
  lemma {:induction false} ShadowedCell(key: ReportKey, report: Report, cells: seq<Cell>, history: History, backfill: nat, final: nat,
                                        i: nat, j: nat)
    requires PathOf(report.config) == NumericPath && report.config.aggregation != UnknownType
    requires i < j < |cells| && !DifferentLabels(cells[i], cells[j])
    ensures NumericCells(key, report, cells, history, backfill, final) == NumericCells(key, report, Without(cells, j), history, backfill, final)
    decreases cells
  {
    var days := DaysOf(report.aggregates, cells[0]);
    var head := CellDays(key, report.config, cells[0], days, history, backfill, Start(final, backfill), final);
    if i == 0 {
      CellUsesUp(key, report.config, cells[0], days, cells[j], history, backfill, final);
      UsedUpSkipped(key, report, cells[1..], After(history, head), backfill, final, j - 1);
    } else {
      ShadowedCell(key, report, cells[1..], After(history, head), backfill, final, i - 1, j - 1);
    }
    WithoutLater(key, report, cells, history, backfill, final, j);
  }

  /** The order of a call without one entry of a report. */
  function Omit(order: Order, key: ReportKey, j: nat): Order
    requires j < |CellsOf(order, key)|
  {
    order.(cells := order.cells[key := Without(CellsOf(order, key), j)])
  }

  lemma {:induction false} ShadowedPlan(store: Store, reports: seq<ReportKey>, order: Order, history: History, backfill: nat,
                                        utc: nat, local: nat, key: ReportKey, i: nat, j: nat)
    requires key in store && PathOf(store[key].config) == NumericPath && store[key].config.aggregation != UnknownType
    requires i < j < |CellsOf(order, key)| && !DifferentLabels(CellsOf(order, key)[i], CellsOf(order, key)[j])
    ensures Plan(store, reports, order, history, backfill, utc, local) == Plan(store, reports, Omit(order, key, j), history, backfill, utc, local)
    decreases reports
  {
    if reports == [] {
    } else if reports[0] !in store {
      ShadowedPlan(store, reports[1..], order, history, backfill, utc, local, key, i, j);
    } else {
      var first := reports[0];
      var head := ReportPlan(first, store[first], CellsOf(order, first), history, backfill, utc, local);
      var day := DayFor(store[first].config.zone, utc, local);
      if first == key && day.Some? {
        ShadowedCell(key, store[key], CellsOf(order, key), history, backfill, day.value, i, j);
      }
      assert head == ReportPlan(first, store[first], CellsOf(Omit(order, key, j), first), history, backfill, utc, local);
      ShadowedPlan(store, reports[1..], order, After(history, head), backfill, utc, local, key, i, j);
    }
  }

  /** The same for a whole call, from any state and under any failures: it writes and records exactly what it would if the
      later entry were not there. */
  lemma ShadowedEntry(sys: System, order: Order, call: Call, backfill: nat, oracle: Oracle, key: ReportKey, i: nat, j: nat)
    requires key in sys.store && PathOf(sys.store[key].config) == NumericPath && sys.store[key].config.aggregation != UnknownType
    requires i < j < |CellsOf(order, key)| && !DifferentLabels(CellsOf(order, key)[i], CellsOf(order, key)[j])
    ensures GenerateWith(sys, order, call, backfill, oracle) == GenerateWith(sys, Omit(order, key, j), call, backfill, oracle)
  {
    ShadowedPlan(sys.store, order.reports, order, sys.gen.history, backfill, call.utc, call.Local(), key, i, j);
  }
}
