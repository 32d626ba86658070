/** Short runs of the store in which it does not do what its users expect. All of them start from an empty store, and
    nothing fails in them. */
module AggregateWitnesses {
  import opened Common
  import opened AggregationWindows
  import opened AggregateModel
  import opened AggregateScripts
  import opened AggregateSeries
  import opened AggregateRuns
  import AggregateVisible
  import AggregateExact
  import AggregateLimits
  import PackedEventCodes

  const KEY: ReportKey := ReportKey(1, 1, 1, 1)

  /** A report of sums over the given windows. */
  function SumReport(windows: seq<Window>): Config { Config(Utc, NumericMetric, PerDeviceNumericStats, Sum, 0, windows) }

  /** The store that holds nothing but that report and one entry of it, or none. */
  function Stored(config: Config, code: nat, days: map<nat, int>): Store {
    map[KEY := Report(config, Numeric(if days == map[] then map[] else map["" := map[code := days]]))]
  }

  function Log(code: nat, day: nat, value: int): Op { LogNumeric(KEY, Cell("", code), day, value) }

  function GenerateOn(day: nat, cells: seq<Cell>): Op { Generate(Order([KEY], map[KEY := cells]), Call(day, 0)) }

  function Value(code: nat, day: nat, v: int): Observation {
    Observation(NumericSeries(KEY, "", code, 1), day, NumericValue(v))
  }

  function RunOf(ops: seq<Op>, backfill: nat): System { AggregateVisible.RunOf(ops, backfill, AlwaysOk()) }

  /** How often a run wrote an observation. */
  function Written(ops: seq<Op>, backfill: nat, o: Observation): nat { multiset(RunOf(ops, backfill).gen.written)[o] }

  lemma RunMore(ops: seq<Op>, op: Op, backfill: nat)
    ensures RunOf(ops + [op], backfill) == Apply(op, RunOf(ops, backfill), backfill, AlwaysOk())
  {
    assert (ops + [op])[..|ops|] == ops;
  }

  /** Registering the report and logging a first value for it. */
  lemma Started(config: Config, code: nat, day: nat, value: int, backfill: nat)
    requires config == SumReport(config.windows)
    ensures RunOf([] + [Insert(KEY, config)] + [Log(code, day, value)], backfill) ==
            Initial(Stored(config, code, map[day := value]), backfill)
  {
    var inserted := [] + [Insert(KEY, config)];
    RunMore([], Insert(KEY, config), backfill);
    RunMore(inserted, Log(code, day, value), backfill);
  }

  /** Logging a first value for a day. */
  lemma LogUpdates(config: Config, m: map<string, map<nat, map<nat, int>>>, code: nat, day: nat, value: int)
    requires day !in Inner(Inner(m, ""), code)
    ensures var byCode := Inner(m, "");
            UpdateNumeric(map[KEY := Report(config, Numeric(m))], KEY, Cell("", code), day, value).0 ==
            map[KEY := Report(config, Numeric(m["" := byCode[code := Inner(byCode, code)[day := value]]]))]
  {
  }

  lemma LogAgain(config: Config, code: nat, days: map<nat, int>, day: nat, value: int)
    requires day !in days
    ensures UpdateNumeric(Stored(config, code, days), KEY, Cell("", code), day, value).0 == Stored(config, code, days[day := value])
  {
    var m := if days == map[] then map[] else map["" := map[code := days]];
    LogUpdates(config, m, code, day, value);
    assert day in days[day := value];
    assert Inner(m, "")[code := days[day := value]] == map[code := days[day := value]];
    assert m["" := map[code := days[day := value]]] == map["" := map[code := days[day := value]]];
  }

  lemma Enumerated(config: Config, code: nat, days: map<nat, int>, cells: seq<Cell>)
    requires cells == if days == map[] then [] else [Cell("", code)]
    ensures Enumerates(Order([KEY], map[KEY := cells]), Stored(config, code, days))
    ensures DistinctLabels(Stored(config, code, days)[KEY].aggregates)
  {
    var a := Stored(config, code, days)[KEY].aggregates;
    forall c: Cell ensures c in cells <==> HasCell(a, c) {
    }
    assert EnumeratesCells(cells, a);
  }

  lemma CallWrites(sys: System, order: Order, call: Call, backfill: nat, o: Observation)
    requires forall k :: k in sys.store && PathOf(sys.store[k].config) == NumericPath ==> sys.store[k].config.aggregation != UnknownType
    ensures var plan := Plan(sys.store, order.reports, order, sys.gen.history, backfill, call.utc, call.Local());
            var sys' := Apply(Generate(order, call), sys, backfill, AlwaysOk());
            && sys'.store == sys.store && sys'.gen.history == After(sys.gen.history, plan)
            && multiset(sys'.gen.written)[o] == multiset(sys.gen.written)[o] + Times(plan, o)
  {
    var plan := Plan(sys.store, order.reports, order, sys.gen.history, backfill, call.utc, call.Local());
    PlanNoAbort(sys.store, order.reports, order, sys.gen.history, backfill, call.utc, call.Local());
    AggregateExact.NothingFails(plan, sys.gen);
    CompletedHistory(plan, sys.gen, AlwaysOk());
    AllAttemptsWritten(plan, sys.gen, o);
  }

  lemma FoldOfDay(days: map<nat, int>, day: nat)
    ensures WindowFold(Sum, days, day, 1) == Lookup(days, day)
  {
    assert WindowFold(Sum, days, day, 0) == None;
  }

  lemma EntryAttempts(report: Report, code: nat, days: map<nat, int>, o: Observation)
    requires report == Stored(SumReport(report.config.windows), code, days)[KEY] && days != map[]
    requires code < UINT32_SIZE && o.series == NumericSeries(KEY, "", code, 1)
    ensures HasEntry(report.aggregates, o.series)
    ensures Attempted(report, o) <==> o.day in days && o.payload == NumericValue(days[o.day])
  {
    var cell := Cell("", code);
    assert HasCell(report.aggregates, cell) && o.series == CellSeries(KEY, cell, 1);
    FoldOfDay(days, o.day);
    AggregateVisible.StepTells(KEY, report.config, cell, days, 1, o);
    assert Attempted(report, o) <==> AttemptedFor(report, o, cell);
  }

  /** A call while the entry is stored: its history moves to the day of the call. */
  lemma CallWithEntry(sys: System, config: Config, code: nat, days: map<nat, int>, day: nat, backfill: nat, o: Observation)
    requires config == SumReport(config.windows) && Days(1) in config.windows && !Skipped(config.windows, day)
    requires sys.store == Stored(config, code, days) && days != map[] && code < UINT32_SIZE && o.series == NumericSeries(KEY, "", code, 1)
    ensures var sys' := Apply(GenerateOn(day, [Cell("", code)]), sys, backfill, AlwaysOk());
            && sys'.store == sys.store
            && (LastGenerated(sys.gen.history, o.series) <= day ==> LastGenerated(sys'.gen.history, o.series) == day)
            && multiset(sys'.gen.written)[o] == multiset(sys.gen.written)[o] +
               if FirstDay(sys.gen.history, o.series, day, backfill) <= o.day <= day && o.day in days && o.payload == NumericValue(days[o.day])
               then multiset(config.windows)[Days(1)] else 0
  {
    var order := Order([KEY], map[KEY := [Cell("", code)]]);
    Enumerated(config, code, days, [Cell("", code)]);
    EntryAttempts(sys.store[KEY], code, days, o);
    CallWrites(sys, order, Call(day, 0), backfill, o);
    BusyCall(sys.store, order, sys.gen.history, backfill, day, day, o.series, day);
  }

  /** A call while there is no entry: nothing moves. */
  lemma CallWithoutEntry(sys: System, config: Config, code: nat, day: nat, backfill: nat, o: Observation)
    requires config == SumReport(config.windows) && sys.store == Stored(config, code, map[]) && o.series == NumericSeries(KEY, "", code, 1)
    ensures var sys' := Apply(GenerateOn(day, []), sys, backfill, AlwaysOk());
            && sys'.store == sys.store && LastGenerated(sys'.gen.history, o.series) == LastGenerated(sys.gen.history, o.series)
            && multiset(sys'.gen.written)[o] == multiset(sys.gen.written)[o]
  {
    var order := Order([KEY], map[KEY := []]);
    Enumerated(config, code, map[], []);
    CallWrites(sys, order, Call(day, 0), backfill, o);
    IdleCall(sys.store, order, sys.gen.history, backfill, day, day, o.series);
    var plan := Plan(sys.store, order.reports, order, sys.gen.history, backfill, day, day);
    OnlyTimes(plan, o);
    OnlyEnd(plan, sys.gen.history, o.series);
  }

  /** A report that lists the window of one day twice: the value logged for a day is written twice. */
  lemma RepeatedWindow()
    ensures var ops := [] + [Insert(KEY, SumReport([Days(1), Days(1)]))] + [Log(7, 1000, 5)] + [GenerateOn(1000, [Cell("", 7)])];
            Written(ops, 0, Value(7, 1000, 5)) == 2
  {
    var config := SumReport([Days(1), Days(1)]);
    var logged := [] + [Insert(KEY, config)] + [Log(7, 1000, 5)];
    Started(config, 7, 1000, 5, 0);
    RunMore(logged, GenerateOn(1000, [Cell("", 7)]), 0);
    CallWithEntry(RunOf(logged, 0), config, 7, map[1000 := 5], 1000, 0, Value(7, 1000, 5));
  }

  // ---------------------------------------------------------------- A late event

  /** A value is logged long ago, then a call is made for day 1000, then a value comes in late for that day, and a call
      is made for day 1001 with one backfill day. `first` is what precedes the first call. */
  function LateRun(first: seq<Op>, cells: seq<Cell>): seq<Op> {
    first + [GenerateOn(1000, cells)] + [Log(7, 1000, 9)] + [GenerateOn(1001, [Cell("", 7)])]
  }

  lemma LateRuns(first: seq<Op>, cells: seq<Cell>)
    ensures var called := RunOf(first + [GenerateOn(1000, cells)], 1);
            RunOf(LateRun(first, cells), 1) ==
            Apply(GenerateOn(1001, [Cell("", 7)]), Apply(Log(7, 1000, 9), called, 1, AlwaysOk()), 1, AlwaysOk())
  {
    var called := first + [GenerateOn(1000, cells)];
    RunMore(called, Log(7, 1000, 9), 1);
    RunMore(called + [Log(7, 1000, 9)], GenerateOn(1001, [Cell("", 7)]), 1);
  }

  /** The rest of the run, from the first call on. */
  lemma LateCall(sys: System, config: Config, days: map<nat, int>)
    requires config == SumReport([Days(1)]) && sys.store == Stored(config, 7, days) && 1000 !in days
    ensures var logged := Apply(Log(7, 1000, 9), sys, 1, AlwaysOk());
            var sys' := Apply(GenerateOn(1001, [Cell("", 7)]), logged, 1, AlwaysOk());
            var o := Value(7, 1000, 9);
            multiset(sys'.gen.written)[o] == multiset(sys.gen.written)[o] + if LastGenerated(sys.gen.history, o.series) < 1000 then 1 else 0
  {
    var logged := Apply(Log(7, 1000, 9), sys, 1, AlwaysOk());
    LogAgain(config, 7, days, 1000, 9);
    assert 1000 in days[1000 := 9];
    CallWithEntry(logged, config, 7, days[1000 := 9], 1001, 1, Value(7, 1000, 9));
  }

  lemma CollectsAll(config: Config)
    requires config == SumReport([Days(1)])
    ensures Collect(Stored(config, 7, map[900 := 5]), 1, 1000, 1000) == Stored(config, 7, map[])
  {
    assert DropOld(map[900 := 5], 998) == map[];
    assert CollectCodes(map[7 := map[900 := 5]], 998) == map[];
    assert CollectComponents(map["" := map[7 := map[900 := 5]]], 998) == map[];
  }

  lemma LateWithoutGc(logged: seq<Op>)
    requires RunOf(logged, 1) == Initial(Stored(SumReport([Days(1)]), 7, map[900 := 5]), 1)
    ensures Written(LateRun(logged, [Cell("", 7)]), 1, Value(7, 1000, 9)) == 0
  {
    var config, o := SumReport([Days(1)]), Value(7, 1000, 9);
    RunMore(logged, GenerateOn(1000, [Cell("", 7)]), 1);
    var days: map<nat, int> := map[900 := 5];
    assert 900 in days;
    CallWithEntry(RunOf(logged, 1), config, 7, days, 1000, 1, o);
    LateRuns(logged, [Cell("", 7)]);
    LateCall(RunOf(logged + [GenerateOn(1000, [Cell("", 7)])], 1), config, days);
  }

  lemma LateWithGc(collected: seq<Op>)
    requires RunOf(collected, 1) == Initial(Stored(SumReport([Days(1)]), 7, map[]), 1)
    ensures Written(LateRun(collected, []), 1, Value(7, 1000, 9)) == 1
  {
    var config, o := SumReport([Days(1)]), Value(7, 1000, 9);
    RunMore(collected, GenerateOn(1000, []), 1);
    CallWithoutEntry(RunOf(collected, 1), config, 7, 1000, 1, o);
    LateRuns(collected, []);
    LateCall(RunOf(collected + [GenerateOn(1000, [])], 1), config, map[]);
  }

  /** A late event tells a collected entry from one that was not: without garbage collection the first call moves the
      history of the old entry to day 1000, and the late value is never written; with it there is no entry to move. */
  lemma LateEventRevealsGc()
    ensures var logged := [] + [Insert(KEY, SumReport([Days(1)]))] + [Log(7, 900, 5)];
            && Written(LateRun(logged, [Cell("", 7)]), 1, Value(7, 1000, 9)) == 0
            && Written(LateRun(logged + [GarbageCollect(Call(1000, 0))], []), 1, Value(7, 1000, 9)) == 1
  {
    var config := SumReport([Days(1)]);
    var logged := [] + [Insert(KEY, config)] + [Log(7, 900, 5)];
    Started(config, 7, 900, 5, 1);
    LateWithoutGc(logged);
    RunMore(logged, GarbageCollect(Call(1000, 0)), 1);
    CollectsAll(config);
    LateWithGc(logged + [GarbageCollect(Call(1000, 0))]);
  }

  // ---------------------------------------------------------------- Equal low halves

  lemma WordOf7And4()
    ensures PackedEventCodes.Pack([7]) == 7 && PackedEventCodes.Pack([7, 0, 0, 4]) == 0x1_0000_0007
  {
    PackedEventCodes.FieldsOfFive([7]);
    PackedEventCodes.FieldsOfFive([7, 0, 0, 4]);
    assert !PackedEventCodes.NeedsV1([7]) && !PackedEventCodes.NeedsV1([7, 0, 0, 4]);
  }

  lemma SecondEntry(config: Config)
    ensures UpdateNumeric(Stored(config, 7, map[1000 := 5]), KEY, Cell("", 0x1_0000_0007), 1000, 6).0 ==
            map[KEY := Report(config, Numeric(map["" := map[7 := map[1000 := 5], 0x1_0000_0007 := map[1000 := 6]]]))]
  {
    var days, byCode := map[1000 := 5], map[7 := map[1000 := 5]];
    assert 1000 in days;
    LogUpdates(config, map["" := byCode], 0x1_0000_0007, 1000, 6);
    assert map[][1000 := 6] == map[1000 := 6];
    assert byCode[0x1_0000_0007 := map[1000 := 6]] == map[7 := map[1000 := 5], 0x1_0000_0007 := map[1000 := 6]];
    assert map["" := byCode]["" := byCode[0x1_0000_0007 := map[1000 := 6]]] == map["" := byCode[0x1_0000_0007 := map[1000 := 6]]];
  }

  /** What a report with two such entries attempts. */
  lemma ShadowedPlan(report: Report, c: Cell, c': Cell, h: History, day: nat, o: Observation)
    requires report.config == SumReport([Days(1)]) && !DifferentLabels(c, c')
    requires o.series == CellSeries(KEY, c, 1) && o.day == day && LastGenerated(h, o.series) < day
    ensures var days := DaysOf(report.aggregates, c);
            Times(NumericPlan(KEY, report, [c, c'], h, 0, day), o) == if day in days && o.payload == NumericValue(days[day]) then 1 else 0
  {
    var s, days, days' := o.series, DaysOf(report.aggregates, c), DaysOf(report.aggregates, c');
    var head := CellDays(KEY, report.config, c, days, h, 0, day, day);
    AggregateLimits.ShadowedCell(KEY, report, [c, c'], h, 0, day, 0, 1);
    assert AggregateLimits.Without([c, c'], 1) == [c] && [c][1..] == [];
    assert NumericCells(KEY, report, [c], h, 0, day) == head;
    NumericPlanOnly(KEY, report, [c, c'], h, 0, day, s);
    OnlyTimes(NumericPlan(KEY, report, [c, c'], h, 0, day), o);
    CellDaysOnly(KEY, report.config, c, days, h, 0, day, day, 1, 1, day);
    SeriesDaysTimes(KEY, report.config, c, days, 1, 1, day, day, o);
    FoldOfDay(days, day);
    AggregateVisible.StepTells(KEY, report.config, c, days, 1, o);
  }

  lemma OneReport(report: Report, cells: seq<Cell>, h: History, backfill: nat, day: nat)
    requires report.config == SumReport(report.config.windows) && !Skipped(report.config.windows, day)
    ensures Plan(map[KEY := report], [KEY], Order([KEY], map[KEY := cells]), h, backfill, day, day) ==
            NumericPlan(KEY, report, cells, h, backfill, day)
  {
  }

  lemma ShadowedCall(report: Report, c: Cell, c': Cell, day: nat, o: Observation)
    requires report.config == SumReport([Days(1)]) && !DifferentLabels(c, c')
    requires o.series == CellSeries(KEY, c, 1) && o.day == day && 0 < day
    ensures var days := DaysOf(report.aggregates, c);
            multiset(Apply(GenerateOn(day, [c, c']), Initial(map[KEY := report], 0), 0, AlwaysOk()).gen.written)[o] ==
            if day in days && o.payload == NumericValue(days[day]) then 1 else 0
  {
    CallWrites(Initial(map[KEY := report], 0), Order([KEY], map[KEY := [c, c']]), Call(day, 0), 0, o);
    OneReport(report, [c, c'], map[], 0, day);
    ShadowedPlan(report, c, c', map[], day, o);
  }

  /** Event codes [7] and [7, 0, 0, 4] pack to words with the same low half: of the values logged for the two, only the
      one that is visited first is ever written. */
  lemma EqualLowHalves()
    ensures PackedEventCodes.Pack([7]) == 7 && PackedEventCodes.Pack([7, 0, 0, 4]) == 0x1_0000_0007
    ensures var logged := [] + [Insert(KEY, SumReport([Days(1)]))] + [Log(7, 1000, 5)] + [Log(0x1_0000_0007, 1000, 6)];
            var ops := logged + [GenerateOn(1000, [Cell("", 7), Cell("", 0x1_0000_0007)])];
            Written(ops, 0, Value(7, 1000, 5)) == 1 && Written(ops, 0, Value(7, 1000, 6)) == 0
  {
    WordOf7And4();
    var config, cells := SumReport([Days(1)]), [Cell("", 7), Cell("", 0x1_0000_0007)];
    var first := [] + [Insert(KEY, config)] + [Log(7, 1000, 5)];
    Started(config, 7, 1000, 5, 0);
    RunMore(first, Log(0x1_0000_0007, 1000, 6), 0);
    var logged := first + [Log(0x1_0000_0007, 1000, 6)];
    var report := Report(config, Numeric(map["" := map[7 := map[1000 := 5], 0x1_0000_0007 := map[1000 := 6]]]));
    SecondEntry(config);
    var sys := Initial(map[KEY := report], 0);
    RunMore(logged, GenerateOn(1000, cells), 0);
    ShadowedCall(report, Cell("", 7), Cell("", 0x1_0000_0007), 1000, Value(7, 1000, 5));
    ShadowedCall(report, Cell("", 7), Cell("", 0x1_0000_0007), 1000, Value(7, 1000, 6));
    assert DaysOf(report.aggregates, Cell("", 7)) == map[1000 := 5];
  }
}
