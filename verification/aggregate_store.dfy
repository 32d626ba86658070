/** The aggregate store in its own form: an object whose maps are updated in place, with the loops of
    aggregate_store.cc. Every method is proved against the values and scripts of AggregateModel. */
module AggregateStoreClass {
  import opened Common
  import opened AggregationWindows
  import opened AggregateModel
  import opened AggregateRuns

  // ---------------------------------------------------------------- Erasing while iterating

  /** The innermost loop of garbage collection. */
  method EraseOldDays<V>(days: map<nat, V>, cutoff: nat) returns (kept: map<nat, V>)
    ensures kept == DropOld(days, cutoff)
  {
    kept := days;
    var todo := days.Keys;
    while todo != {}
      invariant todo <= days.Keys
      invariant forall d :: d in kept <==> d in days && (d in todo || cutoff < d)
      invariant forall d :: d in kept ==> kept[d] == days[d]
    {
      var d :| d in todo;
      if d <= cutoff {
        kept := kept - {d};
      }
      todo := todo - {d};
    }
  }

  /** GarbageCollectUniqueActivesReportAggregates, and the event-code loop of its numeric counterpart. */
  method EraseOldCodes<V(==)>(byCode: map<nat, map<nat, V>>, cutoff: nat) returns (kept: map<nat, map<nat, V>>)
    ensures kept == CollectCodes(byCode, cutoff)
  {
    kept := byCode;
    var todo := byCode.Keys;
    while todo != {}
      invariant todo <= byCode.Keys
      invariant forall c :: c in kept <==> c in byCode && (c in todo || DropOld(byCode[c], cutoff) != map[])
      invariant forall c :: c in kept ==> kept[c] == if c in todo then byCode[c] else DropOld(byCode[c], cutoff)
    {
      var c :| c in todo;
      var days := EraseOldDays(kept[c], cutoff);
      if days == map[] {
        kept := kept - {c};
      } else {
        kept := kept[c := days];
      }
      todo := todo - {c};
    }
  }

  /** GarbageCollectNumericReportAggregates. */
  method EraseOldComponents(byComponent: map<string, map<nat, map<nat, int>>>, cutoff: nat)
    returns (kept: map<string, map<nat, map<nat, int>>>)
    ensures kept == CollectComponents(byComponent, cutoff)
  {
    kept := byComponent;
    var todo := byComponent.Keys;
    while todo != {}
      invariant todo <= byComponent.Keys
      invariant forall c :: c in kept <==> c in byComponent && (c in todo || CollectCodes(byComponent[c], cutoff) != map[])
      invariant forall c :: c in kept ==> kept[c] == if c in todo then byComponent[c] else CollectCodes(byComponent[c], cutoff)
    {
      var c :| c in todo;
      var codes := EraseOldCodes(kept[c], cutoff);
      if codes == map[] {
        kept := kept - {c};
      } else {
        kept := kept[c := codes];
      }
      todo := todo - {c};
    }
  }

  // ---------------------------------------------------------------- Searching a window

  /** FirstActiveDayIndexInWindow: the first active day of the window, or 0. The subtraction cannot wrap. */
  method FirstActiveDayIndexInWindow(active: map<nat, bool>, day: nat, window: nat) returns (found: nat)
    requires window <= day
    ensures found == 0 ==> !WasActive(active, day, window)
    ensures found != 0 ==> InWindow(found, day, window) && found in active && active[found]
    ensures found != 0 ==> forall d :: d in active && active[d] && InWindow(d, day, window) ==> found <= d
  {
    var d := day - window + 1;
    while d <= day
      invariant day - window + 1 <= d <= day + 1
      invariant forall e :: e in active && active[e] && InWindow(e, day, window) ==> d <= e
    {
      if d in active && active[d] {
        return d;
      }
      d := d + 1;
    }
    found := 0;
  }

  /** IsActivityInWindow; day 0 lies in no window. */
  predicate IsActivityInWindow(activeDay: nat, day: nat, window: nat)
    requires window <= day
  {
    activeDay <= day && day - window < activeDay
  }

  // ---------------------------------------------------------------- Windows by day

  lemma {:induction false} NeededAppend(key: ReportKey, cell: Cell, ws: seq<Window>, w: Window, history: History,
                                        backfill: nat, final: nat, day: nat)
    ensures Needed(key, cell, ws + [w], history, backfill, final, day) ==
            Needed(key, cell, ws, history, backfill, final, day) +
            (if w.Days? && FirstDay(history, CellSeries(key, cell, w.days), final, backfill) <= day then [w.days] else [])
  {
    if ws == [] {
      assert ws + [w] == [w];
      assert Needed(key, cell, [], history, backfill, final, day) == [];
    } else {
      assert (ws + [w])[0] == ws[0] && (ws + [w])[1..] == ws[1..] + [w];
      NeededAppend(key, cell, ws[1..], w, history, backfill, final, day);
    }
  }

  function At(m: map<nat, seq<nat>>, day: nat): seq<nat> { if day in m then m[day] else [] }

  /** Adds one window to the list of every day from `first` on. */
  method PushWindow(m: map<nat, seq<nat>>, w: nat, first: nat, final: nat) returns (r: map<nat, seq<nat>>)
    ensures forall d: nat :: At(r, d) == if first <= d <= final then At(m, d) + [w] else At(m, d)
  {
    r := m;
    var day := first;
    while day <= final
      invariant first <= day && (day <= final + 1 || day == first)
      invariant forall d: nat :: At(r, d) == if first <= d < day then At(m, d) + [w] else At(m, d)
    {
      r := r[day := At(r, day) + [w]];
      day := day + 1;
    }
  }

  /** The helper map of GenerateObsFromNumericAggregates: for each day of the backfill period the windows that need
      an observation, in increasing order. */
  method WindowsByDay(key: ReportKey, cell: Cell, windows: seq<Window>, history: History, backfill: nat, final: nat)
    returns (m: map<nat, seq<nat>>)
    ensures forall day: nat :: day <= final ==> At(m, day) == Needed(key, cell, windows, history, backfill, final, day)
  {
    m := map[];
    for i := 0 to |windows|
      invariant forall day: nat :: day <= final ==> At(m, day) == Needed(key, cell, windows[..i], history, backfill, final, day)
    {
      forall day: nat | day <= final
        ensures Needed(key, cell, windows[..i + 1], history, backfill, final, day) ==
                Needed(key, cell, windows[..i], history, backfill, final, day) +
                (if windows[i].Days? && FirstDay(history, CellSeries(key, cell, windows[i].days), final, backfill) <= day
                 then [windows[i].days] else [])
      {
        assert windows[..i + 1] == windows[..i] + [windows[i]];
        NeededAppend(key, cell, windows[..i], windows[i], history, backfill, final, day);
      }
      if windows[i].Days? {
        var first := FirstDay(history, CellSeries(key, cell, windows[i].days), final, backfill);
        m := PushWindow(m, windows[i].days, first, final);
      }
    }
    assert windows[..|windows|] == windows;
  }

  /** Window sizes that the accumulator of one day can serve: ascending, and reaching back no further than day 1. */
  predicate Servable(needed: seq<nat>, day: nat) {
    && (forall i :: 0 <= i < |needed| ==> 1 <= needed[i] <= day)
    && (forall i, j :: 0 <= i < j < |needed| ==> needed[i] <= needed[j])
  }

  lemma {:induction false} NeededAscends(key: ReportKey, cell: Cell, windows: seq<Window>, history: History, backfill: nat,
                                         final: nat, day: nat)
    requires ValidWindows(windows) && MAX_AGGREGATION_DAYS <= day
    ensures Servable(Needed(key, cell, windows, history, backfill, final, day), day)
    ensures forall w :: w in Needed(key, cell, windows, history, backfill, final, day) ==> Days(w) in windows
  {
    if windows != [] {
      NeededAscends(key, cell, windows[1..], history, backfill, final, day);
      var rest := Needed(key, cell, windows[1..], history, backfill, final, day);
      forall i | 0 <= i < |rest| && windows[0].Days? ensures windows[0].days <= rest[i] {
        assert Days(rest[i]) in windows[1..];
        var j :| 1 <= j < |windows| && windows[j] == Days(rest[i]);
        assert Precedes(windows[0], windows[j]);
      }
    }
  }

  /** The found flag and the running aggregate stand for the fold over the days seen so far. */
  predicate Represents(found: bool, aggregate: int, fold: Option<int>) {
    if found then fold == Some(aggregate) else fold == None && aggregate == 0
  }

  /** One day added to the accumulator that the ascending windows share. */
  method AccumulateDay(aggregation: AggregationType, days: map<nat, int>, day: nat, numDays: nat, found: bool, aggregate: int)
    returns (found': bool, aggregate': int)
    requires numDays < day && aggregation != UnknownType
    requires Represents(found, aggregate, WindowFold(aggregation, days, day, numDays))
    ensures Represents(found', aggregate', WindowFold(aggregation, days, day, numDays + 1))
  {
    found', aggregate' := found, aggregate;
    var d := day - numDays;
    var foundForDay := d in days;
    match aggregation {
      case Sum =>
        if foundForDay {
          aggregate' := aggregate + days[d];
          found' := true;
        }
      case Max =>
        if foundForDay {
          aggregate' := if aggregate < days[d] then days[d] else aggregate;
          found' := true;
        }
      case Min =>
        if foundForDay && !found {
          aggregate' := days[d];
          found' := true;
        } else if foundForDay {
          aggregate' := if days[d] < aggregate then days[d] else aggregate;
        }
      case UnknownType =>
    }
  }

  /** The accumulator taken from one window size to the next larger one. */
  method ExtendWindow(aggregation: AggregationType, days: map<nat, int>, day: nat, from: nat, to: nat, found: bool, aggregate: int)
    returns (found': bool, aggregate': int)
    requires from <= to <= day && aggregation != UnknownType
    requires Represents(found, aggregate, WindowFold(aggregation, days, day, from))
    ensures Represents(found', aggregate', WindowFold(aggregation, days, day, to))
  {
    found', aggregate' := found, aggregate;
    var numDays := from;
    while numDays < to
      invariant numDays <= to
      invariant Represents(found', aggregate', WindowFold(aggregation, days, day, numDays))
    {
      found', aggregate' := AccumulateDay(aggregation, days, day, numDays, found', aggregate');
      numDays := numDays + 1;
    }
  }

  /** Garbage collection of a report's aggregates, whichever kind they are. */
  method EraseOldAggregates(a: Aggregates, cutoff: nat) returns (kept: Aggregates)
    ensures kept == CollectAggregates(a, cutoff)
  {
    kept := a;
    match a {
      case UniqueActives(byCode) =>
        var codes := EraseOldCodes(byCode, cutoff);
        kept := UniqueActives(codes);
      case Numeric(byComponent) =>
        var components := EraseOldComponents(byComponent, cutoff);
        kept := Numeric(components);
      case NoAggregates =>
    }
  }

  /** The last day that garbage collection drops, from the largest window; none when it skips the report. */
  method Cutoff(windows: seq<Window>, backfill: nat, day: nat) returns (cutoff: Option<nat>)
    requires ValidWindows(windows) && MAX_AGGREGATION_DAYS + backfill <= day
    ensures cutoff.None? <==> Skipped(windows, day)
    ensures cutoff.Some? ==> cutoff.value == CutoffDay(windows, backfill, day)
  {
    if |windows| == 0 {
      return None;
    }
    var largest := 1;
    if windows[|windows| - 1].Days? {
      largest := windows[|windows| - 1].days;
    }
    if largest == 0 || day < largest {
      return None;
    }
    cutoff := Some(day - backfill - largest);
  }

  /** What garbage collection leaves of a report on a day in its time zone. */
  predicate KeptOn(kept: Report, report: Report, backfill: nat, day: nat) {
    if Skipped(report.config.windows, day) then kept == report
    else kept == report.(aggregates := CollectAggregates(report.aggregates, CutoffDay(report.config.windows, backfill, day)))
  }

  lemma CollectsOn(kept: Report, report: Report, backfill: nat, utc: nat, local: nat, day: nat)
    requires DayFor(report.config.zone, utc, local) == Some(day) && KeptOn(kept, report, backfill, day)
    ensures kept == CollectReport(report, backfill, utc, local)
  {
  }

  method EraseOldOn(report: Report, backfill: nat, day: nat) returns (kept: Report)
    requires ValidWindows(report.config.windows) && MAX_AGGREGATION_DAYS + backfill <= day
    ensures KeptOn(kept, report, backfill, day)
  {
    var cutoff := Cutoff(report.config.windows, backfill, day);
    if cutoff.None? {
      return report;
    }
    var aggregates := EraseOldAggregates(report.aggregates, cutoff.value);
    kept := report.(aggregates := aggregates);
  }

  method EraseOldFromReport(report: Report, backfill: nat, utc: nat, local: nat) returns (kept: Report)
    requires ValidWindows(report.config.windows)
    requires MAX_AGGREGATION_DAYS + backfill <= utc && MAX_AGGREGATION_DAYS + backfill <= local
    ensures kept == CollectReport(report, backfill, utc, local)
  {
    var day;
    match report.config.zone {
      case Utc => day := utc;
      case Local => day := local;
      case UnknownPolicy => return report;
    }
    kept := EraseOldOn(report, backfill, day);
    CollectsOn(kept, report, backfill, utc, local, day);
  }

  /** Whether the window holds an active day, given one that was found before; the day that was found is remembered. */
  method WasActiveInWindow(found: bool, active: map<nat, bool>, remembered: nat, day: nat, window: nat)
    returns (wasActive: bool, activeDay: nat)
    requires window <= day && (!found ==> active == map[])
    requires remembered == 0 || (remembered in active && active[remembered])
    ensures wasActive == WasActive(active, day, window)
    ensures activeDay == 0 || (activeDay in active && active[activeDay])
  {
    wasActive, activeDay := false, remembered;
    if found {
      if IsActivityInWindow(activeDay, day, window) {
        wasActive := true;
      } else {
        activeDay := FirstActiveDayIndexInWindow(active, day, window);
        wasActive := IsActivityInWindow(activeDay, day, window);
      }
    }
  }

  // ---------------------------------------------------------------- One day of each loop

  lemma UniqueDaysStep(series: Series, active: map<nat, bool>, window: nat, day: nat, final: nat, st: GenState, oracle: Oracle)
    requires day <= final
    ensures Execute(UniqueDays(series, active, window, day, final), st, oracle) ==
            var (st', status) := DoStep(Emit(Observation(series, day, Activity(WasActive(active, day, window)))), st, oracle);
            if status != Ok then (st', status) else Execute(UniqueDays(series, active, window, day + 1, final), st', oracle)
  {
    assert UniqueDays(series, active, window, day, final)[1..] == UniqueDays(series, active, window, day + 1, final);
  }

  lemma ParticipationStep(key: ReportKey, day: nat, final: nat, st: GenState, oracle: Oracle)
    requires day <= final
    ensures Execute(ParticipationDays(key, day, final), st, oracle) ==
            Execute(ParticipationDays(key, day + 1, final),
                    DoStep(TryEmit(Observation(ParticipationSeries(key), day, Participation)), st, oracle).0, oracle)
  {
    assert ParticipationDays(key, day, final)[1..] == ParticipationDays(key, day + 1, final);
  }

  lemma CellDaysStep(key: ReportKey, config: Config, cell: Cell, days: map<nat, int>, history: History, backfill: nat,
                     day: nat, final: nat, st: GenState, oracle: Oracle)
    requires day <= final
    ensures var head := CellDay(key, config, cell, days, day, Needed(key, cell, config.windows, history, backfill, final, day));
            Execute(CellDays(key, config, cell, days, history, backfill, day, final), st, oracle) ==
            var (st', status) := Execute(head, st, oracle);
            if status != Ok then (st', status) else Execute(CellDays(key, config, cell, days, history, backfill, day + 1, final), st', oracle)
  {
    var head := CellDay(key, config, cell, days, day, Needed(key, cell, config.windows, history, backfill, final, day));
    ExecuteAppend(head, CellDays(key, config, cell, days, history, backfill, day + 1, final), st, oracle);
  }

  class AggregateStore {
    var store: Store
    var history: History
    /** What the observation writer has accepted. */
    var written: seq<Observation>
    var attempts: nat
    var disabled: bool
    const backfill: nat
    const oracle: Oracle

    ghost predicate Valid()
      reads this
    {
      backfill <= MAX_BACKFILL_DAYS && forall k :: k in store ==> ValidWindows(store[k].config.windows)
    }

    ghost function State(): GenState
      reads this
    {
      GenState(history, written, attempts)
    }

    constructor (backfill: nat, oracle: Oracle)
      requires backfill <= MAX_BACKFILL_DAYS
      ensures Valid() && this.backfill == backfill && this.oracle == oracle
      ensures store == map[] && State() == GenState(map[], [], 0) && !disabled
    {
      this.backfill, this.oracle := backfill, oracle;
      store, history, written, attempts, disabled := map[], map[], [], 0, false;
    }

    /** MaybeInsertReportConfig: a known report stays as it is; a new one is inserted, with its windows sorted, exactly
        when its type is one of the three that are aggregated and its windows are acceptable. */
    method MaybeInsertReportConfig(key: ReportKey, config: Config, sizes: seq<nat>, windows: seq<Window>) returns (status: Status)
      requires Valid()
      modifies this`store
      ensures Valid()
      ensures status == if key in old(store) || (config.reportType != OtherReport && Acceptable(sizes, windows)) then Ok else InvalidArguments
      ensures key in old(store) || status != Ok ==> store == old(store)
      ensures key !in old(store) && status == Ok ==>
                key in store && store == InsertReport(old(store), key, store[key].config).0 &&
                store[key].config == config.(windows := store[key].config.windows) &&
                multiset(store[key].config.windows) == multiset(Requested(sizes, windows))
    {
      if key in store {
        return Ok;
      }
      var ok, sorted := GetSortedAggregationWindows(sizes, windows);
      if !ok || config.reportType == OtherReport {
        return InvalidArguments;
      }
      store := store[key := Report(config.(windows := sorted), EmptyAggregates(config.reportType))];
      status := Ok;
    }

    method SetActive(key: ReportKey, code: nat, day: nat) returns (status: Status)
      requires Valid()
      modifies this`store
      ensures Valid()
      ensures (store, status) == if disabled then (old(store), Ok) else AggregateModel.SetActive(old(store), key, code, day)
    {
      if disabled {
        return Ok;
      }
      if key !in store || !store[key].aggregates.UniqueActives? {
        return InvalidArguments;
      }
      var byCode := store[key].aggregates.byCode;
      var c := code % UINT32_SIZE;
      byCode := byCode[c := Inner(byCode, c)[day := true]];
      store := store[key := store[key].(aggregates := UniqueActives(byCode))];
      status := Ok;
    }

    method UpdateNumericAggregate(key: ReportKey, cell: Cell, day: nat, value: int) returns (status: Status)
      requires Valid()
      modifies this`store
      ensures Valid()
      ensures (store, status) == if disabled then (old(store), Ok) else UpdateNumeric(old(store), key, cell, day, value)
    {
      if disabled {
        return Ok;
      }
      if key !in store || !store[key].aggregates.Numeric? {
        return InvalidArguments;
      }
      var byComponent := store[key].aggregates.byComponent;
      var byCode := Inner(byComponent, cell.component);
      var days := Inner(byCode, cell.code);
      var updated := GetUpdatedAggregate(store[key].config.aggregation, Lookup(days, day), value);
      if updated.None? {
        return InvalidArguments;
      }
      days := days[day := updated.value];
      byComponent := byComponent[cell.component := byCode[cell.code := days]];
      store := store[key := store[key].(aggregates := Numeric(byComponent))];
      status := Ok;
    }

    method CollectOne(key: ReportKey, utc: nat, local: nat)
      requires Valid() && key in store
      requires MAX_AGGREGATION_DAYS + backfill <= utc && MAX_AGGREGATION_DAYS + backfill <= local
      modifies this`store
      ensures store == old(store)[key := CollectReport(old(store)[key], backfill, utc, local)]
    {
      var kept := EraseOldFromReport(store[key], backfill, utc, local);
      store := store[key := kept];
    }

    method GarbageCollect(utc: nat, givenLocal: nat) returns (status: Status)
      requires Valid() && InBounds(Call(utc, givenLocal), backfill)
      modifies this`store
      ensures Valid() && status == Ok
      ensures store == Collect(old(store), backfill, utc, Call(utc, givenLocal).Local())
    {
      var local := if givenLocal == 0 then utc else givenLocal;
      var todo := store.Keys;
      while todo != {}
        invariant todo <= old(store).Keys && store.Keys == old(store).Keys
        invariant forall k :: k in store ==>
                    store[k] == if k in todo then old(store)[k] else CollectReport(old(store)[k], backfill, utc, local)
      {
        var k :| k in todo;
        CollectOne(k, utc, local);
        todo := todo - {k};
      }
      status := Ok;
    }

    /** Encodes one observation and hands it to the writer. */
    method WriteObservation(o: Observation) returns (status: Status)
      modifies this`written, this`attempts
      ensures status == oracle(old(attempts)) && attempts == old(attempts) + 1
      ensures written == if status == Ok then old(written) + [o] else old(written)
    {
      status := oracle(attempts);
      attempts := attempts + 1;
      if status == Ok {
        written := written + [o];
      }
    }

    /** Writes one observation and records its day, unless that fails. */
    method GenerateOne(o: Observation) returns (status: Status)
      modifies this`history, this`written, this`attempts
      ensures (State(), status) == DoStep(Emit(o), old(State()), oracle)
    {
      status := WriteObservation(o);
      if status == Ok {
        history := history[o.series := o.day];
      }
    }

    /** Writes one observation, does not look at the outcome, and records its day. */
    method GenerateUnchecked(o: Observation)
      modifies this`history, this`written, this`attempts
      ensures State() == DoStep(TryEmit(o), old(State()), oracle).0
    {
      var _ := WriteObservation(o);
      history := history[o.series := o.day];
    }

    /** The innermost loop of GenerateUniqueActivesObservations: the remembered active day makes the search of most
        windows unnecessary, and every observation still says whether its own window was active. */
    method GenerateUniqueDays(series: Series, found: bool, active: map<nat, bool>, window: nat, final: nat) returns (status: Status)
      requires window <= Start(final, backfill) && (!found ==> active == map[])
      modifies this`history, this`written, this`attempts
      ensures (State(), status) ==
              Execute(UniqueDays(series, active, window, FirstDay(old(history), series, final, backfill), final), old(State()), oracle)
    {
      var day := FirstDay(history, series, final, backfill);
      ghost var goal := Execute(UniqueDays(series, active, window, day, final), State(), oracle);
      var activeDay := 0;
      while day <= final
        invariant Start(final, backfill) <= day
        invariant goal == Execute(UniqueDays(series, active, window, day, final), State(), oracle)
        invariant activeDay == 0 || (activeDay in active && active[activeDay])
      {
        var wasActive;
        wasActive, activeDay := WasActiveInWindow(found, active, activeDay, day, window);
        UniqueDaysStep(series, active, window, day, final, State(), oracle);
        status := GenerateOne(Observation(series, day, Activity(wasActive)));
        if status != Ok {
          return;
        }
        day := day + 1;
      }
      status := Ok;
    }

    /** The window loop of GenerateUniqueActivesObservations. */
    method GenerateUniqueWindows(key: ReportKey, found: bool, active: map<nat, bool>, code: nat, windows: seq<Window>, final: nat)
      returns (status: Status)
      requires MAX_AGGREGATION_DAYS <= Start(final, backfill) && (!found ==> active == map[])
      modifies this`history, this`written, this`attempts
      ensures (State(), status) ==
              Execute(UniqueWindows(key, active, code, windows, old(history), backfill, final), old(State()), oracle)
    {
      ghost var goal := Execute(UniqueWindows(key, active, code, windows, history, backfill, final), State(), oracle);
      assert windows[0..] == windows;
      for i := 0 to |windows|
        invariant goal == Execute(UniqueWindows(key, active, code, windows[i..], history, backfill, final), State(), oracle)
      {
        assert windows[i..][0] == windows[i] && windows[i..][1..] == windows[i + 1..];
        if windows[i].Days? && windows[i].days <= MAX_AGGREGATION_DAYS {
          var series := UniqueSeries(key, code, windows[i].days);
          ghost var h, st := history, State();
          ghost var head := UniqueDays(series, active, windows[i].days, FirstDay(h, series, final, backfill), final);
          ExecuteAppend(head, UniqueWindows(key, active, code, windows[i + 1..], After(h, head), backfill, final), st, oracle);
          status := GenerateUniqueDays(series, found, active, windows[i].days, final);
          if status != Ok {
            return;
          }
          CompletedHistory(head, st, oracle);
        }
      }
      status := Ok;
    }

    method GenerateUniqueActivesObservations(key: ReportKey, report: Report, final: nat) returns (status: Status)
      requires MAX_AGGREGATION_DAYS <= Start(final, backfill)
      modifies this`history, this`written, this`attempts
      ensures (State(), status) == Execute(UniqueCodes(key, report, 0, old(history), backfill, final), old(State()), oracle)
    {
      ghost var goal := Execute(UniqueCodes(key, report, 0, history, backfill, final), State(), oracle);
      for code := 0 to report.config.numEventCodes
        invariant goal == Execute(UniqueCodes(key, report, code, history, backfill, final), State(), oracle)
      {
        var found := report.aggregates.UniqueActives? && code in report.aggregates.byCode;
        var active: map<nat, bool> := if found then report.aggregates.byCode[code] else map[];
        ghost var h, st := history, State();
        ghost var head := UniqueWindows(key, active, code, report.config.windows, h, backfill, final);
        ExecuteAppend(head, UniqueCodes(key, report, code + 1, After(h, head), backfill, final), st, oracle);
        status := GenerateUniqueWindows(key, found, active, code, report.config.windows, final);
        if status != Ok {
          return;
        }
        CompletedHistory(head, st, oracle);
      }
      status := Ok;
    }

    /** Writes the observation of one window, or only records the day when the window holds no value. */
    method EmitWindow(key: ReportKey, config: Config, cell: Cell, days: map<nat, int>, day: nat, window: nat,
                      found: bool, aggregate: int) returns (status: Status)
      requires config.aggregation != UnknownType && Represents(found, aggregate, WindowFold(config.aggregation, days, day, window))
      modifies this`history, this`written, this`attempts
      ensures (State(), status) == DoStep(CellStep(key, config, cell, days, day, window), old(State()), oracle)
    {
      var series := CellSeries(key, cell, window);
      if found {
        match config.reportType {
          case PerDeviceNumericStats =>
            status := WriteObservation(Observation(series, day, NumericValue(aggregate)));
            if status != Ok {
              return;
            }
          case PerDeviceHistogram =>
            status := WriteObservation(Observation(series, day, HistogramValue(aggregate)));
            if status != Ok {
              return;
            }
          case _ => return InvalidArguments;
        }
      }
      history := history[series := day];
      status := Ok;
    }

    /** The windows of one day share one accumulator: a larger window continues where the smaller one stopped. Each
        observation still carries the aggregate of its own window. */
    method GenerateCellDay(key: ReportKey, config: Config, cell: Cell, days: map<nat, int>, day: nat, needed: seq<nat>)
      returns (status: Status)
      requires Servable(needed, day)
      modifies this`history, this`written, this`attempts
      ensures (State(), status) == Execute(CellDay(key, config, cell, days, day, needed), old(State()), oracle)
    {
      ghost var goal := Execute(CellDay(key, config, cell, days, day, needed), State(), oracle);
      assert needed[0..] == needed;
      var found, aggregate, numDays := false, 0, 0;
      for i := 0 to |needed|
        invariant goal == Execute(CellDay(key, config, cell, days, day, needed[i..]), State(), oracle)
        invariant forall j :: i <= j < |needed| ==> numDays <= needed[j]
        invariant Represents(found, aggregate, WindowFold(config.aggregation, days, day, numDays))
      {
        var window := needed[i];
        ghost var script := CellDay(key, config, cell, days, day, needed[i..]);
        assert needed[i..][0] == window && needed[i..][1..] == needed[i + 1..];
        assert script[0] == CellStep(key, config, cell, days, day, window);
        assert script[1..] == CellDay(key, config, cell, days, day, needed[i + 1..]);
        if config.aggregation == UnknownType {
          return InvalidArguments;
        }
        found, aggregate := ExtendWindow(config.aggregation, days, day, numDays, window, found, aggregate);
        numDays := window;
        status := EmitWindow(key, config, cell, days, day, window, found, aggregate);
        if status != Ok {
          return;
        }
      }
      status := Ok;
    }

    /** All the observations of one component and event code. */
    method GenerateCell(key: ReportKey, config: Config, cell: Cell, days: map<nat, int>, final: nat) returns (status: Status)
      requires MAX_AGGREGATION_DAYS <= Start(final, backfill) && ValidWindows(config.windows)
      modifies this`history, this`written, this`attempts
      ensures (State(), status) ==
              Execute(CellDays(key, config, cell, days, old(history), backfill, Start(final, backfill), final), old(State()), oracle)
    {
      ghost var h := history;
      var windowsByDay := WindowsByDay(key, cell, config.windows, history, backfill, final);
      var day := Start(final, backfill);
      ghost var goal := Execute(CellDays(key, config, cell, days, h, backfill, day, final), State(), oracle);
      while day <= final
        invariant MAX_AGGREGATION_DAYS <= day
        invariant goal == Execute(CellDays(key, config, cell, days, h, backfill, day, final), State(), oracle)
      {
        var needed := At(windowsByDay, day);
        NeededAscends(key, cell, config.windows, h, backfill, final, day);
        CellDaysStep(key, config, cell, days, h, backfill, day, final, State(), oracle);
        status := GenerateCellDay(key, config, cell, days, day, needed);
        if status != Ok {
          return;
        }
        day := day + 1;
      }
      status := Ok;
    }

    /** The participation loop: a failed attempt is not noticed, and its day counts as generated. */
    method GenerateParticipation(key: ReportKey, final: nat)
      modifies this`history, this`written, this`attempts
      ensures (State(), Ok) ==
              Execute(ParticipationDays(key, FirstDay(old(history), ParticipationSeries(key), final, backfill), final), old(State()), oracle)
    {
      var series := ParticipationSeries(key);
      var day := FirstDay(history, series, final, backfill);
      ghost var goal := Execute(ParticipationDays(key, day, final), State(), oracle);
      while day <= final
        invariant goal == Execute(ParticipationDays(key, day, final), State(), oracle)
      {
        ParticipationStep(key, day, final, State(), oracle);
        GenerateUnchecked(Observation(series, day, Participation));
        day := day + 1;
      }
    }

    method GenerateObsFromNumericAggregates(key: ReportKey, report: Report, cells: seq<Cell>, final: nat) returns (status: Status)
      requires MAX_AGGREGATION_DAYS <= Start(final, backfill) && ValidWindows(report.config.windows)
      modifies this`history, this`written, this`attempts
      ensures (State(), status) == Execute(NumericPlan(key, report, cells, old(history), backfill, final), old(State()), oracle)
    {
      ghost var h0, st0 := history, State();
      ghost var all := NumericCells(key, report, cells, h0, backfill, final);
      ghost var tail := ParticipationDays(key, FirstDay(After(h0, all), ParticipationSeries(key), final, backfill), final);
      ExecuteAppend(all, tail, st0, oracle);
      assert cells[0..] == cells;
      for i := 0 to |cells|
        invariant Execute(all, st0, oracle) == Execute(NumericCells(key, report, cells[i..], history, backfill, final), State(), oracle)
      {
        assert cells[i..][0] == cells[i] && cells[i..][1..] == cells[i + 1..];
        ghost var h, st := history, State();
        var days := DaysOf(report.aggregates, cells[i]);
        ghost var head := CellDays(key, report.config, cells[i], days, h, backfill, Start(final, backfill), final);
        ExecuteAppend(head, NumericCells(key, report, cells[i + 1..], After(h, head), backfill, final), st, oracle);
        status := GenerateCell(key, report.config, cells[i], days, final);
        if status != Ok {
          return;
        }
        CompletedHistory(head, st, oracle);
      }
      CompletedHistory(all, st0, oracle);
      GenerateParticipation(key, final);
      status := Ok;
    }

    method GenerateReport(key: ReportKey, report: Report, cells: seq<Cell>, utc: nat, local: nat) returns (status: Status)
      requires ValidWindows(report.config.windows)
      requires MAX_AGGREGATION_DAYS + backfill <= utc && MAX_AGGREGATION_DAYS + backfill <= local
      modifies this`history, this`written, this`attempts
      ensures (State(), status) == Execute(ReportPlan(key, report, cells, old(history), backfill, utc, local), old(State()), oracle)
    {
      var config := report.config;
      var final;
      match config.zone {
        case Utc => final := utc;
        case Local => final := local;
        case UnknownPolicy => return Ok;
      }
      if |config.windows| == 0 {
        return Ok;
      }
      var largest := 1;
      if config.windows[|config.windows| - 1].Days? {
        largest := config.windows[|config.windows| - 1].days;
      }
      if largest == 0 || final < largest {
        return Ok;
      }
      match config.metricType {
        case EventOccurred =>
          if config.reportType == UniqueNDayActives {
            status := GenerateUniqueActivesObservations(key, report, final);
            return;
          }
        case NumericMetric =>
          if config.reportType == PerDeviceNumericStats || config.reportType == PerDeviceHistogram {
            status := GenerateObsFromNumericAggregates(key, report, cells, final);
            return;
          }
        case OtherMetric =>
      }
      status := Ok;
    }

    /** GenerateObservations. The order of iteration over the store's maps is not specified: any will do. */
    method GenerateObservations(order: Order, utc: nat, givenLocal: nat) returns (status: Status)
      requires Valid() && InBounds(Call(utc, givenLocal), backfill) && Enumerates(order, store)
      modifies this`history, this`written, this`attempts
      ensures Valid()
      ensures (State(), status) ==
              GenerateWith(System(store, old(State()), 0, 0), order, Call(utc, givenLocal), backfill, oracle)
    {
      var local := if givenLocal == 0 then utc else givenLocal;
      var reports := order.reports;
      ghost var goal := Execute(Plan(store, reports, order, history, backfill, utc, local), State(), oracle);
      assert reports[0..] == reports;
      for i := 0 to |reports|
        invariant goal == Execute(Plan(store, reports[i..], order, history, backfill, utc, local), State(), oracle)
      {
        var key := reports[i];
        assert key in reports && reports[i..][0] == key && reports[i..][1..] == reports[i + 1..];
        ghost var h, st := history, State();
        ghost var head := ReportPlan(key, store[key], CellsOf(order, key), h, backfill, utc, local);
        ExecuteAppend(head, Plan(store, reports[i + 1..], order, After(h, head), backfill, utc, local), st, oracle);
        status := GenerateReport(key, store[key], CellsOf(order, key), utc, local);
        if status != Ok {
          return;
        }
        CompletedHistory(head, st, oracle);
      }
      status := Ok;
    }
  }
}
