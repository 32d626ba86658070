/** The local aggregate store as values: what is stored, what each operation does to it, and the script of
    observations that a generation call goes through (aggregate_store.cc).

    A generation call is modelled in two parts. Plan gives the steps the call takes as long as every
    encode-and-write succeeds; each step names a series (a report's stream of daily observations for one event
    code, component and window) and a day. Execute runs a script against an oracle that decides the outcome of
    each attempt, and stops at the first failure, leaving the history as far as it got. */
module AggregateModel {
  import opened Common
  import opened AggregationWindows

  const UINT32_MAX: nat := 0xFFFF_FFFF
  const MAX_BACKFILL_DAYS: nat := 1000

  datatype Status = Ok | InvalidArguments | Other

  datatype ReportKey = ReportKey(customer: nat, project: nat, metric: nat, report: nat)

  datatype TimeZonePolicy = Utc | Local | UnknownPolicy

  /** NumericMetric stands for EVENT_COUNT, ELAPSED_TIME, FRAME_RATE and MEMORY_USAGE. */
  datatype MetricType = EventOccurred | NumericMetric | OtherMetric

  datatype ReportType = UniqueNDayActives | PerDeviceNumericStats | PerDeviceHistogram | OtherReport

  datatype AggregationType = Sum | Max | Min | UnknownType

  datatype Config = Config(
    zone: TimeZonePolicy,
    metricType: MetricType,
    reportType: ReportType,
    aggregation: AggregationType,
    numEventCodes: nat,
    windows: seq<Window>)

  datatype Aggregates =
    | UniqueActives(byCode: map<nat, map<nat, bool>>)
    | Numeric(byComponent: map<string, map<nat, map<nat, int>>>)
    | NoAggregates

  datatype Report = Report(config: Config, aggregates: Aggregates)

  type Store = map<ReportKey, Report>

  /** One entry of the numeric aggregates: a component and its packed event code. */
  datatype Cell = Cell(component: string, code: nat)

  /** A stream of daily observations: what the observation history is indexed by. */
  datatype Series =
    | UniqueSeries(report: ReportKey, code: nat, window: nat)
    | NumericSeries(report: ReportKey, component: string, code: nat, window: nat)
    | ParticipationSeries(report: ReportKey)

  type History = map<Series, nat>

  datatype Payload = Activity(wasActive: bool) | NumericValue(value: int) | HistogramValue(value: int) | Participation

  datatype Observation = Observation(series: Series, day: nat, payload: Payload)

  // ---------------------------------------------------------------- Updates

  /** GetUpdatedAggregate (aggregation_utils.cc). */
  function GetUpdatedAggregate(aggregation: AggregationType, stored: Option<int>, value: int): Option<int> {
    if stored.None? then Some(value)
    else match aggregation
         case Sum => Some(value + stored.value)
         case Max => Some(if value < stored.value then stored.value else value)
         case Min => Some(if stored.value < value then stored.value else value)
         case UnknownType => None
  }

  function Lookup<K, V>(m: map<K, V>, k: K): Option<V> {
    if k in m then Some(m[k]) else None
  }

  function Inner<K, L, V>(m: map<K, map<L, V>>, k: K): map<L, V> {
    if k in m then m[k] else map[]
  }

  /** SetActive: the key of the event-code map is 32 bits wide. */
  function SetActive(store: Store, key: ReportKey, code: nat, day: nat): (Store, Status) {
    if key !in store || !store[key].aggregates.UniqueActives? then (store, InvalidArguments)
    else
      var byCode := store[key].aggregates.byCode;
      var c := code % UINT32_SIZE;
      (store[key := store[key].(aggregates := UniqueActives(byCode[c := Inner(byCode, c)[day := true]]))], Ok)
  }

  /** UpdateNumericAggregate. */
  function UpdateNumeric(store: Store, key: ReportKey, cell: Cell, day: nat, value: int): (Store, Status) {
    if key !in store || !store[key].aggregates.Numeric? then (store, InvalidArguments)
    else
      var byComponent := store[key].aggregates.byComponent;
      var byCode := Inner(byComponent, cell.component);
      var days := Inner(byCode, cell.code);
      match GetUpdatedAggregate(store[key].config.aggregation, Lookup(days, day), value)
      case None => (store, InvalidArguments)
      case Some(v) =>
        var aggregates := Numeric(byComponent[cell.component := byCode[cell.code := days[day := v]]]);
        (store[key := store[key].(aggregates := aggregates)], Ok)
  }

  // ---------------------------------------------------------------- Garbage collection

  function DropOld<V>(days: map<nat, V>, cutoff: int): map<nat, V> {
    map d | d in days && cutoff < d :: days[d]
  }

  function CollectCodes<V>(byCode: map<nat, map<nat, V>>, cutoff: int): map<nat, map<nat, V>> {
    map c | c in byCode && DropOld(byCode[c], cutoff) != map[] :: DropOld(byCode[c], cutoff)
  }

  function CollectComponents(m: map<string, map<nat, map<nat, int>>>, cutoff: int): map<string, map<nat, map<nat, int>>> {
    map c | c in m && CollectCodes(m[c], cutoff) != map[] :: CollectCodes(m[c], cutoff)
  }

  function CollectAggregates(a: Aggregates, cutoff: int): Aggregates {
    match a
    case UniqueActives(byCode) => UniqueActives(CollectCodes(byCode, cutoff))
    case Numeric(byComponent) => Numeric(CollectComponents(byComponent, cutoff))
    case NoAggregates => a
  }

  /** The day of a call in a report's time zone; None when the policy is not a known one. */
  function DayFor(zone: TimeZonePolicy, utc: nat, local: nat): Option<nat> {
    match zone
    case Utc => Some(utc)
    case Local => Some(local)
    case UnknownPolicy => None
  }

  /** The size in days of the last (largest) window; 1 when that window is not in days. */
  function LargestWindow(windows: seq<Window>): nat
    requires windows != []
  {
    var w := windows[|windows| - 1];
    if w.Days? then w.days else 1
  }

  /** Whether a call on the given day skips a report for the shape of its windows. */
  predicate Skipped(windows: seq<Window>, day: nat) {
    windows == [] || LargestWindow(windows) == 0 || day < LargestWindow(windows)
  }

  /** The last day that garbage collection drops. */
  function CutoffDay(windows: seq<Window>, backfill: nat, day: nat): int
    requires windows != []
  {
    day - backfill - LargestWindow(windows)
  }

  /** GarbageCollect on one report. */
  function CollectReport(report: Report, backfill: nat, utc: nat, local: nat): Report {
    match DayFor(report.config.zone, utc, local)
    case None => report
    case Some(day) =>
      if Skipped(report.config.windows, day) then report
      else report.(aggregates :=
                     CollectAggregates(report.aggregates, CutoffDay(report.config.windows, backfill, day)))
  }

  function Collect(store: Store, backfill: nat, utc: nat, local: nat): Store {
    map k | k in store :: CollectReport(store[k], backfill, utc, local)
  }

  // ---------------------------------------------------------------- Windows over stored days

  predicate InWindow(d: nat, day: nat, window: nat) { d <= day < d + window }

  /** The meaning of a unique-actives observation: some day of the window has an activity indicator. */
  predicate WasActive(active: map<nat, bool>, day: nat, window: nat) {
    exists d | d in active :: active[d] && InWindow(d, day, window)
  }

  /** One daily value folded into a window's aggregate. MAX starts from 0. */
  function Combine(aggregation: AggregationType, acc: Option<int>, v: int): int {
    match aggregation
    case Sum => if acc.None? then v else acc.value + v
    case Max => var a := if acc.None? then 0 else acc.value; if a < v then v else a
    case Min => if acc.None? || v < acc.value then v else acc.value
    case UnknownType => v
  }

  /** The aggregate of the `window` days ending on `day`, by a fold over those days alone. */
  function WindowFold(aggregation: AggregationType, days: map<nat, int>, day: nat, window: nat): Option<int> {
    if window == 0 then None
    else
      var acc := WindowFold(aggregation, days, day, window - 1);
      var d := day - window + 1;
      if d in days then Some(Combine(aggregation, acc, days[d])) else acc
  }

  // ---------------------------------------------------------------- Scripts

  datatype Step =
    | Mark(series: Series, day: nat)
    | Emit(obs: Observation)
    | TryEmit(obs: Observation)
    | Abort
  {
    function Target(): Series
      requires !Abort?
    {
      if Mark? then series else obs.series
    }

    function Day(): nat
      requires !Abort?
    {
      if Mark? then day else obs.day
    }
  }

  type Script = seq<Step>

  datatype GenState = GenState(history: History, written: seq<Observation>, attempts: nat)

  /** The outcome of the n-th attempt to encode and write an observation. */
  type Oracle = nat -> Status

  function LastGenerated(history: History, series: Series): nat {
    if series in history then history[series] else 0
  }

  function DoStep(step: Step, st: GenState, oracle: Oracle): (GenState, Status) {
    match step
    case Mark(series, day) => (st.(history := st.history[series := day]), Ok)
    case Emit(obs) =>
      var status := oracle(st.attempts);
      var st' := st.(attempts := st.attempts + 1);
      if status != Ok then (st', status)
      else (st'.(history := st.history[obs.series := obs.day], written := st.written + [obs]), Ok)
    case TryEmit(obs) =>
      var written := if oracle(st.attempts) == Ok then st.written + [obs] else st.written;
      (GenState(st.history[obs.series := obs.day], written, st.attempts + 1), Ok)
    case Abort => (st, InvalidArguments)
  }

  function Execute(script: Script, st: GenState, oracle: Oracle): (GenState, Status) {
    if script == [] then (st, Ok)
    else
      var (st', status) := DoStep(script[0], st, oracle);
      if status != Ok then (st', status) else Execute(script[1..], st', oracle)
  }

  /** The history after a script whose attempts all succeed. */
  function After(history: History, script: Script): History
    decreases script
  {
    if script == [] then history
    else if script[0].Abort? then After(history, script[1..])
    else After(history[script[0].Target() := script[0].Day()], script[1..])
  }

  // ---------------------------------------------------------------- Plans

  /** The first day of the backfill period. The checks of the caller keep the subtraction from wrapping. */
  function Start(final: nat, backfill: nat): nat {
    if backfill <= final then final - backfill else 0
  }

  /** The earliest day for which a series still needs an observation. */
  function FirstDay(history: History, series: Series, final: nat, backfill: nat): nat {
    var next := LastGenerated(history, series) + 1;
    if Start(final, backfill) <= next then next else Start(final, backfill)
  }

  function UniqueDays(series: Series, active: map<nat, bool>, window: nat, day: nat, final: nat): Script
    decreases final + 1 - day
  {
    if final < day then []
    else [Emit(Observation(series, day, Activity(WasActive(active, day, window))))]
         + UniqueDays(series, active, window, day + 1, final)
  }

  function ActivityOf(a: Aggregates, code: nat): map<nat, bool> {
    if a.UniqueActives? then Inner(a.byCode, code) else map[]
  }

  /** Whether the unique-actives path generates observations for a window. */
  predicate UniqueWindow(w: Window) { w.Days? && w.days <= MAX_AGGREGATION_DAYS }

  function UniqueWindows(key: ReportKey, active: map<nat, bool>, code: nat, windows: seq<Window>,
                         history: History, backfill: nat, final: nat): Script
    decreases windows
  {
    if windows == [] then []
    else if !UniqueWindow(windows[0]) then
      UniqueWindows(key, active, code, windows[1..], history, backfill, final)
    else
      var series := UniqueSeries(key, code, windows[0].days);
      var head := UniqueDays(series, active, windows[0].days, FirstDay(history, series, final, backfill), final);
      head + UniqueWindows(key, active, code, windows[1..], After(history, head), backfill, final)
  }

  /** GenerateUniqueActivesObservations from one event code on. */
  function UniqueCodes(key: ReportKey, report: Report, code: nat, history: History, backfill: nat, final: nat): Script
    decreases report.config.numEventCodes - code
  {
    if report.config.numEventCodes <= code then []
    else
      var head := UniqueWindows(key, ActivityOf(report.aggregates, code), code, report.config.windows, history,
                                backfill, final);
      head + UniqueCodes(key, report, code + 1, After(history, head), backfill, final)
  }

  /** The numeric history and the labels of numeric observations hold 32 bits of the packed event code. */
  function CellSeries(key: ReportKey, cell: Cell, window: nat): Series {
    NumericSeries(key, cell.component, cell.code % UINT32_SIZE, window)
  }

  /** The sizes of the daily windows that need an observation for `day`, in stored order. */
  function Needed(key: ReportKey, cell: Cell, windows: seq<Window>, history: History, backfill: nat, final: nat,
                  day: nat): seq<nat>
  {
    if windows == [] then []
    else
      var rest := Needed(key, cell, windows[1..], history, backfill, final, day);
      var w := windows[0];
      if w.Days? && FirstDay(history, CellSeries(key, cell, w.days), final, backfill) <= day then [w.days] + rest
      else rest
  }

  function CellStep(key: ReportKey, config: Config, cell: Cell, days: map<nat, int>, day: nat, window: nat): Step {
    if config.aggregation == UnknownType && 0 < window then Abort
    else
      var series := CellSeries(key, cell, window);
      match WindowFold(config.aggregation, days, day, window)
      case None => Mark(series, day)
      case Some(v) =>
        match config.reportType
        case PerDeviceNumericStats => Emit(Observation(series, day, NumericValue(v)))
        case PerDeviceHistogram => Emit(Observation(series, day, HistogramValue(v)))
        case _ => Abort
  }

  function CellDay(key: ReportKey, config: Config, cell: Cell, days: map<nat, int>, day: nat, needed: seq<nat>): Script {
    if needed == [] then []
    else [CellStep(key, config, cell, days, day, needed[0])] + CellDay(key, config, cell, days, day, needed[1..])
  }

  /** The observations of one cell from `day` on. Which windows need an observation is decided from the history
      at the start of the cell. */
  function CellDays(key: ReportKey, config: Config, cell: Cell, days: map<nat, int>, history: History,
                    backfill: nat, day: nat, final: nat): Script
    decreases final + 1 - day
  {
    if final < day then []
    else CellDay(key, config, cell, days, day, Needed(key, cell, config.windows, history, backfill, final, day))
         + CellDays(key, config, cell, days, history, backfill, day + 1, final)
  }

  function DaysOf(a: Aggregates, cell: Cell): map<nat, int> {
    if a.Numeric? then Inner(Inner(a.byComponent, cell.component), cell.code) else map[]
  }

  predicate HasCell(a: Aggregates, cell: Cell) {
    a.Numeric? && cell.component in a.byComponent && cell.code in a.byComponent[cell.component]
  }

  function NumericCells(key: ReportKey, report: Report, cells: seq<Cell>, history: History, backfill: nat, final: nat): Script
    decreases cells
  {
    if cells == [] then []
    else
      var head := CellDays(key, report.config, cells[0], DaysOf(report.aggregates, cells[0]), history, backfill,
                           Start(final, backfill), final);
      head + NumericCells(key, report, cells[1..], After(history, head), backfill, final)
  }

  function ParticipationDays(key: ReportKey, day: nat, final: nat): Script
    decreases final + 1 - day
  {
    if final < day then []
    else [TryEmit(Observation(ParticipationSeries(key), day, Participation))] + ParticipationDays(key, day + 1, final)
  }

  /** GenerateObsFromNumericAggregates. */
  function NumericPlan(key: ReportKey, report: Report, cells: seq<Cell>, history: History, backfill: nat, final: nat): Script
  {
    var head := NumericCells(key, report, cells, history, backfill, final);
    head + ParticipationDays(key, FirstDay(After(history, head), ParticipationSeries(key), final, backfill), final)
  }

  datatype Path = UniquePath | NumericPath | NoPath

  /** Which generator a report's metric and report types select. */
  function PathOf(config: Config): Path {
    if config.metricType == EventOccurred && config.reportType == UniqueNDayActives then UniquePath
    else if config.metricType == NumericMetric && config.reportType in {PerDeviceNumericStats, PerDeviceHistogram}
    then NumericPath
    else NoPath
  }

  function ReportPlan(key: ReportKey, report: Report, cells: seq<Cell>, history: History, backfill: nat,
                      utc: nat, local: nat): Script
  {
    match DayFor(report.config.zone, utc, local)
    case None => []
    case Some(final) =>
      if Skipped(report.config.windows, final) then []
      else match PathOf(report.config)
           case UniquePath => UniqueCodes(key, report, 0, history, backfill, final)
           case NumericPath => NumericPlan(key, report, cells, history, backfill, final)
           case NoPath => []
  }

  /** The order in which a call happens to iterate over the maps of the store. */
  datatype Order = Order(reports: seq<ReportKey>, cells: map<ReportKey, seq<Cell>>)

  function CellsOf(order: Order, key: ReportKey): seq<Cell> {
    if key in order.cells then order.cells[key] else []
  }

  ghost predicate EnumeratesCells(cells: seq<Cell>, a: Aggregates) {
    NoDuplicates(cells) && forall c: Cell :: c in cells <==> HasCell(a, c)
  }

  ghost predicate Enumerates(order: Order, store: Store) {
    && NoDuplicates(order.reports)
    && (forall k: ReportKey :: k in order.reports <==> k in store)
    && (forall k :: k in store ==> EnumeratesCells(CellsOf(order, k), store[k].aggregates))
  }

  /** GenerateObservations over the given reports. */
  function Plan(store: Store, reports: seq<ReportKey>, order: Order, history: History, backfill: nat,
                utc: nat, local: nat): Script
    decreases reports
  {
    if reports == [] then []
    else if reports[0] !in store then Plan(store, reports[1..], order, history, backfill, utc, local)
    else
      var key := reports[0];
      var head := ReportPlan(key, store[key], CellsOf(order, key), history, backfill, utc, local);
      head + Plan(store, reports[1..], order, After(history, head), backfill, utc, local)
  }

  // ---------------------------------------------------------------- Scripts compose

  lemma {:induction false} ExecuteAppend(a: Script, b: Script, st: GenState, oracle: Oracle)
    ensures Execute(a + b, st, oracle) ==
            var (st', status) := Execute(a, st, oracle);
            if status != Ok then (st', status) else Execute(b, st', oracle)
  {
    if a == [] {
      assert a + b == b;
    } else {
      assert (a + b)[0] == a[0] && (a + b)[1..] == a[1..] + b;
      var (st', status) := DoStep(a[0], st, oracle);
      if status == Ok {
        ExecuteAppend(a[1..], b, st', oracle);
      }
    }
  }

  lemma {:induction false} AfterAppend(a: Script, b: Script, history: History)
    ensures After(history, a + b) == After(After(history, a), b)
    decreases a
  {
    if a == [] {
      assert a + b == b;
    } else {
      assert (a + b)[0] == a[0] && (a + b)[1..] == a[1..] + b;
      AfterAppend(a[1..], b, if a[0].Abort? then history else history[a[0].Target() := a[0].Day()]);
    }
  }

  /** A call that returns kOK went through its whole script. */
  lemma {:induction false} CompletedHistory(script: Script, st: GenState, oracle: Oracle)
    requires Execute(script, st, oracle).1 == Ok
    ensures Execute(script, st, oracle).0.history == After(st.history, script)
  {
    if script != [] {
      var (st', status) := DoStep(script[0], st, oracle);
      CompletedHistory(script[1..], st', oracle);
    }
  }
}
