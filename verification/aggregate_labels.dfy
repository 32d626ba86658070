/** Which events an emitted numeric observation is labelled with: the stored packed event code, cut to 32 bits, unpacked,
    and packed again by the encoder. */
module AggregateLabels {
  import opened Common
  import opened AggregationWindows
  import opened AggregateModel
  import opened AggregateRuns
  import opened AggregateLog
  import opened AggregateWritten
  import opened PackedEventCodes

  /** The event code that the encoder puts on an observation of a numeric series. */
  function Label(s: Series): nat
    requires s.NumericSeries?
  {
    EmittedLabel(s.code)
  }

  lemma LabelIsLowHalf(key: ReportKey, cell: Cell, w: nat)
    ensures Label(CellSeries(key, cell, w)) == cell.code % UINT32_SIZE
  {
    Unit32();
    PackOfUnpack(cell.code % UINT32_SIZE);
  }

  /** Observations of a logged list of event codes carry that list if and only if its word fits in 32 bits: the first
      three codes below 1024, the fourth below 4, and no more. */
  lemma LabelIsLoggedIff(key: ReportKey, component: string, codes: seq<Code>, w: nat)
    ensures Label(CellSeries(key, Cell(component, Pack(codes)), w)) == Pack(codes) <==> FitsLabel(codes)
  {
    LabelIsLowHalf(key, Cell(component, Pack(codes)), w);
    WordFits(codes);
  }

  /** The run logs only packed event codes that fit in 32 bits. */
  predicate LogsSmallCodes(ops: seq<Op>) {
    forall i :: 0 <= i < |ops| && ops[i].LogNumeric? ==> ops[i].cell.code < UINT32_SIZE
  }

  lemma {:induction false} AcceptedIsSmall(ops: seq<Op>, sys0: System, backfill: nat, oracle: Oracle, key: ReportKey, cell: Cell)
    requires LogsSmallCodes(ops) && Accepted(ops, sys0, backfill, oracle, key, cell) != []
    ensures cell.code < UINT32_SIZE
  {
    var front := ops[..|ops| - 1];
    if Accepted(front, sys0, backfill, oracle, key, cell) != [] {
      AcceptedIsSmall(front, sys0, backfill, oracle, key, cell);
    }
  }

  lemma FoldedIsSmall(ops: seq<Op>, sys0: System, backfill: nat, oracle: Oracle, key: ReportKey, cell: Cell,
                      aggregation: AggregationType, day: nat, w: nat)
    requires LogsSmallCodes(ops) && Fold(aggregation, ValuesIn(Accepted(ops, sys0, backfill, oracle, key, cell), day, w)).Some?
    ensures cell.code < UINT32_SIZE
  {
    AcceptedIsSmall(ops, sys0, backfill, oracle, key, cell);
  }

  lemma SmallCell(s: Series, cell: Cell)
    requires s.NumericSeries? && s == CellSeries(s.report, cell, s.window) && cell.code < UINT32_SIZE
    ensures cell == Cell(s.component, s.code) && Label(s) == s.code
  {
    LabelIsLowHalf(s.report, cell, s.window);
  }

  /** The same of one observation: when its events were logged with such codes, its series names them. */
  lemma TellsNamedEntry(o: Observation, ops: seq<Op>, sys0: System, backfill: nat, oracle: Oracle, report: Report)
    requires o.series.NumericSeries? && TellsLog(o, ops, sys0, backfill, oracle, report) && LogsSmallCodes(ops)
    ensures (o.payload.NumericValue? || o.payload.HistogramValue?) && Label(o.series) == o.series.code
    ensures var s := o.series;
            var logged := Accepted(ops, sys0, backfill, oracle, s.report, Cell(s.component, s.code));
            Fold(report.config.aggregation, ValuesIn(logged, o.day, s.window)) == Some(o.payload.value)
  {
    var s := o.series;
    var cell: Cell :|
      && s == CellSeries(s.report, cell, s.window)
      && Fold(report.config.aggregation, ValuesIn(Accepted(ops, sys0, backfill, oracle, s.report, cell), o.day, s.window)) ==
         Some(o.payload.value);
    FoldedIsSmall(ops, sys0, backfill, oracle, s.report, cell, report.config.aggregation, o.day, s.window);
    SmallCell(s, cell);
  }

  /** Over every run that logs only such codes, a written numeric observation names its events truly: its label is the
      packed code that was logged, and its value the fold of the values logged for exactly that code and component. */
  lemma WrittenNamesItsEvents(ops: seq<Op>, store: Store, backfill: nat, oracle: Oracle, order: Order, call: Call, i: nat)
    requires NothingLogged(store) && CollectedBy(ops, call.utc, call.Local()) && InBounds(call, backfill) && LogsSmallCodes(ops)
    requires var sys := Run(ops, Initial(store, backfill), backfill, oracle);
             && (forall k :: k in sys.store ==> ValidWindows(sys.store[k].config.windows))
             && |sys.gen.written| <= i < |GenerateWith(sys, order, call, backfill, oracle).0.written|
             && GenerateWith(sys, order, call, backfill, oracle).0.written[i].series.NumericSeries?
    ensures var sys := Run(ops, Initial(store, backfill), backfill, oracle);
            var o := GenerateWith(sys, order, call, backfill, oracle).0.written[i];
            var s := o.series;
            && s.report in sys.store && (o.payload.NumericValue? || o.payload.HistogramValue?)
            && Label(s) == s.code
            && Fold(sys.store[s.report].config.aggregation,
                    ValuesIn(Accepted(ops, Initial(store, backfill), backfill, oracle, s.report, Cell(s.component, s.code)), o.day, s.window))
               == Some(o.payload.value)
  {
    WrittenFollowsLog(ops, store, backfill, oracle, order, call, i);
    var sys := Run(ops, Initial(store, backfill), backfill, oracle);
    var o := GenerateWith(sys, order, call, backfill, oracle).0.written[i];
    TellsNamedEntry(o, ops, Initial(store, backfill), backfill, oracle, sys.store[o.series.report]);
  }
}
