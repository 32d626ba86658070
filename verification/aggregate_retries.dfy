/** The output of runs in which encoding or writing fails any number of times: a call that returns kOK has caught up. Every
    observation of its backfill period that the logged events ask for was then written exactly once, by this call or by
    one that was cut short before it, and nothing else was. */
module AggregateRetries {
  import opened AggregationWindows
  import opened AggregateModel
  import opened AggregateSeries
  import opened AggregateRuns
  import opened AggregateVisible

  /** How often a run wrote an observation. */
  function Count(ops: seq<Op>, backfill: nat, oracle: Oracle, o: Observation): nat {
    multiset(RunOf(ops, backfill, oracle).gen.written)[o]
  }

  /** The series that are written once: those of unique-actives reports, and numeric ones whose window is listed once. */
  predicate Single(v: seq<Op>, s: Series) {
    !s.ParticipationSeries? && (ConfigOf(v, s.report).Some? ==> Copies(ConfigOf(v, s.report).value, s) <= 1)
  }

  /** The events tell the observation now. */
  ghost predicate TellsNow(v: seq<Op>, o: Observation) {
    ConfigOf(v, o.series.report).Some? && Tells(v, ConfigOf(v, o.series.report).value, o)
  }

  /** What holds of an observation for `day` that was written n times, when the history of its series is at `history` and
      calls have reached `reached`: it was not written if the history has not come to its day; if it has, and the day is in
      the backfill period of the latest call, then it was written once or never, as the events tell. */
  predicate Once(history: nat, reached: nat, backfill: nat, day: nat, n: nat, tells: bool) {
    && history <= reached
    && (history < day ==> n == 0)
    && (Start(reached, backfill) <= day <= history ==> n == if tells then 1 else 0)
  }

  ghost predicate OnceSoFar(ops: seq<Op>, backfill: nat, oracle: Oracle, o: Observation) {
    Once(HistoryOf(ops, backfill, oracle, o.series), Reached(Visible(ops), o.series.report), backfill, o.day,
         Count(ops, backfill, oracle, o), TellsNow(Visible(ops), o))
  }

  ghost predicate Assumed(ops: seq<Op>, backfill: nat, oracle: Oracle, o: Observation) {
    && TimelyRun(ops, backfill, oracle) && LabelsApart(Visible(ops)) && Single(Visible(ops), o.series) && 0 < o.day
    && (o.series.UniqueSeries? ==> TimelyActivity(Visible(ops)))
  }

  lemma AssumedBefore(ops: seq<Op>, backfill: nat, oracle: Oracle, o: Observation)
    requires ops != [] && Assumed(ops, backfill, oracle, o)
    ensures Assumed(Front(ops), backfill, oracle, o)
  {
    VisibleStep(ops);
    ConfigStep(ops, o.series.report);
    FrontApart(ops);
  }

  lemma TellsNowKept(ops: seq<Op>, backfill: nat, oracle: Oracle, o: Observation)
    requires ops != [] && Assumed(ops, backfill, oracle, o) && o.day <= Reached(Visible(Front(ops)), o.series.report)
    ensures TellsNow(Visible(ops), o) == TellsNow(Visible(Front(ops)), o)
  {
    var key := o.series.report;
    ConfigStep(ops, key);
    if ConfigOf(Visible(Front(ops)), key).None? {
      ReachedNeedsConfig(Visible(Front(ops)), key);
    } else {
      TellsKept(ops, backfill, oracle, ConfigOf(Visible(ops), key).value, o);
    }
  }

  /** Operations other than generation. */
  lemma OtherStep(ops: seq<Op>, backfill: nat, oracle: Oracle, o: Observation)
    requires ops != [] && Assumed(ops, backfill, oracle, o) && !Last(ops).Generate? && OnceSoFar(Front(ops), backfill, oracle, o)
    ensures OnceSoFar(ops, backfill, oracle, o)
  {
    ReachedStep(ops, o.series.report);
    GenKept(ops, backfill, oracle);
    if o.day <= Reached(Visible(Front(ops)), o.series.report) {
      TellsNowKept(ops, backfill, oracle, o);
    }
  }

  lemma GenKept(ops: seq<Op>, backfill: nat, oracle: Oracle)
    requires ops != [] && !Last(ops).Generate?
    ensures RunOf(ops, backfill, oracle).gen == RunOf(Front(ops), backfill, oracle).gen
  {
  }

  lemma GenMoved(ops: seq<Op>, backfill: nat, oracle: Oracle)
    requires ops != [] && Last(ops).Generate?
    ensures RunOf(ops, backfill, oracle).gen ==
            GenerateWith(RunOf(Front(ops), backfill, oracle), Last(ops).order, Last(ops).call, backfill, oracle).0
  {
  }

  /** A call changes nothing about what the events tell. */
  lemma CallKeepsTells(ops: seq<Op>, o: Observation)
    requires ops != [] && Last(ops).Generate?
    ensures TellsNow(Visible(ops), o) == TellsNow(Visible(Front(ops)), o)
  {
    var v, v', key := Visible(Front(ops)), Visible(ops), o.series.report;
    VisibleStep(ops);
    ConfigStep(ops, key);
    if ConfigOf(v, key).Some? {
      match o.series {
        case UniqueSeries(_, code, w) =>
          assert forall d: nat :: Active(v', key, code, d) == Active(v, key, code, d);
        case NumericSeries(_, _, _, w) =>
          forall cell: Cell ensures TellsValues(v', ConfigOf(v, key).value, o, cell) <==> TellsValues(v, ConfigOf(v, key).value, o, cell) {
            assert Values(v', key, cell) == Values(v, key, cell);
          }
        case ParticipationSeries(_) =>
      }
    }
  }

  // ---------------------------------------------------------------- The next call

  /** The next call, and what it is after. */
  datatype Outcome = Outcome(history: nat, count: nat, ok: bool)

  ghost function OutcomeOf(ops: seq<Op>, backfill: nat, oracle: Oracle, op: Op, o: Observation): Outcome
    requires op.Generate?
  {
    var (gen, status) := GenerateWith(RunOf(ops, backfill, oracle), op.order, op.call, backfill, oracle);
    Outcome(LastGenerated(gen.history, o.series), multiset(gen.written)[o], status == Ok)
  }

  /** A call that generates the series goes on from where the history is, up to some day. */
  lemma GeneratedStep(ops: seq<Op>, backfill: nat, oracle: Oracle, op: Op, final: nat, o: Observation) returns (last: nat)
    requires NextCall(ops, backfill, oracle, op, o.series.report, final) && Single(Visible(ops), o.series)
    requires var store := RunOf(ops, backfill, oracle).store; o.series.report in store && Generates(store[o.series.report], o.series)
    ensures var first := FirstDay(RunOf(ops, backfill, oracle).gen.history, o.series, final, backfill);
            var out := OutcomeOf(ops, backfill, oracle, op, o);
            && (first <= last ==> last <= final) && (out.ok && first <= final ==> last == final)
            && out.history == (if first <= last then last else HistoryOf(ops, backfill, oracle, o.series))
            && out.count == Count(ops, backfill, oracle, o) + if first <= o.day <= last && TellsNow(Visible(ops), o) then 1 else 0
  {
    var sys, s := RunOf(ops, backfill, oracle), o.series;
    StoreFollows(ops, backfill, oracle, s.report);
    SoundReports(ops, backfill, oracle, s.report);
    CallDayIsFinal(ops, backfill, oracle, op, s.report);
    if s.NumericSeries? {
      assert Days(s.window) in multiset(sys.store[s.report].config.windows);
    }
    last := FailingCall(sys.store, op.order, sys.gen, backfill, op.call.utc, op.call.Local(), oracle, final, o);
    if Start(final, backfill) <= o.day <= final {
      AttemptTells(ops, backfill, oracle, op, final, o);
    }
  }

  /** A call that does not generate the series leaves it alone. */
  lemma IdleStep(ops: seq<Op>, backfill: nat, oracle: Oracle, op: Op, o: Observation)
    requires TimelyRun(ops, backfill, oracle) && LabelsApart(Visible(ops)) && op.Generate? && Timely(op, ops, backfill, oracle)
    requires var store := RunOf(ops, backfill, oracle).store;
             CallDay(Visible(ops), o.series.report, op.call).None? || (o.series.report in store && !Generates(store[o.series.report], o.series))
    ensures var out := OutcomeOf(ops, backfill, oracle, op, o);
            out.history == HistoryOf(ops, backfill, oracle, o.series) && out.count == Count(ops, backfill, oracle, o)
  {
    var sys, s := RunOf(ops, backfill, oracle), o.series;
    StoreFollows(ops, backfill, oracle, s.report);
    if s.report in sys.store {
      SoundReports(ops, backfill, oracle, s.report);
      CallDayIsFinal(ops, backfill, oracle, op, s.report);
    }
    IdleCall(sys.store, op.order, sys.gen.history, backfill, op.call.utc, op.call.Local(), s);
    NothingDone(Plan(sys.store, op.order.reports, op.order, sys.gen.history, backfill, op.call.utc, op.call.Local()), sys.gen, oracle, o);
  }

  /** The arithmetic of a call that goes on from day h: n and n' are how often the observation was written. */
  lemma OnceMoved(h: nat, h': nat, reached: nat, final: nat, backfill: nat, day: nat, n: nat, n': nat, tells: bool, first: nat, last: nat)
    requires Once(h, reached, backfill, day, n, tells) && reached <= final
    requires first == (if Start(final, backfill) <= h + 1 then h + 1 else Start(final, backfill)) && (first <= last ==> last <= final)
    requires h' == if first <= last then last else h
    requires n' == n + if first <= day <= last && tells then 1 else 0
    ensures Once(h', final, backfill, day, n', tells)
    ensures (first <= final ==> last == final) && Start(final, backfill) <= day <= final ==> n' == if tells then 1 else 0
  {
  }

  /** And of one that leaves the series at day h. */
  lemma OnceIdle(h: nat, reached: nat, final: nat, backfill: nat, day: nat, n: nat, tells: bool)
    requires Once(h, reached, backfill, day, n, tells) && reached <= final
    requires Start(final, backfill) <= day <= final ==> !tells
    ensures Once(h, final, backfill, day, n, tells)
    ensures Start(final, backfill) <= day <= final ==> n == 0
  {
  }

  /** The next call keeps the invariant, and if it returns kOK then it has caught up. */
  lemma NextKeepsOnce(ops: seq<Op>, backfill: nat, oracle: Oracle, op: Op, final: nat, o: Observation)
    requires NextCall(ops, backfill, oracle, op, o.series.report, final) && Single(Visible(ops), o.series) && OnceSoFar(ops, backfill, oracle, o)
    ensures var out, tells := OutcomeOf(ops, backfill, oracle, op, o), TellsNow(Visible(ops), o);
            && Once(out.history, final, backfill, o.day, out.count, tells)
            && (out.ok && Start(final, backfill) <= o.day <= final ==> out.count == if tells then 1 else 0)
  {
    var sys, s, v := RunOf(ops, backfill, oracle), o.series, Visible(ops);
    var h, n, tells := HistoryOf(ops, backfill, oracle, s), Count(ops, backfill, oracle, o), TellsNow(v, o);
    StoreFollows(ops, backfill, oracle, s.report);
    ReachedBeforeCall(ops, backfill, oracle, op, s.report, final);
    var out := OutcomeOf(ops, backfill, oracle, op, o);
    if Generates(sys.store[s.report], s) {
      var last := GeneratedStep(ops, backfill, oracle, op, final, o);
      OnceMoved(h, out.history, Reached(v, s.report), final, backfill, o.day, n, out.count, tells,
                FirstDay(sys.gen.history, s, final, backfill), last);
    } else {
      IdleStep(ops, backfill, oracle, op, o);
      if Start(final, backfill) <= o.day <= final {
        AttemptTells(ops, backfill, oracle, op, final, o);
      }
      OnceIdle(h, Reached(v, s.report), final, backfill, o.day, n, tells);
    }
  }

  lemma CallStep(ops: seq<Op>, backfill: nat, oracle: Oracle, o: Observation)
    requires ops != [] && Assumed(ops, backfill, oracle, o) && Last(ops).Generate? && OnceSoFar(Front(ops), backfill, oracle, o)
    ensures OnceSoFar(ops, backfill, oracle, o)
  {
    var front, op, key := Front(ops), Last(ops), o.series.report;
    AssumedBefore(ops, backfill, oracle, o);
    ReachedStep(ops, key);
    GenMoved(ops, backfill, oracle);
    CallKeepsTells(ops, o);
    var final := CallDay(Visible(front), key, op.call);
    if final.None? {
      IdleStep(front, backfill, oracle, op, o);
    } else {
      NextKeepsOnce(front, backfill, oracle, op, final.value, o);
    }
  }

  // ---------------------------------------------------------------- Whole runs

  /** The invariant over every timely run, whatever fails in it. */
  lemma {:induction false} AlwaysOnce(ops: seq<Op>, backfill: nat, oracle: Oracle, o: Observation)
    requires Assumed(ops, backfill, oracle, o)
    ensures OnceSoFar(ops, backfill, oracle, o)
  {
    if ops != [] {
      AssumedBefore(ops, backfill, oracle, o);
      AlwaysOnce(Front(ops), backfill, oracle, o);
      if Last(ops).Generate? {
        CallStep(ops, backfill, oracle, o);
      } else {
        OtherStep(ops, backfill, oracle, o);
      }
    }
  }

  /** Exactly once, with the right content, despite failures: after any timely run in which encoding and writing fail any
      number of times, a call that returns kOK leaves every observation for a day of its backfill period written exactly
      once if the logged events tell it, and never otherwise. */
  lemma CaughtUp(ops: seq<Op>, backfill: nat, oracle: Oracle, op: Op, final: nat, o: Observation)
    requires Assumed(ops, backfill, oracle, o) && NextCall(ops, backfill, oracle, op, o.series.report, final)
    requires final - backfill <= o.day <= final && OutcomeOf(ops, backfill, oracle, op, o).ok
    ensures OutcomeOf(ops, backfill, oracle, op, o).count == if TellsNow(Visible(ops), o) then 1 else 0
  {
    AlwaysOnce(ops, backfill, oracle, o);
    ReachedBeforeCall(ops, backfill, oracle, op, o.series.report, final);
    NextKeepsOnce(ops, backfill, oracle, op, final, o);
  }

  /** So garbage collection, iteration order and failures are invisible once a call has returned kOK: two timely runs with
      the same registrations, events and days of calls agree on every observation for a day of the backfill period. */
  lemma SameOnceCaughtUp(ops: seq<Op>, ops': seq<Op>, backfill: nat, oracle: Oracle, oracle': Oracle, op: Op, op': Op,
                         final: nat, o: Observation)
    requires Visible(ops) == Visible(ops') && final - backfill <= o.day <= final
    requires Assumed(ops, backfill, oracle, o) && NextCall(ops, backfill, oracle, op, o.series.report, final)
    requires Assumed(ops', backfill, oracle', o) && NextCall(ops', backfill, oracle', op', o.series.report, final)
    requires OutcomeOf(ops, backfill, oracle, op, o).ok && OutcomeOf(ops', backfill, oracle', op', o).ok
    ensures OutcomeOf(ops, backfill, oracle, op, o).count == OutcomeOf(ops', backfill, oracle', op', o).count
  {
    CaughtUp(ops, backfill, oracle, op, final, o);
    CaughtUp(ops', backfill, oracle', op', final, o);
  }
}
