/** The aggregation windows of a locally aggregated report: how a report definition's
    windows are validated and sorted before they are stored (aggregate_store.cc, PopulateReportAggregates). */
module AggregationWindows {

  const MAX_AGGREGATION_DAYS: nat := 365
  const MAX_AGGREGATION_HOURS: nat := 23

  datatype Window = Days(days: nat) | Hours(hours: nat) | Unset

  predicate InRange(w: Window) {
    match w
    case Days(n) => 1 <= n <= 365
    case Hours(n) => 1 <= n <= 23
    case Unset => true
  }

  /** All hourly windows come before all daily ones; sizes ascend within each kind. */
  predicate Precedes(v: Window, w: Window) {
    match (v, w)
    case (Hours(m), Hours(n)) => m <= n
    case (Days(m), Days(n)) => m <= n
    case (Hours(_), Days(_)) => true
    case _ => false
  }

  /** What every stored configuration promises about its windows. */
  predicate ValidWindows(ws: seq<Window>) {
    && (forall i :: 0 <= i < |ws| ==> InRange(ws[i]) && ws[i] != Unset)
    && (forall i, j :: 0 <= i < j < |ws| ==> Precedes(ws[i], ws[j]))
  }

  /** The windows of a list whose unit is set. */
  function Known(ws: seq<Window>): seq<Window> {
    if ws == [] then []
    else
      var last := ws[|ws| - 1];
      Known(ws[..|ws| - 1]) + (if last == Unset then [] else [last])
  }

  function AsDays(sizes: seq<nat>): seq<Window> {
    seq(|sizes|, i requires 0 <= i < |sizes| => Days(sizes[i]))
  }

  /** The windows a report asks for: its window sizes, as days, and its known aggregation windows. */
  function Requested(sizes: seq<nat>, ws: seq<Window>): seq<Window> {
    AsDays(sizes) + Known(ws)
  }

  function Size(w: Window): nat {
    match w
    case Days(n) => n
    case Hours(n) => n
    case Unset => 0
  }

  predicate Ascending(s: seq<Window>) {
    forall i, j :: 0 <= i < j < |s| ==> Size(s[i]) <= Size(s[j])
  }

  function Insert(x: Window, s: seq<Window>): seq<Window> {
    if s == [] || Size(x) <= Size(s[0]) then [x] + s else [s[0]] + Insert(x, s[1..])
  }

  /** std::sort on a vector of windows of one kind. */
  function Sort(s: seq<Window>): seq<Window> {
    if s == [] then [] else Insert(s[0], Sort(s[1..]))
  }

  lemma {:induction false} InsertBag(x: Window, s: seq<Window>)
    ensures multiset(Insert(x, s)) == multiset(s) + multiset{x}
  {
    if !(s == [] || Size(x) <= Size(s[0])) {
      InsertBag(x, s[1..]);
      assert s == [s[0]] + s[1..];
    }
  }

  lemma {:induction false} InsertAscends(x: Window, s: seq<Window>)
    requires Ascending(s)
    ensures Ascending(Insert(x, s))
  {
    if !(s == [] || Size(x) <= Size(s[0])) {
      InsertAscends(x, s[1..]);
      var rest := Insert(x, s[1..]);
      forall j | 0 <= j < |rest| ensures Size(s[0]) <= Size(rest[j]) {
        InsertBag(x, s[1..]);
        assert rest[j] in multiset(rest);
        assert rest[j] in s[1..] || rest[j] == x;
      }
    }
  }

  lemma {:induction false} SortCorrect(s: seq<Window>)
    ensures Ascending(Sort(s)) && multiset(Sort(s)) == multiset(s)
  {
    if s != [] {
      SortCorrect(s[1..]);
      InsertAscends(s[0], Sort(s[1..]));
      InsertBag(s[0], Sort(s[1..]));
      assert s == [s[0]] + s[1..];
    }
  }

  predicate AllDays(s: seq<Window>) { forall i :: 0 <= i < |s| ==> s[i].Days? && InRange(s[i]) }

  predicate AllHours(s: seq<Window>) { forall i :: 0 <= i < |s| ==> s[i].Hours? && InRange(s[i]) }

  lemma SameBagSameKind(s: seq<Window>, t: seq<Window>)
    requires multiset(s) == multiset(t)
    ensures AllDays(s) ==> AllDays(t)
    ensures AllHours(s) ==> AllHours(t)
  {
    forall i | 0 <= i < |t| ensures t[i] in s { assert t[i] in multiset(s); }
  }

  lemma KindsInOrder(h: seq<Window>, d: seq<Window>)
    requires AllHours(h) && AllDays(d) && Ascending(h) && Ascending(d)
    ensures ValidWindows(h + d)
  {
    var ws := h + d;
    forall i, j | 0 <= i < j < |ws| ensures Precedes(ws[i], ws[j]) {
      if j < |h| {
        assert Size(h[i]) <= Size(h[j]);
      } else if i >= |h| {
        assert Size(d[i - |h|]) <= Size(d[j - |h|]);
      }
    }
  }

  /** Sorted hours followed by sorted days are the stored form of the two lists. */
  lemma SortedKinds(hours: seq<Window>, days: seq<Window>)
    requires AllHours(hours) && AllDays(days)
    ensures ValidWindows(Sort(hours) + Sort(days))
    ensures multiset(Sort(hours) + Sort(days)) == multiset(hours) + multiset(days)
  {
    SortCorrect(hours);
    SortCorrect(days);
    SameBagSameKind(hours, Sort(hours));
    SameBagSameKind(days, Sort(days));
    KindsInOrder(Sort(hours), Sort(days));
  }

  /** The window sizes of a report, as days; refused when one is out of range. */
  method CollectSizes(sizes: seq<nat>) returns (ok: bool, days: seq<Window>)
    ensures ok <==> forall i :: 0 <= i < |sizes| ==> InRange(Days(sizes[i]))
    ensures ok ==> AllDays(days) && days == AsDays(sizes)
  {
    days := [];
    for i := 0 to |sizes|
      invariant forall k :: 0 <= k < i ==> InRange(Days(sizes[k]))
      invariant |days| == i && forall k :: 0 <= k < i ==> days[k] == Days(sizes[k])
    {
      if sizes[i] == 0 || sizes[i] > MAX_AGGREGATION_DAYS {
        return false, days;
      }
      days := days + [Days(sizes[i])];
    }
    ok := true;
  }

  function DaysAmong(ws: seq<Window>): seq<Window> {
    if ws == [] then []
    else
      var last := ws[|ws| - 1];
      DaysAmong(ws[..|ws| - 1]) + (if last.Days? then [last] else [])
  }

  function HoursAmong(ws: seq<Window>): seq<Window> {
    if ws == [] then []
    else
      var last := ws[|ws| - 1];
      HoursAmong(ws[..|ws| - 1]) + (if last.Hours? then [last] else [])
  }

  lemma {:induction false} KindsInRange(ws: seq<Window>)
    requires forall i :: 0 <= i < |ws| ==> InRange(ws[i])
    ensures AllHours(HoursAmong(ws)) && AllDays(DaysAmong(ws))
  {
    if ws != [] {
      KindsInRange(ws[..|ws| - 1]);
    }
  }

  lemma {:induction false} KindsCount(ws: seq<Window>, w: Window)
    ensures multiset(HoursAmong(ws))[w] + multiset(DaysAmong(ws))[w] == multiset(Known(ws))[w]
  {
    if ws != [] {
      KindsCount(ws[..|ws| - 1], w);
    }
  }

  /** The aggregation windows of a report by kind; refused when one is out of range. */
  method SplitWindows(ws: seq<Window>) returns (ok: bool, hours: seq<Window>, days: seq<Window>)
    ensures ok <==> forall i :: 0 <= i < |ws| ==> InRange(ws[i])
    ensures ok ==> hours == HoursAmong(ws) && days == DaysAmong(ws)
  {
    hours, days := [], [];
    for i := 0 to |ws|
      invariant forall k :: 0 <= k < i ==> InRange(ws[k])
      invariant hours == HoursAmong(ws[..i]) && days == DaysAmong(ws[..i])
    {
      assert ws[..i + 1][..i] == ws[..i];
      match ws[i] {
        case Days(n) =>
          if n == 0 || n > MAX_AGGREGATION_DAYS {
            return false, hours, days;
          }
          days := days + [ws[i]];
        case Hours(n) =>
          if n == 0 || n > MAX_AGGREGATION_HOURS {
            return false, hours, days;
          }
          hours := hours + [ws[i]];
        case Unset =>
      }
    }
    assert ws[..|ws|] == ws;
    ok := true;
  }

  lemma SortCount(s: seq<Window>, w: Window)
    ensures multiset(Sort(s))[w] == multiset(s)[w]
  {
    SortCorrect(s);
  }

  /** Sorting the two kinds and appending them keeps each requested window's number of occurrences. */
  lemma MergedCount(sizes: seq<nat>, ws: seq<Window>, w: Window)
    ensures multiset(Sort(HoursAmong(ws)) + Sort(AsDays(sizes) + DaysAmong(ws)))[w] ==
            multiset(Requested(sizes, ws))[w]
  {
    var h, a, d := HoursAmong(ws), AsDays(sizes), DaysAmong(ws);
    assert multiset(Sort(h) + Sort(a + d))[w] == multiset(h)[w] + multiset(a + d)[w] by {
      SortCount(h, w);
      SortCount(a + d, w);
    }
    KindsCount(ws, w);
  }

  lemma MergedWindows(sizes: seq<nat>, ws: seq<Window>)
    requires AllDays(AsDays(sizes)) && forall i :: 0 <= i < |ws| ==> InRange(ws[i])
    ensures ValidWindows(Sort(HoursAmong(ws)) + Sort(AsDays(sizes) + DaysAmong(ws)))
    ensures multiset(Sort(HoursAmong(ws)) + Sort(AsDays(sizes) + DaysAmong(ws))) == multiset(Requested(sizes, ws))
  {
    KindsInRange(ws);
    SortedKinds(HoursAmong(ws), AsDays(sizes) + DaysAmong(ws));
    var merged := Sort(HoursAmong(ws)) + Sort(AsDays(sizes) + DaysAmong(ws));
    forall w: Window ensures multiset(merged)[w] == multiset(Requested(sizes, ws))[w] {
      MergedCount(sizes, ws, w);
    }
  }

  /** The requests that are accepted: non-empty ones whose sizes are all in range. */
  predicate Acceptable(sizes: seq<nat>, ws: seq<Window>) {
    && (sizes != [] || ws != [])
    && (forall i :: 0 <= i < |sizes| ==> 1 <= sizes[i] <= 365)
    && (forall i :: 0 <= i < |ws| ==> (ws[i].Days? ==> 1 <= ws[i].days <= 365) && (ws[i].Hours? ==> 1 <= ws[i].hours <= 23))
  }

  /** GetSortedAggregationWindowsFromReport: accepts exactly the non-empty requests whose sizes are all in range,
      and stores the requested windows, none lost and none added, in ascending order. A window whose unit is not
      set is only logged: it is neither stored nor a reason to refuse. */
  method GetSortedAggregationWindows(sizes: seq<nat>, ws: seq<Window>) returns (ok: bool, sorted: seq<Window>)
    ensures ok <==> Acceptable(sizes, ws)
    ensures ok ==> ValidWindows(sorted) && multiset(sorted) == multiset(Requested(sizes, ws))
    ensures !ok ==> sorted == []
  {
    sorted := [];
    if |sizes| == 0 && |ws| == 0 {
      return false, sorted;
    }
    var sizesOk, sizeDays := CollectSizes(sizes);
    if !sizesOk {
      return false, sorted;
    }
    var hours, days;
    ok, hours, days := SplitWindows(ws);
    if ok {
      MergedWindows(sizes, ws);
      sorted := Sort(hours) + Sort(sizeDays + days);
    }
  }
}
