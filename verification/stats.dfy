/**
 * The stats page: the period window over the fetched records
 * (`getFilteredRecords`), the five summary figures (`calculateStats`), the
 * direction of the change and the distance to the target weight.
 *
 * The current instant is a parameter: a calendar day and the fraction of it
 * already elapsed. A record's date parses as the first instant of its day,
 * so a record on the cutoff day is in the window only when the cutoff falls
 * exactly at midnight.
 */
module Stats {
  import opened Optional
  import opened Numbers
  import opened Dates
  import opened Records
  import opened Chart

  /** A fraction of a day: the time of day of an instant. */
  type DayFraction = t: real | 0.0 <= t < 1.0

  /** `new Date()`: a day and the time elapsed on it. */
  datatype Instant = Instant(date: Date, time: DayFraction)

  /** The window's lower bound: a day count and the time of day carried over from `now`. */
  datatype Cutoff = Cutoff(day: int, time: DayFraction)

  /**
   * `setDate(now.getDate() - 7)`, `setDate(now.getDate() - 28)` and
   * `setMonth(now.getMonth() - 6)` on a copy of `now`: the time of day is kept.
   */
  function CutoffOf(p: Period, now: Instant): Cutoff
  {
    match p
    case Daily => Cutoff(DayNumber(now.date) - 7, now.time)
    case Weekly => Cutoff(DayNumber(now.date) - 28, now.time)
    case Monthly => Cutoff(ShiftMonths(now.date, -6), now.time)
  }

  /** `new Date(r.date) >= cutoff`, with the record at the start of its day. */
  predicate InWindow(r: WeightRecord, c: Cutoff)
  {
    DayNumber(r.date) as real >= c.day as real + c.time
  }

  /** `filter(...)`: the records in the window, in list order. */
  function KeepSince(s: seq<WeightRecord>, c: Cutoff): (r: seq<WeightRecord>)
    ensures forall i :: 0 <= i < |r| ==> InWindow(r[i], c)
    ensures forall x :: multiset(r)[x] == if InWindow(x, c) then multiset(s)[x] else 0
  {
    if |s| == 0 then []
    else
      var init, x := s[..|s| - 1], s[|s| - 1];
      assert s == init + [x];
      KeepSince(init, c) + (if InWindow(x, c) then [x] else [])
  }

  /** Filtering keeps a sorted list sorted. */
  lemma {:induction false} KeepSinceSorted(s: seq<WeightRecord>, c: Cutoff, newestFirst: bool)
    requires SortedByDate(s, newestFirst)
    ensures SortedByDate(KeepSince(s, c), newestFirst)
  {
    if |s| > 0 {
      var init, x := s[..|s| - 1], s[|s| - 1];
      assert SortedByDate(init, newestFirst);
      KeepSinceSorted(init, c, newestFirst);
      var k := KeepSince(init, c);
      if InWindow(x, c) {
        forall i | 0 <= i < |k|
          ensures Rank(k[i], newestFirst) <= Rank(x, newestFirst)
        {
          assert multiset(k)[k[i]] > 0;
          var j := IndexIn(init, k[i], multiset(init));
          assert init[j] == s[j];
        }
        var r := k + [x];
        forall a, b | 0 <= a < b < |r|
          ensures Rank(r[a], newestFirst) <= Rank(r[b], newestFirst)
        {
          if b == |k| {
            assert r[a] == k[a];
          } else {
            assert r[a] == k[a] && r[b] == k[b];
          }
        }
      }
    }
  }

  /**
   * `getFilteredRecords()`: the records on or after the period's cutoff,
   * newest first.
   */
  function FilterWindow(records: seq<WeightRecord>, p: Period, now: Instant): (r: seq<WeightRecord>)
    ensures SortedByDate(r, true)
    ensures forall i :: 0 <= i < |r| ==> InWindow(r[i], CutoffOf(p, now))
    ensures forall x :: multiset(r)[x] == if InWindow(x, CutoffOf(p, now)) then multiset(records)[x] else 0
  {
    if |records| == 0 then []
    else
      var sorted := SortByDate(records, true);
      KeepSinceSorted(sorted, CutoffOf(p, now), true);
      KeepSince(sorted, CutoffOf(p, now))
  }

  /** The daily window holds the records of the last seven days, the seventh one only at midnight. */
  lemma DailyWindow(r: WeightRecord, now: Instant)
    ensures InWindow(r, CutoffOf(Daily, now)) <==>
      var age := DayNumber(now.date) - DayNumber(r.date);
      age < 7 || (age == 7 && now.time == 0.0)
  {
  }

  /** The weekly window holds the records of the last 28 days, the 28th one only at midnight. */
  lemma WeeklyWindow(r: WeightRecord, now: Instant)
    ensures InWindow(r, CutoffOf(Weekly, now)) <==>
      var age := DayNumber(now.date) - DayNumber(r.date);
      age < 28 || (age == 28 && now.time == 0.0)
  {
  }

  /**
   * The monthly window starts on the same day of the month six months
   * earlier, when that day exists: a record is in it when it is later than
   * that day, or on it at midnight.
   */
  lemma MonthlyWindow(r: WeightRecord, now: Instant)
    requires ValidYmd(Ymd(now.date.year + (now.date.month - 7) / 12, (now.date.month - 7) % 12 + 1, now.date.day))
    ensures var start: Date := Ymd(now.date.year + (now.date.month - 7) / 12, (now.date.month - 7) % 12 + 1, now.date.day);
      InWindow(r, CutoffOf(Monthly, now)) <==> Before(start, r.date) || (r.date == start && now.time == 0.0)
  {
    var start: Date := Ymd(now.date.year + (now.date.month - 7) / 12, (now.date.month - 7) % 12 + 1, now.date.day);
    assert ShiftMonths(now.date, -6) == DayNumber(start);
    WindowFromStart(r, CutoffOf(Monthly, now), start);
  }

  /**
   * When that day does not exist (31 August back to "31 February"), the
   * window starts as many days into the following month as the day
   * overshoots the shorter month, the way `setMonth` rolls over.
   */
  lemma MonthlyWindowRollOver(r: WeightRecord, now: Instant)
    requires var m0 := now.date.month - 7;
      1 <= now.date.year + m0 / 12 && now.date.day > DaysInMonth(now.date.year + m0 / 12, m0 % 12 + 1)
    ensures var m0 := now.date.month - 7;
            var y, m := now.date.year + m0 / 12, m0 % 12 + 1;
            var start: Date := Ymd(y, m + 1, now.date.day - DaysInMonth(y, m));
      InWindow(r, CutoffOf(Monthly, now)) <==> Before(start, r.date) || (r.date == start && now.time == 0.0)
  {
    var m0 := now.date.month - 7;
    var y, m := now.date.year + m0 / 12, m0 % 12 + 1;
    var start: Date := Ymd(y, m + 1, now.date.day - DaysInMonth(y, m));
    assert ShiftMonths(now.date, -6) == DayNumber(start);
    WindowFromStart(r, CutoffOf(Monthly, now), start);
  }

  /** A window whose cutoff falls on `start` holds the records after it, and those on it at midnight. */
  lemma WindowFromStart(r: WeightRecord, c: Cutoff, start: Date)
    requires c.day == DayNumber(start)
    ensures InWindow(r, c) <==> Before(start, r.date) || (r.date == start && c.time == 0.0)
  {
    DayNumberCompare(start, r.date);
  }

  /** The five figures of the summary cards. */
  datatype Summary = Summary(avg: real, max: real, min: real, change: real, latest: real)

  /** The all-zero summary of an empty window. */
  const NoStats := Summary(0.0, 0.0, 0.0, 0.0, 0.0)

  /** The oldest and the newest record of a non-empty window, by the stable ascending sort. */
  function Oldest(f: seq<WeightRecord>): (r: WeightRecord)
    requires |f| > 0
    ensures r in f
    ensures forall j :: 0 <= j < |f| ==> DayNumber(r.date) <= DayNumber(f[j].date)
  {
    var sorted := SortByDate(f, false);
    SortedFirstIsOldest(f, sorted);
    assert sorted[0] in multiset(f);
    sorted[0]
  }

  function Newest(f: seq<WeightRecord>): (r: WeightRecord)
    requires |f| > 0
    ensures r in f
    ensures forall j :: 0 <= j < |f| ==> DayNumber(f[j].date) <= DayNumber(r.date)
  {
    var sorted := SortByDate(f, false);
    SortedLastIsNewest(f, sorted);
    assert sorted[|sorted| - 1] in multiset(f);
    sorted[|sorted| - 1]
  }

  lemma SortedFirstIsOldest(data: seq<WeightRecord>, sorted: seq<WeightRecord>)
    requires multiset(data) == multiset(sorted) && |sorted| > 0
    requires SortedByDate(sorted, false)
    ensures forall x :: 0 <= x < |data| ==> DayNumber(sorted[0].date) <= DayNumber(data[x].date)
  {
    forall x | 0 <= x < |data|
      ensures DayNumber(sorted[0].date) <= DayNumber(data[x].date)
    {
      assert data[x] in multiset(data);
      var y := IndexIn(sorted, data[x], multiset(data));
      assert Rank(sorted[0], false) <= Rank(sorted[y], false);
    }
  }

  /**
   * `calculateStats()`: all zeros for an empty window; otherwise the rounded
   * mean, maximum, minimum and newest-minus-oldest change, and the newest
   * weight unrounded.
   */
  function CalculateStats(f: seq<WeightRecord>): (s: Summary)
    ensures |f| == 0 ==> s == NoStats
    ensures |f| > 0 ==> s.min <= s.avg <= s.max
    ensures |f| > 0 ==>
      && s.avg == Round1(Sum(Weights(f)) / |f| as real)
      && s.max == Round1(Max(Weights(f)))
      && s.min == Round1(Min(Weights(f)))
    ensures |f| > 0 ==> exists i :: 0 <= i < |f| && s.latest == f[i].weight &&
                          (forall j :: 0 <= j < |f| ==> DayNumber(f[j].date) <= DayNumber(f[i].date))
  {
    if |f| == 0 then NoStats
    else
      var ws := Weights(f);
      var avg := Sum(ws) / |ws| as real;
      var first, last := Oldest(f), Newest(f);
      MeanWithinExtremes(f);
      Round1Monotone(Min(ws), avg);
      Round1Monotone(avg, Max(ws));
      Summary(Round1(avg), Round1(Max(ws)), Round1(Min(ws)), Round1(last.weight - first.weight), last.weight)
  }

  /** The mean lies between the extremes before rounding too. */
  lemma MeanWithinExtremes(f: seq<WeightRecord>)
    requires |f| > 0
    ensures var ws := Weights(f);
      Min(ws) <= Sum(ws) / |ws| as real <= Max(ws)
  {
    MeanBetween(Weights(f));
  }

  /** A window whose records all weigh the same shows that weight, rounded, as its mean, maximum and minimum. */
  lemma ConstantWindowStats(f: seq<WeightRecord>, w: real)
    requires |f| > 0
    requires forall i :: 0 <= i < |f| ==> f[i].weight == w
    ensures var s := CalculateStats(f);
      s.avg == Round1(w) && s.max == Round1(w) && s.min == Round1(w)
  {
    var ws := Weights(f);
    assert forall i :: 0 <= i < |ws| ==> ws[i] == w;
    SumBounds(ws, w, w);
    assert Sum(ws) / |ws| as real == w;
  }

  /** The change is the rounded difference between the newest and the oldest record's weight. */
  lemma ChangeIsNewestMinusOldest(f: seq<WeightRecord>)
    requires |f| > 0
    ensures CalculateStats(f).change == Round1(Newest(f).weight - Oldest(f).weight)
    ensures CalculateStats(f).latest == Newest(f).weight
  {
  }

  /** A window of one record: every figure is its weight, rounded, and the change is zero. */
  lemma SingleRecordStats(x: WeightRecord)
    ensures var s := CalculateStats([x]);
      s.avg == s.max == s.min == Round1(x.weight) && s.change == 0.0 && s.latest == x.weight
  {
    var ws := Weights([x]);
    assert ws == [x.weight];
    assert Sum(ws) == x.weight;
    assert Oldest([x]) == x && Newest([x]) == x;
    Round1OfTenths(0);
  }

  /** The icon beside the change. */
  datatype Direction = Up | Down | Flat

  /** `ChangeIcon`: up for a gain, down for a loss, a dash otherwise. */
  function ChangeDirection(change: real): (d: Direction)
    ensures d == Up <==> change > 0.0
    ensures d == Down <==> change < 0.0
    ensures d == Flat <==> change == 0.0
  {
    if change > 0.0 then Up else if change < 0.0 then Down else Flat
  }

  /**
   * The direction shown for a window follows the unrounded difference:
   * up from a gain of 0.05 kg, down from a loss of more than 0.05 kg.
   */
  lemma DirectionOfWindow(f: seq<WeightRecord>)
    requires |f| > 0
    ensures var diff := Newest(f).weight - Oldest(f).weight;
            var d := ChangeDirection(CalculateStats(f).change);
      && (d == Up <==> diff >= 0.05)
      && (d == Down <==> diff < -0.05)
      && (d == Flat <==> -0.05 <= diff < 0.05)
  {
    var diff := Newest(f).weight - Oldest(f).weight;
    Round1Positive(diff);
    Round1Negative(diff);
  }

  /** A summary card's text: the value when it is positive, a dash (`None`) otherwise. */
  function CardValue(v: real): (r: Option<real>)
    ensures r.Some? <==> v > 0.0
    ensures r.Some? ==> r.value == v
  {
    if v > 0.0 then Some(v) else None
  }

  /** An empty window shows a dash on every card and hides the goal card. */
  lemma EmptyWindowShowsDashes(target: Option<real>)
    ensures var s := CalculateStats([]);
      CardValue(s.avg).None? && CardValue(s.max).None? && CardValue(s.min).None? &&
      ChangeDirection(s.change) == Flat && GoalDelta(target, s.latest).None?
  {
  }

  /**
   * The goal card: shown when a target is set and non-zero and the latest
   * weight is positive, holding `Math.round((latest - target) * 10) / 10`.
   */
  function GoalDelta(target: Option<real>, latest: real): (r: Option<real>)
    ensures r.Some? <==> target.Some? && target.value != 0.0 && latest > 0.0
    ensures r.Some? ==> r.value == Round1(latest - target.value)
  {
    if target.Some? && target.value != 0.0 && latest > 0.0 then Some(Round1(latest - target.value))
    else None
  }

  /** The delta is positive exactly when the latest weight is at least 0.05 kg above the target. */
  lemma GoalDeltaSign(target: real, latest: real)
    requires target != 0.0 && latest > 0.0
    ensures GoalDelta(Some(target), latest).value > 0.0 <==> latest - target >= 0.05
    ensures GoalDelta(Some(target), latest).value < 0.0 <==> latest - target < -0.05
  {
    Round1Positive(latest - target);
    Round1Negative(latest - target);
  }

  /**
   * The page's load: the records and the settings are fetched together, and
   * `setRecords` runs only when both responses arrived and both bodies parsed
   * (`settingsLoaded`), and the records body is an array. Otherwise the list
   * stays empty.
   */
  function PageRecords(fetched: ListFetch, settingsLoaded: bool): (r: seq<WeightRecord>)
    ensures fetched.RecordList? && settingsLoaded ==> r == fetched.records
    ensures !fetched.RecordList? || !settingsLoaded ==> r == []
  {
    if fetched.RecordList? && settingsLoaded then fetched.records else []
  }

  /** A failed load of either request gives the zero summary in every period. */
  lemma FailedLoadShowsZeros(fetched: ListFetch, settingsLoaded: bool, p: Period, now: Instant)
    requires !fetched.RecordList? || !settingsLoaded
    ensures CalculateStats(FilterWindow(PageRecords(fetched, settingsLoaded), p, now)) == NoStats
  {
  }
}
