/**
 * The dashboard's year-of-activity heatmap: the last 365 days laid out in columns of
 * seven rows with Monday on top, one column per week, each column followed by a
 * month-label cell; plus the 20-minute colour bands of a day cell and the reading of
 * the stats reply into the page state that feeds the grid and the streak badges.
 */
module Heatmap {
  import opened Wrappers
  import opened Calendar
  import opened Records
  import opened Activity

  /** The grid covers today - DaysShown + 1 .. today. */
  const DaysShown: int := 365

  /** Row of a day when Monday is the top row: Monday 0, ..., Sunday 6. */
  function MondayRow(d: Day): (r: int)
    ensures 0 <= r <= 6
    ensures r == 0 <==> Weekday(d) == 1
  {
    (Weekday(d) + 6) % 7
  }

  /** `startDay === 0 ? 6 : startDay - 1`: the number of blank cells before the first day. */
  function MondayOffset(start: Day): (offset: int)
    ensures 0 <= offset <= 6
    ensures offset == MondayRow(start)
    ensures Weekday(start - offset) == 1
  {
    var startDay := Weekday(start);
    if startDay == 0 then 6 else startDay - 1
  }

  /** The day cells before grouping: the blank offset, then the 365 days from today - 364. */
  function AllDays(today: Day): (cells: seq<Option<Day>>)
    ensures |cells| == MondayOffset(today - DaysShown + 1) + DaysShown
  {
    var start := today - DaysShown + 1;
    var offset := MondayOffset(start);
    seq(offset + DaysShown, j requires 0 <= j < offset + DaysShown => if j < offset then None else Some(start + j - offset))
  }

  /** The offset blanks come first, then every day of the window once, in order. */
  lemma AllDaysShape(today: Day)
    ensures var offset := MondayOffset(today - DaysShown + 1);
      (forall j :: 0 <= j < offset ==> AllDays(today)[j].None?)
      && (forall j :: offset <= j < offset + DaysShown ==> AllDays(today)[j] == Some(today - DaysShown + 1 + j - offset))
  {
  }

  /** Every day sits in its own weekday's row: Monday on top, Sunday at the bottom. */
  lemma AllDaysAligned(today: Day)
    ensures forall j :: 0 <= j < |AllDays(today)| && AllDays(today)[j].Some? ==>
      j % 7 == MondayRow(AllDays(today)[j].value)
  {
    var start := today - DaysShown + 1;
    var offset := MondayOffset(start);
    forall j | 0 <= j < |AllDays(today)| && AllDays(today)[j].Some?
      ensures j % 7 == MondayRow(AllDays(today)[j].value)
    {
      assert AllDays(today)[j].value == start + (j - offset);
      RowAfter(start, j - offset);
    }
  }

  /** The row of a day i days after another is i rows further down, wrapping at seven. */
  lemma RowAfter(start: Day, i: nat)
    ensures (MondayRow(start) + i) % 7 == MondayRow(start + i)
  {
    RowIs(start);
    RowIs(start + i);
    ModSum(start + 10, i);
    assert start + 10 + i == start + i + 10;
  }

  lemma RowIs(d: Day)
    ensures MondayRow(d) == (d + 10) % 7
  {
    ModSum(d + 4, 6);
  }

  /** Reducing the first addend modulo seven does not change the sum's remainder. */
  lemma ModSum(x: int, y: int)
    ensures (x % 7 + y) % 7 == (x + y) % 7
  {
    var q := x / 7;
    assert x == 7 * q + x % 7;
    assert x + y == (x % 7 + y) + 7 * q;
  }

  /** The loops that fill `allDays`. */
  method CollectDays(today: Day) returns (allDays: seq<Option<Day>>)
    ensures allDays == AllDays(today)
  {
    var start := today - DaysShown + 1;
    var startDay := Weekday(start);
    var offset := if startDay == 0 then 6 else startDay - 1;
    allDays := [];
    for i := 0 to offset
      invariant |allDays| == i && forall j :: 0 <= j < i ==> allDays[j].None?
    {
      allDays := allDays + [None];
    }
    for i := 0 to DaysShown
      invariant |allDays| == offset + i
      invariant forall j :: 0 <= j < offset ==> allDays[j].None?
      invariant forall j :: offset <= j < offset + i ==> allDays[j] == Some(start + j - offset)
    {
      allDays := allDays + [Some(start + i)];
    }
    assert forall j :: 0 <= j < |allDays| ==> allDays[j] == AllDays(today)[j];
  }

  // ---------------------------------------------------------------------------
  // Weeks
  // ---------------------------------------------------------------------------

  function Blanks(n: nat): (s: seq<Option<Day>>)
    ensures |s| == n && forall i :: 0 <= i < n ==> s[i].None?
  {
    seq(n, _ => None)
  }

  /** The cells cut into runs of seven, the last run padded with blanks. */
  function Weeks(cells: seq<Option<Day>>): (ws: seq<seq<Option<Day>>>)
    ensures |ws| == (|cells| + 6) / 7
    ensures forall k :: 0 <= k < |ws| ==> |ws[k]| == 7
  {
    var full := |cells| / 7;
    seq(full, k requires 0 <= k < full => cells[7 * k..7 * k + 7])
      + (if |cells| % 7 == 0 then [] else [cells[7 * full..] + Blanks(7 - |cells| % 7)])
  }

  /** Reading the weeks in order gives back the cells followed by blanks only. */
  lemma WeeksKeepCells(cells: seq<Option<Day>>)
    ensures forall j :: 0 <= j < 7 * |Weeks(cells)| ==>
      Weeks(cells)[j / 7][j % 7] == if j < |cells| then cells[j] else None
  {
    var ws := Weeks(cells);
    var full := |cells| / 7;
    forall j | 0 <= j < 7 * |ws|
      ensures ws[j / 7][j % 7] == if j < |cells| then cells[j] else None
    {
      var k := j / 7;
      if k < full {
        assert ws[k] == cells[7 * k..7 * k + 7];
      } else {
        assert ws[k] == cells[7 * full..] + Blanks(7 - |cells| % 7);
      }
    }
  }

  /** The `currentWeek` loop that groups the cells, and the padding of the last week. */
  method GroupWeeks(cells: seq<Option<Day>>) returns (weeks: seq<seq<Option<Day>>>)
    ensures weeks == Weeks(cells)
  {
    weeks := [];
    var current: seq<Option<Day>> := [];
    for i := 0 to |cells|
      invariant 7 * |weeks| <= i < 7 * |weeks| + 7
      invariant current == cells[7 * |weeks|..i]
      invariant forall k :: 0 <= k < |weeks| ==> weeks[k] == cells[7 * k..7 * k + 7]
    {
      current := current + [cells[i]];
      if |current| == 7 {
        weeks := weeks + [current];
        current := [];
      }
    }
    var full := |cells| / 7;
    WholeWeeks(|cells|, |weeks|);
    assert weeks == seq(full, k requires 0 <= k < full => cells[7 * k..7 * k + 7]);
    assert current == cells[7 * full..] && |current| == |cells| % 7;
    if |current| > 0 {
      current := PadWeek(current);
      weeks := weeks + [current];
    }
  }

  /** n cells hold w whole weeks and a partial one of n % 7 cells. */
  lemma WholeWeeks(n: nat, w: nat)
    requires 7 * w <= n < 7 * w + 7
    ensures n / 7 == w && n % 7 == n - 7 * w
  {
  }

  /** The padding loop: blanks up to seven cells. */
  method PadWeek(current: seq<Option<Day>>) returns (week: seq<Option<Day>>)
    requires |current| <= 7
    ensures week == current + Blanks(7 - |current|)
  {
    week := current;
    while |week| < 7
      invariant |current| <= |week| <= 7
      invariant week == current + Blanks(|week| - |current|)
      decreases 7 - |week|
    {
      week := week + [None];
    }
  }

  // ---------------------------------------------------------------------------
  // Day data and colours
  // ---------------------------------------------------------------------------

  /** `activityMap.get(dateStr)?.minutes || 0`: the minutes of the last entry for the day, 0 without one. */
  function LatestMinutes(activity: seq<Bucket>, d: Day): real
    decreases |activity|
  {
    if activity == [] then 0.0
    else if activity[|activity| - 1].day == d then activity[|activity| - 1].minutes
    else LatestMinutes(activity[..|activity| - 1], d)
  }

  /** The `activityMap` loop: a later entry for a day replaces an earlier one. */
  method IndexByDay(activity: seq<Bucket>) returns (activityMap: map<Day, real>)
    ensures forall d :: Lookup(activityMap, d) == LatestMinutes(activity, d)
  {
    activityMap := map[];
    for i := 0 to |activity|
      invariant forall d :: Lookup(activityMap, d) == LatestMinutes(activity[..i], d)
    {
      assert activity[..i + 1][..i] == activity[..i];
      activityMap := activityMap[activity[i].day := activity[i].minutes];
    }
    assert activity[..|activity|] == activity;
  }

  /** In a series with one entry per day, the latest entry of a day is its only entry. */
  lemma {:induction false} LatestOfDistinct(activity: seq<Bucket>, i: int)
    requires 0 <= i < |activity|
    requires forall a, b :: 0 <= a < b < |activity| ==> activity[a].day != activity[b].day
    ensures LatestMinutes(activity, activity[i].day) == activity[i].minutes
  {
    if i != |activity| - 1 {
      LatestOfDistinct(activity[..|activity| - 1], i);
    }
  }

  lemma {:induction false} LatestOfAbsent(activity: seq<Bucket>, d: Day)
    requires forall a :: 0 <= a < |activity| ==> activity[a].day != d
    ensures LatestMinutes(activity, d) == 0.0
  {
    if activity != [] {
      LatestOfAbsent(activity[..|activity| - 1], d);
    }
  }

  /**
   * Read against the server's series, a day cell shows exactly the minutes logged on that
   * day within the server's window, and 0 outside it.
   */
  lemma CellShowsLoggedMinutes(logs: seq<LogRow>, today: Day, d: Day)
    ensures LatestMinutes(DailySeries(logs, today), d)
      == if today - WindowDays <= d <= today then MinutesOn(logs, d) else 0.0
  {
    var s := DailySeries(logs, today);
    if today - WindowDays <= d <= today {
      LatestOfDistinct(s, d - (today - WindowDays));
    } else {
      LatestOfAbsent(s, d);
    }
  }

  /** Colour level of a day cell: none for 0, then 20-minute bands, the last one open. */
  function ColorLevel(minutes: real): (level: int)
    ensures 0 <= level <= 6
    ensures level == 0 <==> minutes <= 0.0
    ensures 1 <= level <= 5 ==> 20.0 * (level - 1) as real < minutes <= 20.0 * level as real
    ensures level == 6 <==> minutes > 100.0
  {
    if minutes <= 0.0 then 0
    else if minutes <= 20.0 then 1
    else if minutes <= 40.0 then 2
    else if minutes <= 60.0 then 3
    else if minutes <= 80.0 then 4
    else if minutes <= 100.0 then 5
    else 6
  }

  /** More minutes never give a lighter colour. */
  lemma ColorLevelMonotone(a: real, b: real)
    requires a <= b
    ensures ColorLevel(a) <= ColorLevel(b)
  {
  }

  // ---------------------------------------------------------------------------
  // Flattening with month labels
  // ---------------------------------------------------------------------------

  /** A grid item: a blank, a day with its minutes, or a week's month label (0..11, or none). */
  datatype GridItem = Empty | DayCell(day: Day, minutes: real) | LabelCell(month: Option<int>)

  /** `week.find(d => d !== null)`. */
  function FirstReal(week: seq<Option<Day>>): (r: Option<Day>)
    ensures r.None? <==> forall k :: 0 <= k < |week| ==> week[k].None?
    ensures r.Some? ==> exists k :: 0 <= k < |week| && week[k] == r
  {
    if week == [] then None else if week[0].Some? then week[0] else FirstReal(week[1..])
  }

  /** A week's label: the month of its first day, if that differs from the last label. */
  function WeekLabel(week: seq<Option<Day>>, lastMonth: int): (l: Option<int>)
    ensures l.Some? <==> FirstReal(week).Some? && Month(FirstReal(week).value) != lastMonth
    ensures l.Some? ==> l.value == Month(FirstReal(week).value)
  {
    match FirstReal(week)
    case None => None
    case Some(d) => if Month(d) != lastMonth then Some(Month(d)) else None
  }

  /** `lastMonthLabel` after the given weeks: -1 before any label. */
  function LastMonth(ws: seq<seq<Option<Day>>>): (m: int)
    ensures -1 <= m <= 11
    decreases |ws|
  {
    if ws == [] then -1
    else
      var prev := LastMonth(ws[..|ws| - 1]);
      var l := WeekLabel(ws[|ws| - 1], prev);
      if l.Some? then l.value else prev
  }

  /** Label of week k of the grid. */
  function LabelOf(ws: seq<seq<Option<Day>>>, k: int): Option<int>
    requires 0 <= k < |ws|
  {
    WeekLabel(ws[k], LastMonth(ws[..k]))
  }

  function CellItem(c: Option<Day>, activity: seq<Bucket>): GridItem {
    if c.None? then Empty else DayCell(c.value, LatestMinutes(activity, c.value))
  }

  /** The items of one week: its cells, then its label. */
  function WeekItems(week: seq<Option<Day>>, monthLabel: Option<int>, activity: seq<Bucket>): (items: seq<GridItem>)
    ensures |items| == |week| + 1
  {
    seq(|week|, k requires 0 <= k < |week| => CellItem(week[k], activity)) + [LabelCell(monthLabel)]
  }

  /** `flatGridItems` for the given weeks. */
  function Grid(ws: seq<seq<Option<Day>>>, activity: seq<Bucket>): seq<GridItem>
    decreases |ws|
  {
    if ws == [] then []
    else
      var prefix := ws[..|ws| - 1];
      Grid(prefix, activity) + WeekItems(ws[|ws| - 1], WeekLabel(ws[|ws| - 1], LastMonth(prefix)), activity)
  }

  predicate AllSevens(ws: seq<seq<Option<Day>>>) { forall k :: 0 <= k < |ws| ==> |ws[k]| == 7 }

  /** Eight items per week: its seven cells in order, then its label. */
  lemma {:induction false} GridLayout(ws: seq<seq<Option<Day>>>, activity: seq<Bucket>)
    requires AllSevens(ws)
    ensures |Grid(ws, activity)| == 8 * |ws|
    ensures forall w, k :: 0 <= w < |ws| && 0 <= k < 7 ==> Grid(ws, activity)[8 * w + k] == CellItem(ws[w][k], activity)
    ensures forall w :: 0 <= w < |ws| ==> Grid(ws, activity)[8 * w + 7] == LabelCell(LabelOf(ws, w))
  {
    if ws != [] {
      var n := |ws| - 1;
      var prefix := ws[..n];
      assert AllSevens(prefix) by {
        forall k | 0 <= k < |prefix| ensures |prefix[k]| == 7 { assert prefix[k] == ws[k]; }
      }
      GridLayout(prefix, activity);
      var head := Grid(prefix, activity);
      var items := WeekItems(ws[n], WeekLabel(ws[n], LastMonth(prefix)), activity);
      assert Grid(ws, activity) == head + items;
      GridLayoutStep(ws, activity, head, items);
    }
  }

  lemma GridLayoutStep(ws: seq<seq<Option<Day>>>, activity: seq<Bucket>, head: seq<GridItem>, items: seq<GridItem>)
    requires ws != [] && AllSevens(ws)
    requires |head| == 8 * (|ws| - 1)
    requires forall w, k :: 0 <= w < |ws| - 1 && 0 <= k < 7 ==> head[8 * w + k] == CellItem(ws[w][k], activity)
    requires forall w :: 0 <= w < |ws| - 1 ==> head[8 * w + 7] == LabelCell(LabelOf(ws[..|ws| - 1], w))
    requires items == WeekItems(ws[|ws| - 1], WeekLabel(ws[|ws| - 1], LastMonth(ws[..|ws| - 1])), activity)
    ensures |head + items| == 8 * |ws|
    ensures forall w, k :: 0 <= w < |ws| && 0 <= k < 7 ==> (head + items)[8 * w + k] == CellItem(ws[w][k], activity)
    ensures forall w :: 0 <= w < |ws| ==> (head + items)[8 * w + 7] == LabelCell(LabelOf(ws, w))
  {
    var n := |ws| - 1;
    forall w | 0 <= w < n ensures LabelOf(ws, w) == LabelOf(ws[..n], w) {
      assert ws[..n][..w] == ws[..w];
    }
    assert LabelOf(ws, n) == WeekLabel(ws[n], LastMonth(ws[..n]));
  }

  /** Before any labelled week the last label is still -1. */
  lemma {:induction false} NoLabelYet(ws: seq<seq<Option<Day>>>)
    requires forall k :: 0 <= k < |ws| ==> FirstReal(ws[k]).None?
    ensures LastMonth(ws) == -1
  {
    if ws != [] {
      NoLabelYet(ws[..|ws| - 1]);
    }
  }

  /** The first week holding a real day is always labelled. */
  lemma FirstRealWeekLabelled(ws: seq<seq<Option<Day>>>, w: int)
    requires 0 <= w < |ws| && FirstReal(ws[w]).Some?
    requires forall k :: 0 <= k < w ==> FirstReal(ws[k]).None?
    ensures LabelOf(ws, w) == Some(Month(FirstReal(ws[w]).value))
  {
    NoLabelYet(ws[..w]);
  }

  /** After a labelled week and unlabelled ones, the last label is the labelled week's month. */
  lemma {:induction false} LastMonthSince(ws: seq<seq<Option<Day>>>, i: int, j: int)
    requires 0 <= i < j <= |ws|
    requires LabelOf(ws, i).Some?
    requires forall k :: i < k < j ==> LabelOf(ws, k).None?
    ensures LastMonth(ws[..j]) == LabelOf(ws, i).value
    decreases j
  {
    assert ws[..j][..j - 1] == ws[..j - 1];
    assert ws[..j][j - 1] == ws[j - 1];
    assert LastMonth(ws[..j]) == if LabelOf(ws, j - 1).Some? then LabelOf(ws, j - 1).value else LastMonth(ws[..j - 1]);
    if j - 1 > i {
      LastMonthSince(ws, i, j - 1);
    }
  }

  /** Two labels with no label between them name different months. */
  lemma ConsecutiveLabelsDiffer(ws: seq<seq<Option<Day>>>, i: int, j: int)
    requires 0 <= i < j < |ws|
    requires LabelOf(ws, i).Some? && LabelOf(ws, j).Some?
    requires forall k :: i < k < j ==> LabelOf(ws, k).None?
    ensures LabelOf(ws, i).value != LabelOf(ws, j).value
  {
    LastMonthSince(ws, i, j);
  }

  /** A later week is labelled exactly when its first day's month differs from the last label. */
  lemma LaterWeekLabel(ws: seq<seq<Option<Day>>>, i: int, j: int)
    requires 0 <= i < j < |ws|
    requires LabelOf(ws, i).Some?
    requires forall k :: i < k < j ==> LabelOf(ws, k).None?
    ensures LabelOf(ws, j).Some? <==> FirstReal(ws[j]).Some? && Month(FirstReal(ws[j]).value) != LabelOf(ws, i).value
  {
    LastMonthSince(ws, i, j);
  }

  /** The `weeks.forEach` loop that emits seven cells and one label per week. */
  method FlattenGrid(weeks: seq<seq<Option<Day>>>, activity: seq<Bucket>) returns (grid: seq<GridItem>)
    ensures grid == Grid(weeks, activity)
  {
    var activityMap := IndexByDay(activity);
    grid := [];
    var lastMonthLabel := -1;
    for w := 0 to |weeks|
      invariant grid == Grid(weeks[..w], activity)
      invariant lastMonthLabel == LastMonth(weeks[..w])
    {
      var week := weeks[w];
      GridStep(weeks, w, activity);
      var monthLabel: Option<int> := None;
      var firstDay := FirstReal(week);
      if firstDay.Some? {
        var m := Month(firstDay.value);
        if m != lastMonthLabel {
          monthLabel := Some(m);
          lastMonthLabel := m;
        }
      }
      var items := WeekCells(week, monthLabel, activityMap, activity);
      grid := grid + items;
    }
    assert weeks[..|weeks|] == weeks;
  }

  /** The inner loop over one week's days, then the week's label cell. */
  method WeekCells(week: seq<Option<Day>>, monthLabel: Option<int>, activityMap: map<Day, real>, activity: seq<Bucket>)
    returns (items: seq<GridItem>)
    requires forall d :: Lookup(activityMap, d) == LatestMinutes(activity, d)
    ensures items == WeekItems(week, monthLabel, activity)
  {
    items := [];
    for k := 0 to |week|
      invariant items == seq(k, j requires 0 <= j < k => CellItem(week[j], activity))
    {
      if week[k].None? {
        items := items + [Empty];
      } else {
        items := items + [DayCell(week[k].value, Lookup(activityMap, week[k].value))];
      }
    }
    items := items + [LabelCell(monthLabel)];
  }

  /** One more week adds its items and moves the last label on. */
  lemma GridStep(ws: seq<seq<Option<Day>>>, w: int, activity: seq<Bucket>)
    requires 0 <= w < |ws|
    ensures Grid(ws[..w + 1], activity) == Grid(ws[..w], activity) + WeekItems(ws[w], WeekLabel(ws[w], LastMonth(ws[..w])), activity)
    ensures LastMonth(ws[..w + 1]) ==
      var l := WeekLabel(ws[w], LastMonth(ws[..w])); if l.Some? then l.value else LastMonth(ws[..w])
  {
    assert ws[..w + 1][..w] == ws[..w];
    assert ws[..w + 1][w] == ws[w];
  }

  /** The heatmap items the dashboard renders for `today` and the stored series. */
  function Heatmap(today: Day, activity: seq<Bucket>): seq<GridItem> {
    Grid(Weeks(AllDays(today)), activity)
  }

  /** The whole grid builder. */
  method BuildHeatmap(today: Day, activity: seq<Bucket>) returns (grid: seq<GridItem>)
    ensures grid == Heatmap(today, activity)
  {
    var allDays := CollectDays(today);
    var weeks := GroupWeeks(allDays);
    grid := FlattenGrid(weeks, activity);
  }

  /**
   * The grid always has 53 weeks of 8 items; each day of the window sits in its Monday-based
   * row, and every cell past the days is blank.
   */
  lemma HeatmapShape(today: Day, activity: seq<Bucket>)
    ensures |Weeks(AllDays(today))| == 53
    ensures |Heatmap(today, activity)| == 8 * 53
    ensures forall w, k :: 0 <= w < 53 && 0 <= k < 7 && Weeks(AllDays(today))[w][k].Some? ==>
      k == MondayRow(Weeks(AllDays(today))[w][k].value)
  {
    var cells := AllDays(today);
    var ws := Weeks(cells);
    GridLayout(ws, activity);
    WeeksKeepCells(cells);
    AllDaysAligned(today);
    forall w, k | 0 <= w < 53 && 0 <= k < 7 && ws[w][k].Some?
      ensures k == MondayRow(ws[w][k].value)
    {
      var j := 7 * w + k;
      assert j / 7 == w && j % 7 == k;
      assert ws[j / 7][j % 7] == if j < |cells| then cells[j] else None;
    }
  }

  // ---------------------------------------------------------------------------
  // The stats reply in the page state
  // ---------------------------------------------------------------------------

  /**
   * `activityData` as the page reads it: the series drives the grid, the two badges read a
   * `streak` and a `currentStreak` property of the same value.
   */
  datatype ActivityData = ActivityData(series: seq<Bucket>, streak: Option<int>, currentStreak: Option<int>)

  /** `setActivityData(res.data.yearlyData || [])`: only the array is kept. */
  function LoadStats(reply: StatsReply): (a: ActivityData)
    ensures reply.Stats? ==> a.series == reply.yearlyData
  {
    if reply.Stats? then ActivityData(reply.yearlyData, None, None) else ActivityData([], None, None)
  }

  /** `activityData.streak || 0` (the header badge). */
  function StreakBadge(a: ActivityData): (n: int)
    ensures a.streak.None? ==> n == 0
  {
    if a.streak.Some? then a.streak.value else 0
  }

  /** `activityData?.currentStreak || 0` (the summary card). */
  function CurrentStreakBadge(a: ActivityData): (n: int)
    ensures a.currentStreak.None? ==> n == 0
  {
    if a.currentStreak.Some? then a.currentStreak.value else 0
  }

  /** As written, both badges show 0 whatever streak the server sends. */
  lemma StreakBadgesAlwaysZero(reply: StatsReply)
    ensures StreakBadge(LoadStats(reply)) == 0 && CurrentStreakBadge(LoadStats(reply)) == 0
  {
  }

  /** Keeps the series and the reported streak; both badges then read the streak. */
  function LoadStatsWithStreak(reply: StatsReply): (a: ActivityData)
    ensures reply.Stats? ==> a.series == reply.yearlyData
  {
    if reply.Stats? then ActivityData(reply.yearlyData, Some(reply.streak), Some(reply.streak))
    else ActivityData([], None, None)
  }

  /** With the streak kept, both badges show the streak the server computed. */
  lemma BadgesShowServerStreak(reply: StatsReply)
    requires reply.Stats?
    ensures StreakBadge(LoadStatsWithStreak(reply)) == reply.streak
    ensures CurrentStreakBadge(LoadStatsWithStreak(reply)) == reply.streak
  {
  }
}
