/**
 * The calendar page: the subjects due on a day, shown on the day's tile (at most three
 * titles and a "+N more" note) and in the side panel with their completion state.
 */
module CalendarPage {
  import opened Wrappers
  import opened Calendar
  import opened Client
  import opened Seqs
  import Display

  /** `c => c.dueDate`: a due date that is present and not empty. */
  predicate HasDueDate(c: Course) {
    c.dueDate.Some? && c.dueDate.value != ""
  }

  /** The subject is due on the day with this key. */
  predicate DueOn(c: Course, key: string) {
    c.dueDate == Some(key)
  }

  /** The test `c => c.dueDate === key`. */
  function DueOnKey(key: string): Course -> bool {
    c => DueOn(c, key)
  }

  function DueCourses(cs: seq<Course>): seq<Course> {
    Filter(cs, HasDueDate)
  }

  /** `getCoursesForDate(d)`: the due subjects whose date is the day's `yyyy-MM-dd` text. */
  function CoursesForDay(cs: seq<Course>, d: Day): (r: seq<Course>)
    ensures |r| <= |cs|
    ensures forall i :: 0 <= i < |r| ==> r[i].dueDate == Some(DayKey(d))
  {
    Filter(DueCourses(cs), DueOnKey(DayKey(d)))
  }

  /** Filtering by a condition that implies the first one needs only the second. */
  lemma {:induction false} FilterNarrowing(cs: seq<Course>, key: string)
    requires key != ""
    ensures Filter(Filter(cs, HasDueDate), DueOnKey(key)) == Filter(cs, DueOnKey(key))
    decreases |cs|
  {
    if cs != [] {
      var prefix, x := cs[..|cs| - 1], cs[|cs| - 1];
      FilterNarrowing(prefix, key);
      var kept := if HasDueDate(x) then [x] else [];
      assert Filter(cs, HasDueDate) == Filter(prefix, HasDueDate) + kept;
      FilterConcat(Filter(prefix, HasDueDate), kept, DueOnKey(key));
      assert kept == [] || kept[..0] == [];
    }
  }

  /**
   * A day lists exactly the subjects due on it, in the page's order; a subject with no
   * due date is listed for no day at all.
   */
  lemma CoursesForDayExact(cs: seq<Course>, d: Day)
    ensures CoursesForDay(cs, d) == Filter(cs, DueOnKey(DayKey(d)))
    ensures forall i :: 0 <= i < |CoursesForDay(cs, d)| ==> CoursesForDay(cs, d)[i].dueDate == Some(DayKey(d))
    ensures forall i :: 0 <= i < |cs| && cs[i].dueDate == Some(DayKey(d)) ==> cs[i] in CoursesForDay(cs, d)
    ensures forall i :: 0 <= i < |CoursesForDay(cs, d)| ==> CoursesForDay(cs, d)[i] in cs
    ensures forall i :: 0 <= i < |cs| && cs[i].dueDate.None? ==> !(cs[i] in CoursesForDay(cs, d))
  {
    FilterNarrowing(cs, DayKey(d));
    FilterMembers(cs, DueOnKey(DayKey(d)));
  }

  /** A subject is listed on at most one day. */
  lemma ListedOnOneDay(cs: seq<Course>, d: Day, e: Day, c: Course)
    requires c in CoursesForDay(cs, d) && c in CoursesForDay(cs, e)
    ensures d == e
  {
    CoursesForDayExact(cs, d);
    CoursesForDayExact(cs, e);
    var i :| 0 <= i < |CoursesForDay(cs, d)| && CoursesForDay(cs, d)[i] == c;
    var j :| 0 <= j < |CoursesForDay(cs, e)| && CoursesForDay(cs, e)[j] == c;
    DayKeyInjective(d, e);
  }

  /** One subject on a tile: its title and whether it is shown as completed. */
  datatype TileEntry = TileEntry(title: string, completed: bool)

  /** A day's tile: up to three subjects and the number of the others. */
  datatype Tile = Tile(entries: seq<TileEntry>, more: Option<int>)

  function Entry(c: Course): TileEntry {
    TileEntry(c.title, Display.IsCompleted(c))
  }

  /** The tile of a day: nothing without subjects, else the first three and "+(n - 3) more" beyond three. */
  function DayTile(dayCourses: seq<Course>): (t: Option<Tile>)
    ensures t.None? <==> dayCourses == []
    ensures t.Some? ==>
      |t.value.entries| == (if |dayCourses| < 3 then |dayCourses| else 3)
      && (forall i :: 0 <= i < |t.value.entries| ==> t.value.entries[i] == Entry(dayCourses[i]))
      && (t.value.more.Some? <==> |dayCourses| > 3)
      && |t.value.entries| + (if t.value.more.Some? then t.value.more.value else 0) == |dayCourses|
  {
    if dayCourses == [] then None
    else
      var shown := if |dayCourses| < 3 then dayCourses else dayCourses[..3];
      Some(Tile(seq(|shown|, i requires 0 <= i < |shown| => Entry(shown[i])),
                if |dayCourses| > 3 then Some(|dayCourses| - 3) else None))
  }

  /** A tile entry is marked completed exactly when its subject has a positive target it has reached. */
  lemma TileMarksCompletion(dayCourses: seq<Course>, i: int)
    requires DayTile(dayCourses).Some? && 0 <= i < |DayTile(dayCourses).value.entries|
    ensures DayTile(dayCourses).value.entries[i].completed <==>
      dayCourses[i].targetHours > 0.0 && dayCourses[i].studiedHours >= dayCourses[i].targetHours
  {
  }
}
