/**
 * The activity engine of the server: logging a study session (which also advances
 * the studied time of the topic and of the course) and the statistics read
 * (a dense year of per-day minutes with an intensity level, and the persisted
 * once-per-day visit streak of the user).
 *
 * The database is the `Server` object: the log table as an append-only sequence and
 * the topic, course and user tables as maps from primary key to row.  "Today" is a
 * parameter; logs and buckets are both keyed by the day number of Calendar.
 */
module Activity {
  import opened Wrappers
  import opened Calendar
  import opened Records
  import opened Seqs

  /** The series runs from `today - WindowDays` to `today`, both included. */
  const WindowDays: int := 365

  // ---------------------------------------------------------------------------
  // Progress-update rules of logSession
  // ---------------------------------------------------------------------------

  /** `if (topicId)` and `topicId || null`: an id of 0 counts as no topic. */
  function StoredTopicId(topicId: Option<int>): (r: Option<int>)
    ensures r.Some? <==> topicId.Some? && topicId.value != 0
    ensures r.Some? ==> r == topicId
  {
    if topicId.Some? && topicId.value != 0 then topicId else None
  }

  /** A topic after a session of `minutes`: studied time grows, and reaching a positive target completes it. */
  function TopicAfterSession(t: TopicRow, minutes: real): (r: TopicRow)
    ensures r.studiedMinutes == t.studiedMinutes + minutes
    ensures r.isCompleted <==> t.isCompleted || (t.targetMinutes > 0 && r.studiedMinutes >= t.targetMinutes as real)
    ensures t.isCompleted ==> r.isCompleted
    ensures r.courseId == t.courseId && r.title == t.title && r.targetMinutes == t.targetMinutes
  {
    var studied := t.studiedMinutes + minutes;
    t.(studiedMinutes := studied,
       isCompleted := if t.targetMinutes > 0 && studied >= t.targetMinutes as real then true else t.isCompleted)
  }

  /** A course after a session of `minutes`: the studied hours grow by minutes / 60. */
  function CourseAfterSession(c: CourseRow, minutes: real): (r: CourseRow)
    ensures 60.0 * (r.studiedHours - c.studiedHours) == minutes
    ensures r == c.(studiedHours := r.studiedHours)
  {
    c.(studiedHours := c.studiedHours + minutes / 60.0)
  }

  /** The topic table after `log` was recorded: only the logged topic changes, if it exists. */
  function TopicsAfterLog(topics: map<int, TopicRow>, log: LogRow): (r: map<int, TopicRow>)
    ensures r.Keys == topics.Keys
    ensures forall id :: id in topics ==>
      r[id] == if log.topicId == Some(id) then TopicAfterSession(topics[id], log.minutes) else topics[id]
  {
    if log.topicId.Some? && log.topicId.value in topics
    then topics[log.topicId.value := TopicAfterSession(topics[log.topicId.value], log.minutes)]
    else topics
  }

  /** The course table after `log` was recorded: only the logged course changes, if it exists. */
  function CoursesAfterLog(courses: map<int, CourseRow>, log: LogRow): (r: map<int, CourseRow>)
    ensures r.Keys == courses.Keys
    ensures forall id :: id in courses ==>
      r[id] == if log.courseId == Some(id) then CourseAfterSession(courses[id], log.minutes) else courses[id]
  {
    if log.courseId.Some? && log.courseId.value in courses
    then courses[log.courseId.value := CourseAfterSession(courses[log.courseId.value], log.minutes)]
    else courses
  }

  /** The topic table after the logs were recorded one after the other. */
  function TopicsAfterLogs(topics: map<int, TopicRow>, logs: seq<LogRow>): map<int, TopicRow>
    decreases |logs|
  {
    if logs == [] then topics
    else TopicsAfterLog(TopicsAfterLogs(topics, logs[..|logs| - 1]), logs[|logs| - 1])
  }

  /** The course table after the logs were recorded one after the other. */
  function CoursesAfterLogs(courses: map<int, CourseRow>, logs: seq<LogRow>): map<int, CourseRow>
    decreases |logs|
  {
    if logs == [] then courses
    else CoursesAfterLog(CoursesAfterLogs(courses, logs[..|logs| - 1]), logs[|logs| - 1])
  }

  /** Total minutes of the logs on topic `id`. */
  function TopicMinutes(logs: seq<LogRow>, id: int): real
    decreases |logs|
  {
    if logs == [] then 0.0
    else TopicMinutes(logs[..|logs| - 1], id) + (if logs[|logs| - 1].topicId == Some(id) then logs[|logs| - 1].minutes else 0.0)
  }

  /** Total minutes of the logs on course `id`. */
  function CourseMinutes(logs: seq<LogRow>, id: int): real
    decreases |logs|
  {
    if logs == [] then 0.0
    else CourseMinutes(logs[..|logs| - 1], id) + (if logs[|logs| - 1].courseId == Some(id) then logs[|logs| - 1].minutes else 0.0)
  }

  predicate NoNegativeSession(logs: seq<LogRow>) { forall i :: 0 <= i < |logs| ==> logs[i].minutes >= 0.0 }

  /**
   * The running counters agree with the log: after a run of sessions a topic has studied
   * exactly its starting minutes plus the minutes logged on it, and a course its starting
   * hours plus the minutes logged on it over 60.
   */
  lemma {:induction false} CountersMatchLog(topics: map<int, TopicRow>, courses: map<int, CourseRow>, logs: seq<LogRow>)
    ensures TopicsAfterLogs(topics, logs).Keys == topics.Keys
    ensures CoursesAfterLogs(courses, logs).Keys == courses.Keys
    ensures forall id :: id in topics ==>
      TopicsAfterLogs(topics, logs)[id].studiedMinutes == topics[id].studiedMinutes + TopicMinutes(logs, id)
    ensures forall id :: id in courses ==>
      60.0 * (CoursesAfterLogs(courses, logs)[id].studiedHours - courses[id].studiedHours) == CourseMinutes(logs, id)
  {
    if logs != [] {
      CountersMatchLog(topics, courses, logs[..|logs| - 1]);
    }
  }

  /** Some log of the run is on topic `id`. */
  predicate LogsTopic(logs: seq<LogRow>, id: int) {
    exists i :: 0 <= i < |logs| && logs[i].topicId == Some(id)
  }

  /**
   * Automatic completion over a run of sessions with no negative minutes: a topic ends
   * completed exactly when it started completed, or some session was on it and its final
   * total reaches a positive target.  Logging never clears the flag.
   */
  lemma {:induction false} CompletionAfterLogs(topics: map<int, TopicRow>, logs: seq<LogRow>, id: int)
    requires id in topics
    requires NoNegativeSession(logs)
    ensures id in TopicsAfterLogs(topics, logs)
    ensures var t := topics[id]; var r := TopicsAfterLogs(topics, logs)[id];
      r.isCompleted <==> t.isCompleted || (LogsTopic(logs, id) && t.targetMinutes > 0 && r.studiedMinutes >= t.targetMinutes as real)
    ensures TopicsAfterLogs(topics, logs)[id].studiedMinutes >= topics[id].studiedMinutes
    ensures TopicsAfterLogs(topics, logs)[id].targetMinutes == topics[id].targetMinutes
  {
    if logs != [] {
      var prefix := logs[..|logs| - 1];
      assert NoNegativeSession(prefix) by {
        forall i | 0 <= i < |prefix| ensures prefix[i].minutes >= 0.0 { assert prefix[i] == logs[i]; }
      }
      CompletionAfterLogs(topics, prefix, id);
      var before := TopicsAfterLogs(topics, prefix);
      var last := logs[|logs| - 1];
      assert last.minutes >= 0.0;
      assert TopicsAfterLogs(topics, logs) == TopicsAfterLog(before, last);
      if last.topicId == Some(id) {
        assert LogsTopic(logs, id);
        assert TopicsAfterLogs(topics, logs)[id] == TopicAfterSession(before[id], last.minutes);
      } else {
        assert LogsTopic(logs, id) == LogsTopic(prefix, id) by {
          if LogsTopic(logs, id) {
            var i :| 0 <= i < |logs| && logs[i].topicId == Some(id);
            assert prefix[i] == logs[i];
          }
          if LogsTopic(prefix, id) {
            var i :| 0 <= i < |prefix| && prefix[i].topicId == Some(id);
            assert logs[i] == prefix[i];
          }
        }
        assert TopicsAfterLogs(topics, logs)[id] == before[id];
      }
    }
  }

  // ---------------------------------------------------------------------------
  // The yearly series of getStats
  // ---------------------------------------------------------------------------

  /** Heat level of a day: 0 for no time, then one level per 30 minutes up to level 6 at 150. */
  function Intensity(minutes: real): (level: int)
    ensures 0 <= level <= 6
    ensures level == 0 <==> minutes <= 0.0
    ensures level > 0 ==> 30.0 * (level - 1) as real <= minutes
    ensures 0 < level < 6 ==> minutes < 30.0 * level as real
  {
    if minutes <= 0.0 then 0
    else if minutes < 30.0 then 1
    else if minutes < 60.0 then 2
    else if minutes < 90.0 then 3
    else if minutes < 120.0 then 4
    else if minutes < 150.0 then 5
    else 6
  }

  /** More minutes never give a lower level. */
  lemma IntensityMonotone(a: real, b: real)
    requires a <= b
    ensures Intensity(a) <= Intensity(b)
  {
  }

  /** One day of the yearly series. */
  datatype Bucket = Bucket(day: Day, minutes: real, intensity: int)

  /** Total minutes of the logs dated `day` (the reference definition of a bucket's minutes). */
  function MinutesOn(logs: seq<LogRow>, day: Day): real
    decreases |logs|
  {
    if logs == [] then 0.0
    else MinutesOn(logs[..|logs| - 1], day) + (if logs[|logs| - 1].date == day then logs[|logs| - 1].minutes else 0.0)
  }

  /** `statsMap[dateStr] || 0`. */
  function Lookup(m: map<Day, real>, day: Day): real {
    if day in m then m[day] else 0.0
  }

  /** The condition of the getStats query: a log of user `uid` dated no earlier than a year ago. */
  function InWindow(uid: int, today: Day): LogRow -> bool {
    (l: LogRow) => l.userId == Some(uid) && l.date >= today - WindowDays
  }

  /** The logs the getStats query returns, in table order. */
  function WindowLogs(logs: seq<LogRow>, uid: int, today: Day): (r: seq<LogRow>)
    ensures |r| <= |logs|
    ensures forall i :: 0 <= i < |r| ==> r[i].userId == Some(uid) && r[i].date >= today - WindowDays
  {
    Filter(logs, InWindow(uid, today))
  }

  /** The query returns exactly the user's logs of the last year, keeping their order. */
  lemma WindowLogsExact(logs: seq<LogRow>, uid: int, today: Day)
    ensures forall l :: l in WindowLogs(logs, uid, today) <==> l in logs && l.userId == Some(uid) && l.date >= today - WindowDays
    ensures forall a, b :: a + b == logs ==> WindowLogs(logs, uid, today) == WindowLogs(a, uid, today) + WindowLogs(b, uid, today)
  {
    FilterMembers(logs, InWindow(uid, today));
    forall a, b | a + b == logs
      ensures WindowLogs(logs, uid, today) == WindowLogs(a, uid, today) + WindowLogs(b, uid, today)
    {
      FilterConcat(a, b, InWindow(uid, today));
    }
  }

  /** The condition of the session count: a log of user `uid`, whatever its date. */
  function OfUser(uid: int): LogRow -> bool {
    (l: LogRow) => l.userId == Some(uid)
  }

  /** `ActivityLog.count({ where: { userId } })`: the number of the user's logs. */
  function SessionCount(logs: seq<LogRow>, uid: int): (n: nat)
    ensures n <= |logs|
  {
    |Filter(logs, OfUser(uid))|
  }

  /** A new log adds one session to its own user's count and none to anyone else's. */
  lemma SessionCountAppend(logs: seq<LogRow>, x: LogRow, uid: int)
    ensures SessionCount(logs + [x], uid) == SessionCount(logs, uid) + (if x.userId == Some(uid) then 1 else 0)
  {
    FilterConcat(logs, [x], OfUser(uid));
    assert [x][..0] == [];
  }

  /** Every log of the window is one of the user's sessions, so the window never holds more. */
  lemma WindowWithinSessions(logs: seq<LogRow>, uid: int, today: Day)
    ensures |WindowLogs(logs, uid, today)| <= SessionCount(logs, uid)
  {
    FilterStronger(logs, InWindow(uid, today), OfUser(uid));
  }

  /** When every log is the user's and inside the window, the window keeps all of them. */
  lemma WindowKeepsAllRecent(logs: seq<LogRow>, uid: int, today: Day)
    requires forall i :: 0 <= i < |logs| ==> logs[i].userId == Some(uid) && logs[i].date >= today - WindowDays
    ensures WindowLogs(logs, uid, today) == logs
  {
    FilterAll(logs, InWindow(uid, today));
  }

  /**
   * The statsMap loop: folds the logs into a day -> minutes map.  A day's entry is the
   * sum of the minutes logged on it and exactly the days that have a log have one.
   */
  method AggregateByDay(logs: seq<LogRow>) returns (statsMap: map<Day, real>)
    ensures forall d :: Lookup(statsMap, d) == MinutesOn(logs, d)
    ensures forall d :: d in statsMap <==> exists i :: 0 <= i < |logs| && logs[i].date == d
  {
    statsMap := map[];
    for i := 0 to |logs|
      invariant forall d :: Lookup(statsMap, d) == MinutesOn(logs[..i], d)
      invariant forall d :: d in statsMap <==> exists j :: 0 <= j < i && logs[j].date == d
    {
      assert logs[..i + 1][..i] == logs[..i];
      var key := logs[i].date;
      statsMap := statsMap[key := Lookup(statsMap, key) + logs[i].minutes];
    }
    assert logs[..|logs|] == logs;
  }

  /** The series the server returns for `logs` on day `today`. */
  function DailySeries(logs: seq<LogRow>, today: Day): (s: seq<Bucket>)
    ensures |s| == WindowDays + 1
    ensures forall i :: 0 <= i < |s| ==>
      s[i].day == today - WindowDays + i
      && s[i].minutes == MinutesOn(logs, s[i].day)
      && s[i].intensity == Intensity(s[i].minutes)
  {
    seq(WindowDays + 1, i requires 0 <= i <= WindowDays =>
      Bucket(today - WindowDays + i, MinutesOn(logs, today - WindowDays + i), Intensity(MinutesOn(logs, today - WindowDays + i))))
  }

  /**
   * The yearlyStats loop: 366 buckets, from a year ago to today, each holding the looked-up
   * minutes and their level.
   */
  method BuildSeries(today: Day, statsMap: map<Day, real>) returns (series: seq<Bucket>)
    ensures |series| == WindowDays + 1
    ensures forall i :: 0 <= i < |series| ==>
      series[i] == Bucket(today - WindowDays + i, Lookup(statsMap, today - WindowDays + i), Intensity(Lookup(statsMap, today - WindowDays + i)))
  {
    var start := today - WindowDays;
    series := [];
    for i := 0 to WindowDays + 1
      invariant |series| == i
      invariant forall k :: 0 <= k < i ==>
        series[k] == Bucket(start + k, Lookup(statsMap, start + k), Intensity(Lookup(statsMap, start + k)))
    {
      var d := start + i;
      var minutes := Lookup(statsMap, d);
      var intensity := 0;
      if minutes > 0.0 {
        if minutes < 30.0 { intensity := 1; }
        else if minutes < 60.0 { intensity := 2; }
        else if minutes < 90.0 { intensity := 3; }
        else if minutes < 120.0 { intensity := 4; }
        else if minutes < 150.0 { intensity := 5; }
        else { intensity := 6; }
      }
      series := series + [Bucket(d, minutes, intensity)];
    }
  }

  /** The series is dense: consecutive days, in ascending order, ending today. */
  lemma SeriesIsDense(logs: seq<LogRow>, today: Day)
    ensures DailySeries(logs, today)[0].day == today - WindowDays
    ensures DailySeries(logs, today)[WindowDays].day == today
    ensures forall i :: 0 <= i < WindowDays ==> DailySeries(logs, today)[i + 1].day == DailySeries(logs, today)[i].day + 1
  {
  }

  /** With no logs every bucket is empty. */
  lemma EmptyLogsEmptySeries(today: Day)
    ensures forall i :: 0 <= i <= WindowDays ==> DailySeries([], today)[i].minutes == 0.0 && DailySeries([], today)[i].intensity == 0
  {
  }

  /** Sum of the minutes of a sequence of buckets. */
  function SeriesMinutes(s: seq<Bucket>): real
    decreases |s|
  {
    if s == [] then 0.0 else SeriesMinutes(s[..|s| - 1]) + s[|s| - 1].minutes
  }

  /** Total minutes of the logs dated within lo..hi. */
  function MinutesBetween(logs: seq<LogRow>, lo: Day, hi: Day): real
    decreases |logs|
  {
    if logs == [] then 0.0
    else
      var last := logs[|logs| - 1];
      MinutesBetween(logs[..|logs| - 1], lo, hi) + (if lo <= last.date <= hi then last.minutes else 0.0)
  }

  /** Sum of MinutesOn over the n days from lo. */
  function DaysTotal(logs: seq<LogRow>, lo: Day, n: nat): real
    decreases n
  {
    if n == 0 then 0.0 else DaysTotal(logs, lo, n - 1) + MinutesOn(logs, lo + n - 1)
  }

  lemma {:induction false} DaysTotalAppend(logs: seq<LogRow>, x: LogRow, lo: Day, n: nat)
    ensures DaysTotal(logs + [x], lo, n) == DaysTotal(logs, lo, n) + (if lo <= x.date < lo + n then x.minutes else 0.0)
  {
    assert (logs + [x])[..|logs + [x]| - 1] == logs;
    if n > 0 {
      DaysTotalAppend(logs, x, lo, n - 1);
    }
  }

  lemma {:induction false} DaysTotalIsMinutesBetween(logs: seq<LogRow>, lo: Day, n: nat)
    ensures DaysTotal(logs, lo, n) == MinutesBetween(logs, lo, lo + n - 1)
    decreases |logs|
  {
    if logs == [] {
      DaysTotalOfNoLogs(lo, n);
    } else {
      var prefix := logs[..|logs| - 1];
      assert logs == prefix + [logs[|logs| - 1]];
      DaysTotalAppend(prefix, logs[|logs| - 1], lo, n);
      DaysTotalIsMinutesBetween(prefix, lo, n);
    }
  }

  lemma {:induction false} DaysTotalOfNoLogs(lo: Day, n: nat)
    ensures DaysTotal([], lo, n) == 0.0
  {
    if n > 0 { DaysTotalOfNoLogs(lo, n - 1); }
  }

  lemma {:induction false} SeriesPrefixTotal(logs: seq<LogRow>, today: Day, n: nat)
    requires n <= WindowDays + 1
    ensures SeriesMinutes(DailySeries(logs, today)[..n]) == DaysTotal(logs, today - WindowDays, n)
  {
    if n > 0 {
      var s := DailySeries(logs, today);
      assert s[..n][..n - 1] == s[..n - 1];
      SeriesPrefixTotal(logs, today, n - 1);
    }
  }

  /** The series accounts for every minute logged within the window and for nothing else. */
  lemma SeriesTotal(logs: seq<LogRow>, today: Day)
    ensures SeriesMinutes(DailySeries(logs, today)) == MinutesBetween(logs, today - WindowDays, today)
  {
    var s := DailySeries(logs, today);
    assert s[..WindowDays + 1] == s;
    SeriesPrefixTotal(logs, today, WindowDays + 1);
    DaysTotalIsMinutesBetween(logs, today - WindowDays, WindowDays + 1);
  }

  // ---------------------------------------------------------------------------
  // The persisted once-per-day streak
  // ---------------------------------------------------------------------------

  /**
   * The streak update of getStats: nothing happens when the user was already seen today;
   * otherwise the streak grows by one if the last visit was yesterday, restarts at 0 if not,
   * and today becomes the last visit.
   */
  function NextStreak(u: UserRow, today: Day): (v: UserRow)
    ensures v.lastActiveDate == Some(today)
    ensures u.lastActiveDate == Some(today) ==> v == u
    ensures u.lastActiveDate != Some(today) ==>
      v.streak == (if u.lastActiveDate == Some(today - 1) then u.streak + 1 else 0)
    ensures v == u.(streak := v.streak, lastActiveDate := v.lastActiveDate)
  {
    if u.lastActiveDate == Some(today) then u
    else
      u.(streak := if u.lastActiveDate == Some(today - 1) then u.streak + 1 else 0,
         lastActiveDate := Some(today))
  }

  /** A second read on the same day changes nothing. */
  lemma StreakIdempotent(u: UserRow, today: Day)
    ensures NextStreak(NextStreak(u, today), today) == NextStreak(u, today)
  {
  }

  /** The streak never becomes negative. */
  lemma StreakNonNegative(u: UserRow, today: Day)
    requires u.streak >= 0
    ensures NextStreak(u, today).streak >= 0
  {
  }

  /** Reading the stats on each of the k days after the last visit adds k to the streak. */
  lemma {:induction false} StreakRun(u: UserRow, k: nat)
    requires u.lastActiveDate.Some?
    ensures StreakAfterVisits(u, u.lastActiveDate.value + 1, k).streak == u.streak + k
    ensures StreakAfterVisits(u, u.lastActiveDate.value + 1, k).lastActiveDate == Some(u.lastActiveDate.value + k)
  {
    if k > 0 {
      StreakRun(u, k - 1);
    }
  }

  /** The user after reading the stats on the k consecutive days from `first`. */
  function StreakAfterVisits(u: UserRow, first: Day, k: nat): UserRow
    decreases k
  {
    if k == 0 then u else NextStreak(StreakAfterVisits(u, first, k - 1), first + k - 1)
  }

  /** A fresh topic, with its default target, is completed by a session exactly when the
   * session covers the default target of 30 minutes. */
  lemma NewTopicCompletes(courseId: Option<int>, title: string, minutes: real)
    ensures TopicAfterSession(NewTopic(courseId, title), minutes).isCompleted <==> minutes >= DefaultTargetMinutes as real
  {
  }

  /** A fresh course after its first session: the session's minutes as hours, and still no target. */
  lemma NewCourseAfterSession(userId: Option<int>, title: string, minutes: real)
    ensures 60.0 * CourseAfterSession(NewCourse(userId, title), minutes).studiedHours == minutes
    ensures CourseAfterSession(NewCourse(userId, title), minutes).targetHours == 0.0
  {
  }

  /** A new user who reads the stats on k + 1 consecutive days has streak k: the first visit
   * starts the count at 0, each following day adds one. */
  lemma {:induction false} NewUserDailyStreak(username: string, email: string, first: Day, k: nat)
    ensures StreakAfterVisits(NewUser(username, email), first, k + 1).streak == k
    ensures StreakAfterVisits(NewUser(username, email), first, k + 1).lastActiveDate == Some(first + k)
  {
    if k > 0 {
      NewUserDailyStreak(username, email, first, k - 1);
    }
  }

  /** Skipping a day resets the streak. */
  lemma StreakGapResets(u: UserRow, today: Day)
    requires u.lastActiveDate.Some? && u.lastActiveDate.value < today - 1
    ensures NextStreak(u, today).streak == 0
  {
  }

  /** The streak getStats reports: that of the updated row, or 0 for an unknown user. */
  function ReportedStreak(users: map<int, UserRow>, uid: int, today: Day): (s: int)
    ensures uid !in users ==> s == 0
  {
    if uid in users then NextStreak(users[uid], today).streak else 0
  }

  /** The user table after getStats. */
  function UsersAfterStats(users: map<int, UserRow>, uid: int, today: Day): (r: map<int, UserRow>)
    ensures r.Keys == users.Keys
    ensures uid in users ==> r[uid] == NextStreak(users[uid], today)
    ensures forall id :: id in users && id != uid ==> r[id] == users[id]
  {
    if uid in users then users[uid := NextStreak(users[uid], today)] else users
  }

  /** Calling getStats twice on the same day: the second call changes nothing and reports the same streak. */
  lemma StatsIdempotentWithinDay(users: map<int, UserRow>, uid: int, today: Day)
    ensures UsersAfterStats(UsersAfterStats(users, uid, today), uid, today) == UsersAfterStats(users, uid, today)
    ensures ReportedStreak(UsersAfterStats(users, uid, today), uid, today) == ReportedStreak(users, uid, today)
  {
    if uid in users {
      StreakIdempotent(users[uid], today);
    }
  }

  // ---------------------------------------------------------------------------
  // The store and the two request handlers
  // ---------------------------------------------------------------------------

  /** Reply of getStats: 400 without a user id, else the result body. */
  datatype StatsReply = BadRequest | Stats(yearlyData: seq<Bucket>, streak: int, totalSessions: nat)

  /** The log row logSession appends: `topicId || null`, `date || new Date()`. */
  function SessionRow(userId: Option<int>, courseId: Option<int>, topicId: Option<int>, minutes: real, date: Option<Day>, today: Day): (r: LogRow)
    ensures r.topicId == StoredTopicId(topicId)
    ensures r.date == if date.Some? then date.value else today
    ensures r.userId == userId && r.courseId == courseId && r.minutes == minutes
  {
    LogRow(userId, courseId, StoredTopicId(topicId), minutes, if date.Some? then date.value else today)
  }

  class Server {
    var logs: seq<LogRow>
    var topics: map<int, TopicRow>
    var courses: map<int, CourseRow>
    var users: map<int, UserRow>

    constructor (topics0: map<int, TopicRow>, courses0: map<int, CourseRow>, users0: map<int, UserRow>)
      ensures logs == [] && topics == topics0 && courses == courses0 && users == users0
    {
      logs, topics, courses, users := [], topics0, courses0, users0;
    }

    /**
     * logSession: append the log, then add the minutes to the topic (completing it when a
     * positive target is reached) and minutes / 60 to the course.  A missing topic or course
     * is skipped; the log is appended regardless.
     */
    method LogSession(userId: Option<int>, courseId: Option<int>, topicId: Option<int>, minutes: real, date: Option<Day>, today: Day)
      modifies this
      ensures logs == old(logs) + [SessionRow(userId, courseId, topicId, minutes, date, today)]
      ensures topics == TopicsAfterLog(old(topics), SessionRow(userId, courseId, topicId, minutes, date, today))
      ensures courses == CoursesAfterLog(old(courses), SessionRow(userId, courseId, topicId, minutes, date, today))
      ensures users == old(users)
    {
      var row := LogRow(userId, courseId, if topicId.Some? && topicId.value != 0 then topicId else None, minutes,
                        if date.Some? then date.value else today);
      assert row == SessionRow(userId, courseId, topicId, minutes, date, today);
      logs := logs + [row];

      if topicId.Some? && topicId.value != 0 {
        var id := topicId.value;
        if id in topics {
          var topic := topics[id];
          var studied := topic.studiedMinutes + minutes;
          var completed := topic.isCompleted;
          if topic.targetMinutes > 0 && studied >= topic.targetMinutes as real {
            completed := true;
          }
          assert topic.(studiedMinutes := studied, isCompleted := completed) == TopicAfterSession(topic, minutes);
          topics := topics[id := topic.(studiedMinutes := studied, isCompleted := completed)];
        }
      }
      assert topics == TopicsAfterLog(old(topics), row);

      if courseId.Some? && courseId.value in courses {
        var course := courses[courseId.value];
        assert course.(studiedHours := course.studiedHours + minutes / 60.0) == CourseAfterSession(course, minutes);
        courses := courses[courseId.value := course.(studiedHours := course.studiedHours + minutes / 60.0)];
      }
      assert courses == CoursesAfterLog(old(courses), row);
    }

    /**
     * getStats: 400 without a user id; otherwise the dense series of the user's logs of the
     * last year, the streak after the once-per-day update (0 for an unknown user) and the
     * user's number of sessions.
     */
    method GetStats(userId: Option<int>, today: Day) returns (r: StatsReply)
      modifies this
      ensures logs == old(logs) && topics == old(topics) && courses == old(courses)
      ensures userId.None? ==> r == BadRequest && users == old(users)
      ensures userId.Some? ==>
        r == Stats(DailySeries(WindowLogs(logs, userId.value, today), today),
                   ReportedStreak(old(users), userId.value, today),
                   SessionCount(logs, userId.value))
        && users == UsersAfterStats(old(users), userId.value, today)
    {
      if userId.None? {
        return BadRequest;
      }
      var uid := userId.value;
      var window := WindowLogs(logs, uid, today);
      var statsMap := AggregateByDay(window);
      var series := BuildSeries(today, statsMap);
      assert series == DailySeries(window, today);

      var streak := 0;
      if uid in users {
        var user := users[uid];
        if user.lastActiveDate != Some(today) {
          if user.lastActiveDate == Some(today - 1) {
            user := user.(streak := user.streak + 1);
          } else {
            user := user.(streak := 0);
          }
          user := user.(lastActiveDate := Some(today));
          users := users[uid := user];
        }
        streak := user.streak;
      } else {
        streak := 0;
      }
      r := Stats(series, streak, SessionCount(logs, uid));
    }
  }
}
