# StudySync study tracker — a Dafny model

StudySync lets a student plan subjects ("courses") made of topics, time study sessions,
and watch their progress. This project models the core of that program:

- the server's activity engine (`activity.controller.js`):
  - logging a session also advances the studied time of the topic and of the course, and completes the topic once it reaches a positive target;
  - the statistics read returns a dense year of per-day minutes with an intensity level, and updates the user's persisted once-per-day visit streak;
- the server's topic toggle (`topic.controller.js`);
- the client's pages and components:
  - the dashboard's year heatmap and streak badges;
  - the study timer;
  - the subject form editor and the payload it submits;
  - the subjects page (active and completed lists, the optimistic toggle, progress labels);
  - the subject detail modal (local toggle, resource library);
  - the calendar's due-date tiles;
  - the settings page's password and profile flows.

The database is the `Activity.Server` class. The log table is an append-only sequence, and the topic, course and user tables are maps from primary key to row.

Components that keep state between events are classes whose methods are the event handlers:
- `Timer.StudyTimer`;
- `CourseForm.CourseFormState`;
- `CourseForm.ResourceInput`;
- `CourseDetail.DetailState`;
- `Settings.SettingsPage`.

The rest is pure functions and lemmas about them. The modules are:

| module | what it holds |
|---|---|
| `Wrappers` | `Option` and `Result` |
| `Decimal` | JavaScript `String()` and `parseInt` on integers |
| `Calendar` | day numbers, weekdays, civil dates and the `YYYY-MM-DD` key |
| `Records` | the server's row shapes and their defaults |
| `Client` | the shapes the client receives |
| `Seqs` | `Array.prototype.filter` |
| `Display` | the helpers that are repeated across the client files |
| One module per source file | `Activity`, `TopicController`, `Heatmap`, `Timer`, `CourseForm`, `CoursesPage`, `CourseDetail`, `CalendarPage` and `Settings` |

Days are integers. Day 0 is 1970-01-01, a Thursday. One day key is used both for log dates and for the buckets of the series. Minutes and hours are `real`. JavaScript `Math.round` is floor of x + 0.5. Where a handler depends on a clock, "now" and "today" are parameters.

The streak is a persisted counter on the user row. It is updated at most once per day, when the statistics are read. It grows by one when the last visit was the day before, and otherwise restarts at 0 (activity.controller.js:123-151). That counter is what `Activity.NextStreak` models.

## Model

| member | source | states |
|---|---|---|
| `Records.NewTopic` | server/src/models/Topic.js:2-19 | a new topic is not completed, has a 30-minute target and nothing studied |
| `Records.NewCourse` | server/src/models/Course.js:2-22 | a new course has no target, nothing studied, the default colour and no due date |
| `Records.NewUser` | server/src/models/User.js:20-32 | a new user has streak 0 and no last-active date |
| `Calendar.Weekday` | client/src/pages/Dashboard.jsx:392 | `getDay()` lies in 0..6 |
| `Calendar.DayOfEra` | server/src/controllers/activity.controller.js:96-99 | a day number splits into a 400-year era and a day 0..146096 within it, counted from 1 March of year 0, which add back to the day |
| `Calendar.YearOfEra` | server/src/controllers/activity.controller.js:96-99 | a day of the era gives a year 0..399 and a day 0..365 of that year from 1 March, which add back to the day of the era; day 365 occurs only when the year of that February, counted within the era, is a leap year |
| `Calendar.MonthOf` | server/src/controllers/activity.controller.js:96-99 | a day of the year from 1 March lies in month 0..11 from March, within that month's length |
| `Calendar.ToCivil` | server/src/controllers/activity.controller.js:96-98 | a day number gives a month in 1..12 and a day of month in 1..31 |
| `Calendar.FromCivilOfToCivil` | server/src/controllers/activity.controller.js:96-99 | counting the days of the date of day d gives back d |
| `Calendar.ToCivilInjective` | server/src/controllers/activity.controller.js:96-99 | distinct days have distinct dates |
| `Calendar.ToCivilIsDate` | server/src/controllers/activity.controller.js:96-99 | the day of month is within the length of its month, with 29 February only in leap years |
| `Calendar.LeapYearPeriodic` | server/src/controllers/activity.controller.js:96 | whether a year is a leap year repeats every 400 years |
| `Calendar.Month` | client/src/pages/Dashboard.jsx:436-444 | `getMonth()` lies in 0..11 |
| `Calendar.Pad2` | server/src/controllers/activity.controller.js:97-98 | `padStart(2, '0')` gives at least two digits |
| `Calendar.Epoch` | server/src/controllers/activity.controller.js:96-99 | day 0 is 1970-01-01, a Thursday, which anchors the day numbering |
| `Calendar.Pad2Value` | server/src/controllers/activity.controller.js:97-98 | the padded field is all digits and reads back as the value |
| `Calendar.Pad2Length` | server/src/controllers/activity.controller.js:97-98 | a value below 100 pads to exactly two digits |
| `Calendar.DayKey` | server/src/controllers/activity.controller.js:96-99 | the key is the year's text, '-', two digits that read back as the month, '-', two digits that read back as the day (the same format as Calendar.jsx:41 and Dashboard.jsx:583) |
| `Calendar.DayKeyInjective` | server/src/controllers/activity.controller.js:96-99 | two days with the same `YYYY-MM-DD` key are the same day |
| `Decimal.NatToString` | client/src/components/CourseFormModal.jsx:33-34 | the digits of n, with no leading zero |
| `Decimal.NatToStringRoundTrip` | client/src/components/CourseFormModal.jsx:33-34 | reading back the digits of n gives n |
| `Decimal.IntToString` | client/src/components/CourseFormModal.jsx:33-34 | the text of an integer is a minus sign exactly when it is negative, then the digits of its absolute value |
| `Decimal.ParseInt` | client/src/components/CourseFormModal.jsx:127-129 | `parseInt` is NaN exactly when, after the leading whitespace and an optional sign, no digit follows |
| `Decimal.ParseIntOfIntToString` | client/src/components/CourseFormModal.jsx:127-129 | `parseInt(String(i))` is i for every integer |
| `Decimal.ParseIntOfDigits` | client/src/components/CourseFormModal.jsx:127-129 | a run of digits parses as its value |
| `Decimal.ParseIntOfNegative` | client/src/components/CourseFormModal.jsx:127-129 | a minus sign and a run of digits parse as the negated value |
| `Decimal.IndexOf` | client/src/components/StudyTimer.jsx:82-90 | the first occurrence of a character, or the length when it does not occur |
| `Decimal.IsBlank` | client/src/components/CourseFormModal.jsx:54 | `!text.trim()`: every character is whitespace |
| `Seqs.Filter` | client/src/pages/Courses.jsx:166-176 | `filter` keeps only elements that satisfy the test |
| `Seqs.FilterMembers` | client/src/pages/Courses.jsx:166-176 | `filter` keeps exactly the elements that satisfy the test |
| `Seqs.FilterConcat` | client/src/pages/Courses.jsx:166-176 | `filter` keeps the order of the elements |
| `Seqs.FilterPartition` | client/src/pages/Courses.jsx:166-176 | two complementary filters split a list: every element lands on exactly one side, as often as it occurs |
| `Seqs.FilterAll` | client/src/pages/Calendar.jsx:37-43 | filtering a list whose every element passes changes nothing |
| `Seqs.FilterStronger` | server/src/controllers/activity.controller.js:62-69 | a stronger test keeps no more elements than a weaker one |
| `Activity.StoredTopicId` | server/src/controllers/activity.controller.js:16 | `topicId \|\| null`: an id of 0 or none is stored as no topic, any other id as itself |
| `Activity.TopicAfterSession` | server/src/controllers/activity.controller.js:26-31 | studied minutes grow by the session; the topic becomes completed exactly when it was, or a positive target is reached; a completed topic stays completed |
| `Activity.CourseAfterSession` | server/src/controllers/activity.controller.js:40 | studied hours grow by minutes / 60; nothing else changes |
| `Activity.TopicsAfterLog` | server/src/controllers/activity.controller.js:22-35 | only the logged topic changes, and only if it exists and the id is given |
| `Activity.CoursesAfterLog` | server/src/controllers/activity.controller.js:38-42 | only the logged course changes, and only if it exists |
| `Activity.CountersMatchLog` | server/src/controllers/activity.controller.js:13-42 | after any run of sessions a topic's studied minutes are its starting minutes plus the minutes logged on it, and a course's hours are its starting hours plus its logged minutes over 60 |
| `Activity.CompletionAfterLogs` | server/src/controllers/activity.controller.js:26-31 | after a run of non-negative sessions a topic ends completed exactly when it started completed, or some session was on it and its final total reaches a positive target |
| `Activity.Intensity` | server/src/controllers/activity.controller.js:103-111 | level 0 exactly for no time, one level per 30 minutes, level 6 from 150 minutes |
| `Activity.IntensityMonotone` | server/src/controllers/activity.controller.js:103-111 | more minutes never give a lower level |
| `Activity.WindowLogs` | server/src/controllers/activity.controller.js:62-69 | the query returns only the user's logs dated within the last year |
| `Activity.WindowLogsExact` | server/src/controllers/activity.controller.js:62-69 | the query returns exactly the user's logs dated within the last year, in the table's order |
| `Activity.WindowKeepsAllRecent` | server/src/controllers/activity.controller.js:62-69 | when every log is the user's and within the year, the query returns the whole table |
| `Activity.SessionCount` | server/src/controllers/activity.controller.js:154 | the session count is at most the number of logs |
| `Activity.SessionCountAppend` | server/src/controllers/activity.controller.js:13-19 | logging a session adds one to its user's session count and leaves the other users' counts unchanged |
| `Activity.WindowWithinSessions` | server/src/controllers/activity.controller.js:62-69 | the user's logs of the last year are no more than the user's sessions |
| `Activity.NewTopicCompletes` | server/src/controllers/activity.controller.js:26-31 | a fresh topic is completed by one session exactly when the session covers its 30-minute default target |
| `Activity.NewUserDailyStreak` | server/src/controllers/activity.controller.js:131-147 | a new user who reads the stats on k + 1 consecutive days has streak k, last active on the last of them |
| `Activity.NewCourseAfterSession` | server/src/controllers/activity.controller.js:38-42 | a fresh course after its first session has the session's minutes as hours and still no target |
| `Activity.AggregateByDay` | server/src/controllers/activity.controller.js:72-81 | the `statsMap` loop: each day's entry is the total minutes logged that day, and exactly the days with a log have an entry |
| `Activity.DailySeries` | server/src/controllers/activity.controller.js:92-120 | 366 buckets; bucket i is the day a year ago plus i, with the minutes logged on it and their level |
| `Activity.BuildSeries` | server/src/controllers/activity.controller.js:92-120 | the 366 loop yields bucket i for the day a year ago plus i, with the looked-up minutes and their level |
| `Activity.SeriesIsDense` | server/src/controllers/activity.controller.js:92-120 | the series runs over consecutive days, ascending, from a year ago to today |
| `Activity.EmptyLogsEmptySeries` | server/src/controllers/activity.controller.js:101 | with no logs every bucket holds 0 minutes at level 0 |
| `Activity.DaysTotalIsMinutesBetween` | server/src/controllers/activity.controller.js:72-81 | the per-day totals over a range of days add up to the minutes logged within that range |
| `Activity.SeriesTotal` | server/src/controllers/activity.controller.js:62-120 | the series accounts for every minute logged within the window and for nothing else |
| `Activity.NextStreak` | server/src/controllers/activity.controller.js:131-148 | the last visit becomes today; a second visit on the same day changes nothing; otherwise the streak grows by one after a visit the day before and restarts at 0 after any other |
| `Activity.StreakIdempotent` | server/src/controllers/activity.controller.js:131-147 | a second update on the same day changes nothing |
| `Activity.StreakNonNegative` | server/src/controllers/activity.controller.js:137-143 | the streak never becomes negative |
| `Activity.StreakRun` | server/src/controllers/activity.controller.js:137-139 | visiting on each of k consecutive days after the last visit adds k to the streak |
| `Activity.StreakGapResets` | server/src/controllers/activity.controller.js:140-143 | a missed day resets the streak to 0 |
| `Activity.ReportedStreak` | server/src/controllers/activity.controller.js:148-151 | an unknown user is reported with streak 0 |
| `Activity.UsersAfterStats` | server/src/controllers/activity.controller.js:125-147 | only the requesting user's row changes, and it becomes the updated streak row |
| `Activity.StatsIdempotentWithinDay` | server/src/controllers/activity.controller.js:131-148 | reading the stats twice on one day: the second read changes nothing and reports the same streak |
| `Activity.SessionRow` | server/src/controllers/activity.controller.js:13-19 | the stored log: `topicId \|\| null`, the given date or today, and the given user, course and minutes |
| `Activity.Server.constructor` | server/src/controllers/activity.controller.js:1-3 | an empty log table over the given topic, course and user tables |
| `Activity.Server.LogSession` | server/src/controllers/activity.controller.js:8-48 | appends the session row; advances the topic by the topic rule and the course by the course rule; leaves the users alone |
| `Activity.Server.GetStats` | server/src/controllers/activity.controller.js:51-160 | 400 without a user id; otherwise the dense series of the user's logs of the last year, the updated streak (0 for an unknown user) and the user's session count; only the user table changes |
| `TopicController.Flip` | server/src/controllers/topic.controller.js:17-21 | the completion flag is negated and nothing else changes |
| `TopicController.FlipInvolution` | server/src/controllers/topic.controller.js:17-21 | toggling twice restores the topic |
| `TopicController.TopicsAfterToggle` | server/src/controllers/topic.controller.js:14-28 | only the toggled topic changes; an unknown id changes nothing |
| `TopicController.ToggleTwiceRestores` | server/src/controllers/topic.controller.js:14-28 | toggling the same topic twice restores the table |
| `TopicController.Toggle` | server/src/controllers/topic.controller.js:14-28 | replies with the flipped topic, or 404 for an unknown id; only the topic table changes |
| `TopicController.ToggleThenLogRecompletes` | server/src/controllers/activity.controller.js:29-31 | after a manual un-complete of a topic past its target, the next session completes it again |
| `TopicController.OnlyToggleClears` | server/src/controllers/topic.controller.js:17-21 | a session never clears the completion flag; the toggle does |
| `Display.Round` | client/src/pages/Dashboard.jsx:176 | `Math.round` picks the integer within half of the value, rounding halves up |
| `Display.SplitHours` | client/src/pages/Dashboard.jsx:175-176 | whole hours below the value, minutes in 0..60, together the value rounded to the minute |
| `Display.Render` | client/src/pages/Dashboard.jsx:177-179 | the rendered duration is never empty |
| `Display.FormatHours` | client/src/pages/Dashboard.jsx:173-180 | no hours or 0 hours show "0m" |
| `Display.RenderReadsBack` | client/src/pages/Dashboard.jsx:177-179 | every rendered duration reads back as itself: "{m}m", "{h}h" and "{h}h {m}m" cannot be confused |
| `Display.FormatHoursMeaning` | client/src/pages/Dashboard.jsx:173-180 | the text reads back as whole hours and minutes that add up to the value rounded to the minute |
| `Display.FormatHoursShowsSixtyMinutes` | client/src/pages/Dashboard.jsx:175-179 | as written, 1.995 hours show as 1 hour and 60 minutes |
| `Display.NormalSplit` | client/src/pages/Dashboard.jsx:175-176 | the corrected split: minutes below 60, together the value rounded to the minute |
| `Display.FormatHoursCarried` | client/src/pages/Dashboard.jsx:173-180 | the corrected `formatTime`: no hours or 0 hours show "0m" |
| `Display.FormatHoursCarriedMeaning` | client/src/pages/Dashboard.jsx:173-180 | the corrected text reads back as the value rounded to the minute, with fewer than 60 minutes |
| `Display.UpperChar` | client/src/pages/Dashboard.jsx:170 | an ASCII lower-case letter becomes its upper case; every other character is kept |
| `Display.Capitalize` | client/src/pages/Dashboard.jsx:170 | empty or missing text gives ""; otherwise the length is kept, the first character is upper-cased and the rest is kept |
| `Display.CapitalizeIdempotent` | client/src/pages/Courses.jsx:163 | capitalising twice is capitalising once |
| `Display.ActiveIffNotCompleted` | client/src/pages/Courses.jsx:166-176 | with a non-negative target a subject is active exactly when it is not completed |
| `Display.IsActive` | client/src/pages/Courses.jsx:166-170 | the active test: no target or less studied than it; a subject without a target is always active |
| `Display.IsCompleted` | client/src/pages/Courses.jsx:172-176 | the completed test: a positive target that is reached; a completed subject is never active |
| `Display.ProgressWidth` | client/src/pages/Dashboard.jsx:324 | the bar is at most 100%, full once a positive target is reached, otherwise studied / target of it; a zero target divides by 1 |
| `CoursesPage.ActiveCompletedPartition` | client/src/pages/Courses.jsx:166-176 | with non-negative targets the active and completed lists together hold every subject exactly once |
| `CoursesPage.PartitionKeepsOrder` | client/src/pages/Courses.jsx:166-176 | both lists keep the page's order |
| `CoursesPage.ActiveCourses` | client/src/pages/Courses.jsx:166-170 | no more subjects than the page holds, each of them active |
| `CoursesPage.CompletedCourses` | client/src/pages/Courses.jsx:172-176 | no more subjects than the page holds, each of them completed |
| `CoursesPage.CanStartTopic` | client/src/pages/Courses.jsx:320 | the start-button test: not completed, and no target or less studied than the target |
| `CoursesPage.ToggleInCourses` | client/src/pages/Courses.jsx:120-137 | the matching topic of the matching subject flips; other subjects and an unknown subject are left as they are |
| `CoursesPage.ToggleTwiceRestores` | client/src/pages/Courses.jsx:126-136 | toggling the same topic twice restores the page's list |
| `CoursesPage.ProgressLabel` | client/src/pages/Courses.jsx:281-283 | 0 without a positive target, else studied / target as a rounded percentage |
| `CoursesPage.CompletedShowsFull` | client/src/pages/Courses.jsx:281-289 | a completed subject shows at least 100% and a full bar |
| `CoursesPage.StartableHasTimeLeft` | client/src/pages/Courses.jsx:320 | a topic with a target whose start button shows opens a timer with time left |
| `CoursesPage.StartableWithoutTarget` | client/src/pages/Courses.jsx:320 | a topic without a target that is not completed always shows the start button, but its timer (30 minutes by default, StudyTimer.jsx:18,27) has time left exactly while fewer than 30 minutes are studied |
| `CourseDetail.FlipTopics` | client/src/components/CourseDetailModal.jsx:30-32 | the topics with the id flip their flag; the others are kept |
| `CourseDetail.FlipTopicsTwice` | client/src/components/CourseDetailModal.jsx:30-32 | flipping the same id twice restores the list |
| `CourseDetail.FlipAbsentTopic` | client/src/components/CourseDetailModal.jsx:30-32 | a list without the id is left as it is |
| `CourseDetail.Tagged` | client/src/components/CourseDetailModal.jsx:166 | one entry per resource of the topic, in order, tagged with the topic's title |
| `CourseDetail.Library` | client/src/components/CourseDetailModal.jsx:166 | the `flatMap` of each topic's tagged resources, in topic order; its length and its split over concatenation are stated by `LibraryLength` and `LibraryConcat` |
| `CourseDetail.NoResources` | client/src/components/CourseDetailModal.jsx:163 | the `every` test: no topic has a resource |
| `CourseDetail.LibraryLength` | client/src/components/CourseDetailModal.jsx:166 | the library holds one entry per resource |
| `CourseDetail.LibraryConcat` | client/src/components/CourseDetailModal.jsx:166 | the library of two topic lists is one library followed by the other |
| `CourseDetail.NoResourcesIffEmptyLibrary` | client/src/components/CourseDetailModal.jsx:163-166 | "no resources" shows exactly when the library is empty |
| `CourseDetail.DetailState.constructor` | client/src/components/CourseDetailModal.jsx:8-12 | the local topic list starts as the subject's topics |
| `CourseDetail.DetailState.CourseChanged` | client/src/components/CourseDetailModal.jsx:8-12 | a new subject resets the local list to its topics |
| `CourseDetail.DetailState.Toggle` | client/src/components/CourseDetailModal.jsx:27-33 | the optimistic toggle flips the local topic and keeps the subject |
| `CalendarPage.FilterNarrowing` | client/src/pages/Calendar.jsx:37-43 | matching a non-empty key after the due-date filter equals matching the key alone |
| `CalendarPage.CoursesForDay` | client/src/pages/Calendar.jsx:37-43 | no more subjects than the page holds, each due on the day's key |
| `CalendarPage.CoursesForDayExact` | client/src/pages/Calendar.jsx:40-43 | a day lists exactly the subjects due on its `yyyy-MM-dd` key, in page order; no subject without a due date is listed |
| `CalendarPage.DayTile` | client/src/pages/Calendar.jsx:47-64 | no tile for a day with no subjects; otherwise the first three subjects and the number of the others |
| `CalendarPage.TileMarksCompletion` | client/src/pages/Calendar.jsx:51 | an entry is marked completed exactly when its subject has a positive target that it has reached |
| `Timer.RemainingSeconds` | client/src/components/StudyTimer.jsx:14-27 | never negative; target minus studied in seconds, for the topic (30 minutes when it has no target) or the subject |
| `Timer.ElapsedSeconds` | client/src/components/StudyTimer.jsx:34 | whole seconds between two millisecond readings, rounded down |
| `Timer.ProgressPercent` | client/src/components/StudyTimer.jsx:92 | between 0 and 100, 0 without time left, full once the time left has been studied, otherwise proportional |
| `Timer.FormatClock` | client/src/components/StudyTimer.jsx:82-90 | the clock text has at least eight characters |
| `Timer.ClockFields` | client/src/components/StudyTimer.jsx:83-85 | minutes and seconds are below 60, and the three fields add back to the total |
| `Timer.ReadClockOfFields` | client/src/components/StudyTimer.jsx:89 | three digit fields joined by colons split back into those fields |
| `Timer.ReadPaddedFields` | client/src/components/StudyTimer.jsx:88-89 | padded fields read back as 3600 h + 60 m + s |
| `Timer.FormatClockReadsBack` | client/src/components/StudyTimer.jsx:82-90 | the clock text reads back as the number of seconds it was made from |
| `Timer.StudyTimer.constructor` | client/src/components/StudyTimer.jsx:7-27 | a stopped timer at zero with no start reading, for the remaining time of the subject or topic |
| `Timer.StudyTimer.Toggle` | client/src/components/StudyTimer.jsx:53-66 | a pause banks the elapsed seconds and clears the start, so banked time never decreases while the clock does not run backwards; a start records the current time |
| `Timer.StudyTimer.Tick` | client/src/components/StudyTimer.jsx:29-49 | a running tick shows banked plus elapsed seconds and latches the target flag once the time left is reached; the latch never clears |
| `Timer.StudyTimer.Stop` | client/src/components/StudyTimer.jsx:68-80 | stops the timer and reports, in minutes, the banked seconds plus those of the running stretch, with the topic id; the banked time is kept |
| `Timer.ReachedMeansFull` | client/src/components/StudyTimer.jsx:40-43 | once the target is reached the progress bar is full |
| `Heatmap.MondayRow` | client/src/pages/Dashboard.jsx:392-393 | rows 0..6 with Monday on top |
| `Heatmap.MondayOffset` | client/src/pages/Dashboard.jsx:392-393 | 0..6 blanks before the first day, so the first column starts on a Monday |
| `Heatmap.AllDays` | client/src/pages/Dashboard.jsx:386-404 | the offset blanks followed by the 365 days shown |
| `Heatmap.AllDaysShape` | client/src/pages/Dashboard.jsx:396-404 | the blanks come first, then every day of the window once, in order |
| `Heatmap.AllDaysAligned` | client/src/pages/Dashboard.jsx:392-404 | every day sits in its own weekday's row |
| `Heatmap.RowAfter` | client/src/pages/Dashboard.jsx:392-404 | a day i days later sits i rows further down, wrapping at seven |
| `Heatmap.CollectDays` | client/src/pages/Dashboard.jsx:396-404 | the two loops that fill `allDays` build the blanks and then the days |
| `Heatmap.Weeks` | client/src/pages/Dashboard.jsx:411-425 | runs of seven cells, the last run padded |
| `Heatmap.WeeksKeepCells` | client/src/pages/Dashboard.jsx:411-425 | reading the weeks in order gives back the cells followed only by blanks |
| `Heatmap.GroupWeeks` | client/src/pages/Dashboard.jsx:411-425 | the `currentWeek` loop builds exactly those weeks |
| `Heatmap.PadWeek` | client/src/pages/Dashboard.jsx:421-425 | the padding loop fills the last week with blanks up to seven cells |
| `Heatmap.IndexByDay` | client/src/pages/Dashboard.jsx:407-408 | the `activityMap` lookup gives the minutes of the last entry for the day, and 0 without one |
| `Heatmap.LatestOfDistinct` | client/src/pages/Dashboard.jsx:407-408 | in a series with one entry per day, a day's lookup is that entry |
| `Heatmap.LatestOfAbsent` | client/src/pages/Dashboard.jsx:453 | a day without an entry shows 0 |
| `Heatmap.CellShowsLoggedMinutes` | client/src/pages/Dashboard.jsx:453 | a cell shows the minutes the server logged for that day when it is in the window, and 0 otherwise |
| `Heatmap.ColorLevel` | client/src/pages/Dashboard.jsx:479-490 | no colour for 0, 20-minute bands, the darkest above 100 minutes |
| `Heatmap.ColorLevelMonotone` | client/src/pages/Dashboard.jsx:479-490 | more minutes never give a lighter colour |
| `Heatmap.FirstReal` | client/src/pages/Dashboard.jsx:437 | the first day of a week, none exactly when the week is all blanks |
| `Heatmap.WeekLabel` | client/src/pages/Dashboard.jsx:436-444 | a week is labelled exactly when its first real day's month differs from the last label, and then with that month |
| `Heatmap.LastMonth` | client/src/pages/Dashboard.jsx:436-444 | the last label is -1 or a month |
| `Heatmap.WeekItems` | client/src/pages/Dashboard.jsx:447-456 | one item per cell of the week, plus its label |
| `Heatmap.GridLayout` | client/src/pages/Dashboard.jsx:428-460 | eight items per week: its seven cells in order, then its label |
| `Heatmap.NoLabelYet` | client/src/pages/Dashboard.jsx:436-444 | before any labelled week the last label is still -1 |
| `Heatmap.FirstRealWeekLabelled` | client/src/pages/Dashboard.jsx:436-444 | the first week holding a day is always labelled |
| `Heatmap.LastMonthSince` | client/src/pages/Dashboard.jsx:436-444 | after a labelled week and unlabelled ones, the last label is that week's month |
| `Heatmap.ConsecutiveLabelsDiffer` | client/src/pages/Dashboard.jsx:436-444 | two labels with none between them name different months |
| `Heatmap.LaterWeekLabel` | client/src/pages/Dashboard.jsx:436-444 | a later week is labelled exactly when its first day's month differs from the last label |
| `Heatmap.FlattenGrid` | client/src/pages/Dashboard.jsx:428-460 | the `weeks.forEach` loop emits exactly the grid's items |
| `Heatmap.WeekCells` | client/src/pages/Dashboard.jsx:447-456 | the inner loop emits the week's cells with their looked-up minutes, then the label |
| `Heatmap.GridStep` | client/src/pages/Dashboard.jsx:428-460 | one more week adds its items and moves the last label on |
| `Heatmap.Grid` | client/src/pages/Dashboard.jsx:428-460 | each week's items with its label, the label computed against the last one before it; its layout is stated by `GridLayout` |
| `Heatmap.Heatmap` | client/src/pages/Dashboard.jsx:383-460 | the grid of the weeks of the days shown; its shape is stated by `HeatmapShape` and `BuildHeatmap` builds it |
| `Heatmap.BuildHeatmap` | client/src/pages/Dashboard.jsx:383-460 | the whole grid builder yields the heatmap |
| `Heatmap.HeatmapShape` | client/src/pages/Dashboard.jsx:383-460 | 53 weeks and 424 items; every day cell is in its weekday's row |
| `Heatmap.LoadStats` | client/src/pages/Dashboard.jsx:85-92 | as written, only the series of the reply is kept |
| `Heatmap.StreakBadge` | client/src/pages/Dashboard.jsx:357 | the header badge shows 0 when there is no streak |
| `Heatmap.CurrentStreakBadge` | client/src/pages/Dashboard.jsx:563 | the summary card shows 0 when there is no `currentStreak` |
| `Heatmap.StreakBadgesAlwaysZero` | client/src/pages/Dashboard.jsx:88 | as written, both badges show 0 whatever streak the server reports |
| `Heatmap.LoadStatsWithStreak` | client/src/pages/Dashboard.jsx:85-92 | the corrected load keeps the series |
| `Heatmap.BadgesShowServerStreak` | client/src/pages/Dashboard.jsx:357 | with the streak kept, both badges show the streak the server computed |
| `CourseForm.RemoveTopicFrom` | client/src/components/CourseFormModal.jsx:59-61 | no kept topic has the id, and none is added |
| `CourseForm.RemoveTopicMembers` | client/src/components/CourseFormModal.jsx:59-61 | exactly the topics with another id are kept |
| `CourseForm.RemoveTopicDistributes` | client/src/components/CourseFormModal.jsx:59-61 | the kept topics stay in their order |
| `CourseForm.RemoveAbsentTopic` | client/src/components/CourseFormModal.jsx:59-61 | a list without the id is left as it is |
| `CourseForm.WithResource` | client/src/components/CourseFormModal.jsx:64-71 | the topic gains the resource at the end, and nothing else changes |
| `CourseForm.AddResourceTo` | client/src/components/CourseFormModal.jsx:64-71 | the matching topics gain the resource at the end; the others are untouched |
| `CourseForm.AddResourceCount` | client/src/components/CourseFormModal.jsx:64-71 | the total number of resources grows by the number of topics with the id, so by one when ids are unique |
| `CourseForm.SetTopicMinutes` | client/src/components/CourseFormModal.jsx:224-229 | only the minutes input of the topic with the id changes, to the typed text |
| `CourseForm.EditTopic` | client/src/components/CourseFormModal.jsx:41-47 | a stored topic's missing or zero target reads as 30 minutes |
| `CourseForm.EditFormData` | client/src/components/CourseFormModal.jsx:26-50 | editing keeps the title, shows a missing due date as empty and a missing colour as the default |
| `CourseForm.EditFieldsMeaning` | client/src/components/CourseFormModal.jsx:28-35 | the hour and minute fields are both blank exactly when the target rounds to zero minutes, and otherwise read back as the target rounded to the minute |
| `CourseForm.SavedMinutes` | client/src/components/CourseFormModal.jsx:140 | a topic is never saved with a zero target |
| `CourseForm.CountedVersusSaved` | client/src/components/CourseFormModal.jsx:127-129 | a topic is saved with what it adds to the total, plus 30 when its field is unparsable or zero |
| `CourseForm.PayloadTopics` | client/src/components/CourseFormModal.jsx:137-142 | one payload topic per form topic, in order |
| `CourseForm.TotalMinutes` | client/src/components/CourseFormModal.jsx:128 | the sum of `parseInt(minutes) \|\| 0` over the topics; its gap to the saved minutes is stated by `TotalsGap` |
| `CourseForm.SubmitPayload` | client/src/components/CourseFormModal.jsx:124-145 | as written: the id when editing, the fields, a due date exactly when one was entered, and the topics |
| `CourseForm.TotalsGap` | client/src/components/CourseFormModal.jsx:127-142 | the saved topic minutes exceed the counted total by 30 for each defaulted field |
| `CourseForm.SubmittedHoursGap` | client/src/components/CourseFormModal.jsx:127-142 | as written, the submitted hours fall short of the saved topics' minutes by 30 for each defaulted field |
| `CourseForm.ClearedMinutesDisagree` | client/src/components/CourseFormModal.jsx:127-142 | a topic whose minutes input was cleared submits 0 target hours but saves 30 minutes |
| `CourseForm.SubmitPayloadConsistent` | client/src/components/CourseFormModal.jsx:124-145 | the corrected payload: the same fields, due date and topics |
| `CourseForm.ConsistentHoursMatchTopics` | client/src/components/CourseFormModal.jsx:127-142 | the corrected target hours are the saved topics' minutes over 60 |
| `CourseForm.CourseFormState.constructor` | client/src/components/CourseFormModal.jsx:9-50 | a new form is empty at step 1; an edit form holds the subject's fields and topics |
| `CourseForm.CourseFormState.TypeTopic` | client/src/components/CourseFormModal.jsx:258 | typing changes only the new-topic text |
| `CourseForm.CourseFormState.AddTopic` | client/src/components/CourseFormModal.jsx:53-57 | blank text adds nothing; otherwise a topic with the typed text, the clock reading as id, no resources and the 30-minute default is appended and the input is cleared |
| `CourseForm.CourseFormState.RemoveTopic` | client/src/components/CourseFormModal.jsx:59-61 | the topics become those with another id |
| `CourseForm.CourseFormState.EditTopicMinutes` | client/src/components/CourseFormModal.jsx:224-229 | only the minutes input of that topic changes |
| `CourseForm.CourseFormState.Next` | client/src/components/CourseFormModal.jsx:280-281 | moves to step 2 only when the title is not empty |
| `CourseForm.CourseFormState.Back` | client/src/components/CourseFormModal.jsx:275 | "Back" returns to step 1 and keeps every field and topic |
| `CourseForm.CourseFormState.SetTitle` | client/src/components/CourseFormModal.jsx:171 | typing the title changes only the title |
| `CourseForm.CourseFormState.SetDueDate` | client/src/components/CourseFormModal.jsx:181 | picking a date changes only the due date |
| `CourseForm.CourseFormState.SetColor` | client/src/components/CourseFormModal.jsx:192 | a swatch changes only the colour |
| `CourseForm.CourseFormState.Submit` | client/src/components/CourseFormModal.jsx:124-145 | submits the as-written payload of the current fields and topics, with the target hours summed from `parseInt(minutes) \|\| 0`; the form does not change |
| `CourseForm.ResourceInput.constructor` | client/src/components/CourseFormModal.jsx:74-78 | the input starts closed and empty, as a link |
| `CourseForm.ResourceInput.HandleAdd` | client/src/components/CourseFormModal.jsx:74-87 | with both title and address filled the resource is added to its topic, and the form's re-render mounts the input afresh: closed, empty and a link again; otherwise nothing changes |
| `CourseForm.ResourceInput.Remount` | client/src/components/CourseFormModal.jsx:74-78 | a render of the form puts the input back in its initial state |
| `CourseForm.ResourceInput.Open` | client/src/components/CourseFormModal.jsx:90 | "Add Resource" opens the input and keeps its fields |
| `CourseForm.ResourceInput.Cancel` | client/src/components/CourseFormModal.jsx:112 | "Cancel" closes the input and keeps its fields |
| `CourseForm.ResourceInput.SetKind` | client/src/components/CourseFormModal.jsx:97 | the selector changes only the resource type |
| `CourseForm.ResourceInput.SetTitle` | client/src/components/CourseFormModal.jsx:104 | typing changes only the resource title |
| `CourseForm.ResourceInput.SetUrl` | client/src/components/CourseFormModal.jsx:109 | typing changes only the resource address |
| `Settings.TextOr` | client/src/pages/Settings.jsx:14-17 | `user?.[key] \|\| fallback`: the stored non-empty text when there is one, else the fallback |
| `Settings.FormDefaults` | client/src/pages/Settings.jsx:32-39 | the profile form shows the stored gender or "male", and the stored birth date or "" |
| `Settings.CheckPassword` | client/src/pages/Settings.jsx:48-62 | a mismatch exactly when the two new passwords differ; too short exactly when they agree and have fewer than six characters; otherwise the request with the user's id, the old and the new password |
| `Settings.RequestMeansConfirmed` | client/src/pages/Settings.jsx:49-56 | a request that is made carries a new password of at least six characters, typed twice |
| `Settings.MergeProfile` | client/src/pages/Settings.jsx:92 | only gender and birth date change; every other stored field is kept |
| `Settings.MergeIdempotent` | client/src/pages/Settings.jsx:92 | merging the same answer twice is merging it once |
| `Settings.MergedFormShowsAnswer` | client/src/pages/Settings.jsx:92-95 | after the merge, the form shows the server's answer (or its defaults) |
| `Settings.SettingsPage.constructor` | client/src/pages/Settings.jsx:13-44 | the page starts with the stored user, its form defaults, empty password fields and closed modals |
| `Settings.SettingsPage.ChangePassword` | client/src/pages/Settings.jsx:48-62 | a request exactly when the two checks pass, and none without a user |
| `Settings.SettingsPage.PasswordChanged` | client/src/pages/Settings.jsx:63-64 | the modal closes and the three fields are cleared |
| `Settings.SettingsPage.UpdateProfile` | client/src/pages/Settings.jsx:85-90 | the request carries the user's id and the form's gender and birth date |
| `Settings.SettingsPage.ProfileUpdated` | client/src/pages/Settings.jsx:90-95 | the user and its stored copy become the merged user, the form follows it, and the modal closes |

## Left out

- HTTP transport, the ORM's queries as such, and the 500 replies on database errors are left out. The tables are in memory and every call succeeds.
- Time zones are left out. The server keys buckets by local date while `new Date()` log dates are stored as UTC dates; the model uses one day key for both.
- Date objects are left out. Days are integers, and years before 1000 are not given four-digit padding in `Calendar.DayKey`.
- The `hours` field of each bucket (`toFixed(1)`) is left out, because it is floating-point display rounding that nothing else reads.
- `setInterval` and `Date.now()` are left out. The timer's clock readings are parameters of `Tick`, `Toggle` and `Stop`.
- Local storage I/O is left out. It is modelled as the `stored` field of `Settings.SettingsPage`.
- `CourseForm.CourseFormState.AddTopic`: `addTopic` takes the new topic's id from `Date.now()`, which is the `now` parameter.
- `CourseForm.EditTopic`: keeps the stored id even when it is 0. The `Date.now() + Math.random()` id that CourseFormModal.jsx:42 gives to a topic whose stored id is falsy is left out, because it is a random value that only serves as a UI key.
- `Display.UpperChar`: only ASCII letters are upper-cased. JavaScript's full Unicode case mapping is left out.
- `Decimal.IsSpace`: only the ASCII and Latin-1 whitespace that `trim` and `parseInt` skip is modelled.
- String lengths are counted in characters, not in UTF-16 code units.
- Month names of the heatmap labels are left out. A label is the month number 0..11.
- The server does not validate `minutes`. A negative session is accepted as in the source, and only `Activity.CompletionAfterLogs` assumes non-negative sessions.
- `Settings.SettingsPage.ChangePassword` and `Settings.SettingsPage.UpdateProfile`: the source has no guard for a missing user and would throw while reading `user.id`. The model returns no request in that case.
- `Settings.TextOr`: only an absent field or empty text counts as falsy. Other falsy JavaScript values (0, false, null) in a stored field are not distinguished.
- The corrected submit payload of the Findings table, `CourseForm.SubmitPayloadConsistent`, is stated and proved beside `CourseForm.CourseFormState.Submit`, which submits the payload as written.
- The dashboard's weekly schedule, which lists the subjects due on each day of the week through the same filter as the calendar, has no separate model. Its filter is `CalendarPage.CoursesForDay`.
- `CourseForm.ResourceInput`: every render of the form mounts every resource input afresh. The model resets an input after its own `HandleAdd` and offers `Remount` for the other renders, but the form's handlers (`TypeTopic`, `AddTopic`, `RemoveTopic`, `EditTopicMinutes`, the setters) do not reset the inputs of the other topics, so in the model text typed there survives an edit elsewhere in the form, where in the source it is lost.
- Rendering, styling, navigation, notifications, the delete-account and theme flows, and the other pages are not part of this model.

## Findings

| source | as written | input that shows it | evidently intended | confidence | as-written member | corrected member |
|---|---|---|---|---|---|---|
| client/src/pages/Dashboard.jsx:88 | keeps only `res.data.yearlyData`, so `activityData.streak` (line 357) and `activityData.currentStreak` (line 563) are always absent | any stats reply, for example streak 5 | both streak badges show the streak the server computed | not executed | `Heatmap.StreakBadgesAlwaysZero` | `Heatmap.BadgesShowServerStreak` |
| client/src/pages/Dashboard.jsx:175-179 | `Math.round((hours - h) * 60)` can give 60, shown as "1h 60m" (the same helper is in Courses.jsx:154-161, CourseDetailModal.jsx:15-22 and Calendar.jsx:72-79) | hours = 1.995 | "2h": a minute count of 60 carries into the hour | not executed | `Display.FormatHoursShowsSixtyMinutes` | `Display.FormatHoursCarriedMeaning` |
| client/src/components/CourseFormModal.jsx:127-142 | the submitted target hours count an unparsable or zero minutes field as 0 (line 128), but the topic is saved with 30 minutes (line 140) | one topic whose minutes input was cleared: 0 target hours, one topic of 30 minutes | the subject's target hours equal its saved topics' minutes over 60 | not executed | `CourseForm.ClearedMinutesDisagree` | `CourseForm.ConsistentHoursMatchTopics` |
