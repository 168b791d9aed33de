/**
 * The rows the server stores, with the defaults of its model definitions.
 * Identifiers are integers; a field that may hold SQL NULL is an Option.
 */
module Records {
  import opened Wrappers
  import opened Calendar

  /** Default study target of a topic, in minutes. */
  const DefaultTargetMinutes: int := 30

  /** A topic row: its completion flag and its target and studied minutes. */
  datatype TopicRow = TopicRow(
    courseId: Option<int>,
    title: string,
    isCompleted: bool,
    targetMinutes: int,
    studiedMinutes: real)

  /** A course ("subject") row: target and studied time in hours. */
  datatype CourseRow = CourseRow(
    userId: Option<int>,
    title: string,
    targetHours: real,
    studiedHours: real,
    color: string,
    dueDate: Option<Day>)

  /** A user row; `streak` and `lastActiveDate` hold the once-per-day visit counter. */
  datatype UserRow = UserRow(
    username: string,
    email: string,
    gender: Option<string>,
    dob: Option<Day>,
    streak: int,
    lastActiveDate: Option<Day>)

  /** One logged study session; `topicId` is NULL for a session on the whole course. */
  datatype LogRow = LogRow(
    userId: Option<int>,
    courseId: Option<int>,
    topicId: Option<int>,
    minutes: real,
    date: Day)

  /** A topic as first stored: not completed, 30 minutes of target, nothing studied. */
  function NewTopic(courseId: Option<int>, title: string): (t: TopicRow)
    ensures !t.isCompleted && t.targetMinutes == DefaultTargetMinutes && t.studiedMinutes == 0.0
    ensures t.courseId == courseId && t.title == title
  {
    TopicRow(courseId, title, false, DefaultTargetMinutes, 0.0)
  }

  /** A course as first stored: no target, nothing studied, the default colour. */
  function NewCourse(userId: Option<int>, title: string): (c: CourseRow)
    ensures c.targetHours == 0.0 && c.studiedHours == 0.0 && c.color == "bg-orange-100" && c.dueDate.None?
    ensures c.userId == userId && c.title == title
  {
    CourseRow(userId, title, 0.0, 0.0, "bg-orange-100", None)
  }

  /** A user as first stored: streak 0 and never active. */
  function NewUser(username: string, email: string): (u: UserRow)
    ensures u.streak == 0 && u.lastActiveDate.None? && u.gender.None? && u.dob.None?
    ensures u.username == username && u.email == email
  {
    UserRow(username, email, None, None, 0, None)
  }
}
