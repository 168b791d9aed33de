/**
 * The shapes the client pages work on: a course as the server sends it, with its topics
 * and their learning resources.  Hours and minutes are exact reals; an absent or null
 * numeric field is represented by 0, which every page treats the same way (`|| 0`).
 */
module Client {
  import opened Wrappers

  datatype Resource = Resource(kind: string, title: string, url: string)

  datatype Topic = Topic(
    id: int,
    title: string,
    isCompleted: bool,
    targetMinutes: int,
    studiedMinutes: real,
    resources: seq<Resource>)

  datatype Course = Course(
    id: int,
    title: string,
    targetHours: real,
    studiedHours: real,
    color: string,
    dueDate: Option<string>,
    topics: seq<Topic>)
}
