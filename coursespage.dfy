/**
 * The courses page: the split of the subjects into active and completed ones, the
 * optimistic topic toggle, the progress label and the visibility of a topic's start button.
 */
module CoursesPage {
  import opened Wrappers
  import opened Client
  import opened Seqs
  import Display
  import CourseDetail
  import Timer

  /** `courses.filter(isActive)`: the subjects still to do. */
  function ActiveCourses(cs: seq<Course>): (r: seq<Course>)
    ensures |r| <= |cs|
    ensures forall i :: 0 <= i < |r| ==> Display.IsActive(r[i])
  {
    Filter(cs, Display.IsActive)
  }

  /** `courses.filter(isCompleted)`: the subjects done. */
  function CompletedCourses(cs: seq<Course>): (r: seq<Course>)
    ensures |r| <= |cs|
    ensures forall i :: 0 <= i < |r| ==> Display.IsCompleted(r[i])
  {
    Filter(cs, Display.IsCompleted)
  }

  predicate NonNegativeTargets(cs: seq<Course>) {
    forall i :: 0 <= i < |cs| ==> cs[i].targetHours >= 0.0
  }

  /**
   * With non-negative targets the two lists split the courses: each course is in exactly one,
   * as often as in the page's list, and each list keeps the page's order.
   */
  lemma ActiveCompletedPartition(cs: seq<Course>)
    requires NonNegativeTargets(cs)
    ensures multiset(ActiveCourses(cs)) + multiset(CompletedCourses(cs)) == multiset(cs)
    ensures forall i :: 0 <= i < |cs| ==> (cs[i] in ActiveCourses(cs) <==> !(cs[i] in CompletedCourses(cs)))
  {
    forall i | 0 <= i < |cs| ensures Display.IsActive(cs[i]) != Display.IsCompleted(cs[i]) {
      Display.ActiveIffNotCompleted(cs[i]);
    }
    FilterPartition(cs, Display.IsActive, Display.IsCompleted);
    FilterMembers(cs, Display.IsActive);
    FilterMembers(cs, Display.IsCompleted);
  }

  /** Both lists keep the page's order: a page made of two parts gives each list in two parts. */
  lemma PartitionKeepsOrder(a: seq<Course>, b: seq<Course>)
    ensures ActiveCourses(a + b) == ActiveCourses(a) + ActiveCourses(b)
    ensures CompletedCourses(a + b) == CompletedCourses(a) + CompletedCourses(b)
  {
    FilterConcat(a, b, Display.IsActive);
    FilterConcat(a, b, Display.IsCompleted);
  }

  /** Some course has the id (`courses.find(c => c.id === courseId)`). */
  predicate HasCourse(cs: seq<Course>, id: int) {
    exists i :: 0 <= i < |cs| && cs[i].id == id
  }

  /** `handleToggle(courseId, topicId)`: the matching topic of the matching course flips; an unknown course changes nothing. */
  function ToggleInCourses(cs: seq<Course>, courseId: int, topicId: int): (r: seq<Course>)
    ensures |r| == |cs|
    ensures !HasCourse(cs, courseId) ==> r == cs
    ensures forall i :: 0 <= i < |cs| && cs[i].id != courseId ==> r[i] == cs[i]
    ensures forall i :: 0 <= i < |cs| && cs[i].id == courseId ==>
      r[i] == cs[i].(topics := CourseDetail.FlipTopics(cs[i].topics, topicId))
  {
    if !HasCourse(cs, courseId) then cs
    else
      seq(|cs|, i requires 0 <= i < |cs| =>
        if cs[i].id == courseId then cs[i].(topics := CourseDetail.FlipTopics(cs[i].topics, topicId)) else cs[i])
  }

  /** Toggling the same topic twice restores the page's list. */
  lemma ToggleTwiceRestores(cs: seq<Course>, courseId: int, topicId: int)
    ensures ToggleInCourses(ToggleInCourses(cs, courseId, topicId), courseId, topicId) == cs
  {
    var once := ToggleInCourses(cs, courseId, topicId);
    if HasCourse(cs, courseId) {
      var i :| 0 <= i < |cs| && cs[i].id == courseId;
      assert once[i].id == courseId;
      var twice := ToggleInCourses(once, courseId, topicId);
      forall k | 0 <= k < |cs| ensures twice[k] == cs[k] {
        if cs[k].id == courseId {
          CourseDetail.FlipTopicsTwice(cs[k].topics, topicId);
        }
      }
    }
  }

  /** `targetHours > 0 ? Math.round(studied / target * 100) : 0`. */
  function ProgressLabel(c: Course): (p: int)
    ensures c.targetHours <= 0.0 ==> p == 0
    ensures c.targetHours > 0.0 ==>
      p as real - 0.5 <= c.studiedHours / c.targetHours * 100.0 < p as real + 0.5
  {
    if c.targetHours > 0.0 then
      Display.Round(c.studiedHours / c.targetHours * 100.0)
    else 0
  }

  /** A completed course shows at least 100% and a full bar. */
  lemma CompletedShowsFull(c: Course)
    requires Display.IsCompleted(c)
    ensures ProgressLabel(c) >= 100
    ensures Display.ProgressWidth(c.studiedHours, c.targetHours) == 100.0
  {
    var q := c.studiedHours / c.targetHours;
    assert q * c.targetHours == c.studiedHours;
    assert (q - 1.0) * c.targetHours == c.studiedHours - c.targetHours;
    assert q >= 1.0;
    assert q * 100.0 >= 100.0;
  }

  /** The start button: not completed, and either no target or the target not yet reached. */
  predicate CanStartTopic(t: Topic) {
    !t.isCompleted && (t.targetMinutes == 0 || t.studiedMinutes < t.targetMinutes as real)
  }

  /** A topic with a target that can be started opens a timer with time left to study. */
  lemma StartableHasTimeLeft(c: Course, t: Topic)
    requires CanStartTopic(t) && t.targetMinutes != 0
    ensures Timer.RemainingSeconds(c, Some(t)) > 0.0
  {
  }

  /**
   * A topic without a target can always be started, but the timer counts down from the
   * 30-minute default, so once 30 minutes are studied it opens with no time left.
   */
  lemma StartableWithoutTarget(c: Course, t: Topic)
    requires !t.isCompleted && t.targetMinutes == 0
    ensures CanStartTopic(t)
    ensures Timer.RemainingSeconds(c, Some(t)) > 0.0 <==> t.studiedMinutes < Timer.DefaultTargetMinutes as real
  {
  }
}
