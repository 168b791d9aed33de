/**
 * The study timer: a play / pause stopwatch that counts whole seconds from an injected
 * millisecond clock, latches a "target reached" flag once the session covers what is
 * left of the target, and reports minutes when stopped.
 */
module Timer {
  import opened Wrappers
  import opened Decimal
  import opened Calendar
  import opened Client

  /** The target of a topic that has none. */
  const DefaultTargetMinutes: int := 30

  /** `Math.max(0, target - studied)` in seconds; a topic without a target counts 30 minutes. */
  function RemainingSeconds(course: Course, topic: Option<Topic>): (r: real)
    ensures r >= 0.0
    ensures topic.Some? ==>
      var target := if topic.value.targetMinutes == 0 then DefaultTargetMinutes else topic.value.targetMinutes;
      r == if 60.0 * target as real > 60.0 * topic.value.studiedMinutes
           then 60.0 * (target as real - topic.value.studiedMinutes) else 0.0
    ensures topic.None? ==>
      r == if course.targetHours > course.studiedHours then 3600.0 * (course.targetHours - course.studiedHours) else 0.0
  {
    var targetSeconds: real :=
      if topic.Some? then (if topic.value.targetMinutes == 0 then DefaultTargetMinutes else topic.value.targetMinutes) as real * 60.0
      else course.targetHours * 3600.0;
    var studiedSeconds: real :=
      if topic.Some? then topic.value.studiedMinutes * 60.0 else course.studiedHours * 3600.0;
    if targetSeconds - studiedSeconds > 0.0 then targetSeconds - studiedSeconds else 0.0
  }

  /** `Math.floor((now - startTime) / 1000)`: whole seconds between two millisecond readings. */
  function ElapsedSeconds(startTime: int, now: int): (s: int)
    ensures 1000 * s <= now - startTime < 1000 * s + 1000
    ensures now >= startTime ==> s >= 0
  {
    (now - startTime) / 1000
  }

  /** `remainingSeconds > 0 ? Math.min(100, seconds / remainingSeconds * 100) : 0`. */
  function ProgressPercent(seconds: int, remaining: real): (p: real)
    ensures p <= 100.0
    ensures seconds >= 0 ==> p >= 0.0
    ensures remaining <= 0.0 ==> p == 0.0
    ensures remaining > 0.0 && seconds as real >= remaining ==> p == 100.0
    ensures remaining > 0.0 && seconds as real < remaining ==> p * remaining == 100.0 * seconds as real
  {
    if remaining > 0.0 then
      var ratio := seconds as real / remaining * 100.0;
      if ratio < 100.0 then ratio else 100.0
    else 0.0
  }

  /** The seconds shown as "HH:MM:SS", each field zero-padded to two digits. */
  function FormatClock(total: nat): (s: string)
    ensures |s| >= 8
  {
    Pad2(total / 3600) + ":" + Pad2(total % 3600 / 60) + ":" + Pad2(total % 60)
  }

  /** The three fields add back up to the total, minutes and seconds below 60. */
  lemma ClockFields(total: nat)
    ensures 0 <= total % 3600 / 60 < 60 && 0 <= total % 60 < 60
    ensures 3600 * (total / 3600) + 60 * (total % 3600 / 60) + total % 60 == total
  {
  }

  /** Reads "H:M:S" (digit fields) back into seconds: the reference reader of the clock. */
  function ReadClock(s: string): Option<int> {
    var i := IndexOf(s, ':');
    if i == |s| then None else ReadAfterHours(s[..i], s[i + 1..])
  }

  /** The reader after the hours field: the rest is split at its first colon. */
  function ReadAfterHours(h: string, rest: string): Option<int> {
    var j := IndexOf(rest, ':');
    if j == |rest| then None else ReadFields(h, rest[..j], rest[j + 1..])
  }

  function ReadFields(h: string, m: string, sec: string): Option<int> {
    if h != [] && m != [] && sec != [] && AllDigits(h) && AllDigits(m) && AllDigits(sec)
    then Some(3600 * DigitsValue(h) + 60 * DigitsValue(m) + DigitsValue(sec))
    else None
  }

  /** Three digit fields joined by colons are split back into those fields. */
  lemma ReadClockOfFields(a: string, b: string, c: string)
    requires AllDigits(a) && AllDigits(b)
    ensures ReadClock(a + ":" + b + ":" + c) == ReadFields(a, b, c)
  {
    var rest := b + ":" + c;
    assert a + ":" + b + ":" + c == a + ":" + rest;
    SplitAtColon(a, rest);
    assert ReadClock(a + ":" + rest) == ReadAfterHours(a, rest);
    SplitAtColon(b, c);
  }

  /** The first colon after a digit field ends that field. */
  lemma SplitAtColon(a: string, rest: string)
    requires AllDigits(a)
    ensures IndexOf(a + ":" + rest, ':') == |a|
    ensures (a + ":" + rest)[..|a|] == a && (a + ":" + rest)[|a| + 1..] == rest
  {
    DigitsAvoid(a, ':');
    IndexOfAt(a, ":" + rest, ':');
    assert a + (":" + rest) == a + ":" + rest;
  }

  lemma ReadPaddedFields(h: nat, m: nat, sec: nat)
    ensures ReadClock(Pad2(h) + ":" + Pad2(m) + ":" + Pad2(sec)) == Some(3600 * h + 60 * m + sec)
  {
    Pad2Value(h);
    Pad2Value(m);
    Pad2Value(sec);
    ReadClockOfFields(Pad2(h), Pad2(m), Pad2(sec));
  }

  /** The clock text reads back as the number of seconds it was made from. */
  lemma FormatClockReadsBack(total: nat)
    ensures ReadClock(FormatClock(total)) == Some(total)
  {
    var h, m, sec := total / 3600, total % 3600 / 60, total % 60;
    calc {
      ReadClock(FormatClock(total));
      ReadClock(Pad2(h) + ":" + Pad2(m) + ":" + Pad2(sec));
      { ReadPaddedFields(h, m, sec); }
      Some(3600 * h + 60 * m + sec);
      { ClockFields(total); }
      Some(total);
    }
  }

  class StudyTimer {
    var targetReached: bool
    var seconds: int
    var isActive: bool
    var startTime: Option<int>
    var accumulatedTime: int
    const remaining: real
    const topicId: Option<int>

    /** A running timer has a start reading. */
    predicate Valid()
      reads this
    {
      isActive ==> startTime.Some?
    }

    /** The timer for a course, or for one of its topics. */
    constructor (course: Course, topic: Option<Topic>)
      ensures Valid()
      ensures !targetReached && seconds == 0 && !isActive && startTime.None? && accumulatedTime == 0
      ensures remaining == RemainingSeconds(course, topic)
      ensures topicId == if topic.Some? then Some(topic.value.id) else None
    {
      targetReached, seconds, isActive, startTime, accumulatedTime := false, 0, false, None, 0;
      remaining := RemainingSeconds(course, topic);
      topicId := if topic.Some? then Some(topic.value.id) else None;
    }

    /**
     * Play / pause.  Pausing banks the whole seconds since the start reading and drops the
     * reading; playing only takes a new reading.
     */
    method Toggle(now: int)
      requires Valid()
      modifies this
      ensures Valid()
      ensures isActive == !old(isActive)
      ensures old(isActive) ==>
        accumulatedTime == old(accumulatedTime) + ElapsedSeconds(old(startTime).value, now) && startTime.None?
      ensures !old(isActive) ==> accumulatedTime == old(accumulatedTime) && startTime == Some(now)
      ensures old(isActive) && now >= old(startTime).value ==> accumulatedTime >= old(accumulatedTime)
      ensures seconds == old(seconds) && targetReached == old(targetReached)
    {
      if isActive {
        isActive := false;
        var elapsed := (now - startTime.value) / 1000;
        accumulatedTime := accumulatedTime + elapsed;
        startTime := None;
      } else {
        isActive := true;
        startTime := Some(now);
      }
    }

    /**
     * One interval tick: while running, the display shows the banked seconds plus the running
     * ones, and the latch is set once a positive remainder is covered.  It is never cleared.
     */
    method Tick(now: int)
      modifies this
      ensures isActive && old(startTime).Some? ==>
        seconds == old(accumulatedTime) + ElapsedSeconds(old(startTime).value, now)
        && targetReached == (old(targetReached) || (remaining > 0.0 && seconds as real >= remaining))
      ensures !(isActive && old(startTime).Some?) ==> seconds == old(seconds) && targetReached == old(targetReached)
      ensures old(targetReached) ==> targetReached
      ensures isActive == old(isActive) && startTime == old(startTime) && accumulatedTime == old(accumulatedTime)
    {
      if isActive && startTime.Some? {
        var elapsed := (now - startTime.value) / 1000;
        var totalSeconds := accumulatedTime + elapsed;
        seconds := totalSeconds;
        if remaining > 0.0 && totalSeconds as real >= remaining && !targetReached {
          targetReached := true;
        }
      }
    }

    /**
     * Stop: the timer stops and reports the banked seconds, plus the running ones when it was
     * running, as minutes, with the topic id (none for a course session).
     */
    method Stop(now: int) returns (minutes: real, topic: Option<int>)
      requires Valid()
      modifies this
      ensures Valid() && !isActive
      ensures 60.0 * minutes ==
        (old(accumulatedTime) + if old(isActive) then ElapsedSeconds(old(startTime).value, now) else 0) as real
      ensures topic == topicId
      ensures startTime == old(startTime) && accumulatedTime == old(accumulatedTime)
      ensures seconds == old(seconds) && targetReached == old(targetReached)
    {
      var wasActive := isActive;
      isActive := false;
      var totalS := accumulatedTime;
      if wasActive && startTime.Some? {
        totalS := totalS + (now - startTime.value) / 1000;
      }
      minutes := totalS as real / 60.0;
      topic := topicId;
    }
  }

  /** Once the latch is set the progress bar is full. */
  lemma ReachedMeansFull(seconds: int, remaining: real)
    requires remaining > 0.0 && seconds as real >= remaining
    ensures ProgressPercent(seconds, remaining) == 100.0
  {
  }
}
