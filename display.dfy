/**
 * Display rules shared by the dashboard, the courses page, the course detail and the
 * calendar: hours rendered as "1h 30m", the capitalised title, the active / completed
 * predicates of a course and its progress-bar width.
 */
module Display {
  import opened Wrappers
  import opened Decimal
  import opened Client

  // ---------------------------------------------------------------------------
  // Hours as "Xh Ym"
  // ---------------------------------------------------------------------------

  /** JavaScript `Math.round`: the integer nearest to y, halves rounded up. */
  function Round(y: real): (r: int)
    ensures r as real - 0.5 <= y < r as real + 0.5
  {
    (y + 0.5).Floor
  }

  /** A whole number of hours and a number of minutes. */
  datatype Duration = Duration(hours: int, minutes: int)

  /** `h = Math.floor(hours)`, `m = Math.round((hours - h) * 60)`. */
  function SplitHours(x: real): (d: Duration)
    ensures d.hours as real <= x < d.hours as real + 1.0
    ensures 0 <= d.minutes <= 60
    ensures 60 * d.hours + d.minutes == Round(60.0 * x)
  {
    var h := x.Floor;
    Duration(h, Round((x - h as real) * 60.0))
  }

  /** "{h}h {m}m", leaving out a zero part; "0m" when both are zero. */
  function Render(d: Duration): (s: string)
    requires d.minutes >= 0
    ensures |s| >= 2
  {
    if d.hours == 0 then NatToString(d.minutes) + "m"
    else if d.minutes == 0 then IntToString(d.hours) + "h"
    else IntToString(d.hours) + "h " + NatToString(d.minutes) + "m"
  }

  /**
   * `formatTime(hours)` exactly as the pages write it: "0m" for zero or absent hours,
   * otherwise the floor / rounded-minutes split rendered without carrying 60 minutes
   * into the hour.
   */
  function FormatHours(hours: Option<real>): (s: string)
    ensures hours.None? || hours.value == 0.0 ==> s == "0m"
  {
    if hours.None? || hours.value == 0.0 then "0m" else Render(SplitHours(hours.value))
  }

  /** The split with a rounded-up 60 minutes carried into the hour. */
  function NormalSplit(x: real): (d: Duration)
    ensures 0 <= d.minutes < 60
    ensures 60 * d.hours + d.minutes == Round(60.0 * x)
  {
    var d := SplitHours(x);
    if d.minutes == 60 then Duration(d.hours + 1, 0) else d
  }

  /** `formatTime` with the minute part kept below 60. */
  function FormatHoursCarried(hours: Option<real>): (s: string)
    ensures hours.None? || hours.value == 0.0 ==> s == "0m"
  {
    if hours.None? || hours.value == 0.0 then "0m" else Render(NormalSplit(hours.value))
  }

  // The reader of the rendered text, the reference against which the renderers are checked.

  /** "{digits}m" gives the digits' value. */
  function ReadMinutes(t: string): Option<int> {
    if |t| >= 2 && t[|t| - 1] == 'm' && AllDigits(t[..|t| - 1]) then Some(DigitsValue(t[..|t| - 1])) else None
  }

  /** Reads "{m}m", "{h}h" or "{h}h {m}m" back into hours and minutes. */
  function ReadDuration(s: string): Option<Duration> {
    var k := IndexOf(s, 'h');
    if k == |s| then
      match ReadMinutes(s)
      case Some(m) => Some(Duration(0, m))
      case None => None
    else ReadAfterHours(s[..k], s[k + 1..])
  }

  /** The hour field, then nothing or " {m}m". */
  function ReadAfterHours(hs: string, rest: string): Option<Duration> {
    match ParseInt(hs)
    case None => None
    case Some(h) =>
      if rest == [] then Some(Duration(h, 0))
      else if rest[0] == ' ' then
        match ReadMinutes(rest[1..])
        case Some(m) => Some(Duration(h, m))
        case None => None
      else None
  }

  lemma ReadMinutesOf(m: nat)
    ensures ReadMinutes(NatToString(m) + "m") == Some(m)
  {
    var t := NatToString(m) + "m";
    assert t[..|t| - 1] == NatToString(m);
    NatToStringRoundTrip(m);
  }

  lemma ReadsBackMinutesOnly(m: nat)
    ensures ReadDuration(NatToString(m) + "m") == Some(Duration(0, m))
  {
    var s := NatToString(m) + "m";
    DigitsAvoid(NatToString(m), 'h');
    IndexOfAt(s, [], 'h');
    assert s + [] == s;
    ReadMinutesOf(m);
  }

  lemma ReadsBackHoursOnly(h: int)
    ensures ReadDuration(IntToString(h) + "h") == Some(Duration(h, 0))
  {
    var hs := IntToString(h);
    var s := hs + "h";
    IntToStringAvoids(h, 'h');
    IndexOfAt(hs, "h", 'h');
    assert s[..|hs|] == hs;
    assert s[|hs| + 1..] == [];
    ParseIntOfIntToString(h);
  }

  lemma ReadAfterHoursOf(h: int, m: nat)
    ensures ReadAfterHours(IntToString(h), " " + NatToString(m) + "m") == Some(Duration(h, m))
  {
    var t := NatToString(m) + "m";
    assert " " + NatToString(m) + "m" == " " + t;
    calc {
      ReadAfterHours(IntToString(h), " " + t);
      { ParseIntOfIntToString(h); assert (" " + t)[1..] == t; }
      match ReadMinutes(t) case Some(m') => Some(Duration(h, m')) case None => None;
      { ReadMinutesOf(m); }
      Some(Duration(h, m));
    }
  }

  lemma ReadsBackBoth(h: int, m: nat)
    ensures ReadDuration(IntToString(h) + "h " + NatToString(m) + "m") == Some(Duration(h, m))
  {
    var hs := IntToString(h);
    var rest := " " + NatToString(m) + "m";
    var s := hs + "h" + rest;
    BothText(hs, NatToString(m));
    HoursMarkAt(h, rest);
    ReadAtMark(s, |hs|);
    ReadAfterHoursOf(h, m);
  }

  /** The text "{h}h {m}m" is the hour field, the mark and " {m}m". */
  lemma BothText(hs: string, ms: string)
    ensures hs + "h " + ms + "m" == hs + "h" + (" " + ms + "m")
  {
    assert "h " == "h" + " ";
  }

  /** With the first 'h' at k, the reader splits the text there. */
  lemma ReadAtMark(s: string, k: nat)
    requires k < |s| && IndexOf(s, 'h') == k
    ensures ReadDuration(s) == ReadAfterHours(s[..k], s[k + 1..])
  {
  }

  /** The first 'h' of an hour count followed by "h" is that mark. */
  lemma HoursMarkAt(h: int, rest: string)
    ensures IndexOf(IntToString(h) + "h" + rest, 'h') == |IntToString(h)|
    ensures (IntToString(h) + "h" + rest)[..|IntToString(h)|] == IntToString(h)
    ensures (IntToString(h) + "h" + rest)[|IntToString(h)| + 1..] == rest
  {
    var hs := IntToString(h);
    IntToStringAvoids(h, 'h');
    IndexOfAt(hs, "h" + rest, 'h');
    assert hs + ("h" + rest) == hs + "h" + rest;
  }

  /** Every rendered duration reads back as itself. */
  lemma RenderReadsBack(d: Duration)
    requires d.minutes >= 0
    ensures ReadDuration(Render(d)) == Some(d)
  {
    if d.hours == 0 {
      ReadsBackMinutesOnly(d.minutes);
    } else if d.minutes == 0 {
      ReadsBackHoursOnly(d.hours);
    } else {
      ReadsBackBoth(d.hours, d.minutes);
    }
  }

  /**
   * What formatTime shows reads back as hours and minutes adding up to the input rounded to
   * the nearest minute, with a minute part that as written can reach 60.
   */
  lemma FormatHoursMeaning(x: real)
    ensures ReadDuration(FormatHours(Some(x))).Some?
    ensures var d := ReadDuration(FormatHours(Some(x))).value;
      60 * d.hours + d.minutes == Round(60.0 * x) && 0 <= d.minutes <= 60
  {
    if x == 0.0 {
      RenderReadsBack(Duration(0, 0));
      assert FormatHours(Some(x)) == Render(Duration(0, 0));
    } else {
      RenderReadsBack(SplitHours(x));
    }
  }

  /** 1.995 hours show as "1h 60m" rather than "2h". */
  lemma FormatHoursShowsSixtyMinutes()
    ensures ReadDuration(FormatHours(Some(1.995))) == Some(Duration(1, 60))
  {
    assert SplitHours(1.995) == Duration(1, 60);
    RenderReadsBack(Duration(1, 60));
  }

  /** The carried rendering reads back as the input rounded to the minute, with fewer than 60 minutes. */
  lemma FormatHoursCarriedMeaning(x: real)
    ensures ReadDuration(FormatHoursCarried(Some(x))).Some?
    ensures var d := ReadDuration(FormatHoursCarried(Some(x))).value;
      60 * d.hours + d.minutes == Round(60.0 * x) && 0 <= d.minutes < 60
  {
    if x == 0.0 {
      RenderReadsBack(Duration(0, 0));
      assert FormatHoursCarried(Some(x)) == Render(Duration(0, 0));
    } else {
      RenderReadsBack(NormalSplit(x));
    }
  }

  // ---------------------------------------------------------------------------
  // capitalize
  // ---------------------------------------------------------------------------

  /** Upper case of an ASCII letter; every other character is kept. */
  function UpperChar(c: char): (u: char)
    ensures 'a' <= c <= 'z' ==> 'A' <= u <= 'Z' && c as int - u as int == 32
    ensures !('a' <= c <= 'z') ==> u == c
  {
    if 'a' <= c <= 'z' then (c as int - 32) as char else c
  }

  /** `s ? s.charAt(0).toUpperCase() + s.slice(1) : ""`. */
  function Capitalize(s: Option<string>): (r: string)
    ensures s.None? || s.value == [] ==> r == []
    ensures s.Some? ==> |r| == |s.value|
    ensures s.Some? && s.value != [] ==> r[0] == UpperChar(s.value[0]) && r[1..] == s.value[1..]
  {
    if s.None? || s.value == [] then [] else [UpperChar(s.value[0])] + s.value[1..]
  }

  /** Capitalising twice is capitalising once. */
  lemma CapitalizeIdempotent(s: string)
    ensures Capitalize(Some(Capitalize(Some(s)))) == Capitalize(Some(s))
  {
  }

  // ---------------------------------------------------------------------------
  // Course progress
  // ---------------------------------------------------------------------------

  /** Still to do: no target, or less studied than the target; a subject without a target is always active. */
  predicate IsActive(c: Course)
    ensures c.targetHours == 0.0 ==> IsActive(c)
  {
    c.targetHours == 0.0 || c.studiedHours < c.targetHours
  }

  /** Done: a positive target, reached.  A completed subject is never also active. */
  predicate IsCompleted(c: Course)
    ensures IsCompleted(c) ==> !IsActive(c) && c.targetHours > 0.0
  {
    c.targetHours > 0.0 && c.studiedHours >= c.targetHours
  }

  /** With a non-negative target a course is active exactly when it is not completed. */
  lemma ActiveIffNotCompleted(c: Course)
    requires c.targetHours >= 0.0
    ensures IsActive(c) <==> !IsCompleted(c)
  {
  }

  /** `Math.min(100, studied / (target || 1) * 100)`. */
  function ProgressWidth(studied: real, target: real): (w: real)
    ensures w <= 100.0
    ensures target > 0.0 && studied >= target ==> w == 100.0
    ensures target > 0.0 && 0.0 <= studied ==> 0.0 <= w
    ensures target > 0.0 && studied < target ==> w * target == 100.0 * studied
    ensures target == 0.0 ==> w == if studied >= 1.0 then 100.0 else 100.0 * studied
  {
    var ratio := studied / (if target == 0.0 then 1.0 else target) * 100.0;
    if ratio < 100.0 then ratio else 100.0
  }
}
