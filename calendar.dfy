/**
 * Calendar days as integers.  Day 0 is 1970-01-01 (a Thursday); every other
 * calendar date is the number of days from it.  The functions below give what
 * a JavaScript `Date` for that day answers to `getDay()`, `getMonth()`,
 * `getDate()` and `getFullYear()`, in the proleptic Gregorian calendar.
 */
module Calendar {
  import Decimal

  type Day = int

  /** `getDay()`: 0 for Sunday, 1 for Monday, ..., 6 for Saturday. */
  function Weekday(d: Day): (w: int)
    ensures 0 <= w <= 6
  {
    (d + 4) % 7
  }

  /** A calendar date: full year, month 1..12, day of month 1..31. */
  datatype Civil = Civil(year: int, month: int, day: int)

  /** The 400-year era of day d; eras start on 1 March of a year divisible by 400. */
  function EraOf(d: Day): int {
    (d + 719468) / 146097
  }

  /** The day of its era of day d: 0 for 1 March of the era's first year. */
  function DayOfEra(d: Day): (doe: int)
    ensures 0 <= doe < 146097
    ensures 146097 * EraOf(d) + doe == d + 719468
  {
    d + 719468 - 146097 * EraOf(d)
  }

  /** A year of an era (0..399, counted from 1 March) and a day of that year (0..365). */
  datatype YearDay = YearDay(yoe: int, doy: int)

  /**
   * The year of an era and the day of that year: the era splits into four centuries (the
   * last one a day longer), each century into four-year groups (the last one of a short
   * century a day shorter), and each group into years.  The years before year `yoe` of
   * the era hold `365 * yoe + yoe / 4 - yoe / 100` days, and only a year followed by a
   * leap year has a day 365 (its 29 February).
   */
  function YearOfEra(doe: int): (p: YearDay)
    requires 0 <= doe < 146097
    ensures 0 <= p.yoe <= 399 && 0 <= p.doy <= 365
    ensures 365 * p.yoe + p.yoe / 4 - p.yoe / 100 + p.doy == doe
    ensures p.doy == 365 ==> IsLeapYear(p.yoe + 1)
  {
    var cen := if doe / 36524 < 4 then doe / 36524 else 3;
    var r := doe - 36524 * cen;             // day of century, 0..36524
    var quad := r / 1461;
    var r2 := r - 1461 * quad;              // day of four-year group, 0..1460
    var y := if r2 / 365 < 4 then r2 / 365 else 3;
    var yoe := 100 * cen + 4 * quad + y;
    assert 0 <= quad <= 24 && 0 <= y <= 3;
    assert yoe == 4 * (25 * cen + quad) + y;
    assert yoe == 100 * cen + (4 * quad + y);
    assert yoe / 4 == 25 * cen + quad && yoe / 100 == cen;
    YearDay(yoe, r2 - 365 * y)
  }

  /** The month of a day of the year counted from 1 March: 0 = March, ..., 11 = February. */
  function MonthOf(doy: int): (mp: int)
    requires 0 <= doy <= 365
    ensures 0 <= mp <= 11
    ensures 0 <= doy - (153 * mp + 2) / 5 < MarchMonthLength(mp)
  {
    (5 * doy + 2) / 153
  }

  /** Length of month mp counted from March, taking February at its longest. */
  function MarchMonthLength(mp: int): int {
    if mp == 11 then 29 else if mp == 1 || mp == 3 || mp == 6 || mp == 8 then 30 else 31
  }

  /** The date of day number `d`: the year of its era, then the month and day of that year. */
  function ToCivil(d: Day): (c: Civil)
    ensures 1 <= c.month <= 12 && 1 <= c.day <= 31
  {
    var p := YearOfEra(DayOfEra(d));
    var mp := MonthOf(p.doy);
    var month := if mp < 10 then mp + 3 else mp - 9;
    Civil(p.yoe + 400 * EraOf(d) + (if month <= 2 then 1 else 0), month, p.doy - (153 * mp + 2) / 5 + 1)
  }

  /** `getMonth()`: 0 for January, ..., 11 for December. */
  function Month(d: Day): (m: int)
    ensures 0 <= m <= 11
  {
    ToCivil(d).month - 1
  }

  /** `String(v).padStart(2, '0')` for a non-negative v. */
  function Pad2(v: nat): (s: string)
    ensures |s| >= 2 && Decimal.AllDigits(s)
  {
    var digits := Decimal.NatToString(v);
    if |digits| < 2 then "0" + digits else digits
  }

  /** A two-digit pad keeps the value. */
  lemma Pad2Value(v: nat)
    ensures Decimal.AllDigits(Pad2(v)) && Decimal.DigitsValue(Pad2(v)) == v
  {
    var digits := Decimal.NatToString(v);
    Decimal.NatToStringRoundTrip(v);
    if |digits| < 2 {
      var p := "0" + digits;
      assert p[..|p| - 1] == "0";
      assert ""[..0] == "";
      assert "0"[..0] == "";
    }
  }

  /** A value below 100 pads to exactly two digits. */
  lemma Pad2Length(v: nat)
    requires v < 100
    ensures |Pad2(v)| == 2
  {
    if v >= 10 {
      assert Decimal.NatToString(v) == Decimal.NatToString(v / 10) + [Decimal.DigitChar(v % 10)];
    }
  }

  /** The `YYYY-MM-DD` key of a day: the one key by which the model matches days to strings. */
  function DayKey(d: Day): (s: string)
    ensures |s| >= 7 && s[|s| - 6] == '-' && s[|s| - 3] == '-'
    ensures s[..|s| - 6] == Decimal.IntToString(ToCivil(d).year)
    ensures Decimal.AllDigits(s[|s| - 5..|s| - 3]) && Decimal.DigitsValue(s[|s| - 5..|s| - 3]) == ToCivil(d).month
    ensures Decimal.AllDigits(s[|s| - 2..]) && Decimal.DigitsValue(s[|s| - 2..]) == ToCivil(d).day
  {
    var c := ToCivil(d);
    Pad2Length(c.month);
    Pad2Length(c.day);
    Pad2Value(c.month);
    Pad2Value(c.day);
    var y, mm, dd := Decimal.IntToString(c.year), Pad2(c.month), Pad2(c.day);
    var key := y + "-" + mm + "-" + dd;
    assert key[..|key| - 6] == y;
    assert key[|key| - 5..|key| - 3] == mm;
    assert key[|key| - 2..] == dd;
    key
  }

  /** Distinct days have distinct keys, so matching a key picks out exactly one day. */
  lemma DayKeyInjective(d: Day, e: Day)
    requires DayKey(d) == DayKey(e)
    ensures d == e
  {
    var c, c' := ToCivil(d), ToCivil(e);
    Pad2Length(c.month); Pad2Length(c'.month); Pad2Length(c.day); Pad2Length(c'.day);
    KeyFields(Decimal.IntToString(c.year), Pad2(c.month), Pad2(c.day),
              Decimal.IntToString(c'.year), Pad2(c'.month), Pad2(c'.day));
    Decimal.ParseIntOfIntToString(c.year);
    Decimal.ParseIntOfIntToString(c'.year);
    Pad2Value(c.month); Pad2Value(c'.month); Pad2Value(c.day); Pad2Value(c'.day);
    ToCivilInjective(d, e);
  }

  /** A key with two-character month and day fields splits back into its three fields. */
  lemma KeyFields(y: string, m: string, dd: string, y': string, m': string, dd': string)
    requires |m| == |m'| == |dd| == |dd'| == 2
    requires y + "-" + m + "-" + dd == y' + "-" + m' + "-" + dd'
    ensures y == y' && m == m' && dd == dd'
  {
    var k := y + "-" + m + "-" + dd;
    assert |y| == |y'|;
    assert y == k[..|y|] == y';
    assert m == k[|y| + 1..|y| + 3] == m';
    assert dd == k[|y| + 4..] == dd';
  }

  /** 1970-01-01 is day 0, a Thursday. */
  lemma Epoch()
    ensures ToCivil(0) == Civil(1970, 1, 1) && Weekday(0) == 4
  {
    // era 4, century 3 of the era, four-year group 17, year 1 of the group, day 306 from 1 March
    assert 719468 / 146097 == 4 && 135080 / 36524 == 3;
    assert 25508 / 1461 == 17 && 671 / 365 == 1;
    assert (5 * 306 + 2) / 153 == 10 && (153 * 10 + 2) / 5 == 306;
  }

  /** A year of the Gregorian calendar with a 29 February. */
  predicate IsLeapYear(y: int) {
    y % 4 == 0 && (y % 100 != 0 || y % 400 == 0)
  }

  /** The number of days of month m (1..12) of year y. */
  function MonthLength(y: int, m: int): int
    requires 1 <= m <= 12
  {
    if m == 2 then (if IsLeapYear(y) then 29 else 28)
    else if m == 4 || m == 6 || m == 9 || m == 11 then 30
    else 31
  }

  /**
   * The day number of a date: its era of 400 years, the year of the era counted from
   * 1 March, and the day of that year, added up.
   */
  function FromCivil(c: Civil): Day {
    var y := c.year - (if c.month <= 2 then 1 else 0);
    var era := y / 400;
    var yoe := y - 400 * era;                                   // 0..399
    var mp := if c.month > 2 then c.month - 3 else c.month + 9;  // 0 = March, ..., 11 = February
    var doy := (153 * mp + 2) / 5 + c.day - 1;
    146097 * era + 365 * yoe + yoe / 4 - yoe / 100 + doy - 719468
  }

  /** Counting the days of the date of day d gives back d. */
  lemma FromCivilOfToCivil(d: Day)
    ensures FromCivil(ToCivil(d)) == d
  {
    var doe := DayOfEra(d);
    var p := YearOfEra(doe);
    var mp := MonthOf(p.doy);
    var c := ToCivil(d);
    // FromCivil recovers the year of the era, the month from March and the day of the year
    assert c.year - (if c.month <= 2 then 1 else 0) == p.yoe + 400 * EraOf(d);
    assert (p.yoe + 400 * EraOf(d)) / 400 == EraOf(d);
    assert (if c.month > 2 then c.month - 3 else c.month + 9) == mp;
    assert (153 * mp + 2) / 5 + c.day - 1 == p.doy;
    assert 365 * p.yoe + p.yoe / 4 - p.yoe / 100 + p.doy == doe;
  }

  /** Distinct day numbers have distinct dates. */
  lemma ToCivilInjective(d: Day, e: Day)
    requires ToCivil(d) == ToCivil(e)
    ensures d == e
  {
    FromCivilOfToCivil(d);
    FromCivilOfToCivil(e);
  }

  /** The date of every day number is a real date: its day of month is within the month's length. */
  lemma ToCivilIsDate(d: Day)
    ensures ToCivil(d).day <= MonthLength(ToCivil(d).year, ToCivil(d).month)
  {
    var p := YearOfEra(DayOfEra(d));
    var c := ToCivil(d);
    if c.month == 2 && c.day == 29 {
      assert p.doy == 365;
      LeapYearPeriodic(p.yoe + 1, EraOf(d));
    }
  }

  /** Whether a year is a leap year repeats every 400 years. */
  lemma LeapYearPeriodic(y: int, k: int)
    ensures IsLeapYear(y + 400 * k) == IsLeapYear(y)
  {
    ShiftMod4(y, k);
    ShiftMod100(y, k);
    ShiftMod400(y, k);
  }

  lemma ShiftMod4(y: int, k: int)
    ensures (y + 400 * k) % 4 == y % 4
  {
    assert y + 400 * k == 4 * (y / 4 + 100 * k) + y % 4;
  }

  lemma ShiftMod100(y: int, k: int)
    ensures (y + 400 * k) % 100 == y % 100
  {
    assert y + 400 * k == 100 * (y / 100 + 4 * k) + y % 100;
  }

  lemma ShiftMod400(y: int, k: int)
    ensures (y + 400 * k) % 400 == y % 400
  {
    assert y + 400 * k == 400 * (y / 400 + k) + y % 400;
  }
}
