/** Calendar days as whole day numbers, the Monday-started week around a
    date (date-fns `startOfWeek(d, { weekStartsOn: 1 })` and `addDays`), and
    the `yyyy-MM-dd` day key (date-fns `format(day, 'yyyy-MM-dd')`). */
module Calendar {
  import opened Numerals
  import opened Wrappers

  /** A calendar day: the number of whole days since Monday 0001-01-01 of the
      proleptic Gregorian calendar, the calendar JavaScript's Date uses.
      Arithmetic on it is in whole calendar days, as `addDays` is; there is
      no clock time and no time zone. */
  type Date = nat

  /** `Date.prototype.getDay`: 0 is Sunday, 1 Monday, … 6 Saturday. */
  function GetDay(d: Date): (w: nat)
    ensures w < 7
  {
    (d + 1) % 7
  }

  const MONDAY: nat := 1

  /** The `weekStartsOn` option the week view passes. */
  const WEEK_STARTS_ON: nat := MONDAY

  /** `addDays(d, n)`: the calendar day `n` days after `d`. */
  function AddDays(d: Date, n: nat): Date
  {
    d + n
  }

  /** `startOfWeek(d, { weekStartsOn: 1 })`: steps back `diff` days, where
      `diff` is computed from `getDay` exactly as date-fns does. The result is
      the Monday on or before `d`. */
  function StartOfWeek(d: Date): (m: Date)
    ensures GetDay(m) == MONDAY
    ensures m <= d < m + 7
  {
    var day := GetDay(d);
    var diff := (if day < WEEK_STARTS_ON then 7 else 0) + day - WEEK_STARTS_ON;
    d - diff
  }

  /** The seven days the week view shows for a selected date: its week's
      Monday and the six days after it. The selected date sits at index
      (getDay + 6) mod 7, so a Sunday is the last entry. */
  function WeekOf(d: Date): (week: seq<Date>)
    ensures |week| == 7
    ensures GetDay(week[0]) == MONDAY
    ensures forall i :: 0 <= i < 6 ==> week[i + 1] == AddDays(week[i], 1)
    ensures week[(GetDay(d) + 6) % 7] == d
  {
    DaysFrom(StartOfWeek(d))
  }

  /** The seven consecutive days starting at `start`. */
  function DaysFrom(start: Date): (days: seq<Date>)
    ensures |days| == 7
  {
    seq(7, i requires 0 <= i => AddDays(start, i))
  }

  /** Two dates give the same week window exactly when one lies in the
      other's window: all dates of one Monday-to-Sunday week share it. */
  lemma SameWeekSameWindow(d1: Date, d2: Date)
    ensures WeekOf(d1) == WeekOf(d2) <==> d2 in WeekOf(d1)
  {
    var m1, m2 := StartOfWeek(d1), StartOfWeek(d2);
    assert WeekOf(d1) == DaysFrom(m1) && WeekOf(d2) == DaysFrom(m2);
    if d2 in DaysFrom(m1) {
      var i :| 0 <= i < 7 && DaysFrom(m1)[i] == d2;
      assert m1 <= d2 < m1 + 7;
      MondaysApart(m1, m2);
    } else {
      assert DaysFrom(m2)[d2 - m2] == d2;
    }
  }

  /** Two Mondays less than a week apart are the same day. */
  lemma MondaysApart(m1: Date, m2: Date)
    requires GetDay(m1) == MONDAY && GetDay(m2) == MONDAY
    requires m1 < m2 + 7 && m2 < m1 + 7
    ensures m1 == m2
  {
    assert (m1 + 1) % 7 == (m2 + 1) % 7;
  }

  // Civil dates

  /** A Gregorian calendar date. */
  datatype CivilDate = CivilDate(year: nat, month: nat, day: nat)

  const DAYS_PER_ERA: nat := 146097      // 400 Gregorian years
  const DAYS_PER_CENTURY: nat := 36524   // 100 years whose last is not leap
  const DAYS_PER_QUAD: nat := 1461       // 4 years, the last leap
  const DAYS_PER_YEAR: nat := 365
  /** Days from 0000-03-01 to 0001-01-01: years below are counted from March,
      so that the leap day is the last day of its year. */
  const MARCH_SHIFT: nat := 306

  function Min(a: nat, b: nat): nat { if a < b then a else b }

  /** Splits a day of a 400-year era (counted from 1 March) into the year of
      the era and the day of that March-based year: 100-year centuries
      (the fourth one day longer), 4-year groups, then years (the fourth of
      a group one day longer). */
  function YearOfEra(doe: nat): (r: (nat, nat))
    requires doe < DAYS_PER_ERA
    ensures r.0 < 400 && r.1 <= 365
    ensures DAYS_PER_YEAR * r.0 + r.0 / 4 - r.0 / 100 + r.1 == doe
  {
    var century := Min(doe / DAYS_PER_CENTURY, 3);
    var doc := doe - DAYS_PER_CENTURY * century;
    assert doc <= DAYS_PER_CENTURY;
    var quad := doc / DAYS_PER_QUAD;
    var doq := doc % DAYS_PER_QUAD;
    var yoq := Min(doq / DAYS_PER_YEAR, 3);
    var doy := doq - DAYS_PER_YEAR * yoq;
    var yoe := 100 * century + 4 * quad + yoq;
    assert yoe / 4 == 25 * century + quad;
    assert yoe / 100 == century;
    (yoe, doy)
  }

  /** The day of the March-based year on which day `day` of `month` falls. */
  function DayOfYear(month: nat, day: nat): int
  {
    var mp := if month > 2 then month - 3 else month + 9;
    (153 * mp + 2) / 5 + day - 1
  }

  /** Splits a day of the March-based year into a month (1 to 12) and a day
      of that month. */
  function MonthDay(doy: nat): (r: (nat, nat))
    requires doy <= 365
    ensures 1 <= r.0 <= 12 && 1 <= r.1 <= 31
    ensures DayOfYear(r.0, r.1) == doy
  {
    var mp := (5 * doy + 2) / 153;
    var day := doy - (153 * mp + 2) / 5 + 1;
    (if mp < 10 then mp + 3 else mp - 9, day)
  }

  /** The civil date of a day number: split the days since 0000-03-01 into
      400-year eras and the day of the era, that into a year and a day of
      the year, and that into a month and a day. January and February end a
      March-based year, so they belong to the next calendar year. */
  function ToCivil(d: Date): (c: CivilDate)
    ensures 1 <= c.month <= 12 && 1 <= c.day <= 31
  {
    var z := d + MARCH_SHIFT;
    var (yoe, doy) := YearOfEra(z % DAYS_PER_ERA);
    var (month, day) := MonthDay(doy);
    CivilDate(400 * (z / DAYS_PER_ERA) + yoe + (if month <= 2 then 1 else 0), month, day)
  }

  /** The day number of a civil date (of the proleptic Gregorian calendar,
      counted from 0001-01-01); the reference definition `ToCivil` inverts. */
  function FromCivil(c: CivilDate): int
  {
    var y := c.year - (if c.month <= 2 then 1 else 0);
    var yoe := y % 400;
    (y / 400) * DAYS_PER_ERA + DAYS_PER_YEAR * yoe + yoe / 4 - yoe / 100
      + DayOfYear(c.month, c.day) - MARCH_SHIFT
  }

  /** Converting a day number to its civil date and back gives the same day. */
  lemma CivilRoundTrip(d: Date)
    ensures FromCivil(ToCivil(d)) == d
  {
    var z := d + MARCH_SHIFT;
    var (yoe, doy) := YearOfEra(z % DAYS_PER_ERA);
    var (month, day) := MonthDay(doy);
    FromCivilOfEra(z, yoe, doy, month, day);
    assert ToCivil(d) == CivilDate(400 * (z / DAYS_PER_ERA) + yoe + (if month <= 2 then 1 else 0), month, day);
  }

  /** `FromCivil` undoes the split of the shifted day number `z` into an
      era, a year of the era, a month and a day. */
  lemma FromCivilOfEra(z: nat, yoe: nat, doy: nat, month: nat, day: nat)
    requires yoe < 400 && DAYS_PER_YEAR * yoe + yoe / 4 - yoe / 100 + doy == z % DAYS_PER_ERA
    requires DayOfYear(month, day) == doy
    ensures FromCivil(CivilDate(400 * (z / DAYS_PER_ERA) + yoe + (if month <= 2 then 1 else 0), month, day))
      == z - MARCH_SHIFT
  {
    var era := z / DAYS_PER_ERA;
    var y := 400 * era + yoe;
    assert y / 400 == era && y % 400 == yoe;
    assert era * DAYS_PER_ERA + z % DAYS_PER_ERA == z;
  }

  /** Different days have different civil dates. */
  lemma ToCivilInjective(d1: Date, d2: Date)
    ensures ToCivil(d1) == ToCivil(d2) <==> d1 == d2
  {
    CivilRoundTrip(d1);
    CivilRoundTrip(d2);
  }

  // ---------------------------------------------------------------------
  // Day keys

  /** `format(d, 'yyyy-MM-dd')`: the year zero-padded to at least four
      digits, then the month and the day zero-padded to two. */
  function FormatDayKey(d: Date): string
  {
    var c := ToCivil(d);
    PadDecimal(c.year, 4) + "-" + PadDecimal(c.month, 2) + "-" + PadDecimal(c.day, 2)
  }

  /** Reads a `yyyy-MM-dd` key back into a civil date, taking the month and
      the day from the two-digit fields at the end. */
  function ParseDayKey(s: string): Option<CivilDate>
  {
    if |s| < 10 || s[|s| - 3] != '-' || s[|s| - 6] != '-' then None
    else Some(CivilDate(ParseDecimal(s[..|s| - 6]),
                        ParseDecimal(s[|s| - 5..|s| - 3]),
                        ParseDecimal(s[|s| - 2..])))
  }

  /** A key assembled from a year and a month and day below 100 reads back
      as those three numbers. */
  lemma KeyFieldsRoundTrip(year: nat, month: nat, day: nat)
    requires month < 100 && day < 100
    ensures ParseDayKey(PadDecimal(year, 4) + "-" + PadDecimal(month, 2) + "-" + PadDecimal(day, 2))
      == Some(CivilDate(year, month, day))
  {
    var y, m, dd := PadDecimal(year, 4), PadDecimal(month, 2), PadDecimal(day, 2);
    PadTwoDigits(month);
    PadTwoDigits(day);
    assert |y| >= 4;
    ParseKeyFields(y, m, dd);
    ParsePadDecimal(year, 4);
    ParsePadDecimal(month, 2);
    ParsePadDecimal(day, 2);
  }

  /** `ParseDayKey` reads back each of the three fields of a key whose
      year has at least four characters. */
  lemma ParseKeyFields(y: string, m: string, dd: string)
    requires |y| >= 4 && |m| == 2 && |dd| == 2
    ensures ParseDayKey(y + "-" + m + "-" + dd) == Some(CivilDate(ParseDecimal(y), ParseDecimal(m), ParseDecimal(dd)))
  {
    KeyFields(y, m, dd);
  }

  /** A key is its three fields at fixed distances from its end, with a
      dash before each of the last two. */
  lemma KeyFields(y: string, m: string, dd: string)
    requires |m| == 2 && |dd| == 2
    ensures var s := y + "-" + m + "-" + dd;
      |s| == |y| + 6 && s[|s| - 3] == '-' && s[|s| - 6] == '-' &&
      s[..|s| - 6] == y && s[|s| - 5..|s| - 3] == m && s[|s| - 2..] == dd
  {
    var t := "-" + m + "-" + dd;
    assert y + "-" + m + "-" + dd == y + t;
    assert t[1..3] == m && t[4..] == dd;
  }

  /** The key of a day reads back as that day's civil date. */
  lemma FormatDayKeyRoundTrip(d: Date)
    ensures ParseDayKey(FormatDayKey(d)) == Some(ToCivil(d))
  {
    var c := ToCivil(d);
    KeyFieldsRoundTrip(c.year, c.month, c.day);
  }

  /** Two days share a key exactly when they are the same day. */
  lemma FormatDayKeyInjective(d1: Date, d2: Date)
    ensures FormatDayKey(d1) == FormatDayKey(d2) <==> d1 == d2
  {
    FormatDayKeyRoundTrip(d1);
    FormatDayKeyRoundTrip(d2);
    ToCivilInjective(d1, d2);
  }

  /** The keys of a sequence of days, in order. */
  function DayKeys(days: seq<Date>): (keys: seq<string>)
    ensures |keys| == |days|
  {
    seq(|days|, i requires 0 <= i < |days| => FormatDayKey(days[i]))
  }

  /** A sequence of seven days counted up from `start` is `DaysFrom(start)`. */
  lemma DaysFromElements(start: Date, days: seq<Date>)
    requires |days| == 7
    requires forall j :: 0 <= j < 7 ==> days[j] == AddDays(start, j)
    ensures days == DaysFrom(start)
  {
  }

  /** Appending a day appends its key. */
  lemma DayKeysAppend(days: seq<Date>, day: Date)
    ensures DayKeys(days + [day]) == DayKeys(days) + [FormatDayKey(day)]
  {
  }

  /** The keys of the seven days of a week window, in order. */
  function WeekKeys(d: Date): (keys: seq<string>)
    ensures |keys| == 7
  {
    DayKeys(WeekOf(d))
  }

  /** The seven keys of a week window are pairwise different. */
  lemma WeekKeysAreDistinct(d: Date)
    ensures forall i, j :: 0 <= i < j < 7 ==> WeekKeys(d)[i] != WeekKeys(d)[j]
  {
    WeekKeysDistinct(WeekOf(d));
  }

  /** Distinct days of a window give distinct keys. */
  lemma WeekKeysDistinct(week: seq<Date>)
    requires |week| == 7
    requires forall i :: 0 <= i < 6 ==> week[i + 1] == week[i] + 1
    ensures forall i, j :: 0 <= i < j < 7 ==> FormatDayKey(week[i]) != FormatDayKey(week[j])
  {
    forall i, j | 0 <= i < j < 7
      ensures FormatDayKey(week[i]) != FormatDayKey(week[j])
    {
      assert forall k :: 0 <= k < 7 ==> week[k] == week[0] + k by {
        forall k | 0 <= k < 7 ensures week[k] == week[0] + k {
          var n := 0;
          while n < k
            invariant n <= k && week[n] == week[0] + n
          {
            n := n + 1;
          }
        }
      }
      FormatDayKeyInjective(week[i], week[j]);
    }
  }

  /** Day 0 is Monday 1 January of year 1, the first day of the model's dates. */
  lemma DayZero()
    ensures GetDay(0) == MONDAY
    ensures ToCivil(0) == CivilDate(1, 1, 1)
    ensures FormatDayKey(0) == "0001-01-01"
  {
    assert YearOfEra(MARCH_SHIFT) == (0, MARCH_SHIFT);
    assert MonthDay(MARCH_SHIFT) == (1, 1);
    assert Decimal(1) == "1";
  }

  /** Monday 1 January 2024 is day 738885. */
  lemma NewYear2024()
    ensures GetDay(738885) == MONDAY
    ensures ToCivil(738885) == CivilDate(2024, 1, 1)
  {
    assert (738885 + MARCH_SHIFT) / DAYS_PER_ERA == 5;
    assert (738885 + MARCH_SHIFT) % DAYS_PER_ERA == 8706;
    assert YearOfEra(8706) == (23, 306);
    assert MonthDay(306) == (1, 1);
  }

  /** The key of Monday 1 January 2024 is "2024-01-01". */
  lemma NewYear2024Key()
    ensures FormatDayKey(738885) == "2024-01-01"
  {
    NewYear2024();
    PaddedNewYearFields();
  }

  /** The window of Wednesday 3 January 2024 runs from Monday 1 January to
      Sunday 7 January, with the Wednesday at index 2. */
  lemma WednesdayWindow()
    ensures WeekOf(738887) == [738885, 738886, 738887, 738888, 738889, 738890, 738891]
    ensures WeekOf(738887)[2] == 738887
  {
    assert StartOfWeek(738887) == 738885;
  }
}
