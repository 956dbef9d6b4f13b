/** Dates as the granule names write them (`%d%b%y`, e.g. `03Jul09`), and the
    day arithmetic the conversion step uses to put a granule's nominal time
    half-way between its start and end dates. */
module Dates {
  import opened Values

  /** The month abbreviations, in order (the `imonth` table; `%b` uses the same). */
  const MonthNames: seq<string> :=
    ["Jan", "Feb", "Mar", "Apr", "May", "Jun", "Jul", "Aug", "Sep", "Oct", "Nov", "Dec"]

  /** The number of the month a (known) abbreviation names. */
  function MonthNumber(name: string): (m: int)
    requires name in MonthNames
    ensures 1 <= m <= 12 && MonthNames[m - 1] == name
  {
    if name == "Jan" then 1 else if name == "Feb" then 2 else if name == "Mar" then 3
    else if name == "Apr" then 4 else if name == "May" then 5 else if name == "Jun" then 6
    else if name == "Jul" then 7 else if name == "Aug" then 8 else if name == "Sep" then 9
    else if name == "Oct" then 10 else if name == "Nov" then 11 else 12
  }

  /** The shape `\d\d(Jan|...|Dec)\d\d` that the file-name grammar gives a date. */
  predicate IsDateText(t: string) {
    |t| == 7 && IsDigit(t[0]) && IsDigit(t[1]) && t[2..5] in MonthNames
    && IsDigit(t[5]) && IsDigit(t[6])
  }

  /** The `%y` rule of `strptime`: 00-68 are 2000-2068, 69-99 are 1969-1999. */
  function PivotYear(yy: int): (y: int)
    requires 0 <= yy < 100
    ensures 1969 <= y <= 2068 && y % 100 == yy
  {
    if yy <= 68 then 2000 + yy else 1900 + yy
  }

  /** `datetime.strptime(t, "%d%b%y")` on a text of the grammar's shape: `None`
      stands for the `ValueError` it raises when the day does not exist in that
      month (a day `00`, or `31Feb09`). */
  function StrpDate(t: string): (r: Option<CivilDate>)
    requires IsDateText(t)
    ensures r.Some? <==> 1 <= TwoDigitValue(t[..2]) <= DaysInMonth(PivotYear(TwoDigitValue(t[5..])), MonthNumber(t[2..5]))
  {
    var day := TwoDigitValue(t[..2]);
    var month := MonthNumber(t[2..5]);
    var year := PivotYear(TwoDigitValue(t[5..]));
    if 1 <= day <= DaysInMonth(year, month) then Some(Date(year, month, day)) else None
  }

  /** `datetime.strftime(d, '%d%b%y')`. */
  function StrfDate(d: CivilDate): string {
    PadInt(d.day, 2) + MonthNames[d.month - 1] + PadInt(d.year % 100, 2)
  }

  /** Rendering a date that was read from a name gives back that name's text. */
  lemma StrfOfStrp(t: string)
    requires IsDateText(t) && StrpDate(t).Some?
    ensures StrfDate(StrpDate(t).value) == t
  {
    var d := StrpDate(t).value;
    PadTwoDigits(t[..2]);
    PadTwoDigits(t[5..]);
    assert t == t[..2] + t[2..5] + t[5..];
  }

  /** The three fields of a rendered date, each read back on its own. */
  lemma StrfFields(d: CivilDate)
    ensures IsDateText(StrfDate(d))
    ensures TwoDigitValue(StrfDate(d)[..2]) == d.day
    ensures MonthNumber(StrfDate(d)[2..5]) == d.month
    ensures TwoDigitValue(StrfDate(d)[5..]) == d.year % 100
  {
    var t := StrfDate(d);
    TwoDigitsOfPad(d.day);
    TwoDigitsOfPad(d.year % 100);
    var a, b := PadInt(d.day, 2), PadInt(d.year % 100, 2);
    assert t[..2] == a && t[2..5] == MonthNames[d.month - 1] && t[5..] == b;
    MonthNumberOf(d.month);
  }

  lemma MonthNumberOf(m: int)
    requires 1 <= m <= 12
    ensures MonthNumber(MonthNames[m - 1]) == m
  {
  }

  /** Reading a rendered date gives the date whose year is the one in the
      `%y` pivot century (1969-2068) with the same last two digits, and fails
      when that year has no such day (29 February). */
  lemma StrpOfStrfShifts(d: CivilDate, y: int)
    requires 1969 <= y <= 2068 && y % 100 == d.year % 100
    ensures IsDateText(StrfDate(d))
    ensures StrpDate(StrfDate(d)) ==
      if d.day <= DaysInMonth(y, d.month) then Some(Date(y, d.month, d.day)) else None
  {
    StrfFields(d);
    var yy := d.year % 100;
    assert PivotYear(yy) == y;
  }

  /** Reading a rendered date gives back the date, for the century the `%y`
      pivot covers (1969-2068). */
  lemma StrpOfStrf(d: CivilDate)
    requires 1969 <= d.year <= 2068
    ensures IsDateText(StrfDate(d)) && StrpDate(StrfDate(d)) == Some(d)
  {
    StrpOfStrfShifts(d, d.year);
  }

  /** Outside the pivot century the year changes: a date in 1950 reads back
      in 2050. */
  lemma PivotLosesCentury()
    ensures StrpDate(StrfDate(Date(1950, 6, 1))) == Some(Date(2050, 6, 1))
  {
    StrpOfStrfShifts(Date(1950, 6, 1), 2050);
  }

  /** `strptime` rejects a matched date that does not exist. */
  lemma ImpossibleDateRejected()
    ensures IsDateText("31Feb09") && StrpDate("31Feb09") == None
  {
    var t := "31Feb09";
    assert t[..2] == "31" && t[2..5] == "Feb" && t[5..] == "09";
  }

  /** Date order as `datetime` compares dates: by year, then month, then day. */
  predicate DateLess(a: Date, b: Date) {
    a.year < b.year || (a.year == b.year && (a.month < b.month || (a.month == b.month && a.day < b.day)))
  }

  function DaysInYear(y: int): int { if IsLeap(y) then 366 else 365 }

  /** Days in the years before `y` (Python's `_days_before_year`). */
  function DaysBeforeYear(y: int): int {
    var p := y - 1;
    365 * p + p / 4 - p / 100 + p / 400
  }

  const CumulativeDays: seq<int> := [0, 31, 59, 90, 120, 151, 181, 212, 243, 273, 304, 334]

  /** Days in the months of year `y` before month `m` (`_days_before_month`). */
  function DaysBeforeMonth(y: int, m: int): int
    requires 1 <= m <= 12
  {
    CumulativeDays[m - 1] + (if m > 2 && IsLeap(y) then 1 else 0)
  }

  /** `date.toordinal()`: 1 for 0001-01-01, counting days from there. */
  function Ordinal(d: CivilDate): int {
    DaysBeforeYear(d.year) + DaysBeforeMonth(d.year, d.month) + d.day
  }

  /** A date at midnight as whole seconds on the ordinal scale. */
  function Seconds(d: CivilDate): int { Ordinal(d) * 86400 }

  /** `start + (end - start) / 2`, in seconds: the nominal time of a granule. */
  function Midpoint(start: CivilDate, end: CivilDate): int {
    Seconds(start) + (Seconds(end) - Seconds(start)) / 2
  }

  lemma MonthStep(y: int, m: int)
    requires 1 <= m < 12
    ensures DaysBeforeMonth(y, m) + DaysInMonth(y, m) == DaysBeforeMonth(y, m + 1)
  {
  }

  lemma {:induction false} MonthsBefore(y: int, m1: int, m2: int)
    requires 1 <= m1 < m2 <= 12
    ensures DaysBeforeMonth(y, m1) + DaysInMonth(y, m1) <= DaysBeforeMonth(y, m2)
    decreases m2 - m1
  {
    MonthStep(y, m1);
    if m1 + 1 < m2 {
      MonthsBefore(y, m1 + 1, m2);
    }
  }

  lemma MonthWithinYear(y: int, m: int)
    requires 1 <= m <= 12
    ensures DaysBeforeMonth(y, m) + DaysInMonth(y, m) <= DaysInYear(y)
  {
    if m < 12 {
      MonthsBefore(y, m, 12);
    }
  }

  lemma DivStep(y: int, k: int)
    requires k == 4 || k == 100 || k == 400
    ensures y / k - (y - 1) / k == if y % k == 0 then 1 else 0
  {
    var q, r := y / k, y % k;
    assert y == k * q + r && 0 <= r < k;
    if r == 0 {
      assert y - 1 == k * (q - 1) + (k - 1);
    } else {
      assert y - 1 == k * q + (r - 1);
    }
  }

  lemma YearStep(y: int)
    ensures DaysBeforeYear(y + 1) == DaysBeforeYear(y) + DaysInYear(y)
  {
    DivStep(y, 4);
    DivStep(y, 100);
    DivStep(y, 400);
    var a4, a100, a400 := y / 4, y / 100, y / 400;
    var b4, b100, b400 := (y - 1) / 4, (y - 1) / 100, (y - 1) / 400;
    assert DaysBeforeYear(y + 1) == 365 * y + a4 - a100 + a400;
    assert DaysBeforeYear(y) == 365 * (y - 1) + b4 - b100 + b400;
    assert DaysBeforeYear(y + 1) - DaysBeforeYear(y) == 365 + (a4 - b4) - (a100 - b100) + (a400 - b400);
    LeapSteps(y);
  }

  /** The three quotient steps add up to the length of the year. */
  lemma LeapSteps(y: int)
    ensures 365 + (y / 4 - (y - 1) / 4) - (y / 100 - (y - 1) / 100) + (y / 400 - (y - 1) / 400) == DaysInYear(y)
  {
    DivStep(y, 4);
    DivStep(y, 100);
    DivStep(y, 400);
    if y % 400 == 0 {
      QuadCenturyDivides(y);
      CenturyDivides(y);
    } else if y % 100 == 0 {
      CenturyDivides(y);
    }
  }

  /** A multiple of 400 is a multiple of 100. */
  lemma QuadCenturyDivides(y: int)
    requires y % 400 == 0
    ensures y % 100 == 0
  {
    var q := y / 400;
    assert y == 100 * (4 * q);
  }

  /** A multiple of 100 is a multiple of 4. */
  lemma CenturyDivides(y: int)
    requires y % 100 == 0
    ensures y % 4 == 0
  {
    var q := y / 100;
    assert y == 4 * (25 * q);
  }

  lemma {:induction false} YearsBefore(y1: int, y2: int)
    requires y1 < y2
    ensures DaysBeforeYear(y1) + DaysInYear(y1) <= DaysBeforeYear(y2)
    decreases y2 - y1
  {
    YearStep(y1);
    if y1 + 1 < y2 {
      YearsBefore(y1 + 1, y2);
      YearStep(y1 + 1);
    }
  }

  /** Comparing dates field by field agrees with their order in time: a date
      that compares smaller has the smaller ordinal, and conversely. */
  lemma ChronologicalOrder(a: CivilDate, b: CivilDate)
    ensures DateLess(a, b) <==> Ordinal(a) < Ordinal(b)
  {
    if DateLess(a, b) {
      LessHasSmallerOrdinal(a, b);
    } else if DateLess(b, a) {
      LessHasSmallerOrdinal(b, a);
    } else {
      assert a == b;
    }
  }

  lemma LessHasSmallerOrdinal(a: CivilDate, b: CivilDate)
    requires DateLess(a, b)
    ensures Ordinal(a) < Ordinal(b)
  {
    if a.year < b.year {
      MonthWithinYear(a.year, a.month);
      YearsBefore(a.year, b.year);
    } else if a.month < b.month {
      MonthsBefore(a.year, a.month, b.month);
    }
  }

  /** The nominal time lies half-way between the start and end dates, and so
      between them whenever the start is not after the end. */
  lemma MidpointHalfway(start: CivilDate, end: CivilDate)
    ensures 2 * (Midpoint(start, end) - Seconds(start)) == Seconds(end) - Seconds(start)
    ensures !DateLess(end, start) ==> Seconds(start) <= Midpoint(start, end) <= Seconds(end)
  {
    var os, oe := Ordinal(start), Ordinal(end);
    var diff := oe - os;
    assert Seconds(end) - Seconds(start) == oe * 86400 - os * 86400 == 2 * (diff * 43200);
    assert (2 * (diff * 43200)) / 2 == diff * 43200;
    ChronologicalOrder(end, start);
  }
}
