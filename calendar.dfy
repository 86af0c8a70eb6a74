/**
 * The proleptic Gregorian calendar of Python's `datetime.date`: dates are
 * day numbers ("ordinals", 0001-01-01 is day 1, 9999-12-31 the last one),
 * converted to and from year/month/day, plus the two date texts the
 * weekly tables use: `strftime('%d%m%y')` and `strptime(s, '%d%m%y')`.
 */
module Calendar {
  import opened Wrappers

  /** The ordinal of 9999-12-31, the last date Python represents. */
  const MaxOrdinal := 3652059

  /** Microseconds per day, the resolution of Python's datetimes. */
  const DayMicros := 86_400_000_000

  datatype Date = Date(year: int, month: int, day: int)

  predicate IsLeap(y: int) {
    y % 4 == 0 && (y % 100 != 0 || y % 400 == 0)
  }

  function DaysInYear(y: int): int {
    if IsLeap(y) then 366 else 365
  }

  function DaysInMonth(y: int, m: int): int {
    if m == 2 then (if IsLeap(y) then 29 else 28)
    else if m == 4 || m == 6 || m == 9 || m == 11 then 30
    else 31
  }

  predicate ValidDate(d: Date) {
    1 <= d.year <= 9999 && 1 <= d.month <= 12 && 1 <= d.day <= DaysInMonth(d.year, d.month)
  }

  /** Days in the years before `y`. */
  function DaysBeforeYear(y: int): int
    requires y >= 1
  {
    var p := y - 1;
    365 * p + p / 4 - p / 100 + p / 400
  }

  /** Days in the months of year `y` before month `m`. */
  function DaysBeforeMonth(y: int, m: int): int
    requires 1 <= m <= 12
  {
    (if m == 1 then 0 else if m == 2 then 31 else if m == 3 then 59
     else if m == 4 then 90 else if m == 5 then 120 else if m == 6 then 151
     else if m == 7 then 181 else if m == 8 then 212 else if m == 9 then 243
     else if m == 10 then 273 else if m == 11 then 304 else 334)
    + (if m > 2 && IsLeap(y) then 1 else 0)
  }

  /** `date(y, m, d).toordinal()`. */
  function ToOrdinal(d: Date): int
    requires ValidDate(d)
  {
    DaysBeforeYear(d.year) + DaysBeforeMonth(d.year, d.month) + d.day
  }

  /** A year adds its own length to the day count. */
  lemma DaysBeforeNextYear(y: int)
    requires y >= 1
    ensures DaysBeforeYear(y + 1) == DaysBeforeYear(y) + DaysInYear(y)
  {
    var p := y - 1;
    assert y / 4 == p / 4 + (if y % 4 == 0 then 1 else 0);
    assert y / 100 == p / 100 + (if y % 100 == 0 then 1 else 0);
    assert y / 400 == p / 400 + (if y % 400 == 0 then 1 else 0);
  }

  lemma {:induction false} DaysBeforeYearMonotone(a: int, b: int)
    requires 1 <= a <= b
    ensures DaysBeforeYear(a) + 365 * (b - a) <= DaysBeforeYear(b)
    decreases b - a
  {
    if a < b {
      DaysBeforeYearMonotone(a, b - 1);
      DaysBeforeNextYear(b - 1);
    }
  }

  /** The year holding day `n`, searched upwards from year `y`; `FindYearBounds` says it is found. */
  function FindYear(n: int, y: int): int
    requires y >= 1 && DaysBeforeYear(y) < n
    decreases n - DaysBeforeYear(y)
  {
    DaysBeforeNextYear(y);
    if n <= DaysBeforeYear(y + 1) then y else FindYear(n, y + 1)
  }

  /** The year search ends at the year whose days hold day `n`. */
  lemma {:induction false} FindYearBounds(n: int, y: int)
    requires y >= 1 && DaysBeforeYear(y) < n
    ensures FindYear(n, y) >= y && DaysBeforeYear(FindYear(n, y)) < n <= DaysBeforeYear(FindYear(n, y) + 1)
    decreases n - DaysBeforeYear(y)
  {
    DaysBeforeNextYear(y);
    if n > DaysBeforeYear(y + 1) {
      FindYearBounds(n, y + 1);
    }
  }

  /** The month holding day `doy` of year `y`, searched upwards from month `m`; see `FindMonthBounds`. */
  function FindMonth(y: int, doy: int, m: int): int
    requires 1 <= m <= 12 && DaysBeforeMonth(y, m) < doy <= DaysInYear(y)
    decreases 12 - m
  {
    if m == 12 || doy <= DaysBeforeMonth(y, m + 1) then m else FindMonth(y, doy, m + 1)
  }

  /** The month search ends at the month whose days hold day `doy` of the year. */
  lemma {:induction false} FindMonthBounds(y: int, doy: int, m: int)
    requires 1 <= m <= 12 && DaysBeforeMonth(y, m) < doy <= DaysInYear(y)
    ensures var r := FindMonth(y, doy, m);
      m <= r <= 12 && DaysBeforeMonth(y, r) < doy <= DaysBeforeMonth(y, r) + DaysInMonth(y, r)
    decreases 12 - m
  {
    if !(m == 12 || doy <= DaysBeforeMonth(y, m + 1)) {
      FindMonthBounds(y, doy, m + 1);
    }
  }

  /**
   * `date.fromordinal(n)`. That the result is a valid date whose ordinal
   * is `n` is `FromOrdinalInverse`.
   */
  function FromOrdinal(n: int): (d: Date)
    requires 1 <= n <= MaxOrdinal
    ensures 1 <= d.year <= 9999 && 1 <= d.month <= 12 && 1 <= d.day <= 31
  {
    FindYearBounds(n, 1);
    var y := FindYear(n, 1);
    if y >= 10000 then
      DaysBeforeYearMonotone(10000, y);
      assert false;
      Date(1, 1, 1)
    else
      DaysBeforeNextYear(y);
      var doy := n - DaysBeforeYear(y);
      FindMonthBounds(y, doy, 1);
      var m := FindMonth(y, doy, 1);
      Date(y, m, doy - DaysBeforeMonth(y, m))
  }

  /** `date.fromordinal` inverts `date.toordinal`: it gives the valid date whose ordinal is `n`. */
  lemma FromOrdinalInverse(n: int)
    requires 1 <= n <= MaxOrdinal
    ensures ValidDate(FromOrdinal(n)) && ToOrdinal(FromOrdinal(n)) == n
  {
    FindYearBounds(n, 1);
    var y := FindYear(n, 1);
    if y >= 10000 {
      DaysBeforeYearMonotone(10000, y);
    } else {
      DaysBeforeNextYear(y);
      FindMonthBounds(y, n - DaysBeforeYear(y), 1);
    }
  }

  /** `date.weekday()`: Monday is 0, Sunday is 6; day 1 was a Monday. */
  function Weekday(n: int): int {
    (n + 6) % 7
  }

  // ---------------------------------------------------------------------
  // strftime('%d%m%y')

  function DigitChar(k: int): char
    requires 0 <= k <= 9
  {
    ('0' as int + k) as char
  }

  function DigitValue(c: char): int {
    c as int - '0' as int
  }

  predicate IsDigit(c: char) {
    '0' <= c <= '9'
  }

  /** A number below 100 as two zero-padded decimal digits. */
  function TwoDigits(k: int): (s: string)
    requires 0 <= k < 100
    ensures |s| == 2 && IsDigit(s[0]) && IsDigit(s[1])
    ensures 10 * DigitValue(s[0]) + DigitValue(s[1]) == k
  {
    [DigitChar(k / 10), DigitChar(k % 10)]
  }

  /** `date.fromordinal(n).strftime('%d%m%y')`. */
  function Ddmmyy(n: int): (s: string)
    requires 1 <= n <= MaxOrdinal
    ensures |s| == 6
  {
    var d := FromOrdinal(n);
    TwoDigits(d.day) + TwoDigits(d.month) + TwoDigits(d.year % 100)
  }

  /** A `%d%m%y` text is six decimal digits. */
  lemma DdmmyyDigits(n: int)
    requires 1 <= n <= MaxOrdinal
    ensures forall i :: 0 <= i < |Ddmmyy(n)| ==> IsDigit(Ddmmyy(n)[i])
  {
    var d := FromOrdinal(n);
    var dd, mm, yy := TwoDigits(d.day), TwoDigits(d.month), TwoDigits(d.year % 100);
    assert Ddmmyy(n) == dd + mm + yy;
  }

  // ---------------------------------------------------------------------
  // strptime(s, '%d%m%y')
  //
  // The format compiles to the regular expression
  //   (3[01]|[12]\d|0[1-9]|[1-9]| [1-9]) (1[0-2]|0[1-9]|[1-9]) (\d\d)
  // matched at the start of `s`, alternatives tried in order with
  // backtracking; the first match found must then end exactly at the end
  // of `s` ("unconverted data remains" otherwise).

  /** A group alternative that matched: its value and how many characters it took. */
  datatype Group = Group(value: int, len: nat)

  /** The alternatives of the day group that match at the start of `s`, in the order they are tried. */
  function DayChoices(s: string): seq<Group> {
    (if |s| >= 2 && s[0] == '3' && (s[1] == '0' || s[1] == '1') then [Group(30 + DigitValue(s[1]), 2)] else [])
    + (if |s| >= 2 && (s[0] == '1' || s[0] == '2') && IsDigit(s[1])
       then [Group(10 * DigitValue(s[0]) + DigitValue(s[1]), 2)] else [])
    + (if |s| >= 2 && s[0] == '0' && '1' <= s[1] <= '9' then [Group(DigitValue(s[1]), 2)] else [])
    + (if |s| >= 1 && '1' <= s[0] <= '9' then [Group(DigitValue(s[0]), 1)] else [])
    + (if |s| >= 2 && s[0] == ' ' && '1' <= s[1] <= '9' then [Group(DigitValue(s[1]), 2)] else [])
  }

  /** The alternatives of the month group that match at the start of `s`, in the order they are tried. */
  function MonthChoices(s: string): seq<Group> {
    (if |s| >= 2 && s[0] == '1' && '0' <= s[1] <= '2' then [Group(10 + DigitValue(s[1]), 2)] else [])
    + (if |s| >= 2 && s[0] == '0' && '1' <= s[1] <= '9' then [Group(DigitValue(s[1]), 2)] else [])
    + (if |s| >= 1 && '1' <= s[0] <= '9' then [Group(DigitValue(s[0]), 1)] else [])
  }

  /** The two-digit year group at the start of `s`. */
  function YearAt(s: string): Option<int> {
    if |s| >= 2 && IsDigit(s[0]) && IsDigit(s[1]) then Some(10 * DigitValue(s[0]) + DigitValue(s[1])) else None
  }

  /** What the regular expression captured: day, month, two-digit year and where the match ended. */
  datatype Captures = Captures(day: int, month: int, yy: int, end: nat)

  /** The first month alternative (after a day group of `dayLen` characters) followed by a year. */
  function MatchMonth(s: string, day: Group, months: seq<Group>): Option<Captures>
    requires day.len <= |s|
  {
    if months == [] then None
    else
      var m := months[0];
      var rest := s[day.len..];
      if m.len <= |rest| && YearAt(rest[m.len..]).Some? then
        Some(Captures(day.value, m.value, YearAt(rest[m.len..]).value, day.len + m.len + 2))
      else MatchMonth(s, day, months[1..])
  }

  /** The first day alternative for which some month alternative and a year follow. */
  function MatchDay(s: string, days: seq<Group>): Option<Captures>
    requires forall g :: g in days ==> g.len <= |s|
  {
    if days == [] then None
    else
      var m := MatchMonth(s, days[0], MonthChoices(s[days[0].len..]));
      if m.Some? then m else MatchDay(s, days[1..])
  }

  /** `re.match` of the `%d%m%y` expression against `s`. */
  function MatchDdmmyy(s: string): Option<Captures> {
    MatchDay(s, DayChoices(s))
  }

  /** `%y`: two-digit years up to 68 are 20xx, the others 19xx. */
  function CenturyYear(yy: int): int {
    if yy <= 68 then 2000 + yy else 1900 + yy
  }

  /**
   * `datetime.strptime(s, '%d%m%y')` as a day number, or `None` where it
   * raises `ValueError`: no match, unconverted data left over, or a day
   * beyond the end of its month.
   */
  function ParseDdmmyy(s: string): (r: Option<int>)
    ensures r.Some? ==> 1 <= r.value <= MaxOrdinal
  {
    match MatchDdmmyy(s)
    case None => None
    case Some(c) =>
      var date := Date(CenturyYear(c.yy), c.month, c.day);
      if c.end != |s| || !ValidDate(date) then None
      else
        DaysBeforeYearMonotone(date.year, 9999);
        DaysBeforeNextYear(9999);
        Some(ToOrdinal(date))
  }

  /** Day, month and two-digit year at the start of a formatted date match as two-character groups. */
  lemma DayGroupOfTwoDigits(s: string, d: int)
    requires 1 <= d <= 31 && |s| >= 2 && s[..2] == TwoDigits(d)
    ensures |DayChoices(s)| > 0 && DayChoices(s)[0] == Group(d, 2)
  {
    assert s[0] == DigitChar(d / 10) && s[1] == DigitChar(d % 10);
  }

  lemma MonthGroupOfTwoDigits(s: string, m: int)
    requires 1 <= m <= 12 && |s| >= 2 && s[..2] == TwoDigits(m)
    ensures |MonthChoices(s)| > 0 && MonthChoices(s)[0] == Group(m, 2)
  {
    assert s[0] == DigitChar(m / 10) && s[1] == DigitChar(m % 10);
  }

  /** A date from 1969 to 2068 written as `%d%m%y` parses back to itself. */
  lemma ParseFormatted(d: Date)
    requires ValidDate(d) && 1969 <= d.year <= 2068
    ensures ParseDdmmyy(TwoDigits(d.day) + TwoDigits(d.month) + TwoDigits(d.year % 100)) == Some(ToOrdinal(d))
  {
    var dd, mm, yy := TwoDigits(d.day), TwoDigits(d.month), TwoDigits(d.year % 100);
    var s := dd + mm + yy;
    assert s[..2] == dd;
    DayGroupOfTwoDigits(s, d.day);
    var days := DayChoices(s);
    var afterDay := s[days[0].len..];
    assert afterDay == mm + yy;
    assert afterDay[..2] == mm;
    MonthGroupOfTwoDigits(afterDay, d.month);
    var months := MonthChoices(afterDay);
    assert afterDay[months[0].len..] == yy;
    var c := Captures(d.day, d.month, d.year % 100, 6);
    assert MatchMonth(s, days[0], months) == Some(c);
    assert MatchDdmmyy(s) == Some(c);
    assert CenturyYear(d.year % 100) == d.year;
  }

  /**
   * Round trip: for dates from 1969 to 2068, the years that `%y` maps back
   * to themselves, `strptime(d.strftime('%d%m%y'), '%d%m%y')` is `d`.
   */
  lemma DdmmyyRoundTrip(n: int)
    requires 1 <= n <= MaxOrdinal && 1969 <= FromOrdinal(n).year <= 2068
    ensures ParseDdmmyy(Ddmmyy(n)) == Some(n)
  {
    FromOrdinalInverse(n);
    ParseFormatted(FromOrdinal(n));
  }
}
