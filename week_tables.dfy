/**
 * The weekly partitioning of the news database (`lambda/lambda_function.py`):
 * each calendar week, Monday to Sunday, has one table named
 * `ddmmyy-ddmmyy` after its Monday and its Sunday, and a table whose
 * Sunday lies more than 90 days in the past is dropped.
 */
module WeekTables {
  import opened Wrappers
  import opened Calendar
  import Text

  /**
   * An aware datetime: an instant, in microseconds since 0001-01-01T00:00
   * UTC, shown at a UTC offset given in seconds.
   */
  datatype Stamp = Stamp(utc: int, offset: int)

  /** The offset of Asia/Singapore, UTC+08:00. */
  const SingaporeOffset := 8 * 3600

  /** `dt.date()`: the day number of the calendar date the stamp shows. */
  function LocalDate(t: Stamp): int {
    (t.utc + t.offset * 1_000_000) / DayMicros + 1
  }

  /** `dt.astimezone(Asia/Singapore)`: the same instant, shown at +08:00. */
  function ToSingapore(t: Stamp): Stamp {
    Stamp(t.utc, SingaporeOffset)
  }

  /** `d - timedelta(days=d.weekday())`: the Monday on or before day `n`. */
  function WeekStart(n: int): int {
    n - Weekday(n)
  }

  /**
   * `get_table_name(d)` for the date with day number `n`: the week's Monday
   * and Sunday as `%d%m%y`, joined by `-`. `None` where the Sunday lies
   * past 9999-12-31 and the date arithmetic raises `OverflowError`.
   */
  function TableName(n: int): (r: Option<string>)
    requires 1 <= n <= MaxOrdinal
    ensures r.Some? <==> WeekStart(n) + 6 <= MaxOrdinal
    ensures r.Some? ==> TableNameShape(r.value)
  {
    WeekTableName(WeekStart(n))
  }

  /** The shape of every table name: six digits, a `-`, six digits. */
  predicate TableNameShape(s: string) {
    |s| == 13 && s[6] == '-' && forall i :: 0 <= i < 13 && i != 6 ==> IsDigit(s[i])
  }

  /** The name of the table of the week starting on day `start`. */
  function WeekTableName(start: int): (r: Option<string>)
    requires 1 <= start
    ensures r.Some? <==> start + 6 <= MaxOrdinal
    ensures r.Some? ==> TableNameShape(r.value)
  {
    if start + 6 > MaxOrdinal then None
    else
      DdmmyyDigits(start);
      DdmmyyDigits(start + 6);
      Some(Ddmmyy(start) + "-" + Ddmmyy(start + 6))
  }

  /** `datetime.now(tz=Asia/Singapore)` as a day number, for the clock reading `now` (UTC microseconds). */
  function SingaporeToday(now: int): int {
    LocalDate(Stamp(now, SingaporeOffset))
  }

  /** `get_current_week_table_name()`: the table of the week of today's date in Singapore. */
  function CurrentWeekTableName(now: int): (r: Option<string>)
    requires 1 <= SingaporeToday(now) <= MaxOrdinal
    ensures r.Some? <==> WeekStart(SingaporeToday(now)) + 6 <= MaxOrdinal
    ensures r.Some? ==> TableNameShape(r.value)
  {
    TableName(SingaporeToday(now))
  }

  /**
   * The end date `delete_old_tables` reads from a table name: the
   * component after the first `-`, parsed with `%d%m%y`. `None` for names
   * without `-` and for components `strptime` rejects.
   */
  function EndDate(name: string): (r: Option<int>)
    ensures '-' !in name ==> r == None
  {
    var parts := Text.Split(name, '-');
    // `'-' in name` holds exactly when the split has a second component
    if |parts| >= 2 then ParseDdmmyy(parts[1]) else None
  }

  /**
   * `delete_old_tables`' test, for the naive local clock reading `nowLocal`
   * (microseconds since 0001-01-01T00:00 local time): the end date, at
   * midnight, is strictly before `now - 90 days`.
   */
  predicate Expired(name: string, nowLocal: int)
    ensures Expired(name, nowLocal) ==> '-' in name
  {
    EndDate(name).Some? && (EndDate(name).value - 1) * DayMicros < nowLocal - 90 * DayMicros
  }

  /** Day `n` lies in a year that `%y` writes and reads back unambiguously (1969 to 2068). */
  predicate TwoDigitYear(n: int) {
    1 <= n <= MaxOrdinal && 1969 <= FromOrdinal(n).year <= 2068
  }

  /** The start of a week is a Monday on or before the day, and the day is at most six days later. */
  lemma WeekStartIsMonday(n: int)
    ensures Weekday(WeekStart(n)) == 0
    ensures WeekStart(n) <= n <= WeekStart(n) + 6
  {
  }

  /** All seven days of one Monday-to-Sunday week share their week start. */
  lemma SameWeekStart(a: int, b: int)
    requires WeekStart(a) <= b <= WeekStart(a) + 6
    ensures WeekStart(b) == WeekStart(a)
  {
    var s := WeekStart(a);
    assert Weekday(s) == 0;
    assert (b + 6) % 7 == b - s;
  }

  /** A `%d%m%y` text contains no `-`. */
  lemma DdmmyyHasNoDash(n: int)
    requires 1 <= n <= MaxOrdinal
    ensures '-' !in Ddmmyy(n)
  {
    DdmmyyDigits(n);
  }

  /** A week's table name splits at `-` into the `%d%m%y` texts of its Monday and its Sunday. */
  lemma SplitWeekTableName(start: int)
    requires 1 <= start && start + 6 <= MaxOrdinal
    ensures WeekTableName(start).Some?
    ensures Text.Split(WeekTableName(start).value, '-') == [Ddmmyy(start), Ddmmyy(start + 6)]
  {
    DdmmyyHasNoDash(start);
    DdmmyyHasNoDash(start + 6);
    Text.SplitPair(Ddmmyy(start), '-', Ddmmyy(start + 6));
  }

  /**
   * Splitting a week's table name at `-` gives back its Monday and its
   * Sunday, and the end date `delete_old_tables` reads is the Sunday.
   */
  lemma WeekTableNameDecodes(start: int)
    requires TwoDigitYear(start) && TwoDigitYear(start + 6)
    ensures WeekTableName(start).Some?
    ensures var parts := Text.Split(WeekTableName(start).value, '-');
      |parts| == 2 && ParseDdmmyy(parts[0]) == Some(start) && ParseDdmmyy(parts[1]) == Some(start + 6)
      && EndDate(WeekTableName(start).value) == Some(start + 6)
  {
    SplitWeekTableName(start);
    DdmmyyRoundTrip(start);
    DdmmyyRoundTrip(start + 6);
  }

  /** Any two dates of one Monday-to-Sunday week, e.g. a Monday and the following Sunday, get the same table. */
  lemma SameWeekSameTable(a: int, b: int)
    requires 1 <= a <= MaxOrdinal && 1 <= b <= MaxOrdinal
    requires WeekStart(a) <= b <= WeekStart(a) + 6
    ensures TableName(a) == TableName(b)
  {
    SameWeekStart(a, b);
  }

  /** Conversely, within 1969 to 2068, dates of different weeks never share a table. */
  lemma SameTableSameWeek(a: int, b: int)
    requires 1 <= a <= MaxOrdinal && 1 <= b <= MaxOrdinal
    requires TableName(a) == TableName(b)
    requires TwoDigitYear(WeekStart(a)) && TwoDigitYear(WeekStart(a) + 6)
    requires TwoDigitYear(WeekStart(b)) && TwoDigitYear(WeekStart(b) + 6)
    ensures WeekStart(a) == WeekStart(b)
  {
    WeekTableNameInjective(WeekStart(a), WeekStart(b));
  }

  /** Within 1969 to 2068, different weeks have different table names. */
  lemma WeekTableNameInjective(s1: int, s2: int)
    requires TwoDigitYear(s1) && TwoDigitYear(s1 + 6) && TwoDigitYear(s2) && TwoDigitYear(s2 + 6)
    requires WeekTableName(s1) == WeekTableName(s2)
    ensures s1 == s2
  {
    WeekTableNameDecodes(s1);
    WeekTableNameDecodes(s2);
  }

  /** A week's table is not expired while its Sunday, at midnight, is no earlier than `nowLocal - 90 days`. */
  lemma WeekTableNotExpired(start: int, nowLocal: int)
    requires TwoDigitYear(start) && TwoDigitYear(start + 6)
    requires (start + 5) * DayMicros >= nowLocal - 90 * DayMicros
    ensures WeekTableName(start).Some? && !Expired(WeekTableName(start).value, nowLocal)
  {
    WeekTableNameDecodes(start);
  }

  /**
   * Within 1969 to 2068, a week's table is expired exactly when its Sunday,
   * at midnight, is earlier than `nowLocal - 90 days`.
   */
  lemma WeekTableExpiry(start: int, nowLocal: int)
    requires TwoDigitYear(start) && TwoDigitYear(start + 6)
    ensures WeekTableName(start).Some?
    ensures Expired(WeekTableName(start).value, nowLocal) <==> (start + 5) * DayMicros < nowLocal - 90 * DayMicros
  {
    WeekTableNameDecodes(start);
  }

  /**
   * The table of the current Singapore week, which a run creates before it
   * expires old tables, is never expired by that run, whatever UTC offset
   * (strictly within a day) the run's naive local clock has.
   */
  lemma CurrentTableNotExpired(now: int, localOffset: int)
    requires 1 <= SingaporeToday(now) <= MaxOrdinal
    requires TwoDigitYear(WeekStart(SingaporeToday(now))) && TwoDigitYear(WeekStart(SingaporeToday(now)) + 6)
    requires -86_400 < localOffset < 86_400
    ensures CurrentWeekTableName(now).Some?
    ensures !Expired(CurrentWeekTableName(now).value, now + localOffset * 1_000_000)
  {
    var start := WeekStart(SingaporeToday(now));
    CurrentWeekEndsLate(now, localOffset);
    WeekTableNotExpired(start, now + localOffset * 1_000_000);
    assert CurrentWeekTableName(now) == WeekTableName(start);
  }

  /** The Sunday of the current Singapore week is less than 90 days behind any clock within a day of UTC. */
  lemma CurrentWeekEndsLate(now: int, localOffset: int)
    requires -86_400 < localOffset < 86_400
    ensures (WeekStart(SingaporeToday(now)) + 5) * DayMicros >= now + localOffset * 1_000_000 - 90 * DayMicros
  {
    var today := SingaporeToday(now);
    assert (today - 1) * DayMicros > now + SingaporeOffset * 1_000_000 - DayMicros;
    assert today <= WeekStart(today) + 6;
  }
}
