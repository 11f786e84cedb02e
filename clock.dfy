/**
 * Dates, instants and times of day as integers, the arithmetic the source
 * does with `datetime`, `date`, `time` and `timedelta`, and Python's
 * `round()` on a minute count.
 *
 * A Date is a day number (0 is 1970-01-01); an Instant is a count of
 * microseconds since 1970-01-01 00:00 local time; a TimeOfDay is the
 * microsecond of its day. All arithmetic is exact.
 */
module Clock {
  import Text

  const US_PER_MINUTE: int := 60_000_000
  const US_PER_DAY: int := 86_400_000_000

  type Date = int
  type Instant = int
  type TimeOfDay = t: int | 0 <= t < US_PER_DAY

  /** `dt.date()` */
  function DateOf(t: Instant): Date {
    t / US_PER_DAY
  }

  /** `dt.time()` */
  function TimeOf(t: Instant): TimeOfDay {
    t % US_PER_DAY
  }

  /** `datetime.combine(d, tod)` */
  function Combine(d: Date, tod: TimeOfDay): (t: Instant)
    ensures DateOf(t) == d && TimeOf(t) == tod
  {
    d * US_PER_DAY + tod
  }

  /** `date.weekday()`: Monday is 0 and Sunday is 6; 1970-01-01 was a Thursday. */
  function Weekday(d: Date): (w: nat)
    ensures w < 7
  {
    (d + 3) % 7
  }

  /**
   * Python's `round(us / 60e6)`: the nearest whole number of minutes, a tie
   * going to the even neighbour.
   */
  function RoundMinutes(us: int): (m: int)
    ensures US_PER_MINUTE * (2 * m - 1) <= 2 * us <= US_PER_MINUTE * (2 * m + 1)
    ensures 2 * us == US_PER_MINUTE * (2 * m - 1) || 2 * us == US_PER_MINUTE * (2 * m + 1) ==> m % 2 == 0
  {
    var q := us / US_PER_MINUTE;
    var r := us % US_PER_MINUTE;
    if 2 * r < US_PER_MINUTE then q
    else if 2 * r > US_PER_MINUTE then q + 1
    else if q % 2 == 0 then q
    else q + 1
  }

  /** The two postconditions of RoundMinutes pin its result down. */
  lemma RoundMinutesUnique(us: int, m: int)
    requires US_PER_MINUTE * (2 * m - 1) <= 2 * us <= US_PER_MINUTE * (2 * m + 1)
    requires 2 * us == US_PER_MINUTE * (2 * m - 1) || 2 * us == US_PER_MINUTE * (2 * m + 1) ==> m % 2 == 0
    ensures RoundMinutes(us) == m
  {
  }

  /** Weekdays repeat every seven days. */
  lemma WeekdayPeriodic(d: Date)
    ensures Weekday(d + 7) == Weekday(d)
  {
  }

  /** Day 0, 1970-01-01, was a Thursday. */
  lemma WeekdayEpoch()
    ensures CivilFromDays(0) == (1970, 1, 1)
    ensures Weekday(0) == 3
  {
    assert 719468 / 146097 == 4 && 719468 % 146097 == 135080;
    assert 135080 / 1460 == 92 && 135080 / 36524 == 3 && 135080 / 146096 == 0;
    assert 134991 / 365 == 369 && 369 / 4 == 92 && 369 / 100 == 3;
    assert 1532 / 153 == 10 && 1532 / 5 == 306;
  }

  /** The next day is the next weekday, Sunday (6) wrapping to Monday (0). */
  lemma WeekdaySuccessor(d: Date)
    ensures Weekday(d + 1) == (Weekday(d) + 1) % 7
  {
  }

  /** 2024-01-01, day 19723, was a Monday. */
  lemma WeekdayKnownMonday()
    ensures CivilFromDays(19723) == (2024, 1, 1)
    ensures Weekday(19723) == 0
  {
    assert 739191 / 146097 == 5 && 739191 % 146097 == 8706;
    assert 8706 / 1460 == 5 && 8706 / 36524 == 0 && 8706 / 146096 == 0;
    assert 8701 / 365 == 23 && 23 / 4 == 5 && 23 / 100 == 0;
    assert 1532 / 153 == 10 && 1532 / 5 == 306;
    assert 19726 % 7 == 0;
  }

  /** Year, month and day of a day number (proleptic Gregorian calendar). */
  function CivilFromDays(d: Date): (int, int, int)
  {
    var z := d + 719468;
    var era := z / 146097;
    var doe := z % 146097;
    var yoe := (doe - doe / 1460 + doe / 36524 - doe / 146096) / 365;
    var doy := doe - (365 * yoe + yoe / 4 - yoe / 100);
    var mp := (5 * doy + 2) / 153;
    var day := doy - (153 * mp + 2) / 5 + 1;
    var month := if mp < 10 then mp + 3 else mp - 9;
    var year := yoe + era * 400 + (if month <= 2 then 1 else 0);
    (year, month, day)
  }

  /** `str(date)`: YYYY-MM-DD, the year zero-padded to four digits. */
  function DateText(d: Date): string
  {
    var (y, m, dd) := CivilFromDays(d);
    var yy := if y < 0 then 0 else y;
    var ytext := Text.NatText(yy);
    var pad := if |ytext| < 4 then seq(4 - |ytext|, _ => '0') else "";
    pad + ytext + "-" + Text.Pad2(if m < 0 then 0 else m) + "-" + Text.Pad2(if dd < 0 then 0 else dd)
  }
}
