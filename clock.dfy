/**
 * Local wall-clock time as the fixture generators handle it: a calendar date in
 * `YYYY-MM-DD` form and a minute of that day, rendered the way Python's
 * `datetime.isoformat` renders a time whose seconds and microseconds are zero.
 * Parsing functions recover the minute from a rendered timestamp, so that facts
 * about the emitted strings can be stated in terms of the time they denote.
 */
module Clock {
  import opened Wrappers

  const MinutesPerDay: int := 24 * 60

  predicate IsDigit(c: char) {
    '0' <= c <= '9'
  }

  function DigitValue(c: char): int {
    c as int - '0' as int
  }

  function Digit(d: int): (c: char)
    requires 0 <= d < 10
    ensures IsDigit(c) && DigitValue(c) == d
  {
    ('0' as int + d) as char
  }

  /** A date string in the canonical form `YYYY-MM-DD`. */
  predicate IsIsoDate(date: string) {
    |date| == 10 && date[4] == '-' && date[7] == '-' &&
    forall i :: 0 <= i < 10 && i != 4 && i != 7 ==> IsDigit(date[i])
  }

  /** The hour-of-day of a minute of the day (`datetime.hour`). */
  function Hour(m: int): int {
    m / 60
  }

  /** Two-digit zero-padded rendering of a number below 100. */
  function Pad2(n: int): (s: string)
    requires 0 <= n < 100
    ensures |s| == 2 && IsDigit(s[0]) && IsDigit(s[1])
    ensures 10 * DigitValue(s[0]) + DigitValue(s[1]) == n
  {
    [Digit(n / 10), Digit(n % 10)]
  }

  /** `HH:MM:SS` for minute `m` of the day; the seconds are always `00`. */
  function WallClock(m: int): (s: string)
    requires 0 <= m < MinutesPerDay
    ensures |s| == 8
  {
    Pad2(m / 60) + ":" + Pad2(m % 60) + ":00"
  }

  /** A minute of the civil day, from midnight. */
  type DayMinute = m: int | 0 <= m < MinutesPerDay

  /**
   * A local timestamp as the generators produce it: zone-naive, or zone-aware with
   * the zone's UTC offset suffix (such as `+01:00`), which is given, not computed.
   */
  datatype Stamp =
    | Naive(date: string, minute: DayMinute)
    | Aware(date: string, minute: DayMinute, offset: string)

  /**
   * `isoformat`: `YYYY-MM-DD HH:MM:SS` for a naive timestamp (`sep=" "`), and
   * `YYYY-MM-DDTHH:MM:SS` followed by the offset for a zone-aware one.
   */
  function Iso(s: Stamp): string {
    match s
    case Naive(date, m) => date + " " + WallClock(m)
    case Aware(date, m, offset) => date + "T" + WallClock(m) + offset
  }

  /** Reads an `HH:MM:SS` string with zero seconds back into a minute of the day. */
  function ParseWallClock(s: string): (r: Option<int>)
    ensures r.Some? ==> 0 <= r.value < MinutesPerDay
  {
    if |s| == 8 && IsDigit(s[0]) && IsDigit(s[1]) && s[2] == ':' && IsDigit(s[3]) && IsDigit(s[4])
       && s[5] == ':' && s[6] == '0' && s[7] == '0'
    then
      var h := 10 * DigitValue(s[0]) + DigitValue(s[1]);
      var mi := 10 * DigitValue(s[3]) + DigitValue(s[4]);
      if h < 24 && mi < 60 then Some(60 * h + mi) else None
    else
      None
  }

  /** The minute of the day a naive or zone-aware timestamp denotes, if it has one. */
  function ClockOf(ts: string): Option<int> {
    if |ts| >= 19 && (ts[10] == ' ' || ts[10] == 'T') then ParseWallClock(ts[11..19]) else None
  }

  lemma WallClockRoundTrip(m: int)
    requires 0 <= m < MinutesPerDay
    ensures ParseWallClock(WallClock(m)) == Some(m)
  {
    var s := WallClock(m);
    assert s[..2] == Pad2(m / 60) && s[3..5] == Pad2(m % 60);
  }

  /** Every string the parser accepts is the rendering of the minute it returns. */
  lemma ParseWallClockExact(s: string)
    requires ParseWallClock(s).Some?
    ensures WallClock(ParseWallClock(s).value) == s
  {
    var m := ParseWallClock(s).value;
    var h := 10 * DigitValue(s[0]) + DigitValue(s[1]);
    var mi := 10 * DigitValue(s[3]) + DigitValue(s[4]);
    assert m / 60 == h && m % 60 == mi;
    var w := WallClock(m);
    assert w[0] == s[0] && w[1] == s[1] && w[3] == s[3] && w[4] == s[4];
  }

  /** A rendered timestamp starts with its date and reads back as its minute. */
  lemma IsoRoundTrip(s: Stamp)
    requires IsIsoDate(s.date)
    ensures |Iso(s)| >= 19 && Iso(s)[..10] == s.date
    ensures Iso(s)[10] == (if s.Naive? then ' ' else 'T')
    ensures ClockOf(Iso(s)) == Some(s.minute)
  {
    assert Iso(s)[11..19] == WallClock(s.minute);
    WallClockRoundTrip(s.minute);
  }

  /** Distinct timestamps on canonical dates never render to the same string. */
  lemma IsoInjective(a: Stamp, b: Stamp)
    requires IsIsoDate(a.date) && IsIsoDate(b.date)
    ensures Iso(a) == Iso(b) <==> a == b
  {
    if Iso(a) == Iso(b) {
      IsoRoundTrip(a);
      IsoRoundTrip(b);
      if a.Aware? {
        assert a.offset == Iso(a)[19..];
      }
      if b.Aware? {
        assert b.offset == Iso(b)[19..];
      }
    }
  }
}
