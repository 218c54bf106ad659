/**
 * Turning `created_utc` into the `HH:MM` string shown on a slide:
 * `datetime.fromtimestamp(t, pytz.utc).astimezone(Europe/Berlin).strftime("%H:%M")`.
 * The zone's rules are not modelled; the offset of local time from UTC at an
 * instant is a parameter.
 */
module Clock {
  import opened Wrappers

  const SecondsPerDay := 86400
  const SecondsPerHour := 3600
  const SecondsPerMinute := 60

  /** 0001-01-01T00:00:00 and 9999-12-31T23:59:59, in seconds since the Unix epoch:
      the instants a Python datetime can hold. */
  const MinInstant := -62135596800
  const MaxInstant := 253402300799

  predicate Representable(t: int) {
    MinInstant <= t <= MaxInstant
  }

  /** Local wall-clock seconds for the UTC instant `utc`, given the zone's offset
      (seconds east of UTC) at each instant; None where Python raises because the
      UTC or the local date falls outside the years 1..9999. */
  function ToLocal(utc: int, utcOffset: int -> int): Option<int> {
    if Representable(utc) && Representable(utc + utcOffset(utc)) then Some(utc + utcOffset(utc))
    else None
  }

  function Digit(d: nat): char
    requires d < 10
  {
    (d + '0' as int) as char
  }

  function TwoDigits(n: nat): string
    requires n < 100
  {
    [Digit(n / 10), Digit(n % 10)]
  }

  /** `strftime("%H:%M")` of the local wall-clock time `local`: zero-padded hour and minute. */
  function FormatHHMM(local: int): string {
    TwoDigits(local % SecondsPerDay / SecondsPerHour) + ":" + TwoDigits(local % SecondsPerHour / SecondsPerMinute)
  }

  predicate IsDigit(c: char) {
    '0' <= c <= '9'
  }

  function DigitValue(c: char): int {
    c as int - '0' as int
  }

  /** Two digits, a colon, two digits, naming a valid 24-hour clock reading. */
  predicate IsHHMM(s: string) {
    && |s| == 5
    && IsDigit(s[0]) && IsDigit(s[1]) && s[2] == ':' && IsDigit(s[3]) && IsDigit(s[4])
    && 10 * DigitValue(s[0]) + DigitValue(s[1]) < 24
    && 10 * DigitValue(s[3]) + DigitValue(s[4]) < 60
  }

  /** Reads an `HH:MM` string back as (hour, minute). */
  function ParseHHMM(s: string): (hm: (nat, nat))
    requires IsHHMM(s)
    ensures hm.0 < 24 && hm.1 < 60
  {
    (10 * DigitValue(s[0]) + DigitValue(s[1]), 10 * DigitValue(s[3]) + DigitValue(s[4]))
  }

  lemma TwoDigitsReadBack(n: nat)
    requires n < 100
    ensures |TwoDigits(n)| == 2 && IsDigit(TwoDigits(n)[0]) && IsDigit(TwoDigits(n)[1])
    ensures 10 * DigitValue(TwoDigits(n)[0]) + DigitValue(TwoDigits(n)[1]) == n
  {
  }

  /** Hour and minute of the clock reading at `local`, as `FormatHHMM` computes them. */
  lemma ClockFields(local: int)
    ensures local % SecondsPerDay / SecondsPerHour < 24
    ensures local % SecondsPerHour / SecondsPerMinute < 60
    ensures 0 <= local % SecondsPerDay
                 - (SecondsPerHour * (local % SecondsPerDay / SecondsPerHour)
                    + SecondsPerMinute * (local % SecondsPerHour / SecondsPerMinute)) < SecondsPerMinute
  {
    var day := local % SecondsPerDay;
    assert local % SecondsPerHour == day % SecondsPerHour by {
      assert local == SecondsPerHour * (24 * (local / SecondsPerDay) + day / SecondsPerHour) + day % SecondsPerHour;
    }
  }

  /** The formatted time is always `HH:MM`, and the hour and minute it shows are
      those of the clock reading at `local`: at most 59 seconds before it. */
  lemma FormatReadsClock(local: int)
    ensures IsHHMM(FormatHHMM(local))
    ensures var (h, m) := ParseHHMM(FormatHHMM(local));
            0 <= local % SecondsPerDay - (SecondsPerHour * h + SecondsPerMinute * m) < SecondsPerMinute
  {
    ClockFields(local);
    var h := local % SecondsPerDay / SecondsPerHour;
    var m := local % SecondsPerHour / SecondsPerMinute;
    TwoDigitsReadBack(h);
    TwoDigitsReadBack(m);
    var s := FormatHHMM(local);
    assert s == TwoDigits(h) + ":" + TwoDigits(m);
    assert s[0] == TwoDigits(h)[0] && s[1] == TwoDigits(h)[1] && s[2] == ':';
    assert s[3] == TwoDigits(m)[0] && s[4] == TwoDigits(m)[1];
  }

  /** The shown time depends only on the time of day: a whole day later reads the same. */
  lemma FormatIsDaily(local: int, days: int)
    ensures FormatHHMM(local + days * SecondsPerDay) == FormatHHMM(local)
  {
    var t := local + days * SecondsPerDay;
    assert t % SecondsPerDay == local % SecondsPerDay;
    assert t % SecondsPerHour == local % SecondsPerHour by {
      assert t == SecondsPerHour * (local / SecondsPerHour + 24 * days) + local % SecondsPerHour;
    }
    SameFieldsSameFormat(t, local);
  }

  lemma SameFieldsSameFormat(t: int, u: int)
    requires t % SecondsPerDay == u % SecondsPerDay && t % SecondsPerHour == u % SecondsPerHour
    ensures FormatHHMM(t) == FormatHHMM(u)
  {
  }
}
