/** The relationship timer: the time elapsed since a fixed start instant,
    split into years, months, days, hours, minutes and seconds with fixed
    divisors (a year is 365 days, a month 30 days) and written into six text
    fields once per call of `updateTimer`. Instants are integer milliseconds. */
module ElapsedTime {
  import opened Decimal

  const MsPerSecond: nat := 1000
  const MsPerMinute: nat := 60000
  const MsPerHour: nat := 3600000
  const MsPerDay: nat := 86400000
  const MsPerMonth: nat := 2592000000      // 30 days
  const MsPerYear: nat := 31536000000      // 365 days

  /** The six numbers the display shows. */
  datatype Breakdown = Breakdown(years: nat, months: nat, days: nat, hours: nat, minutes: nat, seconds: nat)

  /** The split of a non-negative difference, one field per line of
      `updateTimer`. Every field is the quotient of a remainder of `diff` by a
      unit; `days` comes from `diff` modulo 30 days, not from what is left once
      the months are removed. */
  function Decompose(diff: nat): Breakdown {
    Breakdown(diff / MsPerYear,
              (diff % MsPerYear) / MsPerMonth,
              (diff % MsPerMonth) / MsPerDay,
              (diff % MsPerDay) / MsPerHour,
              (diff % MsPerHour) / MsPerMinute,
              (diff % MsPerMinute) / MsPerSecond)
  }

  /** What each field means: whole units in the matching remainder, each
      within its range, and the time of day adds back up. */
  lemma DecomposeSpec(diff: nat)
    ensures var b := Decompose(diff);
      && b.years * MsPerYear <= diff < (b.years + 1) * MsPerYear
      && b.months <= 12
      && b.months * MsPerMonth <= diff % MsPerYear < (b.months + 1) * MsPerMonth
      && b.days <= 29
      && b.days * MsPerDay <= diff % MsPerMonth < (b.days + 1) * MsPerDay
      && b.hours <= 23 && b.minutes <= 59 && b.seconds <= 59
      && b.hours * MsPerHour + b.minutes * MsPerMinute + b.seconds * MsPerSecond + diff % MsPerSecond
         == diff % MsPerDay
  {
    TimeOfDay(diff);
  }

  /** Hours, minutes, seconds and leftover milliseconds add back up to the
      part of `diff` below one day. */
  lemma TimeOfDay(diff: nat)
    ensures (diff % MsPerDay) / MsPerHour * MsPerHour
            + (diff % MsPerHour) / MsPerMinute * MsPerMinute
            + (diff % MsPerMinute) / MsPerSecond * MsPerSecond
            + diff % MsPerSecond == diff % MsPerDay
  {
    ModMod(diff, 24, MsPerHour);
    ModMod(diff, 60, MsPerMinute);
    ModMod(diff, 60, MsPerSecond);
  }

  /** Taking the remainder by a multiple of a unit first changes nothing. */
  lemma ModMod(x: nat, a: nat, b: nat)
    requires a > 0 && b > 0
    ensures (x % (a * b)) % b == x % b
  {
    var q, r := x / (a * b), x % (a * b);
    assert x == q * (a * b) + r;
    ModOfMultiple(q, a, b, r);
  }

  /** Quotient and remainder are the only ones with a remainder below the divisor. */
  lemma DivModUnique(a: int, u: int, q: int, r: int)
    requires u > 0 && a == q * u + r && 0 <= r < u
    ensures a / u == q && a % u == r
  {
    var k := q - a / u;
    assert k * u == a % u - r;
  }

  /** Adding a multiple of a unit's multiple does not change the remainder. */
  lemma ModOfMultiple(q: nat, k: nat, u: nat, r: nat)
    requires u > 0
    ensures (q * (k * u) + r) % u == r % u
  {
    var n := q * k;
    assert q * (k * u) == n * u;
    var r0 := r % u;
    assert r == (r / u) * u + r0;
    assert n * u + r == (n + r / u) * u + r0;
    DivModUnique(n * u + r, u, n + r / u, r0);
  }

  /** Exactly one 365-day year: one year and no month, yet five days, because
      days are counted modulo 30 days of the whole difference. */
  lemma OneYearShowsFiveDays()
    ensures Decompose(365 * MsPerDay) == Breakdown(1, 0, 5, 0, 0, 0)
  {
  }

  /** 360 days (less than a 365-day year) show twelve months. */
  lemma TwelveMonthsBeforeAYear()
    ensures Decompose(360 * MsPerDay) == Breakdown(0, 12, 0, 0, 0, 0)
  {
  }

  /** One year, two months and three days (428 days) show eight days, not three. */
  lemma YearMonthsDays()
    ensures Decompose(428 * MsPerDay) == Breakdown(1, 2, 8, 0, 0, 0)
  {
  }

  /** The number of whole days left once years and then months are removed:
      what a remainder-after-each-coarser-unit split would show as days. */
  function DaysAfterMonths(diff: nat): nat {
    (diff % MsPerYear) % MsPerMonth / MsPerDay
  }

  /** How the shown days relate to the days left after months: each full
      365-day year shifts the shown count by five, modulo 30. */
  lemma {:induction false} DaysShift(diff: nat)
    ensures Decompose(diff).days == (5 * Decompose(diff).years + DaysAfterMonths(diff)) % 30
  {
    var y := diff / MsPerYear;
    var r := diff % MsPerYear;
    var m := r / MsPerMonth;
    var r2 := r % MsPerMonth;
    var d := r2 / MsPerDay;
    var rest := r2 % MsPerDay;
    assert diff == y * MsPerYear + r;
    assert r == m * MsPerMonth + r2;
    assert r2 == d * MsPerDay + rest;
    // A year is twelve months and five days.
    assert y * MsPerYear == (12 * y) * MsPerMonth + (5 * y) * MsPerDay;
    var e := 5 * y + d;
    assert diff == (12 * y + m) * MsPerMonth + e * MsPerDay + rest;
    DivModUnique(e, 30, e / 30, e % 30);
    assert e * MsPerDay == (e / 30) * MsPerMonth + (e % 30) * MsPerDay;
    var tail := (e % 30) * MsPerDay + rest;
    assert diff == (12 * y + m + e / 30) * MsPerMonth + tail;
    assert 0 <= tail < MsPerMonth;
    DivModUnique(diff, MsPerMonth, 12 * y + m + e / 30, tail);
    DivModUnique(tail, MsPerDay, e % 30, rest);
  }

  /** The shown days agree with the days left after months exactly when the
      number of whole years is a multiple of six. */
  lemma DaysAgreeIffSixYears(diff: nat)
    ensures Decompose(diff).days == DaysAfterMonths(diff) <==> Decompose(diff).years % 6 == 0
  {
    DaysShift(diff);
    var y := Decompose(diff).years;
    var d := DaysAfterMonths(diff);
    var b := y % 6;
    var s := 5 * b + d;
    assert 5 * y + d == (y / 6) * (1 * 30) + s;
    ModOfMultiple(y / 6, 1, 30, s);
    if s < 30 {
      DivModUnique(s, 30, 0, s);
    } else {
      DivModUnique(s, 30, 1, s - 30);
    }
  }

  /** The six texts the page shows. */
  datatype Display = Display(years: string, months: string, days: string,
                             hours: string, minutes: string, seconds: string)

  const AllZero := Display("0", "0", "0", "0", "0", "0")

  /** The texts for a split: years, months and days as plain numbers,
      hours, minutes and seconds padded to two digits. */
  function Format(b: Breakdown): Display {
    Display(NatToString(b.years), NatToString(b.months), NatToString(b.days),
            TwoDigits(b.hours), TwoDigits(b.minutes), TwoDigits(b.seconds))
  }

  /** The six texts one `updateTimer` writes at instant `now` for the start
      instant `start`. */
  function Render(start: int, now: int): Display {
    var diff := now - start;
    if diff < 0 then AllZero else Format(Decompose(diff))
  }

  /** A start in the future shows "0" in every field; otherwise years, months
      and days are their shortest decimal text and hours, minutes and seconds
      are exactly two digits, with a leading '0' below ten, each denoting the
      matching field of the split. */
  lemma RenderSpec(start: int, now: int)
    ensures now < start ==> Render(start, now) == AllZero
    ensures now >= start ==>
      var d, b := Render(start, now), Decompose(now - start);
      && Canonical(d.years) && DecimalValue(d.years) == b.years
      && Canonical(d.months) && DecimalValue(d.months) == b.months
      && Canonical(d.days) && DecimalValue(d.days) == b.days
      && |d.hours| == 2 && IsDigits(d.hours) && DecimalValue(d.hours) == b.hours
      && |d.minutes| == 2 && IsDigits(d.minutes) && DecimalValue(d.minutes) == b.minutes
      && |d.seconds| == 2 && IsDigits(d.seconds) && DecimalValue(d.seconds) == b.seconds
      && (d.hours[0] == '0' <==> b.hours < 10)
      && (d.minutes[0] == '0' <==> b.minutes < 10)
      && (d.seconds[0] == '0' <==> b.seconds < 10)
  {
    if now >= start {
      var b := Decompose(now - start);
      DecomposeSpec(now - start);
      NatToStringValue(b.years);
      NatToStringValue(b.months);
      NatToStringValue(b.days);
      TwoDigitsSpec(b.hours);
      TwoDigitsSpec(b.minutes);
      TwoDigitsSpec(b.seconds);
    }
  }

  /** A negative difference shows "0" in every field, a single character;
      otherwise no field is ever "0" with padding missing: hours, minutes and
      seconds always have two characters, so the two cases never mix. */
  lemma FutureStartIsZeroNotPadded(start: int, now: int)
    ensures Render(start, now).hours == "0" <==> now < start
    ensures now >= start ==> |Render(start, now).hours| == 2
  {
    if now >= start {
      DecomposeSpec(now - start);
      TwoDigitsSpec(Decompose(now - start).hours);
    }
  }

  /** The page's timer: a fixed start instant and the text of the six fields. */
  class RelationshipTimer {
    const startMs: int
    var years: string
    var months: string
    var days: string
    var hours: string
    var minutes: string
    var seconds: string

    function Shown(): Display
      reads this
    {
      Display(years, months, days, hours, minutes, seconds)
    }

    /** The constructor renders once straight away. */
    constructor (startMs: int, now: int)
      ensures this.startMs == startMs
      ensures Shown() == Render(startMs, now)
    {
      this.startMs := startMs;
      new;
      UpdateTimer(now);
    }

    /** Recompute the difference and write the six fields. */
    method UpdateTimer(now: int)
      modifies this
      ensures Shown() == Render(startMs, now)
    {
      var diff := now - startMs;
      if diff < 0 {
        years, months, days := "0", "0", "0";
        hours, minutes, seconds := "0", "0", "0";
        return;
      }
      var b := Decompose(now - startMs);
      var text := Format(b);
      years, months, days := text.years, text.months, text.days;
      hours, minutes, seconds := text.hours, text.minutes, text.seconds;
    }
  }
}
