/**
 Server backpressure: how long a 429, or a 503 with Retry-After, holds the
 sender (section 10.2.3 of RFC 9110), and the calendar arithmetic behind an
 HTTP-date (section 5.6.7 of RFC 9110).
 */
module RateLimit {

  const DEFAULT_MS: nat := 60_000
  const MAX_MS: nat := 86_400_000
  const NS_PER_MS: nat := 1_000_000
  const NS_PER_S: nat := 1_000_000_000

  // --------------------------------------------------------------- calendar

  /** C's integer division, which truncates toward zero. */
  function TruncDiv(a: int, b: int): int
    requires b > 0
  {
    if a >= 0 then a / b else -((-a) / b)
  }

  /** Days from 1970-01-01 to the civil date, by eras of 400 years that start in March. */
  function DaysFromCivil(year: int, m: nat, d: nat): int {
    var y := if m <= 2 then year - 1 else year;
    var era := TruncDiv(if y >= 0 then y else y - 399, 400);
    var yoe := y - era * 400;
    var doy := (153 * (if m > 2 then m - 3 else m + 9) + 2) / 5 + d - 1;
    var doe := yoe * 365 + yoe / 4 - yoe / 100 + doy;
    era * 146097 + doe - 719468
  }

  predicate Leap(y: int) {
    y % 4 == 0 && (y % 100 != 0 || y % 400 == 0)
  }

  function YearLength(y: int): int {
    if Leap(y) then 366 else 365
  }

  function MonthLength(y: int, m: nat): nat {
    if m == 2 then (if Leap(y) then 29 else 28)
    else if m == 4 || m == 6 || m == 9 || m == 11 then 30
    else 31
  }

  predicate ValidDate(y: int, m: nat, d: nat) {
    1 <= m <= 12 && 1 <= d <= MonthLength(y, m)
  }

  /** Days from 1970-01-01 to the first day of the year, one year at a time. */
  function YearStart(y: int): int
    decreases if y >= 1970 then y - 1970 else 1970 - y
  {
    if y == 1970 then 0
    else if y > 1970 then YearStart(y - 1) + YearLength(y - 1)
    else YearStart(y + 1) - YearLength(y)
  }

  /** Days from the first of January to the first of the month, one month at a time. */
  function MonthStart(y: int, m: nat): int
    requires m >= 1
  {
    if m == 1 then 0 else MonthStart(y, m - 1) + MonthLength(y, m - 1)
  }

  /** The plain count: whole years, whole months, days. */
  function PlainDays(y: int, m: nat, d: nat): int
    requires m >= 1
  {
    YearStart(y) + MonthStart(y, m) + d - 1
  }

  function Leaps(y: int): int {
    y / 4 - y / 100 + y / 400
  }

  lemma LeapsStep(y: int)
    ensures Leaps(y) - Leaps(y - 1) == if Leap(y) then 1 else 0
  {
    DivStep(y, 4);
    DivStep(y, 100);
    DivStep(y, 400);
    Divides(y, 25, 4);
    Divides(y, 4, 100);
  }

  lemma Divides(y: int, k: int, l: int)
    requires (k == 25 && l == 4) || (k == 4 && l == 100)
    ensures y % (k * l) == 0 ==> y % l == 0
  {
    var q := y / (k * l);
    if y % (k * l) == 0 {
      assert y == l * (k * q);
    }
  }

  lemma DivStep(y: int, k: int)
    requires k == 4 || k == 100 || k == 400
    ensures y / k - (y - 1) / k == if y % k == 0 then 1 else 0
  {
  }

  lemma {:induction false} YearStartClosed(y: int)
    ensures YearStart(y) == 365 * (y - 1970) + Leaps(y - 1) - 477
    decreases if y >= 1970 then y - 1970 else 1970 - y
  {
    if y == 1970 {
      assert Leaps(1969) == 492 - 19 + 4;
    } else if y > 1970 {
      YearStartClosed(y - 1);
      LeapsStep(y - 1);
    } else {
      YearStartClosed(y + 1);
      LeapsStep(y);
    }
  }

  lemma EraClosed(y: int)
    ensures var era := TruncDiv(if y >= 0 then y else y - 399, 400);
            var yoe := y - era * 400;
            && era == y / 400 && 0 <= yoe < 400
            && era * 146097 + yoe * 365 + yoe / 4 - yoe / 100 == 365 * y + Leaps(y)
  {
    var era, yoe := y / 400, y % 400;
    assert y == era * 400 + yoe;
    assert y / 4 == era * 100 + yoe / 4;
    assert y / 100 == era * 4 + yoe / 100;
    if y < 0 {
      assert TruncDiv(y - 399, 400) == era;
    }
  }

  lemma MonthStarts(y: int)
    ensures MonthStart(y, 2) == 31
    ensures var l := if Leap(y) then 1 else 0;
            && MonthStart(y, 3) == 59 + l && MonthStart(y, 4) == 90 + l && MonthStart(y, 5) == 120 + l
            && MonthStart(y, 6) == 151 + l && MonthStart(y, 7) == 181 + l && MonthStart(y, 8) == 212 + l
            && MonthStart(y, 9) == 243 + l && MonthStart(y, 10) == 273 + l && MonthStart(y, 11) == 304 + l
            && MonthStart(y, 12) == 334 + l
  {
    assert MonthStart(y, 1) == 0;
  }

  /** The era arithmetic is the plain leap-year count for every valid date, before or after 1970. */
  lemma DaysFromCivilIsPlainCount(y: int, m: nat, d: nat)
    requires ValidDate(y, m, d)
    ensures DaysFromCivil(y, m, d) == PlainDays(y, m, d)
  {
    YearStartClosed(y);
    if m <= 2 {
      EraClosed(y - 1);
      MonthStarts(y);
    } else {
      EraClosed(y);
      LeapsStep(y);
      MonthStarts(y);
    }
  }

  // ------------------------------------------------------------ retry-after

  /** A Retry-After value: absent or unreadable, a number of seconds, or an HTTP-date
      (month 0 stands for an unknown month name). */
  datatype RetryAfter =
    | Absent
    | Seconds(n: nat)
    | Date(year: nat, month: nat, day: nat, hh: nat, mm: nat, ss: nat)

  function EpochSeconds(d: RetryAfter): int
    requires d.Date?
  {
    DaysFromCivil(d.year, d.month, d.day) * 86400 + d.hh * 3600 + d.mm * 60 + d.ss
  }

  /** The delay in milliseconds, or -1 when there is none to obey. */
  function DelayMs(ra: RetryAfter, wallNs: nat): (ms: int)
    ensures -1 <= ms <= MAX_MS
  {
    match ra
    case Absent => -1
    case Seconds(n) => if n > MAX_MS / 1000 then MAX_MS else n * 1000
    case Date(_, month, _, hh, mm, ss) =>
      if month == 0 || hh > 23 || mm > 59 || ss > 60 then -1
      else
        var left := EpochSeconds(ra) - wallNs / NS_PER_S;
        if left < 0 then 0 else if left > MAX_MS / 1000 then MAX_MS else left * 1000
  }

  /** A date's delay never ends before the date, exactly when the date is within 24 hours
      of the current second; beyond that the cap ends it sooner. */
  lemma DateDelayReachesTheDate(ra: RetryAfter, wallNs: nat)
    requires ra.Date? && DelayMs(ra, wallNs) >= 0
    ensures DelayMs(ra, wallNs) * NS_PER_MS >= EpochSeconds(ra) * NS_PER_S - wallNs
       <==> EpochSeconds(ra) - wallNs / NS_PER_S <= MAX_MS / 1000
  {
  }

  /** The moment a hold armed at now with the given window ends. */
  function HoldUntil(windowMs: nat, now: nat): nat {
    var w := windowMs + now % (windowMs / 8 + 1);
    now + (if w > MAX_MS then MAX_MS else w) * NS_PER_MS
  }

  function Min(a: nat, b: nat): nat {
    if a < b then a else b
  }

  /** A hold of w milliseconds ends between w and the lesser of w + w/8 and 24 hours later. */
  lemma HoldBounds(w: nat, now: nat)
    requires w <= MAX_MS
    ensures now + w * NS_PER_MS <= HoldUntil(w, now) <= now + Min(w + w / 8, MAX_MS) * NS_PER_MS
  {
    var jitter := now % (w / 8 + 1);
    assert 0 <= jitter <= w / 8;
  }

  /** The window a response asks for, or -1 when it asks for no hold. */
  function Window(status: int, ra: RetryAfter, wallNs: nat): (w: int)
    ensures -1 <= w <= MAX_MS
    ensures w >= 0 ==> status == 429 || status == 503
  {
    if status != 429 && status != 503 then -1
    else if DelayMs(ra, wallNs) >= 0 then DelayMs(ra, wallNs)
    else if status == 503 then -1
    else DEFAULT_MS
  }

  /** The hold itself. Arming replaces the deadline; it does not take the later one. */
  class Limiter {
    var until: nat

    constructor ()
      ensures until == 0
    {
      until := 0;
    }

    predicate Blocked(now: nat)
      reads this
    {
      until > now
    }

    method Arm(windowMs: nat, now: nat)
      modifies this
      ensures until == HoldUntil(windowMs, now)
    {
      var jitter := now % (windowMs / 8 + 1);
      var w := windowMs + jitter;
      if w > MAX_MS {
        w := MAX_MS;
      }
      until := now + w * NS_PER_MS;
    }

    /** A throttling response with window w blocks every send before HoldUntil(w, now)
        and none from then on; any other response leaves the hold alone. */
    method NoteResponse(status: int, ra: RetryAfter, now: nat, wallNs: nat) returns (held: bool)
      modifies this
      ensures var w := Window(status, ra, wallNs);
              if w < 0 then until == old(until) && held == old(Blocked(now))
              else held && until == HoldUntil(w, now) && forall t: nat :: Blocked(t) <==> t < HoldUntil(w, now)
    {
      if status != 429 && status != 503 {
        return until > now;
      }
      var ms := DelayMs(ra, wallNs);
      var w;
      if ms >= 0 {
        w := ms;
      } else if status == 503 {
        return until > now;
      } else {
        w := DEFAULT_MS;
      }
      Arm(w, now);
      return true;
    }

    method RemainingMs(now: nat) returns (ms: nat)
      ensures ms > 0 ==> Blocked(now)
      ensures Blocked(now) ==> ms * NS_PER_MS <= until - now < (ms + 1) * NS_PER_MS
    {
      if until <= now {
        return 0;
      }
      return (until - now) / NS_PER_MS;
    }
  }
}
