/**
 * The demo page: a countdown to the demo's release, split into days, hours,
 * minutes and seconds and refreshed only while the release lies in the future,
 * and an early-access email form posting to the subscribe endpoint.
 */
module Demo {
  import opened Wrappers
  import Subscribe

  const MsPerSecond: nat := 1000
  const MsPerMinute: nat := 60 * MsPerSecond
  const MsPerHour: nat := 60 * MsPerMinute
  const MsPerDay: nat := 24 * MsPerHour

  /** The four numbers the countdown shows. */
  datatype TimeLeft = TimeLeft(days: int, hours: int, minutes: int, seconds: int)

  const Zero: TimeLeft := TimeLeft(0, 0, 0, 0)

  /** Each field within its unit's range. */
  predicate InRange(t: TimeLeft)
  {
    0 <= t.days && 0 <= t.hours < 24 && 0 <= t.minutes < 60 && 0 <= t.seconds < 60
  }

  /** The whole number of seconds the four fields stand for. */
  function TotalSeconds(t: TimeLeft): int
  {
    t.days * 86400 + t.hours * 3600 + t.minutes * 60 + t.seconds
  }

  /** Whole hours: the whole days' hours plus those of the rest of the day. */
  lemma HoursSplit(d: nat)
    ensures d / MsPerHour == (d / MsPerDay) * 24 + (d % MsPerDay) / MsPerHour
  {
  }

  /** Whole minutes: the whole hours' minutes plus those of the rest of the hour. */
  lemma MinutesSplit(d: nat)
    ensures d / MsPerMinute == (d / MsPerHour) * 60 + (d % MsPerHour) / MsPerMinute
  {
  }

  /** Whole seconds: the whole minutes' seconds plus those of the rest of the minute. */
  lemma SecondsSplit(d: nat)
    ensures d / MsPerSecond == (d / MsPerMinute) * 60 + (d % MsPerMinute) / MsPerSecond
  {
  }

  /** The interval callback's split of a positive distance in milliseconds
      (floor of a quotient of non-negative numbers, so integer division). */
  function Decompose(distance: int): (t: TimeLeft)
    requires distance > 0
    ensures InRange(t)
    ensures TotalSeconds(t) == distance / MsPerSecond
  {
    HoursSplit(distance);
    MinutesSplit(distance);
    SecondsSplit(distance);
    TimeLeft(distance / MsPerDay, (distance % MsPerDay) / MsPerHour,
             (distance % MsPerHour) / MsPerMinute, (distance % MsPerMinute) / MsPerSecond)
  }

  /** Two in-range readings of the same number of seconds are the same. */
  lemma InRangeUnique(t: TimeLeft, u: TimeLeft)
    requires InRange(t) && InRange(u) && TotalSeconds(t) == TotalSeconds(u)
    ensures t == u
  {
    var m1, m2 := t.days * 1440 + t.hours * 60 + t.minutes, u.days * 1440 + u.hours * 60 + u.minutes;
    assert 60 * (m1 - m2) == u.seconds - t.seconds;
    assert t.seconds == u.seconds;
    var h1, h2 := t.days * 24 + t.hours, u.days * 24 + u.hours;
    assert 60 * (h1 - h2) == u.minutes - t.minutes;
    assert t.minutes == u.minutes;
    assert 24 * (t.days - u.days) == u.hours - t.hours;
    assert t.hours == u.hours;
  }

  /** The split is the only in-range reading of the distance: any four numbers
      within their ranges that add up to the same seconds are the split. */
  lemma DecomposeUnique(distance: int, t: TimeLeft)
    requires distance > 0
    requires InRange(t) && TotalSeconds(t) == distance / MsPerSecond
    ensures t == Decompose(distance)
  {
    InRangeUnique(t, Decompose(distance));
  }

  /** The interval callback: the countdown moves only while the distance is positive. */
  function Tick(current: TimeLeft, distance: int): (t: TimeLeft)
    ensures distance <= 0 ==> t == current
    ensures InRange(current) ==> InRange(t)
  {
    if distance > 0 then Decompose(distance) else current
  }

  /** Decimal digits only. */
  predicate IsDigits(s: string)
  {
    forall k :: 0 <= k < |s| ==> '0' <= s[k] <= '9'
  }

  function DigitChar(d: nat): (c: char)
    requires d < 10
    ensures '0' <= c <= '9' && c as int - '0' as int == d
  {
    ('0' as int + d) as char
  }

  /** `Number.prototype.toString()` of a non-negative integer. */
  function DecimalString(n: nat): (s: string)
    ensures |s| >= 1 && IsDigits(s)
    ensures n < 10 ==> |s| == 1
    ensures n < 100 ==> |s| <= 2
    ensures n >= 10 ==> s[0] != '0'
  {
    if n < 10 then [DigitChar(n)] else DecimalString(n / 10) + [DigitChar(n % 10)]
  }

  /** The number a digit string denotes, leading zeros allowed. */
  function DecimalValue(s: string): nat
    requires IsDigits(s)
  {
    if |s| == 0 then 0 else DecimalValue(s[..|s| - 1]) * 10 + (s[|s| - 1] as int - '0' as int)
  }

  /** Reading back the decimal string gives the number. */
  lemma {:induction false} DecimalRoundTrip(n: nat)
    ensures DecimalValue(DecimalString(n)) == n
  {
    if n >= 10 {
      var s := DecimalString(n);
      assert s[..|s| - 1] == DecimalString(n / 10);
      DecimalRoundTrip(n / 10);
    }
  }

  /** A leading zero does not change the value. */
  lemma {:induction false} LeadingZeroValue(s: string)
    requires IsDigits(s)
    ensures IsDigits(['0'] + s) && DecimalValue(['0'] + s) == DecimalValue(s)
  {
    var z := ['0'] + s;
    if |s| > 0 {
      assert z[..|z| - 1] == ['0'] + s[..|s| - 1];
      LeadingZeroValue(s[..|s| - 1]);
    }
  }

  /** `String.prototype.padStart(width, fill)` with a one-character fill. */
  function PadStart(s: string, width: nat, fill: char): (r: string)
    ensures |r| == if |s| >= width then |s| else width
    ensures r[|r| - |s|..] == s
    ensures forall k :: 0 <= k < |r| - |s| ==> r[k] == fill
  {
    if |s| >= width then s else seq(width - |s|, _ => fill) + s
  }

  /** What one countdown cell shows: at least two digits, the number unchanged,
      exactly two digits for values below 100. */
  function Display(n: nat): (r: string)
    ensures |r| >= 2 && IsDigits(r) && DecimalValue(r) == n
    ensures n < 100 ==> |r| == 2
    ensures n >= 10 ==> r == DecimalString(n)
  {
    var s := DecimalString(n);
    var r := PadStart(s, 2, '0');
    DecimalRoundTrip(n);
    if |s| == 1 then
      assert r == ['0'] + s;
      LeadingZeroValue(s);
      r
    else
      r
  }

  /** The demo page component. */
  class DemoPage {
    var email: string
    var isSubmitting: bool
    var timeLeft: TimeLeft

    ghost predicate Valid()
      reads this
    {
      InRange(timeLeft)
    }

    constructor ()
      ensures Valid() && email == "" && !isSubmitting && timeLeft == Zero
    {
      email, isSubmitting, timeLeft := "", false, Zero;
    }

    /** One run of the interval callback, for the distance to the release date. */
    method OnInterval(distance: int)
      requires Valid()
      modifies this
      ensures Valid() && timeLeft == Tick(old(timeLeft), distance)
      ensures email == old(email) && isSubmitting == old(isSubmitting)
    {
      if distance > 0 {
        timeLeft := Decompose(distance);
      }
    }

    /** The email input's onChange. */
    method SetEmail(text: string)
      modifies this
      ensures email == text && isSubmitting == old(isSubmitting) && timeLeft == old(timeLeft)
    {
      email := text;
    }

    /** handleEmailSubmit up to the await: raise the flag and build the request. */
    method BeginEmailSubmit() returns (request: Subscribe.RequestBody)
      modifies this
      ensures isSubmitting && email == old(email) && timeLeft == old(timeLeft)
      ensures request == Subscribe.Body(Some(email), Some("demo_page"), Some(["demo_early_access"]))
    {
      isSubmitting := true;
      request := Subscribe.Body(Some(email), Some("demo_page"), Some(["demo_early_access"]));
    }

    /** handleEmailSubmit after the await: clear the draft on an OK reply, keep
      it otherwise, and always lower the flag. */
    method FinishEmailSubmit(reply: Subscribe.Reply)
      modifies this
      ensures !isSubmitting && timeLeft == old(timeLeft)
      ensures email == if Subscribe.ReplyOk(reply) then "" else old(email)
    {
      if Subscribe.ReplyOk(reply) {
        email := "";
      }
      isSubmitting := false;
    }
  }
}
