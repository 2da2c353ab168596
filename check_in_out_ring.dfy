/** The check-in/check-out ring: clock times read as minutes after midnight, the session
    named after the check-in hour, the visit's duration, and how much of a three-hour ring
    it fills. */
module CheckInOutRing {
  import opened JsValues

  /** Two ASCII digits as a number. */
  function TwoDigitValue(a: char, b: char): nat
    requires IsDigit(a) && IsDigit(b)
  {
    10 * DigitValue(a) + DigitValue(b)
  }

  /** `parseTimeToMinutes(t)`: None for a falsy value or text that does not start with one or
      two digits, a colon and two digits; otherwise hours * 60 + minutes, with no range check
      on either part. Whatever follows the match is ignored. */
  function ParseTimeToMinutes(t: Value): (mins: Option<nat>)
    ensures mins.Some? ==> Truthy(t) && mins.value <= 99 * 60 + 99
  {
    if !Truthy(t) then None
    else
      var s := ToStr(t);
      if |s| >= 5 && IsDigit(s[0]) && IsDigit(s[1]) && s[2] == ':' && IsDigit(s[3]) && IsDigit(s[4]) then
        Some(TwoDigitValue(s[0], s[1]) * 60 + TwoDigitValue(s[3], s[4]))
      else if |s| >= 4 && IsDigit(s[0]) && s[1] == ':' && IsDigit(s[2]) && IsDigit(s[3]) then
        Some(DigitValue(s[0]) * 60 + TwoDigitValue(s[2], s[3]))
      else None
  }

  /** `n` written with two digits, `0` padded. */
  function TwoDigits(n: nat): (s: string)
    requires n < 100
    ensures |s| == 2 && IsDigit(s[0]) && IsDigit(s[1]) && TwoDigitValue(s[0], s[1]) == n
  {
    [DigitChar(n / 10), DigitChar(n % 10)]
  }

  /** Reading back a written time: "HH:MM" followed by anything gives HH * 60 + MM. */
  lemma ParseTimeRoundTrip(h: nat, m: nat, rest: string)
    requires h < 100 && m < 100
    ensures ParseTimeToMinutes(Str(TwoDigits(h) + ":" + TwoDigits(m) + rest)) == Some(h * 60 + m)
  {
    var s := TwoDigits(h) + ":" + TwoDigits(m) + rest;
    assert s[0] == TwoDigits(h)[0] && s[1] == TwoDigits(h)[1] && s[2] == ':';
    assert s[3] == TwoDigits(m)[0] && s[4] == TwoDigits(m)[1];
  }

  /** A one-digit hour reads the same way: "H:MM" gives H * 60 + MM. */
  lemma ParseTimeOneDigitHour(h: nat, m: nat, rest: string)
    requires h < 10 && m < 100
    ensures ParseTimeToMinutes(Str([DigitChar(h)] + ":" + TwoDigits(m) + rest)) == Some(h * 60 + m)
  {
    var s := [DigitChar(h)] + ":" + TwoDigits(m) + rest;
    assert s[0] == DigitChar(h) && s[1] == ':';
    assert s[2] == TwoDigits(m)[0] && s[3] == TwoDigits(m)[1];
  }

  /** Text that does not start with digits and a colon does not parse: "abc", "123:45". */
  lemma ParseTimeRejects()
    ensures ParseTimeToMinutes(Str("abc")).None?
    ensures ParseTimeToMinutes(Str("123:45")).None?
    ensures ParseTimeToMinutes(Str("")).None? && ParseTimeToMinutes(Null).None?
  {
  }

  /** `getSessionLabelFromTime(t)` */
  function SessionLabel(t: Value): string
  {
    match ParseTimeToMinutes(t)
    case None => "Session"
    case Some(mins) =>
      var h := mins / 60;
      if h < 8 then "Early Session"
      else if h < 12 then "Morning Session"
      else if h < 16 then "Afternoon Session"
      else if h < 20 then "Evening Session"
      else "Night Session"
  }

  /** The label follows the hour of a well-formed "HH:MM" check-in; minutes past 59 carry
      into the next hour, so "07:75" is a morning session. */
  lemma SessionLabelMeaning(h: nat, m: nat)
    requires h < 100 && m < 60
    ensures var name := SessionLabel(Str(TwoDigits(h) + ":" + TwoDigits(m)));
            (h < 8 ==> name == "Early Session")
            && (8 <= h < 12 ==> name == "Morning Session")
            && (12 <= h < 16 ==> name == "Afternoon Session")
            && (16 <= h < 20 ==> name == "Evening Session")
            && (20 <= h ==> name == "Night Session")
    ensures SessionLabel(Str(TwoDigits(7) + ":" + TwoDigits(75))) == "Morning Session"
    ensures SessionLabel(Str("late")) == "Session"
  {
    ParseTimeRoundTrip(h, m, "");
    assert TwoDigits(h) + ":" + TwoDigits(m) + "" == TwoDigits(h) + ":" + TwoDigits(m);
    assert (h * 60 + m) / 60 == h;
    ParseTimeRoundTrip(7, 75, "");
    assert TwoDigits(7) + ":" + TwoDigits(75) + "" == TwoDigits(7) + ":" + TwoDigits(75);
  }

  /** The visit's length in minutes: defined only when both times parse and the check-out is
      later, so it is always positive. */
  function Duration(checkIn: Value, checkOut: Value): (d: Option<nat>)
    ensures d.Some? <==> ParseTimeToMinutes(checkIn).Some? && ParseTimeToMinutes(checkOut).Some?
                         && ParseTimeToMinutes(checkOut).value > ParseTimeToMinutes(checkIn).value
    ensures d.Some? ==> d.value > 0
                        && d.value + ParseTimeToMinutes(checkIn).value == ParseTimeToMinutes(checkOut).value
  {
    var inMins := ParseTimeToMinutes(checkIn);
    var outMins := ParseTimeToMinutes(checkOut);
    if inMins.Some? && outMins.Some? && outMins.value > inMins.value then Some(outMins.value - inMins.value)
    else None
  }

  const MaxDuration: nat := 180

  /** `Math.round(duration / 180 * 100)` in exact arithmetic: the nearest integer to
      duration * 5 / 9, halves rounded up. */
  function RoundedShare(duration: nat): nat
  {
    (duration * 200 + MaxDuration) / (2 * MaxDuration)
  }

  /** The ring's fill: 0 with no duration, otherwise the rounded share clamped into [0, 100]. */
  function RingPercent(duration: Option<nat>): (pct: nat)
    ensures pct <= 100
    ensures duration.None? ==> pct == 0
  {
    match duration
    case None => 0
    case Some(d) => if RoundedShare(d) > 100 then 100 else RoundedShare(d)
  }

  /** The ring is full exactly from three hours on, and a longer visit never fills less. */
  lemma RingPercentMeaning(d: nat, e: nat)
    ensures RingPercent(Some(d)) == 100 <==> d >= MaxDuration
    ensures d <= e ==> RingPercent(Some(d)) <= RingPercent(Some(e))
    ensures RingPercent(Some(90)) == 50 && RingPercent(Some(1)) == 1
  {
    if d <= e {
      assert d * 200 + MaxDuration <= e * 200 + MaxDuration;
    }
    if d < MaxDuration {
      assert d * 200 + MaxDuration < 101 * (2 * MaxDuration);
    }
  }

  /** `sessionLabel || getSessionLabelFromTime(checkInTime)`: a truthy label prop wins. */
  function ShownLabel(sessionLabel: Value, checkIn: Value): (shown: Value)
    ensures Truthy(sessionLabel) ==> shown == sessionLabel
    ensures !Truthy(sessionLabel) ==> shown == Str(SessionLabel(checkIn))
  {
    if Truthy(sessionLabel) then sessionLabel else Str(SessionLabel(checkIn))
  }
}
