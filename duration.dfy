/**
 * The public page of an establishment (src/pages/EstablishmentPublic.tsx): how a
 * service's duration is written, and the link from a service to its booking page.
 * The booking page carries a textually identical formatDuration
 * (src/pages/BookingPage.tsx:260-267); FormatDuration stands for both.
 */
module Duration {
  import opened Options
  import opened Decimal

  /** `Math.floor(minutes / 60)`: Dafny's division by a positive number already rounds down. */
  function Hours(minutes: int): int {
    minutes / 60
  }

  /** `minutes % 60` in JavaScript: the remainder takes the sign of the dividend. */
  function Mins(minutes: int): int {
    if minutes >= 0 then minutes % 60 else -((-minutes) % 60)
  }

  /** formatDuration: "<m>min" under an hour, "<h>h" on whole hours, "<h>h <m>min" otherwise. */
  function FormatDuration(minutes: int): string {
    var hours, mins := Hours(minutes), Mins(minutes);
    if hours == 0 then IntToString(mins) + "min"
    else if mins == 0 then IntToString(hours) + "h"
    else IntToString(hours) + "h " + IntToString(mins) + "min"
  }

  /** For a non-negative duration, hours and minutes split it exactly, with the minutes below 60. */
  lemma HoursAndMinutes(minutes: int)
    requires minutes >= 0
    ensures Hours(minutes) * 60 + Mins(minutes) == minutes
    ensures 0 <= Mins(minutes) < 60 && Hours(minutes) >= 0
  {
  }

  /** The three shapes of the text, by the value of a non-negative duration. */
  lemma FormatDurationShapes(minutes: int)
    requires minutes >= 0
    ensures minutes < 60 ==> FormatDuration(minutes) == NatToString(minutes) + "min"
    ensures minutes >= 60 && minutes % 60 == 0 ==> FormatDuration(minutes) == NatToString(minutes / 60) + "h"
    ensures minutes >= 60 && minutes % 60 != 0 ==>
      FormatDuration(minutes) == NatToString(minutes / 60) + "h " + NatToString(minutes % 60) + "min"
  {
  }

  // ---------------------------------------------------------------------------
  // Reading a duration text back

  /** The longest run of digits at the front of `s`. */
  function DigitPrefix(s: string): (d: string)
    ensures |d| <= |s|
    decreases |s|
  {
    if s != [] && IsDigit(s[0]) then [s[0]] + DigitPrefix(s[1..]) else []
  }

  /** DigitPrefix is a run of digits at the front of its argument that no digit follows. */
  lemma {:induction false} DigitPrefixIsLongestRun(s: string)
    ensures AllDigits(DigitPrefix(s))
    ensures DigitPrefix(s) == s[..|DigitPrefix(s)|]
    ensures |DigitPrefix(s)| < |s| ==> !IsDigit(s[|DigitPrefix(s)|])
    decreases |s|
  {
    if s != [] && IsDigit(s[0]) {
      DigitPrefixIsLongestRun(s[1..]);
    }
  }

  /** Reads the three shapes FormatDuration writes back into minutes; None for any other text. */
  function ParseDuration(s: string): Option<nat> {
    var d := DigitPrefix(s);
    ReadUnits(d, s[|d|..])
  }

  /** The duration that the leading digits `d` and the text `rest` after them spell. */
  function ReadUnits(d: string, rest: string): Option<nat> {
    match ParseDecimal(d)
    case None => None
    case Some(n) =>
      if rest == "min" then Some(n)
      else if rest == "h" then Some(n * 60)
      else
        match MinutesAfterHours(rest)
        case Some(m) => Some(n * 60 + m)
        case None => None
  }

  /** The minutes of a text "h <digits>min" that follows the hours; None for any other text. */
  function MinutesAfterHours(rest: string): Option<nat> {
    if |rest| >= 2 && rest[..2] == "h " then
      var d := DigitPrefix(rest[2..]);
      if rest[2 + |d|..] == "min" then ParseDecimal(d) else None
    else None
  }

  lemma {:induction false} DigitPrefixOf(a: string, rest: string)
    requires AllDigits(a)
    requires rest == [] || !IsDigit(rest[0])
    ensures DigitPrefix(a + rest) == a
    decreases |a|
  {
    if a != [] {
      assert (a + rest)[1..] == a[1..] + rest;
      DigitPrefixOf(a[1..], rest);
    } else {
      assert a + rest == rest;
    }
  }

  /** The text after the leading digits decides the reading. */
  lemma ParseDigitsThen(a: string, tail: string)
    requires AllDigits(a) && (tail == [] || !IsDigit(tail[0]))
    ensures ParseDuration(a + tail) == ReadUnits(a, tail)
  {
    DigitPrefixOf(a, tail);
    assert (a + tail)[|a|..] == tail;
  }

  lemma ParseMinutesShape(m: nat)
    ensures ParseDuration(NatToString(m) + "min") == Some(m)
  {
    ParseDigitsThen(NatToString(m), "min");
    NatToStringRoundTrip(m);
  }

  lemma ParseHoursShape(h: nat)
    ensures ParseDuration(NatToString(h) + "h") == Some(h * 60)
  {
    ParseDigitsThen(NatToString(h), "h");
    NatToStringRoundTrip(h);
  }

  lemma MinutesAfterHoursShape(m: nat)
    ensures MinutesAfterHours("h " + NatToString(m) + "min") == Some(m)
  {
    var b := NatToString(m);
    var tail := "h " + b + "min";
    assert tail[..2] == "h ";
    assert tail[2..] == b + "min";
    DigitPrefixOf(b, "min");
    assert tail[2 + |b|..] == "min";
    NatToStringRoundTrip(m);
  }

  lemma Regroup(a: string, b: string, c: string, d: string)
    ensures a + b + c + d == a + (b + c + d)
  {
  }

  lemma ParseHoursThenMinutes(a: string, tail: string, h: nat, m: nat)
    requires AllDigits(a) && ParseDecimal(a) == Some(h)
    requires |tail| > 1 && tail[0] == 'h' && MinutesAfterHours(tail) == Some(m)
    ensures ParseDuration(a + tail) == Some(h * 60 + m)
  {
    ParseDigitsThen(a, tail);
  }

  lemma ParseHoursMinutesShape(h: nat, m: nat)
    ensures ParseDuration(NatToString(h) + "h " + NatToString(m) + "min") == Some(h * 60 + m)
  {
    var a := NatToString(h);
    var tail := "h " + NatToString(m) + "min";
    Regroup(a, "h ", NatToString(m), "min");
    MinutesAfterHoursShape(m);
    NatToStringRoundTrip(h);
    ParseHoursThenMinutes(a, tail, h, m);
  }

  /** Reading back the text of a non-negative duration gives the duration. */
  lemma FormatDurationRoundTrip(minutes: int)
    requires minutes >= 0
    ensures ParseDuration(FormatDuration(minutes)) == Some(minutes)
  {
    FormatDurationShapes(minutes);
    if minutes < 60 {
      ParseMinutesShape(minutes);
    } else if minutes % 60 == 0 {
      ParseHoursShape(minutes / 60);
    } else {
      ParseHoursMinutesShape(minutes / 60, minutes % 60);
    }
  }

  /** Two different non-negative durations are never written the same way. */
  lemma FormatDurationInjective(a: int, b: int)
    requires a >= 0 && b >= 0
    requires FormatDuration(a) == FormatDuration(b)
    ensures a == b
  {
    FormatDurationRoundTrip(a);
    FormatDurationRoundTrip(b);
  }

  // ---------------------------------------------------------------------------
  // The link to a service's booking page

  const BookingPathPrefix: string := "/agendar/"

  /** handleServiceClick: the path `/agendar/<serviceId>`. */
  function ServicePath(serviceId: int): string {
    BookingPathPrefix + IntToString(serviceId)
  }

  /** The booking page's `parseInt` of the `:serviceId` segment of its path. */
  function ServiceIdOfPath(path: string): Option<nat> {
    if |path| >= |BookingPathPrefix| && path[..|BookingPathPrefix|] == BookingPathPrefix
    then ParseDecimal(path[|BookingPathPrefix|..])
    else None
  }

  /** The booking page reads back the id of the service that was clicked. */
  lemma ServicePathRoundTrip(serviceId: int)
    requires serviceId >= 0
    ensures ServiceIdOfPath(ServicePath(serviceId)) == Some(serviceId)
  {
    var path := ServicePath(serviceId);
    assert path[..|BookingPathPrefix|] == BookingPathPrefix;
    assert path[|BookingPathPrefix|..] == NatToString(serviceId);
    NatToStringRoundTrip(serviceId);
  }
}
