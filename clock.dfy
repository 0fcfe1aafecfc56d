/**
 * Reading a stored time of day. The slot generator splits each window bound on ':'
 * and turns the first two pieces into numbers (src/pages/BookingPage.tsx:147-148);
 * the database may hand back "HH:MM" or "HH:MM:SS", and only the first two pieces count.
 */
module Clock {
  import opened Options
  import opened Decimal

  /** `s.split(sep)`: the pieces between separators, at least one (possibly empty) piece. */
  function Split(s: string, sep: char): (r: seq<string>)
    ensures |r| >= 1
    decreases |s|
  {
    if s == [] then [""]
    else
      var rest := Split(s[1..], sep);
      if s[0] == sep then [""] + rest else [[s[0]] + rest[0]] + rest[1..]
  }

  /** `Number(piece)` on a piece without sign, spaces or dot: empty reads as 0, non-digits as NaN. */
  function FieldNumber(f: string): (r: Option<nat>)
    ensures f == "" ==> r == Some(0)
    ensures f != "" ==> r == ParseDecimal(f)
  {
    if f == "" then Some(0) else ParseDecimal(f)
  }

  /**
   * Minutes after midnight that `setHours(hour, minute)` moves a date to, or None
   * when either number is NaN (the Date becomes invalid and the window yields nothing).
   * Hours past 23 and minutes past 59 carry over, as setHours does.
   */
  function ClockMinutes(s: string): (r: Option<int>)
  {
    var fields := Split(s, ':');
    if |fields| < 2 then None
    else
      match (FieldNumber(fields[0]), FieldNumber(fields[1]))
      case (Some(h), Some(m)) => Some(h * 60 + m)
      case _ => None
  }

  lemma {:induction false} SplitDigitsPrefix(a: string, rest: string, sep: char)
    requires AllDigits(a) && !IsDigit(sep)
    ensures Split(a + rest, sep) == [a + Split(rest, sep)[0]] + Split(rest, sep)[1..]
    decreases |a|
  {
    if a != [] {
      assert (a + rest)[1..] == a[1..] + rest;
      SplitDigitsPrefix(a[1..], rest, sep);
      assert [a[0]] + (a[1..] + Split(rest, sep)[0]) == a + Split(rest, sep)[0];
    } else {
      assert a + rest == rest;
      var r := Split(rest, sep);
      assert a + r[0] == r[0];
      assert r == [r[0]] + r[1..];
    }
  }

  lemma SplitClock(hh: string, mm: string)
    requires AllDigits(hh) && AllDigits(mm)
    ensures Split(hh + ":" + mm, ':') == [hh, mm]
  {
    var tail := ":" + mm;
    SplitDigitsPrefix(mm, "", ':');
    assert mm + "" == mm;
    assert tail[1..] == mm;
    SplitDigitsPrefix(hh, tail, ':');
    assert hh + ":" + mm == hh + tail;
    assert hh + "" == hh;
  }

  lemma ClockMinutesOfFields(s: string, hh: string, mm: string)
    requires Split(s, ':') == [hh, mm]
    requires hh != [] && AllDigits(hh) && mm != [] && AllDigits(mm)
    ensures ClockMinutes(s) == Some(DigitsValue(hh) * 60 + DigitsValue(mm))
  {
  }

  /** Two digit groups joined by ':' read back as hours and minutes. */
  lemma ClockMinutesOfDigits(hh: string, mm: string)
    requires hh != [] && AllDigits(hh) && mm != [] && AllDigits(mm)
    ensures ClockMinutes(hh + ":" + mm) == Some(DigitsValue(hh) * 60 + DigitsValue(mm))
  {
    SplitClock(hh, mm);
    ClockMinutesOfFields(hh + ":" + mm, hh, mm);
  }
}
