/**
 * The opening-hours page (src/pages/Disponibilidade.tsx): the weekday and half-hour
 * choices of its form, the checks before a window is stored, deletion by id, the
 * weekday label lookup and the grouping of the stored windows into one card per day.
 */
module Availability {
  import opened Options
  import opened Decimal
  import opened Clock
  import opened Tables

  datatype DayOption = DayOption(value: nat, name: string)

  /** DAYS_OF_WEEK: Sunday first, values 0 to 6. */
  const DaysOfWeek: seq<DayOption> := [
    DayOption(0, "Domingo"),
    DayOption(1, "Segunda-feira"),
    DayOption(2, "Terça-feira"),
    DayOption(3, "Quarta-feira"),
    DayOption(4, "Quinta-feira"),
    DayOption(5, "Sexta-feira"),
    DayOption(6, "Sábado")
  ]

  // ---------------------------------------------------------------------------
  // TIME_OPTIONS

  /** `n.toString().padStart(2, '0')`. */
  function PadStart2(n: nat): string {
    var t := NatToString(n);
    if |t| < 2 then "0" + t else t
  }

  /** The label of entry i: its hour padded to two digits, then ":00" or ":30". */
  function TimeLabel(i: nat): string {
    PadStart2(i / 2) + ":" + (if i % 2 == 0 then "00" else "30")
  }

  /** The 48 half-hour marks of a day, "00:00" to "23:30". */
  function TimeOptions(): seq<string> {
    seq(24 * 2, i requires 0 <= i < 24 * 2 => TimeLabel(i))
  }

  lemma PadStart2Digits(n: nat)
    requires n < 100
    ensures PadStart2(n) == [DigitChar(n / 10), DigitChar(n % 10)]
  {
    if n >= 10 {
      NatToStringTwoDigits(n);
    }
  }

  lemma TimeLabelDigits(i: nat)
    requires i < 48
    ensures TimeLabel(i) == [DigitChar(i / 2 / 10), DigitChar(i / 2 % 10), ':', DigitChar(3 * (i % 2)), '0']
  {
    PadStart2Digits(i / 2);
  }

  /**
   * Entry i is two digits reading as its hour i / 2, a colon, and "00" for even i or
   * "30" for odd i; read as a time it is 30 * i minutes after midnight.
   */
  lemma TimeOptionsShape(i: nat)
    requires i < 48
    ensures |TimeOptions()| == 48
    ensures |TimeOptions()[i]| == 5 && TimeOptions()[i][2] == ':'
    ensures ParseDecimal(TimeOptions()[i][..2]) == Some(i / 2)
    ensures TimeOptions()[i][3..] == if i % 2 == 0 then "00" else "30"
    ensures ClockMinutes(TimeOptions()[i]) == Some(30 * i)
  {
    var text := TimeOptions()[i];
    TimeLabelDigits(i);
    var hh := [DigitChar(i / 2 / 10), DigitChar(i / 2 % 10)];
    var mm := [DigitChar(3 * (i % 2)), DigitChar(0)];
    assert text == hh + ":" + mm;
    assert text[..2] == hh && text[3..] == mm;
    TwoDigitsValue(i / 2 / 10, i / 2 % 10);
    TwoDigitsValue(3 * (i % 2), 0);
    ClockMinutesOfDigits(hh, mm);
  }

  lemma TwoDigitsValue(d1: nat, d2: nat)
    requires d1 < 10 && d2 < 10
    ensures AllDigits([DigitChar(d1), DigitChar(d2)])
    ensures DigitsValue([DigitChar(d1), DigitChar(d2)]) == 10 * d1 + d2
  {
    var t := [DigitChar(d1), DigitChar(d2)];
    var u := t[..1];
    assert u == [DigitChar(d1)] && u[..0] == [];
    assert DigitsValue(u) == d1;
    assert DigitsValue(t) == DigitsValue(u) * 10 + DigitValue(t[1]);
  }

  /** Comparing two strings that start with the same character comes down to their rests. */
  lemma LexLessCons(c: char, d: char, a: string, b: string)
    ensures LexLess([c] + a, [d] + b) == if c != d then c < d else LexLess(a, b)
  {
    assert ([c] + a)[1..] == a;
    assert ([d] + b)[1..] == b;
  }

  lemma {:induction false} LexLessIrreflexive(a: string)
    ensures !LexLess(a, a)
    decreases |a|
  {
    if a != [] {
      LexLessIrreflexive(a[1..]);
    }
  }

  /** Five-character clock labels compare by their first differing digit. */
  lemma LexLessOfLabels(a0: char, a1: char, a3: char, b0: char, b1: char, b3: char)
    ensures LexLess([a0, a1, ':', a3, '0'], [b0, b1, ':', b3, '0'])
            <==> a0 < b0 || (a0 == b0 && (a1 < b1 || (a1 == b1 && a3 < b3)))
  {
    var ta, tb := [a1, ':', a3, '0'], [b1, ':', b3, '0'];
    LexLessCons(a0, b0, ta, tb);
    LexLessCons(a1, b1, [':', a3, '0'], [':', b3, '0']);
    LexLessCons(':', ':', [a3, '0'], [b3, '0']);
    LexLessCons(a3, b3, ['0'], ['0']);
    LexLessIrreflexive(['0']);
    assert [a0, a1, ':', a3, '0'] == [a0] + ta;
    assert [b0, b1, ':', b3, '0'] == [b0] + tb;
    assert ta == [a1] + [':', a3, '0'] && tb == [b1] + [':', b3, '0'];
    assert [':', a3, '0'] == [':'] + [a3, '0'] && [':', b3, '0'] == [':'] + [b3, '0'];
    assert [a3, '0'] == [a3] + ['0'] && [b3, '0'] == [b3] + ['0'];
  }

  /** An index below 48 is determined, in order, by its tens of hours, units of hours and half hour. */
  lemma IndexOrder(i: nat, j: nat)
    requires i < 48 && j < 48
    ensures i < j <==> i / 2 / 10 < j / 2 / 10 || (i / 2 / 10 == j / 2 / 10 &&
                         (i / 2 % 10 < j / 2 % 10 || (i / 2 % 10 == j / 2 % 10 && i % 2 < j % 2)))
  {
    assert i == 20 * (i / 2 / 10) + 2 * (i / 2 % 10) + i % 2;
    assert j == 20 * (j / 2 / 10) + 2 * (j / 2 % 10) + j % 2;
  }

  /**
   * On the form's time choices the string comparison of the submit check (line 123) is the
   * comparison of the times: one label sorts before another exactly when it is earlier in the day.
   */
  lemma TimeOptionsOrder(i: nat, j: nat)
    requires i < 48 && j < 48
    ensures LexLess(TimeOptions()[i], TimeOptions()[j]) <==> i < j
  {
    assert TimeOptions()[i] == TimeLabel(i) && TimeOptions()[j] == TimeLabel(j);
    TimeLabelDigits(i);
    TimeLabelDigits(j);
    LexLessOfLabels(DigitChar(i / 2 / 10), DigitChar(i / 2 % 10), DigitChar(3 * (i % 2)),
                    DigitChar(j / 2 / 10), DigitChar(j / 2 % 10), DigitChar(3 * (j % 2)));
    IndexOrder(i, j);
  }

  // ---------------------------------------------------------------------------
  // The store of opening windows

  datatype AvailabilityForm = AvailabilityForm(dayOfWeek: string, startTime: string, endTime: string)

  datatype SubmitOutcome =
    | EstablishmentUnknown
    | StartNotBeforeEnd
    | Created(row: AvailabilityRow)

  /** The weekday field holds the text of one of DAYS_OF_WEEK's values, as its Select offers them. */
  predicate DayFromSelect(text: string) {
    exists k :: 0 <= k < |DaysOfWeek| && text == NatToString(DaysOfWeek[k].value)
  }

  /** The stored windows without the one whose id is `id`; the others keep their order. */
  function WithoutId(rows: seq<AvailabilityRow>, id: int): (kept: seq<AvailabilityRow>)
    ensures |kept| <= |rows|
    ensures forall r :: r in kept <==> r in rows && r.id != id
    decreases |rows|
  {
    if rows == [] then []
    else
      var rest := WithoutId(rows[1..], id);
      assert forall r :: r in rows <==> r == rows[0] || r in rows[1..];
      if rows[0].id == id then rest else [rows[0]] + rest
  }

  ghost predicate DistinctIds(rows: seq<AvailabilityRow>) {
    forall i, j :: 0 <= i < j < |rows| ==> rows[i].id != rows[j].id
  }

  predicate HasId(rows: seq<AvailabilityRow>, id: int) {
    exists r :: r in rows && r.id == id
  }

  lemma DistinctTail(rows: seq<AvailabilityRow>)
    requires rows != [] && DistinctIds(rows)
    ensures DistinctIds(rows[1..])
    ensures forall r :: r in rows[1..] ==> r.id != rows[0].id
  {
    var tail := rows[1..];
    forall i, j | 0 <= i < j < |tail| ensures tail[i].id != tail[j].id {
      assert tail[i] == rows[i + 1] && tail[j] == rows[j + 1];
    }
    forall r | r in tail ensures r.id != rows[0].id {
      var m :| 0 <= m < |tail| && tail[m] == r;
      assert rows[m + 1] == r;
    }
  }

  lemma DistinctCons(x: AvailabilityRow, rest: seq<AvailabilityRow>)
    requires DistinctIds(rest)
    requires forall r :: r in rest ==> r.id != x.id
    ensures DistinctIds([x] + rest)
  {
    var kept := [x] + rest;
    forall i, j | 0 <= i < j < |kept| ensures kept[i].id != kept[j].id {
      assert kept[j] == rest[j - 1];
      if i > 0 {
        assert kept[i] == rest[i - 1];
      }
    }
  }

  lemma {:induction false} WithoutIdKeepsDistinct(rows: seq<AvailabilityRow>, id: int)
    requires DistinctIds(rows)
    ensures DistinctIds(WithoutId(rows, id))
    decreases |rows|
  {
    if rows != [] {
      DistinctTail(rows);
      WithoutIdKeepsDistinct(rows[1..], id);
      if rows[0].id != id {
        DistinctCons(rows[0], WithoutId(rows[1..], id));
      }
    }
  }

  /** With distinct ids, deleting an id that is present removes exactly one window, and none otherwise. */
  lemma {:induction false} WithoutIdRemovesOne(rows: seq<AvailabilityRow>, id: int)
    requires DistinctIds(rows)
    ensures |WithoutId(rows, id)| == if HasId(rows, id) then |rows| - 1 else |rows|
    decreases |rows|
  {
    if rows != [] {
      var tail := rows[1..];
      DistinctTail(rows);
      WithoutIdRemovesOne(tail, id);
      assert forall r :: r in rows <==> r == rows[0] || r in tail;
      if rows[0].id == id {
        assert !HasId(tail, id);
      } else {
        assert HasId(rows, id) == HasId(tail, id);
      }
    }
  }

  class AvailabilityStore {
    var rows: seq<AvailabilityRow>
    var nextId: int

    /** Row ids are distinct and below the next id the table will hand out. */
    ghost predicate Valid()
      reads this
    {
      && (forall i :: 0 <= i < |rows| ==> rows[i].id < nextId)
      && DistinctIds(rows)
    }

    constructor ()
      ensures Valid() && rows == []
    {
      rows := [];
      nextId := 1;
    }

    /**
     * handleSubmit: refuse without an establishment (null or 0), refuse unless the start
     * sorts before the end, and otherwise store one window for the chosen weekday.
     */
    method HandleSubmit(establishmentId: Option<int>, form: AvailabilityForm) returns (outcome: SubmitOutcome)
      requires Valid()
      requires DayFromSelect(form.dayOfWeek)
      modifies this
      ensures Valid()
      ensures outcome == EstablishmentUnknown <==> establishmentId.None? || establishmentId.value == 0
      ensures outcome == StartNotBeforeEnd <==>
        establishmentId.Some? && establishmentId.value != 0 && !LexLess(form.startTime, form.endTime)
      ensures !outcome.Created? ==> rows == old(rows) && nextId == old(nextId)
      ensures outcome.Created? ==>
        && rows == old(rows) + [outcome.row]
        && nextId == old(nextId) + 1
        && outcome.row.id == old(nextId)
        && outcome.row.establishmentId == establishmentId.value
        && 0 <= outcome.row.dayOfWeek < |DaysOfWeek|
        && form.dayOfWeek == NatToString(DaysOfWeek[outcome.row.dayOfWeek].value)
        && outcome.row.startTime == form.startTime
        && outcome.row.endTime == form.endTime
        && LexLess(outcome.row.startTime, outcome.row.endTime)
    {
      if establishmentId.None? || establishmentId.value == 0 {
        return EstablishmentUnknown;
      }
      if !LexLess(form.startTime, form.endTime) {
        return StartNotBeforeEnd;
      }
      var k :| 0 <= k < |DaysOfWeek| && form.dayOfWeek == NatToString(DaysOfWeek[k].value);
      NatToStringRoundTrip(DaysOfWeek[k].value);
      var day := ParseDecimal(form.dayOfWeek).value;
      assert day == k;
      var row := AvailabilityRow(nextId, establishmentId.value, day, form.startTime, form.endTime);
      rows := rows + [row];
      nextId := nextId + 1;
      outcome := Created(row);
    }

    /** handleDelete: once the user confirms, remove the window whose id matches; nothing else changes. */
    method HandleDelete(availabilityId: int, confirmed: bool)
      requires Valid()
      modifies this
      ensures Valid() && nextId == old(nextId)
      ensures rows == if confirmed then WithoutId(old(rows), availabilityId) else old(rows)
    {
      if !confirmed {
        return;
      }
      WithoutIdKeepsDistinct(rows, availabilityId);
      rows := WithoutId(rows, availabilityId);
    }
  }

  /**
   * A window stored through the form, with both times taken from its choices, opens at a
   * half-hour mark strictly before it closes.
   */
  lemma CreatedWindowIsProper(i: nat, j: nat)
    requires i < 48 && j < 48
    requires LexLess(TimeOptions()[i], TimeOptions()[j])
    ensures ClockMinutes(TimeOptions()[i]) == Some(30 * i)
    ensures ClockMinutes(TimeOptions()[j]) == Some(30 * j)
    ensures 30 * i < 30 * j
  {
    TimeOptionsOrder(i, j);
    TimeOptionsShape(i);
    TimeOptionsShape(j);
  }

  // ---------------------------------------------------------------------------
  // Weekday labels and the per-day cards

  /** `DAYS_OF_WEEK.find(day => day.value === dayOfWeek)`. */
  function FindDay(days: seq<DayOption>, dayOfWeek: int): Option<DayOption>
    decreases |days|
  {
    if days == [] then None
    else if days[0].value == dayOfWeek then Some(days[0])
    else FindDay(days[1..], dayOfWeek)
  }

  /** getDayName: the label of the found day, or "N/A" when none is found (or its label is empty). */
  function GetDayName(dayOfWeek: int): string {
    match FindDay(DaysOfWeek, dayOfWeek)
    case Some(day) => if day.name != "" then day.name else "N/A"
    case None => "N/A"
  }

  lemma {:induction false} FindDayFirstMatch(days: seq<DayOption>, k: nat)
    requires k < |days| && forall m :: 0 <= m < k ==> days[m].value != days[k].value
    ensures FindDay(days, days[k].value) == Some(days[k])
    decreases k
  {
    if k > 0 {
      FindDayFirstMatch(days[1..], k - 1);
    }
  }

  lemma {:induction false} FindDayMissing(days: seq<DayOption>, dayOfWeek: int)
    requires forall m :: 0 <= m < |days| ==> days[m].value != dayOfWeek
    ensures FindDay(days, dayOfWeek) == None
    decreases |days|
  {
    if days != [] {
      FindDayMissing(days[1..], dayOfWeek);
    }
  }

  /** Days 0 to 6 get their label from DAYS_OF_WEEK; every other number gets "N/A". */
  lemma DayNames(dayOfWeek: int)
    ensures 0 <= dayOfWeek < 7 ==> GetDayName(dayOfWeek) == DaysOfWeek[dayOfWeek].name
    ensures !(0 <= dayOfWeek < 7) ==> GetDayName(dayOfWeek) == "N/A"
  {
    if 0 <= dayOfWeek < 7 {
      FindDayFirstMatch(DaysOfWeek, dayOfWeek);
    } else {
      FindDayMissing(DaysOfWeek, dayOfWeek);
    }
  }

  /** `availabilities.filter(av => av.day_of_week === day.value)`: the windows shown on one day's card. */
  function DayGroup(windows: seq<AvailabilityRow>, dayOfWeek: int): (group: seq<AvailabilityRow>)
    ensures |group| <= |windows|
    ensures forall r :: r in group <==> r in windows && r.dayOfWeek == dayOfWeek
    decreases |windows|
  {
    if windows == [] then []
    else
      var rest := DayGroup(windows[1..], dayOfWeek);
      assert forall r :: r in windows <==> r == windows[0] || r in windows[1..];
      if windows[0].dayOfWeek == dayOfWeek then [windows[0]] + rest else rest
  }

  /** A window of weekday 0 to 6 is shown on exactly the card of its day; any other weekday is on none. */
  lemma ExactlyOneCard(windows: seq<AvailabilityRow>, r: AvailabilityRow)
    requires r in windows
    ensures forall k :: 0 <= k < |DaysOfWeek| ==> (r in DayGroup(windows, DaysOfWeek[k].value) <==> k == r.dayOfWeek)
  {
  }

  /** The order of the read (line 79-80): by weekday, then by start time. */
  predicate ListedBefore(a: AvailabilityRow, b: AvailabilityRow) {
    a.dayOfWeek < b.dayOfWeek || (a.dayOfWeek == b.dayOfWeek && !LexLess(b.startTime, a.startTime))
  }

  predicate ListedInOrder(windows: seq<AvailabilityRow>) {
    forall i, j :: 0 <= i < j < |windows| ==> ListedBefore(windows[i], windows[j])
  }

  predicate StartsInOrder(windows: seq<AvailabilityRow>) {
    forall i, j :: 0 <= i < j < |windows| ==> !LexLess(windows[j].startTime, windows[i].startTime)
  }

  lemma ListedTail(windows: seq<AvailabilityRow>)
    requires windows != [] && ListedInOrder(windows)
    ensures ListedInOrder(windows[1..])
    ensures forall r :: r in windows[1..] ==> ListedBefore(windows[0], r)
  {
    var tail := windows[1..];
    forall i, j | 0 <= i < j < |tail| ensures ListedBefore(tail[i], tail[j]) {
      assert tail[i] == windows[i + 1] && tail[j] == windows[j + 1];
    }
    forall r | r in tail ensures ListedBefore(windows[0], r) {
      var m :| 0 <= m < |tail| && tail[m] == r;
      assert windows[m + 1] == r;
    }
  }

  lemma StartsCons(x: AvailabilityRow, rest: seq<AvailabilityRow>)
    requires StartsInOrder(rest)
    requires forall r :: r in rest ==> !LexLess(r.startTime, x.startTime)
    ensures StartsInOrder([x] + rest)
  {
    var group := [x] + rest;
    forall i, j | 0 <= i < j < |group| ensures !LexLess(group[j].startTime, group[i].startTime) {
      assert group[j] == rest[j - 1];
      if i > 0 {
        assert group[i] == rest[i - 1];
      }
    }
  }

  /** If the windows were read by weekday then start, each day's card lists them by start. */
  lemma {:induction false} DayGroupKeepsOrder(windows: seq<AvailabilityRow>, dayOfWeek: int)
    requires ListedInOrder(windows)
    ensures StartsInOrder(DayGroup(windows, dayOfWeek))
    decreases |windows|
  {
    if windows != [] {
      ListedTail(windows);
      DayGroupKeepsOrder(windows[1..], dayOfWeek);
      var rest := DayGroup(windows[1..], dayOfWeek);
      if windows[0].dayOfWeek == dayOfWeek {
        StartsCons(windows[0], rest);
      }
    }
  }
}
