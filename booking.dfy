/**
 * The booking page (src/pages/BookingPage.tsx): the generator of free start times
 * for one service on one day, and the step that books one of them.
 *
 * An instant is a whole minute on the establishment's local clock; `dayStart` is
 * the minute at which the selected day begins, and `dayOfWeek` its weekday
 * (0 = Sunday), both supplied by the caller.
 */
module Booking {
  import opened Options
  import opened Clock
  import opened Tables

  /** Candidate start times are 30 minutes apart (line 177). */
  const SlotStep: int := 30

  /** The selected day runs from startOfDay up to endOfDay, 23:59:59.999 (lines 129-130). */
  const MinutesPerDay: int := 1440

  datatype Interval = Interval(start: int, end: int)

  /** Half-open overlap: touching end points do not overlap. */
  predicate Overlaps(x: Interval, y: Interval) {
    x.start < y.end && y.start < x.end
  }

  /** The three-clause test of lines 166-170 between the candidate [s, e) and one appointment. */
  predicate Conflicts(s: int, e: int, a: Interval) {
    || (s >= a.start && s < a.end)
    || (e > a.start && e <= a.end)
    || (s <= a.start && e >= a.end)
  }

  /** `appointments.some(...)` of lines 162-171. */
  predicate HasConflict(s: int, e: int, busy: seq<Interval>) {
    exists a :: a in busy && Conflicts(s, e, a)
  }

  // ---------------------------------------------------------------------------
  // The conflict test against half-open overlap

  lemma OverlapImpliesConflict(s: int, e: int, a: Interval)
    ensures Overlaps(Interval(s, e), a) ==> Conflicts(s, e, a)
  {
  }

  /** For a slot and an appointment of positive length, the three clauses are exactly half-open overlap. */
  lemma ConflictIsOverlap(s: int, e: int, a: Interval)
    requires s < e && a.start < a.end
    ensures Conflicts(s, e, a) <==> Overlaps(Interval(s, e), a)
  {
  }

  /** A slot that ends where an appointment starts, or starts where it ends, is free of it. */
  lemma TouchingDoesNotConflict(s: int, e: int, a: Interval)
    requires s < e && a.start < a.end
    requires e == a.start || s == a.end
    ensures !Conflicts(s, e, a)
  {
  }

  /** Without positive length the equivalence fails: an empty slot at an appointment's start conflicts. */
  lemma EmptySlotConflictsWithoutOverlap()
    ensures Conflicts(600, 600, Interval(600, 660))
    ensures !Overlaps(Interval(600, 600), Interval(600, 660))
  {
  }

  // ---------------------------------------------------------------------------
  // The two reads (lines 113-117 and 132-137) as selections over in-memory tables

  /** The opening windows of the establishment for the weekday, in table order. */
  function DayRules(table: seq<AvailabilityRow>, establishmentId: int, dayOfWeek: int): (rules: seq<AvailabilityRow>)
    ensures |rules| <= |table|
    ensures forall r :: r in rules <==> r in table && r.establishmentId == establishmentId && r.dayOfWeek == dayOfWeek
    decreases |table|
  {
    if table == [] then []
    else
      var rest := DayRules(table[1..], establishmentId, dayOfWeek);
      if table[0].establishmentId == establishmentId && table[0].dayOfWeek == dayOfWeek
      then [table[0]] + rest
      else rest
  }

  /** The row is one of the establishment's and starts within the selected day; its status plays no part. */
  predicate StartsOnDay(row: AppointmentRow, establishmentId: int, dayStart: int) {
    row.establishmentId == establishmentId && dayStart <= row.startTime < dayStart + MinutesPerDay
  }

  /** The busy set: the [start, end) of every appointment that starts within the selected day. */
  function DayAppointments(table: seq<AppointmentRow>, establishmentId: int, dayStart: int): (busy: seq<Interval>)
    ensures |busy| <= |table|
    ensures forall row :: row in table && StartsOnDay(row, establishmentId, dayStart) ==>
      Interval(row.startTime, row.endTime) in busy
    ensures forall iv :: iv in busy ==>
      exists row :: row in table && StartsOnDay(row, establishmentId, dayStart) && iv == Interval(row.startTime, row.endTime)
    decreases |table|
  {
    if table == [] then []
    else
      var rest := DayAppointments(table[1..], establishmentId, dayStart);
      assert forall row :: row in table[1..] ==> row in table;
      if StartsOnDay(table[0], establishmentId, dayStart)
      then [Interval(table[0].startTime, table[0].endTime)] + rest
      else rest
  }

  // ---------------------------------------------------------------------------
  // What the generator computes

  /** The window of a rule on the selected day, or None when a bound does not read as a time. */
  function RuleWindow(dayStart: int, rule: AvailabilityRow): Option<Interval> {
    match (ClockMinutes(rule.startTime), ClockMinutes(rule.endTime))
    case (Some(s), Some(e)) => Some(Interval(dayStart + s, dayStart + e))
    case _ => None
  }

  /** The free starts from `current` on, stepping by 30 while the service still ends by `end`. */
  function WindowSlots(current: int, end: int, duration: int, busy: seq<Interval>): seq<int>
    decreases end - duration - current
  {
    if current + duration <= end then
      (if HasConflict(current, current + duration, busy) then [] else [current])
      + WindowSlots(current + SlotStep, end, duration, busy)
    else []
  }

  function RuleSlots(dayStart: int, rule: AvailabilityRow, duration: int, busy: seq<Interval>): seq<int> {
    match RuleWindow(dayStart, rule)
    case None => []
    case Some(w) => WindowSlots(w.start, w.end, duration, busy)
  }

  /** The slots of each rule, in rule order. */
  function SlotsPerRule(dayStart: int, rules: seq<AvailabilityRow>, busy: seq<Interval>, duration: int): seq<seq<int>> {
    seq(|rules|, j requires 0 <= j < |rules| => RuleSlots(dayStart, rules[j], duration, busy))
  }

  /** The parts joined end to end, first part first. */
  function Flatten(parts: seq<seq<int>>): seq<int>
    decreases |parts|
  {
    if parts == [] then [] else Flatten(parts[..|parts| - 1]) + parts[|parts| - 1]
  }

  /** Every rule's slots in rule order, concatenated without sorting or removing repeats. */
  function AvailableSlots(dayStart: int, rules: seq<AvailabilityRow>, busy: seq<Interval>, duration: int): seq<int> {
    Flatten(SlotsPerRule(dayStart, rules, busy, duration))
  }

  /** `s` is a step of the window at which a service of `duration` minutes ends by closing time. */
  predicate FitsWindow(s: int, w: Interval, duration: int) {
    w.start <= s && s + duration <= w.end && (s - w.start) % SlotStep == 0
  }

  predicate StrictlyIncreasing(xs: seq<int>) {
    forall i, j :: 0 <= i < j < |xs| ==> xs[i] < xs[j]
  }

  // ---------------------------------------------------------------------------
  // The generator

  /**
   * calculateAvailableSlots: read the day's rules and appointments, then walk each
   * window in 30-minute steps and keep the starts that conflict with no appointment.
   */
  method CalculateAvailableSlots(
    availabilities: seq<AvailabilityRow>, appointments: seq<AppointmentRow>,
    establishmentId: int, dayStart: int, dayOfWeek: int, duration: int)
    returns (slots: seq<int>)
    ensures slots == AvailableSlots(dayStart, DayRules(availabilities, establishmentId, dayOfWeek),
                                    DayAppointments(appointments, establishmentId, dayStart), duration)
    ensures DayRules(availabilities, establishmentId, dayOfWeek) == [] ==> slots == []
  {
    var rules := DayRules(availabilities, establishmentId, dayOfWeek);
    slots := [];
    if |rules| == 0 {
      return;
    }
    var busy := DayAppointments(appointments, establishmentId, dayStart);
    ghost var parts := SlotsPerRule(dayStart, rules, busy, duration);
    for i := 0 to |rules|
      invariant slots == Flatten(parts[..i])
    {
      assert parts[..i + 1][..i] == parts[..i];
      ghost var steps;
      slots, steps := ScanRule(slots, dayStart, rules[i], busy, duration);
    }
    assert parts[..|rules|] == parts;
  }

  /**
   * The `forEach` callback of lines 146-179: push the free starts of one window onto `slots`.
   * `steps` counts the iterations of the while loop.
   */
  method ScanRule(slots: seq<int>, dayStart: int, rule: AvailabilityRow, busy: seq<Interval>, duration: int)
    returns (pushed: seq<int>, ghost steps: nat)
    ensures pushed == slots + RuleSlots(dayStart, rule, duration, busy)
    ensures RuleWindow(dayStart, rule).None? ==> steps == 0
    ensures RuleWindow(dayStart, rule).Some? ==>
      var w := RuleWindow(dayStart, rule).value;
      steps == if w.start + duration <= w.end then (w.end - duration - w.start) / SlotStep + 1 else 0
  {
    pushed, steps := slots, 0;
    var window := RuleWindow(dayStart, rule);
    if window.None? {
      assert RuleSlots(dayStart, rule, duration, busy) == [];
      return;
    }
    var start, end := window.value.start, window.value.end;
    var current := start;
    ghost var visited: seq<int> := [];
    while current + duration <= end
      invariant pushed + WindowSlots(current, end, duration, busy) == slots + WindowSlots(start, end, duration, busy)
      invariant visited + Candidates(current, end, duration) == Candidates(start, end, duration)
      invariant steps == |visited|
      decreases end - duration - current
    {
      var conflict := HasConflict(current, current + duration, busy);
      if !conflict {
        pushed := pushed + [current];
      }
      visited, steps := visited + [current], steps + 1;
      current := current + SlotStep;
    }
    assert Candidates(current, end, duration) == [];
    assert visited == Candidates(start, end, duration);
    CandidatesCount(start, end, duration);
  }

  // ---------------------------------------------------------------------------
  // Properties of one window

  /** Every emitted start lies on the 30-minute grid of the window, lets the service end by closing, and is free. */
  lemma {:induction false} WindowSlotsSound(current: int, end: int, duration: int, busy: seq<Interval>, s: int)
    requires s in WindowSlots(current, end, duration, busy)
    ensures FitsWindow(s, Interval(current, end), duration)
    ensures !HasConflict(s, s + duration, busy)
    decreases end - duration - current
  {
    var rest := WindowSlots(current + SlotStep, end, duration, busy);
    if s != current || HasConflict(current, current + duration, busy) {
      assert s in rest;
      WindowSlotsSound(current + SlotStep, end, duration, busy, s);
    }
  }

  /** Every free grid point of the window at which the service fits is emitted. */
  lemma {:induction false} WindowSlotsComplete(current: int, end: int, duration: int, busy: seq<Interval>, k: nat)
    requires current + SlotStep * k + duration <= end
    requires !HasConflict(current + SlotStep * k, current + SlotStep * k + duration, busy)
    ensures current + SlotStep * k in WindowSlots(current, end, duration, busy)
    decreases k
  {
    var s := current + SlotStep * k;
    var rest := WindowSlots(current + SlotStep, end, duration, busy);
    var head := if HasConflict(current, current + duration, busy) then [] else [current];
    assert WindowSlots(current, end, duration, busy) == head + rest;
    if k > 0 {
      assert (current + SlotStep) + SlotStep * (k - 1) == s;
      WindowSlotsComplete(current + SlotStep, end, duration, busy, k - 1);
      assert s in rest;
    } else {
      assert head == [s];
    }
  }

  /** Within one window the starts strictly increase. */
  lemma {:induction false} WindowSlotsIncreasing(current: int, end: int, duration: int, busy: seq<Interval>)
    ensures StrictlyIncreasing(WindowSlots(current, end, duration, busy))
    decreases end - duration - current
  {
    if current + duration <= end {
      var rest := WindowSlots(current + SlotStep, end, duration, busy);
      WindowSlotsIncreasing(current + SlotStep, end, duration, busy);
      forall x | x in rest ensures current < x {
        WindowSlotsSound(current + SlotStep, end, duration, busy, x);
      }
      if !HasConflict(current, current + duration, busy) {
        var r := WindowSlots(current, end, duration, busy);
        assert r == [current] + rest;
        forall i, j | 0 <= i < j < |r| ensures r[i] < r[j] {
          assert r[j] == rest[j - 1];
          if i > 0 {
            assert r[i] == rest[i - 1];
          } else {
            assert rest[j - 1] in rest;
          }
        }
      }
    }
  }

  /** The grid points the loop visits, free or not: one per iteration of the while loop. */
  function Candidates(current: int, end: int, duration: int): seq<int>
    decreases end - duration - current
  {
    if current + duration <= end then [current] + Candidates(current + SlotStep, end, duration) else []
  }

  /** The candidates that conflict with no appointment, in order. */
  function FreeOf(candidates: seq<int>, duration: int, busy: seq<Interval>): seq<int>
    decreases |candidates|
  {
    if candidates == [] then []
    else
      (if HasConflict(candidates[0], candidates[0] + duration, busy) then [] else [candidates[0]])
      + FreeOf(candidates[1..], duration, busy)
  }

  /** The loop runs (end - start - duration) / 30 + 1 times when the service fits at all, else never. */
  lemma {:induction false} CandidatesCount(current: int, end: int, duration: int)
    ensures |Candidates(current, end, duration)|
            == if current + duration <= end then (end - duration - current) / SlotStep + 1 else 0
    decreases end - duration - current
  {
    if current + duration <= end {
      CandidatesCount(current + SlotStep, end, duration);
    }
  }

  /** The generator's output for a window is its candidate list with the conflicting starts dropped. */
  lemma {:induction false} WindowSlotsAreFreeCandidates(current: int, end: int, duration: int, busy: seq<Interval>)
    ensures WindowSlots(current, end, duration, busy) == FreeOf(Candidates(current, end, duration), duration, busy)
    ensures |WindowSlots(current, end, duration, busy)| <= |Candidates(current, end, duration)|
    decreases end - duration - current
  {
    if current + duration <= end {
      WindowSlotsAreFreeCandidates(current + SlotStep, end, duration, busy);
      assert Candidates(current, end, duration)[1..] == Candidates(current + SlotStep, end, duration);
    }
  }

  // ---------------------------------------------------------------------------
  // Properties of the whole day

  /** A start is in the joined list exactly when it is in one of the parts. */
  lemma {:induction false} FlattenMember(parts: seq<seq<int>>, s: int)
    ensures s in Flatten(parts) <==> exists j :: 0 <= j < |parts| && s in parts[j]
    decreases |parts|
  {
    if parts != [] {
      var n := |parts| - 1;
      FlattenMember(parts[..n], s);
      if s in Flatten(parts[..n]) {
        var j :| 0 <= j < n && s in parts[..n][j];
        assert s in parts[j];
      }
      if j :| 0 <= j < |parts| && s in parts[j] {
        if j < n {
          assert parts[..n][j] == parts[j];
        }
      }
    }
  }

  lemma {:induction false} FlattenConcat(p1: seq<seq<int>>, p2: seq<seq<int>>)
    ensures Flatten(p1 + p2) == Flatten(p1) + Flatten(p2)
    decreases |p2|
  {
    if p2 == [] {
      assert p1 + p2 == p1;
    } else {
      var init := p2[..|p2| - 1];
      assert (p1 + p2)[..|p1 + p2| - 1] == p1 + init;
      FlattenConcat(p1, init);
    }
  }

  /** The slots of two lists of rules read one after the other are the two lists of slots joined. */
  lemma AvailableSlotsConcat(dayStart: int, r1: seq<AvailabilityRow>, r2: seq<AvailabilityRow>,
                             busy: seq<Interval>, duration: int)
    ensures AvailableSlots(dayStart, r1 + r2, busy, duration)
            == AvailableSlots(dayStart, r1, busy, duration) + AvailableSlots(dayStart, r2, busy, duration)
  {
    assert SlotsPerRule(dayStart, r1 + r2, busy, duration)
           == SlotsPerRule(dayStart, r1, busy, duration) + SlotsPerRule(dayStart, r2, busy, duration);
    FlattenConcat(SlotsPerRule(dayStart, r1, busy, duration), SlotsPerRule(dayStart, r2, busy, duration));
  }

  /**
   * Soundness: every emitted start lies on the grid of some window of the day, lets the
   * service end by that window's close, and conflicts with no appointment of the busy set.
   */
  lemma AvailableSlotsSound(dayStart: int, rules: seq<AvailabilityRow>, busy: seq<Interval>,
                            duration: int, s: int)
    requires s in AvailableSlots(dayStart, rules, busy, duration)
    ensures !HasConflict(s, s + duration, busy)
    ensures exists j :: 0 <= j < |rules| && RuleWindow(dayStart, rules[j]).Some?
                        && FitsWindow(s, RuleWindow(dayStart, rules[j]).value, duration)
  {
    var parts := SlotsPerRule(dayStart, rules, busy, duration);
    FlattenMember(parts, s);
    var j :| 0 <= j < |parts| && s in parts[j];
    var w := RuleWindow(dayStart, rules[j]).value;
    WindowSlotsSound(w.start, w.end, duration, busy, s);
  }

  lemma RuleSlotsInDay(dayStart: int, rules: seq<AvailabilityRow>, busy: seq<Interval>, duration: int, j: nat, s: int)
    requires j < |rules| && s in RuleSlots(dayStart, rules[j], duration, busy)
    ensures s in AvailableSlots(dayStart, rules, busy, duration)
  {
    var parts := SlotsPerRule(dayStart, rules, busy, duration);
    assert s in parts[j];
    FlattenMember(parts, s);
  }

  lemma RuleSlotsComplete(dayStart: int, rule: AvailabilityRow, busy: seq<Interval>, duration: int, k: nat)
    requires RuleWindow(dayStart, rule).Some?
    requires RuleWindow(dayStart, rule).value.start + SlotStep * k + duration <= RuleWindow(dayStart, rule).value.end
    requires !HasConflict(RuleWindow(dayStart, rule).value.start + SlotStep * k,
                          RuleWindow(dayStart, rule).value.start + SlotStep * k + duration, busy)
    ensures RuleWindow(dayStart, rule).value.start + SlotStep * k in RuleSlots(dayStart, rule, duration, busy)
  {
    var w := RuleWindow(dayStart, rule).value;
    WindowSlotsComplete(w.start, w.end, duration, busy, k);
  }

  /**
   * Completeness: every grid point of a window of the day at which the service fits
   * and which conflicts with no appointment is emitted.
   */
  lemma AvailableSlotsComplete(dayStart: int, rules: seq<AvailabilityRow>, busy: seq<Interval>,
                               duration: int, j: nat, k: nat)
    requires j < |rules| && RuleWindow(dayStart, rules[j]).Some?
    requires RuleWindow(dayStart, rules[j]).value.start + SlotStep * k + duration <= RuleWindow(dayStart, rules[j]).value.end
    requires !HasConflict(RuleWindow(dayStart, rules[j]).value.start + SlotStep * k,
                          RuleWindow(dayStart, rules[j]).value.start + SlotStep * k + duration, busy)
    ensures RuleWindow(dayStart, rules[j]).value.start + SlotStep * k in AvailableSlots(dayStart, rules, busy, duration)
  {
    RuleSlotsComplete(dayStart, rules[j], busy, duration, k);
    RuleSlotsInDay(dayStart, rules, busy, duration, j, RuleWindow(dayStart, rules[j]).value.start + SlotStep * k);
  }

  /** A start that conflicts with an appointment of the busy set is never emitted, whichever window offers it. */
  lemma ConflictingStartNotEmitted(dayStart: int, rules: seq<AvailabilityRow>, busy: seq<Interval>,
                                   duration: int, s: int)
    requires HasConflict(s, s + duration, busy)
    ensures s !in AvailableSlots(dayStart, rules, busy, duration)
  {
    if s in AvailableSlots(dayStart, rules, busy, duration) {
      AvailableSlotsSound(dayStart, rules, busy, duration, s);
    }
  }

  /**
   * A start taken from a generator run on the current appointments overlaps none of
   * the establishment's appointments that start within that day, whatever their status.
   */
  lemma FreshSlotIsFree(table: seq<AppointmentRow>, establishmentId: int, dayStart: int,
                        rules: seq<AvailabilityRow>, duration: int, s: int)
    requires s in AvailableSlots(dayStart, rules, DayAppointments(table, establishmentId, dayStart), duration)
    ensures forall row :: row in table && StartsOnDay(row, establishmentId, dayStart) ==>
      !Overlaps(Interval(s, s + duration), Interval(row.startTime, row.endTime))
  {
    var busy := DayAppointments(table, establishmentId, dayStart);
    AvailableSlotsSound(dayStart, rules, busy, duration, s);
    forall row | row in table && StartsOnDay(row, establishmentId, dayStart)
      ensures !Overlaps(Interval(s, s + duration), Interval(row.startTime, row.endTime))
    {
      var a := Interval(row.startTime, row.endTime);
      assert a in busy;
      OverlapImpliesConflict(s, s + duration, a);
    }
  }

  // ---------------------------------------------------------------------------
  // Worked examples

  /** Window 09:00-12:00, one hour of service, an appointment 09:30-10:30: only 10:30 and 11:00 remain. */
  lemma WorkedExample()
    ensures WindowSlots(540, 720, 60, []) == [540, 570, 600, 630, 660]
    ensures WindowSlots(540, 720, 60, [Interval(570, 630)]) == [630, 660]
  {
    var busy := [Interval(570, 630)];
    assert HasConflict(540, 600, busy) && HasConflict(570, 630, busy) && HasConflict(600, 660, busy) by {
      assert busy[0] in busy;
    }
  }

  /** An appointment that began the day before is not read, so a start inside it is offered. */
  lemma PreviousDayAppointmentIgnored()
    ensures DayAppointments([AppointmentRow(1, "client", 7, 3, -30, 60, "Confirmado")], 7, 0) == []
    ensures WindowSlots(0, 60, 30, []) == [0, 30]
    ensures Overlaps(Interval(0, 30), Interval(-30, 60))
  {
  }

  /** Two identical windows on the same day offer every start twice. */
  lemma RepeatedWindowRepeatsStarts(dayStart: int, rule: AvailabilityRow, busy: seq<Interval>, duration: int)
    ensures AvailableSlots(dayStart, [rule, rule], busy, duration)
            == RuleSlots(dayStart, rule, duration, busy) + RuleSlots(dayStart, rule, duration, busy)
  {
    var slots := RuleSlots(dayStart, rule, duration, busy);
    assert SlotsPerRule(dayStart, [rule, rule], busy, duration) == [slots, slots];
    assert [slots, slots][..1] == [slots];
    assert [slots][..0] == [];
    assert Flatten([slots]) == slots;
  }

  // ---------------------------------------------------------------------------
  // The appointments table and the booking step

  class AppointmentLedger {
    var rows: seq<AppointmentRow>
    var nextId: int

    /** Row ids are distinct and below the next id the table will hand out. */
    ghost predicate Valid()
      reads this
    {
      && (forall i :: 0 <= i < |rows| ==> rows[i].id < nextId)
      && (forall i, j :: 0 <= i < j < |rows| ==> rows[i].id != rows[j].id)
    }

    constructor ()
      ensures Valid() && rows == []
    {
      rows := [];
      nextId := 1;
    }

    /**
     * confirmBooking: with a chosen start, a loaded service and a signed-in user, append
     * one confirmed appointment ending `durationMinutes` after the start; otherwise do nothing.
     * The table is not re-read, so nothing here rules out an overlap with a row added meanwhile.
     */
    method ConfirmBooking(selectedTime: Option<int>, service: Option<ServiceRow>, user: Option<string>)
      returns (created: Option<AppointmentRow>)
      requires Valid()
      modifies this
      ensures Valid()
      ensures created.Some? <==> selectedTime.Some? && service.Some? && user.Some?
      ensures created.None? ==> rows == old(rows) && nextId == old(nextId)
      ensures created.Some? ==>
        && rows == old(rows) + [created.value]
        && nextId == old(nextId) + 1
        && created.value.id == old(nextId)
        && created.value.clientId == user.value
        && created.value.establishmentId == service.value.establishmentId
        && created.value.serviceId == service.value.id
        && created.value.startTime == selectedTime.value
        && created.value.endTime == selectedTime.value + service.value.durationMinutes
        && created.value.status == "Confirmado"
    {
      if selectedTime.None? || service.None? || user.None? {
        return None;
      }
      var start := selectedTime.value;
      var row := AppointmentRow(nextId, user.value, service.value.establishmentId, service.value.id,
                                start, start + service.value.durationMinutes, "Confirmado");
      rows := rows + [row];
      nextId := nextId + 1;
      created := Some(row);
    }
  }
}
