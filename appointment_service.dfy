/**
 * Appointment store and slot calculator (src/services/appointmentService.ts).
 *
 * The store is the insertion-ordered sequence of booked appointments. A date
 * conflicts with a stored appointment when both fall on the same calendar day
 * and lie strictly less than two hours apart. Booking checks for a conflict and
 * then appends; the slot calculator offers the two-hour slots of business
 * hours 09:00 to 17:00 that do not conflict.
 */
module AppointmentService {
  import opened Wrappers
  import opened Time

  /** The booking form's payload: every field of an appointment except `id` and `createdAt`. */
  datatype AppointmentRequest = AppointmentRequest(
    name: string,
    email: string,
    phone: string,
    propertyType: string,
    projectType: string,
    appointmentDate: int,
    message: Option<string>)

  /** A stored appointment. */
  datatype Appointment = Appointment(
    id: string,
    name: string,
    email: string,
    phone: string,
    propertyType: string,
    projectType: string,
    appointmentDate: int,
    message: Option<string>,
    createdAt: int)

  /** The one error `addAppointment` throws: "This time slot is already booked". */
  datatype BookingError = SlotAlreadyBooked

  /** Length of a slot: two hours. */
  const SlotMs: nat := 2 * MsPerHour

  /** Business hours and the slot length in hours. */
  const OpeningHour: nat := 9
  const ClosingHour: nat := 17
  const SlotHours: nat := 2

  function Abs(x: int): nat
  {
    if x < 0 then -x else x
  }

  /**
   * Two dates clash: same calendar day and strictly less than two hours apart,
   * that is, the booked date lies inside the open two-hour interval on either
   * side of the requested one, on its day. The relation is symmetric.
   */
  predicate Clashes(booked: int, date: int): (b: bool)
    ensures b <==> Day(date) == Day(booked) && date - SlotMs < booked < date + SlotMs
    ensures b <==> Day(date) == Day(booked) && Abs(date - booked) < SlotMs
  {
    Day(booked) == Day(date) && Abs(booked - date) < SlotMs
  }

  /** `checkForConflicts` over a given sequence: some appointment in it clashes with `date`. */
  function HasConflict(appointments: seq<Appointment>, date: int): (b: bool)
    ensures b <==> exists i :: 0 <= i < |appointments| && Clashes(appointments[i].appointmentDate, date)
  {
    if appointments == [] then false
    else Clashes(appointments[0].appointmentDate, date) || HasConflict(appointments[1..], date)
  }

  /** No two stored appointments clash: the store's central invariant. */
  ghost predicate NoOverlap(appointments: seq<Appointment>)
  {
    forall i, j :: 0 <= i < j < |appointments| ==>
      !Clashes(appointments[i].appointmentDate, appointments[j].appointmentDate)
  }

  /** Appending an appointment whose date clashes with none keeps the invariant. */
  lemma AppendKeepsNoOverlap(appointments: seq<Appointment>, a: Appointment)
    requires NoOverlap(appointments)
    requires !HasConflict(appointments, a.appointmentDate)
    ensures NoOverlap(appointments + [a])
  {
  }

  /**
   * The slots of a day: each business hour that starts a slot, set on the day
   * of `date`. There are (17 - 9) / 2 = 4 of them, at 09:00, 11:00, 13:00 and
   * 15:00 of that day, in ascending order.
   */
  function Candidates(date: int): (c: seq<int>)
    ensures |c| == 4
    ensures forall i :: 0 <= i < 4 ==> Day(c[i]) == Day(date) && TimeOfDay(c[i]) == (9 + 2 * i) * MsPerHour
    ensures Ascending(c)
  {
    seq((ClosingHour - OpeningHour) / SlotHours, i => SetHours(date, OpeningHour + i * SlotHours))
  }

  /** Every date stored in the sequence conflicts with the sequence. */
  lemma StoredDateConflicts(appointments: seq<Appointment>, i: nat)
    requires i < |appointments|
    ensures HasConflict(appointments, appointments[i].appointmentDate)
  {
  }

  /**
   * Clashes at the two-hour boundary: exactly two hours apart never clash;
   * one millisecond less clashes when both are on the same day.
   */
  lemma TwoHourBoundary(t: int)
    ensures !Clashes(t, t + SlotMs) && !Clashes(t + SlotMs, t)
    ensures Clashes(t, t + SlotMs - 1) <==> Day(t) == Day(t + SlotMs - 1)
  {
  }

  /**
   * With an appointment at 09:00, a request for 10:30 the same day conflicts
   * and one for 11:30 does not.
   */
  lemma NineOClockExample(date: int)
    ensures Clashes(SetHours(date, 9), SetHours(date, 9) + 90 * MsPerMinute)
    ensures !Clashes(SetHours(date, 9), SetHours(date, 9) + 150 * MsPerMinute)
  {
  }

  /** The store object: the stored appointments, oldest first. */
  class AppointmentStore {
    /** `getAppointments`: the stored appointments in insertion order. */
    var appointments: seq<Appointment>

    /** An empty store: `getAppointments` returns the empty sequence when nothing is stored. */
    constructor ()
      ensures appointments == []
    {
      appointments := [];
    }

    /** `checkForConflicts`: some stored appointment clashes with `date`. */
    function CheckForConflicts(date: int): (b: bool)
      reads this
      ensures b <==> exists i :: 0 <= i < |appointments| && Clashes(appointments[i].appointmentDate, date)
    {
      HasConflict(appointments, date)
    }

    /**
     * `addAppointment`: refuse a conflicting date and leave the store as it is;
     * otherwise append the request as an appointment with the given id and
     * `createdAt = now`, and return it.
     */
    method AddAppointment(request: AppointmentRequest, id: string, now: int)
      returns (r: Result<Appointment, BookingError>)
      modifies this
      ensures old(CheckForConflicts(request.appointmentDate)) ==>
        r == Failure(SlotAlreadyBooked) && appointments == old(appointments)
      ensures !old(CheckForConflicts(request.appointmentDate)) ==>
        r.Success? && appointments == old(appointments) + [r.value] &&
        r.value == Appointment(id, request.name, request.email, request.phone, request.propertyType,
                               request.projectType, request.appointmentDate, request.message, now)
      ensures old(NoOverlap(appointments)) ==> NoOverlap(appointments)
    {
      var stored := appointments;
      var conflict := CheckForConflicts(request.appointmentDate);
      if conflict {
        return Failure(SlotAlreadyBooked);
      }
      var created := Appointment(id, request.name, request.email, request.phone, request.propertyType,
                                 request.projectType, request.appointmentDate, request.message, now);
      if NoOverlap(stored) {
        AppendKeepsNoOverlap(stored, created);
      }
      stored := stored + [created];
      appointments := stored;
      r := Success(created);
    }

    /**
     * `getAvailableSlots`: the candidate slots of the day of `date` that do not
     * conflict with any stored appointment, in ascending order.
     */
    method GetAvailableSlots(date: int) returns (slots: seq<int>)
      ensures slots == FreeSlots(appointments, Candidates(date))
      ensures forall x :: x in slots <==> x in Candidates(date) && !CheckForConflicts(x)
      ensures Ascending(slots)
      ensures |slots| <= 4
      ensures appointments == [] ==> slots == Candidates(date)
    {
      var totalSlots := (ClosingHour - OpeningHour) / SlotHours;
      var allSlots: seq<int> := [];
      for i := 0 to totalSlots
        invariant allSlots == Candidates(date)[..i]
      {
        allSlots := allSlots + [SetHours(date, OpeningHour + i * SlotHours)];
      }
      assert allSlots == Candidates(date);
      slots := FreeSlots(appointments, allSlots);
    }
  }

  predicate Ascending(s: seq<int>)
  {
    forall i, j :: 0 <= i < j < |s| ==> s[i] < s[j]
  }

  lemma ConsAscending(x: int, rest: seq<int>)
    ensures Ascending(rest) && (forall y :: y in rest ==> x < y) ==> Ascending([x] + rest)
  {
    if Ascending(rest) && (forall y :: y in rest ==> x < y) {
      var s := [x] + rest;
      forall i, j | 0 <= i < j < |s| ensures s[i] < s[j] {
        assert s[j] == rest[j - 1] && rest[j - 1] in rest;
        if i > 0 {
          assert s[i] == rest[i - 1];
        }
      }
    }
  }

  /** `allSlots.filter(slot => !checkForConflicts(slot))`, kept in order. */
  function FreeSlots(appointments: seq<Appointment>, candidates: seq<int>): (r: seq<int>)
    ensures forall x :: x in r <==> x in candidates && !HasConflict(appointments, x)
    ensures |r| <= |candidates|
    ensures Ascending(candidates) ==> Ascending(r)
    ensures appointments == [] ==> r == candidates
  {
    if candidates == [] then []
    else
      var rest := FreeSlots(appointments, candidates[1..]);
      ConsAscending(candidates[0], rest);
      if HasConflict(appointments, candidates[0]) then rest else [candidates[0]] + rest
  }

  /** After every candidate slot of a day is booked, no slot of that day is free. */
  lemma {:induction false} FullyBookedDayHasNoSlots(appointments: seq<Appointment>, date: int)
    requires forall c :: c in Candidates(date) ==>
      exists i :: 0 <= i < |appointments| && appointments[i].appointmentDate == c
    ensures FreeSlots(appointments, Candidates(date)) == []
  {
    forall c | c in Candidates(date) ensures HasConflict(appointments, c) {
      var i :| 0 <= i < |appointments| && appointments[i].appointmentDate == c;
      StoredDateConflicts(appointments, i);
    }
    AllConflictingLeavesNone(appointments, Candidates(date));
  }

  /** Filtering candidates that all conflict leaves nothing. */
  lemma {:induction false} AllConflictingLeavesNone(appointments: seq<Appointment>, candidates: seq<int>)
    requires forall c :: c in candidates ==> HasConflict(appointments, c)
    ensures FreeSlots(appointments, candidates) == []
    decreases |candidates|
  {
    if candidates != [] {
      assert candidates[0] in candidates;
      forall c | c in candidates[1..] ensures HasConflict(appointments, c) {
        assert c in candidates;
      }
      AllConflictingLeavesNone(appointments, candidates[1..]);
    }
  }
}
