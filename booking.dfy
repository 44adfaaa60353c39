/**
 * Gate-then-book composition. The repository's booking form neither calls the
 * request gate nor the store (it only logs the form data and shows a notice);
 * this module composes the two components, gate first and then store, so that
 * what such a composition guarantees can be stated and proved. It is not a
 * model of any function of the repository.
 */
module Booking {
  import opened Wrappers
  import opened Time
  import opened RateLimit
  import opened AppointmentService
  import opened AppointmentTracker

  /** Why a booking request was refused. */
  datatype BookingFailure =
    | TooManyRequests(minutesUntilReset: nat)
    | DailyLimit
    | SlotTaken

  /**
   * Run the request gate for `ip`; when it allows, book the request in the
   * store. Every request counts against the appointment tier, and a refused
   * one leaves the store as it was.
   */
  method RequestBooking(limiter: RateLimiter, store: AppointmentStore, ip: string,
                        request: AppointmentRequest, id: string, now: int)
    returns (r: Result<Appointment, BookingFailure>)
    requires "appointment" in limiter.settings && "global" in limiter.settings
    modifies limiter, store
    ensures (ip, "appointment") in limiter.store
    ensures limiter.store[(ip, "appointment")] ==
      Next(Lookup(old(limiter.store), (ip, "appointment")), limiter.settings["appointment"], now)
    ensures limiter.store[(ip, "appointment")].count > limiter.settings["appointment"].maxRequests ==>
      r.Failure? && r.error.TooManyRequests?
    ensures r.Success? <==>
      && limiter.store[(ip, "appointment")].count <= limiter.settings["appointment"].maxRequests
      && (ip, "global") in limiter.store
      && limiter.store[(ip, "global")].count <= limiter.settings["global"].maxRequests
      && !old(store.CheckForConflicts(request.appointmentDate))
    ensures r.Success? ==>
      store.appointments == old(store.appointments) + [r.value] &&
      r.value.appointmentDate == request.appointmentDate && r.value.id == id && r.value.createdAt == now
    ensures r.Failure? ==> store.appointments == old(store.appointments)
    ensures (ip, "global") in old(limiter.store) ==> (ip, "global") in limiter.store
    ensures limiter.store[(ip, "appointment")].count <= limiter.settings["appointment"].maxRequests ==>
      (ip, "global") in limiter.store
    ensures (ip, "global") in limiter.store ==>
      limiter.store[(ip, "global")].count <= 1 + (if (ip, "global") in old(limiter.store) then old(limiter.store)[(ip, "global")].count else 0)
    ensures old(NoOverlap(store.appointments)) ==> NoOverlap(store.appointments)
    ensures old(limiter.WindowsWithin(now)) ==> limiter.WindowsWithin(now)
  {
    var verdict := TrackAppointmentRequest(limiter, ip, now);
    match verdict {
      case AppointmentLimitReached(minutes) =>
        return Failure(TooManyRequests(minutes));
      case DailyLimitReached =>
        return Failure(DailyLimit);
      case Allowed =>
        var added := store.AddAppointment(request, id, now);
        match added {
          case Success(a) => return Success(a);
          case Failure(_) => return Failure(SlotTaken);
        }
    }
  }

  /**
   * One client sends six booking requests within the hour after its first one,
   * on a fresh limiter and an empty store: the first is booked, and the sixth
   * is refused by the appointment tier whatever slot it asks for.
   */
  method SixRequestsWithinAnHour(ip: string, requests: seq<AppointmentRequest>, ids: seq<string>, times: seq<int>)
    returns (results: seq<Result<Appointment, BookingFailure>>)
    requires |requests| == 6 && |ids| == 6 && |times| == 6
    requires forall i :: 0 <= i < 6 ==> times[i] <= times[0] + MsPerHour
    ensures |results| == 6
    ensures results[0].Success? && results[0].value.appointmentDate == requests[0].appointmentDate
    ensures results[5].Failure? && results[5].error.TooManyRequests?
  {
    var limiter := new RateLimiter(DefaultSettings());
    var store := new AppointmentStore();
    results := [];
    for i := 0 to 6
      invariant limiter.settings == DefaultSettings()
      invariant |results| == i
      invariant i == 0 ==> limiter.store == map[] && store.appointments == []
      invariant i > 0 ==>
        (ip, "appointment") in limiter.store && limiter.store[(ip, "appointment")] == Record(i, times[0] + MsPerHour)
      invariant (ip, "global") in limiter.store ==> limiter.store[(ip, "global")].count <= i
      invariant forall k :: 5 <= k < i ==> results[k].Failure? && results[k].error.TooManyRequests?
      invariant i > 0 ==> results[0].Success? && results[0].value.appointmentDate == requests[0].appointmentDate
    {
      var r := RequestBooking(limiter, store, ip, requests[i], ids[i], times[i]);
      results := results + [r];
    }
  }
}
