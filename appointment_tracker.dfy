/**
 * Appointment request gate (src/services/appointmentTracker.ts).
 *
 * A booking request from a client address is counted against two limiter
 * tiers in a fixed order: first the per-hour "appointment" allowance, then the
 * per-day "global" one. The first tier that is over its allowance decides the
 * refusal; the second tier is only counted when the first one passed.
 */
module AppointmentTracker {
  import opened Wrappers
  import opened Time
  import opened RateLimit

  /** The gate's answer; the two refusals carry the reason the message would give. */
  datatype Verdict =
    | Allowed
    | AppointmentLimitReached(minutesUntilReset: nat)
    | DailyLimitReached

  /** Whole minutes, rounded up: `Math.ceil(ms / 1000 / 60)`. */
  function CeilMinutes(ms: nat): (m: nat)
    ensures ms <= m * MsPerMinute
    ensures m == 0 || (m - 1) * MsPerMinute < ms
  {
    (ms + MsPerMinute - 1) / MsPerMinute
  }

  /** With the configured one-hour window, the reported wait is at most 60 minutes. */
  lemma AppointmentWindowIsSixtyMinutes()
    ensures "appointment" in DefaultSettings()
    ensures CeilMinutes(DefaultSettings()["appointment"].windowMs) == 60
  {
    assert CeilMinutes(MsPerHour) == 60;
  }

  /** Rounding up to minutes keeps the order of two waits. */
  lemma CeilMinutesMonotone(a: nat, b: nat)
    requires a <= b
    ensures CeilMinutes(a) <= CeilMinutes(b)
  {
  }

  /**
   * `trackAppointmentRequest`: count the request against the appointment tier;
   * if that tier is over its allowance, refuse with the minutes until its window
   * ends and leave the global tier alone; otherwise count it against the global
   * tier and refuse if that one is over; otherwise allow.
   */
  method TrackAppointmentRequest(limiter: RateLimiter, ip: string, now: int) returns (v: Verdict)
    requires "appointment" in limiter.settings && "global" in limiter.settings
    modifies limiter
    ensures var appointment := Next(Lookup(old(limiter.store), (ip, "appointment")), limiter.settings["appointment"], now);
      && (v.AppointmentLimitReached? <==> appointment.count > limiter.settings["appointment"].maxRequests)
      && (v.AppointmentLimitReached? ==>
            limiter.store == old(limiter.store)[(ip, "appointment") := appointment] &&
            v.minutesUntilReset == CeilMinutes(limiter.TimeUntilReset(ip, "appointment", now)))
      && (!v.AppointmentLimitReached? ==>
            var global := Next(Lookup(old(limiter.store), (ip, "global")), limiter.settings["global"], now);
            limiter.store == old(limiter.store)[(ip, "appointment") := appointment][(ip, "global") := global] &&
            (v.DailyLimitReached? <==> global.count > limiter.settings["global"].maxRequests))
    ensures v.Allowed? <==>
      && limiter.store[(ip, "appointment")].count <= limiter.settings["appointment"].maxRequests
      && (ip, "global") in limiter.store
      && limiter.store[(ip, "global")].count <= limiter.settings["global"].maxRequests
    ensures old(limiter.WindowsWithin(now)) ==>
      && limiter.WindowsWithin(now)
      && (v.AppointmentLimitReached? ==>
            v.minutesUntilReset <= CeilMinutes(limiter.settings["appointment"].windowMs))
  {
    var limited := limiter.ShouldLimit(ip, "appointment", now);
    if limited {
      var waitMs := limiter.TimeUntilReset(ip, "appointment", now);
      if waitMs <= limiter.settings["appointment"].windowMs {
        CeilMinutesMonotone(waitMs, limiter.settings["appointment"].windowMs);
      }
      return AppointmentLimitReached(CeilMinutes(waitMs));
    }
    limited := limiter.ShouldLimit(ip, "global", now);
    if limited {
      return DailyLimitReached;
    }
    return Allowed;
  }

  /** `getRemainingRequests`: the appointment tier's remaining allowance for `ip`. */
  function GetRemainingRequests(limiter: RateLimiter, ip: string, now: int): (n: nat)
    reads limiter
    requires "appointment" in limiter.settings
    ensures n <= limiter.settings["appointment"].maxRequests
    ensures n == limiter.RemainingRequests(ip, "appointment", now)
  {
    limiter.RemainingRequests(ip, "appointment", now)
  }
}
