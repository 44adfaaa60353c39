# Appointment booking and anti-spam core, modelled in Dafny

This project models the three stateful services behind the booking form of a
window and door manufacturer's website:

- **Rate limiter** (`src/services/rateLimit.ts`). A fixed-window counter table
  keyed by client address and action type. Each action type has a window
  length and an allowance: `global` allows 1000 requests per 24 h,
  `appointment` 5 per hour and `contact` 3 per 10 minutes. `ShouldLimit` creates
  a missing record lazily and restarts an expired one. It always counts the
  request and reports whether the new count is over the allowance.
  `RemainingRequests` and `TimeUntilReset` are read-only queries. `ClearAll`
  deletes every record.
- **Appointment store and slot calculator** (`src/services/appointmentService.ts`).
  The store is an insertion-ordered sequence of appointments. A date conflicts
  with a stored appointment when both are on the same calendar day and strictly
  less than two hours apart. `AddAppointment` checks for a conflict, then
  appends. `GetAvailableSlots` builds the 09:00, 11:00, 13:00 and 15:00 slots of
  a day and keeps those that do not conflict.
- **Appointment request gate** (`src/services/appointmentTracker.ts`). It counts
  a request against the `appointment` tier first and the `global` tier second.
  It returns the first refusal: for the appointment tier, with the minutes until
  that window ends. The global tier is only counted when the appointment tier
  passed.

Modelling choices:

- The clock is a parameter `now` in integer milliseconds.
- A calendar day is `Day(t) = t / 86_400_000`.
- `setHours(h, 0, 0, 0)` is `Day(t) * 86_400_000 + h * 3_600_000` (module `Time`).
- The limiter's table is a `map` from the pair `(ip, actionType)` to a record.
  The source uses the string `` `${ip}:${actionType}` ``. With the three
  configured action types, two different pairs never give the same string, so
  the pair is faithful. For arbitrary action types it is not: the action types
  "a" and "b:a" make the pairs ("x:b", "a") and ("x", "b:a") share the string
  "x:b:a". The constructor accepts any settings map; only the three configured
  action types are claimed.
- The settings are a `const` map of the limiter object.
- An action type passed to the limiter must be configured (a `requires`). An
  unknown one would read an undefined settings entry in the source.
- Objects whose state the source changes are classes with methods that say
  their whole new state: `RateLimit.RateLimiter` and
  `AppointmentService.AppointmentStore`. Read-only queries are functions over
  that state.
- The *windows bound* at an instant t says that every record ends at most one
  window length after t (`RateLimiter.WindowsWithin`). It bounds the wait the
  gate reports.
- Refusal reasons are tags (`Verdict`, `BookingError`), not message strings.
- `getAppointments` is the store's field `appointments`. The constructor starts
  it empty.

Module `Booking` composes the gate and the store: gate first, then book. **This composition does not exist in the
repository.** The form at `src/components/AppointmentForm.tsx:54-65` only logs
the data and shows a notice. The module exists to state what such a
composition would guarantee:

- a refused request leaves the store unchanged;
- every request counts against the appointment tier;
- with six requests inside one hour, the sixth is refused whatever slot it
  asks for.

It models no function of the repository and has no row below.

## Model

| member | source | states |
|---|---|---|
| `RateLimit.DefaultSettings` | src/services/rateLimit.ts:21-25 | Exactly the action types global, appointment and contact are configured. Each has a positive window and a positive allowance. The appointment tier has a shorter window and a smaller allowance than the global tier. |
| `RateLimit.Next` | src/services/rateLimit.ts:33-49 | The record after one request: its count is at least 1 and it ends no earlier than now. It is either a fresh count of 1 or the previous record with count + 1 and the same end. Which case applies is stated on `ShouldLimit`. |
| `RateLimit.Replay` | src/services/rateLimit.ts:43-50 | Successive requests on one key give exactly one verdict per request. |
| `RateLimit.After` | src/services/rateLimit.ts:33-49 | The record left by a non-empty series of requests on one key exists and has count >= 1. |
| `RateLimit.ReplaySnoc` | src/services/rateLimit.ts:43-50 | One more request extends the verdicts by the verdict of `Next` on the record the earlier requests left, and the record becomes that `Next`. This ties the series functions to successive calls. |
| `RateLimit.ReplayInsideWindow` | src/services/rateLimit.ts:43-50 | While the window is open (every instant <= resetAt), the i-th further request is refused iff count + i + 1 > maxRequests. Refused requests count too. |
| `RateLimit.FreshWindowAdmitsAllowance` | src/services/rateLimit.ts:33-50 | From a missing or expired record, with every request inside the window the first one opens, request i (from 0) is refused iff i >= maxRequests. So the first maxRequests pass and request maxRequests + 1 is refused. |
| `RateLimit.RateLimiter.WindowsWithinLater` | src/services/rateLimit.ts:36-45 | If every window ends within one window length of t, this also holds for any later u. |
| `RateLimit.RateLimiter.constructor` | src/services/rateLimit.ts:18-25 | The table starts empty with the given settings. The windows bound holds at every instant. |
| `RateLimit.RateLimiter.ShouldLimit` | src/services/rateLimit.ts:28-51 | Only the record of (ip, actionType) changes, and it becomes Next of the old one. A missing or expired record (now > resetAt, not now == resetAt) becomes count 1 with end now + windowMs. A live record gets count + 1 and keeps its end. The result is true iff the new count exceeds maxRequests. When limited, the remaining allowance reads 0; when not, it is maxRequests - count. The call keeps the windows bound at now. |
| `RateLimit.RateLimiter.RemainingRequests` | src/services/rateLimit.ts:54-64 | Reads only. The result is in [0, maxRequests]. It is maxRequests when there is no record or the record is expired. For a live record it is 0 iff count >= maxRequests, and result + count == maxRequests while count <= maxRequests. |
| `RateLimit.RateLimiter.TimeUntilReset` | src/services/rateLimit.ts:67-76 | Reads only. The result is never negative. It is 0 iff there is no record or the record ends no later than now. For a live record it is exactly resetAt - now. Under the windows bound it is at most the action type's windowMs. |
| `RateLimit.RateLimiter.ClearAll` | src/services/rateLimit.ts:79-83 | Deletes records one key at a time until the table is empty. Afterwards every key reads as fresh: remaining = maxRequests and time until reset = 0. |
| `RateLimit.WindowResetScenario` | src/services/rateLimit.ts:43-50 | On a fresh limiter, with the 5-per-hour appointment tier: five requests pass and the sixth is refused. The first request after the hour passes and leaves 4 remaining. Along the way the verdicts of the successive calls equal `Replay` and the record equals `After`. |
| `Time.TimeOfDay` | src/services/appointmentService.ts:91 | The time of day lies in [0, one day) and, added to the start of the day, gives t back. |
| `Time.SetHours` | src/services/appointmentService.ts:91 | Setting hour h (0..23) keeps the day and gives exactly h hours after midnight. |
| `AppointmentService.Clashes` | src/services/appointmentService.ts:71-72 | Two dates clash iff they are on the same day and strictly less than 2 h apart; equivalently, the booked date lies strictly inside the two hours on either side of the requested one, on its day. |
| `AppointmentService.HasConflict` | src/services/appointmentService.ts:70-73 | True iff some appointment in the sequence is on the same day as the date and strictly less than 2 h (7,200,000 ms) from it. |
| `AppointmentService.AppointmentStore.CheckForConflicts` | src/services/appointmentService.ts:65-74 | True iff some stored appointment is on the same day as the date and strictly less than 2 h from it. |
| `AppointmentService.TwoHourBoundary` | src/services/appointmentService.ts:71-72 | Dates exactly 2 h apart never clash. Dates 1 ms less apart clash iff they are on the same day. |
| `AppointmentService.NineOClockExample` | src/services/appointmentService.ts:71-72 | With an appointment at 09:00, 10:30 on the same day conflicts and 11:30 does not. |
| `AppointmentService.StoredDateConflicts` | src/services/appointmentService.ts:70-73 | The date of any stored appointment conflicts with the store. |
| `AppointmentService.AppendKeepsNoOverlap` | src/services/appointmentService.ts:44-57 | Appending an appointment that conflicts with nothing keeps the invariant: no two stored appointments are on the same day and less than 2 h apart. |
| `AppointmentService.AppointmentStore.constructor` | src/services/appointmentService.ts:22-24 | With no stored data the appointment sequence is empty. |
| `AppointmentService.AppointmentStore.AddAppointment` | src/services/appointmentService.ts:40-61 | On a conflict: returns the slot-already-booked error and the store is unchanged. Otherwise: appends exactly one appointment and returns it. Its payload equals the request, with the given id and createdAt = now, and the earlier elements keep their order. The no-overlap invariant is preserved. |
| `AppointmentService.Candidates` | src/services/appointmentService.ts:85-93 | There are (17 - 9) / 2 = 4 candidate slots, in ascending order. Slot i is on the day of the date at (9 + 2i):00:00.000. |
| `AppointmentService.FreeSlots` | src/services/appointmentService.ts:96 | A value is in the result iff it is a candidate that does not conflict. The result is no longer than the input. Ascending input gives ascending output. With an empty store it is the input itself. |
| `AppointmentService.AppointmentStore.GetAvailableSlots` | src/services/appointmentService.ts:77-97 | Reads only. The loop builds the four candidates and the result is their conflict-free filter. A date is returned iff it is a candidate and does not conflict. The result is ascending, has at most 4 slots, and is all 4 candidates when the store is empty. |
| `AppointmentService.FullyBookedDayHasNoSlots` | src/services/appointmentService.ts:88-96 | Once every candidate slot of a day is booked, no slot of that day is free. |
| `AppointmentService.AllConflictingLeavesNone` | src/services/appointmentService.ts:96 | When every candidate conflicts, the filter leaves nothing. |
| `AppointmentTracker.CeilMinutes` | src/services/appointmentTracker.ts:10 | Rounding up to whole minutes: the fewest minutes m with ms <= m * 60000. |
| `AppointmentTracker.CeilMinutesMonotone` | src/services/appointmentTracker.ts:10 | Rounding up keeps the order of two waits. |
| `AppointmentTracker.AppointmentWindowIsSixtyMinutes` | src/services/rateLimit.ts:23 | The appointment window (one hour) rounds to 60 minutes, the largest wait the gate can report. |
| `AppointmentTracker.TrackAppointmentRequest` | src/services/appointmentTracker.ts:7-26 | Always counts the request on (ip, "appointment"). If that tier is over: refused with ceil(timeUntilReset / 60000) minutes and the global record untouched. Otherwise counts on (ip, "global") and is refused with the daily reason iff that count is over. Allowed iff appointment count <= 5 and global count <= 1000 (with the default settings). Under the windows bound the minutes lie in [0, CeilMinutes(windowMs)] = [0, 60]. |
| `AppointmentTracker.GetRemainingRequests` | src/services/appointmentTracker.ts:29-31 | Reads only. Equals the limiter's remaining allowance for (ip, "appointment"), so it is at most that tier's maxRequests. |

## Left out

- Persistence: `localStorage`, and the JSON serialisation with its date reviver (src/services/appointmentService.ts:22-37). The store is an in-memory sequence. Each call of the source re-reads storage; here all calls read the same field.
- `generateId` (src/services/appointmentService.ts:105-107). It uses the clock and a random source, so the id is a parameter. No uniqueness of ids is claimed.
- `formatAppointmentDate` and the wording of messages. Reasons are tags.
- The wall clock. `Date.now()` and `new Date()` are the parameter `now`. The gate reads the clock separately at src/services/appointmentTracker.ts:9, :10 and :18 (through src/services/rateLimit.ts:29 and :68); the model uses one `now` for the whole call. With a clock that moves forward between those reads, the reported wait can only be smaller, so the 60-minute bound still holds.
- Local time zones and daylight-saving time in `isSameDay` and `setHours`. Days are fixed 24-hour blocks of the integer timeline.
- Floating-point arithmetic. `Math.ceil(ms / 1000 / 60)` is integer ceiling division.
- JavaScript numbers are unbounded integers here. Counts and instants never reach 2^53 in practice.
- Settings: `windowMs` and `maxRequests` are natural numbers, which the three configured action types satisfy. Nothing in the source reassigns `settings`, so it is a constant of the limiter.
- The default `actionType = 'global'` argument of the limiter's functions. Every model call passes the action type explicitly.
- `AppointmentTracker.TrackAppointmentRequest`: the bound of 60 minutes is stated only under the windows bound: every record's end is at most now + windowMs. A clock that never goes backwards keeps that bound (`RateLimiter.WindowsWithinLater`, `ShouldLimit`). With a clock that goes back, the source can report a longer wait.
- Concurrency: the source is single-threaded and so is the model.
- The React components, the form schema and the mock token utilities.

