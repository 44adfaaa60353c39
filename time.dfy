/**
 * Timestamps are integer milliseconds since the epoch. A calendar day is the
 * integer part of the timestamp divided by the length of a day; setting the
 * hour of a date keeps its day and replaces its time of day.
 */
module Time {

  const MsPerMinute: nat := 60 * 1000
  const MsPerHour: nat := 60 * MsPerMinute
  const MsPerDay: nat := 24 * MsPerHour

  /** The calendar day a timestamp falls on. */
  function Day(t: int): int
  {
    t / MsPerDay
  }

  /**
   * `setHours(h, 0, 0, 0)`: hour h of the day of t, with zero minutes, seconds
   * and milliseconds. An hour of the day stays on the day of t and lands
   * exactly that many hours after midnight.
   */
  function SetHours(t: int, h: int): (r: int)
    ensures 0 <= h < 24 ==> Day(r) == Day(t) && TimeOfDay(r) == h * MsPerHour
  {
    Day(t) * MsPerDay + h * MsPerHour
  }

  /** Milliseconds since the start of the day of t. */
  function TimeOfDay(t: int): (r: int)
    ensures 0 <= r < MsPerDay
    ensures t == Day(t) * MsPerDay + r
  {
    t % MsPerDay
  }
}
