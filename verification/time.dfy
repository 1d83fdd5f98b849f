/**
 * The parts of java.time that the core relies on.
 *
 * A `ZonedDateTime` is an instant (whole seconds since the epoch) together with
 * the UTC offset of its zone at that instant. Comparisons (`isBefore`, `isAfter`)
 * are on the instant only; the calendar date (`toLocalDate`) depends on the offset.
 */
module Time {

  const SecondsPerDay: int := 86400
  const SecondsPerWeek: int := 7 * SecondsPerDay

  datatype ZonedDateTime = ZonedDateTime(epochSecond: int, offsetSeconds: int)

  /** A wall-clock time of day, as built by `LocalTime.of(hour, minute)`. */
  datatype LocalTime = LocalTime(hour: nat, minute: nat)

  /** `a.isBefore(b)`: the instant of `a` is strictly earlier than that of `b`. */
  predicate IsBefore(a: ZonedDateTime, b: ZonedDateTime) {
    a.epochSecond < b.epochSecond
  }

  /** `a.isAfter(b)`: the instant of `a` is strictly later than that of `b`. */
  predicate IsAfter(a: ZonedDateTime, b: ZonedDateTime) {
    a.epochSecond > b.epochSecond
  }

  /**
   * `t.toLocalDate()`, as a day number counted from 1970-01-01. Java floors the
   * division, and so does Dafny's `/` for a positive divisor.
   */
  function LocalDate(t: ZonedDateTime): (day: int)
    ensures day * SecondsPerDay <= t.epochSecond + t.offsetSeconds < (day + 1) * SecondsPerDay
  {
    (t.epochSecond + t.offsetSeconds) / SecondsPerDay
  }

  /**
   * `t.plusWeeks(1).toInstant().epochSecond` for a zone with a fixed offset:
   * the same wall-clock time of day, seven local dates later, and so an
   * instant after `t`.
   */
  function PlusOneWeekEpochSecond(t: ZonedDateTime): (s: int)
    ensures LocalDate(ZonedDateTime(s, t.offsetSeconds)) == LocalDate(t) + 7
    ensures (s + t.offsetSeconds) % SecondsPerDay == (t.epochSecond + t.offsetSeconds) % SecondsPerDay
    ensures IsAfter(ZonedDateTime(s, t.offsetSeconds), t)
  {
    t.epochSecond + SecondsPerWeek
  }

  /**
   * `t.withZoneSameInstant(ZoneId.of("UTC"))`, which the store's date converter
   * applies to every date it reads back: the same instant, seen with offset 0.
   */
  function InUtc(t: ZonedDateTime): (u: ZonedDateTime)
    ensures u.offsetSeconds == 0
    ensures !IsBefore(u, t) && !IsAfter(u, t)
    ensures t.offsetSeconds == 0 ==> u == t
  {
    ZonedDateTime(t.epochSecond, 0)
  }

  /** Seeing two dates in UTC keeps their order, and converting twice is converting once. */
  lemma InUtcKeepsOrder(a: ZonedDateTime, b: ZonedDateTime)
    ensures IsBefore(InUtc(a), InUtc(b)) <==> IsBefore(a, b)
    ensures IsAfter(InUtc(a), InUtc(b)) <==> IsAfter(a, b)
    ensures InUtc(InUtc(a)) == InUtc(a)
  {
  }
}
