/**
  * Timestamps are integer milliseconds since 1970-01-01T00:00:00.000Z. A
  * "YYYY-MM-DD" text that denotes day d covers the inclusive range
  * [d * 86400000, d * 86400000 + 86399999].
  */
module Dates {
  import opened Wrappers
  import opened Js

  const DayMs: int := 86400000

  /** The instant `${ymd}T00:00:00.000Z` for the day d that ymd denotes. */
  function DayStart(d: int): int
  {
    d * DayMs
  }

  /** The instant `${ymd}T23:59:59.999Z` for the day d that ymd denotes. */
  function DayEnd(d: int): int
  {
    d * DayMs + DayMs - 1
  }

  /** An instant lies in the range from the start of day `first` to the end of day `last` exactly when its UTC day is between them. */
  lemma WholeDays(first: int, last: int, t: int)
    ensures DayStart(first) <= t <= DayEnd(last) <==> first <= t / DayMs <= last
  {
    var d := t / DayMs;
    assert d * DayMs <= t < d * DayMs + DayMs;
    if first <= d {
      assert first * DayMs <= d * DayMs;
    } else {
      assert first >= d + 1;
      assert first * DayMs >= (d + 1) * DayMs;
    }
    if d <= last {
      assert d * DayMs <= last * DayMs;
    } else {
      assert d >= last + 1;
      assert (last + 1) * DayMs <= d * DayMs;
    }
  }

  /** The result of `parseDateYMD`: null, an Invalid Date, or a UTC midnight. */
  datatype ParsedDate = NullDate | InvalidDate | Midnight(ms: int)

  /** `parseDateYMD(ymd)`: null for a falsy input, otherwise the Date `${ymd}T00:00:00.000Z`. */
  function ParseDateYMD(rt: Runtime, ymd: Value): (r: ParsedDate)
    ensures r == NullDate <==> !Truthy(ymd)
    ensures r == InvalidDate <==> Truthy(ymd) && rt.dayOf(ymd).None?
    ensures r.Midnight? ==> r.ms % DayMs == 0 && r.ms == DayStart(rt.dayOf(ymd).value)
  {
    if !Truthy(ymd) then NullDate
    else match rt.dayOf(ymd)
      case None => InvalidDate
      case Some(d) => Midnight(DayStart(d))
  }

  /** The `gte`/`lte` condition a handler may add on a timestamp column. */
  datatype Range = Unbounded | Between(lo: int, hi: int)

  predicate InRange(t: int, r: Range)
  {
    r.Unbounded? || r.lo <= t <= r.hi
  }
}
