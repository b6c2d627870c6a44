/** The day arithmetic the components do with `setHours(0, 0, 0, 0)` and date-fns.
    An instant is an integer number of milliseconds since the epoch; the local time
    zone is a fixed offset (ms ahead of UTC), so every local day lasts `MsPerDay`. */
module Clock {

  const MsPerDay: int := 86_400_000

  /** The number of the local calendar day that contains instant `t`. */
  function LocalDay(t: int, offset: int): (r: int)
    ensures r * MsPerDay <= t + offset < r * MsPerDay + MsPerDay
  {
    (t + offset) / MsPerDay
  }

  /** `d.setHours(0, 0, 0, 0)`: local midnight at the start of the day of `t`. */
  function StartOfDay(t: int, offset: int): (r: int)
    ensures r <= t < r + MsPerDay
    ensures LocalDay(r, offset) == LocalDay(t, offset)
    ensures r == LocalDay(t, offset) * MsPerDay - offset
  {
    var q := (t + offset) / MsPerDay;
    assert (q * MsPerDay + offset + offset - offset) == q * MsPerDay + offset;
    assert (q * MsPerDay) / MsPerDay == q;
    q * MsPerDay - offset
  }

  /** date-fns `differenceInDays(later, earlier)`: the number of whole days between
      two instants, truncated toward zero. */
  function DifferenceInDays(later: int, earlier: int): (r: int)
    ensures later >= earlier ==> r >= 0 && r * MsPerDay <= later - earlier < r * MsPerDay + MsPerDay
    ensures later < earlier ==> r <= 0 && -r * MsPerDay <= earlier - later < -r * MsPerDay + MsPerDay
  {
    var diff := later - earlier;
    if diff >= 0 then diff / MsPerDay else -((-diff) / MsPerDay)
  }

  /** Between two local midnights the difference in days is exactly the difference of
      their day numbers. */
  lemma DifferenceOfMidnights(t: int, u: int, offset: int)
    ensures DifferenceInDays(StartOfDay(t, offset), StartOfDay(u, offset))
         == LocalDay(t, offset) - LocalDay(u, offset)
  {
    var k := LocalDay(t, offset) - LocalDay(u, offset);
    var diff := StartOfDay(t, offset) - StartOfDay(u, offset);
    assert diff == k * MsPerDay;
    if k >= 0 {
      assert diff / MsPerDay == k;
    } else {
      assert -diff == (-k) * MsPerDay;
      assert (-diff) / MsPerDay == -k;
    }
  }

  /** An instant lies at or after the start of today exactly when its local day is
      today or later. */
  lemma AtOrAfterStartOfDay(t: int, now: int, offset: int)
    ensures t >= StartOfDay(now, offset) <==> LocalDay(t, offset) >= LocalDay(now, offset)
  {
    var s := StartOfDay(now, offset);
    var d := LocalDay(now, offset);
    if t >= s {
      assert t + offset >= d * MsPerDay;
      LocalDayMonotone(d * MsPerDay - offset, t, offset);
      assert LocalDay(d * MsPerDay - offset, offset) == d;
    } else {
      assert t + offset < d * MsPerDay;
      assert (t + offset) / MsPerDay < d;
    }
  }

  lemma LocalDayMonotone(t: int, u: int, offset: int)
    requires t <= u
    ensures LocalDay(t, offset) <= LocalDay(u, offset)
  {
  }
}
