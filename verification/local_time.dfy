/**
  Instants are integer milliseconds since the epoch. The device's local
  calendar (time zone and daylight-saving rules) is external, so it is a
  parameter: `dayOf` numbers the local calendar date of an instant and
  `midnightOf` gives the instant at which a local date begins (what
  `setHours(0, 0, 0, 0)` lands on).
*/
module LocalTime {

  const DayMs: int := 24 * 60 * 60 * 1000
  const WeekMs: int := 7 * DayMs

  datatype Calendar = Calendar(dayOf: int -> int, midnightOf: int -> int)

  /** Midnights are strictly increasing and every instant lies inside its own local date. */
  ghost predicate Coherent(c: Calendar) {
    && (forall d1, d2 :: d1 < d2 ==> c.midnightOf(d1) < c.midnightOf(d2))
    && (forall t :: c.midnightOf(c.dayOf(t)) <= t < c.midnightOf(c.dayOf(t) + 1))
  }

  /** Local midnight of the date of `t`. */
  function StartOfDay(c: Calendar, t: int): int {
    c.midnightOf(c.dayOf(t))
  }

  /** Local midnight of the date before the date of `t`. */
  function StartOfYesterday(c: Calendar, t: int): int {
    c.midnightOf(c.dayOf(t) - 1)
  }

  /** A calendar at a fixed offset from UTC, without daylight saving. */
  function FixedOffset(offsetMs: int): (c: Calendar)
    ensures c.dayOf(-offsetMs) == 0 && c.dayOf(DayMs - offsetMs) == 1
  {
    Calendar(t => (t + offsetMs) / DayMs, d => d * DayMs - offsetMs)
  }

  /** Fixed-offset calendars are coherent, so coherent calendars exist. */
  lemma FixedOffsetCoherent(offsetMs: int)
    ensures Coherent(FixedOffset(offsetMs))
  {
    var c := FixedOffset(offsetMs);
    forall d1, d2 | d1 < d2
      ensures c.midnightOf(d1) < c.midnightOf(d2)
    {
      assert c.midnightOf(d1) == d1 * DayMs - offsetMs;
      assert c.midnightOf(d2) == d2 * DayMs - offsetMs;
    }
    forall t
      ensures c.midnightOf(c.dayOf(t)) <= t < c.midnightOf(c.dayOf(t) + 1)
    {
      FixedOffsetBracket(offsetMs, t);
    }
  }

  /** In a fixed-offset calendar an instant lies between its date's midnight and the next. */
  lemma FixedOffsetBracket(offsetMs: int, t: int)
    ensures var c := FixedOffset(offsetMs); c.midnightOf(c.dayOf(t)) <= t < c.midnightOf(c.dayOf(t) + 1)
  {
    var q, rem := (t + offsetMs) / DayMs, (t + offsetMs) % DayMs;
    assert t + offsetMs == q * DayMs + rem && 0 <= rem < DayMs;
  }

  /** An instant is at or after today's local midnight exactly when its local date is today or later. */
  lemma AtOrAfterStartOfDay(c: Calendar, now: int, t: int)
    requires Coherent(c)
    ensures t >= StartOfDay(c, now) <==> c.dayOf(t) >= c.dayOf(now)
  {
    var dn, dt := c.dayOf(now), c.dayOf(t);
    assert c.midnightOf(dt) <= t < c.midnightOf(dt + 1);
    if dt >= dn {
      if dt > dn {
        assert c.midnightOf(dn) < c.midnightOf(dt);
      }
    } else {
      if dt + 1 < dn {
        assert c.midnightOf(dt + 1) < c.midnightOf(dn);
      }
    }
  }

  /** Under a coherent calendar, today's local midnight is no later than now and falls on today's date. */
  lemma StartOfDayInItsDay(c: Calendar, t: int)
    ensures Coherent(c) ==> StartOfDay(c, t) <= t && c.dayOf(StartOfDay(c, t)) == c.dayOf(t)
  {
    if Coherent(c) {
      var d := c.dayOf(t);
      var m := c.midnightOf(d);
      var e := c.dayOf(m);
      assert c.midnightOf(e) <= m < c.midnightOf(e + 1);
    }
  }

  /** Two local dates share a midnight only when they are the same date. */
  lemma MidnightInjective(c: Calendar, a: int, b: int)
    requires Coherent(c)
    ensures c.midnightOf(a) == c.midnightOf(b) <==> a == b
  {
    if a < b {
      assert c.midnightOf(a) < c.midnightOf(b);
    } else if b < a {
      assert c.midnightOf(b) < c.midnightOf(a);
    }
  }
}
