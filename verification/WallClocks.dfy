/** Wall clocks and the instants that read them, in a zone whose transitions
    are isolated: at least 48 hours apart, each a jump of 30, 60 or 120 minutes. */
module WallClocks {
  import opened Zones
  import opened Calendar

  datatype TimeOfDay = TimeOfDay(hour: int, minute: int) {
    function Minutes(): int {
      hour * 60 + minute
    }
  }

  /** A clock face: a date and a time of day, in no zone. */
  datatype WallClock = WallClock(date: Date, tod: TimeOfDay) {
    predicate OnTheClock() {
      Valid(date) && 0 <= tod.hour < 24 && 0 <= tod.minute < 60
    }

    /** Seconds of local time. */
    function Local(): int {
      DayNumber(date) * DAY + tod.Minutes() * MINUTE
    }
  }

  /** matches: t, read in the zone, shows exactly this date, hour and minute, and no seconds. */
  predicate Matches(z: Zone, t: Instant, c: WallClock) {
    var local := z.LocalSecond(t);
    var second := local % DAY;
    && DateOf(local / DAY) == c.date
    && second / HOUR == c.tod.hour
    && (second % HOUR) / MINUTE == c.tod.minute
    && second % MINUTE == 0
  }

  lemma MatchesIff(z: Zone, t: Instant, c: WallClock)
    ensures Matches(z, t, c) <==> c.OnTheClock() && z.LocalSecond(t) == c.Local()
  {
    hide DayNumber, Valid;
    var local := z.LocalSecond(t);
    DateOfMeaning(local / DAY);
    if Matches(z, t, c) {
      DigitsOfDay(local / DAY, local % DAY, c.tod.hour, c.tod.minute);
      assert local == local / DAY * DAY + local % DAY;
    }
    if c.OnTheClock() && local == c.Local() {
      DigitsOfDay(DayNumber(c.date), c.tod.Minutes() * MINUTE, c.tod.hour, c.tod.minute);
      DateOfDayNumber(c.date);
    }
  }

  /** Splitting a second of the day into hours, minutes and seconds. */
  lemma DigitsOfDay(day: int, second: int, h: int, m: int)
    requires 0 <= second < DAY
    ensures (day * DAY + second) / DAY == day && (day * DAY + second) % DAY == second
    ensures second / HOUR == h && second % HOUR / MINUTE == m && second % MINUTE == 0
            <==> 0 <= h < 24 && 0 <= m < 60 && second == (h * 60 + m) * MINUTE
  {
  }

  ghost predicate Exists(z: Zone, c: WallClock) {
    exists t :: Matches(z, t, c)
  }

  ghost predicate Twice(z: Zone, c: WallClock) {
    exists t, u :: t < u && Matches(z, t, c) && Matches(z, u, c)
  }

  /** t is the first instant that reads the clock. */
  ghost predicate Earliest(z: Zone, t: Instant, c: WallClock) {
    Matches(z, t, c) && forall u :: Matches(z, u, c) ==> t <= u
  }

  // ---------- isolated transitions ----------

  predicate Jump(d: int) {
    d == 30 * MINUTE || d == HOUR || d == 2 * HOUR || d == -30 * MINUTE || d == -HOUR || d == -2 * HOUR
  }

  /** The k-th transition is a jump of a probed size, 48 hours after the one before. */
  predicate IsolatedAt(z: Zone, k: nat)
    requires k < |z.transitions|
  {
    && Jump(z.Offset(k + 1) - z.Offset(k))
    && (k > 0 ==> z.transitions[k - 1].at + 2 * DAY <= z.transitions[k].at)
  }

  ghost predicate Isolated(z: Zone) {
    forall k: nat :: k < |z.transitions| ==> IsolatedAt(z, k)
  }

  lemma {:induction false} JumpsAddUp(z: Zone, a: nat, b: nat)
    requires Isolated(z) && a <= b <= |z.transitions|
    ensures -2 * HOUR * (b - a) <= z.Offset(b) - z.Offset(a) <= 2 * HOUR * (b - a)
    decreases b
  {
    if a < b {
      JumpsAddUp(z, a, b - 1);
      assert IsolatedAt(z, b - 1);
    }
  }

  lemma {:induction false} TransitionsSpread(z: Zone, a: nat, b: nat)
    requires Isolated(z) && a <= b < |z.transitions|
    ensures z.transitions[a].at + 2 * DAY * (b - a) <= z.transitions[b].at
    decreases b
  {
    if a < b {
      TransitionsSpread(z, a, b - 1);
      assert IsolatedAt(z, b);
    }
  }

  /** Which transitions have happened is settled by the neighbours. */
  lemma PassedIs(z: Zone, t: Instant, p: nat)
    requires Isolated(z) && p <= |z.transitions|
    requires p > 0 ==> z.transitions[p - 1].at <= t
    requires p < |z.transitions| ==> t < z.transitions[p].at
    ensures z.Passed(t) == p
  {
    var q := z.Passed(t);
    if p < q {
      TransitionsSpread(z, p, q - 1);
    }
  }

  /** If the offset fell by at least the time elapsed, exactly one transition
      happened in between, and it went back by 30, 60 or 120 minutes. */
  lemma OneTransitionBetween(z: Zone, t: Instant, u: Instant)
    requires Isolated(z) && t < u && z.LocalSecond(u) <= z.LocalSecond(t)
    ensures z.Passed(u) == z.Passed(t) + 1
    ensures Jump(z.OffsetAt(t) - z.OffsetAt(u))
  {
    var p, q := z.Passed(t), z.Passed(u);
    if q > p + 1 {
      JumpsAddUp(z, p, q);
      TransitionsSpread(z, p, q - 1);
    } else if q == p + 1 {
      assert IsolatedAt(z, p);
    }
  }

  /** Two instants reading the same clock are 30, 60 or 120 minutes apart. */
  lemma SameClockProbeApart(z: Zone, t: Instant, u: Instant, c: WallClock)
    requires Isolated(z) && t < u && Matches(z, t, c) && Matches(z, u, c)
    ensures Jump(u - t) && z.Passed(u) == z.Passed(t) + 1
  {
    hide Matches, DayNumber, Valid;
    MatchesIff(z, t, c);
    MatchesIff(z, u, c);
    OneTransitionBetween(z, t, u);
  }

  lemma NotThrice(z: Zone, t: Instant, u: Instant, v: Instant, c: WallClock)
    requires Isolated(z) && t < u < v
    ensures !(Matches(z, t, c) && Matches(z, u, c) && Matches(z, v, c))
  {
    hide Matches;
    if Matches(z, t, c) && Matches(z, u, c) && Matches(z, v, c) {
      SameClockProbeApart(z, t, u, c);
      SameClockProbeApart(z, u, v, c);
      SameClockProbeApart(z, t, v, c);
    }
  }

  /** No clock is read three times. */
  lemma AtMostTwice(z: Zone, t: Instant, u: Instant, v: Instant, c: WallClock)
    requires Isolated(z) && Matches(z, t, c) && Matches(z, u, c) && Matches(z, v, c)
    ensures t == u || u == v || t == v
  {
    hide Matches;
    if t != u && u != v && t != v {
      var lo := if t <= u && t <= v then t else if u <= v then u else v;
      var hi := if t >= u && t >= v then t else if u >= v then u else v;
      var mid := t + u + v - lo - hi;
      NotThrice(z, lo, mid, hi, c);
    }
  }

  /** If the clock at t shows less than it did at an earlier u, it already
      showed that before u. */
  lemma ReadBefore(z: Zone, u: Instant, t: Instant) returns (earlier: Instant)
    requires Isolated(z) && u < t && z.LocalSecond(t) < z.LocalSecond(u)
    ensures earlier < u && z.LocalSecond(earlier) == z.LocalSecond(t)
  {
    OneTransitionBetween(z, u, t);
    var p := z.Passed(u);
    earlier := t - (z.OffsetAt(u) - z.OffsetAt(t));
    if p > 0 {
      TransitionsSpread(z, p - 1, p);
    }
    PassedIs(z, earlier, p);
  }

  /** First readings keep the order of the clocks. */
  lemma EarliestAscends(z: Zone, t: Instant, c: WallClock, u: Instant, d: WallClock)
    requires Isolated(z) && Earliest(z, t, c) && Matches(z, u, d) && c.Local() < d.Local()
    ensures t < u
  {
    hide Matches, DayNumber, Valid;
    MatchesIff(z, t, c);
    MatchesIff(z, u, d);
    if u < t {
      var earlier := ReadBefore(z, u, t);
      MatchesIff(z, earlier, c);
    }
  }
}
