/** When skipping ahead loses nothing (rrule.go, the fast-forward of expand).

    The whole walk of a series takes every qualifying occurrence; expand takes
    those among 2000 from the jump on.  Here is exactly when the two agree, and
    conditions on the event and the window that make them agree. */
module FastForward {
  import opened Options
  import opened Calendar
  import opened Nanoseconds
  import opened Intervals
  import opened Recurrence

  /** Occurrences from K on start at or after the window's end. */
  ghost predicate Enough(start: int, offset: int, r: Rule, q: Query, K: nat) {
    Occurrence(start, offset, r, K) >= q.to
  }

  /** expand's answer is the whole walk. */
  ghost predicate TakesAll(start: int, offset: int, r: Rule, q: Query, K: nat) {
    var n := JumpIndex(start, offset, r, q.from);
    Select(start, offset, r, q, n, n + MAX_OCCURRENCES) == Select(start, offset, r, q, 0, K)
  }

  /** It is, exactly when nothing that qualifies is jumped over or lies beyond the step bound. */
  lemma TakesAllIff(start: int, offset: int, r: Rule, q: Query, K: nat)
    requires K >= JumpIndex(start, offset, r, q.from) + MAX_OCCURRENCES
    ensures TakesAll(start, offset, r, q, K) <==>
              var n := JumpIndex(start, offset, r, q.from);
              forall k: nat :: k < n || n + MAX_OCCURRENCES <= k < K ==> !Qualifies(start, offset, r, q, k)
  {
    hide JumpIndex, Qualifies, Select;
    var n := JumpIndex(start, offset, r, q.from);
    SelectSplits(start, offset, r, q, 0, n, K);
    SelectSplits(start, offset, r, q, n, n + MAX_OCCURRENCES, K);
    SelectEmptyIff(start, offset, r, q, 0, n);
    SelectEmptyIff(start, offset, r, q, n + MAX_OCCURRENCES, K);
    var a, b, c := Select(start, offset, r, q, 0, n), Select(start, offset, r, q, n, n + MAX_OCCURRENCES),
                   Select(start, offset, r, q, n + MAX_OCCURRENCES, K);
    assert Select(start, offset, r, q, 0, K) == a + (b + c);
    assert b == a + (b + c) ==> |a| == 0 && |c| == 0;
    assert a == [] && c == [] ==> b == a + (b + c);
  }

  /** The walk may stop at any point past the window's end. */
  lemma {:induction false} WalkMayStop(start: int, offset: int, r: Rule, q: Query, K: nat, K': nat)
    requires Regular(start, offset, r) && K <= K' && Enough(start, offset, r, q, K)
    ensures Select(start, offset, r, q, 0, K') == Select(start, offset, r, q, 0, K)
  {
    hide Occurrence, Qualifies, Select;
    RestIsEmpty(start, offset, r, q, 0, K, K');
  }

  lemma TakesAllIfNothingLost(start: int, offset: int, r: Rule, q: Query, K: nat)
    requires Regular(start, offset, r) && Enough(start, offset, r, q, K)
    requires var n := JumpIndex(start, offset, r, q.from);
             forall k: nat :: k < n || n + MAX_OCCURRENCES <= k ==> !Qualifies(start, offset, r, q, k)
    ensures TakesAll(start, offset, r, q, K)
  {
    hide JumpIndex, Qualifies, Select, Occurrence, Regular;
    var K' := K + JumpIndex(start, offset, r, q.from) + MAX_OCCURRENCES;
    TakesAllIff(start, offset, r, q, K');
    WalkMayStop(start, offset, r, q, K, K');
  }

  /** A series bounded by COUNT is never jumped, and 2000 steps are enough for a COUNT up to 2000:
      the answer is the qualifying ones of the first COUNT occurrences, excluded ones counted. */
  lemma CountedTakesAll(start: int, offset: int, r: Rule, q: Query, K: nat)
    requires Regular(start, offset, r) && 0 < r.count <= MAX_OCCURRENCES && Enough(start, offset, r, q, K)
    ensures TakesAll(start, offset, r, q, K)
  {
    hide Regular, Occurrence;
    TakesAllIfNothingLost(start, offset, r, q, K);
  }

  // ---------- days and weeks ----------

  ghost predicate Fixed(r: Rule) {
    r.freq == Daily || r.freq == Weekly
  }

  lemma FixedOccurrence(start: int, offset: int, r: Rule, k: nat)
    requires r.Parsed() && Fixed(r)
    ensures Occurrence(start, offset, r, k) == start + k * PeriodDuration(r) && PeriodDuration(r) >= NANO_DAY
  {
    hide LocalDate, MonthStart;
    if r.freq == Daily {
      assert (r.interval * k) * NANO_DAY == k * (r.interval * NANO_DAY);
    } else {
      assert (7 * r.interval * k) * NANO_DAY == k * (r.interval * 7 * NANO_DAY);
    }
  }

  lemma MultipleOrder(a: int, b: int, pd: int)
    requires a <= b && pd > 0
    ensures a * pd <= b * pd
  {
  }

  /** Daily and weekly series: an event of at most four periods in a window of
      at most 1996 periods is expanded in full. */
  lemma FixedTakesAll(start: int, offset: int, r: Rule, q: Query, K: nat)
    requires r.Parsed() && Fixed(r) && r.count == 0 && Enough(start, offset, r, q, K)
    requires q.duration <= 4 * PeriodDuration(r) && q.to - q.from <= 1996 * PeriodDuration(r)
    ensures TakesAll(start, offset, r, q, K)
  {
    hide JumpIndex, AdvanceBy, LocalDate, MonthStart, Occurrence, PeriodDuration;
    var n, pd := JumpIndex(start, offset, r, q.from), PeriodDuration(r);
    PeriodPositive(start, offset, r);
    JumpBounds(start, offset, r, q.from);
    forall k: nat | k < n || n + MAX_OCCURRENCES <= k ensures !Qualifies(start, offset, r, q, k) {
      FixedOccurrence(start, offset, r, k);
      if k < n {
        MultipleOrder(k + 4, n + 3, pd);
        assert (k + 4) * pd == k * pd + 4 * pd;
      } else {
        MultipleOrder(n + 4 + 1996, k, pd);
        assert (n + 4 + 1996) * pd == (n + 4) * pd + 1996 * pd;
      }
    }
    TakesAllIfNothingLost(start, offset, r, q, K);
  }

  // ---------- months ----------

  /** The 30-day month estimate lands at or before the window and skips only
      occurrences that end by its start. */
  ghost predicate MonthJumpSafe(start: int, offset: int, r: Rule, q: Query) {
    var n := JumpIndex(start, offset, r, q.from);
    && (n > 0 ==> AdvanceBy(start, offset, r, n) <= q.from)
    && (forall k: nat :: k < n ==> Occurrence(start, offset, r, k) + q.duration <= q.from)
  }

  /** The days a monthly series takes to its n-th step, against 30 a month. */
  lemma MonthDays(start: int, offset: int, r: Rule, n: nat)
    requires Regular(start, offset, r) && r.freq == Monthly
    ensures 28 * (r.interval * n) <= DaysTo(start, offset, r, n)
    ensures r.interval * n <= 202 ==> DaysTo(start, offset, r, n) <= 30 * (r.interval * n) + 90
  {
    hide MonthStart, LocalDate;
    MonthsAtLeast(Month(start, offset), r.interval * n);
    if r.interval * n <= 202 {
      MonthsAtMost(Month(start, offset), r.interval * n);
    }
  }

  lemma MonthJumpLands(start: int, offset: int, r: Rule, from: int)
    requires Regular(start, offset, r) && r.freq == Monthly && r.count == 0 && from - start < 6180 * NANO_DAY
    ensures var n := JumpIndex(start, offset, r, from);
            && (n > 0 ==> Occurrence(start, offset, r, n) <= from)
            && r.interval * n <= 202
            && from - start < (30 * (r.interval * n) + 120 * r.interval) * NANO_DAY
  {
    hide JumpIndex, AdvanceBy, LocalDate, MonthStart, DaysTo;
    var n := JumpIndex(start, offset, r, from);
    JumpBounds(start, offset, r, from);
    assert (n + 4) * PeriodDuration(r) == (30 * (r.interval * n) + 120 * r.interval) * NANO_DAY;
    if n > 0 {
      assert (n + 3) * PeriodDuration(r) == (30 * (r.interval * n) + 90 * r.interval) * NANO_DAY;
      assert r.interval * n + 3 * r.interval < 206;
      MonthDays(start, offset, r, n);
    } else {
      assert r.interval * n == 0;
    }
  }

  /** Monthly series on day 1 to 28: for an event of at most 28 days, the jump
      is safe whenever the series began less than 6180 days before the window. */
  lemma MonthJumpIsSafe(start: int, offset: int, r: Rule, q: Query)
    requires Regular(start, offset, r) && r.freq == Monthly && r.count == 0
    requires q.duration <= 28 * NANO_DAY && q.from - start < 6180 * NANO_DAY
    ensures MonthJumpSafe(start, offset, r, q)
  {
    hide JumpIndex, AdvanceBy, LocalDate, MonthStart, DaysTo;
    var n := JumpIndex(start, offset, r, q.from);
    MonthJumpLands(start, offset, r, q.from);
    JumpLands(start, offset, r, n);
    forall k: nat | k < n ensures Occurrence(start, offset, r, k) + q.duration <= q.from {
      OccurrenceStep(start, offset, r, k);
      OccurrencesAscend(start, offset, r, k + 1, n);
    }
  }

  const MARCH_2000 := 11017 * NANO_DAY
  const EVERY_MONTH := Rule(Monthly, 1, 0, None)

  lemma March2000()
    ensures LocalDate(MARCH_2000, 0) == Date(2000, 3, 1)
  {
    hide DateOf, DayNumber, MonthStart;
    MonthsFallShort();
    DateOfDayNumber(Date(2000, 3, 1));
    assert (MARCH_2000 + 0) / NANO_DAY == 11017;
  }

  lemma After203Months()
    ensures Regular(MARCH_2000, 0, EVERY_MONTH)
    ensures AdvanceBy(MARCH_2000, 0, EVERY_MONTH, 203) == MARCH_2000 + 6181 * NANO_DAY
  {
    hide LocalDate, MonthStart, DayNumber;
    March2000();
    MonthsFallShort();
    hide AdvanceBy;
    JumpLands(MARCH_2000, 0, EVERY_MONTH, 203);
  }

  /** A monthly series on the first, begun in March 2000, seen 6180 days on:
      the estimate jumps 203 months, one day past the window's start. */
  lemma MonthJumpOvershoots()
    ensures Regular(MARCH_2000, 0, EVERY_MONTH)
    ensures JumpIndex(MARCH_2000, 0, EVERY_MONTH, MARCH_2000 + 6180 * NANO_DAY) == 203
    ensures AdvanceBy(MARCH_2000, 0, EVERY_MONTH, 203) == MARCH_2000 + 6181 * NANO_DAY
  {
    After203Months();
    hide AdvanceBy, Regular;
    assert PeriodDuration(EVERY_MONTH) == 30 * NANO_DAY && (6180 * NANO_DAY) / (30 * NANO_DAY) == 206;
  }

  /** Every monthly series, of every age below the bound, is jumped safely. */
  ghost predicate SafeBelow(bound: int) {
    forall start: int, offset: int, r: Rule, q: Query ::
      Regular(start, offset, r) && r.freq == Monthly && r.count == 0 && q.duration <= 28 * NANO_DAY
          && q.from - start < bound ==>
        MonthJumpSafe(start, offset, r, q)
  }

  /** 6180 days is the exact age up to which the estimate is safe. */
  lemma SafeBelowIff(bound: int)
    ensures SafeBelow(bound) <==> bound <= 6180 * NANO_DAY
  {
    hide MonthJumpSafe;
    if bound <= 6180 * NANO_DAY {
      forall start: int, offset: int, r: Rule, q: Query | Regular(start, offset, r) && r.freq == Monthly
          && r.count == 0 && q.duration <= 28 * NANO_DAY && q.from - start < bound
        ensures MonthJumpSafe(start, offset, r, q)
      {
        MonthJumpIsSafe(start, offset, r, q);
      }
    } else {
      OvershootIsUnsafe();
    }
  }

  lemma OvershootIsUnsafe()
    ensures Regular(MARCH_2000, 0, EVERY_MONTH)
    ensures !MonthJumpSafe(MARCH_2000, 0, EVERY_MONTH,
              Query(NANO_DAY, {}, MARCH_2000 + 6180 * NANO_DAY, MARCH_2000 + 6181 * NANO_DAY))
  {
    MonthJumpOvershoots();
    hide AdvanceBy, Regular, JumpIndex;
  }

  // ---------- whether an occurrence is lost ----------

  /** Even past the window's start, the jump skips only occurrences that ended
      by it, for as long as the last one skipped lies at least four weeks back. */
  lemma MonthSkipsEnded(start: int, offset: int, r: Rule, q: Query, k: nat)
    requires Regular(start, offset, r) && r.freq == Monthly && r.count == 0
    requires q.duration <= 28 * NANO_DAY && q.from - start < 6360 * NANO_DAY
    requires k < JumpIndex(start, offset, r, q.from)
    ensures Occurrence(start, offset, r, k) + q.duration <= q.from
  {
    hide JumpIndex, AdvanceBy, LocalDate, MonthStart, DaysTo;
    var n := JumpIndex(start, offset, r, q.from);
    JumpBounds(start, offset, r, q.from);
    SkippedMonths(r, n, q.from - start);
    SkippedDays(start, offset, r, n - 1);
    OccurrencesAscend(start, offset, r, k, n - 1);
    assert r.interval * n == r.interval * (n - 1) + r.interval;
  }

  lemma SkippedMonths(r: Rule, n: nat, gap: int)
    requires r.Parsed() && r.freq == Monthly && n > 0
    requires (n + 3) * PeriodDuration(r) <= gap < 6360 * NANO_DAY
    ensures r.interval * (n - 1) <= 207
    ensures (30 * (r.interval * n) + 90 * r.interval) * NANO_DAY <= gap
  {
    assert (n + 3) * PeriodDuration(r) == (30 * (r.interval * n) + 90 * r.interval) * NANO_DAY;
    assert r.interval * n == r.interval * (n - 1) + r.interval;
  }

  lemma SkippedDays(start: int, offset: int, r: Rule, k: nat)
    requires Regular(start, offset, r) && r.freq == Monthly && r.interval * k <= 207
    ensures DaysTo(start, offset, r, k) <= 30 * (r.interval * k) + 92
  {
    hide MonthStart, LocalDate;
    MonthsNonNegative(r, k);
    MonthsAtMostFurther(Month(start, offset), r.interval * k);
  }

  lemma MonthsNonNegative(r: Rule, k: nat)
    requires r.Parsed()
    ensures r.interval * k >= 0
  {
  }

  /** A monthly series less than 6360 days old, of events of at most four weeks,
      is expanded in full over any window of up to 1980 four-week steps. */
  lemma MonthlyTakesAll(start: int, offset: int, r: Rule, q: Query, K: nat)
    requires Regular(start, offset, r) && r.freq == Monthly && r.count == 0 && Enough(start, offset, r, q, K)
    requires q.duration <= 28 * NANO_DAY && q.from - start < 6360 * NANO_DAY
    requires q.to - q.from <= 1980 * (28 * r.interval) * NANO_DAY
    ensures TakesAll(start, offset, r, q, K)
  {
    hide JumpIndex, AdvanceBy, LocalDate, MonthStart, DaysTo, Qualifies, TakesAll, Enough;
    var n := JumpIndex(start, offset, r, q.from);
    forall k: nat | k < n || n + MAX_OCCURRENCES <= k ensures !Qualifies(start, offset, r, q, k) {
      if k < n {
        MonthSkipsEnded(start, offset, r, q, k);
        EndedIsOut(start, offset, r, q, k);
      } else {
        BeyondTheSteps(start, offset, r, q, k);
      }
    }
    TakesAllIfNothingLost(start, offset, r, q, K);
  }

  lemma EndedIsOut(start: int, offset: int, r: Rule, q: Query, k: nat)
    requires Occurrence(start, offset, r, k) + q.duration <= q.from || Occurrence(start, offset, r, k) >= q.to
    ensures !Qualifies(start, offset, r, q, k)
  {
    hide Occurrence;
  }

  lemma BeyondTheSteps(start: int, offset: int, r: Rule, q: Query, k: nat)
    requires Regular(start, offset, r) && r.freq == Monthly && r.count == 0
    requires q.from - start < 6360 * NANO_DAY && q.to - q.from <= 1980 * (28 * r.interval) * NANO_DAY
    requires k >= JumpIndex(start, offset, r, q.from) + MAX_OCCURRENCES
    ensures !Qualifies(start, offset, r, q, k)
  {
    hide JumpIndex, AdvanceBy, LocalDate, MonthStart, DaysTo, Qualifies, PeriodDuration;
    var n := JumpIndex(start, offset, r, q.from);
    JumpBounds(start, offset, r, q.from);
    if n > 0 {
      SkippedMonths(r, n, q.from - start);
    }
    MonthDays(start, offset, r, n + MAX_OCCURRENCES);
    OccurrencesAscend(start, offset, r, n + MAX_OCCURRENCES, k);
    PastTheWindow(r, n, q.from - start, q.to - q.from);
    EndedIsOut(start, offset, r, q, k);
  }

  /** From the jump, 2000 steps of four weeks reach past the window. */
  lemma PastTheWindow(r: Rule, n: nat, gap: int, width: int)
    requires r.Parsed() && r.freq == Monthly && (n > 0 ==> r.interval * (n - 1) <= 207)
    requires gap < (n + 4) * PeriodDuration(r) && width <= 1980 * (28 * r.interval) * NANO_DAY
    ensures gap + width <= 28 * (r.interval * (n + MAX_OCCURRENCES)) * NANO_DAY
  {
    assert (n + 4) * PeriodDuration(r) == (30 * (r.interval * n) + 120 * r.interval) * NANO_DAY;
    assert r.interval * (n + MAX_OCCURRENCES) == r.interval * n + r.interval * MAX_OCCURRENCES;
    if n > 0 {
      assert r.interval * n == r.interval * (n - 1) + r.interval;
    } else {
      assert r.interval * n == 0;
    }
  }

  const MAY_2003 := 12173 * NANO_DAY
  const LATE_SUMMER := Query(28 * NANO_DAY, {}, MAY_2003 + 6360 * NANO_DAY, MAY_2003 + 6361 * NANO_DAY)

  lemma May2003()
    ensures LocalDate(MAY_2003, 0) == Date(2003, 5, 1)
  {
    hide DateOf, DayNumber, MonthStart;
    MonthsFallFurther();
    DateOfDayNumber(Date(2003, 5, 1));
    assert (MAY_2003 + 0) / NANO_DAY == 12173;
  }

  lemma SeriesOfMay2003()
    ensures Regular(MAY_2003, 0, EVERY_MONTH)
    ensures Occurrence(MAY_2003, 0, EVERY_MONTH, 208) == MAY_2003 + 6333 * NANO_DAY
    ensures JumpIndex(MAY_2003, 0, EVERY_MONTH, MAY_2003 + 6360 * NANO_DAY) == 209
    ensures Occurrence(MAY_2003, 0, EVERY_MONTH, 2209) > MAY_2003 + 6361 * NANO_DAY
  {
    hide LocalDate, MonthStart, DayNumber;
    May2003();
    MonthsFallFurther();
    assert 1 * 208 == 208 && 1 * 209 == 209;
    MonthDays(MAY_2003, 0, EVERY_MONTH, 209);
    MonthDays(MAY_2003, 0, EVERY_MONTH, 2209);
    JumpLands(MAY_2003, 0, EVERY_MONTH, 209);
    hide AdvanceBy;
    assert PeriodDuration(EVERY_MONTH) == 30 * NANO_DAY && (6360 * NANO_DAY) / (30 * NANO_DAY) == 212;
  }

  /** A four-week event on the first of every month since May 2003, seen 6360
      days on: the one begun in September 2020 is still running, and is skipped. */
  lemma SeptemberIsLost()
    ensures Regular(MAY_2003, 0, EVERY_MONTH) && Enough(MAY_2003, 0, EVERY_MONTH, LATE_SUMMER, 2209)
    ensures Qualifies(MAY_2003, 0, EVERY_MONTH, LATE_SUMMER, 208)
    ensures !TakesAll(MAY_2003, 0, EVERY_MONTH, LATE_SUMMER, 2209)
  {
    hide Occurrence, JumpIndex, Regular, Select, TakesAll;
    SeriesOfMay2003();
    TakesAllIff(MAY_2003, 0, EVERY_MONTH, LATE_SUMMER, 2209);
  }

  /** Every monthly series, of every age below the bound, is expanded in full. */
  ghost predicate CompleteBelow(bound: int) {
    forall start: int, offset: int, r: Rule, q: Query, K: nat ::
      && Regular(start, offset, r) && r.freq == Monthly && r.count == 0 && q.duration <= 28 * NANO_DAY
      && q.from - start < bound && q.to - q.from <= 1980 * (28 * r.interval) * NANO_DAY
      && Enough(start, offset, r, q, K) ==>
        TakesAll(start, offset, r, q, K)
  }

  /** 6360 days is the exact age up to which no occurrence is lost. */
  lemma CompleteBelowIff(bound: int)
    ensures CompleteBelow(bound) <==> bound <= 6360 * NANO_DAY
  {
    if bound <= 6360 * NANO_DAY {
      hide TakesAll, Enough, Regular;
      forall start: int, offset: int, r: Rule, q: Query, K: nat |
        && Regular(start, offset, r) && r.freq == Monthly && r.count == 0 && q.duration <= 28 * NANO_DAY
        && q.from - start < bound && q.to - q.from <= 1980 * (28 * r.interval) * NANO_DAY
        && Enough(start, offset, r, q, K)
        ensures TakesAll(start, offset, r, q, K)
      {
        MonthlyTakesAll(start, offset, r, q, K);
      }
    } else {
      NotCompleteBelow(bound);
    }
  }

  lemma NotCompleteBelow(bound: int)
    requires bound > 6360 * NANO_DAY
    ensures !CompleteBelow(bound)
  {
    hide TakesAll, Enough, Regular, Qualifies;
    SeptemberIsLost();
  }

  // ---------- the expansion, said instant by instant ----------

  /** The k-th instant the rule names: so many days or weeks after the first, or
      the same clock on the same day of the month so many months on. */
  ghost predicate Named(start: int, offset: int, r: Rule, k: nat, t: int) {
    match r.freq
    case Daily => t == start + k * (r.interval * NANO_DAY)
    case Weekly => t == start + k * (r.interval * 7 * NANO_DAY)
    case Monthly =>
      var d, e := LocalDate(start, offset), LocalDate(t, offset);
      && e.day == d.day && 12 * (e.year - d.year) + e.month - d.month == r.interval * k
      && (t + offset) % NANO_DAY == (start + offset) % NANO_DAY
    case _ => false
  }

  lemma NamedIsOccurrence(start: int, offset: int, r: Rule, k: nat, t: int)
    requires Regular(start, offset, r)
    ensures Named(start, offset, r, k, t) <==> t == Occurrence(start, offset, r, k)
  {
    hide LocalDate, MonthStart, Occurrence, DayNumber, AdvanceBy;
    if r.freq == Monthly {
      var u := Occurrence(start, offset, r, k);
      MonthNamed(start, offset, r, k);
      if Named(start, offset, r, k, t) {
        DateIsFields(t, offset);
        DateIsFields(u, offset);
        assert LocalDate(t, offset) == LocalDate(u, offset);
      }
    } else {
      FixedOccurrence(start, offset, r, k);
    }
  }

  lemma MonthNamed(start: int, offset: int, r: Rule, k: nat)
    requires Regular(start, offset, r) && r.freq == Monthly
    ensures Named(start, offset, r, k, Occurrence(start, offset, r, k))
  {
    hide LocalDate, MonthStart, Occurrence, DayNumber, AddDate, DateOf;
    JumpLands(start, offset, r, k);
    MonthsKeepDay(start, offset, r.interval * k);
    ClockKept(start, offset, r.interval * k);
  }

  /** An instant is its local date and its clock. */
  lemma DateIsFields(t: int, offset: int)
    ensures 1 <= LocalDate(t, offset).month <= 12
    ensures t == DayNumber(LocalDate(t, offset)) * NANO_DAY + (t + offset) % NANO_DAY - offset
  {
    hide DateOf, DayNumber;
    DateOfMeaning((t + offset) / NANO_DAY);
  }

  /** The span is the event's k-th, inside COUNT and UNTIL, not excluded, and overlaps the window. */
  ghost predicate Due(start: int, offset: int, r: Rule, q: Query, k: nat, iv: Interval) {
    && Named(start, offset, r, k, iv.start) && iv.end == iv.start + q.duration
    && (r.count > 0 ==> k < r.count) && (r.until.Some? ==> iv.start <= r.until.value)
    && iv.start !in q.exdates && iv.start < q.to && q.from < iv.end
  }

  lemma DueIffQualifies(start: int, offset: int, r: Rule, q: Query, k: nat, iv: Interval)
    requires Regular(start, offset, r)
    ensures Due(start, offset, r, q, k, iv) <==>
              Qualifies(start, offset, r, q, k) && iv == Span(start, offset, r, q, k)
  {
    hide Named, Occurrence, Regular;
    NamedIsOccurrence(start, offset, r, k, iv.start);
  }

  ghost predicate StartsAscend(s: seq<Interval>) {
    forall i, j :: 0 <= i < j < |s| ==> s[i].start < s[j].start
  }

  lemma {:induction false} SelectMeaning(start: int, offset: int, r: Rule, q: Query, lo: nat, hi: nat)
    requires Regular(start, offset, r)
    ensures forall iv :: iv in Select(start, offset, r, q, lo, hi) <==>
              exists k: nat :: lo <= k < hi && Due(start, offset, r, q, k, iv)
    ensures StartsAscend(Select(start, offset, r, q, lo, hi))
    ensures hi > 0 ==> forall iv <- Select(start, offset, r, q, lo, hi) ::
              iv.start <= Occurrence(start, offset, r, hi - 1)
  {
    hide Qualifies, Due, DaysTo, Regular;
    if lo < hi {
      var last := hi - 1;
      SelectMeaning(start, offset, r, q, lo, last);
      if last > 0 {
        OccurrencesAscend(start, offset, r, last - 1, last);
      }
      forall iv
        ensures iv in Select(start, offset, r, q, lo, hi) <==>
          exists k: nat :: lo <= k < hi && Due(start, offset, r, q, k, iv)
      {
        DueIffQualifies(start, offset, r, q, last, iv);
        if k: nat :| lo <= k < hi && Due(start, offset, r, q, k, iv) {
          assert k < last || k == last;
        }
      }
      hide Occurrence;
    }
  }

  lemma EnoughInTheEnd(start: int, offset: int, r: Rule, q: Query)
    requires Regular(start, offset, r)
    ensures Enough(start, offset, r, q, if q.to > start then q.to - start else 0)
  {
    hide DaysTo, Regular;
    var K := if q.to > start then q.to - start else 0;
    OccurrencesAscend(start, offset, r, 0, K);
    JumpLands(start, offset, r, 0);
    assert DaysTo(start, offset, r, 0) == 0;
    assert DaysTo(start, offset, r, K) * NANO_DAY >= K;
    hide AdvanceBy;
  }

  /** The event and the window are such that 2000 steps from the jump reach everything. */
  ghost predicate InReach(start: int, r: Rule, q: Query) {
    || 0 < r.count <= MAX_OCCURRENCES
    || (r.count == 0 && Fixed(r)
        && q.duration <= 4 * PeriodDuration(r) && q.to - q.from <= 1996 * PeriodDuration(r))
    || (r.count == 0 && r.freq == Monthly && q.duration <= 28 * NANO_DAY
        && q.from - start < 6360 * NANO_DAY && q.to - q.from <= 1980 * (28 * r.interval) * NANO_DAY)
  }

  /** What expand answers, on every regular series in reach: the spans due, in
      order, and no other. */
  lemma {:induction false} ExpansionIsWhatIsDue(start: int, offset: int, r: Rule, q: Query, out: seq<Interval>)
    requires Regular(start, offset, r) && InReach(start, r, q)
    requires var n := JumpIndex(start, offset, r, q.from);
             out == Select(start, offset, r, q, n, n + MAX_OCCURRENCES)
    ensures forall iv :: iv in out <==> exists k: nat :: Due(start, offset, r, q, k, iv)
    ensures StartsAscend(out)
  {
    hide Select, Due, JumpIndex, Enough, Regular, PeriodDuration, StartsAscend, Qualifies, Occurrence, DaysTo;
    var K: nat := if q.to > start then q.to - start else 0;
    EnoughInTheEnd(start, offset, r, q);
    if 0 < r.count <= MAX_OCCURRENCES {
      CountedTakesAll(start, offset, r, q, K);
    } else if Fixed(r) {
      RegularIsParsed(start, offset, r);
      FixedTakesAll(start, offset, r, q, K);
    } else {
      MonthlyTakesAll(start, offset, r, q, K);
    }
    SelectMeaning(start, offset, r, q, 0, K);
    forall iv, k: nat | Due(start, offset, r, q, k, iv) && k >= K ensures false {
      DueIffQualifies(start, offset, r, q, k, iv);
      NotPastEnough(start, offset, r, q, K, k);
    }
  }

  lemma RegularIsParsed(start: int, offset: int, r: Rule)
    requires Regular(start, offset, r)
    ensures r.Parsed()
  {
  }

  lemma NotPastEnough(start: int, offset: int, r: Rule, q: Query, K: nat, k: nat)
    requires Regular(start, offset, r) && Enough(start, offset, r, q, K) && K <= k
    ensures !Qualifies(start, offset, r, q, k)
  {
    hide Regular, Occurrence, Qualifies;
    NoneLater(start, offset, r, q, K, k);
  }
}
