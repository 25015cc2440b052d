/** Expanding a recurrence rule over a window (rrule.go), in a zone of fixed
    offset and without BYDAY.

    Instants and durations are nanoseconds, as in Go's time package. */
module Recurrence {
  import opened Options
  import opened Calendar
  import opened Nanoseconds
  import opened Intervals


  const MAX_OCCURRENCES := 2000

  datatype Freq = NoFreq | Daily | Weekly | Monthly | Yearly | OtherFreq

  /** `count` is 0 and `until` None when the rule does not give them. */
  datatype Rule = Rule(freq: Freq, interval: int, count: nat, until: Option<int>) {
    /** parseRule keeps only positive intervals, and starts from 1. */
    predicate Parsed() {
      interval >= 1
    }
  }

  // ---------- calendar steps ----------

  /** The date an instant falls on where the clock is `offset` ahead of UTC. */
  function LocalDate(t: int, offset: int): Date {
    DateOf((t + offset) / NANO_DAY)
  }

  /** time.AddDate in that zone: move the date, keep the clock. */
  function AddToDate(t: int, offset: int, months: int, days: int): int {
    DayNumber(AddDate(LocalDate(t, offset), months, days)) * NANO_DAY + (t + offset) % NANO_DAY - offset
  }

  /** advanceBy, and advance when n is 1. */
  function AdvanceBy(t: int, offset: int, r: Rule, n: int): int {
    match r.freq
    case Daily => AddToDate(t, offset, 0, r.interval * n)
    case Weekly => AddToDate(t, offset, 0, 7 * r.interval * n)
    case Monthly => AddToDate(t, offset, r.interval * n, 0)
    case Yearly => AddToDate(t, offset, 12 * r.interval * n, 0)
    case _ => t
  }

  function PeriodDuration(r: Rule): int {
    match r.freq
    case Daily => r.interval * NANO_DAY
    case Weekly => r.interval * 7 * NANO_DAY
    case Monthly => r.interval * 30 * NANO_DAY
    case Yearly => r.interval * 365 * NANO_DAY
    case _ => 0
  }

  lemma AddDays(t: int, offset: int, days: int)
    ensures AddToDate(t, offset, 0, days) == t + days * NANO_DAY
  {
    hide DayNumber, MonthStart;
    DateOfMeaning((t + offset) / NANO_DAY);
    AddDateNumber(LocalDate(t, offset), 0, days);
    Recompose(t + offset, days);
  }

  lemma Recompose(x: int, days: int)
    ensures (x / NANO_DAY + days) * NANO_DAY + x % NANO_DAY == x + days * NANO_DAY
  {
    assert x == x / NANO_DAY * NANO_DAY + x % NANO_DAY;
  }

  /** The month an instant falls in. */
  function Month(t: int, offset: int): int {
    MonthIndex(LocalDate(t, offset))
  }

  lemma AddMonths(t: int, offset: int, months: int)
    ensures AddToDate(t, offset, months, 0) == t
              + (MonthStart(Month(t, offset) + months) - MonthStart(Month(t, offset))) * NANO_DAY
  {
    hide DayNumber, MonthStart;
    DateOfMeaning((t + offset) / NANO_DAY);
    AddDateNumber(LocalDate(t, offset), months, 0);
    Recompose(t + offset, MonthStart(Month(t, offset) + months) - MonthStart(Month(t, offset)));
  }

  lemma AddToDateReads(t: int, offset: int, months: int, days: int)
    ensures LocalDate(AddToDate(t, offset, months, days), offset) == AddDate(LocalDate(t, offset), months, days)
  {
    hide DayNumber, MonthStart, Valid;
    var n := MonthStart(MonthIndex(LocalDate(t, offset)) + months) + LocalDate(t, offset).day - 1 + days;
    DateOfMeaning(n);
    var d := DateOf(n);
    Quotient(DayNumber(d), (t + offset) % NANO_DAY);
  }

  lemma Quotient(q: int, r: int)
    requires 0 <= r < NANO_DAY
    ensures (q * NANO_DAY + r) / NANO_DAY == q
  {
  }

  /** From a day every month has, each step lands on that day again. */
  lemma MonthsKeepDay(t: int, offset: int, months: int)
    requires LocalDate(t, offset).day <= 28
    ensures LocalDate(AddToDate(t, offset, months, 0), offset).day == LocalDate(t, offset).day
    ensures Month(AddToDate(t, offset, months, 0), offset) == Month(t, offset) + months
  {
    hide AddToDate, AddDate, DateOf;
    DateOfMeaning((t + offset) / NANO_DAY);
    AddToDateReads(t, offset, months, 0);
    AddMonthsKeepsDay(LocalDate(t, offset), months);
  }

  // ---------- the series ----------

  /** Every step lands where the rule says: days and weeks always do, months do
      from a day that every month has. */
  ghost predicate Regular(start: int, offset: int, r: Rule) {
    && r.Parsed()
    && (r.freq == Daily || r.freq == Weekly || (r.freq == Monthly && LocalDate(start, offset).day <= 28))
  }

  /** The days from the first occurrence to the k-th. */
  ghost function DaysTo(start: int, offset: int, r: Rule, k: nat): int {
    match r.freq
    case Daily => r.interval * k
    case Weekly => 7 * r.interval * k
    case Monthly => MonthStart(Month(start, offset) + r.interval * k) - MonthStart(Month(start, offset))
    case _ => 0
  }

  ghost function Occurrence(start: int, offset: int, r: Rule, k: nat): int {
    start + DaysTo(start, offset, r, k) * NANO_DAY
  }

  lemma JumpLands(start: int, offset: int, r: Rule, k: nat)
    requires Regular(start, offset, r)
    ensures AdvanceBy(start, offset, r, k) == Occurrence(start, offset, r, k)
    ensures k == 0 ==> Occurrence(start, offset, r, k) == start
  {
    hide AddToDate, MonthStart;
    AddDays(start, offset, r.interval * k);
    AddDays(start, offset, 7 * r.interval * k);
    AddMonths(start, offset, r.interval * k);
    assert r.interval * 0 == 0 && 7 * r.interval * 0 == 0;
  }

  lemma OneMoreTimes(i: int, k: int)
    ensures i * (k + 1) == i * k + i
  {
  }

  /** Each occurrence is a whole period after the one before. */
  lemma OccurrenceStep(start: int, offset: int, r: Rule, k: nat)
    requires Regular(start, offset, r)
    ensures AdvanceBy(Occurrence(start, offset, r, k), offset, r, 1) == Occurrence(start, offset, r, k + 1)
    ensures r.freq == Daily ==> DaysTo(start, offset, r, k + 1) == DaysTo(start, offset, r, k) + r.interval
    ensures r.freq == Weekly ==> DaysTo(start, offset, r, k + 1) == DaysTo(start, offset, r, k) + 7 * r.interval
    ensures r.freq == Monthly ==> DaysTo(start, offset, r, k + 1) >= DaysTo(start, offset, r, k) + 28 * r.interval
    ensures DaysTo(start, offset, r, k + 1) >= DaysTo(start, offset, r, k) + 1
  {
    hide AddToDate, MonthStart, LocalDate;
    var t := Occurrence(start, offset, r, k);
    OneMoreTimes(r.interval, k);
    match r.freq
    case Daily => AddDays(t, offset, r.interval);
    case Weekly =>
      OneMoreTimes(7 * r.interval, k);
      AddDays(t, offset, 7 * r.interval);
    case Monthly =>
      JumpLands(start, offset, r, k);
      MonthsKeepDay(start, offset, r.interval * k);
      AddMonths(t, offset, r.interval);
      MonthsAtLeast(Month(start, offset) + r.interval * k, r.interval);
    case _ =>
  }

  lemma {:induction false} OccurrencesAscend(start: int, offset: int, r: Rule, j: nat, k: nat)
    requires Regular(start, offset, r) && j <= k
    ensures DaysTo(start, offset, r, j) + (k - j) <= DaysTo(start, offset, r, k)
    decreases k
  {
    hide DaysTo, AdvanceBy, Regular;
    if j < k {
      OccurrencesAscend(start, offset, r, j, k - 1);
      OccurrenceStep(start, offset, r, k - 1);
    }
  }

  // ---------- which occurrences count ----------

  /** What an expansion is asked for, apart from the series itself. */
  datatype Query = Query(duration: int, exdates: set<int>, from: int, to: int)

  ghost function Span(start: int, offset: int, r: Rule, q: Query, k: nat): Interval {
    var t := Occurrence(start, offset, r, k);
    Interval(t, t + q.duration)
  }

  /** The k-th occurrence is inside COUNT and UNTIL, not excluded, and overlaps the window. */
  ghost predicate Qualifies(start: int, offset: int, r: Rule, q: Query, k: nat) {
    var t := Occurrence(start, offset, r, k);
    && (r.count == 0 || k < r.count)
    && (r.until.Some? ==> t <= r.until.value)
    && t !in q.exdates
    && Interval(t, t + q.duration).Overlaps(Interval(q.from, q.to))
  }

  /** The plain walk: the qualifying occurrences with index in [lo, hi), in order. */
  ghost function Select(start: int, offset: int, r: Rule, q: Query, lo: nat, hi: nat): seq<Interval> {
    if hi <= lo then []
    else Select(start, offset, r, q, lo, hi - 1)
         + (if Qualifies(start, offset, r, q, hi - 1) then [Span(start, offset, r, q, hi - 1)] else [])
  }

  lemma {:induction false} SelectSplits(start: int, offset: int, r: Rule, q: Query, lo: nat, mid: nat, hi: nat)
    requires lo <= mid <= hi
    ensures Select(start, offset, r, q, lo, hi) == Select(start, offset, r, q, lo, mid)
              + Select(start, offset, r, q, mid, hi)
  {
    hide Qualifies, Span;
    if mid < hi {
      SelectSplits(start, offset, r, q, lo, mid, hi - 1);
    }
  }

  lemma {:induction false} SelectEmptyIff(start: int, offset: int, r: Rule, q: Query, lo: nat, hi: nat)
    ensures Select(start, offset, r, q, lo, hi) == [] <==> forall k: nat :: lo <= k < hi ==>
              !Qualifies(start, offset, r, q, k)
  {
    hide Qualifies, Span;
    if lo < hi {
      SelectEmptyIff(start, offset, r, q, lo, hi - 1);
    }
  }

  /** Once an occurrence is past the window, past UNTIL or past COUNT, so are all later ones. */
  lemma NoneLater(start: int, offset: int, r: Rule, q: Query, k: nat, later: nat)
    requires Regular(start, offset, r) && k <= later
    requires || Occurrence(start, offset, r, k) >= q.to
             || (r.until.Some? && Occurrence(start, offset, r, k) > r.until.value)
             || (r.count > 0 && k >= r.count)
    ensures !Qualifies(start, offset, r, q, later)
  {
    hide DaysTo, Regular;
    OccurrencesAscend(start, offset, r, k, later);
  }

  // ---------- the series as the loop steps through it ----------

  /** A rule that parseRule can give, of a frequency that steps. */
  predicate Steps(r: Rule) {
    r.Parsed() && r.freq in {Daily, Weekly, Monthly, Yearly}
  }

  /** k single steps. */
  function Walked(t: int, offset: int, r: Rule, k: nat): int {
    if k == 0 then t else AdvanceBy(Walked(t, offset, r, k - 1), offset, r, 1)
  }

  /** A step always moves on. */
  lemma StepMovesOn(t: int, offset: int, r: Rule)
    requires Steps(r)
    ensures AdvanceBy(t, offset, r, 1) > t
  {
    hide AddToDate, MonthStart, LocalDate;
    match r.freq
    case Daily => AddDays(t, offset, r.interval);
    case Weekly => AddDays(t, offset, 7 * r.interval);
    case Monthly =>
      AddMonths(t, offset, r.interval);
      MonthsAtLeast(Month(t, offset), r.interval);
    case Yearly =>
      AddMonths(t, offset, 12 * r.interval);
      MonthsAtLeast(Month(t, offset), 12 * r.interval);
    case _ =>
  }

  lemma {:induction false} WalkMovesOn(t: int, offset: int, r: Rule, j: nat, k: nat)
    requires Steps(r) && j <= k
    ensures Walked(t, offset, r, j) <= Walked(t, offset, r, k)
    decreases k
  {
    hide AdvanceBy;
    if j < k {
      WalkMovesOn(t, offset, r, j, k - 1);
      StepMovesOn(Walked(t, offset, r, k - 1), offset, r);
    }
  }

  /** The k-th occurrence walked to is inside COUNT and UNTIL, not excluded, and overlaps the window. */
  ghost predicate Picks(t: int, offset: int, r: Rule, q: Query, k: nat) {
    var x := Walked(t, offset, r, k);
    && (r.count == 0 || k < r.count)
    && (r.until.Some? ==> x <= r.until.value)
    && x !in q.exdates
    && Interval(x, x + q.duration).Overlaps(Interval(q.from, q.to))
  }

  /** The qualifying ones of the first k occurrences walked to from t, in order. */
  ghost function Picked(t: int, offset: int, r: Rule, q: Query, k: nat): seq<Interval> {
    if k == 0 then []
    else
      var x := Walked(t, offset, r, k - 1);
      Picked(t, offset, r, q, k - 1) + (if Picks(t, offset, r, q, k - 1) then [Interval(x, x + q.duration)] else [])
  }

  /** Nothing is picked once an occurrence is past the window, past UNTIL or past COUNT. */
  lemma {:induction false} PickingEnds(t: int, offset: int, r: Rule, q: Query, k: nat, hi: nat)
    requires Steps(r) && k <= hi
    requires || Walked(t, offset, r, k) >= q.to
             || (r.until.Some? && Walked(t, offset, r, k) > r.until.value)
             || (r.count > 0 && k >= r.count)
    ensures Picked(t, offset, r, q, hi) == Picked(t, offset, r, q, k)
    decreases hi
  {
    hide Walked;
    if k < hi {
      PickingEnds(t, offset, r, q, k, hi - 1);
      WalkMovesOn(t, offset, r, k, hi - 1);
    }
  }

  /** On a regular series walking is jumping. */
  lemma {:induction false} RegularWalk(start: int, offset: int, r: Rule, n: nat, k: nat)
    requires Regular(start, offset, r)
    ensures Walked(Occurrence(start, offset, r, n), offset, r, k) == Occurrence(start, offset, r, n + k)
  {
    hide AdvanceBy, DaysTo, Regular;
    if k > 0 {
      RegularWalk(start, offset, r, n, k - 1);
      OccurrenceStep(start, offset, r, n + k - 1);
    }
  }

  lemma {:induction false} RegularPicks(start: int, offset: int, r: Rule, q: Query, n: nat, k: nat)
    requires Regular(start, offset, r) && (r.count == 0 || n == 0)
    ensures Picked(Occurrence(start, offset, r, n), offset, r, q, k) == Select(start, offset, r, q, n, n + k)
  {
    hide Occurrence, Walked, Regular;
    if k > 0 {
      RegularPicks(start, offset, r, q, n, k - 1);
      RegularWalk(start, offset, r, n, k - 1);
    }
  }

  // ---------- expand ----------

  /** How many periods expand skips before it starts to step. */
  function JumpIndex(start: int, offset: int, r: Rule, from: int): nat {
    var pd, gap := PeriodDuration(r), from - start;
    if r.count != 0 || pd <= 0 || gap <= pd then 0
    else
      var n := gap / pd - 3;
      if n > 0 && AdvanceBy(start, offset, r, n) > start then n else 0
  }

  lemma QuotientBounds(gap: int, pd: int)
    requires pd > 0
    ensures (gap / pd) * pd <= gap < (gap / pd + 1) * pd
  {
    assert gap == (gap / pd) * pd + gap % pd;
    assert (gap / pd + 1) * pd == (gap / pd) * pd + pd;
  }

  /** The jump stops between three and four periods short of the window. */
  lemma JumpBounds(start: int, offset: int, r: Rule, from: int)
    requires Regular(start, offset, r) && r.count == 0
    ensures var n, pd := JumpIndex(start, offset, r, from), PeriodDuration(r);
            && from - start < (n + 4) * pd
            && (n > 0 ==> (n + 3) * pd <= from - start)
  {
    hide AdvanceBy, LocalDate, MonthStart;
    var pd, gap := PeriodDuration(r), from - start;
    PeriodPositive(start, offset, r);
    QuotientBounds(gap, pd);
    var m := gap / pd - 3;
    if gap <= pd {
      assert (0 + 4) * pd == 4 * pd;
    } else if m > 0 {
      JumpLands(start, offset, r, m);
      OccurrencesAscend(start, offset, r, 0, m);
      JumpLands(start, offset, r, 0);
    } else {
      AtMostThree(gap / pd + 1, pd);
    }
  }

  lemma PeriodPositive(start: int, offset: int, r: Rule)
    requires Regular(start, offset, r)
    ensures PeriodDuration(r) >= NANO_DAY
  {
  }

  lemma AtMostThree(c: int, pd: int)
    requires c <= 4 && pd > 0
    ensures c * pd <= 4 * pd
  {
  }

  /** No step leaves an instant where it was. */
  lemma NoStep(t: int, offset: int, r: Rule)
    ensures AdvanceBy(t, offset, r, 0) == t
  {
    hide AddToDate;
    AddDays(t, offset, 0);
    assert r.interval * 0 == 0 && 7 * r.interval * 0 == 0 && 12 * r.interval * 0 == 0;
  }

  /** The fast-forward of expand.  On a regular series it lands on an occurrence,
      with between three and four periods left to the window if it moves at all. */
  method FastForward(start: int, offset: int, r: Rule, from: int) returns (cur: int)
    ensures cur == AdvanceBy(start, offset, r, JumpIndex(start, offset, r, from))
    ensures r.count != 0 ==> cur == start
    ensures Regular(start, offset, r) ==>
              var n := JumpIndex(start, offset, r, from);
              && cur == Occurrence(start, offset, r, n)
              && (r.count == 0 ==> from - start < (n + 4) * PeriodDuration(r))
              && (n > 0 ==> (n + 3) * PeriodDuration(r) <= from - start)
  {
    hide AdvanceBy, PeriodDuration, Regular;
    cur := start;
    ghost var n := 0;
    NoStep(start, offset, r);
    if r.count == 0 {
      var pd := PeriodDuration(r);
      if pd > 0 {
        var gap := from - cur;
        if gap > pd {
          var periods := gap / pd - 3;
          if periods > 0 {
            var jumped := AdvanceBy(cur, offset, r, periods);
            if jumped > cur {
              cur, n := jumped, periods;
            }
          }
        }
      }
    }
    if Regular(start, offset, r) {
      JumpLands(start, offset, r, n);
      if r.count == 0 {
        JumpBounds(start, offset, r, from);
      }
    }
  }

  /** One step of the loop picks exactly the current occurrence, if it is not excluded and overlaps. */
  lemma PicksNext(t: int, offset: int, r: Rule, q: Query, k: nat)
    requires r.count == 0 || k < r.count
    requires r.until.Some? ==> Walked(t, offset, r, k) <= r.until.value
    ensures var x := Walked(t, offset, r, k);
            var iv := Interval(x, x + q.duration);
            Picked(t, offset, r, q, k + 1)
            == Picked(t, offset, r, q, k)
               + (if x !in q.exdates && iv.Overlaps(Interval(q.from, q.to)) then [iv] else [])
  {
    hide Walked;
  }

  lemma {:induction false} RestIsEmpty(start: int, offset: int, r: Rule, q: Query, lo: nat, k: nat, hi: nat)
    requires Regular(start, offset, r) && lo <= k <= hi
    requires || Occurrence(start, offset, r, k) >= q.to
             || (r.until.Some? && Occurrence(start, offset, r, k) > r.until.value)
             || (r.count > 0 && k >= r.count)
    ensures Select(start, offset, r, q, lo, hi) == Select(start, offset, r, q, lo, k)
  {
    hide DaysTo, Regular, Qualifies, Select;
    forall later: nat | k <= later < hi ensures !Qualifies(start, offset, r, q, later) {
      NoneLater(start, offset, r, q, k, later);
    }
    SelectSplits(start, offset, r, q, lo, k, hi);
    SelectEmptyIff(start, offset, r, q, k, hi);
  }

  /** expand, for rules without BYDAY.  It returns exactly the qualifying ones of
      the 2000 occurrences walked to from the jump on, or of the first alone when
      the frequency is none it knows.  On a regular series they are the
      occurrences the rule names. */
  method Expand(base: Interval, offset: int, r: Rule, exdates: set<int>, from: int, to: int)
    returns (out: seq<Interval>)
    ensures r.freq == NoFreq ==> out == if base.Overlaps(Interval(from, to)) then [base] else []
    ensures r.freq == OtherFreq ==>
              out == Picked(base.start, offset, r, Query(base.end - base.start, exdates, from, to), 1)
    ensures Steps(r) ==>
              out == Picked(AdvanceBy(base.start, offset, r, JumpIndex(base.start, offset, r, from)), offset, r,
                            Query(base.end - base.start, exdates, from, to), MAX_OCCURRENCES)
    ensures Regular(base.start, offset, r) ==>
              var q := Query(base.end - base.start, exdates, from, to);
              var n := JumpIndex(base.start, offset, r, from);
              out == Select(base.start, offset, r, q, n, n + MAX_OCCURRENCES)
  {
    hide AdvanceBy, LocalDate, PeriodDuration, Picked, Select, JumpIndex, Occurrence;
    out := [];
    if r.freq == NoFreq {
      if base.Overlaps(Interval(from, to)) {
        out := [base];
      }
      return;
    }
    var dur := base.end - base.start;
    ghost var q := Query(dur, exdates, from, to);
    var emitted: nat := 0;
    var cur := FastForward(base.start, offset, r, from);
    ghost var first, n := cur, JumpIndex(base.start, offset, r, from);
    CountedStays(base.start, offset, r, from);
    if Regular(base.start, offset, r) {
      RegularPicks(base.start, offset, r, q, n, MAX_OCCURRENCES);
    }
    NothingPicked(first, offset, r, q);
    OtherStays(base.start, offset, r, n);
    var step: nat := 0;
    while step < MAX_OCCURRENCES
      invariant step <= MAX_OCCURRENCES && emitted == step
      invariant r.count > 0 ==> step < r.count
      invariant r.freq == OtherFreq ==> step == 0
      invariant cur == Walked(first, offset, r, step)
      invariant out == Picked(first, offset, r, q, step)
    {
      PicksAtMost(first, offset, r, q, step);
      if (r.until.Some? && cur > r.until.value) || cur > to {
        if Steps(r) {
          PickingEnds(first, offset, r, q, step, MAX_OCCURRENCES);
        }
        return;
      }
      PicksNext(first, offset, r, q, step);
      emitted := emitted + 1;
      if cur !in exdates {
        var iv := Interval(cur, cur + dur);
        if iv.Overlaps(Interval(from, to)) {
          out := out + [iv];
        }
      }
      if r.count > 0 && emitted >= r.count {
        if Steps(r) {
          PickingEnds(first, offset, r, q, step + 1, MAX_OCCURRENCES);
        }
        return;
      }
      var next := AdvanceBy(cur, offset, r, 1);
      if r.freq == OtherFreq || next <= cur {
        if Steps(r) {
          StepMovesOn(cur, offset, r);
        }
        return;
      }
      cur := next;
      step := step + 1;
    }
  }

  lemma NothingPicked(t: int, offset: int, r: Rule, q: Query)
    ensures Picked(t, offset, r, q, 0) == [] && Walked(t, offset, r, 0) == t
  {
  }

  lemma CountedStays(start: int, offset: int, r: Rule, from: int)
    ensures r.count != 0 ==> JumpIndex(start, offset, r, from) == 0
  {
    hide AdvanceBy, PeriodDuration;
  }

  lemma OtherStays(start: int, offset: int, r: Rule, n: nat)
    ensures r.freq == OtherFreq ==> AdvanceBy(start, offset, r, n) == start
  {
  }

  /** An occurrence past UNTIL or the window is not picked. */
  lemma PicksAtMost(t: int, offset: int, r: Rule, q: Query, k: nat)
    ensures (r.until.Some? && Walked(t, offset, r, k) > r.until.value) || Walked(t, offset, r, k) > q.to ==>
              Picked(t, offset, r, q, k + 1) == Picked(t, offset, r, q, k)
  {
    hide Walked;
  }

  // ---------- years ----------

  /** n periods of a yearly rule on, it is the same clock time on the same date,
      or on 1 March when the series began on a 29 February the year does not have. */
  lemma YearsKeepDate(t: int, offset: int, r: Rule, n: nat)
    requires r.Parsed() && r.freq == Yearly
    ensures var (d, u) := (LocalDate(t, offset), AdvanceBy(t, offset, r, n));
            var y := d.year + r.interval * n;
            && (u + offset) % NANO_DAY == (t + offset) % NANO_DAY
            && LocalDate(u, offset) == if Valid(Date(y, d.month, d.day)) then Date(y, d.month, d.day) else Date(y, 3, 1)
  {
    hide LocalDate, DayNumber, AddToDate, MonthStart, Valid, DateOf;
    var d, months := LocalDate(t, offset), 12 * r.interval * n;
    LocalDay(t, offset);
    AddToDateReads(t, offset, months, 0);
    ClockKept(t, offset, months);
    assert months == 12 * (r.interval * n);
    SameMonth(d, r.interval * n);
    LandsIn(d, d.year + r.interval * n);
  }

  lemma ClockKept(t: int, offset: int, months: int)
    ensures (AddToDate(t, offset, months, 0) + offset) % NANO_DAY == (t + offset) % NANO_DAY
  {
    hide DayNumber, LocalDate;
    AddMonths(t, offset, months);
    var days := MonthStart(Month(t, offset) + months) - MonthStart(Month(t, offset));
    hide MonthStart, Month, AddToDate;
    assert (t + offset + days * NANO_DAY) % NANO_DAY == (t + offset) % NANO_DAY by {
      var x := t + offset;
      assert x == x / NANO_DAY * NANO_DAY + x % NANO_DAY;
      Quotient(x / NANO_DAY + days, x % NANO_DAY);
    }
  }

  lemma SameMonth(d: Date, years: int)
    requires 1 <= d.month <= 12
    ensures MonthIndex(d) + 12 * years == MonthIndex(Date(d.year + years, d.month, d.day))
  {
  }

  /** The date a day of the month comes to in a given year. */
  lemma LandsIn(d: Date, y: int)
    requires 1 <= d.month <= 12 && 1 <= d.day <= DaysIn(d.year, d.month)
    ensures var i := MonthIndex(Date(y, d.month, d.day));
            DateOf(MonthStart(i) + d.day - 1) ==
              if Valid(Date(y, d.month, d.day)) then Date(y, d.month, d.day) else Date(y, 3, 1)
  {
    hide DayNumber, MonthStart, DateOf;
    var e := Date(y, d.month, d.day);
    if Valid(e) {
      DayWithinMonth(e);
      DateOfDayNumber(e);
    } else {
      assert d.month == 2 && d.day == 29;
      MonthLength(MonthIndex(e));
      DayWithinMonth(Date(y, 3, 1));
      DateOfDayNumber(Date(y, 3, 1));
      assert MonthIndex(e) + 1 == MonthIndex(Date(y, 3, 1));
      assert MonthIndex(e) / 12 == y && MonthIndex(e) % 12 == 1;
    }
  }

  // ---------- when walking is jumping ----------

  ghost predicate WalksAsItJumps(t: int, offset: int, interval: nat, k: nat) {
    var r := Rule(Monthly, interval, 0, None);
    Walked(t, offset, r, k) == AdvanceBy(t, offset, r, k)
  }

  /** Whatever the interval, k steps of a monthly rule come to one jump of k. */
  ghost predicate NeverDrifts(t: int, offset: int) {
    forall interval: nat, k: nat :: interval >= 1 ==> WalksAsItJumps(t, offset, interval, k)
  }

  /** The date an instant falls on is a real one. */
  lemma LocalDay(t: int, offset: int)
    ensures 1 <= LocalDate(t, offset).day <= DaysIn(LocalDate(t, offset).year, LocalDate(t, offset).month)
    ensures 1 <= LocalDate(t, offset).month <= 12
    ensures 1 <= LocalDate(t, offset).day <= 31
  {
    hide DayNumber;
    DateOfMeaning((t + offset) / NANO_DAY);
  }

  /** Within two years comes a month, some February, that is short of a day past the 28th. */
  lemma ShortMonthAhead(i: int) returns (k: nat)
    ensures 1 <= k && (i + k) % 12 == 1 && DaysIn((i + k) / 12, (i + k) % 12 + 1) == 28
  {
    var february := (i + 12) / 12 * 12 + 1;
    k := february - i;
    if LeapYear(february / 12) {
      k := k + 12;
      assert (i + k) / 12 == february / 12 + 1 && (i + k) % 12 == 1;
    }
  }

  /** A monthly series walks as it jumps exactly when it starts on a day every
      month has; past the 28th it rolls over a short month and stays there. */
  lemma NeverDriftsIff(t: int, offset: int)
    ensures NeverDrifts(t, offset) <==> LocalDate(t, offset).day <= 28
  {
    hide LocalDate, WalksAsItJumps;
    if LocalDate(t, offset).day <= 28 {
      forall interval: nat, k: nat | interval >= 1 ensures WalksAsItJumps(t, offset, interval, k) {
        NoDrift(t, offset, interval, k);
      }
    } else {
      Drifts(t, offset);
    }
  }

  lemma NoDrift(t: int, offset: int, interval: nat, k: nat)
    requires LocalDate(t, offset).day <= 28 && interval >= 1
    ensures WalksAsItJumps(t, offset, interval, k)
  {
    hide LocalDate, AdvanceBy, Occurrence, Walked;
    var r := Rule(Monthly, interval, 0, None);
    RegularWalk(t, offset, r, 0, k);
    JumpLands(t, offset, r, 0);
    JumpLands(t, offset, r, k);
  }

  /** Past a 28-day month the walk is in the month after the one the jump started from. */
  lemma RollsOver(t: int, offset: int, k: nat)
    requires 28 < LocalDate(t, offset).day <= 31
    requires var i := Month(t, offset) + k; DaysIn(i / 12, i % 12 + 1) == 28 && i % 12 == 1
    ensures Month(AddToDate(t, offset, k, 0), offset) == Month(t, offset) + k + 1
  {
    hide LocalDate, DayNumber, MonthStart, AddToDate;
    var d, i := LocalDate(t, offset), Month(t, offset) + k;
    AddToDateReads(t, offset, k, 0);
    MonthLength(i);
    var target := Date((i + 1) / 12, (i + 1) % 12 + 1, d.day - 28);
    assert Valid(target) && MonthIndex(target) == i + 1;
    DayWithinMonth(target);
    hide Valid;
    DateOfDayNumber(target);
  }

  lemma Drifts(t: int, offset: int)
    requires LocalDate(t, offset).day > 28
    ensures !NeverDrifts(t, offset)
  {
    hide LocalDate, MonthStart, AddToDate, DaysIn;
    LocalDay(t, offset);
    var i, r := Month(t, offset), Rule(Monthly, 1, 0, None);
    var k := ShortMonthAhead(i);
    RollsOver(t, offset, k);
    AddMonths(t, offset, k);
    AddMonths(t, offset, k + 1);
    AddMonths(AddToDate(t, offset, k, 0), offset, 1);
    MonthLength(i + k);
    MonthLength(i + k + 1);
    MarchIsLonger(i + k);
    assert AdvanceBy(t, offset, r, k) == AddToDate(t, offset, k, 0);
    assert AdvanceBy(t, offset, r, k + 1) == AddToDate(t, offset, k + 1, 0);
    hide Month;
    if WalksAsItJumps(t, offset, 1, k) && WalksAsItJumps(t, offset, 1, k + 1) {
      assert Walked(t, offset, r, k + 1) == AdvanceBy(Walked(t, offset, r, k), offset, r, 1);
      assert false;
    }
  }

  lemma MarchIsLonger(i: int)
    requires i % 12 == 1
    ensures DaysIn((i + 1) / 12, (i + 1) % 12 + 1) == 31
  {
    assert (i + 1) % 12 == 2;
  }

  /** From 31 January one step comes to 3 March and two to 3 April; a jump of two comes to 31 March. */
  lemma LastOfJanuary(t: int, offset: int)
    requires LocalDate(t, offset) == Date(2023, 1, 31)
    ensures var r := Rule(Monthly, 1, 0, None);
            && LocalDate(Walked(t, offset, r, 1), offset) == Date(2023, 3, 3)
            && LocalDate(Walked(t, offset, r, 2), offset) == Date(2023, 4, 3)
            && LocalDate(AdvanceBy(t, offset, r, 2), offset) == Date(2023, 3, 31)
  {
    var r := Rule(Monthly, 1, 0, None);
    assert Walked(t, offset, r, 1) == AddToDate(t, offset, 1, 0);
    assert Walked(t, offset, r, 2) == AddToDate(Walked(t, offset, r, 1), offset, 1, 0);
    hide LocalDate, AddToDate, DayNumber, MonthStart;
    AddToDateReads(t, offset, 1, 0);
    AddToDateReads(t, offset, 2, 0);
    AddToDateReads(AddToDate(t, offset, 1, 0), offset, 1, 0);
    SpringOf2023();
    hide AddDate;
  }

  lemma SpringOf2023()
    ensures AddDate(Date(2023, 1, 31), 1, 0) == Date(2023, 3, 3)
    ensures AddDate(Date(2023, 3, 3), 1, 0) == Date(2023, 4, 3)
    ensures AddDate(Date(2023, 1, 31), 2, 0) == Date(2023, 3, 31)
  {
    hide DateOf, DayNumber, MonthStart;
    MonthLength(24276);
    MonthLength(24277);
    AddMonthsKeepsDay(Date(2023, 3, 3), 1);
    DayWithinMonth(Date(2023, 3, 3));
    DayWithinMonth(Date(2023, 3, 31));
    DateOfDayNumber(Date(2023, 3, 3));
    DateOfDayNumber(Date(2023, 3, 31));
    assert MonthIndex(Date(2023, 1, 31)) == 24276 && MonthIndex(Date(2023, 3, 3)) == 24278;
  }
}
