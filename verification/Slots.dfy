/** Expanding an organizer's window into instants (slots.go). */
module Slots {
  import opened FiniteSets
  import opened Options
  import opened Zones
  import opened Calendar
  import opened WallClocks

  datatype Kind = KindNormal | KindNonexistent | KindAmbiguous

  /** time.Date by its documented contract: it reads the wall clock whenever
      some instant does, and returns an unspecified instant otherwise. */
  ghost predicate DateContract(z: Zone, goDate: WallClock -> Instant) {
    forall c :: Exists(z, c) ==> Matches(z, goDate(c), c)
  }

  const PROBE_DELTAS: seq<int> := [HOUR, -HOUR, 30 * MINUTE, -30 * MINUTE, 2 * HOUR, -2 * HOUR]

  /** resolve. */
  method Resolve(c: WallClock, z: Zone, goDate: WallClock -> Instant) returns (t: Instant, kind: Kind)
    requires DateContract(z, goDate)
    ensures kind == KindNonexistent <==> !Exists(z, c)
    ensures Isolated(z) ==> (kind == KindAmbiguous <==> Twice(z, c))
    ensures Isolated(z) && Exists(z, c) ==> Earliest(z, t, c)
  {
    hide Matches, Isolated;
    t := goDate(c);
    if !Matches(z, t, c) {
      return t, KindNonexistent;
    }
    for i := 0 to |PROBE_DELTAS|
      invariant forall k :: 0 <= k < i ==> !Matches(z, t + PROBE_DELTAS[k], c)
    {
      var u := t + PROBE_DELTAS[i];
      if !Matches(z, u, c) {
        continue;
      }
      if Isolated(z) {
        forall v | Matches(z, v, c) ensures v == t || v == u {
          AtMostTwice(z, t, u, v, c);
        }
      }
      if u < t {
        t := u;
      }
      return t, KindAmbiguous;
    }
    if Isolated(z) {
      forall v | Matches(z, v, c) ensures v == t {
        OnlyProbesRemain(z, t, v, c);
      }
    }
    kind := KindNormal;
  }

  /** If no probe finds a second reading there is none. */
  lemma OnlyProbesRemain(z: Zone, t: Instant, v: Instant, c: WallClock)
    requires Isolated(z) && Matches(z, t, c) && Matches(z, v, c)
    requires forall k :: 0 <= k < |PROBE_DELTAS| ==> !Matches(z, t + PROBE_DELTAS[k], c)
    ensures v == t
  {
    hide Matches, Isolated;
    if t < v {
      SameClockProbeApart(z, t, v, c);
      ProbeFor(t, v);
    } else if v < t {
      SameClockProbeApart(z, v, t, c);
      ProbeFor(t, v);
    }
  }

  lemma ProbeFor(t: Instant, v: Instant)
    requires Jump(v - t)
    ensures exists k :: 0 <= k < |PROBE_DELTAS| && v == t + PROBE_DELTAS[k]
  {
    assert PROBE_DELTAS[0] == HOUR && PROBE_DELTAS[1] == -HOUR;
    assert PROBE_DELTAS[2] == 30 * MINUTE && PROBE_DELTAS[3] == -30 * MINUTE;
    assert PROBE_DELTAS[4] == 2 * HOUR && PROBE_DELTAS[5] == -2 * HOUR;
  }

  // ---------- windows ----------

  datatype Window = Window(start: Date, end: Date, dayStart: TimeOfDay, dayEnd: TimeOfDay, slotMinutes: int,
      loc: Option<Zone>)

  datatype Error = NoLocation | BadSlotSize | BadDayBand | BadDateRange | TooManySlots

  function Validate(w: Window): Option<Error> {
    if w.loc.None? then Some(NoLocation)
    else if w.slotMinutes <= 0 then Some(BadSlotSize)
    else if w.dayEnd.Minutes() <= w.dayStart.Minutes() then Some(BadDayBand)
    else if After(w.start, w.end) then Some(BadDateRange)
    else None
  }

  /** A window passes just when it has a zone, slots that take time, a band and
      a date range; otherwise the error names something wrong with it. */
  lemma ValidateMeaning(w: Window)
    requires Valid(w.start) && Valid(w.end)
    ensures Validate(w).None? <==>
              && w.loc.Some? && 0 < w.slotMinutes && w.dayStart.Minutes() < w.dayEnd.Minutes()
              && DayNumber(w.start) <= DayNumber(w.end)
    ensures Validate(w) == Some(NoLocation) <==> w.loc.None?
    ensures Validate(w) == Some(BadSlotSize) ==> w.slotMinutes <= 0
    ensures Validate(w) == Some(BadDayBand) ==> w.dayEnd.Minutes() <= w.dayStart.Minutes()
    ensures Validate(w) == Some(BadDateRange) ==> DayNumber(w.end) < DayNumber(w.start)
  {
    AfterIsLater(w.start, w.end);
    hide After, DayNumber, Valid;
  }

  datatype Anomaly = Anomaly(clock: WallClock, kind: Kind, chosen: Option<Instant>)

  datatype Expansion = Expansion(starts: seq<Instant>, skipped: seq<Anomaly>, ambiguous: seq<Anomaly>)

  datatype Result = Expanded(exp: Expansion) | Failed(error: Error)

  const MAX_SLOTS := 5000

  /** Hours and minutes as Go's truncating division splits them. */
  function OfMinutes(m: int): TimeOfDay {
    if m >= 0 then TimeOfDay(m / 60, m % 60) else TimeOfDay(-(-m / 60), -(-m % 60))
  }

  // ---------- the grid ----------

  /** The clocks of date d from minute m on, stepping by the slot length while a whole slot fits the band. */
  ghost function DayClocks(w: Window, d: Date, m: int): seq<WallClock>
    requires w.slotMinutes > 0
    decreases w.dayEnd.Minutes() - m
  {
    if m + w.slotMinutes > w.dayEnd.Minutes() then []
    else [WallClock(d, OfMinutes(m))] + DayClocks(w, d, m + w.slotMinutes)
  }

  /** The clocks of every date from d to the end of the window. */
  ghost function Clocks(w: Window, d: Date): seq<WallClock>
    requires w.slotMinutes > 0 && Valid(d) && Valid(w.end)
    decreases DayNumber(w.end) - DayNumber(d)
  {
    AfterIsLater(d, w.end);
    NextIsNextDay(d);
    if After(d, w.end) then [] else DayClocks(w, d, w.dayStart.Minutes()) + Clocks(w, Next(d))
  }

  ghost function Grid(w: Window): seq<WallClock>
    requires Validate(w).None? && Valid(w.start) && Valid(w.end)
  {
    Clocks(w, w.start)
  }

  lemma StepDivision(a: int, s: int)
    requires s > 0
    ensures (a + s) / s == a / s + 1
    ensures 0 <= a < s ==> a / s == 0
  {
    assert (a / s) * s + a % s == a;
    assert ((a + s) / s) * s + (a + s) % s == a + s;
    QuotientUnique(a / s + 1, a % s, (a + s) / s, (a + s) % s, s);
  }

  lemma QuotientUnique(q: int, r: int, q': int, r': int, s: int)
    requires s > 0 && 0 <= r < s && 0 <= r' < s && q * s + r == q' * s + r'
    ensures q == q'
  {
    if q < q' {
      MultipleAtLeast(q' - q, s);
    } else if q' < q {
      MultipleAtLeast(q - q', s);
    }
    assert (q' - q) * s == q' * s - q * s;
    assert (q - q') * s == q * s - q' * s;
  }

  lemma MultipleAtLeast(d: int, s: int)
    requires d >= 1 && s > 0
    ensures d * s >= s
  {
    assert (d - 1) * s >= 0;
  }

  lemma {:induction false} DayClocksCount(w: Window, d: Date, m: int)
    requires w.slotMinutes > 0 && m <= w.dayEnd.Minutes()
    ensures |DayClocks(w, d, m)| == (w.dayEnd.Minutes() - m) / w.slotMinutes
    decreases w.dayEnd.Minutes() - m
  {
    hide OfMinutes;
    if m + w.slotMinutes > w.dayEnd.Minutes() {
      StepDivision(w.dayEnd.Minutes() - m, w.slotMinutes);
    } else {
      DayClocksCount(w, d, m + w.slotMinutes);
      StepDivision(w.dayEnd.Minutes() - m - w.slotMinutes, w.slotMinutes);
    }
  }

  /** How many whole slots fit the daily band. */
  function PerDay(w: Window): int
    requires w.slotMinutes > 0
  {
    (w.dayEnd.Minutes() - w.dayStart.Minutes()) / w.slotMinutes
  }

  lemma OneMore(n: int, per: int)
    ensures (n + 1) * per == n * per + per
  {
  }

  /** Slots per day times days. */
  lemma {:induction false} ClocksCount(w: Window, d: Date, days: nat)
    requires Validate(w).None? && Valid(d) && Valid(w.end) && DayNumber(w.end) - DayNumber(d) + 1 == days
    ensures |Clocks(w, d)| == days * PerDay(w)
    decreases days
  {
    hide DayNumber, After, Next, Valid, DayClocks;
    AfterIsLater(d, w.end);
    NextIsNextDay(d);
    if days > 0 {
      DayClocksCount(w, d, w.dayStart.Minutes());
      ClocksCount(w, Next(d), days - 1);
      OneMore(days - 1, PerDay(w));
    }
  }

  // ---------- the grid runs forward ----------

  /** Among the clocks that can be read at all, local time strictly ascends. */
  ghost predicate Forward(cs: seq<WallClock>) {
    forall i, j :: 0 <= i < j < |cs| && cs[i].OnTheClock() && cs[j].OnTheClock() ==> cs[i].Local() < cs[j].Local()
  }

  /** A minute count that reads as a clock at all reads as itself. */
  lemma OfMinutesReads(d: Date, m: int)
    requires WallClock(d, OfMinutes(m)).OnTheClock()
    ensures OfMinutes(m).Minutes() == m
  {
    hide Valid;
  }

  lemma {:induction false} DayClocksForward(w: Window, d: Date, m: int)
    requires w.slotMinutes > 0
    ensures Forward(DayClocks(w, d, m))
    ensures forall c <- DayClocks(w, d, m) :: c.date == d && (c.OnTheClock() ==> c.tod.Minutes() >= m)
    decreases w.dayEnd.Minutes() - m
  {
    hide OfMinutes, Valid, DayNumber;
    if m + w.slotMinutes <= w.dayEnd.Minutes() {
      DayClocksForward(w, d, m + w.slotMinutes);
      if WallClock(d, OfMinutes(m)).OnTheClock() {
        OfMinutesReads(d, m);
      }
    }
  }

  lemma {:induction false} ClocksForward(w: Window, d: Date)
    requires w.slotMinutes > 0 && Valid(d) && Valid(w.end)
    ensures Forward(Clocks(w, d))
    ensures forall c <- Clocks(w, d) :: c.OnTheClock() ==> c.Local() >= DayNumber(d) * DAY
    decreases DayNumber(w.end) - DayNumber(d)
  {
    hide Valid, DayNumber, After, Next, DayClocks;
    AfterIsLater(d, w.end);
    NextIsNextDay(d);
    if !After(d, w.end) {
      var today, later := DayClocks(w, d, w.dayStart.Minutes()), Clocks(w, Next(d));
      DayClocksForward(w, d, w.dayStart.Minutes());
      ClocksForward(w, Next(d));
      forall c <- today | c.OnTheClock()
        ensures DayNumber(d) * DAY <= c.Local() < DayNumber(Next(d)) * DAY
      {
      }
      forall i, j | 0 <= i < |today| && 0 <= j < |later| && today[i].OnTheClock() && later[j].OnTheClock()
        ensures today[i].Local() < later[j].Local()
      {
        assert today[i] in today && later[j] in later;
      }
    }
  }

  // ---------- what an expansion should hold ----------

  /** The clocks that some instant reads, in order. */
  ghost function Read(z: Zone, cs: seq<WallClock>): (r: seq<WallClock>)
    ensures |r| <= |cs| && forall c <- r :: c in cs && Exists(z, c)
  {
    if cs == [] then []
    else Read(z, cs[..|cs| - 1]) + (if Exists(z, cs[|cs| - 1]) then [cs[|cs| - 1]] else [])
  }

  ghost function Unread(z: Zone, cs: seq<WallClock>): seq<WallClock> {
    if cs == [] then []
    else Unread(z, cs[..|cs| - 1]) + (if Exists(z, cs[|cs| - 1]) then [] else [cs[|cs| - 1]])
  }

  ghost function ReadTwice(z: Zone, cs: seq<WallClock>): seq<WallClock> {
    if cs == [] then []
    else ReadTwice(z, cs[..|cs| - 1]) + (if Twice(z, cs[|cs| - 1]) then [cs[|cs| - 1]] else [])
  }

  lemma {:induction false} ReadOrUnread(z: Zone, cs: seq<WallClock>)
    ensures |Read(z, cs)| + |Unread(z, cs)| == |cs|
  {
    if cs != [] {
      ReadOrUnread(z, cs[..|cs| - 1]);
    }
  }

  lemma {:induction false} ReadExtends(z: Zone, cs: seq<WallClock>, ds: seq<WallClock>)
    ensures |Read(z, cs)| <= |Read(z, cs + ds)|
  {
    if ds != [] {
      ReadExtends(z, cs, ds[..|ds| - 1]);
      assert (cs + ds)[..|cs + ds| - 1] == cs + ds[..|ds| - 1];
    } else {
      assert cs + ds == cs;
    }
  }

  lemma {:induction false} ReadForward(z: Zone, cs: seq<WallClock>)
    requires Forward(cs)
    ensures forall i, j :: 0 <= i < j < |Read(z, cs)| ==> Read(z, cs)[i].Local() < Read(z, cs)[j].Local()
    ensures forall c <- Read(z, cs) :: c.OnTheClock()
  {
    hide Matches, DayNumber, Valid;
    if cs != [] {
      var init, last := cs[..|cs| - 1], cs[|cs| - 1];
      ReadForward(z, init);
      if Exists(z, last) {
        var t :| Matches(z, t, last);
        MatchesIff(z, t, last);
        forall c <- Read(z, init) ensures c.Local() < last.Local() {
          var k :| 0 <= k < |init| && init[k] == c;
          assert cs[k] == c;
        }
      }
    }
  }

  /** One start per clock that exists, each the first instant that reads it;
      every other clock skipped, and every clock read twice noted. */
  ghost predicate Covers(z: Zone, exp: Expansion, cs: seq<WallClock>) {
    && |exp.starts| == |Read(z, cs)|
    && (forall i :: 0 <= i < |exp.starts| ==> Earliest(z, exp.starts[i], Read(z, cs)[i]))
    && |exp.skipped| == |Unread(z, cs)|
    && (forall i :: 0 <= i < |exp.skipped| ==> exp.skipped[i] == Anomaly(Unread(z, cs)[i], KindNonexistent, None))
    && |exp.ambiguous| == |ReadTwice(z, cs)|
    && (forall i :: 0 <= i < |exp.ambiguous| ==>
          && exp.ambiguous[i].clock == ReadTwice(z, cs)[i] && exp.ambiguous[i].kind == KindAmbiguous
          && exp.ambiguous[i].chosen.Some? && Earliest(z, exp.ambiguous[i].chosen.value, ReadTwice(z, cs)[i]))
  }

  lemma CoveredAscends(z: Zone, exp: Expansion, cs: seq<WallClock>)
    requires Isolated(z) && Forward(cs) && Covers(z, exp, cs)
    ensures Ascending(exp.starts)
  {
    hide Matches, Isolated, DayNumber, Read, Unread, ReadTwice;
    ReadForward(z, cs);
    forall i, j | 0 <= i < j < |exp.starts| ensures exp.starts[i] < exp.starts[j] {
      EarliestAscends(z, exp.starts[i], Read(z, cs)[i], exp.starts[j], Read(z, cs)[j]);
    }
  }

  /** A further clock's first reading is later than every start so far, so the duplicate check cannot fire. */
  lemma NextStartIsNew(z: Zone, exp: Expansion, cs: seq<WallClock>, c: WallClock, t: Instant)
    requires Isolated(z) && Forward(cs + [c]) && Covers(z, exp, cs) && Earliest(z, t, c)
    ensures t !in exp.starts
  {
    hide Matches, Isolated, DayNumber;
    ReadForward(z, cs + [c]);
    assert (cs + [c])[..|cs|] == cs;
    assert Read(z, cs + [c]) == Read(z, cs) + [c];
    forall i | 0 <= i < |exp.starts| ensures exp.starts[i] < t {
      assert Read(z, cs + [c])[i] == Read(z, cs)[i] && Read(z, cs + [c])[|Read(z, cs)|] == c;
      EarliestAscends(z, exp.starts[i], Read(z, cs)[i], t, c);
    }
  }

  /** What one more clock adds to the expansion. */
  function WithClock(exp: Expansion, c: WallClock, t: Instant, kind: Kind): Expansion {
    match kind
    case KindNonexistent => exp.(skipped := exp.skipped + [Anomaly(c, kind, None)])
    case KindAmbiguous => exp.(ambiguous := exp.ambiguous + [Anomaly(c, kind, Some(t))], starts := exp.starts + [t])
    case KindNormal => exp.(starts := exp.starts + [t])
  }

  lemma WithClockCovers(z: Zone, exp: Expansion, cs: seq<WallClock>, c: WallClock, t: Instant, kind: Kind)
    requires Covers(z, exp, cs)
    requires kind == KindNonexistent <==> !Exists(z, c)
    requires kind == KindAmbiguous <==> Twice(z, c)
    requires Exists(z, c) ==> Earliest(z, t, c)
    ensures Covers(z, WithClock(exp, c, t, kind), cs + [c])
  {
    hide Earliest, Exists, Twice;
    assert (cs + [c])[..|cs|] == cs;
  }

  /** The body of Expand's inner loop: resolve one grid clock and file the result. */
  method PlaceClock(c: WallClock, z: Zone, goDate: WallClock -> Instant, exp: Expansion, seen: set<Instant>,
      ghost done: seq<WallClock>)
    returns (exp': Expansion, seen': set<Instant>)
    requires DateContract(z, goDate) && seen == set t | t in exp.starts
    ensures seen' == set t | t in exp'.starts
    ensures Isolated(z) && Forward(done + [c]) && Covers(z, exp, done) ==> Covers(z, exp', done + [c])
  {
    hide Isolated, Forward, Covers, Matches;
    exp', seen' := exp, seen;
    var t, kind := Resolve(c, z, goDate);
    if Isolated(z) && Forward(done + [c]) && Covers(z, exp, done) {
      WithClockCovers(z, exp, done, c, t, kind);
      if Exists(z, c) {
        NextStartIsNew(z, exp, done, c, t);
      }
    }
    if kind == KindNonexistent {
      exp' := exp'.(skipped := exp'.skipped + [Anomaly(c, kind, None)]);
      return;
    }
    if kind == KindAmbiguous {
      exp' := exp'.(ambiguous := exp'.ambiguous + [Anomaly(c, kind, Some(t))]);
    }
    if t in seen {
      return;
    }
    seen' := seen + {t};
    exp' := exp'.(starts := exp'.starts + [t]);
  }

  lemma ForwardPrefix(cs: seq<WallClock>, ds: seq<WallClock>)
    requires Forward(cs + ds)
    ensures Forward(cs)
  {
    assert forall k :: 0 <= k < |cs| ==> (cs + ds)[k] == cs[k];
  }

  /** What holds between clocks: everything up to here is placed, and the cap is not exceeded. */
  ghost predicate Placed(z: Zone, exp: Expansion, seen: set<Instant>, done: seq<WallClock>) {
    && seen == (set t | t in exp.starts)
    && (Isolated(z) ==> Covers(z, exp, done) && |exp.starts| <= MAX_SLOTS)
  }

  /** Expand's inner loop: the grid of one date.  `full` is the early return on too many slots. */
  method ExpandDay(w: Window, d: Date, goDate: WallClock -> Instant, exp: Expansion, seen: set<Instant>,
      ghost done: seq<WallClock>)
    returns (exp': Expansion, seen': set<Instant>, full: bool)
    requires w.slotMinutes > 0 && w.loc.Some? && DateContract(w.loc.value, goDate)
    requires Placed(w.loc.value, exp, seen, done)
    requires Forward(done + DayClocks(w, d, w.dayStart.Minutes()))
    ensures !full ==> Placed(w.loc.value, exp', seen', done + DayClocks(w, d, w.dayStart.Minutes()))
    ensures full && Isolated(w.loc.value) ==>
              |Read(w.loc.value, done + DayClocks(w, d, w.dayStart.Minutes()))| > MAX_SLOTS
  {
    hide Isolated, Forward, Read, Matches, OfMinutes;
    exp', seen' := exp, seen;
    var z := w.loc.value;
    ghost var all, placed := done + DayClocks(w, d, w.dayStart.Minutes()), done;
    var m := w.dayStart.Minutes();
    while m <= w.dayEnd.Minutes() - w.slotMinutes
      invariant all == placed + DayClocks(w, d, m)
      invariant Placed(z, exp', seen', placed)
      decreases w.dayEnd.Minutes() - m
    {
      var c := WallClock(d, OfMinutes(m));
      ghost var rest := DayClocks(w, d, m + w.slotMinutes);
      assert all == (placed + [c]) + rest;
      ForwardPrefix(placed + [c], rest);
      exp', seen' := PlaceClock(c, z, goDate, exp', seen', placed);
      placed := placed + [c];
      m := m + w.slotMinutes;
      if |exp'.starts| > MAX_SLOTS {
        ReadExtends(z, placed, rest);
        return exp', seen', true;
      }
    }
    assert all == placed;
    full := false;
  }

  /** Everything Expand promises of a finished expansion. */
  ghost predicate Faithful(w: Window, exp: Expansion)
    requires Validate(w).None? && Valid(w.start) && Valid(w.end)
  {
    && Covers(w.loc.value, exp, Grid(w))
    && Ascending(exp.starts)
    && |exp.starts| + |exp.skipped| == (DayNumber(w.end) - DayNumber(w.start) + 1) * PerDay(w)
  }

  lemma NothingPlaced(z: Zone)
    ensures Placed(z, Expansion([], [], []), {}, [])
  {
  }

  lemma PlacedFits(z: Zone, exp: Expansion, seen: set<Instant>, done: seq<WallClock>)
    requires Placed(z, exp, seen, done) && Isolated(z)
    ensures Covers(z, exp, done) && |Read(z, done)| <= MAX_SLOTS
  {
  }

  lemma CoveredIsFaithful(w: Window, exp: Expansion)
    requires Validate(w).None? && Valid(w.start) && Valid(w.end)
    requires Isolated(w.loc.value) && Covers(w.loc.value, exp, Grid(w))
    ensures Faithful(w, exp)
  {
    hide Isolated, Clocks, Read, Unread, ReadTwice, DayNumber, After, Valid, PerDay, Ascending, Forward, Earliest;
    ClocksForward(w, w.start);
    CoveredAscends(w.loc.value, exp, Grid(w));
    ReadOrUnread(w.loc.value, Grid(w));
    AfterIsLater(w.start, w.end);
    ClocksCount(w, w.start, DayNumber(w.end) - DayNumber(w.start) + 1);
  }

  // ---------- the schedule, said without the loops ----------

  /** The hour and minute a minute count shows; both are negative before midnight. */
  predicate ShowsMinute(tod: TimeOfDay, m: int) {
    tod.hour * 60 + tod.minute == m && if m >= 0 then 0 <= tod.minute < 60 else -60 < tod.minute <= 0
  }

  /** The k-th slot of a day, if all of it lies inside the band. */
  predicate StartsSlot(w: Window, tod: TimeOfDay, k: nat) {
    var m := w.dayStart.Minutes() + k * w.slotMinutes;
    ShowsMinute(tod, m) && m + w.slotMinutes <= w.dayEnd.Minutes()
  }

  /** A clock at which the organizer's window has a slot begin. */
  ghost predicate OnSchedule(w: Window, c: WallClock) {
    && Valid(c.date) && DayNumber(w.start) <= DayNumber(c.date) <= DayNumber(w.end)
    && exists k: nat :: StartsSlot(w, c.tod, k)
  }

  /** An instant is a start just when it is the first to read a scheduled clock;
      the clocks never read are skipped, and those read twice are noted. */
  ghost predicate KeepsSchedule(w: Window, exp: Expansion)
    requires w.loc.Some?
  {
    var z := w.loc.value;
    && (forall t: Instant :: t in exp.starts <==> exists c :: OnSchedule(w, c) && Earliest(z, t, c))
    && (forall a: Anomaly :: a in exp.skipped <==>
          OnSchedule(w, a.clock) && !Exists(z, a.clock) && a.kind == KindNonexistent && a.chosen == None)
    && (forall a: Anomaly :: a in exp.ambiguous <==>
          && OnSchedule(w, a.clock) && Twice(z, a.clock) && a.kind == KindAmbiguous
          && a.chosen.Some? && Earliest(z, a.chosen.value, a.clock))
  }

  /** Different scheduled clocks that can be read. */
  ghost predicate Readable(w: Window, cs: seq<WallClock>)
    requires w.loc.Some?
  {
    NoRepeats(cs) && forall c <- cs :: OnSchedule(w, c) && Exists(w.loc.value, c)
  }

  lemma OfMinutesShows(tod: TimeOfDay, m: int)
    ensures ShowsMinute(tod, m) <==> tod == OfMinutes(m)
  {
  }

  /** The clock k steps on from minute m, if its slot fits the band. */
  ghost predicate IsKth(w: Window, d: Date, m: int, c: WallClock, k: nat) {
    c == WallClock(d, OfMinutes(m + k * w.slotMinutes)) && Fits(w, m, k)
  }

  lemma KthShifts(w: Window, d: Date, m: int, c: WallClock, k: nat)
    ensures IsKth(w, d, m + w.slotMinutes, c, k) <==> IsKth(w, d, m, c, k + 1)
  {
    hide OfMinutes;
    OneMore(k, w.slotMinutes);
    assert m + w.slotMinutes + k * w.slotMinutes == m + (k + 1) * w.slotMinutes;
  }

  lemma KthFirst(w: Window, d: Date, m: int, c: WallClock, k: nat)
    requires w.slotMinutes > 0
    ensures IsKth(w, d, m, c, 0) <==> c == WallClock(d, OfMinutes(m)) && m + w.slotMinutes <= w.dayEnd.Minutes()
    ensures IsKth(w, d, m, c, k) ==> m + w.slotMinutes <= w.dayEnd.Minutes()
  {
    hide OfMinutes;
    MultipleNonNegative(k, w.slotMinutes);
    assert m + 0 * w.slotMinutes == m;
  }

  lemma {:induction false} DayClocksMeaning(w: Window, d: Date, m: int, c: WallClock)
    requires w.slotMinutes > 0
    ensures c in DayClocks(w, d, m) <==> exists k: nat :: IsKth(w, d, m, c, k)
    decreases w.dayEnd.Minutes() - m
  {
    hide OfMinutes, IsKth;
    KthFirst(w, d, m, c, 0);
    if exists k: nat :: IsKth(w, d, m, c, k) {
      var k: nat :| IsKth(w, d, m, c, k);
      KthFirst(w, d, m, c, k);
      if k > 0 {
        KthShifts(w, d, m, c, k - 1);
        DayClocksMeaning(w, d, m + w.slotMinutes, c);
      }
    }
    if c in DayClocks(w, d, m) && c != WallClock(d, OfMinutes(m)) {
      DayClocksMeaning(w, d, m + w.slotMinutes, c);
      var k: nat :| IsKth(w, d, m + w.slotMinutes, c, k);
      KthShifts(w, d, m, c, k);
    }
  }

  predicate Fits(w: Window, m: int, k: nat) {
    m + k * w.slotMinutes + w.slotMinutes <= w.dayEnd.Minutes()
  }

  lemma MultipleNonNegative(k: nat, s: int)
    requires s > 0
    ensures k * s >= 0
  {
  }

  lemma {:induction false} ClocksMeaning(w: Window, d: Date, c: WallClock)
    requires w.slotMinutes > 0 && Valid(d) && Valid(w.end)
    ensures c in Clocks(w, d) <==>
              && Valid(c.date) && DayNumber(d) <= DayNumber(c.date) <= DayNumber(w.end)
              && c in DayClocks(w, c.date, w.dayStart.Minutes())
    decreases DayNumber(w.end) - DayNumber(d)
  {
    hide DayNumber, After, Next, Valid, DayClocks;
    AfterIsLater(d, w.end);
    NextIsNextDay(d);
    if !After(d, w.end) {
      ClocksMeaning(w, Next(d), c);
      DayClocksForward(w, d, w.dayStart.Minutes());
      if Valid(c.date) && DayNumber(c.date) == DayNumber(d) {
        SameDay(c.date, d);
      }
    }
  }

  lemma SameDay(d: Date, e: Date)
    requires Valid(d) && Valid(e) && DayNumber(d) == DayNumber(e)
    ensures d == e
  {
    hide DayNumber, Valid;
    DateOfDayNumber(d);
    DateOfDayNumber(e);
  }

  /** The grid holds exactly the scheduled clocks. */
  lemma GridMeaning(w: Window, c: WallClock)
    requires Validate(w).None? && Valid(w.start) && Valid(w.end)
    ensures c in Grid(w) <==> OnSchedule(w, c)
  {
    hide DayNumber, Valid, Clocks, DayClocks, After, OfMinutes, ShowsMinute;
    ClocksMeaning(w, w.start, c);
    DayClocksMeaning(w, c.date, w.dayStart.Minutes(), c);
    forall k: nat ensures StartsSlot(w, c.tod, k) <==> IsKth(w, c.date, w.dayStart.Minutes(), c, k) {
      OfMinutesShows(c.tod, w.dayStart.Minutes() + k * w.slotMinutes);
    }
  }

  lemma {:induction false} ReadMeaning(z: Zone, cs: seq<WallClock>, c: WallClock)
    ensures c in Read(z, cs) <==> c in cs && Exists(z, c)
    ensures c in Unread(z, cs) <==> c in cs && !Exists(z, c)
    ensures c in ReadTwice(z, cs) <==> c in cs && Twice(z, c)
  {
    hide Exists, Twice;
    if cs != [] {
      ReadMeaning(z, cs[..|cs| - 1], c);
      assert cs == cs[..|cs| - 1] + [cs[|cs| - 1]];
    }
  }

  lemma CoversSchedule(w: Window, exp: Expansion)
    requires Validate(w).None? && Valid(w.start) && Valid(w.end) && Covers(w.loc.value, exp, Grid(w))
    ensures KeepsSchedule(w, exp)
  {
    hide OnSchedule, Grid, Read, Unread, ReadTwice, Matches, DayNumber, Valid;
    var z, cs := w.loc.value, Grid(w);
    forall c: WallClock
      ensures c in cs <==> OnSchedule(w, c)
      ensures c in Read(z, cs) <==> c in cs && Exists(z, c)
      ensures c in Unread(z, cs) <==> c in cs && !Exists(z, c)
      ensures c in ReadTwice(z, cs) <==> c in cs && Twice(z, c)
    {
      GridMeaning(w, c);
      ReadMeaning(z, cs, c);
    }
    forall t: Instant ensures t in exp.starts <==> exists c :: OnSchedule(w, c) && Earliest(z, t, c) {
      StartsMeaning(w, exp, t);
    }
    forall a: Anomaly
      ensures a in exp.skipped <==>
                OnSchedule(w, a.clock) && !Exists(z, a.clock) && a.kind == KindNonexistent && a.chosen == None
    {
      if a.clock in Unread(z, cs) {
        var i :| 0 <= i < |Unread(z, cs)| && Unread(z, cs)[i] == a.clock;
        assert exp.skipped[i] in exp.skipped;
      }
    }
    forall a: Anomaly
      ensures a in exp.ambiguous <==>
                && OnSchedule(w, a.clock) && Twice(z, a.clock) && a.kind == KindAmbiguous
                && a.chosen.Some? && Earliest(z, a.chosen.value, a.clock)
    {
      if a.clock in ReadTwice(z, cs) {
        var i :| 0 <= i < |ReadTwice(z, cs)| && ReadTwice(z, cs)[i] == a.clock;
        assert exp.ambiguous[i] in exp.ambiguous;
      }
    }
  }

  lemma StartsMeaning(w: Window, exp: Expansion, t: Instant)
    requires Validate(w).None? && Valid(w.start) && Valid(w.end) && Covers(w.loc.value, exp, Grid(w))
    ensures t in exp.starts <==> exists c :: OnSchedule(w, c) && Earliest(w.loc.value, t, c)
  {
    hide OnSchedule, Grid, Read, Matches, DayNumber, Valid;
    var z, cs := w.loc.value, Grid(w);
    if t in exp.starts {
      var i :| 0 <= i < |exp.starts| && exp.starts[i] == t;
      var c := Read(z, cs)[i];
      assert c in Read(z, cs);
      GridMeaning(w, c);
      assert OnSchedule(w, c) && Earliest(z, t, c);
    }
    if exists c :: OnSchedule(w, c) && Earliest(z, t, c) {
      var c :| OnSchedule(w, c) && Earliest(z, t, c);
      GridMeaning(w, c);
      ReadMeaning(z, cs, c);
      var i :| 0 <= i < |Read(z, cs)| && Read(z, cs)[i] == c;
      assert exp.starts[i] == t;
    }
  }

  /** More scheduled clocks can be read than n just when some list of more than n of them is found. */
  lemma ReadableCount(w: Window, n: nat)
    requires Validate(w).None? && Valid(w.start) && Valid(w.end)
    ensures |Read(w.loc.value, Grid(w))| > n <==> exists cs :: Readable(w, cs) && |cs| > n
  {
    hide OnSchedule, Clocks, Read, Matches, DayNumber, Valid, Exists;
    var all := Read(w.loc.value, Grid(w));
    ClocksForward(w, w.start);
    ReadForward(w.loc.value, Grid(w));
    forall c: WallClock ensures c in all <==> OnSchedule(w, c) && Exists(w.loc.value, c) {
      GridMeaning(w, c);
      ReadMeaning(w.loc.value, Grid(w), c);
    }
    assert Readable(w, all);
    forall cs: seq<WallClock> | Readable(w, cs) ensures |cs| <= |all| {
      NoRepeatsFit(cs, all);
    }
  }

  /** Expand.  In a zone with isolated transitions every grid clock that exists
      becomes exactly one start, its first reading; the starts ascend; every
      other grid clock is listed as skipped; and the window is refused just
      when more than 5000 grid clocks exist. */
  method Expand(w: Window, goDate: WallClock -> Instant) returns (r: Result)
    requires Valid(w.start) && Valid(w.end)
    requires w.loc.Some? ==> DateContract(w.loc.value, goDate)
    ensures Validate(w).Some? ==> r == Failed(Validate(w).value)
    ensures Validate(w).None? && Isolated(w.loc.value) ==>
              if exists cs :: Readable(w, cs) && |cs| > MAX_SLOTS then r == Failed(TooManySlots)
              else r.Expanded? && Faithful(w, r.exp) && KeepsSchedule(w, r.exp)
  {
    hide Isolated, Covers, Read, DayNumber, After, Valid, Next, DayClocks, Forward, Faithful, Placed;
    hide Readable, KeepsSchedule;
    var invalid := Validate(w);
    if invalid.Some? {
      return Failed(invalid.value);
    }
    ReadableCount(w, MAX_SLOTS);
    var exp := Expansion([], [], []);
    var seen: set<Instant> := {};
    ghost var done: seq<WallClock> := [];
    NothingPlaced(w.loc.value);
    ClocksForward(w, w.start);
    var d := w.start;
    AfterIsLater(d, w.end);
    while !After(d, w.end)
      invariant Valid(d) && (After(d, w.end) <==> DayNumber(d) > DayNumber(w.end))
      invariant Grid(w) == done + Clocks(w, d)
      invariant Placed(w.loc.value, exp, seen, done)
      decreases DayNumber(w.end) - DayNumber(d)
    {
      NextIsNextDay(d);
      ghost var today, rest := DayClocks(w, d, w.dayStart.Minutes()), Clocks(w, Next(d));
      assert Grid(w) == (done + today) + rest;
      ForwardPrefix(done + today, rest);
      var full;
      exp, seen, full := ExpandDay(w, d, goDate, exp, seen, done);
      if full {
        ReadExtends(w.loc.value, done + today, rest);
        return Failed(TooManySlots);
      }
      done := done + today;
      d := Next(d);
      AfterIsLater(d, w.end);
    }
    assert Grid(w) == done;
    if Isolated(w.loc.value) {
      PlacedFits(w.loc.value, exp, seen, done);
      CoveredIsFaithful(w, exp);
      CoversSchedule(w, exp);
    }
    r := Expanded(exp);
  }
}
