/** A cache with a time to live over a single-flight group (proposalcache.go).

    Callers of Do run concurrently.  One step of the machine below is what one
    caller does between two points where another may come in: a lookup or a
    store under the mutex, joining, leading or leaving a flight under the
    group's own lock, the start and the end of a computation. */
module ProposalCache {
  import opened FiniteSets
  import opened Options
  import opened Proposal

  datatype Entry = Entry(result: Result, at: int)

  type Values = map<string, Entry>

  const MAX_CACHED := 2000

  predicate Stale(ttl: int, e: Entry, now: int) {
    now - e.at >= ttl
  }

  function Fresh(ttl: int, m: Values, key: string, now: int): Option<Result> {
    if key !in m || Stale(ttl, m[key], now) then None else Some(m[key].result)
  }

  function Kept(ttl: int, m: Values, now: int): Values {
    map k | k in m && !Stale(ttl, m[k], now) :: m[k]
  }

  /** Whether a store finds room, stale entries being evicted only when the map is full. */
  predicate HasRoom(ttl: int, m: Values, now: int) {
    |m| < MAX_CACHED || |Kept(ttl, m, now)| < MAX_CACHED
  }

  function Stored(ttl: int, m: Values, key: string, r: Result, now: int, at: int): Values {
    var room := if |m| >= MAX_CACHED then Kept(ttl, m, now) else m;
    if HasRoom(ttl, m, now) then room[key := Entry(r, at)] else room
  }

  class Cache {
    const ttl: int
    var values: Values

    constructor (ttl: int)
      ensures this.ttl == ttl && values == map[]
    {
      this.ttl := ttl;
      values := map[];
    }

    /** A hit is an entry younger than the time to live. */
    method Lookup(key: string, now: int) returns (r: Option<Result>)
      ensures r.Some? <==> key in values && now < values[key].at + ttl
      ensures r.Some? ==> r.value == values[key].result
      ensures r == Fresh(ttl, values, key, now)
    {
      if key !in values || now - values[key].at >= ttl {
        return None;
      }
      r := Some(values[key].result);
    }

    /** The clock is read once to evict and again to date the entry. */
    method Store(key: string, r: Result, now: int, at: int)
      modifies this`values
      ensures values == Stored(ttl, old(values), key, r, now, at)
    {
      if |values| >= MAX_CACHED {
        EvictStaleLocked(now);
        if |values| >= MAX_CACHED {
          return;
        }
      }
      values := values[key := Entry(r, at)];
    }

    method EvictStaleLocked(now: int)
      modifies this`values
      ensures values == Kept(ttl, old(values), now)
    {
      ghost var was := values;
      var todo := values.Keys;
      while todo != {}
        invariant todo <= was.Keys
        invariant values == map k | k in was && (k in todo || !Stale(ttl, was[k], now)) :: was[k]
        decreases todo
      {
        var key :| key in todo;
        todo := todo - {key};
        if now - values[key].at >= ttl {
          values := values - {key};
        }
      }
    }
  }

  lemma KeptSize(ttl: int, m: Values, now: int)
    ensures |Kept(ttl, m, now)| <= |m|
  {
    SubsetSize(Kept(ttl, m, now).Keys, m.Keys);
  }

  /** A store drops stale entries only, adds or replaces one entry at most, and keeps the bound. */
  lemma StoredMeaning(ttl: int, m: Values, key: string, r: Result, now: int, at: int)
    ensures var n := Stored(ttl, m, key, r, now, at);
            && (HasRoom(ttl, m, now) ==> key in n && n[key] == Entry(r, at))
            && (forall k <- n :: (k == key && HasRoom(ttl, m, now)) || (k in m && n[k] == m[k]))
            && (forall k <- m :: k in n || Stale(ttl, m[k], now))
            && (|m| <= MAX_CACHED ==> |n| <= MAX_CACHED)
            && (!HasRoom(ttl, m, now) ==> forall k <- m :: k in n ==> !Stale(ttl, n[k], now))
  {
    KeptSize(ttl, m, now);
    var room := if |m| >= MAX_CACHED then Kept(ttl, m, now) else m;
    assert room[key := Entry(r, at)].Keys == room.Keys + {key};
  }

  // ---------- the machine ----------

  datatype Outcome = Good(result: Result) | Bad

  /** How far a caller of Do has come. */
  datatype Phase =
    | Asked(key: string)
    | Missed(key: string)
    | Waiting(key: string, leader: nat)
    | Leading(key: string)
    | Cleared(key: string)
    | Computing(key: string)
    | Computed(key: string, result: Result)
    | Settled(key: string, outcome: Outcome)
    | Served(key: string, outcome: Outcome)
  {
    /** Inside the function handed to the single-flight group. */
    predicate Airborne() {
      Leading? || Cleared? || Computing? || Computed? || Settled?
    }
  }

  /** What an observer would note down; no step looks at it. */
  datatype Event =
    | Began(key: string, at: int)
    | Made(key: string, outcome: Outcome)
    | Saved(key: string, result: Result, at: int)

  /** `flights` maps a key to the caller leading its flight. */
  datatype State = State(
    clock: int, values: Values, flights: map<string, nat>, callers: seq<Phase>, log: seq<Event>)
  {
    function At(who: nat, phase: Phase): State
      requires who < |callers|
    {
      this.(callers := callers[who := phase])
    }
  }

  /** Time passes, a new caller arrives, or a caller takes its next step.  A
      computation ends in `outcome`; a store dates its entry `pause` after it evicts. */
  datatype Step = Tick(d: nat) | Ask(key: string) | Go(who: nat, outcome: Outcome, pause: nat)

  function Go1(ttl: int, s: State, who: nat, outcome: Outcome, pause: nat): State
    requires who < |s.callers|
  {
    match s.callers[who]
    case Asked(key) =>
      (match Fresh(ttl, s.values, key, s.clock)
       case Some(r) => s.At(who, Served(key, Good(r)))
       case None => s.At(who, Missed(key)))
    case Missed(key) =>
      if key in s.flights then s.At(who, Waiting(key, s.flights[key]))
      else s.At(who, Leading(key)).(flights := s.flights[key := who])
    case Waiting(key, leader) =>
      if leader < |s.callers| && s.callers[leader].Served? then s.At(who, Served(key, s.callers[leader].outcome)) else s
    case Leading(key) =>
      (match Fresh(ttl, s.values, key, s.clock)
       case Some(r) => s.At(who, Settled(key, Good(r)))
       case None => s.At(who, Cleared(key)))
    case Cleared(key) =>
      s.At(who, Computing(key)).(log := s.log + [Began(key, s.clock)])
    case Computing(key) =>
      s.At(who, if outcome.Good? then Computed(key, outcome.result) else Settled(key, Bad))
      .(log := s.log + [Made(key, outcome)])
    case Computed(key, r) =>
      Save(ttl, s, key, r, pause).At(who, Settled(key, Good(r)))
    case Settled(key, out) =>
      s.At(who, Served(key, out)).(flights := s.flights - {key})
    case Served(_, _) => s
  }

  function Save(ttl: int, s: State, key: string, r: Result, pause: nat): State {
    var at := s.clock + pause;
    s.(clock := at,
       values := Stored(ttl, s.values, key, r, s.clock, at),
       log := if HasRoom(ttl, s.values, s.clock) then s.log + [Saved(key, r, at)] else s.log)
  }

  function Next(ttl: int, s: State, step: Step): State {
    match step
    case Tick(d) => s.(clock := s.clock + d)
    case Ask(key) => s.(callers := s.callers + [Asked(key)])
    case Go(who, outcome, pause) => if who < |s.callers| then Go1(ttl, s, who, outcome, pause) else s
  }

  /** The state after any interleaving of steps, from an empty cache. */
  function Run(ttl: int, start: int, steps: seq<Step>): State {
    if steps == [] then State(start, map[], map[], [], [])
    else Next(ttl, Run(ttl, start, steps[..|steps| - 1]), steps[|steps| - 1])
  }

  // ---------- what every step keeps ----------

  /** A caller in the air leads its key's flight; a waiting one has a leader
      for its own key who is in the air or has landed. */
  ghost predicate Placed(s: State, i: nat)
    requires i < |s.callers|
  {
    var c := s.callers[i];
    && (c.Airborne() ==> c.key in s.flights && s.flights[c.key] == i)
    && (c.Waiting? ==>
          && c.leader < |s.callers| && s.callers[c.leader].key == c.key
          && (s.callers[c.leader].Served? || (c.key in s.flights && s.flights[c.key] == c.leader)))
  }

  ghost predicate FlightsHold(s: State) {
    && (forall i: nat :: i < |s.callers| ==> Placed(s, i))
    && (forall k <- s.flights ::
          && s.flights[k] < |s.callers|
          && s.callers[s.flights[k]].Airborne() && s.callers[s.flights[k]].key == k)
  }

  /** Whatever a caller holds, a computation for its key made. */
  ghost predicate Told(s: State, i: nat)
    requires i < |s.callers|
  {
    var c := s.callers[i];
    && (c.Computed? ==> Made(c.key, Good(c.result)) in s.log)
    && (c.Settled? || c.Served? ==> Made(c.key, c.outcome) in s.log)
  }

  ghost predicate ToldHold(s: State) {
    && (forall i: nat :: i < |s.callers| ==> Told(s, i))
    && (forall k <- s.values :: Made(k, Good(s.values[k].result)) in s.log)
  }

  /** Every save is past its time to live, or a save of the same key no older is in the map. */
  ghost predicate Accounted(ttl: int, s: State, e: Event)
    requires e.Saved?
  {
    e.at <= s.clock && (s.clock - e.at >= ttl || (e.key in s.values && e.at <= s.values[e.key].at))
  }

  ghost predicate BooksHold(ttl: int, s: State) {
    && |s.values| <= MAX_CACHED
    && (forall k <- s.values :: s.values[k].at <= s.clock && Saved(k, s.values[k].result, s.values[k].at) in s.log)
    && (forall e <- s.log :: e.Saved? ==> Accounted(ttl, s, e))
  }

  /** Nothing saved for the key within the last ttl. */
  ghost predicate Cold(ttl: int, s: State, key: string) {
    forall e <- s.log :: e.Saved? && e.key == key ==> s.clock - e.at >= ttl
  }

  ghost predicate ColdHold(ttl: int, s: State) {
    forall i: nat :: i < |s.callers| && s.callers[i].Cleared? ==> Cold(ttl, s, s.callers[i].key)
  }

  /** No computation begins within ttl of an earlier save of its key. */
  ghost predicate CooledDown(ttl: int, log: seq<Event>) {
    forall i, j :: 0 <= i < j < |log| && log[i].Saved? && log[j].Began? && log[i].key == log[j].key ==>
                     log[j].at - log[i].at >= ttl
  }

  /** Only what a computation for the key returned without error is ever saved. */
  ghost predicate SavesAreSuccesses(log: seq<Event>) {
    forall j :: 0 <= j < |log| && log[j].Saved? ==> Made(log[j].key, Good(log[j].result)) in log[..j]
  }

  /** What a step does to the flights and to its caller's place. */
  lemma GoMoves(ttl: int, s: State, who: nat, outcome: Outcome, pause: nat)
    requires who < |s.callers|
    ensures var (c, t) := (s.callers[who], Go1(ttl, s, who, outcome, pause));
            && |t.callers| == |s.callers|
            && (forall i :: 0 <= i < |s.callers| && i != who ==> t.callers[i] == s.callers[i])
            && t.callers[who].key == c.key
            && (!c.Missed? && !c.Settled? ==> t.flights == s.flights && (t.callers[who].Airborne() <==> c.Airborne()))
            && (c.Missed? && c.key !in s.flights ==> t.callers[who].Airborne() && t.flights == s.flights[c.key := who])
            && (c.Missed? && c.key in s.flights ==>
                t.callers[who] == Waiting(c.key, s.flights[c.key]) && t.flights == s.flights)
            && (c.Settled? ==> t.callers[who] == Served(c.key, c.outcome) && t.flights == s.flights - {c.key})
            && (c.Waiting? ==> t.callers[who].Served? || t.callers[who] == c)
            && (c.Served? ==> t.callers[who] == c)
            && (t.callers[who].Waiting? ==> c.Waiting? || c.Missed?)
  {
    hide Fresh, Stored, HasRoom;
    var c, t := s.callers[who], Go1(ttl, s, who, outcome, pause);
    if c.Computed? {
      assert t.callers == s.callers[who := Settled(c.key, Good(c.result))] && t.flights == s.flights;
    }
  }

  /** What a step does to the clock, the map and the log. */
  lemma GoWrites(ttl: int, s: State, who: nat, outcome: Outcome, pause: nat)
    requires who < |s.callers|
    ensures var (c, t) := (s.callers[who], Go1(ttl, s, who, outcome, pause));
            if c.Computed? then
              && t.clock == s.clock + pause
              && t.values == Stored(ttl, s.values, c.key, c.result, s.clock, t.clock)
              && t.log == (if HasRoom(ttl, s.values, s.clock) then s.log + [Saved(c.key, c.result, t.clock)] else s.log)
            else
              && t.clock == s.clock && t.values == s.values
              && t.log == s.log + (if c.Cleared? then [Began(c.key, s.clock)]
                                   else if c.Computing? then [Made(c.key, outcome)] else [])
  {
    hide Fresh, Stored, HasRoom;
    var c, t := s.callers[who], Go1(ttl, s, who, outcome, pause);
    if !c.Cleared? && !c.Computing? && !c.Computed? {
      assert t.log == s.log;
    }
  }

  lemma PlacedKept(ttl: int, s: State, who: nat, outcome: Outcome, pause: nat, i: nat)
    requires FlightsHold(s) && who < |s.callers| && i < |s.callers|
    ensures i < |Go1(ttl, s, who, outcome, pause).callers| && Placed(Go1(ttl, s, who, outcome, pause), i)
  {
    GoMoves(ttl, s, who, outcome, pause);
    assert Placed(s, i) && Placed(s, who);
    if s.callers[i].Waiting? {
      assert Placed(s, s.callers[i].leader);
    }
    hide Go1;
  }

  lemma FlightsKept(ttl: int, s: State, step: Step)
    requires FlightsHold(s)
    ensures FlightsHold(Next(ttl, s, step))
  {
    var t := Next(ttl, s, step);
    if step.Go? && step.who < |s.callers| {
      GoMoves(ttl, s, step.who, step.outcome, step.pause);
      assert Placed(s, step.who);
    }
    hide Go1;
    forall i: nat | i < |t.callers| ensures Placed(t, i) {
      if i < |s.callers| {
        assert Placed(s, i);
        if step.Go? && step.who < |s.callers| {
          PlacedKept(ttl, s, step.who, step.outcome, step.pause, i);
        }
      }
    }
    hide Placed;
  }

  lemma ToldMoves(ttl: int, s: State, who: nat, outcome: Outcome, pause: nat)
    requires who < |s.callers| && Told(s, who) && Placed(s, who)
    requires var c := s.callers[who]; c.Waiting? ==> Told(s, c.leader)
    requires var key := s.callers[who].key; key in s.values ==> Made(key, Good(s.values[key].result)) in s.log
    ensures |Go1(ttl, s, who, outcome, pause).callers| == |s.callers| && Told(Go1(ttl, s, who, outcome, pause), who)
  {
    hide Stored, HasRoom;
  }

  lemma ValuesTold(ttl: int, s: State, who: nat, outcome: Outcome, pause: nat)
    requires who < |s.callers| && Told(s, who)
    requires forall k <- s.values :: Made(k, Good(s.values[k].result)) in s.log
    ensures var t := Go1(ttl, s, who, outcome, pause);
            && (forall e <- s.log :: e in t.log)
            && (forall k <- t.values :: Made(k, Good(t.values[k].result)) in t.log)
  {
    var c := s.callers[who];
    GoWrites(ttl, s, who, outcome, pause);
    if c.Computed? {
      StoredMeaning(ttl, s.values, c.key, c.result, s.clock, s.clock + pause);
    }
    hide Go1, Stored, HasRoom;
  }

  lemma ToldStays(s: State, t: State, i: nat)
    requires i < |s.callers| && i < |t.callers| && s.callers[i] == t.callers[i]
    requires forall e <- s.log :: e in t.log
    requires Told(s, i)
    ensures Told(t, i)
  {
  }

  lemma ToldKept(ttl: int, s: State, step: Step)
    requires FlightsHold(s) && ToldHold(s)
    ensures ToldHold(Next(ttl, s, step))
  {
    hide Told, Go1;
    var t := Next(ttl, s, step);
    if step.Go? && step.who < |s.callers| {
      assert Placed(s, step.who);
      ToldMoves(ttl, s, step.who, step.outcome, step.pause);
      ValuesTold(ttl, s, step.who, step.outcome, step.pause);
      GoMoves(ttl, s, step.who, step.outcome, step.pause);
    }
    hide Placed;
    forall i: nat | i < |t.callers| ensures Told(t, i) {
      if i < |s.callers| && !(step.Go? && step.who == i) {
        ToldStays(s, t, i);
      } else if step.Ask? {
        ToldAsked(t, i);
      }
    }
  }

  lemma ToldAsked(t: State, i: nat)
    requires i < |t.callers| && t.callers[i].Asked?
    ensures Told(t, i)
  {
  }

  lemma SaveKeepsBooks(ttl: int, s: State, key: string, r: Result, pause: nat)
    requires BooksHold(ttl, s)
    ensures BooksHold(ttl, Save(ttl, s, key, r, pause))
  {
    StoredMeaning(ttl, s.values, key, r, s.clock, s.clock + pause);
    hide Stored, HasRoom;
    var t := Save(ttl, s, key, r, pause);
    assert forall e <- s.log :: e in t.log;
    forall e | e in t.log && e.Saved? ensures Accounted(ttl, t, e) {
      if e in s.log {
        assert Accounted(ttl, s, e);
      }
    }
  }

  lemma BooksKept(ttl: int, s: State, step: Step)
    requires BooksHold(ttl, s)
    ensures BooksHold(ttl, Next(ttl, s, step))
  {
    hide Stored, HasRoom, Fresh;
    var t := Next(ttl, s, step);
    if step.Go? && step.who < |s.callers| {
      GoWrites(ttl, s, step.who, step.outcome, step.pause);
      var c := s.callers[step.who];
      if c.Computed? {
        SaveKeepsBooks(ttl, s, c.key, c.result, step.pause);
      }
    }
    hide Go1;
    if !(step.Go? && step.who < |s.callers| && s.callers[step.who].Computed?) {
      forall e | e in t.log && e.Saved? ensures Accounted(ttl, t, e) {
        assert Accounted(ttl, s, e);
      }
    }
  }

  /** A key with no fresh entry has not been saved within ttl. */
  lemma MissMeansCold(ttl: int, s: State, key: string)
    requires BooksHold(ttl, s) && Fresh(ttl, s.values, key, s.clock).None?
    ensures Cold(ttl, s, key)
  {
    forall e | e in s.log && e.Saved? && e.key == key ensures s.clock - e.at >= ttl {
      assert Accounted(ttl, s, e);
    }
  }

  /** Only a save of the same key, by a caller in the air for it, ends a cold spell. */
  lemma ColdStays(ttl: int, s: State, step: Step, key: string)
    requires Cold(ttl, s, key)
    requires step.Go? && step.who < |s.callers| && s.callers[step.who].Computed? ==> s.callers[step.who].key != key
    ensures Cold(ttl, Next(ttl, s, step), key)
  {
    if step.Go? && step.who < |s.callers| {
      GoWrites(ttl, s, step.who, step.outcome, step.pause);
    }
    hide Go1;
  }

  lemma ColdKept(ttl: int, s: State, step: Step)
    requires FlightsHold(s) && BooksHold(ttl, s) && ColdHold(ttl, s)
    ensures ColdHold(ttl, Next(ttl, s, step))
  {
    hide Cold;
    var t := Next(ttl, s, step);
    forall i: nat | i < |t.callers| && t.callers[i].Cleared? ensures Cold(ttl, t, t.callers[i].key) {
      ClearedIsCold(ttl, s, step, i);
      ColdStays(ttl, s, step, t.callers[i].key);
      hide Next;
    }
  }

  lemma ClearedIsCold(ttl: int, s: State, step: Step, i: nat)
    requires FlightsHold(s) && BooksHold(ttl, s) && ColdHold(ttl, s)
    requires var t := Next(ttl, s, step); i < |t.callers| && t.callers[i].Cleared?
    ensures var key := Next(ttl, s, step).callers[i].key;
            && Cold(ttl, s, key)
            && (step.Go? && step.who < |s.callers| && s.callers[step.who].Computed? ==> s.callers[step.who].key != key)
  {
    hide Cold, Stored, HasRoom, BooksHold;
    assert i < |s.callers| && Placed(s, i);
    if step.Go? && step.who == i {
      assert s.callers[i].Leading?;
      assert Fresh(ttl, s.values, s.callers[i].key, s.clock).None?;
      hide Fresh;
      MissMeansCold(ttl, s, s.callers[i].key);
    } else if step.Go? && step.who < |s.callers| {
      hide Fresh;
      assert Placed(s, step.who);
      GoMoves(ttl, s, step.who, step.outcome, step.pause);
    }
  }

  lemma LogKept(ttl: int, s: State, step: Step)
    requires ToldHold(s) && ColdHold(ttl, s) && CooledDown(ttl, s.log) && SavesAreSuccesses(s.log)
    ensures CooledDown(ttl, Next(ttl, s, step).log) && SavesAreSuccesses(Next(ttl, s, step).log)
  {
    var t := Next(ttl, s, step);
    if step.Go? && step.who < |s.callers| {
      assert Told(s, step.who);
      GoWrites(ttl, s, step.who, step.outcome, step.pause);
    }
    hide Go1, Told;
    if t.log != s.log {
      assert t.log[..|s.log|] == s.log;
      assert forall j :: 0 <= j < |s.log| ==> t.log[..j] == s.log[..j];
    }
  }

  lemma {:induction false} RunKeeps(ttl: int, start: int, steps: seq<Step>)
    ensures var s := Run(ttl, start, steps);
            && FlightsHold(s) && ToldHold(s) && BooksHold(ttl, s) && ColdHold(ttl, s)
            && CooledDown(ttl, s.log) && SavesAreSuccesses(s.log)
  {
    if steps != [] {
      var s, step := Run(ttl, start, steps[..|steps| - 1]), steps[|steps| - 1];
      RunKeeps(ttl, start, steps[..|steps| - 1]);
      FlightsKept(ttl, s, step);
      ToldKept(ttl, s, step);
      BooksKept(ttl, s, step);
      ColdKept(ttl, s, step);
      LogKept(ttl, s, step);
      hide Next, FlightsHold, ToldHold, BooksHold, ColdHold, CooledDown, SavesAreSuccesses;
    }
  }

  // ---------- over every interleaving ----------

  /** No two computations for one key overlap. */
  lemma {:induction false} NoTwoComputeTogether(ttl: int, start: int, steps: seq<Step>, i: nat, j: nat)
    requires var s := Run(ttl, start, steps); i < j < |s.callers| && s.callers[i].Computing? && s.callers[j].Computing?
    ensures var s := Run(ttl, start, steps); s.callers[i].key != s.callers[j].key
  {
    RunKeeps(ttl, start, steps);
    var s := Run(ttl, start, steps);
    assert Placed(s, i) && Placed(s, j);
    hide Run;
  }

  /** No computation begins within ttl of any earlier save of its key, and no
      failure is ever saved. */
  lemma {:induction false} ComputesAreSpaced(ttl: int, start: int, steps: seq<Step>)
    ensures CooledDown(ttl, Run(ttl, start, steps).log)
    ensures SavesAreSuccesses(Run(ttl, start, steps).log)
  {
    RunKeeps(ttl, start, steps);
    hide Run;
  }

  /** The map stays bounded, and a step drops an entry only when it is stale
      and changes one only to save a newer result of its key. */
  lemma OnlyStaleLeaves(ttl: int, start: int, steps: seq<Step>, step: Step)
    ensures var (s, t) := (Run(ttl, start, steps), Run(ttl, start, steps + [step]));
            && |t.values| <= MAX_CACHED
            && forall k <- s.values ::
                 || Stale(ttl, s.values[k], s.clock)
                 || (k in t.values && (t.values[k] == s.values[k] || s.values[k].at <= s.clock <= t.values[k].at))
  {
    hide FlightsHold, ToldHold, ColdHold, CooledDown, SavesAreSuccesses;
    assert (steps + [step])[..|steps|] == steps;
    RunKeeps(ttl, start, steps);
    RunKeeps(ttl, start, steps + [step]);
    var s := Run(ttl, start, steps);
    assert Run(ttl, start, steps + [step]) == Next(ttl, s, step);
    hide Run;
    StaleLeaves(ttl, s, step);
    hide Next, Stale;
  }

  lemma StaleLeaves(ttl: int, s: State, step: Step)
    requires BooksHold(ttl, s)
    ensures forall k <- s.values ::
              var t := Next(ttl, s, step);
              || Stale(ttl, s.values[k], s.clock)
              || (k in t.values && (t.values[k] == s.values[k] || s.values[k].at <= s.clock <= t.values[k].at))
  {
    if step.Go? && step.who < |s.callers| {
      GoWrites(ttl, s, step.who, step.outcome, step.pause);
      var c := s.callers[step.who];
      if c.Computed? {
        StoredMeaning(ttl, s.values, c.key, c.result, s.clock, s.clock + step.pause);
      }
    }
    hide Go1, Stored, HasRoom, Stale, Accounted;
  }

  /** Every answer a caller gets, by whichever way, is what some computation for
      the caller's own key returned: a result one made, or a failure one had. */
  lemma {:induction false} AnswersWereMade(ttl: int, start: int, steps: seq<Step>, i: nat)
    requires var s := Run(ttl, start, steps); i < |s.callers| && s.callers[i].Served?
    ensures var s := Run(ttl, start, steps); Made(s.callers[i].key, s.callers[i].outcome) in s.log
  {
    RunKeeps(ttl, start, steps);
    assert Told(Run(ttl, start, steps), i);
    hide Run;
  }

  /** A lookup succeeds just when the key was saved less than ttl ago, and then
      returns the latest save. */
  lemma {:induction false} HitIsLatestSave(ttl: int, start: int, steps: seq<Step>, key: string)
    ensures var s := Run(ttl, start, steps);
            var hit := Fresh(ttl, s.values, key, s.clock);
            && (hit.Some? <==> exists e <- s.log :: e.Saved? && e.key == key && s.clock - e.at < ttl)
            && (hit.Some? ==> exists e <- s.log :: e.Saved? && e == Saved(key, hit.value, e.at) && s.clock - e.at < ttl
                                && forall other <- s.log :: other.Saved? && other.key == key ==>
                                     other.at <= e.at || s.clock - other.at >= ttl)
  {
    hide Run, FlightsHold, ToldHold, ColdHold, CooledDown, SavesAreSuccesses;
    RunKeeps(ttl, start, steps);
    var s := Run(ttl, start, steps);
    if Fresh(ttl, s.values, key, s.clock).Some? {
      var e := Saved(key, s.values[key].result, s.values[key].at);
      assert e in s.log;
      forall other | other in s.log && other.Saved? && other.key == key
        ensures other.at <= e.at || s.clock - other.at >= ttl {
        assert Accounted(ttl, s, other);
      }
    } else {
      MissMeansCold(ttl, s, key);
    }
  }

  /** Nobody waits in vain: a waiting caller's leader is a caller for the same
      key who has an answer to share or can still move. */
  lemma {:induction false} WaitersAreServed(
    ttl: int, start: int, steps: seq<Step>, i: nat, outcome: Outcome, pause: nat)
    requires var s := Run(ttl, start, steps); i < |s.callers| && s.callers[i].Waiting?
    ensures var s := Run(ttl, start, steps);
            var leader := s.callers[i].leader;
            && leader < |s.callers| && s.callers[leader].key == s.callers[i].key
            && (s.callers[leader].Served? ==>
                  Go1(ttl, s, i, outcome, pause).callers[i] == s.callers[leader])
            && (!s.callers[leader].Served? ==>
                  s.callers[leader].Airborne()
                      && Go1(ttl, s, leader, outcome, pause).callers[leader] != s.callers[leader])
  {
    RunKeeps(ttl, start, steps);
    var s := Run(ttl, start, steps);
    hide Run;
    assert Placed(s, i);
    hide Fresh, Stored, HasRoom;
  }

  // ---------- what is saved stays ----------

  /** The keys saved less than ttl ago. */
  function FreshKeys(ttl: int, m: Values, now: int): set<string> {
    set k | k in m && now - m[k].at < ttl
  }

  lemma RoomMeaning(ttl: int, m: Values, now: int)
    requires |m| <= MAX_CACHED
    ensures HasRoom(ttl, m, now) <==> |FreshKeys(ttl, m, now)| < MAX_CACHED
  {
    assert Kept(ttl, m, now).Keys == FreshKeys(ttl, m, now);
    SubsetSize(FreshKeys(ttl, m, now), m.Keys);
  }

  /** A result that was computed is stored whenever fewer than 2000 keys were
      saved less than ttl ago, as they were if the map holds fewer than 2000; if
      not, nothing is saved. */
  lemma {:induction false} ComputedIsSaved(
    ttl: int, start: int, steps: seq<Step>, who: nat, outcome: Outcome, pause: nat)
    requires var s := Run(ttl, start, steps); who < |s.callers| && s.callers[who].Computed?
    ensures var (s, t) := (Run(ttl, start, steps), Run(ttl, start, steps + [Go(who, outcome, pause)]));
            var Computed(key, r) := s.callers[who];
            && t.clock == s.clock + pause
            && (|s.values| < MAX_CACHED ==> |FreshKeys(ttl, s.values, s.clock)| < MAX_CACHED)
            && (if |FreshKeys(ttl, s.values, s.clock)| < MAX_CACHED
                then key in t.values && t.values[key] == Entry(r, t.clock) && t.log == s.log + [Saved(key, r, t.clock)]
                else t.log == s.log)
  {
    hide Go1, Stored, HasRoom, FlightsHold, ToldHold, ColdHold, CooledDown, SavesAreSuccesses;
    var s, steps' := Run(ttl, start, steps), steps + [Go(who, outcome, pause)];
    assert steps'[..|steps|] == steps;
    RunKeeps(ttl, start, steps);
    GoWrites(ttl, s, who, outcome, pause);
    RoomMeaning(ttl, s.values, s.clock);
    SubsetSize(FreshKeys(ttl, s.values, s.clock), s.values.Keys);
    StoredMeaning(ttl, s.values, s.callers[who].key, s.callers[who].result, s.clock, s.clock + pause);
    hide Run, FreshKeys;
  }

  /** The entry is in place and nobody is about to replace it. */
  ghost predicate Warm(s: State, key: string, r: Result, at: int) {
    && key in s.values && s.values[key] == Entry(r, at)
    && forall i: nat :: i < |s.callers| && s.callers[i].key == key ==>
         !s.callers[i].Cleared? && !s.callers[i].Computing? && !s.callers[i].Computed?
  }

  /** Nobody who looks a warm key up within ttl comes to compute it. */
  lemma WarmCaller(ttl: int, s: State, who: nat, outcome: Outcome, pause: nat, key: string, r: Result, at: int)
    requires Warm(s, key, r, at) && who < |s.callers| && s.callers[who].key == key && s.clock < at + ttl
    ensures var t := Go1(ttl, s, who, outcome, pause);
            |t.callers| == |s.callers|
            && !t.callers[who].Cleared? && !t.callers[who].Computing? && !t.callers[who].Computed?
  {
    hide Stored, HasRoom;
  }

  lemma StaysWarm(ttl: int, s: State, step: Step, key: string, r: Result, at: int)
    requires Warm(s, key, r, at) && s.clock < at + ttl
    ensures Warm(Next(ttl, s, step), key, r, at)
  {
    var t := Next(ttl, s, step);
    if step.Go? && step.who < |s.callers| {
      GoMoves(ttl, s, step.who, step.outcome, step.pause);
      GoWrites(ttl, s, step.who, step.outcome, step.pause);
      var c := s.callers[step.who];
      if c.Computed? {
        StoredMeaning(ttl, s.values, c.key, c.result, s.clock, s.clock + step.pause);
      }
      if c.key == key {
        WarmCaller(ttl, s, step.who, step.outcome, step.pause, key, r, at);
      }
    }
    hide Go1, Stored, HasRoom;
  }

  lemma {:induction false} ClockOnlyAdvances(ttl: int, start: int, steps: seq<Step>, more: seq<Step>)
    ensures Run(ttl, start, steps).clock <= Run(ttl, start, steps + more).clock
  {
    hide Go1;
    if more == [] {
      assert steps + more == steps;
    } else {
      var all := steps + more;
      assert all[..|all| - 1] == steps + more[..|more| - 1];
      ClockOnlyAdvances(ttl, start, steps, more[..|more| - 1]);
      var s, step := Run(ttl, start, all[..|all| - 1]), all[|all| - 1];
      if step.Go? && step.who < |s.callers| {
        GoWrites(ttl, s, step.who, step.outcome, step.pause);
      }
    }
  }

  lemma {:induction false} RunStaysWarm(ttl: int, start: int, steps: seq<Step>, more: seq<Step>, key: string,
      r: Result, at: int)
    requires Warm(Run(ttl, start, steps), key, r, at) && Run(ttl, start, steps + more).clock < at + ttl
    ensures Warm(Run(ttl, start, steps + more), key, r, at)
  {
    hide Warm, Next;
    if more == [] {
      assert steps + more == steps;
    } else {
      var all, init := steps + more, more[..|more| - 1];
      assert all[..|all| - 1] == steps + init;
      ClockOnlyAdvances(ttl, start, steps + init, [more[|more| - 1]]);
      assert steps + init + [more[|more| - 1]] == all;
      RunStaysWarm(ttl, start, steps, init, key, r, at);
      StaysWarm(ttl, Run(ttl, start, steps + init), more[|more| - 1], key, r, at);
    }
  }

  /** From the save until its time to live is over every lookup of the key hits
      and returns the saved result, whatever else happens meanwhile. */
  lemma SavedIsServed(ttl: int, start: int, steps: seq<Step>, who: nat, outcome: Outcome, pause: nat, more: seq<Step>)
    requires var s := Run(ttl, start, steps);
             && who < |s.callers| && s.callers[who].Computed?
             && (|s.values| < MAX_CACHED || |FreshKeys(ttl, s.values, s.clock)| < MAX_CACHED)
    requires var at := Run(ttl, start, steps).clock + pause;
             Run(ttl, start, steps + [Go(who, outcome, pause)] + more).clock < at + ttl
    ensures var s, u := Run(ttl, start, steps), Run(ttl, start, steps + [Go(who, outcome, pause)] + more);
            var Computed(key, r) := s.callers[who];
            && key in u.values && u.values[key] == Entry(r, s.clock + pause)
            && Fresh(ttl, u.values, key, u.clock) == Some(r)
  {
    var s, saved := Run(ttl, start, steps), steps + [Go(who, outcome, pause)];
    var Computed(key, r) := s.callers[who];
    ComputedIsSaved(ttl, start, steps, who, outcome, pause);
    OnlyOneAirborne(ttl, start, steps, who, outcome, pause);
    RunStaysWarm(ttl, start, saved, more, key, r, s.clock + pause);
    hide Run, FreshKeys;
  }

  lemma {:induction false} OnlyOneAirborne(
    ttl: int, start: int, steps: seq<Step>, who: nat, outcome: Outcome, pause: nat)
    requires var s := Run(ttl, start, steps); who < |s.callers| && s.callers[who].Computed?
    ensures var (s, t) := (Run(ttl, start, steps), Run(ttl, start, steps + [Go(who, outcome, pause)]));
            forall i: nat :: i < |t.callers| && t.callers[i].key == s.callers[who].key ==>
              !t.callers[i].Cleared? && !t.callers[i].Computing? && !t.callers[i].Computed?
  {
    var s, steps' := Run(ttl, start, steps), steps + [Go(who, outcome, pause)];
    assert steps'[..|steps|] == steps;
    RunKeeps(ttl, start, steps);
    hide ToldHold, BooksHold, ColdHold, CooledDown, SavesAreSuccesses, Stored, HasRoom;
    var t := Run(ttl, start, steps');
    assert t == Go1(ttl, s, who, outcome, pause);
    hide Run;
    assert Placed(s, who);
    forall i: nat | i < |t.callers| && t.callers[i].key == s.callers[who].key
      ensures !t.callers[i].Cleared? && !t.callers[i].Computing? && !t.callers[i].Computed?
    {
      if i != who {
        assert Placed(s, i);
      }
    }
  }
}
