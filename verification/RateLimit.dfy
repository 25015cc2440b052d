/** A per-key token bucket with bounded memory (ratelimit.go).

    Time is real seconds; tokens are reals.  One call of Allow or Sweep is one
    step, as the mutex makes it; a run is the sequence of steps in lock order. */
module RateLimit {
  import opened FiniteSets
  import opened Reals

  datatype Bucket = Bucket(tokens: real, last: real)

  type Buckets = map<string, Bucket>

  /** The server builds a limiter only for a positive rate and a non-negative burst. */
  datatype Params = Params(burst: real, refill: real, maxKeys: int) {
    predicate Valid() {
      burst >= 0.0 && refill > 0.0
    }
  }

  /** `waved` marks the requests let through untracked because the map is full. */
  datatype Answer = Answer(allowed: bool, waved: bool, wait: real)

  /** The tokens added in d seconds. */
  function Earned(d: real, p: Params): real {
    d * p.refill
  }

  lemma EarnedAdds(d: real, e: real, p: Params)
    ensures Earned(d + e, p) == Earned(d, p) + Earned(e, p)
    ensures Earned(0.0, p) == 0.0
    ensures d >= 0.0 && p.refill > 0.0 ==> Earned(d, p) >= 0.0
    ensures e >= 0.0 && p.refill > 0.0 ==> Earned(e, p) >= 0.0
  {
  }

  // ---------- one step ----------

  function Refilled(p: Params, b: Bucket, now: real): Bucket {
    if now - b.last > 0.0 then Bucket(Min(p.burst, b.tokens + Earned(now - b.last, p)), now) else b
  }

  predicate Full(p: Params, b: Bucket, now: real) {
    b.tokens + Earned(now - b.last, p) >= p.burst
  }

  function Evicted(p: Params, m: Buckets, now: real): Buckets {
    map k | k in m && !Full(p, m[k], now) :: m[k]
  }

  /** The map once room was sought for a new key. */
  function Room(p: Params, m: Buckets, key: string, now: real): Buckets {
    if key !in m && |m| >= p.maxKeys then Evicted(p, m, now) else m
  }

  function AllowStep(p: Params, m: Buckets, key: string, now: real): (Buckets, Answer)
    requires p.Valid()
  {
    var room := Room(p, m, key, now);
    if key !in room && |room| >= p.maxKeys then (room, Answer(true, true, 0.0)) else Spend(p, room, key, now)
  }

  /** A tracked request: refill lazily, then take a whole token if there is one. */
  function Spend(p: Params, m: Buckets, key: string, now: real): (Buckets, Answer)
    requires p.Valid()
  {
    var b := Refilled(p, if key in m then m[key] else Bucket(p.burst, now), now);
    if b.tokens < 1.0 then (m[key := b], Answer(false, false, (1.0 - b.tokens) / p.refill))
    else (m[key := Bucket(b.tokens - 1.0, b.last)], Answer(true, false, 0.0))
  }

  class Limiter {
    const p: Params
    var buckets: Buckets

    constructor (p: Params)
      ensures this.p == p && buckets == map[]
    {
      this.p := p;
      buckets := map[];
    }

    /** evictLocked: drops every bucket that has refilled to full. */
    method EvictLocked(now: real) returns (dropped: nat)
      modifies this`buckets
      ensures buckets == Evicted(p, old(buckets), now)
      ensures dropped == |old(buckets)| - |buckets|
    {
      ghost var was := buckets;
      dropped := 0;
      var todo := buckets.Keys;
      while todo != {}
        invariant todo <= was.Keys
        invariant buckets == map k | k in was && (k in todo || !Full(p, was[k], now)) :: was[k]
        invariant dropped + |buckets| == |was|
        decreases todo
      {
        var key :| key in todo;
        todo := todo - {key};
        if Full(p, buckets[key], now) {
          assert (buckets - {key}).Keys == buckets.Keys - {key};
          buckets := buckets - {key};
          dropped := dropped + 1;
        }
      }
    }

    /** Sweep. */
    method Sweep(now: real) returns (dropped: nat)
      modifies this`buckets
      ensures buckets == Evicted(p, old(buckets), now)
      ensures dropped == |old(buckets)| - |buckets|
    {
      dropped := EvictLocked(now);
    }

    /** Allow. */
    method Allow(key: string, now: real) returns (ok: bool, wait: real)
      requires p.Valid()
      modifies this`buckets
      ensures buckets == AllowStep(p, old(buckets), key, now).0
      ensures ok == AllowStep(p, old(buckets), key, now).1.allowed
      ensures wait == AllowStep(p, old(buckets), key, now).1.wait
    {
      var b := Bucket(p.burst, now);
      if key in buckets {
        b := buckets[key];
      } else if |buckets| >= p.maxKeys {
        var _ := EvictLocked(now);
        if |buckets| >= p.maxKeys {
          return true, 0.0;
        }
      }
      var elapsed := now - b.last;
      if elapsed > 0.0 {
        b := Bucket(Min(p.burst, b.tokens + Earned(elapsed, p)), now);
      }
      if b.tokens < 1.0 {
        buckets := buckets[key := b];
        return false, (1.0 - b.tokens) / p.refill;
      }
      buckets := buckets[key := Bucket(b.tokens - 1.0, b.last)];
      return true, 0.0;
    }
  }

  // ---------- runs ----------

  datatype Op = Ask(key: string, now: real) | SweepAt(now: real)

  function Step(p: Params, m: Buckets, op: Op): Buckets
    requires p.Valid()
  {
    match op
    case Ask(key, now) => AllowStep(p, m, key, now).0
    case SweepAt(now) => Evicted(p, m, now)
  }

  function Run(p: Params, ops: seq<Op>): Buckets
    requires p.Valid()
  {
    if ops == [] then map[] else Step(p, Run(p, ops[..|ops| - 1]), ops[|ops| - 1])
  }

  /** The answer to the last step of a run, when that is a request. */
  function Reply(p: Params, ops: seq<Op>): Answer
    requires p.Valid() && ops != [] && ops[|ops| - 1].Ask?
  {
    AllowStep(p, Run(p, ops[..|ops| - 1]), ops[|ops| - 1].key, ops[|ops| - 1].now).1
  }

  /** The steps happen in clock order. */
  ghost predicate ClockOrdered(ops: seq<Op>) {
    forall i, j :: 0 <= i < j < |ops| ==> ops[i].now <= ops[j].now
  }

  /** No request of this key was waved through at capacity. */
  ghost predicate NeverWaved(p: Params, ops: seq<Op>, key: string)
    requires p.Valid()
  {
    ops == [] ||
    (NeverWaved(p, ops[..|ops| - 1], key)
     && (ops[|ops| - 1].Ask? && ops[|ops| - 1].key == key ==> !Reply(p, ops).waved))
  }

  // ---------- the level of a key ----------

  /** The tokens a key would find at time t; a key without a bucket finds a full one. */
  function Level(p: Params, m: Buckets, key: string, t: real): real {
    if key in m then Min(p.burst, m[key].tokens + Earned(t - m[key].last, p)) else p.burst
  }

  ghost predicate Sane(p: Params, m: Buckets, now: real) {
    forall k <- m :: 0.0 <= m[k].tokens <= p.burst && m[k].last <= now
  }

  lemma LevelBounds(p: Params, m: Buckets, key: string, t: real)
    requires p.Valid() && Sane(p, m, t)
    ensures 0.0 <= Level(p, m, key, t) <= p.burst
  {
    hide Earned;
    if key in m {
      EarnedAdds(t - m[key].last, 0.0, p);
    }
  }

  /** Time passing refills a key at the given rate, up to the burst. */
  lemma LevelGrows(p: Params, m: Buckets, key: string, t: real, u: real)
    requires p.Valid() && Sane(p, m, t) && t <= u
    ensures Level(p, m, key, u) == Min(p.burst, Level(p, m, key, t) + Earned(u - t, p))
    ensures Earned(u - t, p) >= 0.0
  {
    hide Earned;
    EarnedAdds(u - t, 0.0, p);
    if key in m {
      EarnedAdds(t - m[key].last, u - t, p);
      assert t - m[key].last + (u - t) == u - m[key].last;
    }
  }

  /** Dropping full buckets changes no key's level. */
  lemma EvictionKeepsLevels(p: Params, m: Buckets, key: string, now: real)
    ensures Level(p, Evicted(p, m, now), key, now) == Level(p, m, key, now)
  {
  }

  lemma EvictionKeepsSane(p: Params, m: Buckets, now: real)
    requires Sane(p, m, now)
    ensures Sane(p, Evicted(p, m, now), now)
  {
  }

  lemma SpendLevels(p: Params, m: Buckets, key: string, now: real)
    requires p.Valid() && Sane(p, m, now)
    ensures var (m', a) := Spend(p, m, key, now);
            && !a.waved
            && (a.allowed <==> Level(p, m, key, now) >= 1.0)
            && (!a.allowed ==> a.wait == (1.0 - Level(p, m, key, now)) / p.refill)
            && Level(p, m', key, now) == Level(p, m, key, now) - (if a.allowed then 1.0 else 0.0)
            && m'[key].last == now && 0.0 <= m'[key].tokens <= p.burst
  {
    hide Earned;
    LevelBounds(p, m, key, now);
    var b := if key in m then m[key] else Bucket(p.burst, now);
    EarnedAdds(now - b.last, 0.0, p);
    EarnedAdds(now - now, 0.0, p);
  }

  lemma SpendOthers(p: Params, m: Buckets, key: string, now: real, other: string)
    requires p.Valid() && Sane(p, m, now)
    ensures Sane(p, Spend(p, m, key, now).0, now)
    ensures other != key ==> Level(p, Spend(p, m, key, now).0, other, now) == Level(p, m, other, now)
  {
    SpendLevels(p, m, key, now);
    hide Earned, Refilled;
  }

  /** A tracked request succeeds just when its key has a whole token, and then
      costs one; no other key notices. */
  lemma AllowStepLevels(p: Params, m: Buckets, key: string, now: real, other: string)
    requires p.Valid() && Sane(p, m, now)
    ensures var (m', a) := AllowStep(p, m, key, now);
            && Sane(p, m', now)
            && (!a.waved ==>
                  && (a.allowed <==> Level(p, m, key, now) >= 1.0)
                  && (!a.allowed ==> a.wait == (1.0 - Level(p, m, key, now)) / p.refill)
                  && Level(p, m', key, now) == Level(p, m, key, now) - (if a.allowed then 1.0 else 0.0))
            && (a.waved ==> a.allowed)
            && (other != key ==> Level(p, m', other, now) == Level(p, m, other, now))
  {
    EvictionKeepsSane(p, m, now);
    EvictionKeepsLevels(p, m, key, now);
    EvictionKeepsLevels(p, m, other, now);
    var room := Room(p, m, key, now);
    SpendLevels(p, room, key, now);
    SpendOthers(p, room, key, now, other);
    hide Evicted, Spend, Level, Sane;
  }

  // ---------- a limiter that never drops a bucket ----------

  /** The same limiter with no cap and no eviction. */
  function IdealRun(p: Params, ops: seq<Op>): Buckets
    requires p.Valid()
  {
    if ops == [] then map[]
    else
      var before, op := IdealRun(p, ops[..|ops| - 1]), ops[|ops| - 1];
      if op.Ask? then Spend(p, before, op.key, op.now).0 else before
  }

  function IdealReply(p: Params, ops: seq<Op>): Answer
    requires p.Valid() && ops != [] && ops[|ops| - 1].Ask?
  {
    Spend(p, IdealRun(p, ops[..|ops| - 1]), ops[|ops| - 1].key, ops[|ops| - 1].now).1
  }

  lemma PrefixOrdered(ops: seq<Op>)
    requires ClockOrdered(ops) && ops != []
    ensures ClockOrdered(ops[..|ops| - 1])
    ensures forall op <- ops[..|ops| - 1] :: op.now <= ops[|ops| - 1].now
  {
    var init := ops[..|ops| - 1];
    assert forall i :: 0 <= i < |init| ==> init[i] == ops[i];
  }

  lemma SaneLater(p: Params, m: Buckets, t: real, u: real)
    requires Sane(p, m, t) && t <= u
    ensures Sane(p, m, u)
  {
  }

  /** After a run in clock order every bucket is within bounds and no key's
      level differs from the ideal limiter's, unless it was waved through. */
  lemma {:induction false} TracksIdeal(p: Params, ops: seq<Op>, key: string, now: real)
    requires p.Valid() && ClockOrdered(ops) && forall op <- ops :: op.now <= now
    ensures Sane(p, Run(p, ops), now) && Sane(p, IdealRun(p, ops), now)
    ensures NeverWaved(p, ops, key) ==> Level(p, Run(p, ops), key, now) == Level(p, IdealRun(p, ops), key, now)
  {
    if ops != [] {
      var init, op := ops[..|ops| - 1], ops[|ops| - 1];
      assert op in ops;
      PrefixOrdered(ops);
      TracksIdeal(p, init, key, op.now);
      TracksIdealStep(p, ops, key);
      hide Run, IdealRun, NeverWaved, Level;
      SaneLater(p, Run(p, ops), op.now, now);
      SaneLater(p, IdealRun(p, ops), op.now, now);
      LevelGrows(p, Run(p, ops), key, op.now, now);
      LevelGrows(p, IdealRun(p, ops), key, op.now, now);
    }
  }

  lemma TracksIdealStep(p: Params, ops: seq<Op>, key: string)
    requires p.Valid() && ops != []
    requires var init, now := ops[..|ops| - 1], ops[|ops| - 1].now;
             && Sane(p, Run(p, init), now) && Sane(p, IdealRun(p, init), now)
             && (NeverWaved(p, init, key) ==> Level(p, Run(p, init), key, now) == Level(p, IdealRun(p, init), key, now))
    ensures var now := ops[|ops| - 1].now;
            && Sane(p, Run(p, ops), now) && Sane(p, IdealRun(p, ops), now)
            && (NeverWaved(p, ops, key) ==> Level(p, Run(p, ops), key, now) == Level(p, IdealRun(p, ops), key, now))
  {
    var init, op := ops[..|ops| - 1], ops[|ops| - 1];
    var m, r := Run(p, init), IdealRun(p, init);
    if op.Ask? {
      AllowStepLevels(p, m, op.key, op.now, key);
      SpendLevels(p, r, op.key, op.now);
      SpendOthers(p, r, op.key, op.now, key);
    } else {
      EvictionKeepsSane(p, m, op.now);
      EvictionKeepsLevels(p, m, key, op.now);
    }
    hide AllowStep, Spend, Evicted, Level, Sane;
  }

  /** Sweeping and evicting change no answer: a key that was never waved
      through is answered just as a limiter that never drops a bucket would. */
  lemma SameAsNeverDropping(p: Params, ops: seq<Op>)
    requires p.Valid() && ClockOrdered(ops) && ops != [] && ops[|ops| - 1].Ask?
    requires NeverWaved(p, ops, ops[|ops| - 1].key)
    ensures Reply(p, ops) == IdealReply(p, ops)
  {
    var init, op := ops[..|ops| - 1], ops[|ops| - 1];
    PrefixOrdered(ops);
    TracksIdeal(p, init, op.key, op.now);
    AllowStepLevels(p, Run(p, init), op.key, op.now, op.key);
    SpendLevels(p, IdealRun(p, init), op.key, op.now);
    AnswerShape(p, Run(p, init), op.key, op.now);
    AnswerShape(p, IdealRun(p, init), op.key, op.now);
    hide AllowStep, Spend, Run, IdealRun, Level;
  }

  lemma AnswerShape(p: Params, m: Buckets, key: string, now: real)
    requires p.Valid()
    ensures var a := AllowStep(p, m, key, now).1; a.allowed ==> a.wait == 0.0
    ensures var a := Spend(p, m, key, now).1; a.allowed ==> a.wait == 0.0
  {
  }

  // ---------- at capacity ----------

  /** The keys whose bucket is short of a full burst at `now`. */
  function ShortKeys(p: Params, m: Buckets, now: real): set<string> {
    set k | k in m && m[k].tokens + p.refill * (now - m[k].last) < p.burst
  }

  lemma EvictedMeaning(p: Params, m: Buckets, now: real)
    ensures Evicted(p, m, now).Keys == ShortKeys(p, m, now)
    ensures forall k <- Evicted(p, m, now) :: k in m && Evicted(p, m, now)[k] == m[k]
  {
    forall k <- m ensures Full(p, m[k], now) <==> m[k].tokens + p.refill * (now - m[k].last) >= p.burst {
      assert Earned(now - m[k].last, p) == p.refill * (now - m[k].last);
    }
    hide Full;
  }

  /** A request is waved through just when its key is new, the map is full, and
      evicting every full bucket would leave it so; full buckets are dropped just
      when a new key finds the map full, and no other key's bucket changes. */
  lemma WavedAtCapacityOnly(p: Params, m: Buckets, key: string, now: real, other: string)
    requires p.Valid()
    ensures var (after, a) := AllowStep(p, m, key, now);
            var full := key !in m && |m| >= p.maxKeys;
            && (a.waved <==> full && |ShortKeys(p, m, now)| >= p.maxKeys)
            && (a.waved ==> a.allowed && key !in after)
            && (!a.waved ==> key in after)
            && (other != key ==> (other in after <==> other in m && (full ==> other in ShortKeys(p, m, now))))
            && (other != key && other in after ==> after[other] == m[other])
  {
    EvictedMeaning(p, m, now);
    assert |Evicted(p, m, now)| == |Evicted(p, m, now).Keys|;
    SpendTouchesOne(p, Room(p, m, key, now), key, now, other);
    hide Evicted, Spend, ShortKeys;
  }

  lemma SpendTouchesOne(p: Params, m: Buckets, key: string, now: real, other: string)
    requires p.Valid()
    ensures var (after, a) := Spend(p, m, key, now);
            && !a.waved && key in after
            && (other != key ==> (other in after <==> other in m) && (other in m ==> after[other] == m[other]))
  {
    hide Refilled;
  }

  // ---------- memory ----------

  /** The map never outgrows its cap. */
  lemma {:induction false} KeysBounded(p: Params, ops: seq<Op>)
    requires p.Valid() && p.maxKeys >= 0
    ensures |Run(p, ops)| <= p.maxKeys
  {
    if ops != [] {
      var init, op := ops[..|ops| - 1], ops[|ops| - 1];
      KeysBounded(p, init);
      var m := Run(p, init);
      EvictedIsSmaller(p, m, op.now);
      if op.Ask? {
        SpendKeys(p, Room(p, m, op.key, op.now), op.key, op.now);
      }
      hide Spend, Evicted;
    }
  }

  lemma SpendKeys(p: Params, m: Buckets, key: string, now: real)
    requires p.Valid()
    ensures |Spend(p, m, key, now).0| == if key in m then |m| else |m| + 1
  {
    hide Refilled;
    var after := Spend(p, m, key, now).0;
    if key in m {
      assert after.Keys == m.Keys;
    } else {
      assert after.Keys == m.Keys + {key};
    }
  }

  lemma EvictedIsSmaller(p: Params, m: Buckets, now: real)
    ensures |Evicted(p, m, now)| <= |m|
  {
    SubsetSize(Evicted(p, m, now).Keys, m.Keys);
  }

  // ---------- Retry-After ----------

  /** The whole seconds a refused caller is told to wait: the wait, truncated to
      nanoseconds, truncated to seconds, plus one. */
  function RetryAfter(wait: real): int {
    (wait * 1_000_000_000.0).Floor / 1_000_000_000 + 1
  }

  lemma RetryAfterCovers(wait: real)
    ensures RetryAfter(wait) as real >= wait
  {
    var nanos := (wait * 1_000_000_000.0).Floor;
    assert nanos as real + 1.0 > wait * 1_000_000_000.0;
    assert (nanos / 1_000_000_000 + 1) * 1_000_000_000 >= nanos + 1;
    assert ((nanos / 1_000_000_000 + 1) * 1_000_000_000) as real ==
        (nanos / 1_000_000_000 + 1) as real * 1_000_000_000.0;
  }

  /** Steps that do not concern the key. */
  ghost predicate Elsewhere(ops: seq<Op>, key: string) {
    forall op <- ops :: op.Ask? ==> op.key != key
  }

  function RunFrom(p: Params, m: Buckets, ops: seq<Op>): Buckets
    requires p.Valid()
  {
    if ops == [] then m else Step(p, RunFrom(p, m, ops[..|ops| - 1]), ops[|ops| - 1])
  }

  lemma ElsewhereStep(p: Params, m: Buckets, op: Op, key: string)
    requires p.Valid() && Sane(p, m, op.now) && (op.Ask? ==> op.key != key)
    ensures Sane(p, Step(p, m, op), op.now)
    ensures Level(p, Step(p, m, op), key, op.now) == Level(p, m, key, op.now)
  {
    if op.Ask? {
      AllowStepLevels(p, m, op.key, op.now, key);
    } else {
      EvictionKeepsSane(p, m, op.now);
      EvictionKeepsLevels(p, m, key, op.now);
    }
    hide AllowStep, Evicted, Level, Sane;
  }

  /** What others do never moves a key's level. */
  lemma {:induction false} LevelElsewhere(p: Params, m: Buckets, ops: seq<Op>, key: string, t: real, u: real)
    requires p.Valid() && ClockOrdered(ops) && Elsewhere(ops, key) && Sane(p, m, t) && t <= u
    requires forall op <- ops :: t <= op.now <= u
    ensures Sane(p, RunFrom(p, m, ops), u)
    ensures Level(p, RunFrom(p, m, ops), key, u) == Level(p, m, key, u)
  {
    if ops == [] {
      SaneLater(p, m, t, u);
    } else {
      var init, op := ops[..|ops| - 1], ops[|ops| - 1];
      assert op in ops && forall o <- init :: o in ops;
      PrefixOrdered(ops);
      LevelElsewhere(p, m, init, key, t, op.now);
      ElsewhereStep(p, RunFrom(p, m, init), op, key);
      LevelsStayEqual(p, m, RunFrom(p, m, ops), key, t, op.now, u);
      hide Step, Level, Sane;
    }
  }

  lemma LevelsStayEqual(p: Params, m: Buckets, after: Buckets, key: string, t: real, mid: real, u: real)
    requires p.Valid() && Sane(p, m, t) && Sane(p, after, mid) && t <= mid <= u
    requires Level(p, after, key, mid) == Level(p, m, key, mid)
    ensures Sane(p, after, u)
    ensures Level(p, after, key, u) == Level(p, m, key, u)
  {
    hide Level, Earned;
    SaneLater(p, m, t, mid);
    SaneLater(p, after, mid, u);
    LevelGrows(p, after, key, mid, u);
    LevelGrows(p, m, key, mid, u);
  }

  /** A refused caller who waits out Retry-After is let through, whatever other
      callers do meanwhile, exactly when the burst holds a whole token; with a
      smaller burst no tracked request ever is. */
  lemma RetryHonoured(p: Params, m: Buckets, key: string, now: real, ops: seq<Op>, later: real)
    requires p.Valid() && Sane(p, m, now)
    requires !AllowStep(p, m, key, now).1.allowed
    requires ClockOrdered(ops) && Elsewhere(ops, key) && forall op <- ops :: now <= op.now <= later
    requires later >= now + RetryAfter(AllowStep(p, m, key, now).1.wait) as real
    requires var after := RunFrom(p, AllowStep(p, m, key, now).0, ops); !AllowStep(p, after, key, later).1.waved
    ensures var after := RunFrom(p, AllowStep(p, m, key, now).0, ops);
            AllowStep(p, after, key, later).1.allowed <==> p.burst >= 1.0
  {
    hide Earned, AllowStep, Level, RetryAfter, RunFrom, Sane;
    var (m', a) := AllowStep(p, m, key, now);
    AllowStepLevels(p, m, key, now, key);
    RetryAfterCovers(a.wait);
    WaitIsNonNegative(p, Level(p, m, key, now), a.wait);
    LevelElsewhere(p, m', ops, key, now, later);
    LevelGrows(p, m', key, now, later);
    AllowStepLevels(p, RunFrom(p, m', ops), key, later, key);
    WaitEarns(p, Level(p, m, key, now), a.wait, later - now);
  }

  lemma WaitIsNonNegative(p: Params, level: real, wait: real)
    requires p.Valid() && level < 1.0 && wait == (1.0 - level) / p.refill
    ensures wait >= 0.0
  {
  }

  lemma WaitEarns(p: Params, level: real, wait: real, d: real)
    requires p.Valid() && wait == (1.0 - level) / p.refill && d >= wait
    ensures level + Earned(d, p) >= 1.0
  {
    assert wait * p.refill == 1.0 - level;
    assert (d - wait) * p.refill >= 0.0;
    assert d * p.refill == wait * p.refill + (d - wait) * p.refill;
  }
}
