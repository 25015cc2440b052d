/** The rate a limiter keeps to, in terms of the clock readings its steps work
    with (ratelimit.go).

    Allow reads the clock before it takes the lock, so readings need not arrive
    in order.  Here is exactly which sequences of readings keep every key that is
    never waved through to its burst plus what the rate earns. */
module RateBounds {
  import opened Reals
  import opened RateLimit

  // ---------- what is bounded ----------

  function Readings(ops: seq<Op>): seq<real> {
    seq(|ops|, i requires 0 <= i < |ops| => ops[i].now)
  }

  /** How many requests of the key with a time in [t0, t1] were allowed. */
  ghost function AllowedWithin(p: Params, ops: seq<Op>, key: string, t0: real, t1: real): nat
    requires p.Valid()
  {
    if ops == [] then 0
    else AllowedWithin(p, ops[..|ops| - 1], key, t0, t1) + (if GrantsWithin(p, ops, key, t0, t1) then 1 else 0)
  }

  /** The last step allows a request of the key with a time in [t0, t1]. */
  ghost predicate GrantsWithin(p: Params, ops: seq<Op>, key: string, t0: real, t1: real)
    requires p.Valid() && ops != []
  {
    var op := ops[|ops| - 1];
    op.Ask? && op.key == key && t0 <= op.now <= t1 && Reply(p, ops).allowed
  }

  /** After a rise from ts[i] to ts[j] and a fall below ts[j] by the k-th
      reading, ts[l] is at least as far below ts[i] as ts[j] was above it. */
  predicate KeepsClear(ts: seq<real>, i: nat, j: nat, k: nat, l: nat)
    requires i < j < k <= l < |ts|
  {
    ts[i] < ts[j] && ts[k] < ts[j] ==> ts[l] <= ts[i] - (ts[j] - ts[i])
  }

  /** Readings that, once they fall back behind a rise, keep clear of it for good. */
  ghost predicate FallsBackForGood(ts: seq<real>) {
    forall i: nat, j: nat, k: nat, l: nat :: i < j < k <= l < |ts| ==> KeepsClear(ts, i, j, k, l)
  }

  // ---------- the shape of such readings ----------

  function Last(ts: seq<real>): real
    requires ts != []
  {
    ts[|ts| - 1]
  }

  function Lowest(ts: seq<real>): real
    requires ts != []
  {
    if |ts| == 1 then ts[0] else Min(Lowest(ts[..|ts| - 1]), Last(ts))
  }

  lemma {:induction false} LowestMeaning(ts: seq<real>)
    requires ts != []
    ensures exists i :: 0 <= i < |ts| && ts[i] == Lowest(ts)
    ensures forall i :: 0 <= i < |ts| ==> Lowest(ts) <= ts[i]
  {
    if |ts| == 1 {
      assert ts[0] == Lowest(ts);
    } else {
      var init := ts[..|ts| - 1];
      LowestMeaning(init);
      var i :| 0 <= i < |init| && init[i] == Lowest(init);
      var least := if Lowest(init) <= Last(ts) then i else |ts| - 1;
      assert ts[least] == Lowest(ts);
      forall k | 0 <= k < |ts| ensures Lowest(ts) <= ts[k] {
        assert k < |init| ==> ts[k] == init[k];
      }
    }
  }

  /** The last reading falls below one that had risen from the lowest. */
  predicate Drops(ts: seq<real>)
    requires |ts| > 1
  {
    Last(ts) < Last(ts[..|ts| - 1]) && Lowest(ts[..|ts| - 1]) < Last(ts[..|ts| - 1])
  }

  /** No reading up to t1 from here on is above this. */
  function Ceiling(ts: seq<real>, t1: real): (c: real)
    requires ts != []
    ensures c <= t1
  {
    if |ts| == 1 then t1
    else
      var init := ts[..|ts| - 1];
      if Drops(ts) then Min(t1, Lowest(init) - (Last(init) - Lowest(init))) else Ceiling(init, t1)
  }

  lemma {:induction false} CeilingHolds(ts: seq<real>, n: nat, l: nat, t1: real, y: real)
    requires FallsBackForGood(ts) && 1 <= n <= l + 1 <= |ts| && y <= ts[l] && y <= t1
    ensures y <= Ceiling(ts[..n], t1)
    decreases n
  {
    hide Lowest;
    if n > 1 {
      var now, init := ts[..n], ts[..n - 1];
      assert now[..n - 1] == init;
      if Drops(now) {
        LowestMeaning(init);
        var i :| 0 <= i < |init| && init[i] == Lowest(init);
        assert KeepsClear(ts, i, n - 2, n - 1, l);
      } else {
        CeilingHolds(ts, n - 1, l, t1, y);
      }
    }
  }

  lemma PrefixFallsBack(ts: seq<real>, n: nat)
    requires FallsBackForGood(ts) && n <= |ts|
    ensures FallsBackForGood(ts[..n])
  {
    forall i: nat, j: nat, k: nat, l: nat | i < j < k <= l < n ensures KeepsClear(ts[..n], i, j, k, l) {
      assert KeepsClear(ts, i, j, k, l);
    }
  }

  // ---------- the tokens of a key ----------

  /** The tokens a request reading s would find. */
  function Avail(p: Params, m: Buckets, key: string, s: real): real {
    if key in m then Refilled(p, m[key], s).tokens else p.burst
  }

  ghost predicate Bounded(p: Params, m: Buckets) {
    forall k <- m :: 0.0 <= m[k].tokens <= p.burst
  }

  lemma EarnedOrder(p: Params, d: real, e: real)
    requires p.refill > 0.0
    ensures d <= e ==> Earned(d, p) <= Earned(e, p)
    ensures d >= 0.0 ==> Earned(d, p) >= 0.0
    ensures d <= 0.0 ==> Earned(d, p) <= 0.0
  {
    assert d <= e ==> (e - d) * p.refill >= 0.0;
    assert e * p.refill == d * p.refill + (e - d) * p.refill;
  }

  lemma AvailBounds(p: Params, m: Buckets, key: string, s: real, t: real)
    requires p.Valid() && Bounded(p, m) && s <= t
    ensures 0.0 <= Avail(p, m, key, s) <= Avail(p, m, key, t) <= p.burst
  {
    hide Earned;
    if key in m {
      EarnedOrder(p, s - m[key].last, t - m[key].last);
      EarnedOrder(p, t - m[key].last, 0.0);
    }
  }

  /** Eviction at time e changes no later request's tokens. */
  lemma EvictedAvail(p: Params, m: Buckets, key: string, e: real, s: real)
    requires p.Valid() && Bounded(p, m) && e <= s
    ensures Bounded(p, Evicted(p, m, e))
    ensures Avail(p, Evicted(p, m, e), key, s) == Avail(p, m, key, s)
  {
    hide Earned;
    if key in m {
      EarnedOrder(p, e - m[key].last, s - m[key].last);
      EarnedOrder(p, s - m[key].last, 0.0);
    }
  }

  /** A tracked request succeeds just when its key has a whole token, and costs one. */
  lemma SpendAvail(p: Params, m: Buckets, key: string, now: real, s: real)
    requires p.Valid() && Bounded(p, m) && now <= s
    ensures var (after, a) := Spend(p, m, key, now);
            && Bounded(p, after)
            && (a.allowed <==> Avail(p, m, key, now) >= 1.0)
            && Avail(p, after, key, s) <= Avail(p, m, key, s)
            && (a.allowed ==> Avail(p, after, key, s) <= Avail(p, m, key, now) - 1.0 + Earned(s - now, p))
  {
    hide Earned;
    var b := if key in m then m[key] else Bucket(p.burst, now);
    EarnedOrder(p, now - b.last, s - b.last);
    EarnedOrder(p, s - b.last, s - now);
    EarnedOrder(p, s - now, 0.0);
    EarnedAdds(now - b.last, s - now, p);
    assert now - b.last + (s - now) == s - b.last;
  }

  lemma SpendElsewhere(p: Params, m: Buckets, key: string, now: real, other: string)
    requires p.Valid() && other != key
    ensures forall s :: Avail(p, Spend(p, m, key, now).0, other, s) == Avail(p, m, other, s)
  {
    hide Refilled;
  }

  /** One step leaves the key's tokens alone, or takes one when it grants. */
  lemma StepAvail(p: Params, m: Buckets, op: Op, key: string, s: real)
    requires p.Valid() && Bounded(p, m) && op.now <= s
    requires op.Ask? && op.key == key ==> !AllowStep(p, m, key, op.now).1.waved
    ensures var after := Step(p, m, op);
            && Bounded(p, after)
            && Avail(p, after, key, s) <= Avail(p, m, key, s)
            && (op.Ask? && op.key == key && AllowStep(p, m, key, op.now).1.allowed ==>
                  && Avail(p, m, key, op.now) >= 1.0
                  && Avail(p, after, key, s) <= Avail(p, m, key, op.now) - 1.0 + Earned(s - op.now, p))
  {
    hide Evicted, Spend, Avail, Bounded;
    EvictedAvail(p, m, key, op.now, s);
    EvictedAvail(p, m, key, op.now, op.now);
    if op.Ask? {
      var room := Room(p, m, op.key, op.now);
      SpendAvail(p, room, op.key, op.now, s);
      if op.key != key {
        SpendElsewhere(p, room, op.key, op.now, key);
      }
    }
  }

  // ---------- the budget line ----------

  /** What may have been granted by a request reading s: a burst, what was
      earned on rises now left behind, and what is earned from `low` on. */
  function Line(p: Params, low: real, lag: real, s: real): real {
    p.burst + Earned(lag + Max(0.0, s - low), p)
  }

  /** Tokens granted and tokens to be had stay under the line from reading `from` on. */
  ghost predicate Under(p: Params, m: Buckets, n: nat, key: string, from: real, low: real, lag: real) {
    forall s: real :: s >= from ==> n as real + Avail(p, m, key, s) <= Line(p, low, lag, s)
  }

  lemma LineOrder(p: Params, low: real, lag: real, s: real, low': real, lag': real, s': real)
    requires p.Valid() && lag + Max(0.0, s - low) <= lag' + Max(0.0, s' - low')
    ensures Line(p, low, lag, s) <= Line(p, low', lag', s')
  {
    hide Earned;
    EarnedOrder(p, lag + Max(0.0, s - low), lag' + Max(0.0, s' - low'));
  }

  lemma NothingGranted(p: Params, m: Buckets, key: string, from: real, low: real, lag: real)
    requires p.Valid() && Bounded(p, m) && lag >= 0.0
    ensures Under(p, m, 0, key, from, low, lag)
  {
    hide Avail, Earned;
    forall s: real | s >= from ensures Avail(p, m, key, s) <= Line(p, low, lag, s) {
      AvailBounds(p, m, key, s, s);
      EarnedOrder(p, lag + Max(0.0, s - low), 0.0);
    }
  }

  /** A later reading is no lower: the same line. */
  lemma Rising(p: Params, m: Buckets, n: nat, key: string, from: real, to: real, low: real, low': real, lag: real)
    requires p.Valid() && from <= to && low' <= low && Under(p, m, n, key, from, low, lag)
    ensures Under(p, m, n, key, to, low', lag)
  {
    hide Avail, Line;
    forall s: real | s >= to ensures n as real + Avail(p, m, key, s) <= Line(p, low', lag, s) {
      LineOrder(p, low, lag, s, low', lag, s);
    }
  }

  /** A later reading is lower: the rise so far is left behind. */
  lemma Falling(p: Params, m: Buckets, n: nat, key: string, from: real, to: real, low: real, low': real, lag: real,
      lag': real)
    requires p.Valid() && Bounded(p, m) && low' <= low && lag + Max(0.0, from - low) <= lag'
    requires Under(p, m, n, key, from, low, lag)
    ensures Under(p, m, n, key, to, low', lag')
  {
    hide Avail, Line;
    forall s: real | s >= to ensures n as real + Avail(p, m, key, s) <= Line(p, low', lag', s) {
      if s >= from {
        LineOrder(p, low, lag, s, low', lag', s);
      } else {
        AvailBounds(p, m, key, s, from);
        LineOrder(p, low, lag, from, low', lag', s);
      }
    }
  }

  /** A step at reading x keeps to the line, and a request it grants is under it. */
  lemma StepUnder(p: Params, m: Buckets, n: nat, op: Op, key: string, low: real, lag: real, grants: bool)
    requires p.Valid() && Bounded(p, m) && Under(p, m, n, key, op.now, low, lag)
    requires op.Ask? && op.key == key ==> !AllowStep(p, m, key, op.now).1.waved
    requires grants ==> op.Ask? && op.key == key && AllowStep(p, m, key, op.now).1.allowed && low <= op.now
    ensures grants ==> n as real + 1.0 <= Line(p, low, lag, op.now)
    ensures Under(p, Step(p, m, op), if grants then n + 1 else n, key, op.now, low, lag)
  {
    hide Avail, Step, AllowStep, Bounded, Earned;
    var after, x := Step(p, m, op), op.now;
    StepAvail(p, m, op, key, x);
    assert n as real + Avail(p, m, key, x) <= Line(p, low, lag, x);
    forall s: real | s >= x
      ensures (if grants then n + 1 else n) as real + Avail(p, after, key, s) <= Line(p, low, lag, s)
    {
      StepAvail(p, m, op, key, s);
      if grants {
        EarnedAdds(lag + (x - low), s - x, p);
        assert lag + (x - low) + (s - x) == lag + (s - low);
      }
    }
  }

  // ---------- every run ----------

  /** What holds of a key after steps with readings ts, n of its requests granted in [t0, t1]. */
  ghost predicate Holds(p: Params, m: Buckets, n: nat, key: string, ts: seq<real>, t0: real, t1: real)
    requires ts != []
  {
    && Bounded(p, m)
    && n as real <= p.burst + Earned(t1 - t0, p)
    && (n > 0 ==> Lowest(ts) <= t1)
    && (Ceiling(ts, t1) >= t0 ==> Under(p, m, n, key, Last(ts), Max(Lowest(ts), t0), t1 - Ceiling(ts, t1)))
  }

  lemma HoldsAtFirst(p: Params, key: string, x: real, t0: real, t1: real)
    requires p.Valid() && t0 <= t1
    ensures Holds(p, map[], 0, key, [x], t0, t1)
  {
    hide Avail, Under;
    EarnedOrder(p, t1 - t0, 0.0);
    NothingGranted(p, map[], key, x, Max(x, t0), 0.0);
  }

  /** The next step reads the clock. */
  lemma Arrives(p: Params, m: Buckets, n: nat, key: string, ts: seq<real>, t0: real, t1: real)
    requires p.Valid() && t0 <= t1 && |ts| > 1 && FallsBackForGood(ts)
    requires Holds(p, m, n, key, ts[..|ts| - 1], t0, t1)
    ensures Holds(p, m, n, key, ts, t0, t1)
  {
    hide Avail, Under, Bounded, Earned, FallsBackForGood;
    var init, x := ts[..|ts| - 1], Last(ts);
    var cur, least, low := Last(init), Lowest(init), Max(Lowest(init), t0);
    LowestMeaning(init);
    assert cur == init[|init| - 1];
    assert Lowest(ts) == Min(least, x);
    if Ceiling(ts, t1) >= t0 {
      if !Drops(ts) {
        if x >= cur {
          Rising(p, m, n, key, cur, x, low, Max(Lowest(ts), t0), t1 - Ceiling(init, t1));
        } else {
          Falling(p, m, n, key, cur, x, low, Max(Lowest(ts), t0), t1 - Ceiling(init, t1), t1 - Ceiling(ts, t1));
        }
      } else if n == 0 {
        NothingGranted(p, m, key, x, Max(Lowest(ts), t0), t1 - Ceiling(ts, t1));
      } else {
        PrefixFallsBack(ts, |ts| - 1);
        LowestUnderCeiling(init, t1);
        Falling(p, m, n, key, cur, x, low, Max(Lowest(ts), t0), t1 - Ceiling(init, t1), t1 - Ceiling(ts, t1));
      }
    }
  }

  lemma LowestUnderCeiling(ts: seq<real>, t1: real)
    requires ts != [] && FallsBackForGood(ts) && Lowest(ts) <= t1
    ensures Lowest(ts) <= Ceiling(ts, t1)
  {
    hide Ceiling, FallsBackForGood;
    LowestMeaning(ts);
    assert ts[..|ts|] == ts;
    CeilingHolds(ts, |ts|, |ts| - 1, t1, Lowest(ts));
  }

  /** The step itself. */
  lemma Acts(p: Params, m: Buckets, n: nat, op: Op, key: string, ts: seq<real>, t0: real, t1: real, grants: bool)
    requires p.Valid() && t0 <= t1 && ts != [] && FallsBackForGood(ts) && op.now == Last(ts)
    requires Holds(p, m, n, key, ts, t0, t1)
    requires op.Ask? && op.key == key ==> !AllowStep(p, m, key, op.now).1.waved
    requires grants <==> op.Ask? && op.key == key && t0 <= op.now <= t1 && AllowStep(p, m, key, op.now).1.allowed
    ensures Holds(p, Step(p, m, op), if grants then n + 1 else n, key, ts, t0, t1)
  {
    hide Avail, Under, Bounded, Earned, FallsBackForGood, AllowStep, Ceiling, Lowest, Step;
    var x, top := op.now, Ceiling(ts, t1);
    LowestMeaning(ts);
    assert ts[..|ts|] == ts && x == ts[|ts| - 1];
    StepAvail(p, m, op, key, x);
    if grants {
      CeilingHolds(ts, |ts|, |ts| - 1, t1, x);
    }
    if top >= t0 {
      var low := Max(Lowest(ts), t0);
      StepUnder(p, m, n, op, key, low, t1 - top, grants);
      if grants {
        EarnedOrder(p, t1 - top + Max(0.0, x - low), t1 - t0);
      }
    }
  }

  lemma {:induction false} RunHolds(p: Params, ops: seq<Op>, key: string, t0: real, t1: real)
    requires p.Valid() && NeverWaved(p, ops, key) && FallsBackForGood(Readings(ops)) && t0 <= t1 && ops != []
    ensures Holds(p, Run(p, ops), AllowedWithin(p, ops, key, t0, t1), key, Readings(ops), t0, t1)
  {
    hide Holds, FallsBackForGood, AllowStep;
    var init, op := ops[..|ops| - 1], ops[|ops| - 1];
    assert Readings(ops)[..|ops| - 1] == Readings(init);
    if init == [] {
      assert Readings(ops) == [op.now];
      HoldsAtFirst(p, key, op.now, t0, t1);
    } else {
      PrefixFallsBack(Readings(ops), |init|);
      RunHolds(p, init, key, t0, t1);
      Arrives(p, Run(p, init), AllowedWithin(p, init, key, t0, t1), key, Readings(ops), t0, t1);
    }
    Acts(p, Run(p, init), AllowedWithin(p, init, key, t0, t1), op, key, Readings(ops), t0, t1,
        GrantsWithin(p, ops, key, t0, t1));
  }

  /** Tokens granted to the key in [t0, t1] are a burst and what the rate earns, at most. */
  ghost predicate WithinRate(p: Params, ops: seq<Op>, key: string, t0: real, t1: real)
    requires p.Valid()
  {
    AllowedWithin(p, ops, key, t0, t1) as real <= p.burst + p.refill * (t1 - t0)
  }

  /** A run whose readings fall back only for good keeps every key that is never
      waved through to the rate, in every interval. */
  lemma {:induction false} RateHeld(p: Params, ops: seq<Op>, key: string, t0: real, t1: real)
    requires p.Valid() && NeverWaved(p, ops, key) && FallsBackForGood(Readings(ops)) && t0 <= t1
    ensures WithinRate(p, ops, key, t0, t1)
  {
    hide Run, NeverWaved, FallsBackForGood, Under, Bounded, Earned, Ceiling, Lowest, WithinRate;
    EarnedOrder(p, t1 - t0, 0.0);
    if ops == [] {
      assert AllowedWithin(p, ops, key, t0, t1) == 0;
    } else {
      RunHolds(p, ops, key, t0, t1);
    }
    InRate(p, ops, key, t0, t1);
  }

  lemma InRate(p: Params, ops: seq<Op>, key: string, t0: real, t1: real)
    requires p.Valid() && AllowedWithin(p, ops, key, t0, t1) as real <= p.burst + Earned(t1 - t0, p)
    ensures WithinRate(p, ops, key, t0, t1)
  {
    hide AllowedWithin;
  }

  /** In clock order there is nothing to fall back behind. */
  lemma {:induction false} RateBound(p: Params, ops: seq<Op>, key: string, t0: real, t1: real)
    requires p.Valid() && ClockOrdered(ops) && NeverWaved(p, ops, key) && t0 <= t1
    ensures WithinRate(p, ops, key, t0, t1)
  {
    hide WithinRate, NeverWaved;
    var ts := Readings(ops);
    forall i: nat, j: nat, k: nat, l: nat | i < j < k <= l < |ts| ensures KeepsClear(ts, i, j, k, l) {
      assert ops[j].now <= ops[k].now;
    }
    RateHeld(p, ops, key, t0, t1);
  }

  // ---------- readings that break the rate ----------

  function Asks(now: real, n: nat): seq<Op> {
    seq(n, _ => Ask("k", now))
  }

  /** Where a run of one key has got to. */
  ghost predicate Reached(p: Params, ops: seq<Op>, m: Buckets, n: nat, t0: real, t1: real)
    requires p.Valid()
  {
    Run(p, ops) == m && NeverWaved(p, ops, "k") && AllowedWithin(p, ops, "k", t0, t1) == n
  }

  lemma ReachesNext(p: Params, ops: seq<Op>, m: Buckets, n: nat, t0: real, t1: real, op: Op, grants: bool)
    requires p.Valid() && Reached(p, ops, m, n, t0, t1)
    requires op.Ask? && op.key == "k" ==> !AllowStep(p, m, "k", op.now).1.waved
    requires grants <==> op.Ask? && op.key == "k" && t0 <= op.now <= t1 && AllowStep(p, m, "k", op.now).1.allowed
    ensures Reached(p, ops + [op], Step(p, m, op), if grants then n + 1 else n, t0, t1)
  {
    hide AllowStep, Step;
    var more := ops + [op];
    assert more[..|more| - 1] == ops && more[|more| - 1] == op;
    assert Run(p, more) == Step(p, m, op);
    hide Run;
    assert NeverWaved(p, more, "k");
    hide NeverWaved;
  }

  /** A request that finds the tokens `found` once its bucket is refilled. */
  lemma Grants(p: Params, ops: seq<Op>, m: Buckets, n: nat, t0: real, t1: real, now: real, found: Bucket)
    requires p.Valid() && p.maxKeys > 0 && m.Keys <= {"k"} && t0 <= now <= t1 && Reached(p, ops, m, n, t0, t1)
    requires found == Refilled(p, if "k" in m then m["k"] else Bucket(p.burst, now), now) && found.tokens >= 1.0
    ensures Reached(p, ops + [Ask("k", now)], map["k" := Bucket(found.tokens - 1.0, found.last)], n + 1, t0, t1)
  {
    hide Reached, Refilled;
    if "k" !in m {
      assert m == map[];
    }
    assert Step(p, m, Ask("k", now)) == map["k" := Bucket(found.tokens - 1.0, found.last)];
    ReachesNext(p, ops, m, n, t0, t1, Ask("k", now), true);
  }

  /** n requests at one reading, no later than the bucket's own. */
  lemma {:induction false} Drains(p: Params, ops: seq<Op>, n: nat, t0: real, t1: real, now: real, b: Bucket, count: nat)
    requires p.Valid() && p.maxKeys > 0 && t0 <= now <= t1 && now <= b.last && count as real <= b.tokens
    requires Reached(p, ops, map["k" := b], n, t0, t1)
    ensures Reached(p, ops + Asks(now, count), map["k" := Bucket(b.tokens - count as real, b.last)], n + count, t0, t1)
    decreases count
  {
    hide Reached;
    if count == 0 {
      assert ops + Asks(now, count) == ops;
    } else {
      Grants(p, ops, map["k" := b], n, t0, t1, now, b);
      Drains(p, ops + [Ask("k", now)], n + 1, t0, t1, now, Bucket(b.tokens - 1.0, b.last), count - 1);
      assert ops + [Ask("k", now)] + Asks(now, count - 1) == ops + Asks(now, count);
    }
  }

  /** A request at a, and a sweep at b that finds the bucket full again. */
  lemma SweptClean(p: Params, a: real, b: real, t0: real, t1: real)
    requires p.Valid() && p.maxKeys > 0 && p.burst >= 1.0 && a < b && Earned(b - a, p) >= 1.0 && t0 <= a <= t1
    ensures Reached(p, [Ask("k", a), SweepAt(b)], map[], 1, t0, t1)
  {
    hide Earned;
    var none: seq<Op> := [];
    assert Reached(p, none, map[], 0, t0, t1);
    Grants(p, none, map[], 0, t0, t1, a, Bucket(p.burst, a));
    var m := map["k" := Bucket(p.burst - 1.0, a)];
    assert Evicted(p, m, b) == map[];
    ReachesNext(p, none + [Ask("k", a)], m, 1, t0, t1, SweepAt(b), false);
    assert none + [Ask("k", a)] + [SweepAt(b)] == [Ask("k", a), SweepAt(b)];
  }

  /** One token per rise from a to b. */
  lemma OnePerRise(p: Params, u: real, d: real)
    requires u > 0.0 && p.refill == 1.0 / u
    ensures p.refill > 0.0 && Earned(u, p) == 1.0 && Earned(d, p) == d / u && p.refill * d == d / u
  {
  }

  /** Three steps: a request at a, a sweep at b, and a request that read c before
      b but comes after it.  Both are granted, less than one token's time apart. */
  lemma StaleReadingOvergrants(a: real, b: real, c: real)
    requires a - (b - a) < c < b
    ensures var p := Params(1.0, 1.0 / (b - a), 10);
            var ops := [Ask("k", a), SweepAt(b), Ask("k", c)];
            p.Valid() && NeverWaved(p, ops, "k") && !WithinRate(p, ops, "k", Min(a, c), Max(a, c))
  {
    hide Earned, Run, NeverWaved, AllowedWithin;
    var p := Params(1.0, 1.0 / (b - a), 10);
    var t0, t1 := Min(a, c), Max(a, c);
    OnePerRise(p, b - a, b - a);
    OnePerRise(p, b - a, t1 - t0);
    SweptClean(p, a, b, t0, t1);
    Grants(p, [Ask("k", a), SweepAt(b)], map[], 1, t0, t1, c, Bucket(1.0, c));
    assert [Ask("k", a), SweepAt(b)] + [Ask("k", c)] == [Ask("k", a), SweepAt(b), Ask("k", c)];
    LessThanOne(t1 - t0, b - a);
  }

  lemma LessThanOne(d: real, u: real)
    requires d < u && u > 0.0
    ensures d / u < 1.0
  {
  }

  /** Falling further back is no harm by itself; coming back up is.  The time
      between c and d is earned in full after a full bucket was spent at c, on
      top of what was earned between a and b. */
  lemma ReturnOvergrants(a: real, b: real, c: real, d: real)
    requires a < b <= d && c <= a - (b - a)
    ensures var n := ((d - c) / (b - a)).Floor;
            var p := Params(n as real, 1.0 / (b - a), 10);
            n >= 2 && p.Valid()
            && var ops := [Ask("k", a), SweepAt(b)] + Asks(c, n) + Asks(d, n);
               NeverWaved(p, ops, "k") && !WithinRate(p, ops, "k", c, d)
  {
    hide Earned, Run, NeverWaved, AllowedWithin, Asks;
    var n := ((d - c) / (b - a)).Floor;
    var p := Params(n as real, 1.0 / (b - a), 10);
    AtLeastTwo(d - c, b - a);
    OnePerRise(p, b - a, b - a);
    OnePerRise(p, b - a, d - c);
    SweptClean(p, a, b, c, d);
    var start := [Ask("k", a), SweepAt(b)];
    SpendsAll(p, start, map[], 1, c, d, c, Bucket(n as real, c), n);
    SpendsAll(p, start + Asks(c, n), map["k" := Bucket(0.0, c)], 1 + n, c, d, d, Bucket(n as real, d), n);
  }

  lemma AtLeastTwo(d: real, u: real)
    requires u > 0.0 && d >= 2.0 * u
    ensures (d / u).Floor >= 2
  {
    assert d / u >= 2.0 by {
      assert d / u * u == d;
    }
  }

  lemma SpendsAll(p: Params, ops: seq<Op>, m: Buckets, g: nat, t0: real, t1: real, now: real, found: Bucket, n: nat)
    requires p.Valid() && p.maxKeys > 0 && m.Keys <= {"k"} && t0 <= now <= t1 && Reached(p, ops, m, g, t0, t1)
    requires found == Refilled(p, if "k" in m then m["k"] else Bucket(p.burst, now), now)
    requires found == Bucket(n as real, now) && n >= 1
    ensures Reached(p, ops + Asks(now, n), map["k" := Bucket(0.0, now)], g + n, t0, t1)
  {
    hide Reached, Refilled;
    Grants(p, ops, m, g, t0, t1, now, found);
    Drains(p, ops + [Ask("k", now)], g + 1, t0, t1, now, Bucket(n as real - 1.0, now), n - 1);
    assert ops + [Ask("k", now)] + Asks(now, n - 1) == ops + Asks(now, n);
  }

  // ---------- exactly which readings keep the rate ----------

  /** The steps read the clock in the order of ts, any number of steps sharing a reading. */
  ghost predicate FollowsAt(ops: seq<Op>, ts: seq<real>, at: seq<nat>) {
    && |at| == |ops|
    && (forall i, j :: 0 <= i < j < |at| ==> at[i] <= at[j])
    && (forall i :: 0 <= i < |at| ==> at[i] < |ts| && ops[i].now == ts[at[i]])
  }

  ghost predicate Follows(ops: seq<Op>, ts: seq<real>) {
    exists at: seq<nat> :: FollowsAt(ops, ts, at)
  }

  /** Every limiter, every run that works with these readings, and every key
      never waved through in it keeps to the rate in every interval. */
  ghost predicate KeepsRate(ts: seq<real>) {
    forall p: Params, ops: seq<Op>, key: string, t0: real, t1: real ::
      p.Valid() && Follows(ops, ts) && NeverWaved(p, ops, key) && t0 <= t1 ==> WithinRate(p, ops, key, t0, t1)
  }

  lemma FollowersFallBack(ops: seq<Op>, ts: seq<real>, at: seq<nat>)
    requires FollowsAt(ops, ts, at) && FallsBackForGood(ts)
    ensures FallsBackForGood(Readings(ops))
  {
    var rs := Readings(ops);
    forall i: nat, j: nat, k: nat, l: nat | i < j < k <= l < |rs| ensures KeepsClear(rs, i, j, k, l) {
      if rs[i] < rs[j] && rs[k] < rs[j] {
        assert at[i] < at[j] < at[k] <= at[l];
        assert KeepsClear(ts, at[i], at[j], at[k], at[l]);
      }
    }
  }

  lemma BrokenByStale(ts: seq<real>, i: nat, j: nat, k: nat)
    requires i < j < k < |ts| && ts[i] - (ts[j] - ts[i]) < ts[k] < ts[j]
    ensures !KeepsRate(ts)
  {
    hide Run, NeverWaved, WithinRate;
    var a, b, c := ts[i], ts[j], ts[k];
    StaleReadingOvergrants(a, b, c);
    var ops := [Ask("k", a), SweepAt(b), Ask("k", c)];
    assert FollowsAt(ops, ts, [i, j, k]);
    assert Follows(ops, ts);
  }

  lemma BrokenByReturn(ts: seq<real>, i: nat, j: nat, k: nat, l: nat)
    requires i < j < k < l < |ts| && ts[i] < ts[j] <= ts[l] && ts[k] <= ts[i] - (ts[j] - ts[i])
    ensures !KeepsRate(ts)
  {
    hide Run, NeverWaved, WithinRate;
    var a, b, c, d := ts[i], ts[j], ts[k], ts[l];
    ReturnOvergrants(a, b, c, d);
    var n := ((d - c) / (b - a)).Floor;
    var ops := [Ask("k", a), SweepAt(b)] + Asks(c, n) + Asks(d, n);
    var at: seq<nat> := [i, j] + seq(n, _ => k) + seq(n, _ => l);
    assert FollowsAt(ops, ts, at);
    assert Follows(ops, ts);
  }

  /** The rate is kept exactly by readings that, once they fall back behind a
      rise, stay as far below its foot as its top was above it. */
  lemma KeepsRateIff(ts: seq<real>)
    ensures KeepsRate(ts) <==> FallsBackForGood(ts)
  {
    hide Run, NeverWaved, WithinRate, Follows;
    if FallsBackForGood(ts) {
      forall p: Params, ops: seq<Op>, key: string, t0: real, t1: real |
        p.Valid() && Follows(ops, ts) && NeverWaved(p, ops, key) && t0 <= t1
        ensures WithinRate(p, ops, key, t0, t1)
      {
        FollowersHold(p, ops, ts, key, t0, t1);
      }
    } else {
      var i: nat, j: nat, k: nat, l: nat :| i < j < k <= l < |ts| && !KeepsClear(ts, i, j, k, l);
      if ts[l] < ts[j] {
        BrokenByStale(ts, i, j, l);
      } else if ts[i] - (ts[j] - ts[i]) < ts[k] {
        BrokenByStale(ts, i, j, k);
      } else {
        BrokenByReturn(ts, i, j, k, l);
      }
    }
  }

  lemma FollowersHold(p: Params, ops: seq<Op>, ts: seq<real>, key: string, t0: real, t1: real)
    requires p.Valid() && Follows(ops, ts) && NeverWaved(p, ops, key) && t0 <= t1 && FallsBackForGood(ts)
    ensures WithinRate(p, ops, key, t0, t1)
  {
    hide NeverWaved, WithinRate, FallsBackForGood;
    var at: seq<nat> :| FollowsAt(ops, ts, at);
    FollowersFallBack(ops, ts, at);
    RateHeld(p, ops, key, t0, t1);
  }

  // ---------- three readings at a time are not enough ----------

  /** No reading lies between a rise and its mirror image below. */
  ghost predicate PairwiseClear(ts: seq<real>) {
    forall i: nat, j: nat, k: nat :: i < j < k < |ts| && ts[i] < ts[j] ==>
      ts[k] >= ts[j] || ts[k] <= ts[i] - (ts[j] - ts[i])
  }

  /** Six steps, one to a reading, clear of every single rise: five requests are
      granted in 20 s by a limiter with burst two and a token every 10 s. */
  lemma PairwiseIsNotEnough()
    ensures var p := Params(2.0, 0.1, 10);
            var ops := [Ask("k", 0.0), SweepAt(10.0), Ask("k", -10.0), Ask("k", -10.0), Ask("k", 10.0), Ask("k", 10.0)];
            && p.Valid() && PairwiseClear(Readings(ops)) && !FallsBackForGood(Readings(ops))
            && NeverWaved(p, ops, "k") && !WithinRate(p, ops, "k", -10.0, 10.0)
  {
    hide Run, NeverWaved, WithinRate, PairwiseClear, FallsBackForGood;
    ReturnOvergrants(0.0, 10.0, -10.0, 10.0);
    assert ((10.0 - -10.0) / (10.0 - 0.0)).Floor == 2;
    var ops := [Ask("k", 0.0), SweepAt(10.0), Ask("k", -10.0), Ask("k", -10.0), Ask("k", 10.0), Ask("k", 10.0)];
    assert Asks(-10.0, 2) == [Ask("k", -10.0), Ask("k", -10.0)] && Asks(10.0, 2) == [Ask("k", 10.0), Ask("k", 10.0)];
    assert ops == [Ask("k", 0.0), SweepAt(10.0)] + Asks(-10.0, 2) + Asks(10.0, 2);
    assert Readings(ops) == [0.0, 10.0, -10.0, -10.0, 10.0, 10.0];
    SixReadings();
  }

  lemma SixReadings()
    ensures var ts := [0.0, 10.0, -10.0, -10.0, 10.0, 10.0]; PairwiseClear(ts) && !FallsBackForGood(ts)
  {
    var ts := [0.0, 10.0, -10.0, -10.0, 10.0, 10.0];
    forall i: nat, j: nat, k: nat | i < j < k < |ts| && ts[i] < ts[j]
      ensures ts[k] >= ts[j] || ts[k] <= ts[i] - (ts[j] - ts[i])
    {
      if i == 0 {
        assert ts[j] == 10.0;
        assert ts[k] == 10.0 || ts[k] == -10.0;
      } else {
        assert ts[i] == -10.0 && ts[k] == 10.0;
      }
    }
    assert !KeepsClear(ts, 0, 1, 2, 4);
  }
}
