/** Exactly when a slot's two bounds are bounds.

    An optional person who refuses pays no unsociable-hour penalty; the same
    person attending at "if needed" does, and so does one attending at
    "preferred".  Where that costs more than their attendance adds, the all-"no"
    fill is not the worst case, or the all-"preferred" fill not the best. */
module Exposure {
  import opened Options
  import opened Zones
  import opened Scoring
  import opened ScoreOrder
  import opened Dominance

  ghost predicate UniqueIDs(ps: seq<Participant>) {
    forall i, j :: 0 <= i < j < |ps| ==> ps[i].id != ps[j].id
  }

  /** How many exposed people are named in ids. */
  ghost function ExposedAmong(s: Instant, ps: seq<Participant>, cfg: Config, known: Answers,
      ids: set<string>): (n: nat)
  {
    if ps == [] then 0
    else
      var last := ps[|ps| - 1];
      ExposedAmong(s, ps[..|ps| - 1], cfg, known, ids)
      + (if Exposed(last, s, cfg, known) && last.id in ids then 1 else 0)
  }

  ghost function ExposedCount(s: Instant, ps: seq<Participant>, cfg: Config, known: Answers): nat {
    if ps == [] then 0
    else ExposedCount(s, ps[..|ps| - 1], cfg, known) + (if Exposed(ps[|ps| - 1], s, cfg, known) then 1 else 0)
  }

  lemma {:induction false} AmongAtMostCount(s: Instant, ps: seq<Participant>, cfg: Config, known: Answers,
      ids: set<string>)
    ensures ExposedAmong(s, ps, cfg, known, ids) <= ExposedCount(s, ps, cfg, known)
  {
    if ps != [] {
      AmongAtMostCount(s, ps[..|ps| - 1], cfg, known, ids);
    }
  }

  // ---------- one more attendee ----------

  ghost function Converts(s: Instant, ps: seq<Participant>, a: Answers, b: Answers): nat {
    if ps == [] then 0
    else
      var last := ps[|ps| - 1];
      Converts(s, ps[..|ps| - 1], a, b) + (if a(last.id, s) != b(last.id, s) then 1 else 0)
  }

  /** The second lookup differs from the first only in exposed people who now attend at `tier`. */
  ghost predicate ConvertsTo(s: Instant, ps: seq<Participant>, cfg: Config, a: Answers, b: Answers, tier: Tier) {
    tier != TierNo &&
    forall p <- ps :: a(p.id, s) != b(p.id, s) ==>
      p.role == RoleOptional && Unsociable(s, p, cfg) && a(p.id, s) == Some(TierNo) && b(p.id, s) == Some(tier)
  }

  ghost predicate Converted(ta: Tally, tb: Tally, n: nat, gain: real) {
    && tb.eliminatedBy == ta.eliminatedBy && tb.weights == ta.weights
    && tb.minRequired == ta.minRequired && tb.haveRequired == ta.haveRequired
    && tb.penalized == ta.penalized + n
    && tb.weighted == ta.weighted + Times(n, gain)
  }

  ghost function Times(n: nat, x: real): real {
    if n == 0 then 0.0 else Times(n - 1, x) + x
  }

  lemma ConvertedStep(ta: Tally, tb: Tally, n: nat, p: Participant, s: Instant, cfg: Config, a: Option<Tier>,
      b: Option<Tier>, tier: Tier)
    requires Converted(ta, tb, n, tier.Value() * cfg.optionalWeight) && tier != TierNo
    requires a == b || (p.role == RoleOptional && Unsociable(s, p, cfg) && a == Some(TierNo) && b == Some(tier))
    ensures Converted(Count(ta, p, s, cfg, a), Count(tb, p, s, cfg, b), if a == b then n else n + 1,
              tier.Value() * cfg.optionalWeight)
  {
  }

  lemma {:induction false} ConvertedTally(s: Instant, ps: seq<Participant>, cfg: Config, a: Answers, b: Answers,
      tier: Tier)
    requires ConvertsTo(s, ps, cfg, a, b, tier)
    ensures Converted(TallyAll(s, ps, cfg, a), TallyAll(s, ps, cfg, b), Converts(s, ps, a, b),
              tier.Value() * cfg.optionalWeight)
  {
    if ps != [] {
      var init, last := ps[..|ps| - 1], ps[|ps| - 1];
      assert forall p <- init :: p in ps;
      assert last in ps;
      ConvertedTally(s, init, cfg, a, b, tier);
      ConvertedStep(TallyAll(s, init, cfg, a), TallyAll(s, init, cfg, b), Converts(s, init, a, b), last, s, cfg,
                    a(last.id, s), b(last.id, s), tier);
    }
  }

  // ---------- the lean and the keen completions ----------

  /** The people named in ids give `named`, everyone else outstanding gives `rest`. */
  ghost function Partly(known: Answers, ids: set<string>, named: Tier, rest: Tier): Completion {
    (pid: string, at: Instant) => known(pid, at).GetOr(if pid in ids then named else rest)
  }

  ghost predicate OnlyExposed(s: Instant, ps: seq<Participant>, cfg: Config, known: Answers, ids: set<string>) {
    forall p <- ps :: p.id in ids ==> Exposed(p, s, cfg, known)
  }

  lemma {:induction false} ConvertsCounts(s: Instant, ps: seq<Participant>, cfg: Config, known: Answers,
      ids: set<string>, named: Tier, rest: Tier)
    requires OnlyExposed(s, ps, cfg, known, ids) && named != rest
    ensures Converts(s, ps, Settle(Fill(known, rest)), Settle(Partly(known, ids, named, rest))) ==
              ExposedAmong(s, ps, cfg, known, ids)
    ensures Converts(s, ps, Settle(Partly(known, ids, named, rest)), Settle(Fill(known, rest))) ==
              ExposedAmong(s, ps, cfg, known, ids)
  {
    if ps != [] {
      assert forall p <- ps[..|ps| - 1] :: p in ps;
      assert ps[|ps| - 1] in ps;
      ConvertsCounts(s, ps[..|ps| - 1], cfg, known, ids, named, rest);
    }
  }

  /** The totals with every outstanding answer pinned to `fill`. */
  ghost function FillTally(s: Instant, ps: seq<Participant>, cfg: Config, known: Answers, fill: Tier): Tally {
    TallyAll(s, ps, cfg, Settle(Fill(known, fill)))
  }

  /** The score when n exposed people attend at "if needed" and all other outstanding people refuse. */
  ghost function LeanScore(s: Instant, ps: seq<Participant>, cfg: Config, known: Answers, n: nat): real {
    var t := FillTally(s, ps, cfg, known, TierNo);
    if t.weights == 0.0 then 0.0
    else Composite(t, cfg, t.weighted + Times(n, TierIfNeeded.Value() * cfg.optionalWeight), t.penalized + n)
  }

  /** The score when n exposed people refuse and all other outstanding people are delighted. */
  ghost function KeenScore(s: Instant, ps: seq<Participant>, cfg: Config, known: Answers, n: nat): real {
    var t := FillTally(s, ps, cfg, known, TierPreferred);
    if t.weights == 0.0 then 0.0
    else Composite(t, cfg, t.weighted - Times(n, TierPreferred.Value() * cfg.optionalWeight), t.penalized - n)
  }

  /** A check on one row of arithmetic per exposed person. */
  ghost predicate PenaltyNeverOutweighs(s: Instant, ps: seq<Participant>, cfg: Config, known: Answers) {
    && (Bound(known, s, ps, cfg, TierNo).eliminated ||
        forall n: nat :: n <= ExposedCount(s, ps, cfg, known) ==>
            LeanScore(s, ps, cfg, known, 0) <= LeanScore(s, ps, cfg, known, n))
    && (Bound(known, s, ps, cfg, TierPreferred).eliminated ||
        forall n: nat :: n <= ExposedCount(s, ps, cfg, known) ==>
            KeenScore(s, ps, cfg, known, n) <= KeenScore(s, ps, cfg, known, 0))
  }

  /** Totals that agree but for the weighted sum and the charged people score by the same formula. */
  lemma SameFormula(ta: Tally, tb: Tally, cfg: Config)
    requires ta.weights == tb.weights && ta.minRequired == tb.minRequired && ta.haveRequired == tb.haveRequired
    requires ta.weights != 0.0
    ensures Composite(ta, cfg, tb.weighted, tb.penalized) == Composite(tb, cfg, tb.weighted, tb.penalized)
  {
  }

  lemma LeanScores(s: Instant, ps: seq<Participant>, cfg: Config, known: Answers, ids: set<string>)
    requires OnlyExposed(s, ps, cfg, known, ids)
    ensures var lean := Under(Partly(known, ids, TierIfNeeded, TierNo), s, ps, cfg);
            && lean.eliminated == Bound(known, s, ps, cfg, TierNo).eliminated
            && (!lean.eliminated ==> lean.score == LeanScore(s, ps, cfg, known, ExposedAmong(s, ps, cfg, known, ids)))
  {
    hide Unsociable, Converts, ExposedAmong;
    ConvertsCounts(s, ps, cfg, known, ids, TierIfNeeded, TierNo);
    ConvertedTally(s, ps, cfg, Settle(Fill(known, TierNo)), Settle(Partly(known, ids, TierIfNeeded, TierNo)),
        TierIfNeeded);
    var ta := FillTally(s, ps, cfg, known, TierNo);
    if ta.weights != 0.0 {
      SameFormula(ta, TallyAll(s, ps, cfg, Settle(Partly(known, ids, TierIfNeeded, TierNo))), cfg);
    }
  }

  lemma {:induction false} KeenScores(s: Instant, ps: seq<Participant>, cfg: Config, known: Answers, ids: set<string>)
    requires OnlyExposed(s, ps, cfg, known, ids)
    ensures var keen := Under(Partly(known, ids, TierNo, TierPreferred), s, ps, cfg);
            && keen.eliminated == Bound(known, s, ps, cfg, TierPreferred).eliminated
            && (!keen.eliminated ==> keen.score == KeenScore(s, ps, cfg, known, ExposedAmong(s, ps, cfg, known, ids)))
  {
    hide Unsociable, Converts, ExposedAmong;
    ConvertsCounts(s, ps, cfg, known, ids, TierNo, TierPreferred);
    ConvertedTally(s, ps, cfg, Settle(Partly(known, ids, TierNo, TierPreferred)), Settle(Fill(known, TierPreferred)),
        TierPreferred);
    var ta := FillTally(s, ps, cfg, known, TierPreferred);
    if ta.weights != 0.0 {
      SameFormula(ta, TallyAll(s, ps, cfg, Settle(Partly(known, ids, TierNo, TierPreferred))), cfg);
    }
  }

  lemma FillScores(s: Instant, ps: seq<Participant>, cfg: Config, known: Answers)
    ensures !Bound(known, s, ps, cfg, TierNo).eliminated ==>
              Bound(known, s, ps, cfg, TierNo).score == LeanScore(s, ps, cfg, known, 0)
    ensures !Bound(known, s, ps, cfg, TierPreferred).eliminated ==>
              Bound(known, s, ps, cfg, TierPreferred).score == KeenScore(s, ps, cfg, known, 0)
  {
  }

  // ---------- any number of exposed people can be picked ----------

  lemma {:induction false} ExposedAmongMonotone(s: Instant, ps: seq<Participant>, cfg: Config, known: Answers,
      a: set<string>, b: set<string>)
    requires forall p <- ps :: Exposed(p, s, cfg, known) && p.id in a ==> p.id in b
    ensures ExposedAmong(s, ps, cfg, known, a) <= ExposedAmong(s, ps, cfg, known, b)
  {
    if ps != [] {
      assert forall p <- ps[..|ps| - 1] :: p in ps;
      assert ps[|ps| - 1] in ps;
      ExposedAmongMonotone(s, ps[..|ps| - 1], cfg, known, a, b);
    }
  }

  lemma {:induction false} PickExposed(s: Instant, ps: seq<Participant>, cfg: Config, known: Answers, n: nat)
    returns (ids: set<string>)
    requires UniqueIDs(ps) && n <= ExposedCount(s, ps, cfg, known)
    ensures ExposedAmong(s, ps, cfg, known, ids) == n
    ensures OnlyExposed(s, ps, cfg, known, ids)
    ensures ids <= set p | p in ps :: p.id
  {
    hide Exposed;
    if ps == [] {
      ids := {};
    } else {
      var init, last := ps[..|ps| - 1], ps[|ps| - 1];
      assert ps == init + [last];
      var take := Exposed(last, s, cfg, known) && n > 0;
      var before := PickExposed(s, init, cfg, known, if take then n - 1 else n);
      assert last.id !in before;
      ids := if take then before + {last.id} else before;
      ExposedAmongMonotone(s, init, cfg, known, before, ids);
      ExposedAmongMonotone(s, init, cfg, known, ids, before);
    }
  }

  // ---------- the exact condition ----------

  /** Every completion scores the slot at least as well as some lean one and
      at most as well as some keen one: those with the same attendance. */
  lemma Squeezed(s: Instant, ps: seq<Participant>, cfg: Config, known: Answers, c: Completion) returns (n: nat, m: nat)
    requires cfg.Sound() && UniqueIDs(ps) && Completes(c, known)
    ensures n <= ExposedCount(s, ps, cfg, known) && m <= ExposedCount(s, ps, cfg, known)
    ensures !Bound(known, s, ps, cfg, TierNo).eliminated ==>
              !Under(c, s, ps, cfg).eliminated && LeanScore(s, ps, cfg, known, n) <= Under(c, s, ps, cfg).score
    ensures !Under(c, s, ps, cfg).eliminated ==>
              && !Bound(known, s, ps, cfg, TierPreferred).eliminated
              && Under(c, s, ps, cfg).score <= KeenScore(s, ps, cfg, known, m)
  {
    hide Unsociable, ScoreOf, LeanScore, KeenScore, ExposedAmong, ExposedCount;
    var attending := set p | p in ps && Exposed(p, s, cfg, known) && c(p.id, s) != TierNo :: p.id;
    var refusing := set p | p in ps && Exposed(p, s, cfg, known) && c(p.id, s) == TierNo :: p.id;
    n, m := ExposedAmong(s, ps, cfg, known, attending), ExposedAmong(s, ps, cfg, known, refusing);
    LeanScores(s, ps, cfg, known, attending);
    KeenScores(s, ps, cfg, known, refusing);
    AmongAtMostCount(s, ps, cfg, known, attending);
    AmongAtMostCount(s, ps, cfg, known, refusing);
    ScoreMonotone(s, ps, cfg, Settle(Partly(known, attending, TierIfNeeded, TierNo)), Settle(c));
    ScoreMonotone(s, ps, cfg, Settle(c), Settle(Partly(known, refusing, TierNo, TierPreferred)));
  }

  /** The two fills bound every completion exactly when the penalty never
      outweighs an exposed person's attendance. */
  lemma BoundsHoldIff(s: Instant, ps: seq<Participant>, cfg: Config, known: Answers)
    requires cfg.Sound() && UniqueIDs(ps)
    ensures BoundsHold(s, ps, cfg, known) <==> PenaltyNeverOutweighs(s, ps, cfg, known)
  {
    if PenaltyNeverOutweighs(s, ps, cfg, known) {
      FillScores(s, ps, cfg, known);
      forall c: Completion | Completes(c, known)
        ensures NoWorse(Bound(known, s, ps, cfg, TierNo), Under(c, s, ps, cfg))
        ensures NoWorse(Under(c, s, ps, cfg), Bound(known, s, ps, cfg, TierPreferred))
      {
        var n, m := Squeezed(s, ps, cfg, known, c);
      }
    }
    if BoundsHold(s, ps, cfg, known) {
      FillScores(s, ps, cfg, known);
      forall n: nat | n <= ExposedCount(s, ps, cfg, known)
        ensures !Bound(known, s, ps, cfg, TierNo).eliminated ==>
                  LeanScore(s, ps, cfg, known, 0) <= LeanScore(s, ps, cfg, known, n)
        ensures !Bound(known, s, ps, cfg, TierPreferred).eliminated ==>
                  KeenScore(s, ps, cfg, known, n) <= KeenScore(s, ps, cfg, known, 0)
      {
        var ids := PickExposed(s, ps, cfg, known, n);
        LeanScores(s, ps, cfg, known, ids);
        KeenScores(s, ps, cfg, known, ids);
        assert Completes(Partly(known, ids, TierIfNeeded, TierNo), known);
        assert Completes(Partly(known, ids, TierNo, TierPreferred), known);
      }
    }
  }

  // ---------- the tests that are exact for every input ----------

  /** However many exposed people come to slot i and stay away from slot j, i is not outscored. */
  ghost predicate NeverOutscored(slots: seq<Instant>, ps: seq<Participant>, cfg: Config, known: Answers, i: nat, j: nat)
    requires i < |slots| && j < |slots|
  {
    Bound(known, slots[j], ps, cfg, TierPreferred).eliminated ||
    forall n: nat, m: nat ::
      n <= ExposedCount(slots[i], ps, cfg, known) && m <= ExposedCount(slots[j], ps, cfg, known) ==>
      KeenScore(slots[j], ps, cfg, known, m) <= LeanScore(slots[i], ps, cfg, known, n)
  }

  /** A slot is settled exactly when it survives everybody's refusal and is
      outscored for no attendance of the exposed people; the code's test is
      the instance where none attend the slot and all attend its rivals. */
  lemma SettledIff(slots: seq<Instant>, ps: seq<Participant>, cfg: Config, known: Answers, i: nat)
    requires cfg.Sound() && UniqueIDs(ps) && Distinct(slots) && i < |slots|
    ensures Settled(slots, ps, cfg, known, slots[i]) <==>
              && !Bound(known, slots[i], ps, cfg, TierNo).eliminated
              && forall j: nat :: j < |slots| && j != i ==> NeverOutscored(slots, ps, cfg, known, i, j)
  {
    var s := slots[i];
    if Settled(slots, ps, cfg, known, s) {
      SplitScores(known, s, ps, cfg, TierNo, TierPreferred, s);
      assert Wins(slots, ps, cfg, Split(known, s, TierNo, TierPreferred), s);
      forall j: nat | j < |slots| && j != i
        ensures NeverOutscored(slots, ps, cfg, known, i, j)
      {
        SettledNeverOutscored(slots, ps, cfg, known, i, j);
      }
    }
    if !Bound(known, s, ps, cfg, TierNo).eliminated && forall j: nat :: j < |slots| && j != i ==>
        NeverOutscored(slots, ps, cfg, known, i, j) {
      forall c: Completion | Completes(c, known)
        ensures Wins(slots, ps, cfg, c, s)
      {
        var n, _ := Squeezed(s, ps, cfg, known, c);
        forall o <- slots | !Under(c, o, ps, cfg).eliminated
          ensures Under(c, o, ps, cfg).score <= Under(c, s, ps, cfg).score
        {
          var j: nat :| j < |slots| && slots[j] == o;
          if j != i {
            var _, m := Squeezed(o, ps, cfg, known, c);
            assert NeverOutscored(slots, ps, cfg, known, i, j);
          }
        }
      }
    }
  }

  lemma SettledNeverOutscored(slots: seq<Instant>, ps: seq<Participant>, cfg: Config, known: Answers, i: nat, j: nat)
    requires UniqueIDs(ps) && Distinct(slots) && i < |slots| && j < |slots| && i != j
    requires Settled(slots, ps, cfg, known, slots[i])
    ensures NeverOutscored(slots, ps, cfg, known, i, j)
  {
    hide Exposed, Unsociable, ScoreOf, LeanScore, KeenScore, ExposedAmong, ExposedCount;
    var s, o := slots[i], slots[j];
    if !Bound(known, o, ps, cfg, TierPreferred).eliminated {
      forall n: nat, m: nat | n <= ExposedCount(s, ps, cfg, known) && m <= ExposedCount(o, ps, cfg, known)
        ensures KeenScore(o, ps, cfg, known, m) <= LeanScore(s, ps, cfg, known, n)
      {
        var come := PickExposed(s, ps, cfg, known, n);
        var stay := PickExposed(o, ps, cfg, known, m);
        var lean, keen := Partly(known, come, TierIfNeeded, TierNo), Partly(known, stay, TierNo, TierPreferred);
        var c: Completion := (pid: string, at: Instant) => if at == s then lean(pid, at) else keen(pid, at);
        SameAnswersSameScore(s, ps, cfg, Settle(c), Settle(lean));
        SameAnswersSameScore(o, ps, cfg, Settle(c), Settle(keen));
        LeanScores(s, ps, cfg, known, come);
        KeenScores(o, ps, cfg, known, stay);
        assert Completes(c, known);
        assert Wins(slots, ps, cfg, c, s);
        assert o in slots;
      }
    }
  }

  /** The undecided verdict is never wrong: the code's test misses no settled slot. */
  lemma SettledAlwaysClears(slots: seq<Instant>, ps: seq<Participant>, cfg: Config, known: Answers, i: nat)
    requires cfg.Sound() && UniqueIDs(ps) && Distinct(slots) && i < |slots|
    requires Settled(slots, ps, cfg, known, slots[i])
    ensures Clears(slots, ps, cfg, known, i)
  {
    SettledIff(slots, ps, cfg, known, i);
    FillScores(slots[i], ps, cfg, known);
    forall j: nat | j < |slots| && j != i
      ensures var hi := Bound(known, slots[j], ps, cfg, TierPreferred);
              hi.eliminated || hi.score <= Bound(known, slots[i], ps, cfg, TierNo).score
    {
      FillScores(slots[j], ps, cfg, known);
      assert NeverOutscored(slots, ps, cfg, known, i, j);
    }
  }

  /** Some attendance of slot j's exposed people leaves it no better than the score x. */
  ghost predicate CanFallTo(s: Instant, ps: seq<Participant>, cfg: Config, known: Answers, x: real) {
    Bound(known, s, ps, cfg, TierNo).eliminated ||
    exists n: nat :: n <= ExposedCount(s, ps, cfg, known) && LeanScore(s, ps, cfg, known, n) <= x
  }

  /** The score slot i reaches when m of its exposed people stay away is one every rival can fall to. */
  ghost predicate RivalsCanFall(slots: seq<Instant>, ps: seq<Participant>, cfg: Config, known: Answers, i: nat, m: nat)
    requires i < |slots|
  {
    forall j: nat :: j < |slots| && j != i ==>
        CanFallTo(slots[j], ps, cfg, known, KeenScore(slots[i], ps, cfg, known, m))
  }

  /** Who comes to s so that it scores at most x. */
  ghost predicate Lowers(s: Instant, ps: seq<Participant>, cfg: Config, known: Answers, x: real, come: set<string>) {
    var lean := Under(Partly(known, come, TierIfNeeded, TierNo), s, ps, cfg);
    lean.eliminated || lean.score <= x
  }

  lemma FallenTo(s: Instant, ps: seq<Participant>, cfg: Config, known: Answers, x: real) returns (come: set<string>)
    requires UniqueIDs(ps) && CanFallTo(s, ps, cfg, known, x)
    ensures Lowers(s, ps, cfg, known, x, come)
  {
    if Bound(known, s, ps, cfg, TierNo).eliminated {
      come := {};
      LeanScores(s, ps, cfg, known, come);
    } else {
      var n: nat :| n <= ExposedCount(s, ps, cfg, known) && LeanScore(s, ps, cfg, known, n) <= x;
      come := PickExposed(s, ps, cfg, known, n);
      LeanScores(s, ps, cfg, known, come);
    }
  }

  /** A slot could still win exactly when it survives its best case and, for
      some attendance of its own exposed people, every rival can fall to it. */
  lemma PossibleIff(slots: seq<Instant>, ps: seq<Participant>, cfg: Config, known: Answers, i: nat)
    requires cfg.Sound() && UniqueIDs(ps) && Distinct(slots) && i < |slots|
    ensures Possible(slots, ps, cfg, known, slots[i]) <==>
              && !Bound(known, slots[i], ps, cfg, TierPreferred).eliminated
              && exists m: nat :: m <= ExposedCount(slots[i], ps, cfg, known)
                  && RivalsCanFall(slots, ps, cfg, known, i, m)
  {
    var s := slots[i];
    if Possible(slots, ps, cfg, known, s) {
      var c: Completion :| Completes(c, known) && Wins(slots, ps, cfg, c, s);
      var _, m := Squeezed(s, ps, cfg, known, c);
      forall j: nat | j < |slots| && j != i
        ensures CanFallTo(slots[j], ps, cfg, known, KeenScore(s, ps, cfg, known, m))
      {
        var n, _ := Squeezed(slots[j], ps, cfg, known, c);
        assert slots[j] in slots;
      }
      assert RivalsCanFall(slots, ps, cfg, known, i, m);
    }
    if !Bound(known, s, ps, cfg, TierPreferred).eliminated {
      forall m: nat | m <= ExposedCount(s, ps, cfg, known) && RivalsCanFall(slots, ps, cfg, known, i, m)
        ensures Possible(slots, ps, cfg, known, s)
      {
        RivalsFall(slots, ps, cfg, known, i, m);
      }
    }
  }

  /** Each slot in `come` is attended by just the exposed people listed for
      it; at any other slot everyone but those in `stay` is delighted. */
  ghost function PerSlot(known: Answers, come: map<Instant, set<string>>, stay: set<string>): Completion {
    (pid: string, at: Instant) =>
      if at in come then known(pid, at).GetOr(if pid in come[at] then TierIfNeeded else TierNo)
      else known(pid, at).GetOr(if pid in stay then TierNo else TierPreferred)
  }

  lemma PerSlotScores(known: Answers, come: map<Instant, set<string>>, stay: set<string>, ps: seq<Participant>,
      cfg: Config, o: Instant)
    ensures Completes(PerSlot(known, come, stay), known)
    ensures o in come ==>
              Under(PerSlot(known, come, stay), o, ps, cfg) ==
              Under(Partly(known, come[o], TierIfNeeded, TierNo), o, ps, cfg)
    ensures o !in come ==>
              Under(PerSlot(known, come, stay), o, ps, cfg) ==
              Under(Partly(known, stay, TierNo, TierPreferred), o, ps, cfg)
  {
    if o in come {
      SameAnswersSameScore(o, ps, cfg, Settle(PerSlot(known, come, stay)),
          Settle(Partly(known, come[o], TierIfNeeded, TierNo)));
    } else {
      SameAnswersSameScore(o, ps, cfg, Settle(PerSlot(known, come, stay)),
          Settle(Partly(known, stay, TierNo, TierPreferred)));
    }
  }

  /** One attendance per rival, each lowering it to x. */
  lemma AttendancesFallingTo(slots: seq<Instant>, ps: seq<Participant>, cfg: Config, known: Answers, i: nat, x: real)
    returns (come: map<Instant, set<string>>)
    requires UniqueIDs(ps) && Distinct(slots) && i < |slots|
    requires forall j: nat :: j < |slots| && j != i ==> CanFallTo(slots[j], ps, cfg, known, x)
    ensures forall o :: o in come <==> o in slots && o != slots[i]
    ensures forall o <- come :: Lowers(o, ps, cfg, known, x, come[o])
  {
    forall o | o in slots && o != slots[i]
      ensures exists w :: Lowers(o, ps, cfg, known, x, w)
    {
      var j: nat :| j < |slots| && slots[j] == o;
      var w := FallenTo(o, ps, cfg, known, x);
    }
    come := map o | o in slots && o != slots[i] :: var w :| Lowers(o, ps, cfg, known, x, w); w;
  }

  lemma RivalsFall(slots: seq<Instant>, ps: seq<Participant>, cfg: Config, known: Answers, i: nat, m: nat)
    requires UniqueIDs(ps) && Distinct(slots) && i < |slots|
    requires !Bound(known, slots[i], ps, cfg, TierPreferred).eliminated
    requires m <= ExposedCount(slots[i], ps, cfg, known) && RivalsCanFall(slots, ps, cfg, known, i, m)
    ensures Possible(slots, ps, cfg, known, slots[i])
  {
    var s := slots[i];
    var stay := PickExposed(s, ps, cfg, known, m);
    KeenScores(s, ps, cfg, known, stay);
    var x := KeenScore(s, ps, cfg, known, m);
    var come := AttendancesFallingTo(slots, ps, cfg, known, i, x);
    var c := PerSlot(known, come, stay);
    PerSlotScores(known, come, stay, ps, cfg, s);
    forall o | o in slots && !Under(c, o, ps, cfg).eliminated
      ensures Under(c, o, ps, cfg).score <= x
    {
      PerSlotScores(known, come, stay, ps, cfg, o);
      if o != s {
        assert Lowers(o, ps, cfg, known, x, come[o]);
      }
    }
    assert Wins(slots, ps, cfg, c, s);
  }
}
