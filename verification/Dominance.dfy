/** What "already decided" and "could still win" mean, and why two bounds per
    slot are enough to compute them (solver.go, dominance analysis).

    The meaning quantifies over every way the outstanding answers could come
    in.  The code scores each slot just twice. */
module Dominance {
  import opened Options
  import opened Zones
  import opened Scoring
  import opened ScoreOrder

  // ---------- completions ----------

  /** One way for everybody to answer everything. */
  type Completion = (string, Instant) -> Tier

  function Settle(c: Completion): Answers {
    (pid: string, at: Instant) => Some(c(pid, at))
  }

  /** The completion keeps every answer already given. */
  ghost predicate Completes(c: Completion, known: Answers) {
    forall pid, at :: known(pid, at).Some? ==> c(pid, at) == known(pid, at).value
  }

  /** Every unknown answer pinned to one tier. */
  function Fill(known: Answers, fill: Tier): Completion {
    (pid: string, at: Instant) => known(pid, at).GetOr(fill)
  }

  /** What is known once one person's silence is read as `pin` everywhere. */
  function Pin(known: Answers, pinID: string, pin: Tier): Answers {
    (pid: string, at: Instant) =>
      if known(pid, at).Some? then known(pid, at) else if pid == pinID then Some(pin) else None
  }

  function Under(c: Completion, s: Instant, ps: seq<Participant>, cfg: Config): SlotScore {
    ScoreOf(s, ps, cfg, Settle(c))
  }

  // ---------- the meaning ----------

  /** Under this completion the slot survives and no surviving slot outscores it. */
  ghost predicate Wins(slots: seq<Instant>, ps: seq<Participant>, cfg: Config, c: Completion, s: Instant) {
    && !Under(c, s, ps, cfg).eliminated
    && forall o <- slots :: !Under(c, o, ps, cfg).eliminated ==>
        Under(c, o, ps, cfg).score <= Under(c, s, ps, cfg).score
  }

  /** No outstanding response can change that this slot wins. */
  ghost predicate Settled(slots: seq<Instant>, ps: seq<Participant>, cfg: Config, known: Answers, s: Instant) {
    forall c: Completion :: Completes(c, known) ==> Wins(slots, ps, cfg, c, s)
  }

  /** Some way of answering makes this slot win. */
  ghost predicate Possible(slots: seq<Instant>, ps: seq<Participant>, cfg: Config, known: Answers, s: Instant) {
    exists c: Completion :: Completes(c, known) && Wins(slots, ps, cfg, c, s)
  }

  ghost function PossibleSet(slots: seq<Instant>, ps: seq<Participant>, cfg: Config, known: Answers): set<Instant> {
    set s | s in slots && Possible(slots, ps, cfg, known, s)
  }

  // ---------- what the code tests ----------

  /** boundAll's score of one slot with every unknown answer pinned to `fill`. */
  function Bound(known: Answers, s: Instant, ps: seq<Participant>, cfg: Config, fill: Tier): SlotScore {
    Under(Fill(known, fill), s, ps, cfg)
  }

  /** The decidability test: the slot's worst case clears every rival's best case. */
  predicate Clears(slots: seq<Instant>, ps: seq<Participant>, cfg: Config, known: Answers, i: nat)
    requires i < |slots|
  {
    var lo := Bound(known, slots[i], ps, cfg, TierNo);
    && !lo.eliminated
    && forall j | 0 <= j < |slots| && j != i ::
         var hi := Bound(known, slots[j], ps, cfg, TierPreferred);
         hi.eliminated || hi.score <= lo.score
  }

  /** The still-possible test: no rival's worst case beats the slot's best case. */
  predicate CouldWin(slots: seq<Instant>, ps: seq<Participant>, cfg: Config, known: Answers, i: nat)
    requires i < |slots|
  {
    var hi := Bound(known, slots[i], ps, cfg, TierPreferred);
    && !hi.eliminated
    && forall j | 0 <= j < |slots| && j != i ::
         var lo := Bound(known, slots[j], ps, cfg, TierNo);
         lo.eliminated || lo.score <= hi.score
  }

  function CouldWinSet(slots: seq<Instant>, ps: seq<Participant>, cfg: Config, known: Answers): set<Instant> {
    set i | 0 <= i < |slots| && CouldWin(slots, ps, cfg, known, i) :: slots[i]
  }

  ghost predicate Distinct<T>(s: seq<T>) {
    forall i, j :: 0 <= i < j < |s| ==> s[i] != s[j]
  }

  // ---------- when the two bounds really are bounds ----------

  ghost predicate NoWorse(a: SlotScore, b: SlotScore) {
    !a.eliminated ==> !b.eliminated && a.score <= b.score
  }

  /** Every completion scores the slot between its two bounds. */
  ghost predicate BoundsHold(s: Instant, ps: seq<Participant>, cfg: Config, known: Answers) {
    forall c: Completion :: Completes(c, known) ==>
      && NoWorse(Bound(known, s, ps, cfg, TierNo), Under(c, s, ps, cfg))
      && NoWorse(Under(c, s, ps, cfg), Bound(known, s, ps, cfg, TierPreferred))
  }

  ghost predicate BoundsHoldEverywhere(slots: seq<Instant>, ps: seq<Participant>, cfg: Config, known: Answers) {
    forall s <- slots :: BoundsHold(s, ps, cfg, known)
  }

  /** An optional person who has not answered a slot that is outside working hours for them. */
  predicate Exposed(p: Participant, s: Instant, cfg: Config, known: Answers) {
    p.role == RoleOptional && known(p.id, s).None? && Unsociable(s, p, cfg)
  }

  predicate NobodyExposed(s: Instant, ps: seq<Participant>, cfg: Config, known: Answers) {
    cfg.unsociablePenalty == 0.0 || forall p <- ps :: !Exposed(p, s, cfg, known)
  }

  predicate NobodyExposedAnywhere(slots: seq<Instant>, ps: seq<Participant>, cfg: Config, known: Answers) {
    forall s <- slots :: NobodyExposed(s, ps, cfg, known)
  }

  lemma BoundsHoldWhenNobodyExposed(s: Instant, ps: seq<Participant>, cfg: Config, known: Answers)
    requires cfg.Sound() && NobodyExposed(s, ps, cfg, known)
    ensures BoundsHold(s, ps, cfg, known)
  {
    forall c: Completion | Completes(c, known)
      ensures NoWorse(Bound(known, s, ps, cfg, TierNo), Under(c, s, ps, cfg))
      ensures NoWorse(Under(c, s, ps, cfg), Bound(known, s, ps, cfg, TierPreferred))
    {
      ScoreMonotone(s, ps, cfg, Settle(Fill(known, TierNo)), Settle(c));
      ScoreMonotone(s, ps, cfg, Settle(c), Settle(Fill(known, TierPreferred)));
    }
  }

  // ---------- the bounds are attained ----------

  /** Everybody outstanding gives slot s the tier `here` and every other slot `elsewhere`. */
  function Split(known: Answers, s: Instant, here: Tier, elsewhere: Tier): Completion {
    (pid: string, at: Instant) => known(pid, at).GetOr(if at == s then here else elsewhere)
  }

  lemma SplitScores(known: Answers, s: Instant, ps: seq<Participant>, cfg: Config, here: Tier, elsewhere: Tier,
      o: Instant)
    ensures Completes(Split(known, s, here, elsewhere), known)
    ensures Under(Split(known, s, here, elsewhere), o, ps, cfg) ==
              Bound(known, o, ps, cfg, if o == s then here else elsewhere)
  {
    SameAnswersSameScore(o, ps, cfg, Settle(Split(known, s, here, elsewhere)),
                         Settle(Fill(known, if o == s then here else elsewhere)));
  }

  // ---------- exactness ----------

  /** The decidability test is exact: it succeeds on a slot just when every
      way of answering makes that slot win. */
  lemma ClearsIsSettled(slots: seq<Instant>, ps: seq<Participant>, cfg: Config, known: Answers, i: nat)
    requires i < |slots| && Distinct(slots)
    requires BoundsHoldEverywhere(slots, ps, cfg, known)
    ensures Clears(slots, ps, cfg, known, i) <==> Settled(slots, ps, cfg, known, slots[i])
  {
    var s := slots[i];
    if Clears(slots, ps, cfg, known, i) {
      forall c: Completion | Completes(c, known)
        ensures Wins(slots, ps, cfg, c, s)
      {
        assert BoundsHold(s, ps, cfg, known);
        forall o | o in slots && !Under(c, o, ps, cfg).eliminated
          ensures Under(c, o, ps, cfg).score <= Under(c, s, ps, cfg).score
        {
          var j :| 0 <= j < |slots| && slots[j] == o;
          assert BoundsHold(o, ps, cfg, known);
          assert NoWorse(Under(c, o, ps, cfg), Bound(known, o, ps, cfg, TierPreferred));
        }
      }
    }
    if Settled(slots, ps, cfg, known, s) {
      var c := Split(known, s, TierNo, TierPreferred);
      SplitScores(known, s, ps, cfg, TierNo, TierPreferred, s);
      assert Wins(slots, ps, cfg, c, s);
      forall j | 0 <= j < |slots| && j != i
        ensures var hi := Bound(known, slots[j], ps, cfg, TierPreferred);
                hi.eliminated || hi.score <= Bound(known, s, ps, cfg, TierNo).score
      {
        assert slots[j] != s;
        SplitScores(known, s, ps, cfg, TierNo, TierPreferred, slots[j]);
      }
    }
  }

  /** A slot the code keeps really can win: the split completion is the way. */
  lemma CouldWinAlwaysPossible(slots: seq<Instant>, ps: seq<Participant>, cfg: Config, known: Answers, i: nat)
    requires i < |slots| && Distinct(slots) && CouldWin(slots, ps, cfg, known, i)
    ensures Possible(slots, ps, cfg, known, slots[i])
  {
    var s := slots[i];
    var c := Split(known, s, TierPreferred, TierNo);
    SplitScores(known, s, ps, cfg, TierPreferred, TierNo, s);
    forall o <- slots | !Under(c, o, ps, cfg).eliminated
      ensures Under(c, o, ps, cfg).score <= Under(c, s, ps, cfg).score
    {
      var j :| 0 <= j < |slots| && slots[j] == o;
      SplitScores(known, s, ps, cfg, TierPreferred, TierNo, o);
    }
    assert Wins(slots, ps, cfg, c, s);
  }

  /** The still-possible test is exact: it keeps a slot just when some way of
      answering makes that slot win. */
  lemma CouldWinIsPossible(slots: seq<Instant>, ps: seq<Participant>, cfg: Config, known: Answers, i: nat)
    requires i < |slots| && Distinct(slots)
    requires BoundsHoldEverywhere(slots, ps, cfg, known)
    ensures CouldWin(slots, ps, cfg, known, i) <==> Possible(slots, ps, cfg, known, slots[i])
  {
    var s := slots[i];
    if CouldWin(slots, ps, cfg, known, i) {
      CouldWinAlwaysPossible(slots, ps, cfg, known, i);
    }
    if Possible(slots, ps, cfg, known, s) {
      var c: Completion :| Completes(c, known) && Wins(slots, ps, cfg, c, s);
      assert BoundsHold(s, ps, cfg, known);
      forall j | 0 <= j < |slots| && j != i
        ensures var lo := Bound(known, slots[j], ps, cfg, TierNo);
                lo.eliminated || lo.score <= Bound(known, s, ps, cfg, TierPreferred).score
      {
        assert BoundsHold(slots[j], ps, cfg, known);
        assert NoWorse(Bound(known, slots[j], ps, cfg, TierNo), Under(c, slots[j], ps, cfg));
      }
    }
  }

  lemma BoundsHoldEverywhereWhenNobodyExposed(slots: seq<Instant>, ps: seq<Participant>, cfg: Config, known: Answers)
    requires cfg.Sound() && NobodyExposedAnywhere(slots, ps, cfg, known)
    ensures BoundsHoldEverywhere(slots, ps, cfg, known)
  {
    forall s <- slots {
      BoundsHoldWhenNobodyExposed(s, ps, cfg, known);
    }
  }

  /** The set of possible winners the code computes is the real one. */
  lemma CouldWinSetIsPossibleSet(slots: seq<Instant>, ps: seq<Participant>, cfg: Config, known: Answers)
    requires Distinct(slots) && BoundsHoldEverywhere(slots, ps, cfg, known)
    ensures CouldWinSet(slots, ps, cfg, known) == PossibleSet(slots, ps, cfg, known)
  {
    forall i: nat | i < |slots| {
      CouldWinIsPossible(slots, ps, cfg, known, i);
    }
  }

  // ---------- pinning one person ----------

  /** Learning one person's uniform answer never makes a new winner possible. */
  lemma PinningNarrows(slots: seq<Instant>, ps: seq<Participant>, cfg: Config, known: Answers, pinID: string, pin: Tier)
    ensures PossibleSet(slots, ps, cfg, Pin(known, pinID, pin)) <= PossibleSet(slots, ps, cfg, known)
  {
    forall s | s in slots && Possible(slots, ps, cfg, Pin(known, pinID, pin), s)
      ensures Possible(slots, ps, cfg, known, s)
    {
      var c: Completion :| Completes(c, Pin(known, pinID, pin)) && Wins(slots, ps, cfg, c, s);
      forall pid, at | known(pid, at).Some? ensures c(pid, at) == known(pid, at).value {
        assert Pin(known, pinID, pin)(pid, at).Some?;
      }
      assert Completes(c, known);
    }
  }

  lemma PinnedStaysUnexposed(slots: seq<Instant>, ps: seq<Participant>, cfg: Config, known: Answers, pinID: string,
      pin: Tier)
    requires NobodyExposedAnywhere(slots, ps, cfg, known)
    ensures NobodyExposedAnywhere(slots, ps, cfg, Pin(known, pinID, pin))
  {
    forall s <- slots ensures NobodyExposed(s, ps, cfg, Pin(known, pinID, pin)) {
      assert NobodyExposed(s, ps, cfg, known);
      forall p <- ps ensures Exposed(p, s, cfg, Pin(known, pinID, pin)) ==> Exposed(p, s, cfg, known) {
      }
    }
  }
}
