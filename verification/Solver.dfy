/** The solver's loops (solver.go), each proved against the scoring function
    and the meaning of "decided", "possible" and "relevant". */
module Solver {
  import opened Options
  import opened Zones
  import opened Scoring
  import opened ScoreMeaning
  import opened Dominance

  /** scoreSlot's arithmetic for one person who can attend. */
  method CountAttending(was: Tally, p: Participant, start: Instant, cfg: Config, tier: Tier) returns (t: Tally)
    requires tier != TierNo
    ensures t == Count(was, p, start, cfg, Some(tier))
  {
    hide Unsociable;
    t := was.(coverage := was.coverage + 1);
    var w := cfg.optionalWeight;
    if p.role == RoleRequired {
      w := 1.0;
      t := t.(haveRequired := true);
      if tier.Value() < t.minRequired {
        t := t.(minRequired := tier.Value());
      }
    }
    assert w == if p.role == RoleRequired then 1.0 else cfg.optionalWeight;
    t := t.(weighted := t.weighted + tier.Value() * w, weights := t.weights + w);
    if Unsociable(start, p, cfg) {
      t := t.(penalized := t.penalized + 1);
    }
  }

  /** The loop of scoreSlot: one walk over the participants. */
  method WalkParticipants(start: Instant, ps: seq<Participant>, cfg: Config, get: Answers) returns (t: Tally)
    ensures t == TallyAll(start, ps, cfg, get)
  {
    hide Unsociable;
    t := EMPTY_TALLY;
    for i := 0 to |ps|
      invariant t == TallyAll(start, ps[..i], cfg, get)
    {
      var p := ps[i];
      assert ps[..i + 1][..i] == ps[..i];
      var answer := get(p.id, start);
      if answer.None? {
        t := t.(unknown := t.unknown + [p.name]);
        continue;
      }
      var tier := answer.value;
      if tier == TierNo {
        if p.role == RoleRequired {
          t := t.(eliminatedBy := t.eliminatedBy + [p.name]);
          continue;
        }
        t := t.(excludes := t.excludes + [p.name], weights := t.weights + cfg.optionalWeight);
        continue;
      }
      t := CountAttending(t, p, start, cfg, tier);
    }
    assert ps[..|ps|] == ps;
  }

  /** scoreSlot: the walk, then the blend, the capped penalty and the clamp at zero. */
  method ScoreSlot(start: Instant, ps: seq<Participant>, cfg: Config, get: Answers) returns (s: SlotScore)
    ensures s == ScoreOf(start, ps, cfg, get)
    ensures Scored(s, start, ps, cfg, get)
  {
    hide Scored;
    ScoreMeans(start, ps, cfg, get);
    var t := WalkParticipants(start, ps, cfg, get);
    s := SlotScore(start, t.eliminatedBy != [], t.eliminatedBy, t.excludes, t.unknown, t.coverage, |ps|, 0.0, 0.0);
    if s.eliminated || t.weights == 0.0 {
      return;
    }
    var penalty := Penalty(t.penalized, cfg);
    var score := Base(t, cfg, t.weighted) - penalty;
    if score < 0.0 {
      score := 0.0;
    }
    s := s.(penalty := penalty, score := score);
  }

  /** The k-th slot is the first among those nobody has ruled out with the highest score. */
  ghost predicate FirstBest(slots: seq<Instant>, ps: seq<Participant>, cfg: Config, known: Answers, k: nat)
    requires k < |slots|
  {
    && !ScoreOf(slots[k], ps, cfg, known).eliminated
    && (forall j :: 0 <= j < |slots| && !ScoreOf(slots[j], ps, cfg, known).eliminated ==>
          ScoreOf(slots[j], ps, cfg, known).score <= ScoreOf(slots[k], ps, cfg, known).score)
    && (forall j :: 0 <= j < k && !ScoreOf(slots[j], ps, cfg, known).eliminated ==>
          ScoreOf(slots[j], ps, cfg, known).score < ScoreOf(slots[k], ps, cfg, known).score)
  }

  ghost predicate AnyAlive(slots: seq<Instant>, ps: seq<Participant>, cfg: Config, known: Answers) {
    exists k :: 0 <= k < |slots| && !ScoreOf(slots[k], ps, cfg, known).eliminated
  }

  /** leaderOf: the earliest best-scoring survivor on the answers so far. */
  method LeaderOf(slots: seq<Instant>, ps: seq<Participant>, cfg: Config, known: Answers)
    returns (leader: Option<Instant>)
    ensures leader.Some? <==> AnyAlive(slots, ps, cfg, known)
    ensures leader.Some? ==>
              exists k: nat :: k < |slots| && slots[k] == leader.value && FirstBest(slots, ps, cfg, known, k)
  {
    hide ScoreOf;
    leader := None;
    var best := 0.0;
    ghost var k := 0;
    for i := 0 to |slots|
      invariant leader.None? ==> forall j :: 0 <= j < i ==> ScoreOf(slots[j], ps, cfg, known).eliminated
      invariant leader.Some? ==> 0 <= k < i && slots[k] == leader.value && FirstBest(slots[..i], ps, cfg, known, k)
      invariant leader.Some? ==> best == ScoreOf(slots[k], ps, cfg, known).score
    {
      var sc := ScoreSlot(slots[i], ps, cfg, known);
      if sc.eliminated {
        continue;
      }
      if leader.None? || sc.score > best {
        leader, best, k := Some(slots[i]), sc.score, i;
      }
    }
    assert slots[..|slots|] == slots;
  }

  /** boundAll, and boundAllPinned when `known` already holds the pinned answers. */
  method BoundAll(slots: seq<Instant>, ps: seq<Participant>, cfg: Config, known: Answers, fill: Tier)
    returns (out: map<Instant, SlotScore>)
    ensures out.Keys == set s | s in slots
    ensures forall k :: 0 <= k < |slots| ==> slots[k] in out && out[slots[k]] == Bound(known, slots[k], ps, cfg, fill)
  {
    out := map[];
    for i := 0 to |slots|
      invariant out.Keys == set s | s in slots[..i]
      invariant forall k :: 0 <= k < i ==> slots[k] in out && out[slots[k]] == Bound(known, slots[k], ps, cfg, fill)
    {
      var sc := ScoreSlot(slots[i], ps, cfg, Settle(Fill(known, fill)));
      out := out[slots[i] := sc];
    }
  }

  /** winnersFrom: the slots whose best case no rival's worst case beats. */
  method WinnersFrom(slots: seq<Instant>, lo: map<Instant, SlotScore>, hi: map<Instant, SlotScore>)
    returns (winners: set<Instant>)
    requires forall k :: 0 <= k < |slots| ==> slots[k] in lo && slots[k] in hi
    ensures winners == set i | 0 <= i < |slots| && StillInIt(slots, lo, hi, i) :: slots[i]
  {
    winners := {};
    for i := 0 to |slots|
      invariant winners == set k | 0 <= k < i && StillInIt(slots, lo, hi, k) :: slots[k]
    {
      if hi[slots[i]].eliminated {
        continue;
      }
      var could := true;
      for j := 0 to |slots|
        invariant could <==> forall k :: 0 <= k < j && k != i && !lo[slots[k]].eliminated ==>
                    lo[slots[k]].score <= hi[slots[i]].score
      {
        if i == j || lo[slots[j]].eliminated {
          continue;
        }
        if lo[slots[j]].score > hi[slots[i]].score {
          could := false;
          break;
        }
      }
      if could {
        winners := winners + {slots[i]};
      }
    }
  }

  predicate StillInIt(slots: seq<Instant>, lo: map<Instant, SlotScore>, hi: map<Instant, SlotScore>, i: nat)
    requires i < |slots| && forall k :: 0 <= k < |slots| ==> slots[k] in lo && slots[k] in hi
  {
    !hi[slots[i]].eliminated &&
    forall k :: 0 <= k < |slots| && k != i && !lo[slots[k]].eliminated ==> lo[slots[k]].score <= hi[slots[i]].score
  }

  /** possibleWinners, and possibleWinnersPinned when `known` holds the pinned answers. */
  method PossibleWinners(slots: seq<Instant>, ps: seq<Participant>, cfg: Config, known: Answers)
    returns (w: set<Instant>)
    ensures w == CouldWinSet(slots, ps, cfg, known)
    ensures Distinct(slots) && BoundsHoldEverywhere(slots, ps, cfg, known) ==> w == PossibleSet(slots, ps, cfg, known)
  {
    var lo := BoundAll(slots, ps, cfg, known, TierNo);
    var hi := BoundAll(slots, ps, cfg, known, TierPreferred);
    w := WinnersFrom(slots, lo, hi);
    forall i: nat | i < |slots| ensures StillInIt(slots, lo, hi, i) <==> CouldWin(slots, ps, cfg, known, i) {
    }
    if Distinct(slots) && BoundsHoldEverywhere(slots, ps, cfg, known) {
      CouldWinSetIsPossibleSet(slots, ps, cfg, known);
    }
  }

  // ---------- whom to chase ----------

  predicate Missing(slots: seq<Instant>, known: Answers, p: Participant) {
    exists k :: 0 <= k < |slots| && known(p.id, slots[k]).None?
  }

  method FindMissing(slots: seq<Instant>, known: Answers, p: Participant) returns (missing: bool)
    ensures missing == Missing(slots, known, p)
  {
    missing := false;
    for k := 0 to |slots|
      invariant !missing && !Missing(slots[..k], known, p)
    {
      if known(p.id, slots[k]).None? {
        return true;
      }
    }
  }

  /** What the code asks about a person: do the two settled cases and the
      unsettled one disagree anywhere? */
  ghost predicate MovesField(slots: seq<Instant>, ps: seq<Participant>, cfg: Config, known: Answers, p: Participant) {
    var now := CouldWinSet(slots, ps, cfg, known);
    var worst := CouldWinSet(slots, ps, cfg, Pin(known, p.id, TierNo));
    var best := CouldWinSet(slots, ps, cfg, Pin(known, p.id, TierPreferred));
    Missing(slots, known, p) && (worst != best || now != worst || now != best)
  }

  /** The meaning: answering the same way everywhere, all "no" or all
      "preferred", this person strictly shrinks the set of possible winners. */
  ghost predicate UniformAnswerNarrows(slots: seq<Instant>, ps: seq<Participant>, cfg: Config, known: Answers,
      p: Participant)
  {
    && Missing(slots, known, p)
    && (PossibleSet(slots, ps, cfg, Pin(known, p.id, TierNo)) < PossibleSet(slots, ps, cfg, known)
        || PossibleSet(slots, ps, cfg, Pin(known, p.id, TierPreferred)) < PossibleSet(slots, ps, cfg, known))
  }

  /** A person left off the list changes nothing by either uniform answer. */
  ghost predicate UniformAnswersIdle(slots: seq<Instant>, ps: seq<Participant>, cfg: Config, known: Answers,
      p: Participant)
  {
    && PossibleSet(slots, ps, cfg, Pin(known, p.id, TierNo)) == PossibleSet(slots, ps, cfg, known)
    && PossibleSet(slots, ps, cfg, Pin(known, p.id, TierPreferred)) == PossibleSet(slots, ps, cfg, known)
  }

  /** The two fills bound every completion, as things stand and once this
      person has answered the same way everywhere. */
  ghost predicate BoundsHoldPinned(slots: seq<Instant>, ps: seq<Participant>, cfg: Config, known: Answers,
      p: Participant)
  {
    && BoundsHoldEverywhere(slots, ps, cfg, known)
    && BoundsHoldEverywhere(slots, ps, cfg, Pin(known, p.id, TierNo))
    && BoundsHoldEverywhere(slots, ps, cfg, Pin(known, p.id, TierPreferred))
  }

  lemma BoundsHoldPinnedWhenNobodyExposed(
    slots: seq<Instant>, ps: seq<Participant>, cfg: Config, known: Answers, p: Participant)
    requires cfg.Sound() && NobodyExposedAnywhere(slots, ps, cfg, known)
    ensures BoundsHoldPinned(slots, ps, cfg, known, p)
  {
    PinnedStaysUnexposed(slots, ps, cfg, known, p.id, TierNo);
    PinnedStaysUnexposed(slots, ps, cfg, known, p.id, TierPreferred);
    BoundsHoldEverywhereWhenNobodyExposed(slots, ps, cfg, known);
    BoundsHoldEverywhereWhenNobodyExposed(slots, ps, cfg, Pin(known, p.id, TierNo));
    BoundsHoldEverywhereWhenNobodyExposed(slots, ps, cfg, Pin(known, p.id, TierPreferred));
  }

  /** Nobody is chased in vain, and nobody whose uniform answer matters is left out. */
  lemma ChasedExactlyWhenNarrowing(slots: seq<Instant>, ps: seq<Participant>, cfg: Config, known: Answers,
      p: Participant)
    requires Distinct(slots) && BoundsHoldPinned(slots, ps, cfg, known, p)
    ensures MovesField(slots, ps, cfg, known, p) <==> UniformAnswerNarrows(slots, ps, cfg, known, p)
    ensures Missing(slots, known, p) && !MovesField(slots, ps, cfg, known, p) ==>
              UniformAnswersIdle(slots, ps, cfg, known, p)
  {
    CouldWinSetIsPossibleSet(slots, ps, cfg, known);
    CouldWinSetIsPossibleSet(slots, ps, cfg, Pin(known, p.id, TierNo));
    CouldWinSetIsPossibleSet(slots, ps, cfg, Pin(known, p.id, TierPreferred));
    PinningNarrows(slots, ps, cfg, known, p.id, TierNo);
    PinningNarrows(slots, ps, cfg, known, p.id, TierPreferred);
  }

  /** relevantNonResponders. */
  method RelevantNonResponders(slots: seq<Instant>, ps: seq<Participant>, cfg: Config, known: Answers)
    returns (out: seq<string>)
    ensures out == NamesWhere(ps, p => MovesField(slots, ps, cfg, known, p))
    ensures Distinct(slots) && (forall p <- ps :: BoundsHoldPinned(slots, ps, cfg, known, p)) ==>
              out == NamesWhere(ps, p => UniformAnswerNarrows(slots, ps, cfg, known, p))
  {
    var asThingsStand := PossibleWinners(slots, ps, cfg, known);
    ghost var moves := (p: Participant) => MovesField(slots, ps, cfg, known, p);
    out := [];
    for i := 0 to |ps|
      invariant out == NamesWhere(ps[..i], moves)
    {
      var p := ps[i];
      assert ps[..i + 1][..i] == ps[..i];
      var missing := FindMissing(slots, known, p);
      if !missing {
        continue;
      }
      var worst := PossibleWinners(slots, ps, cfg, Pin(known, p.id, TierNo));
      var best := PossibleWinners(slots, ps, cfg, Pin(known, p.id, TierPreferred));
      if worst != best || asThingsStand != worst || asThingsStand != best {
        out := out + [p.name];
      }
    }
    assert ps[..|ps|] == ps;
    SamePicksSameNames(ps, moves, p => MovesField(slots, ps, cfg, known, p));
    if Distinct(slots) && (forall p <- ps :: BoundsHoldPinned(slots, ps, cfg, known, p)) {
      forall p <- ps {
        ChasedExactlyWhenNarrowing(slots, ps, cfg, known, p);
      }
      SamePicksSameNames(ps, moves, p => UniformAnswerNarrows(slots, ps, cfg, known, p));
    }
  }

  // ---------- the verdict ----------

  datatype Verdict = Verdict(decidable: bool, leader: Option<Instant>, blockingRequired: seq<string>,
      relevant: seq<string>)

  ghost predicate Blocking(slots: seq<Instant>, known: Answers, p: Participant) {
    p.role == RoleRequired && Missing(slots, known, p)
  }

  method BlockingRequired(slots: seq<Instant>, ps: seq<Participant>, known: Answers) returns (out: seq<string>)
    ensures out == NamesWhere(ps, p => Blocking(slots, known, p))
  {
    ghost var blocks := (p: Participant) => Blocking(slots, known, p);
    out := [];
    for i := 0 to |ps|
      invariant out == NamesWhere(ps[..i], blocks)
    {
      assert ps[..i + 1][..i] == ps[..i];
      if ps[i].role != RoleRequired {
        continue;
      }
      var missing := FindMissing(slots, known, ps[i]);
      if missing {
        out := out + [ps[i].name];
      }
    }
    assert ps[..|ps|] == ps;
    SamePicksSameNames(ps, blocks, p => Blocking(slots, known, p));
  }

  predicate WorstClearsBests(slots: seq<Instant>, lo: map<Instant, SlotScore>, hi: map<Instant, SlotScore>, i: nat)
    requires i < |slots| && forall k :: 0 <= k < |slots| ==> slots[k] in lo && slots[k] in hi
  {
    !lo[slots[i]].eliminated &&
    forall k :: 0 <= k < |slots| && k != i && !hi[slots[k]].eliminated ==> hi[slots[k]].score <= lo[slots[i]].score
  }

  /** The nested search of Analyze: the first slot whose worst case clears every rival. */
  method FirstClearing(slots: seq<Instant>, lo: map<Instant, SlotScore>, hi: map<Instant, SlotScore>) returns (k: nat)
    requires forall k :: 0 <= k < |slots| ==> slots[k] in lo && slots[k] in hi
    ensures k <= |slots|
    ensures k < |slots| ==> WorstClearsBests(slots, lo, hi, k)
    ensures forall i :: 0 <= i < k ==> !WorstClearsBests(slots, lo, hi, i)
  {
    k := 0;
    while k < |slots|
      invariant k <= |slots|
      invariant forall i :: 0 <= i < k ==> !WorstClearsBests(slots, lo, hi, i)
    {
      if !lo[slots[k]].eliminated {
        var best := true;
        for j := 0 to |slots|
          invariant best <==> forall i :: 0 <= i < j && i != k && !hi[slots[i]].eliminated ==>
                      hi[slots[i]].score <= lo[slots[k]].score
        {
          if k == j || hi[slots[j]].eliminated {
            continue;
          }
          if hi[slots[j]].score > lo[slots[k]].score {
            best := false;
            break;
          }
        }
        if best {
          return;
        }
      }
      k := k + 1;
    }
  }

  /** The first slot whose worst case clears every rival's best case. */
  ghost predicate FirstToClear(slots: seq<Instant>, ps: seq<Participant>, cfg: Config, known: Answers, k: nat)
    requires k < |slots|
  {
    Clears(slots, ps, cfg, known, k) && forall i: nat :: i < k ==> !Clears(slots, ps, cfg, known, i)
  }

  /** The first slot that wins whatever the outstanding answers are. */
  ghost predicate FirstSettled(slots: seq<Instant>, ps: seq<Participant>, cfg: Config, known: Answers, k: nat)
    requires k < |slots|
  {
    Settled(slots, ps, cfg, known, slots[k]) && forall i: nat :: i < k ==> !Settled(slots, ps, cfg, known, slots[i])
  }

  /** What Analyze reports, in terms of the bounds it computes. */
  ghost predicate Reports(slots: seq<Instant>, ps: seq<Participant>, cfg: Config, known: Answers, d: Verdict) {
    && d.blockingRequired == NamesWhere(ps, p => Blocking(slots, known, p))
    && if d.decidable then
         && d.relevant == []
         && exists k: nat :: k < |slots| && d.leader == Some(slots[k]) && FirstToClear(slots, ps, cfg, known, k)
       else
         && (forall i: nat :: i < |slots| ==> !Clears(slots, ps, cfg, known, i))
         && (d.leader.Some? <==> AnyAlive(slots, ps, cfg, known))
         && (d.leader.Some? ==>
               exists k: nat :: k < |slots| && slots[k] == d.leader.value && FirstBest(slots, ps, cfg, known, k))
         && d.relevant == NamesWhere(ps, p => MovesField(slots, ps, cfg, known, p))
  }

  /** Decidable means decided: just when some slot wins whatever the
      outstanding answers are, and then the leader is the first such slot. */
  ghost predicate DecidesExactly(slots: seq<Instant>, ps: seq<Participant>, cfg: Config, known: Answers, d: Verdict) {
    && (d.decidable <==> exists s <- slots :: Settled(slots, ps, cfg, known, s))
    && (d.decidable ==>
          exists k: nat :: k < |slots| && d.leader == Some(slots[k]) && FirstSettled(slots, ps, cfg, known, k))
  }

  lemma ReportDecidesExactly(slots: seq<Instant>, ps: seq<Participant>, cfg: Config, known: Answers, d: Verdict)
    requires Distinct(slots) && BoundsHoldEverywhere(slots, ps, cfg, known)
    requires Reports(slots, ps, cfg, known, d)
    ensures DecidesExactly(slots, ps, cfg, known, d)
  {
    forall i: nat | i < |slots|
      ensures Clears(slots, ps, cfg, known, i) <==> Settled(slots, ps, cfg, known, slots[i])
    {
      ClearsIsSettled(slots, ps, cfg, known, i);
    }
    if d.decidable {
      var k: nat :| k < |slots| && d.leader == Some(slots[k]) && FirstToClear(slots, ps, cfg, known, k);
      assert FirstSettled(slots, ps, cfg, known, k);
      assert slots[k] in slots;
    }
  }

  /** Analyze.  When the bounds hold the verdict decides exactly; when they go on
      holding whatever one person answers throughout, an undecided verdict names
      exactly the people whose uniform answer narrows the field. */
  method Analyze(slots: seq<Instant>, ps: seq<Participant>, cfg: Config, known: Answers) returns (d: Verdict)
    ensures Reports(slots, ps, cfg, known, d)
    ensures Distinct(slots) && BoundsHoldEverywhere(slots, ps, cfg, known) ==> DecidesExactly(slots, ps, cfg, known, d)
    ensures Distinct(slots) && (forall p <- ps :: BoundsHoldPinned(slots, ps, cfg, known, p)) && !d.decidable ==>
              d.relevant == NamesWhere(ps, p => UniformAnswerNarrows(slots, ps, cfg, known, p))
  {
    hide ScoreOf, Bound, FirstBest, AnyAlive, MovesField, NamesWhere;
    var leader := LeaderOf(slots, ps, cfg, known);
    var blocking := BlockingRequired(slots, ps, known);
    var lo := BoundAll(slots, ps, cfg, known, TierNo);
    var hi := BoundAll(slots, ps, cfg, known, TierPreferred);
    var k := FirstClearing(slots, lo, hi);
    assert forall i: nat :: i < |slots| ==> (WorstClearsBests(slots, lo, hi, i) <==> Clears(slots, ps, cfg, known, i));
    if k < |slots| {
      d := Verdict(true, Some(slots[k]), blocking, []);
      assert FirstToClear(slots, ps, cfg, known, k);
    } else {
      var relevant := RelevantNonResponders(slots, ps, cfg, known);
      d := Verdict(false, leader, blocking, relevant);
    }
    if Distinct(slots) && BoundsHoldEverywhere(slots, ps, cfg, known) {
      ReportDecidesExactly(slots, ps, cfg, known, d);
    }
  }
}
