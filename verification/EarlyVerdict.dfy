/** A poll on which the decidable verdict comes too early.

    Two people west of Greenwich like the late slot best; for a third, who has
    not answered, that slot is late at night.  The verdict calls the late slot
    decided.  Should the third person answer "if needed" there and "preferred"
    for the early slot, the early slot wins. */
module EarlyVerdict {
  import opened Options
  import opened Zones
  import opened Scoring
  import opened Dominance
  import opened ScoreMeaning
  import opened Solver

  const WEST := Zone(-8 * HOUR, [])
  const ANA := Participant("ana", "Ana", RoleRequired, Some(WEST))
  const BOB := Participant("bob", "Bob", RoleOptional, Some(WEST))
  const CARA := Participant("cara", "Cara", RoleOptional, None)
  const PEOPLE := [ANA, BOB, CARA]

  const LATE: Instant := 23 * HOUR
  const EARLY: Instant := 17 * HOUR
  const SLOTS := [EARLY, LATE]

  const ANSWERS: Responses := map[
    "ana" := map[LATE := TierPreferred, EARLY := TierOK],
    "bob" := map[LATE := TierPreferred, EARLY := TierOK]]

  lemma TallyOfThree(s: Instant, get: Answers)
    ensures TallyAll(s, PEOPLE, DEFAULT_CONFIG, get) ==
            Count(Count(Count(EMPTY_TALLY, ANA, s, DEFAULT_CONFIG, get("ana", s)),
                        BOB, s, DEFAULT_CONFIG, get("bob", s)),
                  CARA, s, DEFAULT_CONFIG, get("cara", s))
  {
    var none: seq<Participant> := [];
    assert PEOPLE[..2] == [ANA, BOB] && [ANA, BOB][..1] == [ANA] && [ANA][..0] == none;
    assert TallyAll(s, none, DEFAULT_CONFIG, get) == EMPTY_TALLY;
    assert TallyAll(s, [ANA], DEFAULT_CONFIG, get) == Count(EMPTY_TALLY, ANA, s, DEFAULT_CONFIG, get("ana", s));
  }

  lemma OnlyCaraIsUpLate()
    ensures forall p <- PEOPLE :: Unsociable(LATE, p, DEFAULT_CONFIG) <==> p == CARA
    ensures forall p <- PEOPLE :: !Unsociable(EARLY, p, DEFAULT_CONFIG)
  {
    assert ANA.Location() == WEST && BOB.Location() == WEST && CARA.Location() == UTC;
    assert WEST.LocalSecond(LATE) == 15 * HOUR && UTC.LocalSecond(LATE) == 23 * HOUR;
    assert WEST.LocalSecond(EARLY) == 9 * HOUR && UTC.LocalSecond(EARLY) == 17 * HOUR;
  }

  lemma Known()
    ensures var k := Lookup(ANSWERS);
            && k("ana", LATE) == k("bob", LATE) == Some(TierPreferred)
            && k("ana", EARLY) == k("bob", EARLY) == Some(TierOK)
            && k("cara", LATE) == k("cara", EARLY) == None
  {
    assert "ana"[0] == 'a' && "bob"[0] == 'b' && "cara"[0] == 'c';
  }

  /** The late slot as Cara's answer to it varies. */
  lemma LateScore(tier: Tier)
    requires tier != TierOK
    ensures var s := Bound(Lookup(ANSWERS), LATE, PEOPLE, DEFAULT_CONFIG, tier);
            !s.eliminated && s.score == match tier { case TierNo => 0.825 case TierIfNeeded => 0.7275 case _ => 0.85 }
  {
    OnlyCaraIsUpLate();
    Known();
    hide Unsociable, Lookup, TallyAll;
    TallyOfThree(LATE, Settle(Fill(Lookup(ANSWERS), tier)));
    assert ANA in PEOPLE && BOB in PEOPLE && CARA in PEOPLE;
  }

  /** The early slot at its worst and at its best. */
  lemma EarlyScore(tier: Tier)
    requires tier == TierNo || tier == TierPreferred
    ensures var s := Bound(Lookup(ANSWERS), EARLY, PEOPLE, DEFAULT_CONFIG, tier);
            !s.eliminated && s.score == if tier == TierNo then 0.5775 else 0.7525
  {
    OnlyCaraIsUpLate();
    Known();
    hide Unsociable, Lookup, TallyAll;
    TallyOfThree(EARLY, Settle(Fill(Lookup(ANSWERS), tier)));
    assert ANA in PEOPLE && BOB in PEOPLE && CARA in PEOPLE;
  }

  /** Cara can still make the early slot win. */
  lemma EarlyStillPossible()
    ensures Possible(SLOTS, PEOPLE, DEFAULT_CONFIG, Lookup(ANSWERS), EARLY)
    ensures !Settled(SLOTS, PEOPLE, DEFAULT_CONFIG, Lookup(ANSWERS), LATE)
  {
    hide ScoreOf, Lookup;
    var known := Lookup(ANSWERS);
    LateScore(TierIfNeeded);
    EarlyScore(TierPreferred);
    var c := Split(known, LATE, TierIfNeeded, TierPreferred);
    SplitScores(known, LATE, PEOPLE, DEFAULT_CONFIG, TierIfNeeded, TierPreferred, LATE);
    SplitScores(known, LATE, PEOPLE, DEFAULT_CONFIG, TierIfNeeded, TierPreferred, EARLY);
    assert SLOTS[0] == EARLY && SLOTS[1] == LATE;
    assert Wins(SLOTS, PEOPLE, DEFAULT_CONFIG, c, EARLY) && !Wins(SLOTS, PEOPLE, DEFAULT_CONFIG, c, LATE);
  }

  /** The code rules the early slot out all the same, and calls the late one decided. */
  lemma EarlyRuledOut()
    ensures !CouldWin(SLOTS, PEOPLE, DEFAULT_CONFIG, Lookup(ANSWERS), 0)
    ensures !Clears(SLOTS, PEOPLE, DEFAULT_CONFIG, Lookup(ANSWERS), 0)
    ensures Clears(SLOTS, PEOPLE, DEFAULT_CONFIG, Lookup(ANSWERS), 1)
  {
    hide ScoreOf, Lookup;
    LateScore(TierNo);
    LateScore(TierPreferred);
    EarlyScore(TierNo);
    EarlyScore(TierPreferred);
    assert SLOTS[0] == EARLY && SLOTS[1] == LATE;
    hide Bound;
  }

  /** On slots in order, every verdict Analyze can give says that the late slot
      is decided, though an answer still to come makes the early one win. */
  lemma VerdictTooEarly()
    ensures EARLY < LATE
    ensures forall d: Solver.Verdict :: Reports(SLOTS, PEOPLE, DEFAULT_CONFIG, Lookup(ANSWERS), d) ==>
              d.decidable && d.leader == Some(LATE)
    ensures !Settled(SLOTS, PEOPLE, DEFAULT_CONFIG, Lookup(ANSWERS), LATE)
    ensures Possible(SLOTS, PEOPLE, DEFAULT_CONFIG, Lookup(ANSWERS), EARLY)
    ensures EARLY !in CouldWinSet(SLOTS, PEOPLE, DEFAULT_CONFIG, Lookup(ANSWERS))
  {
    EarlyRuledOut();
    EarlyStillPossible();
    hide Clears, CouldWin, Settled, Possible, Lookup, AnyAlive, FirstBest, MovesField, NamesWhere;
    assert SLOTS[0] == EARLY && SLOTS[1] == LATE;
  }
}
