/** A poll on which the ranking comparator runs in a circle.

    Everybody can make all three slots, in working hours; two of four people
    like the first slot better than the third, and one of them likes the second
    as well as the first.  Each slot scores within epsilon of the next, the first
    and the last do not, and a history that prefers later slots closes the circle. */
module RankingCircle {
  import opened Options
  import opened Zones
  import opened Scoring
  import opened Dominance
  import opened Ranking
  import opened Sorting

  const ANA := Participant("ana", "Ana", RoleRequired, None)
  const BOB := Participant("bob", "Bob", RoleOptional, None)
  const CARA := Participant("cara", "Cara", RoleOptional, None)
  const DAN := Participant("dan", "Dan", RoleOptional, None)
  const PEOPLE := [ANA, BOB, CARA, DAN]

  const TEN: Instant := 10 * HOUR
  const ELEVEN: Instant := 11 * HOUR
  const NOON: Instant := 12 * HOUR
  const SLOTS := [TEN, ELEVEN, NOON]

  const ANSWERS: Responses := map[
    "ana" := map[TEN := TierOK, ELEVEN := TierOK, NOON := TierOK],
    "bob" := map[TEN := TierPreferred, ELEVEN := TierPreferred, NOON := TierOK],
    "cara" := map[TEN := TierPreferred, ELEVEN := TierOK, NOON := TierOK],
    "dan" := map[TEN := TierOK, ELEVEN := TierOK, NOON := TierOK]]

  lemma TallyOfFour(s: Instant, get: Answers)
    ensures TallyAll(s, PEOPLE, DEFAULT_CONFIG, get) ==
            Count(Count(Count(Count(EMPTY_TALLY, ANA, s, DEFAULT_CONFIG, get("ana", s)),
                              BOB, s, DEFAULT_CONFIG, get("bob", s)),
                        CARA, s, DEFAULT_CONFIG, get("cara", s)),
                  DAN, s, DEFAULT_CONFIG, get("dan", s))
  {
    hide Count;
    var none: seq<Participant> := [];
    assert PEOPLE[..3] == [ANA, BOB, CARA] && PEOPLE[..3][..2] == [ANA, BOB];
    assert [ANA, BOB][..1] == [ANA] && [ANA][..0] == none;
    assert TallyAll(s, none, DEFAULT_CONFIG, get) == EMPTY_TALLY;
    assert TallyAll(s, [ANA], DEFAULT_CONFIG, get) == Count(EMPTY_TALLY, ANA, s, DEFAULT_CONFIG, get("ana", s));
    assert TallyAll(s, [ANA, BOB], DEFAULT_CONFIG, get)
        == Count(TallyAll(s, [ANA], DEFAULT_CONFIG, get), BOB, s, DEFAULT_CONFIG, get("bob", s));
    assert TallyAll(s, PEOPLE[..3], DEFAULT_CONFIG, get)
        == Count(TallyAll(s, [ANA, BOB], DEFAULT_CONFIG, get), CARA, s, DEFAULT_CONFIG, get("cara", s));
  }

  lemma InWorkingHours(s: Instant, p: Participant)
    requires s in SLOTS && p.loc.None?
    ensures !Unsociable(s, p, DEFAULT_CONFIG)
  {
    assert UTC.LocalSecond(s) == s;
  }

  /** What each person answers for a slot. */
  lemma Known(s: Instant)
    requires s in SLOTS
    ensures var k := Lookup(ANSWERS);
            && k("ana", s) == k("dan", s) == Some(TierOK)
            && k("bob", s) == Some(if s == NOON then TierOK else TierPreferred)
            && k("cara", s) == Some(if s == TEN then TierPreferred else TierOK)
  {
    assert "ana"[0] == 'a' && "bob"[0] == 'b' && "cara"[0] == 'c' && "dan"[0] == 'd';
  }

  lemma ScoreAt(s: Instant)
    requires s in SLOTS
    ensures var sc := ScoreOf(s, PEOPLE, DEFAULT_CONFIG, Lookup(ANSWERS));
            && !sc.eliminated && sc.coverage == 4 && sc.start == s
            && sc.score == if s == TEN then 0.784 else if s == ELEVEN then 0.742 else 0.7
  {
    InWorkingHours(s, ANA);
    InWorkingHours(s, BOB);
    InWorkingHours(s, CARA);
    InWorkingHours(s, DAN);
    Known(s);
    hide Unsociable, Lookup, TallyAll;
    TallyOfFour(s, Lookup(ANSWERS));
  }

  /** On this poll some history makes the comparator no order at all. */
  lemma ComparatorCanCircle()
    ensures Distinct(SLOTS) && forall i, j :: 0 <= i < j < |SLOTS| ==> SLOTS[i] < SLOTS[j]
    ensures var scores := Scores(SLOTS, PEOPLE, DEFAULT_CONFIG, Lookup(ANSWERS));
            && Slate(scores)
            && exists hist: History :: !StrictWeakOn(Comparator(DEFAULT_CONFIG, hist), scores)
  {
    hide ScoreOf, Lookup, StrictWeakOn;
    ScoreAt(TEN);
    ScoreAt(ELEVEN);
    ScoreAt(NOON);
    var scores := Scores(SLOTS, PEOPLE, DEFAULT_CONFIG, Lookup(ANSWERS));
    var a, b, c := scores[0], scores[1], scores[2];
    assert scores == [a, b, c];
    assert RisingChain(a, b, c, DEFAULT_CONFIG);
    ChainMakesCircle(scores, DEFAULT_CONFIG, a, b, c);
  }
}
