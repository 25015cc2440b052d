/** The order slots are shown in (solver.go, RankWithHistory).

    Scores within an epsilon of each other are separated by coverage and then
    by the group's history.  "Within epsilon" is not transitive, so the
    comparator can run in circles; this module says exactly when it does not,
    whatever the history, and what the ranking then guarantees. */
module Ranking {
  import opened Options
  import opened Zones
  import opened Scoring
  import opened Dominance
  import opened Solver
  import opened Sorting

  /** How well a slot matches a group's past decisions; None when there is no history. */
  type History = Option<Instant -> real>

  predicate Near(a: SlotScore, b: SlotScore, cfg: Config) {
    -cfg.historyEpsilon <= a.score - b.score <= cfg.historyEpsilon
  }

  predicate Before(cfg: Config, hist: History, a: SlotScore, b: SlotScore) {
    if a.eliminated != b.eliminated then !a.eliminated
    else if !Near(a, b, cfg) then a.score > b.score
    else if a.coverage != b.coverage then a.coverage > b.coverage
    else if hist.Some? && hist.value(a.start) != hist.value(b.start) then hist.value(a.start) > hist.value(b.start)
    else if a.score != b.score then a.score > b.score
    else a.start < b.start
  }

  function Comparator(cfg: Config, hist: History): (SlotScore, SlotScore) -> bool {
    (a: SlotScore, b: SlotScore) => Before(cfg, hist, a, b)
  }

  /** What scoring guarantees of a slate: one entry per start, and no score for the eliminated. */
  ghost predicate Slate(xs: seq<SlotScore>) {
    && (forall i, j :: 0 <= i < j < |xs| ==> xs[i].start != xs[j].start)
    && (forall x <- xs :: x.eliminated ==> x.score == 0.0)
  }

  ghost predicate NearIsTransitive(xs: seq<SlotScore>, cfg: Config) {
    forall a, b, c :: a in xs && b in xs && c in xs ==>
      (!a.eliminated && !b.eliminated && !c.eliminated && Near(a, b, cfg) && Near(b, c, cfg) ==> Near(a, c, cfg))
  }

  /** a beats c outright, b is near both, and coverage does not fall on the way from a over b to c. */
  ghost predicate RisingChain(a: SlotScore, b: SlotScore, c: SlotScore, cfg: Config) {
    && !a.eliminated && !b.eliminated && !c.eliminated
    && Near(a, b, cfg) && Near(b, c, cfg) && a.score > c.score + cfg.historyEpsilon
    && a.coverage <= b.coverage <= c.coverage
  }

  ghost predicate NoRisingChain(xs: seq<SlotScore>, cfg: Config) {
    forall a, b, c :: a in xs && b in xs && c in xs ==> !RisingChain(a, b, c, cfg)
  }

  lemma TransitiveNearHasNoChain(xs: seq<SlotScore>, cfg: Config)
    requires NearIsTransitive(xs, cfg)
    ensures NoRisingChain(xs, cfg)
  {
  }

  /** Distinct entries are always ordered one way or the other. */
  lemma Ordered(xs: seq<SlotScore>, cfg: Config, hist: History, x: SlotScore, y: SlotScore)
    requires Slate(xs) && cfg.Sound() && x in xs && y in xs && x != y
    ensures Before(cfg, hist, x, y) != Before(cfg, hist, y, x)
  {
  }

  lemma BetweenIsOrdered(xs: seq<SlotScore>, cfg: Config, hist: History, x: SlotScore, y: SlotScore, z: SlotScore)
    requires Slate(xs) && cfg.Sound() && NoRisingChain(xs, cfg)
    requires x in xs && y in xs && z in xs && Before(cfg, hist, x, z)
    ensures Before(cfg, hist, x, y) || Before(cfg, hist, y, z)
  {
    if x != y {
      Ordered(xs, cfg, hist, x, y);
    }
    if y != z {
      Ordered(xs, cfg, hist, y, z);
    }
    assert !RisingChain(x, y, z, cfg) && !RisingChain(y, z, x, cfg) && !RisingChain(z, x, y, cfg);
  }

  /** A rising chain and a history that likes it the other way round make a circle. */
  lemma ChainMakesCircle(xs: seq<SlotScore>, cfg: Config, a: SlotScore, b: SlotScore, c: SlotScore)
    requires Slate(xs) && cfg.Sound() && a in xs && b in xs && c in xs && RisingChain(a, b, c, cfg)
    ensures exists hist: History :: !StrictWeakOn(Comparator(cfg, hist), xs)
  {
    var liking: Instant -> real := (s: Instant) => if s == c.start then 2.0 else if s == b.start then 1.0 else 0.0;
    var less := Comparator(cfg, Some(liking));
    assert less(a, c) && less(c, b) && less(b, a);
    assert !StrictWeakOn(Comparator(cfg, Some(liking)), xs);
  }

  /** The comparator orders the slate under every history just when the slate has no rising chain. */
  lemma OrderedUnderEveryHistoryIff(xs: seq<SlotScore>, cfg: Config)
    requires Slate(xs) && cfg.Sound()
    ensures (forall hist: History :: StrictWeakOn(Comparator(cfg, hist), xs)) <==> NoRisingChain(xs, cfg)
  {
    if NoRisingChain(xs, cfg) {
      forall hist: History ensures StrictWeakOn(Comparator(cfg, hist), xs) {
        OrderedWithoutChain(xs, cfg, hist);
      }
    } else {
      var a, b, c :| a in xs && b in xs && c in xs && RisingChain(a, b, c, cfg);
      ChainMakesCircle(xs, cfg, a, b, c);
    }
  }

  lemma OrderedWithoutChain(xs: seq<SlotScore>, cfg: Config, hist: History)
    requires Slate(xs) && cfg.Sound() && NoRisingChain(xs, cfg)
    ensures StrictWeakOn(Comparator(cfg, hist), xs)
  {
    forall x, y, z | x in xs && y in xs && z in xs && Before(cfg, hist, x, z)
      ensures Before(cfg, hist, x, y) || Before(cfg, hist, y, z)
    {
      BetweenIsOrdered(xs, cfg, hist, x, y, z);
    }
  }

  // ---------- what a ranking guarantees ----------

  /** Survivors first, no pair more than epsilon apart the wrong way round, and
      a head within epsilon of every survivor. */
  ghost predicate FaithfulRanking(out: seq<SlotScore>, cfg: Config) {
    && (forall i, j :: 0 <= i < j < |out| && !out[j].eliminated ==> !out[i].eliminated)
    && (forall i, j :: 0 <= i < j < |out| && !out[j].eliminated ==> out[j].score <= out[i].score + cfg.historyEpsilon)
    && (forall j :: 0 <= j < |out| && !out[j].eliminated ==>
          !out[0].eliminated && out[j].score <= out[0].score + cfg.historyEpsilon)
  }

  /** Among slots within epsilon, and among the eliminated, coverage decides, then
      history, then score, then the earlier slot. */
  ghost predicate TiesBrokenInTurn(out: seq<SlotScore>, cfg: Config, hist: History) {
    forall i, j :: 0 <= i < j < |out| && out[i].eliminated == out[j].eliminated && Near(out[i], out[j], cfg) ==>
      && out[j].coverage <= out[i].coverage
      && (out[i].coverage == out[j].coverage ==>
           if hist.Some? && hist.value(out[i].start) != hist.value(out[j].start)
           then hist.value(out[i].start) > hist.value(out[j].start)
           else out[i].score > out[j].score || (out[i].score == out[j].score && out[i].start <= out[j].start))
  }

  lemma InOrderIsFaithful(out: seq<SlotScore>, cfg: Config, hist: History)
    requires cfg.Sound() && InOrder(Comparator(cfg, hist), out)
    ensures FaithfulRanking(out, cfg) && TiesBrokenInTurn(out, cfg, hist)
  {
    forall i, j | 0 <= i < j < |out| ensures !Before(cfg, hist, out[j], out[i]) {
      assert !Comparator(cfg, hist)(out[j], out[i]);
    }
  }

  function Scores(slots: seq<Instant>, ps: seq<Participant>, cfg: Config, known: Answers): (r: seq<SlotScore>)
    ensures |r| == |slots|
    ensures forall i :: 0 <= i < |slots| ==> r[i] == ScoreOf(slots[i], ps, cfg, known)
  {
    seq(|slots|, i requires 0 <= i < |slots| => ScoreOf(slots[i], ps, cfg, known))
  }

  /** The head of a faithful ranking scores within epsilon of leaderOf's slot. */
  lemma HeadNearLeader(slots: seq<Instant>, ps: seq<Participant>, cfg: Config, known: Answers, out: seq<SlotScore>,
      k: nat)
    requires multiset(out) == multiset(Scores(slots, ps, cfg, known)) && FaithfulRanking(out, cfg)
    requires k < |slots| && FirstBest(slots, ps, cfg, known, k)
    ensures |out| > 0 && !out[0].eliminated
    ensures 0.0 <= ScoreOf(slots[k], ps, cfg, known).score - out[0].score <= cfg.historyEpsilon
  {
    var scores := Scores(slots, ps, cfg, known);
    SameElements(out, scores, scores[k]);
    assert scores[k] in scores;
    var j :| 0 <= j < |out| && out[j] == scores[k];
    SameElements(out, scores, out[0]);
    assert out[0] in out;
    var i :| 0 <= i < |scores| && scores[i] == out[0];
  }

  /** RankWithHistory. */
  method RankWithHistory(slots: seq<Instant>, ps: seq<Participant>, cfg: Config, known: Answers, hist: History)
    returns (out: seq<SlotScore>)
    ensures multiset(out) == multiset(Scores(slots, ps, cfg, known))
    ensures cfg.Sound() && Distinct(slots) && NoRisingChain(Scores(slots, ps, cfg, known), cfg) ==>
              FaithfulRanking(out, cfg) && TiesBrokenInTurn(out, cfg, hist)
  {
    hide FaithfulRanking, TiesBrokenInTurn, NoRisingChain, TallyAll, Sort;
    ghost var scores := Scores(slots, ps, cfg, known);
    out := [];
    for i := 0 to |slots|
      invariant out == scores[..i]
    {
      var sc := ScoreSlot(slots[i], ps, cfg, known);
      out := out + [sc];
    }
    out := SortedCopy(out, Comparator(cfg, hist));
    SortPermutes(Comparator(cfg, hist), scores);
    assert scores[..|slots|] == scores;
    if cfg.Sound() && Distinct(slots) && NoRisingChain(scores, cfg) {
      OrderedWithoutChain(scores, cfg, hist);
      SortOrders(Comparator(cfg, hist), scores, scores);
      InOrderIsFaithful(out, cfg, hist);
    }
  }
}
