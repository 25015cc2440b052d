/** How a slot's score moves when answers improve.

    The dominance analysis rests on the score being monotone in the answers.
    It is, with one exception that the source introduces deliberately: the
    unsociable-hour penalty is charged only for people who attend. */
module ScoreOrder {
  import opened Options
  import opened Zones
  import opened Scoring

  /** Both lookups answer for everyone, and the second never answers worse. */
  ghost predicate Improves(start: Instant, ps: seq<Participant>, lo: Answers, hi: Answers) {
    forall p <- ps ::
      && lo(p.id, start).Some? && hi(p.id, start).Some?
      && lo(p.id, start).value.AtMost(hi(p.id, start).value)
  }

  /** Nobody the penalty could be charged for changes between refusing and attending. */
  ghost predicate SamePenalized(start: Instant, ps: seq<Participant>, cfg: Config, lo: Answers, hi: Answers) {
    cfg.unsociablePenalty == 0.0 ||
    forall p <- ps :: p.role == RoleOptional && Unsociable(start, p, cfg) && hi(p.id, start) != Some(TierNo)
      ==> lo(p.id, start) != Some(TierNo)
  }

  /** Only the answers of the participants at this slot matter. */
  lemma {:induction false} SameAnswersSameTally(start: Instant, ps: seq<Participant>, cfg: Config, a: Answers,
      b: Answers)
    requires forall p <- ps :: a(p.id, start) == b(p.id, start)
    ensures TallyAll(start, ps, cfg, a) == TallyAll(start, ps, cfg, b)
  {
    if ps != [] {
      var n := |ps| - 1;
      assert forall p <- ps[..n] :: p in ps;
      assert ps[n] in ps;
      SameAnswersSameTally(start, ps[..n], cfg, a, b);
    }
  }

  lemma SameAnswersSameScore(start: Instant, ps: seq<Participant>, cfg: Config, a: Answers, b: Answers)
    requires forall p <- ps :: a(p.id, start) == b(p.id, start)
    ensures ScoreOf(start, ps, cfg, a) == ScoreOf(start, ps, cfg, b)
  {
    SameAnswersSameTally(start, ps, cfg, a, b);
  }

  ghost predicate TallyAtMost(lo: Tally, hi: Tally, cfg: Config) {
    && (hi.eliminatedBy != [] ==> lo.eliminatedBy != [])
    && (lo.eliminatedBy == [] ==>
        && lo.weights == hi.weights
        && lo.weighted <= hi.weighted
        && lo.haveRequired == hi.haveRequired
        && lo.minRequired <= hi.minRequired
        && (cfg.unsociablePenalty == 0.0 || lo.penalized == hi.penalized))
  }

  lemma CountMonotone(lo: Tally, hi: Tally, p: Participant, start: Instant, cfg: Config, a: Tier, b: Tier)
    requires cfg.Sound() && a.AtMost(b) && TallyAtMost(lo, hi, cfg)
    requires cfg.unsociablePenalty == 0.0
              || (p.role == RoleOptional && Unsociable(start, p, cfg) && b != TierNo ==> a != TierNo)
    ensures TallyAtMost(Count(lo, p, start, cfg, Some(a)), Count(hi, p, start, cfg, Some(b)), cfg)
  {
    assert a.Value() * cfg.optionalWeight <= b.Value() * cfg.optionalWeight;
  }

  lemma {:induction false} TallyMonotone(start: Instant, ps: seq<Participant>, cfg: Config, lo: Answers, hi: Answers)
    requires cfg.Sound() && Improves(start, ps, lo, hi) && SamePenalized(start, ps, cfg, lo, hi)
    ensures TallyAtMost(TallyAll(start, ps, cfg, lo), TallyAll(start, ps, cfg, hi), cfg)
  {
    if ps != [] {
      var n := |ps| - 1;
      assert forall p <- ps[..n] :: p in ps;
      var p := ps[n];
      assert p in ps;
      TallyMonotone(start, ps[..n], cfg, lo, hi);
      CountMonotone(TallyAll(start, ps[..n], cfg, lo), TallyAll(start, ps[..n], cfg, hi), p, start, cfg,
                    lo(p.id, start).value, hi(p.id, start).value);
    }
  }

  lemma {:induction false} WeightsNonNegative(start: Instant, ps: seq<Participant>, cfg: Config, get: Answers)
    requires cfg.Sound()
    ensures TallyAll(start, ps, cfg, get).weights >= 0.0
  {
    if ps != [] {
      WeightsNonNegative(start, ps[..|ps| - 1], cfg, get);
    }
  }

  lemma QuotientMonotone(a: real, b: real, d: real)
    requires a <= b && d > 0.0
    ensures a / d <= b / d
  {
    assert b / d - a / d == (b - a) / d;
  }

  lemma BlendMonotone(alpha: real, m: real, m': real, f: real, f': real)
    requires 0.0 <= alpha <= 1.0 && m <= m' && f <= f'
    ensures Blend(alpha, m, f) <= Blend(alpha, m', f')
  {
    assert alpha * (m' - m) >= 0.0;
    assert (1.0 - alpha) * (f' - f) >= 0.0;
    assert Blend(alpha, m', f') - Blend(alpha, m, f) == alpha * (m' - m) + (1.0 - alpha) * (f' - f);
  }

  lemma BaseMonotone(lo: Tally, hi: Tally, cfg: Config)
    requires cfg.Sound() && lo.weights == hi.weights && lo.weights > 0.0
    requires lo.weighted <= hi.weighted && lo.haveRequired == hi.haveRequired && lo.minRequired <= hi.minRequired
    ensures Base(lo, cfg, lo.weighted) <= Base(hi, cfg, hi.weighted)
  {
    QuotientMonotone(lo.weighted, hi.weighted, lo.weights);
    var ml, mh := lo.weighted / lo.weights, hi.weighted / hi.weights;
    var fl := if lo.haveRequired then lo.minRequired else ml;
    var fh := if hi.haveRequired then hi.minRequired else mh;
    BlendMonotone(cfg.alpha, ml, mh, fl, fh);
  }

  /** Better answers never kill a live slot and never lower its score. */
  lemma ScoreMonotone(start: Instant, ps: seq<Participant>, cfg: Config, lo: Answers, hi: Answers)
    requires cfg.Sound() && Improves(start, ps, lo, hi) && SamePenalized(start, ps, cfg, lo, hi)
    ensures !ScoreOf(start, ps, cfg, lo).eliminated ==>
              && !ScoreOf(start, ps, cfg, hi).eliminated
              && ScoreOf(start, ps, cfg, lo).score <= ScoreOf(start, ps, cfg, hi).score
  {
    var l, h := TallyAll(start, ps, cfg, lo), TallyAll(start, ps, cfg, hi);
    TallyMonotone(start, ps, cfg, lo, hi);
    WeightsNonNegative(start, ps, cfg, lo);
    if l.eliminatedBy == [] && l.weights != 0.0 {
      BaseMonotone(l, h, cfg);
    }
  }
}
