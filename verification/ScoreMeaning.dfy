/** What a score is, said without the walk that computes it (solver.go, scoreSlot). */
module ScoreMeaning {
  import opened Options
  import opened Reals
  import opened Scoring
  import opened Zones

  // ---------- totals over people ----------

  /** The names of the people picked, in list order. */
  ghost function NamesWhere(ps: seq<Participant>, picked: Participant -> bool): seq<string> {
    if ps == [] then []
    else
      var last := ps[|ps| - 1];
      NamesWhere(ps[..|ps| - 1], picked) + (if picked(last) then [last.name] else [])
  }

  lemma {:induction false} SamePicksSameNames(ps: seq<Participant>, a: Participant -> bool, b: Participant -> bool)
    requires forall p <- ps :: a(p) == b(p)
    ensures NamesWhere(ps, a) == NamesWhere(ps, b)
  {
    if ps != [] {
      assert forall p <- ps[..|ps| - 1] :: p in ps;
      SamePicksSameNames(ps[..|ps| - 1], a, b);
    }
  }

  lemma {:induction false} NamesWhereMeaning(ps: seq<Participant>, picked: Participant -> bool)
    ensures forall name :: name in NamesWhere(ps, picked) <==> exists p :: p in ps && picked(p) && p.name == name
  {
    if ps != [] {
      var init, last := ps[..|ps| - 1], ps[|ps| - 1];
      NamesWhereMeaning(init, picked);
      assert ps == init + [last];
    }
  }

  function Total(ps: seq<Participant>, share: Participant -> real): real {
    if ps == [] then 0.0 else Total(ps[..|ps| - 1], share) + share(ps[|ps| - 1])
  }

  function HowMany(ps: seq<Participant>, picked: Participant -> bool): nat {
    if ps == [] then 0 else HowMany(ps[..|ps| - 1], picked) + (if picked(ps[|ps| - 1]) then 1 else 0)
  }

  lemma OneMore(ps: seq<Participant>, p: Participant, share: Participant -> real, picked: Participant -> bool)
    ensures Total(ps + [p], share) == Total(ps, share) + share(p)
    ensures HowMany(ps + [p], picked) == HowMany(ps, picked) + (if picked(p) then 1 else 0)
  {
    assert (ps + [p])[..|ps|] == ps;
  }

  lemma {:induction false} WithoutOne(
    ps: seq<Participant>, i: nat, share: Participant -> real, picked: Participant -> bool)
    requires i < |ps|
    ensures var rest := ps[..i] + ps[i + 1..];
            && Total(ps, share) == Total(rest, share) + share(ps[i])
            && HowMany(ps, picked) == HowMany(rest, picked) + (if picked(ps[i]) then 1 else 0)
  {
    hide Total, HowMany;
    var init, last := ps[..|ps| - 1], ps[|ps| - 1];
    assert ps == init + [last];
    OneMore(init, last, share, picked);
    if i == |ps| - 1 {
      assert ps[..i] + ps[i + 1..] == init;
    } else {
      WithoutOne(init, i, share, picked);
      OneMore(init[..i] + init[i + 1..], last, share, picked);
      assert ps[..i] + ps[i + 1..] == init[..i] + init[i + 1..] + [last];
    }
  }

  lemma MultisetWithoutOne(ps: seq<Participant>, i: nat)
    requires i < |ps|
    ensures multiset(ps[..i] + ps[i + 1..]) == multiset(ps) - multiset{ps[i]}
  {
    assert ps == ps[..i] + ([ps[i]] + ps[i + 1..]);
  }

  lemma SameRest(ps: seq<Participant>, qs: seq<Participant>, i: nat)
    requires multiset(ps) == multiset(qs) && ps != [] && i < |qs| && qs[i] == ps[|ps| - 1]
    ensures multiset(ps[..|ps| - 1]) == multiset(qs[..i] + qs[i + 1..])
  {
    MultisetWithoutOne(ps, |ps| - 1);
    MultisetWithoutOne(qs, i);
    assert ps[..|ps| - 1] + ps[|ps|..] == ps[..|ps| - 1];
  }

  /** The order of the people does not matter to a total. */
  lemma {:induction false} OrderOfTotals(
    ps: seq<Participant>, qs: seq<Participant>, share: Participant -> real, picked: Participant -> bool)
    requires multiset(ps) == multiset(qs)
    ensures Total(ps, share) == Total(qs, share) && HowMany(ps, picked) == HowMany(qs, picked)
    decreases |ps|
  {
    if ps == [] {
      assert |multiset(qs)| == 0;
    } else {
      var last, init := ps[|ps| - 1], ps[..|ps| - 1];
      assert ps == init + [last] && last in multiset(ps);
      var i :| 0 <= i < |qs| && qs[i] == last;
      WithoutOne(qs, i, share, picked);
      SameRest(ps, qs, i);
      OrderOfTotals(init, qs[..i] + qs[i + 1..], share, picked);
    }
  }

  // ---------- who counts for what ----------

  function Weight(p: Participant, cfg: Config): real {
    if p.role == RoleRequired then 1.0 else cfg.optionalWeight
  }

  predicate Vetoes(s: Instant, get: Answers, p: Participant) {
    p.role == RoleRequired && get(p.id, s) == Some(TierNo)
  }

  predicate Comes(s: Instant, get: Answers, p: Participant) {
    get(p.id, s).Some? && get(p.id, s) != Some(TierNo)
  }

  /** Comes, at an hour outside the working day where the person is. */
  predicate ComesAtOddHours(s: Instant, cfg: Config, get: Answers, p: Participant) {
    var hour := p.Location().HourAt(s);
    Comes(s, get, p) && !(cfg.dayStartHour <= hour < cfg.dayEndHour)
  }

  function Comers(s: Instant, get: Answers): Participant -> bool {
    (p: Participant) => Comes(s, get, p)
  }

  function OddComers(s: Instant, cfg: Config, get: Answers): Participant -> bool {
    (p: Participant) => ComesAtOddHours(s, cfg, get, p)
  }

  function WeightShare(s: Instant, cfg: Config, get: Answers): Participant -> real {
    (p: Participant) => if get(p.id, s).Some? then Weight(p, cfg) else 0.0
  }

  function ValueShare(s: Instant, cfg: Config, get: Answers): Participant -> real {
    (p: Participant) => if get(p.id, s).Some? then get(p.id, s).value.Value() * Weight(p, cfg) else 0.0
  }

  function Weights(s: Instant, ps: seq<Participant>, cfg: Config, get: Answers): real {
    Total(ps, WeightShare(s, cfg, get))
  }

  /** The weighted mean of what those who answered think of the slot. */
  function Mean(s: Instant, ps: seq<Participant>, cfg: Config, get: Answers): real
    requires Weights(s, ps, cfg, get) != 0.0
  {
    Total(ps, ValueShare(s, cfg, get)) / Weights(s, ps, cfg, get)
  }

  function OddHours(s: Instant, ps: seq<Participant>, cfg: Config, get: Answers): nat {
    HowMany(ps, OddComers(s, cfg, get))
  }

  /** The least value a required person who comes gives the slot, or the mean when none does. */
  ghost predicate IsFloor(floor: real, s: Instant, ps: seq<Participant>, get: Answers, mean: real) {
    && (forall p <- ps :: p.role == RoleRequired && Comes(s, get, p) ==> floor <= get(p.id, s).value.Value())
    && (if exists p <- ps :: p.role == RoleRequired && Comes(s, get, p)
        then exists p <- ps :: p.role == RoleRequired && Comes(s, get, p) && floor == get(p.id, s).value.Value()
        else floor == mean)
  }

  function Blended(alpha: real, mean: real, floor: real, penalty: real): real {
    Max(0.0, alpha * mean + (1.0 - alpha) * floor - penalty)
  }

  /** A veto eliminates; otherwise the score blends the mean with the floor, less
      a capped penalty per person who comes at odd hours, and never below zero. */
  ghost predicate Scored(sc: SlotScore, s: Instant, ps: seq<Participant>, cfg: Config, get: Answers) {
    && sc.start == s && sc.total == |ps|
    && (sc.eliminated <==> exists p <- ps :: Vetoes(s, get, p))
    && sc.eliminatedBy == NamesWhere(ps, (p: Participant) => Vetoes(s, get, p))
    && sc.excludes == NamesWhere(ps, (p: Participant) => p.role == RoleOptional && get(p.id, s) == Some(TierNo))
    && sc.unknown == NamesWhere(ps, (p: Participant) => get(p.id, s).None?)
    && sc.coverage == HowMany(ps, Comers(s, get))
    && if sc.eliminated || Weights(s, ps, cfg, get) == 0.0 then sc.score == 0.0 && sc.penalty == 0.0
       else
         && sc.penalty == Min(cfg.unsociableCap, OddHours(s, ps, cfg, get) as real * cfg.unsociablePenalty)
         && exists floor: real ::
              && IsFloor(floor, s, ps, get, Mean(s, ps, cfg, get))
              && sc.score == Blended(cfg.alpha, Mean(s, ps, cfg, get), floor, sc.penalty)
  }

  // ---------- the walk reaches them ----------

  lemma {:induction false} WalkNames(s: Instant, ps: seq<Participant>, cfg: Config, get: Answers)
    ensures var t := TallyAll(s, ps, cfg, get);
            && t.eliminatedBy == NamesWhere(ps, (p: Participant) => Vetoes(s, get, p))
            && t.excludes == NamesWhere(ps, (p: Participant) => p.role == RoleOptional && get(p.id, s) == Some(TierNo))
            && t.unknown == NamesWhere(ps, (p: Participant) => get(p.id, s).None?)
            && t.coverage == HowMany(ps, Comers(s, get))
            && t.penalized == OddHours(s, ps, cfg, get)
  {
    if ps != [] {
      WalkNames(s, ps[..|ps| - 1], cfg, get);
    }
  }

  lemma {:induction false} WalkTotals(s: Instant, ps: seq<Participant>, cfg: Config, get: Answers)
    requires forall p <- ps :: !Vetoes(s, get, p)
    ensures var t := TallyAll(s, ps, cfg, get);
            t.weights == Weights(s, ps, cfg, get) && t.weighted == Total(ps, ValueShare(s, cfg, get))
  {
    hide Unsociable;
    if ps != [] {
      assert ps[|ps| - 1] in ps && forall p <- ps[..|ps| - 1] :: p in ps;
      WalkTotals(s, ps[..|ps| - 1], cfg, get);
    }
  }

  lemma {:induction false} WalkFloor(s: Instant, ps: seq<Participant>, cfg: Config, get: Answers, mean: real)
    ensures var t := TallyAll(s, ps, cfg, get);
            && (t.haveRequired <==> exists p <- ps :: p.role == RoleRequired && Comes(s, get, p))
            && IsFloor(if t.haveRequired then t.minRequired else mean, s, ps, get, mean)
            && (!t.haveRequired ==> t.minRequired == 1.0)
  {
    hide Unsociable;
    if ps != [] {
      var init, last := ps[..|ps| - 1], ps[|ps| - 1];
      WalkFloor(s, init, cfg, get, mean);
      assert forall p :: p in ps <==> p in init || p == last;
    }
  }

  lemma PenaltyMeans(k: nat, cfg: Config)
    ensures Penalty(k, cfg) == Min(cfg.unsociableCap, k as real * cfg.unsociablePenalty)
  {
  }

  lemma FormulaMeans(s: Instant, ps: seq<Participant>, cfg: Config, get: Answers)
    requires (forall p <- ps :: !Vetoes(s, get, p)) && Weights(s, ps, cfg, get) != 0.0
    ensures var sc := ScoreOf(s, ps, cfg, get);
            && sc.penalty == Min(cfg.unsociableCap, OddHours(s, ps, cfg, get) as real * cfg.unsociablePenalty)
            && exists floor: real ::
                 && IsFloor(floor, s, ps, get, Mean(s, ps, cfg, get))
                 && sc.score == Blended(cfg.alpha, Mean(s, ps, cfg, get), floor, sc.penalty)
  {
    hide TallyAll, NamesWhere, HowMany, Total, IsFloor, Vetoes, Comes, Penalty;
    NobodyVetoes(s, ps, cfg, get);
    WalkNames(s, ps, cfg, get);
    WalkTotals(s, ps, cfg, get);
    WalkFloor(s, ps, cfg, get, Mean(s, ps, cfg, get));
    var t, mean := TallyAll(s, ps, cfg, get), Mean(s, ps, cfg, get);
    var floor := if t.haveRequired then t.minRequired else mean;
    assert Base(t, cfg, t.weighted) == Blend(cfg.alpha, mean, floor);
    PenaltyMeans(t.penalized, cfg);
    var sc := ScoreOf(s, ps, cfg, get);
    assert sc.penalty == Penalty(t.penalized, cfg) && sc.score == Clamp(Base(t, cfg, t.weighted) - sc.penalty);
    hide Base, Penalty, Mean, OddHours, Weights, ScoreOf;
    assert IsFloor(floor, s, ps, get, mean);
    assert sc.score == Blended(cfg.alpha, mean, floor, sc.penalty);
  }

  lemma NobodyVetoes(s: Instant, ps: seq<Participant>, cfg: Config, get: Answers)
    ensures TallyAll(s, ps, cfg, get).eliminatedBy != [] <==> exists p <- ps :: Vetoes(s, get, p)
  {
    hide TallyAll, NamesWhere, Vetoes;
    WalkNames(s, ps, cfg, get);
    var names := TallyAll(s, ps, cfg, get).eliminatedBy;
    NamesWhereMeaning(ps, (p: Participant) => Vetoes(s, get, p));
    if names != [] {
      assert names[0] in names;
    }
    if exists p <- ps :: Vetoes(s, get, p) {
      var p :| p in ps && Vetoes(s, get, p);
      assert p.name in names;
    }
  }

  /** Every score is what these words say. */
  lemma ScoreMeans(s: Instant, ps: seq<Participant>, cfg: Config, get: Answers)
    ensures Scored(ScoreOf(s, ps, cfg, get), s, ps, cfg, get)
  {
    hide TallyAll, NamesWhere, HowMany, Total, IsFloor, Vetoes, Comes, Weights, OddHours, Mean, Composite, Penalty;
    NobodyVetoes(s, ps, cfg, get);
    WalkNames(s, ps, cfg, get);
    if forall p <- ps :: !Vetoes(s, get, p) {
      WalkTotals(s, ps, cfg, get);
      if Weights(s, ps, cfg, get) != 0.0 {
        FormulaMeans(s, ps, cfg, get);
      }
    }
  }

  /** In which order people are listed changes neither elimination nor score nor penalty nor coverage. */
  lemma OrderOfPeople(s: Instant, ps: seq<Participant>, qs: seq<Participant>, cfg: Config, get: Answers)
    requires multiset(ps) == multiset(qs)
    ensures var a, b := ScoreOf(s, ps, cfg, get), ScoreOf(s, qs, cfg, get);
            a.eliminated == b.eliminated && a.score == b.score && a.penalty == b.penalty && a.coverage == b.coverage
  {
    hide ScoreOf, NamesWhere, HowMany, Total, Vetoes, Comes, IsFloor, ComesAtOddHours;
    ScoreMeans(s, ps, cfg, get);
    ScoreMeans(s, qs, cfg, get);
    SamePeople(ps, qs);
    OrderOfTotals(ps, qs, WeightShare(s, cfg, get), Comers(s, get));
    OrderOfTotals(ps, qs, ValueShare(s, cfg, get), OddComers(s, cfg, get));
    var a, b := ScoreOf(s, ps, cfg, get), ScoreOf(s, qs, cfg, get);
    assert a.eliminated == b.eliminated && Weights(s, ps, cfg, get) == Weights(s, qs, cfg, get);
    if !a.eliminated && Weights(s, ps, cfg, get) != 0.0 {
      var mean := Mean(s, ps, cfg, get);
      assert mean == Mean(s, qs, cfg, get) && OddHours(s, ps, cfg, get) == OddHours(s, qs, cfg, get);
      assert a.penalty == b.penalty;
      hide Mean, OddHours, Weights, Blended;
      var f: real :| IsFloor(f, s, ps, get, mean) && a.score == Blended(cfg.alpha, mean, f, a.penalty);
      var g: real :| IsFloor(g, s, qs, get, mean) && b.score == Blended(cfg.alpha, mean, g, b.penalty);
      OneFloor(s, ps, qs, get, mean, f, g);
      assert a.score == b.score;
    } else {
      assert a.score == b.score == 0.0 && a.penalty == b.penalty == 0.0;
    }
    assert a.coverage == b.coverage;
  }

  lemma SamePeople(ps: seq<Participant>, qs: seq<Participant>)
    requires multiset(ps) == multiset(qs)
    ensures |ps| == |qs| && forall p :: p in ps <==> p in qs
  {
    assert |multiset(ps)| == |ps| && |multiset(qs)| == |qs|;
    assert forall p :: p in ps <==> p in multiset(ps);
  }

  lemma OneFloor(
    s: Instant, ps: seq<Participant>, qs: seq<Participant>, get: Answers, mean: real, f: real, g: real)
    requires (forall p :: p in ps <==> p in qs) && IsFloor(f, s, ps, get, mean) && IsFloor(g, s, qs, get, mean)
    ensures f == g
  {
    hide Comes;
  }

  /** Totals that differ at most in how many people are charged, and by one. */
  ghost predicate OneChargeApart(a: Tally, b: Tally) {
    a == b.(penalized := a.penalized) && -1 <= a.penalized - b.penalized <= 1
  }

  lemma {:induction false} TalliesApart(
    s: Instant, ps: seq<Participant>, i: nat, zone: Option<Zone>, cfg: Config, get: Answers)
    requires i < |ps|
    ensures OneChargeApart(TallyAll(s, ps, cfg, get), TallyAll(s, ps[i := ps[i].(loc := zone)], cfg, get))
  {
    hide Count;
    var qs := ps[i := ps[i].(loc := zone)];
    var p, q := ps[|ps| - 1], qs[|ps| - 1];
    var a, b := TallyAll(s, ps[..|ps| - 1], cfg, get), TallyAll(s, qs[..|ps| - 1], cfg, get);
    CountsApart(a, b, p, q, s, cfg, get(p.id, s));
    if i == |ps| - 1 {
      assert qs[..i] == ps[..i];
    } else {
      assert qs[..|ps| - 1] == ps[..|ps| - 1][i := ps[i].(loc := zone)] && qs[|ps| - 1] == ps[|ps| - 1];
      TalliesApart(s, ps[..|ps| - 1], i, zone, cfg, get);
    }
  }

  lemma CountsApart(a: Tally, b: Tally, p: Participant, q: Participant, s: Instant, cfg: Config, answer: Option<Tier>)
    requires q == p.(loc := q.loc)
    ensures a == b ==> OneChargeApart(Count(a, p, s, cfg, answer), Count(b, q, s, cfg, answer))
    ensures OneChargeApart(a, b) && p == q ==> OneChargeApart(Count(a, p, s, cfg, answer), Count(b, q, s, cfg, answer))
  {
    hide Unsociable, Tier.Value;
  }

  lemma OneMoreCharge(k: int, cfg: Config)
    requires cfg.unsociablePenalty >= 0.0
    ensures Penalty(k, cfg) <= Penalty(k + 1, cfg) <= Penalty(k, cfg) + cfg.unsociablePenalty
  {
    assert (k + 1) as real == k as real + 1.0;
    assert (k + 1) as real * cfg.unsociablePenalty == k as real * cfg.unsociablePenalty + cfg.unsociablePenalty;
  }

  lemma ChargesApart(k: int, l: int, cfg: Config)
    requires -1 <= k - l <= 1 && cfg.unsociablePenalty >= 0.0
    ensures -cfg.unsociablePenalty <= Penalty(k, cfg) - Penalty(l, cfg) <= cfg.unsociablePenalty
  {
    hide Penalty;
    if k == l + 1 {
      OneMoreCharge(l, cfg);
    } else if l == k + 1 {
      OneMoreCharge(k, cfg);
    }
  }

  lemma ClampsApart(base: real, p: real, q: real, d: real)
    requires -d <= p - q <= d
    ensures -d <= Clamp(base - p) - Clamp(base - q) <= d
  {
  }

  lemma PenaltiesApart(a: Tally, b: Tally, s: Instant, n: nat, cfg: Config)
    requires OneChargeApart(a, b) && cfg.unsociablePenalty >= 0.0
    ensures var x, y := Finish(s, n, a, cfg), Finish(s, n, b, cfg);
            && x.eliminated == y.eliminated && x.eliminatedBy == y.eliminatedBy && x.coverage == y.coverage
            && -cfg.unsociablePenalty <= x.score - y.score <= cfg.unsociablePenalty
  {
    hide Penalty;
    ChargesApart(a.penalized, b.penalized, cfg);
    if a.weights != 0.0 {
      var base := Base(a, cfg, a.weighted);
      assert base == Base(b, cfg, b.weighted);
      ClampsApart(base, Penalty(a.penalized, cfg), Penalty(b.penalized, cfg), cfg.unsociablePenalty);
    }
    hide Base, Clamp;
  }

  /** Where one person lives moves a score by one person's penalty at most, and
      neither eliminates the slot nor changes who can come. */
  lemma ZoneMovesOnlyPenalty(
    s: Instant, ps: seq<Participant>, i: nat, zone: Option<Zone>, cfg: Config, get: Answers)
    requires i < |ps| && cfg.unsociablePenalty >= 0.0
    ensures var a, b := ScoreOf(s, ps, cfg, get), ScoreOf(s, ps[i := ps[i].(loc := zone)], cfg, get);
            && a.eliminated == b.eliminated && a.eliminatedBy == b.eliminatedBy && a.coverage == b.coverage
            && -cfg.unsociablePenalty <= a.score - b.score <= cfg.unsociablePenalty
  {
    hide Finish;
    TalliesApart(s, ps, i, zone, cfg, get);
    PenaltiesApart(TallyAll(s, ps, cfg, get), TallyAll(s, ps[i := ps[i].(loc := zone)], cfg, get), s, |ps|, cfg);
  }
}
