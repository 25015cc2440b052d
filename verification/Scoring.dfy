/** The composite score of one slot (solver.go, scoreSlot) and the order in
    which answers can move it.

    Scores are reals; floating-point rounding is not modelled. */
module Scoring {
  import opened Options
  import opened Zones

  datatype Tier = TierNo | TierIfNeeded | TierOK | TierPreferred {
    function Value(): real {
      match this
      case TierPreferred => 1.0
      case TierOK => 0.7
      case TierIfNeeded => 0.3
      case TierNo => 0.0
    }

    /** A tier is at most another when the person likes the slot no better. */
    predicate AtMost(other: Tier) {
      Value() <= other.Value()
    }
  }

  datatype Role = RoleOptional | RoleRequired

  datatype Participant = Participant(id: string, name: string, role: Role, loc: Option<Zone>) {
    /** A missing zone is treated as UTC. */
    function Location(): Zone {
      loc.GetOr(UTC)
    }
  }

  /** Tiers per participant ID and slot start; absence means unknown. */
  type Responses = map<string, map<Instant, Tier>>

  /** What a lookup answers for a person and a slot; None means unknown. */
  type Answers = (string, Instant) -> Option<Tier>

  function Lookup(rs: Responses): Answers {
    (pid: string, at: Instant) =>
      if pid in rs && at in rs[pid] then Some(rs[pid][at]) else None
  }

  datatype Config = Config(
    alpha: real,
    optionalWeight: real,
    unsociablePenalty: real,
    unsociableCap: real,
    dayStartHour: int,
    dayEndHour: int,
    historyEpsilon: real)
  {
    /** The ranges under which the weights are weights and alpha is a blend. */
    predicate Sound() {
      0.0 <= alpha <= 1.0 && 0.0 <= optionalWeight && 0.0 <= historyEpsilon
    }
  }

  const DEFAULT_CONFIG := Config(0.7, 0.5, 0.15, 0.45, 8, 21, 0.05)

  datatype SlotScore = SlotScore(
    start: Instant,
    eliminated: bool,
    eliminatedBy: seq<string>,
    excludes: seq<string>,
    unknown: seq<string>,
    coverage: nat,
    total: nat,
    score: real,
    penalty: real)

  predicate Unsociable(start: Instant, p: Participant, cfg: Config) {
    var h := p.Location().HourAt(start);
    h < cfg.dayStartHour || h >= cfg.dayEndHour
  }

  /** The running totals scoreSlot keeps while it walks the participants. */
  datatype Tally = Tally(
    weighted: real,
    weights: real,
    minRequired: real,
    haveRequired: bool,
    penalized: nat,
    coverage: nat,
    eliminatedBy: seq<string>,
    excludes: seq<string>,
    unknown: seq<string>)

  const EMPTY_TALLY := Tally(0.0, 0.0, 1.0, false, 0, 0, [], [], [])

  /** One participant's contribution to the totals. */
  function Count(t: Tally, p: Participant, start: Instant, cfg: Config, answer: Option<Tier>): Tally {
    match answer
    case None => t.(unknown := t.unknown + [p.name])
    case Some(TierNo) =>
      if p.role == RoleRequired then t.(eliminatedBy := t.eliminatedBy + [p.name])
      else t.(excludes := t.excludes + [p.name], weights := t.weights + cfg.optionalWeight)
    case Some(tier) =>
      var w := if p.role == RoleRequired then 1.0 else cfg.optionalWeight;
      t.(weighted := t.weighted + tier.Value() * w,
         weights := t.weights + w,
         minRequired := if p.role == RoleRequired && tier.Value() < t.minRequired then tier.Value() else t.minRequired,
         haveRequired := t.haveRequired || p.role == RoleRequired,
         penalized := t.penalized + (if Unsociable(start, p, cfg) then 1 else 0),
         coverage := t.coverage + 1)
  }

  function TallyAll(start: Instant, ps: seq<Participant>, cfg: Config, get: Answers): Tally {
    if ps == [] then EMPTY_TALLY
    else
      var last := ps[|ps| - 1];
      Count(TallyAll(start, ps[..|ps| - 1], cfg, get), last, start, cfg, get(last.id, start))
  }

  function Penalty(penalized: int, cfg: Config): real {
    var p := penalized as real * cfg.unsociablePenalty;
    if p > cfg.unsociableCap then cfg.unsociableCap else p
  }

  /** The score of a surviving slot whose totals are t, but for the weighted
      sum and the number of people the penalty is charged for. */
  function Composite(t: Tally, cfg: Config, weighted: real, penalized: int): real
    requires t.weights != 0.0
  {
    Clamp(Base(t, cfg, weighted) - Penalty(penalized, cfg))
  }

  /** The blend of group mean and worst-off required person. */
  function Base(t: Tally, cfg: Config, weighted: real): real
    requires t.weights != 0.0
  {
    var mean := weighted / t.weights;
    Blend(cfg.alpha, mean, if t.haveRequired then t.minRequired else mean)
  }

  function Blend(alpha: real, mean: real, floor: real): real {
    alpha * mean + (1.0 - alpha) * floor
  }

  function Clamp(x: real): real {
    if x < 0.0 then 0.0 else x
  }

  function Finish(start: Instant, total: nat, t: Tally, cfg: Config): SlotScore {
    var s := SlotScore(start, t.eliminatedBy != [], t.eliminatedBy, t.excludes, t.unknown,
                       t.coverage, total, 0.0, 0.0);
    if s.eliminated || t.weights == 0.0 then s
    else
      s.(penalty := Penalty(t.penalized, cfg), score := Composite(t, cfg, t.weighted, t.penalized))
  }

  /** What scoreSlot computes. */
  function ScoreOf(start: Instant, ps: seq<Participant>, cfg: Config, get: Answers): SlotScore {
    Finish(start, |ps|, TallyAll(start, ps, cfg, get), cfg)
  }
}
