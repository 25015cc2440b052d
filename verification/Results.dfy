/** From stored rows to a verdict (results.go, Build; solve.go, toDominanceView). */
module Results {
  import opened Options
  import opened Zones
  import opened Scoring
  import opened ScoreOrder
  import opened Dominance
  import opened Exposure
  import opened ScoreMeaning
  import opened Solver
  import opened Sorting
  import opened Ranking
  import opened Store

  datatype Input = Input(slots: seq<Instant>, participants: seq<Participant>, responses: Responses)

  function ToParticipant(p: StoredParticipant): Participant {
    Participant(p.id, p.displayName, if p.required then RoleRequired else RoleOptional, Some(p.zone.GetOr(UTC)))
  }

  /** The person stands for the stored one, in the stored zone, or in UTC when it no longer resolves. */
  ghost predicate Stands(p: Participant, stored: StoredParticipant) {
    && p.id == stored.id && p.name == stored.displayName && (p.role == RoleRequired <==> stored.required)
    && forall t :: p.Location().LocalSecond(t) == (if stored.zone.Some? then stored.zone.value.LocalSecond(t) else t)
  }

  lemma StandsForStored(p: StoredParticipant)
    ensures Stands(ToParticipant(p), p)
  {
  }

  function RowsOf(rs: map<string, seq<Row>>, id: string): seq<Row> {
    if id in rs then rs[id] else []
  }

  /** One responder's answer to every slot: the stored rows, and "no" where they are silent. */
  method BuildOne(rows: seq<Row>, starts: seq<Instant>) returns (bySlot: map<Instant, Tier>)
    ensures bySlot == map s | s in starts :: LastTier(rows, s)
  {
    bySlot := map[];
    for i := 0 to |starts|
      invariant bySlot == map s | s in starts[..i] :: TierNo
    {
      bySlot := bySlot[starts[i] := TierNo];
    }
    for i := 0 to |rows|
      invariant bySlot == map s | s in starts :: LastTier(rows[..i], s)
    {
      assert rows[..i + 1][..i] == rows[..i];
      if rows[i].slotStart in bySlot {
        bySlot := bySlot[rows[i].slotStart := rows[i].tier];
      }
    }
    assert rows[..|rows|] == rows;
  }

  /** What the solver may know of a person: everything or nothing. */
  ghost predicate Knows(in_: Input, p: StoredParticipant, rs: map<string, seq<Row>>, starts: seq<Instant>) {
    forall s <- starts :: Lookup(in_.responses)(p.id, s) ==
      if p.responded then Some(LastTier(RowsOf(rs, p.id), s)) else None
  }

  ghost predicate DistinctIDs(ps: seq<StoredParticipant>) {
    forall i, j :: 0 <= i < j < |ps| ==> ps[i].id != ps[j].id
  }

  /** Build.  A submission answers every slot; silence leaves every slot unknown. */
  method Build(ps: seq<StoredParticipant>, rs: map<string, seq<Row>>, starts: seq<Instant>) returns (in_: Input)
    ensures in_.slots == starts
    ensures |in_.participants| == |ps|
    ensures forall i :: 0 <= i < |ps| ==> in_.participants[i] == ToParticipant(ps[i])
    ensures forall i :: 0 <= i < |ps| ==> Stands(in_.participants[i], ps[i])
    ensures DistinctIDs(ps) ==> UniqueIDs(in_.participants) && forall p <- ps :: Knows(in_, p, rs, starts)
  {
    hide Stands;
    var participants: seq<Participant> := [];
    var responses: Responses := map[];
    for i := 0 to |ps|
      invariant |participants| == i
      invariant forall k :: 0 <= k < i ==> participants[k] == ToParticipant(ps[k]) && Stands(participants[k], ps[k])
      invariant forall id :: id in responses ==> exists k :: 0 <= k < i && ps[k].id == id
      invariant DistinctIDs(ps) ==> forall k :: 0 <= k < i ==>
                  Knows(Input(starts, participants, responses), ps[k], rs, starts)
    {
      var p := ps[i];
      participants := participants + [ToParticipant(p)];
      StandsForStored(p);
      if !p.responded {
        continue;
      }
      var bySlot := BuildOne(RowsOf(rs, p.id), starts);
      responses := responses[p.id := bySlot];
    }
    in_ := Input(starts, participants, responses);
  }

  // ---------- what the all-or-nothing shape buys ----------

  ghost predicate AllOrNothing(slots: seq<Instant>, ps: seq<Participant>, known: Answers) {
    forall p <- ps :: (forall s <- slots :: known(p.id, s).Some?) || (forall s <- slots :: known(p.id, s).None?)
  }

  lemma BuiltIsAllOrNothing(in_: Input, ps: seq<StoredParticipant>, rs: map<string, seq<Row>>, starts: seq<Instant>)
    requires |in_.participants| == |ps| && forall i :: 0 <= i < |ps| ==> in_.participants[i] == ToParticipant(ps[i])
    requires forall p <- ps :: Knows(in_, p, rs, starts)
    ensures AllOrNothing(starts, in_.participants, Lookup(in_.responses))
    ensures forall i :: 0 <= i < |ps| && starts != [] ==>
              (Missing(starts, Lookup(in_.responses), in_.participants[i]) <==> !ps[i].responded)
  {
    forall i | 0 <= i < |ps|
      ensures forall s <- starts :: Lookup(in_.responses)(in_.participants[i].id, s).Some? == ps[i].responded
    {
      assert ps[i] in ps;
      assert Knows(in_, ps[i], rs, starts);
    }
    forall i | 0 <= i < |ps| && starts != []
      ensures Missing(starts, Lookup(in_.responses), in_.participants[i]) <==> !ps[i].responded
    {
      assert starts[0] in starts;
    }
  }

  lemma {:induction false} EliminatedIff(s: Instant, ps: seq<Participant>, cfg: Config, get: Answers)
    ensures ScoreOf(s, ps, cfg, get).eliminated <==>
              exists p :: p in ps && p.role == RoleRequired && get(p.id, s) == Some(TierNo)
  {
    if ps != [] {
      var init, last := ps[..|ps| - 1], ps[|ps| - 1];
      assert ps == init + [last];
      EliminatedIff(s, init, cfg, get);
    }
  }

  /** A silent required person could still veto every slot, so nothing is decided. */
  lemma BlockedIsUndecided(slots: seq<Instant>, ps: seq<Participant>, cfg: Config, known: Answers, d: Solver.Verdict)
    requires AllOrNothing(slots, ps, known) && Reports(slots, ps, cfg, known, d) && d.blockingRequired != []
    ensures !d.decidable
  {
    hide ScoreOf, MovesField, FirstBest, AnyAlive, NamesWhere;
    NamesWhereMeaning(ps, p => Blocking(slots, known, p));
    assert d.blockingRequired[0] in d.blockingRequired;
    var p :| p in ps && Blocking(slots, known, p);
    forall i: nat | i < |slots| ensures !Clears(slots, ps, cfg, known, i) {
      assert slots[i] in slots;
      EliminatedIff(slots[i], ps, cfg, Settle(Fill(known, TierNo)));
    }
  }

  ghost predicate EveryoneAnswered(slots: seq<Instant>, ps: seq<Participant>, known: Answers) {
    forall p <- ps, s <- slots :: known(p.id, s).Some?
  }

  /** With all answers in, the verdict is plain arithmetic: decidable just when
      a slot survives, and the leader is leaderOf's. */
  lemma AnsweredIsDecided(slots: seq<Instant>, ps: seq<Participant>, cfg: Config, known: Answers, d: Solver.Verdict)
    requires EveryoneAnswered(slots, ps, known) && Reports(slots, ps, cfg, known, d)
    ensures d.decidable <==> AnyAlive(slots, ps, cfg, known)
    ensures d.decidable ==>
              exists k: nat :: k < |slots| && d.leader == Some(slots[k]) && FirstBest(slots, ps, cfg, known, k)
  {
    hide ScoreOf, MovesField;
    forall i: nat | i < |slots|
      ensures Bound(known, slots[i], ps, cfg, TierNo) == ScoreOf(slots[i], ps, cfg, known)
      ensures Bound(known, slots[i], ps, cfg, TierPreferred) == ScoreOf(slots[i], ps, cfg, known)
    {
      assert slots[i] in slots;
      SameAnswersSameScore(slots[i], ps, cfg, Settle(Fill(known, TierNo)), known);
      SameAnswersSameScore(slots[i], ps, cfg, Settle(Fill(known, TierPreferred)), known);
    }
    if AnyAlive(slots, ps, cfg, known) {
      var k := BestExists(slots, ps, cfg, known);
      assert Clears(slots, ps, cfg, known, k);
    }
    if d.decidable {
      var k: nat :| k < |slots| && d.leader == Some(slots[k]) && FirstToClear(slots, ps, cfg, known, k);
      forall j: nat | j < k && !ScoreOf(slots[j], ps, cfg, known).eliminated
        ensures ScoreOf(slots[j], ps, cfg, known).score < ScoreOf(slots[k], ps, cfg, known).score
      {
        assert !Clears(slots, ps, cfg, known, j);
      }
      assert FirstBest(slots, ps, cfg, known, k);
    }
  }

  lemma {:induction false} BestExists(slots: seq<Instant>, ps: seq<Participant>, cfg: Config, known: Answers)
    returns (k: nat)
    requires AnyAlive(slots, ps, cfg, known)
    ensures k < |slots| && FirstBest(slots, ps, cfg, known, k)
  {
    hide ScoreOf;
    var init, last := slots[..|slots| - 1], ScoreOf(slots[|slots| - 1], ps, cfg, known);
    if AnyAlive(init, ps, cfg, known) {
      k := BestExists(init, ps, cfg, known);
      if !last.eliminated && last.score > ScoreOf(init[k], ps, cfg, known).score {
        k := |slots| - 1;
      }
    } else {
      forall j | 0 <= j < |slots| - 1 ensures ScoreOf(slots[j], ps, cfg, known).eliminated {
        assert init[j] == slots[j];
      }
      k := |slots| - 1;
    }
  }

  /** A slot nobody can be sure of yet, if it clears, survives the answers so far. */
  lemma DecidedIsAlive(slots: seq<Instant>, ps: seq<Participant>, cfg: Config, known: Answers, d: Solver.Verdict)
    requires Reports(slots, ps, cfg, known, d) && d.decidable
    ensures AnyAlive(slots, ps, cfg, known)
  {
    var k: nat :| k < |slots| && d.leader == Some(slots[k]) && FirstToClear(slots, ps, cfg, known, k);
    EliminatedIff(slots[k], ps, cfg, Settle(Fill(known, TierNo)));
    EliminatedIff(slots[k], ps, cfg, known);
  }

  // ---------- the verdict shown ----------

  datatype Kind = Decided | Decidable | WaitingRequired | WaitingRelevant | Tied | NoSlots

  datatype View = View(verdict: Kind, decidable: bool, leader: Option<Instant>, blockingRequired: seq<string>,
      relevant: seq<string>)

  /** The verdict is the first that applies; exactly one does. */
  ghost predicate Shows(view: View, decided: bool, alive: bool) {
    && (view.verdict == Decided <==> decided)
    && (view.verdict == NoSlots <==> !decided && !alive)
    && (view.verdict == Decidable <==> !decided && alive && view.decidable)
    && (view.verdict == WaitingRequired <==> !decided && alive && !view.decidable && view.blockingRequired != [])
    && (view.verdict == WaitingRelevant <==>
          !decided && alive && !view.decidable && view.blockingRequired == [] && view.relevant != [])
    && (view.verdict == Tied <==>
          !decided && alive && !view.decidable && view.blockingRequired == [] && view.relevant == [])
  }

  /** toDominanceView. */
  method ToDominanceView(d: Solver.Verdict, ranked: seq<SlotScore>, decided: bool) returns (out: View)
    ensures out.decidable == d.decidable && out.leader == d.leader
    ensures out.blockingRequired == d.blockingRequired && out.relevant == d.relevant
    ensures Shows(out, decided, exists r <- ranked :: !r.eliminated)
  {
    out := View(Decided, d.decidable, d.leader, d.blockingRequired, d.relevant);
    var anyAlive := false;
    for i := 0 to |ranked|
      invariant anyAlive <==> exists k :: 0 <= k < i && !ranked[k].eliminated
    {
      if !ranked[i].eliminated {
        anyAlive := true;
        break;
      }
    }
    if decided {
      out := out.(verdict := Decided);
    } else if !anyAlive {
      out := out.(verdict := NoSlots);
    } else if d.decidable {
      out := out.(verdict := Decidable);
    } else if |d.blockingRequired| > 0 {
      out := out.(verdict := WaitingRequired);
    } else if |d.relevant| > 0 {
      out := out.(verdict := WaitingRelevant);
    } else {
      out := out.(verdict := Tied);
    }
  }

  /** What a reader may conclude from the verdict about who has answered. */
  ghost predicate VerdictTellsTruth(view: View, ps: seq<StoredParticipant>, starts: seq<Instant>, alive: bool) {
    // Named blockers and a decided outcome exclude each other.
    && (view.decidable ==>
          view.blockingRequired == [] && (starts != [] ==> forall p <- ps :: p.required ==> p.responded))
    // Once everyone has answered there is nothing to wait for.
    && ((forall p <- ps :: p.responded) ==> (view.decidable <==> alive))
    // "No slots" never hides a decidable outcome.
    && (view.verdict == NoSlots ==> !view.decidable && !alive)
    // "Waiting on required" means a required person is silent.
    && (view.verdict == WaitingRequired ==> exists p <- ps :: p.required && !p.responded)
    // "Waiting on relevant" and "tied" mean the silent people are all optional, and there is one.
    && (view.verdict in {WaitingRelevant, Tied} ==>
          alive && (forall p <- ps :: p.required ==> p.responded) && exists p <- ps :: !p.required && !p.responded)
  }

  lemma RespondedMeansAnswered(in_: Input, ps: seq<StoredParticipant>, rs: map<string, seq<Row>>, starts: seq<Instant>)
    requires |in_.participants| == |ps| && forall i :: 0 <= i < |ps| ==> in_.participants[i] == ToParticipant(ps[i])
    requires forall p <- ps :: Knows(in_, p, rs, starts) && p.responded
    ensures EveryoneAnswered(starts, in_.participants, Lookup(in_.responses))
  {
    forall p, s | p in in_.participants && s in starts ensures Lookup(in_.responses)(p.id, s).Some? {
      var i :| 0 <= i < |in_.participants| && in_.participants[i] == p;
      assert ps[i] in ps && Knows(in_, ps[i], rs, starts);
    }
  }

  lemma TruthFromReport(view: View, in_: Input, ps: seq<StoredParticipant>, rs: map<string, seq<Row>>,
      starts: seq<Instant>,
                        cfg: Config, d: Solver.Verdict)
    requires in_.slots == starts
    requires |in_.participants| == |ps| && forall i :: 0 <= i < |ps| ==> in_.participants[i] == ToParticipant(ps[i])
    requires forall p <- ps :: Knows(in_, p, rs, starts)
    requires Reports(starts, in_.participants, cfg, Lookup(in_.responses), d)
    requires view.decidable == d.decidable && view.blockingRequired == d.blockingRequired
    requires var alive := AnyAlive(starts, in_.participants, cfg, Lookup(in_.responses));
             && (view.verdict == NoSlots ==> !alive)
             && (view.verdict == WaitingRequired ==> alive && d.blockingRequired != [])
             && (view.verdict in {WaitingRelevant, Tied} ==> alive && !d.decidable && d.blockingRequired == [])
    ensures VerdictTellsTruth(view, ps, starts, AnyAlive(starts, in_.participants, cfg, Lookup(in_.responses)))
  {
    hide ScoreOf, Bound, Clears, MovesField, NamesWhere, FirstToClear, FirstBest, AnyAlive, LastTier, Lookup,
        CouldWinSet;
    var known, people := Lookup(in_.responses), in_.participants;
    BuiltIsAllOrNothing(in_, ps, rs, starts);
    NamesWhereMeaning(people, p => Blocking(starts, known, p));
    if d.blockingRequired != [] {
      BlockedIsUndecided(starts, people, cfg, known, d);
      assert d.blockingRequired[0] in d.blockingRequired;
      var p :| p in people && Blocking(starts, known, p);
      var i :| 0 <= i < |people| && people[i] == p;
      assert ps[i].required && !ps[i].responded && ps[i] in ps;
    } else if starts != [] {
      forall i | 0 <= i < |ps| ensures ps[i].required ==> ps[i].responded {
        assert people[i] in people && people[i].name !in d.blockingRequired;
        assert !Blocking(starts, known, people[i]);
      }
    }
    if d.decidable {
      DecidedIsAlive(starts, people, cfg, known, d);
    }
    if forall p <- ps :: p.responded {
      RespondedMeansAnswered(in_, ps, rs, starts);
      AnsweredIsDecided(starts, people, cfg, known, d);
    }
  }

  /** rankAndAnalyze and the view built from it, from stored rows to the answer
      shown.  Where the bounds hold, "decidable" is shown just when some slot
      wins whatever the outstanding answers are. */
  method SolveEvent(ps: seq<StoredParticipant>, rs: map<string, seq<Row>>, starts: seq<Instant>, cfg: Config,
      hist: History, decided: bool)
    returns (view: View, ranked: seq<SlotScore>, in_: Input)
    ensures |in_.participants| == |ps| && forall i :: 0 <= i < |ps| ==> in_.participants[i] == ToParticipant(ps[i])
    ensures multiset(ranked) == multiset(Scores(starts, in_.participants, cfg, Lookup(in_.responses)))
    ensures Reports(starts, in_.participants, cfg, Lookup(in_.responses),
                    Solver.Verdict(view.decidable, view.leader, view.blockingRequired, view.relevant))
    ensures Shows(view, decided, exists r <- ranked :: !r.eliminated)
    ensures DistinctIDs(ps) ==>
              && (forall p <- ps :: Knows(in_, p, rs, starts))
              && VerdictTellsTruth(view, ps, starts, exists r <- ranked :: !r.eliminated)
    ensures Distinct(starts) && BoundsHoldEverywhere(starts, in_.participants, cfg, Lookup(in_.responses)) ==>
              DecidesExactly(starts, in_.participants, cfg, Lookup(in_.responses),
                             Solver.Verdict(view.decidable, view.leader, view.blockingRequired, view.relevant))
  {
    hide ScoreOf, NoRisingChain, FaithfulRanking, TiesBrokenInTurn, LastTier, Reports, DecidesExactly, AnyAlive,
        VerdictTellsTruth;
    in_ := Build(ps, rs, starts);
    var known := Lookup(in_.responses);
    ranked := RankWithHistory(in_.slots, in_.participants, cfg, known, hist);
    var d := Analyze(in_.slots, in_.participants, cfg, known);
    view := ToDominanceView(d, ranked, decided);
    RankedAlive(in_.slots, in_.participants, cfg, known, ranked);
    if DistinctIDs(ps) {
      TruthFromReport(view, in_, ps, rs, starts, cfg, d);
    }
  }

  lemma RankedAlive(slots: seq<Instant>, ps: seq<Participant>, cfg: Config, known: Answers, ranked: seq<SlotScore>)
    requires multiset(ranked) == multiset(Scores(slots, ps, cfg, known))
    ensures (exists r <- ranked :: !r.eliminated) <==> AnyAlive(slots, ps, cfg, known)
  {
    var scores := Scores(slots, ps, cfg, known);
    if AnyAlive(slots, ps, cfg, known) {
      var k :| 0 <= k < |slots| && !ScoreOf(slots[k], ps, cfg, known).eliminated;
      assert scores[k] in scores;
      SameElements(ranked, scores, scores[k]);
    }
    forall r <- ranked | !r.eliminated ensures AnyAlive(slots, ps, cfg, known) {
      SameElements(ranked, scores, r);
      var k :| 0 <= k < |scores| && scores[k] == r;
    }
  }
}
