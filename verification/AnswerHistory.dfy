/** Whole histories of one participant's answers: submissions, calendar imports
    and disconnects in any order (responses.go, calendar.go), and what the
    solver's input makes of them (results.go). */
module AnswerHistory {
  import opened Options
  import opened Zones
  import opened Scoring
  import opened Store
  import opened Intervals
  import opened Rows
  import opened Results

  /** Every save of rows marks the participant as having responded. */
  datatype Sheet = Sheet(table: Table, responded: bool)

  datatype Step = Submit(loc: Zone, req: Request) | Import(blocks: seq<Interval>) | Disconnect

  /** A submission with a fault is refused, and so is an import for an event without slots. */
  function Next(starts: seq<Instant>, minutes: int, s: Sheet, step: Step): Sheet {
    match step
    case Submit(loc, req) =>
      if Fault(starts, req).Some? then s else Sheet(Carried(StatedTable(starts, loc, req), s.table), true)
    case Import(blocks) =>
      if starts == [] then s else Sheet(Imported(s.table, starts, minutes, blocks), true)
    case Disconnect => Sheet(StatedOnly(s.table), true)
  }

  function Run(starts: seq<Instant>, minutes: int, steps: seq<Step>): Sheet {
    if steps == [] then Sheet(map[], false)
    else Next(starts, minutes, Run(starts, minutes, steps[..|steps| - 1]), steps[|steps| - 1])
  }

  /** What the last accepted submission alone would store. */
  function LastSubmitted(starts: seq<Instant>, steps: seq<Step>): Table {
    if steps == [] then map[]
    else match steps[|steps| - 1]
      case Submit(loc, req) =>
        if Fault(starts, req).None? then StatedTable(starts, loc, req) else LastSubmitted(starts, steps[..|steps| - 1])
      case Import(_) => LastSubmitted(starts, steps[..|steps| - 1])
      case Disconnect => LastSubmitted(starts, steps[..|steps| - 1])
  }

  /** Rows belong to the event's slots, and what the calendar says is always "no". */
  ghost predicate Sound(starts: seq<Instant>, table: Table) {
    && Keyed(table)
    && (forall t <- table :: t in starts)
    && (forall t <- table :: FromCalendar(table, t) ==> table[t].tier == TierNo)
  }

  lemma StatedIsSound(starts: seq<Instant>, loc: Zone, req: Request)
    ensures Sound(starts, StatedTable(starts, loc, req))
    ensures StatedOnly(StatedTable(starts, loc, req)) == StatedTable(starts, loc, req)
  {
    hide FineTier, CoarseTier, Of;
  }

  lemma CarriedKeeps(starts: seq<Instant>, stated: Table, prior: Table)
    requires Sound(starts, stated) && Sound(starts, prior) && StatedOnly(stated) == stated
    ensures Sound(starts, Carried(stated, prior)) && StatedOnly(Carried(stated, prior)) == stated
    ensures forall t <- prior :: FromCalendar(prior, t) && t !in stated ==>
              t in Carried(stated, prior) && Carried(stated, prior)[t] == prior[t]
  {
    assert forall t <- stated :: t in StatedOnly(stated);
  }

  /** Importing keeps exactly the stated rows on the event's slots. */
  lemma ImportedMeaning(starts: seq<Instant>, minutes: int, blocks: seq<Interval>, table: Table)
    requires Sound(starts, table)
    ensures Sound(starts, Imported(table, starts, minutes, blocks))
    ensures StatedOnly(Imported(table, starts, minutes, blocks)) == StatedOnly(table)
  {
    hide Hits;
    var after := Imported(table, starts, minutes, blocks);
    ImportedKeys(table, starts, minutes, blocks);
    forall t | t in starts
      ensures t in StatedOnly(table) <==> t in StatedOnly(after)
      ensures t in StatedOnly(table) ==> StatedOnly(after)[t] == StatedOnly(table)[t]
      ensures FromCalendar(after, t) ==> after[t].tier == TierNo
    {
      ImportedAt(table, starts, minutes, blocks, t);
    }
  }

  /** Over every history the rows are sound, and the stated ones are exactly
      what the last accepted submission said: no import or disconnect ever
      adds, drops or alters one, and a refused submission changes nothing. */
  lemma {:induction false} StatedRowsAreTheLastSubmission(starts: seq<Instant>, minutes: int, steps: seq<Step>)
    ensures Sound(starts, Run(starts, minutes, steps).table)
    ensures StatedOnly(Run(starts, minutes, steps).table) == LastSubmitted(starts, steps)
  {
    hide Sound, StatedOnly, Carried, Imported, StatedTable, Fault;
    if steps == [] {
      NothingSaid(starts);
    } else {
      var init, step := steps[..|steps| - 1], steps[|steps| - 1];
      StatedRowsAreTheLastSubmission(starts, minutes, init);
      var s := Run(starts, minutes, init);
      match step {
        case Submit(loc, req) =>
          StatedIsSound(starts, loc, req);
          CarriedKeeps(starts, StatedTable(starts, loc, req), s.table);
        case Import(blocks) =>
          ImportedMeaning(starts, minutes, blocks, s.table);
        case Disconnect =>
          DisconnectMeaning(starts, s.table);
      }
    }
  }

  lemma NothingSaid(starts: seq<Instant>)
    ensures Sound(starts, map[]) && StatedOnly(map[]) == map[]
  {
  }

  lemma DisconnectMeaning(starts: seq<Instant>, table: Table)
    requires Sound(starts, table)
    ensures Sound(starts, StatedOnly(table)) && StatedOnly(StatedOnly(table)) == StatedOnly(table)
  {
  }

  /** An import followed by a disconnect leaves exactly the rows the person stated. */
  lemma ImportThenDisconnect(starts: seq<Instant>, minutes: int, steps: seq<Step>, blocks: seq<Interval>)
    ensures Run(starts, minutes, steps + [Import(blocks), Disconnect]).table ==
              StatedOnly(Run(starts, minutes, steps).table)
  {
    hide StatedOnly, Imported, StatedTable, Fault;
    var more := steps + [Import(blocks)];
    var all := steps + [Import(blocks), Disconnect];
    assert more[..|more| - 1] == steps && all[..|all| - 1] == more;
    StatedRowsAreTheLastSubmission(starts, minutes, steps);
    ImportedMeaning(starts, minutes, blocks, Run(starts, minutes, steps).table);
    assert Run(starts, minutes, more) == Next(starts, minutes, Run(starts, minutes, steps), Import(blocks));
    assert Run(starts, minutes, all) == Next(starts, minutes, Run(starts, minutes, more), Disconnect);
  }

  /** A submission keeps every calendar row it says nothing about. */
  lemma SubmissionKeepsCalendar(starts: seq<Instant>, minutes: int, steps: seq<Step>, loc: Zone, req: Request,
      t: Instant)
    requires Fault(starts, req).None? && Stated(req, loc, t).None?
    requires FromCalendar(Run(starts, minutes, steps).table, t)
    ensures var after := Run(starts, minutes, steps + [Submit(loc, req)]).table;
            t in after && after[t] == Row(t, TierNo, SourceCalendar)
  {
    hide Fault, Stated;
    var all := steps + [Submit(loc, req)];
    assert all[..|all| - 1] == steps;
    StatedRowsAreTheLastSubmission(starts, minutes, steps);
    var s := Run(starts, minutes, steps);
    assert Run(starts, minutes, all) == Next(starts, minutes, s, Submit(loc, req));
    StatedIsSound(starts, loc, req);
    CarriedKeeps(starts, StatedTable(starts, loc, req), s.table);
    hide Run, Carried;
  }

  // ---------- what the solver sees ----------

  function TierAt(table: Table, t: Instant): Tier {
    if t in table then table[t].tier else TierNo
  }

  /** The last row for a slot, in rows with one row a slot, is the table's. */
  lemma {:induction false} LastTierIsTableTier(rows: seq<Row>, t: Instant)
    requires InSlotOrder(rows)
    ensures forall r <- rows :: r.slotStart == t ==> LastTier(rows, t) == r.tier
    ensures (forall r <- rows :: r.slotStart != t) ==> LastTier(rows, t) == TierNo
  {
    if rows != [] {
      var init, last := rows[..|rows| - 1], rows[|rows| - 1];
      LastTierIsTableTier(init, t);
      assert forall r <- rows :: r == last || r in init;
    }
  }

  lemma ListedTier(rows: seq<Row>, table: Table, t: Instant)
    requires Lists(rows, table)
    ensures LastTier(rows, t) == TierAt(table, t)
  {
    LastTierIsTableTier(rows, t);
    if t in table {
      ListedAt(rows, table, t);
    }
    hide LastTier, InSlotOrder;
  }

  /** After every history the tiers Build finds in a responder's rows are those
      of the last accepted submission, "no" where it was silent.  So calendar
      rows, present or removed, never sway a result. */
  lemma {:induction false} CalendarNeverSways(
    starts: seq<Instant>, minutes: int, steps: seq<Step>, rows: seq<Row>, kept: seq<Row>, t: Instant)
    requires Lists(rows, Run(starts, minutes, steps).table)
    requires Lists(kept, StatedOnly(Run(starts, minutes, steps).table))
    ensures LastTier(rows, t) == TierAt(LastSubmitted(starts, steps), t)
    ensures LastTier(rows, t) == LastTier(kept, t)
  {
    var table := Run(starts, minutes, steps).table;
    StatedRowsAreTheLastSubmission(starts, minutes, steps);
    hide Run, LastSubmitted, Lists;
    ListedTier(rows, table, t);
    ListedTier(kept, StatedOnly(table), t);
    hide LastTier;
  }

  // ---------- histories, said step by step ----------

  /** Step n is the last submission that is not refused. */
  ghost predicate LastAccepted(starts: seq<Instant>, steps: seq<Step>, n: nat) {
    && n < |steps| && steps[n].Submit? && Reads(starts, steps[n].req)
    && forall m :: n < m < |steps| && steps[m].Submit? ==> !Reads(starts, steps[m].req)
  }

  /** A submission says something of a slot: an entry of its own or a tap on its part of the day. */
  ghost predicate SpeaksOf(loc: Zone, req: Request, t: Instant) {
    exists row: Row :: row.slotStart == t && Speaks(req, loc, row)
  }

  ghost predicate SilentOn(starts: seq<Instant>, step: Step, t: Instant) {
    step.Submit? && Reads(starts, step.req) ==> !SpeaksOf(step.loc, step.req, t)
  }

  lemma {:induction false} LastSubmittedIs(starts: seq<Instant>, steps: seq<Step>, n: nat)
    requires LastAccepted(starts, steps, n)
    ensures LastSubmitted(starts, steps) == StatedTable(starts, steps[n].loc, steps[n].req)
  {
    hide Reads, Fault, StatedTable;
    var last := |steps| - 1;
    if steps[last].Submit? {
      FaultMeaning(starts, steps[last].req);
    }
    if n < last {
      var init := steps[..last];
      assert forall m :: n <= m < last ==> init[m] == steps[m];
      LastSubmittedIs(starts, init, n);
    }
  }

  lemma {:induction false} NothingAccepted(starts: seq<Instant>, steps: seq<Step>)
    requires forall n: nat :: !LastAccepted(starts, steps, n)
    ensures LastSubmitted(starts, steps) == map[]
  {
    hide Reads, Fault, StatedTable;
    if steps != [] {
      var last := |steps| - 1;
      var init := steps[..last];
      assert !LastAccepted(starts, steps, last);
      if steps[last].Submit? {
        FaultMeaning(starts, steps[last].req);
      }
      forall n: nat | n < last ensures LastAccepted(starts, steps, n) <==> LastAccepted(starts, init, n) {
        assert forall m :: n <= m < last ==> init[m] == steps[m];
      }
      NothingAccepted(starts, init);
    }
  }

  /** After every history the rows a person is taken to have stated are those
      the last accepted submission spoke, entry by entry: a slot's own last
      entry, or the last tap on its part of the day when it has none.  Those
      are the tiers Build reads, and "no" where the submission was silent. */
  lemma TiersAreTheLastEntries(starts: seq<Instant>, minutes: int, steps: seq<Step>, n: nat, rows: seq<Row>)
    requires LastAccepted(starts, steps, n) && Lists(rows, Run(starts, minutes, steps).table)
    ensures var loc, req := steps[n].loc, steps[n].req;
            forall row :: row in rows && row.source != SourceCalendar <==>
              row.slotStart in starts && Speaks(req, loc, row)
    ensures var loc, req := steps[n].loc, steps[n].req;
            forall row: Row :: row.slotStart in starts && Speaks(req, loc, row) ==>
              LastTier(rows, row.slotStart) == row.tier
    ensures var loc, req := steps[n].loc, steps[n].req;
            forall t :: !SpeaksOf(loc, req, t) ==> LastTier(rows, t) == TierNo
  {
    var loc, req := steps[n].loc, steps[n].req;
    var table := Run(starts, minutes, steps).table;
    StatedRowsAreTheLastSubmission(starts, minutes, steps);
    LastSubmittedIs(starts, steps, n);
    hide Run, LastSubmitted, StatedTable, Stated, Speaks, Reads, LastTier, InSlotOrder;
    forall row
      ensures row in rows && row.source != SourceCalendar <==> row.slotStart in starts && Speaks(req, loc, row)
    {
      StatedTableRow(starts, loc, req, row);
      assert row.slotStart in StatedOnly(table) && StatedOnly(table)[row.slotStart] == row <==>
        row in rows && row.source != SourceCalendar;
    }
    forall row: Row | row.slotStart in starts && Speaks(req, loc, row)
      ensures LastTier(rows, row.slotStart) == row.tier
    {
      LastTierIsTableTier(rows, row.slotStart);
      assert row in rows;
    }
    forall t | !SpeaksOf(loc, req, t) ensures LastTier(rows, t) == TierNo {
      LastTierIsTableTier(rows, t);
      if r :| r in rows && r.slotStart == t {
        assert r.source == SourceCalendar;
        assert FromCalendar(table, t);
      }
    }
  }

  lemma StatedTableRow(starts: seq<Instant>, loc: Zone, req: Request, row: Row)
    requires Reads(starts, req)
    ensures var said := StatedTable(starts, loc, req);
            row.slotStart in said && said[row.slotStart] == row <==>
              row.slotStart in starts && Speaks(req, loc, row)
  {
    StatedMeaning(starts, req, loc, row);
    hide Stated, Speaks, Reads;
  }

  lemma SpokenOf(starts: seq<Instant>, loc: Zone, req: Request, t: Instant)
    requires Reads(starts, req)
    ensures t in StatedTable(starts, loc, req) <==> t in starts && SpeaksOf(loc, req, t)
  {
    hide Speaks, Reads, Stated;
    forall row: Row | row.slotStart == t
      ensures row.slotStart in starts && Speaks(req, loc, row) <==>
        t in StatedTable(starts, loc, req) && StatedTable(starts, loc, req)[t] == row
    {
      StatedTableRow(starts, loc, req, row);
    }
    if t in StatedTable(starts, loc, req) {
      assert StatedTable(starts, loc, req)[t].slotStart == t by {
        StatedIsSound(starts, loc, req);
      }
    }
  }

  ghost predicate SilentSoFar(starts: seq<Instant>, steps: seq<Step>, t: Instant) {
    forall n: nat :: LastAccepted(starts, steps, n) ==> !SpeaksOf(steps[n].loc, steps[n].req, t)
  }

  /** Some block shares time with the slot, or surrounds the start of an empty one. */
  ghost predicate Overlaid(t: Instant, minutes: int, blocks: seq<Interval>) {
    exists b <- blocks :: b.start < t + minutes * MINUTE && t < b.end
  }

  /** Import m stands unrevoked, one of its blocks overlaps the slot, and no
      submission in force at the import or accepted since has spoken of the slot. */
  ghost predicate Blocks(starts: seq<Instant>, minutes: int, steps: seq<Step>, m: nat, t: Instant) {
    && m < |steps| && steps[m].Import?
    && Overlaid(t, minutes, steps[m].blocks) && SilentSoFar(starts, steps[..m], t)
    && (forall k :: m < k < |steps| ==> steps[k].Submit? && SilentOn(starts, steps[k], t))
  }

  lemma NoRowsAtFirst(starts: seq<Instant>, minutes: int, t: Instant)
    ensures !FromCalendar(map[], t) && forall m: nat :: !Blocks(starts, minutes, [], m, t)
  {
  }

  lemma BlocksStep(starts: seq<Instant>, minutes: int, steps: seq<Step>, t: Instant)
    requires steps != []
    ensures var init, step := steps[..|steps| - 1], steps[|steps| - 1];
            (exists m: nat :: Blocks(starts, minutes, steps, m, t)) <==>
              if step.Submit? then SilentOn(starts, step, t) && exists m: nat :: Blocks(starts, minutes, init, m, t)
              else if step.Import? then Overlaid(t, minutes, step.blocks) && SilentSoFar(starts, init, t)
              else false
  {
    hide LastAccepted, SilentOn, Overlaid;
    var last := |steps| - 1;
    var init, step := steps[..last], steps[last];
    if step.Import? {
      assert Blocks(starts, minutes, steps, last, t) <==>
        Overlaid(t, minutes, step.blocks) && SilentSoFar(starts, init, t);
    }
    forall m: nat | m < last
      ensures Blocks(starts, minutes, steps, m, t) <==>
        Blocks(starts, minutes, init, m, t) && step.Submit? && SilentOn(starts, step, t)
    {
      assert init[..m] == steps[..m];
      assert forall k :: m < k < last ==> steps[k] == init[k];
      assert steps[last] == step;
    }
  }

  lemma SubmitFromCalendar(starts: seq<Instant>, minutes: int, s: Sheet, step: Step, t: Instant)
    requires step.Submit? && t in starts && Sound(starts, s.table)
    ensures FromCalendar(Next(starts, minutes, s, step).table, t) <==>
              FromCalendar(s.table, t) && SilentOn(starts, step, t)
  {
    var loc, req := step.loc, step.req;
    FaultMeaning(starts, req);
    hide Fault, Reads, SpeaksOf;
    if Reads(starts, req) {
      SpokenOf(starts, loc, req, t);
      StatedIsSound(starts, loc, req);
      hide StatedTable;
      assert t in StatedTable(starts, loc, req) ==> t in StatedOnly(StatedTable(starts, loc, req));
    }
  }

  lemma NoCalendarLeft(table: Table, t: Instant)
    ensures !FromCalendar(StatedOnly(table), t)
  {
  }

  lemma BusyIffOverlaid(t: Instant, minutes: int, blocks: seq<Interval>)
    ensures Busy(t, minutes, blocks) <==> Overlaid(t, minutes, blocks)
  {
    assert forall b <- blocks :: b.Overlaps(Interval(t, t + minutes * MINUTE)) <==>
        b.start < t + minutes * MINUTE && t < b.end;
  }

  lemma {:induction false} SpokenBefore(starts: seq<Instant>, steps: seq<Step>, t: Instant)
    requires t in starts
    ensures t in LastSubmitted(starts, steps) <==> !SilentSoFar(starts, steps, t)
  {
    hide LastAccepted, SpeaksOf, StatedTable, LastSubmitted;
    if n: nat :| LastAccepted(starts, steps, n) {
      OneLastAccepted(starts, steps, n);
      LastSubmittedIs(starts, steps, n);
      SpokenOf(starts, steps[n].loc, steps[n].req, t);
    } else {
      NothingAccepted(starts, steps);
    }
  }

  lemma OneLastAccepted(starts: seq<Instant>, steps: seq<Step>, n: nat)
    requires LastAccepted(starts, steps, n)
    ensures n < |steps| && steps[n].Submit? && Reads(starts, steps[n].req)
    ensures forall m: nat :: LastAccepted(starts, steps, m) ==> m == n
  {
    hide Reads;
  }

  /** After every history a slot carries a calendar row exactly when the last
      import that still stands blocks it and the person has said nothing of it. */
  lemma {:induction false} CalendarRowIff(starts: seq<Instant>, minutes: int, steps: seq<Step>, t: Instant)
    requires t in starts
    ensures FromCalendar(Run(starts, minutes, steps).table, t) <==>
              exists m: nat :: Blocks(starts, minutes, steps, m, t)
  {
    hide LastAccepted, SilentOn, SilentSoFar, Overlaid, Blocks;
    hide Carried, Imported, StatedTable, FromCalendar, Fault, Busy;
    if steps == [] {
      NoRowsAtFirst(starts, minutes, t);
    } else {
      var last := |steps| - 1;
      var init, step := steps[..last], steps[last];
      var s := Run(starts, minutes, init);
      CalendarRowIff(starts, minutes, init, t);
      StatedRowsAreTheLastSubmission(starts, minutes, init);
      BlocksStep(starts, minutes, steps, t);
      match step {
        case Submit(loc, req) =>
          SubmitFromCalendar(starts, minutes, s, step, t);
        case Import(blocks) =>
          SpokenBefore(starts, init, t);
          BusyIffOverlaid(t, minutes, blocks);
          ImportedAt(s.table, starts, minutes, blocks, t);
        case Disconnect =>
          NoCalendarLeft(s.table, t);
      }
    }
  }

  /** Whether a history saved anything: one accepted submission, import or disconnect does. */
  predicate Saves(starts: seq<Instant>, step: Step) {
    (step.Submit? ==> Fault(starts, step.req).None?) && (step.Import? ==> starts != [])
  }

  lemma {:induction false} RespondedIffSaved(starts: seq<Instant>, minutes: int, steps: seq<Step>)
    ensures Run(starts, minutes, steps).responded <==> exists step <- steps :: Saves(starts, step)
  {
    hide Saves, Carried, Imported, StatedOnly, StatedTable;
    if steps != [] {
      var init, step := steps[..|steps| - 1], steps[|steps| - 1];
      RespondedIffSaved(starts, minutes, init);
      SaveResponds(starts, minutes, Run(starts, minutes, init), step);
      assert steps == init + [step];
      assert forall x :: x in steps <==> x in init || x == step;
    }
  }

  lemma SaveResponds(starts: seq<Instant>, minutes: int, s: Sheet, step: Step)
    ensures Next(starts, minutes, s, step).responded <==> s.responded || Saves(starts, step)
  {
    hide Fault, Carried, Imported, StatedOnly, StatedTable;
  }

  /** A person who never submitted but whose calendar was imported or
      disconnected counts as having answered "no" to every slot; when they are
      required, no slot survives. */
  lemma {:induction false} ImportSpeaksForTheSilent(
    starts: seq<Instant>, minutes: int, steps: seq<Step>, ps: seq<StoredParticipant>, p: StoredParticipant,
    rs: map<string, seq<Row>>, in_: Input, cfg: Config)
    requires forall step <- steps :: step.Submit? ==> Fault(starts, step.req).Some?
    requires exists step <- steps :: Saves(starts, step)
    requires p in ps && p.required && p.responded == Run(starts, minutes, steps).responded
    requires Lists(RowsOf(rs, p.id), Run(starts, minutes, steps).table)
    requires ToParticipant(p) in in_.participants && Knows(in_, p, rs, starts)
    ensures forall s <- starts :: Lookup(in_.responses)(p.id, s) == Some(TierNo)
    ensures forall s <- starts :: ScoreOf(s, in_.participants, cfg, Lookup(in_.responses)).eliminated
  {
    RespondedIffSaved(starts, minutes, steps);
    SilentTable(starts, steps);
    StatedRowsAreTheLastSubmission(starts, minutes, steps);
    hide ScoreOf, Run, Saves, LastSubmitted, Fault;
    var table := Run(starts, minutes, steps).table;
    forall s | s in starts
      ensures Lookup(in_.responses)(p.id, s) == Some(TierNo)
      ensures ScoreOf(s, in_.participants, cfg, Lookup(in_.responses)).eliminated
    {
      ListedTier(RowsOf(rs, p.id), table, s);
      assert s in table ==> s !in StatedOnly(table);
      var q := ToParticipant(p);
      assert q.role == RoleRequired && q.id == p.id;
      EliminatedIff(s, in_.participants, cfg, Lookup(in_.responses));
    }
  }

  lemma {:induction false} SilentTable(starts: seq<Instant>, steps: seq<Step>)
    requires forall step <- steps :: step.Submit? ==> Fault(starts, step.req).Some?
    ensures LastSubmitted(starts, steps) == map[]
  {
    hide Fault, StatedTable;
    if steps != [] {
      assert steps[|steps| - 1] in steps;
      SilentTable(starts, steps[..|steps| - 1]);
    }
  }
}
