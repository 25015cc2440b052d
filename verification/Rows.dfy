/** One participant's stored answers under submissions, calendar imports and
    disconnects (responses.go, calendar.go, dayparts.go). */
module Rows {
  import opened Options
  import opened Zones
  import opened Scoring
  import opened Store
  import opened Intervals
  import opened Sorting
  import opened Calendar
  import opened WallClocks
  import Proposal

  // ---------- vocabulary ----------

  /** Tier.String. */
  function TierName(t: Tier): string {
    match t
    case TierPreferred => "preferred"
    case TierOK => "ok"
    case TierIfNeeded => "if_needed"
    case TierNo => "no"
  }

  function ParseTier(s: string): Option<Tier> {
    if s == "preferred" then Some(TierPreferred)
    else if s == "ok" then Some(TierOK)
    else if s == "if_needed" then Some(TierIfNeeded)
    else if s == "no" then Some(TierNo)
    else None
  }

  lemma TierNamesInvert(s: string, t: Tier)
    ensures ParseTier(s) == Some(t) <==> s == TierName(t)
  {
  }

  datatype Block = Morning | Afternoon | Evening

  /** A part of a local day, the day numbered from the epoch. */
  datatype Cell = Cell(day: int, block: Block)

  /** The part of the day an instant falls in, seen from a zone. */
  function Of(t: Instant, loc: Zone): Cell {
    var h := loc.HourAt(t);
    Cell(loc.LocalSecond(t) / DAY, if h < 12 then Morning else if h < 17 then Afternoon else Evening)
  }

  /** Wherever a clock in the zone shows a date, hour, minute and second, the cell
      is that date's, in the morning before noon and the evening from five. */
  lemma OfReads(t: Instant, loc: Zone, c: WallClock, second: int)
    requires c.OnTheClock() && 0 <= second < MINUTE && loc.LocalSecond(t) == c.Local() + second
    ensures Of(t, loc).day == DayNumber(c.date)
    ensures Of(t, loc).block == Morning <==> c.tod.Minutes() < 12 * 60
    ensures Of(t, loc).block == Evening <==> c.tod.Minutes() >= 17 * 60
  {
    hide DayNumber, Valid;
    var x := c.tod.Minutes() * MINUTE + second;
    assert loc.LocalSecond(t) == DayNumber(c.date) * DAY + x;
    assert 0 <= x < DAY;
  }

  // ---------- a submission ----------

  /** `cell` is None when the block or the date does not parse. */
  datatype Coarse = Coarse(cell: Option<Cell>, tier: string)

  datatype Fine = Fine(slot: Instant, tier: string)

  datatype Request = Request(coarse: seq<Coarse>, fine: seq<Fine>)

  datatype Error = BadCell(i: nat) | BadCoarseTier(i: nat) | NotASlot(i: nat) | BadFineTier(i: nat)

  datatype Built = Accepted(rows: seq<Row>) | Refused(error: Error)

  datatype Selection = Selection(cell: Cell, tier: Tier)

  /** The first entry that cannot be read. */
  function CoarseFault(coarse: seq<Coarse>): Option<Error> {
    if coarse == [] then None
    else
      var i, c := |coarse| - 1, coarse[|coarse| - 1];
      var before := CoarseFault(coarse[..i]);
      if before.Some? then before
      else if c.cell.None? then Some(BadCell(i))
      else if ParseTier(c.tier).None? then Some(BadCoarseTier(i))
      else None
  }

  function FineFault(starts: seq<Instant>, fine: seq<Fine>): Option<Error> {
    if fine == [] then None
    else
      var i, f := |fine| - 1, fine[|fine| - 1];
      var before := FineFault(starts, fine[..i]);
      if before.Some? then before
      else if f.slot !in starts then Some(NotASlot(i))
      else if ParseTier(f.tier).None? then Some(BadFineTier(i))
      else None
  }

  function Fault(starts: seq<Instant>, req: Request): Option<Error> {
    if CoarseFault(req.coarse).Some? then CoarseFault(req.coarse) else FineFault(starts, req.fine)
  }

  /** What the last tap on a cell says. */
  function CoarseTier(coarse: seq<Coarse>, cell: Cell): Option<Tier> {
    if coarse == [] then None
    else if coarse[|coarse| - 1].cell == Some(cell) then ParseTier(coarse[|coarse| - 1].tier)
    else CoarseTier(coarse[..|coarse| - 1], cell)
  }

  /** What the last entry for a slot says. */
  function FineTier(fine: seq<Fine>, slot: Instant): Option<Tier> {
    if fine == [] then None
    else if fine[|fine| - 1].slot == slot then ParseTier(fine[|fine| - 1].tier)
    else FineTier(fine[..|fine| - 1], slot)
  }

  /** What a submission says of a slot: the slot's own entry if it has one, or
      else what its part of the day was given. */
  function Stated(req: Request, loc: Zone, t: Instant): Option<Row> {
    match FineTier(req.fine, t)
    case Some(tier) => Some(Row(t, tier, SourceManual))
    case None =>
      match CoarseTier(req.coarse, Of(t, loc))
      case Some(tier) => Some(Row(t, tier, SourceCoarse))
      case None => None
  }

  function LastSelected(sel: seq<Selection>, cell: Cell): Option<Tier> {
    if sel == [] then None
    else if sel[|sel| - 1].cell == cell then Some(sel[|sel| - 1].tier)
    else LastSelected(sel[..|sel| - 1], cell)
  }

  method ParseSelections(coarse: seq<Coarse>) returns (fault: Option<Error>, sel: seq<Selection>)
    ensures fault == CoarseFault(coarse)
    ensures fault.None? ==> forall c :: LastSelected(sel, c) == CoarseTier(coarse, c)
  {
    sel := [];
    for i := 0 to |coarse|
      invariant CoarseFault(coarse[..i]).None?
      invariant forall c :: LastSelected(sel, c) == CoarseTier(coarse[..i], c)
    {
      assert coarse[..i + 1][..i] == coarse[..i];
      CoarseFaultGrows(coarse, i + 1);
      if coarse[i].cell.None? {
        return Some(BadCell(i)), [];
      }
      var tier := ParseTier(coarse[i].tier);
      if tier.None? {
        return Some(BadCoarseTier(i)), [];
      }
      ghost var was := sel;
      sel := sel + [Selection(coarse[i].cell.value, tier.value)];
      assert sel[..|sel| - 1] == was;
    }
    assert coarse[..|coarse|] == coarse;
    fault := None;
  }

  /** A fault in a prefix is the fault of the whole. */
  lemma {:induction false} CoarseFaultGrows(coarse: seq<Coarse>, n: nat)
    requires n <= |coarse|
    ensures CoarseFault(coarse[..n]).Some? ==> CoarseFault(coarse) == CoarseFault(coarse[..n])
    decreases |coarse|
  {
    if n == |coarse| {
      assert coarse[..n] == coarse;
    } else {
      assert coarse[..|coarse| - 1][..n] == coarse[..n];
      CoarseFaultGrows(coarse[..|coarse| - 1], n);
    }
  }

  lemma {:induction false} FineFaultGrows(starts: seq<Instant>, fine: seq<Fine>, n: nat)
    requires n <= |fine|
    ensures FineFault(starts, fine[..n]).Some? ==> FineFault(starts, fine) == FineFault(starts, fine[..n])
    decreases |fine|
  {
    if n == |fine| {
      assert fine[..n] == fine;
    } else {
      assert fine[..|fine| - 1][..n] == fine[..n];
      FineFaultGrows(starts, fine[..|fine| - 1], n);
    }
  }

  /** What one more entry adds. */
  lemma FineStep(starts: seq<Instant>, fine: seq<Fine>, i: nat)
    requires i < |fine| && FineFault(starts, fine[..i]).None?
    ensures if fine[i].slot !in starts then FineFault(starts, fine) == Some(NotASlot(i))
            else if ParseTier(fine[i].tier).None? then FineFault(starts, fine) == Some(BadFineTier(i))
            else FineFault(starts, fine[..i + 1]).None?
    ensures forall t :: FineTier(fine[..i + 1], t) ==
              if t == fine[i].slot then ParseTier(fine[i].tier) else FineTier(fine[..i], t)
  {
    assert fine[..i + 1][..i] == fine[..i];
    FineFaultGrows(starts, fine, i + 1);
    hide ParseTier;
    var more := fine[..i + 1];
    assert more[|more| - 1] == fine[i] && more[..|more| - 1] == fine[..i];
    forall t
      ensures FineTier(more, t) == if t == fine[i].slot then ParseTier(fine[i].tier) else FineTier(fine[..i], t)
    {
    }
  }

  /** dayparts.Expand: the tier of every slot in a selected cell. */
  method ExpandParts(starts: seq<Instant>, loc: Zone, sel: seq<Selection>) returns (out: map<Instant, Tier>)
    ensures forall t :: t in out <==> t in starts && LastSelected(sel, Of(t, loc)).Some?
    ensures forall t <- out :: Some(out[t]) == LastSelected(sel, Of(t, loc))
  {
    hide Of;
    var byCell: map<Cell, Tier> := map[];
    for i := 0 to |sel|
      invariant forall c :: (c in byCell <==> LastSelected(sel[..i], c).Some?)
      invariant forall c <- byCell :: Some(byCell[c]) == LastSelected(sel[..i], c)
    {
      assert sel[..i + 1][..i] == sel[..i];
      byCell := byCell[sel[i].cell := sel[i].tier];
    }
    assert sel[..|sel|] == sel;
    out := map[];
    for i := 0 to |starts|
      invariant forall t :: t in out <==> t in starts[..i] && LastSelected(sel, Of(t, loc)).Some?
      invariant forall t <- out :: Some(out[t]) == LastSelected(sel, Of(t, loc))
    {
      if Of(starts[i], loc) in byCell {
        out := out[starts[i] := byCell[Of(starts[i], loc)]];
      }
    }
  }

  // ---------- rows in order ----------

  predicate BySlot(a: Row, b: Row) {
    a.slotStart < b.slotStart
  }

  /** One row per slot, earliest first. */
  ghost predicate InSlotOrder(rows: seq<Row>) {
    forall i, j :: 0 <= i < j < |rows| ==> rows[i].slotStart < rows[j].slotStart
  }

  ghost predicate UniqueSlots(rows: seq<Row>) {
    forall i, j :: 0 <= i < j < |rows| ==> rows[i].slotStart != rows[j].slotStart
  }

  lemma {:induction false} InsertAscends(rows: seq<Row>, x: Row)
    requires InSlotOrder(rows) && forall r <- rows :: r.slotStart != x.slotStart
    ensures InSlotOrder(Insert(BySlot, rows, x))
    ensures forall r :: r in Insert(BySlot, rows, x) <==> r == x || r in rows
  {
    if rows != [] && BySlot(x, rows[|rows| - 1]) {
      InsertAscends(rows[..|rows| - 1], x);
      assert rows == rows[..|rows| - 1] + [rows[|rows| - 1]];
      var init, last := Insert(BySlot, rows[..|rows| - 1], x), rows[|rows| - 1];
      forall r | r in init ensures r.slotStart < last.slotStart {
        if r != x {
          assert r in rows[..|rows| - 1];
        }
      }
      assert forall i :: 0 <= i < |init| ==> init[i] in init;
    } else if rows != [] {
      assert rows[|rows| - 1].slotStart < x.slotStart;
    }
  }

  lemma {:induction false} SortAscends(rows: seq<Row>)
    requires UniqueSlots(rows)
    ensures InSlotOrder(Sort(BySlot, rows))
    ensures forall r :: r in Sort(BySlot, rows) <==> r in rows
  {
    if rows != [] {
      var init, last := rows[..|rows| - 1], rows[|rows| - 1];
      SortAscends(init);
      assert rows == init + [last];
      forall r | r in Sort(BySlot, init) ensures r.slotStart != last.slotStart {
        assert r in init;
      }
      InsertAscends(Sort(BySlot, init), last);
    }
  }

  // ---------- tables ----------

  /** A participant's rows as the database keys them. */
  type Table = map<Instant, Row>

  ghost predicate Keyed(table: Table) {
    forall t <- table :: table[t].slotStart == t
  }

  /** The rows are the table's, in the order the database returns them. */
  ghost predicate Lists(rows: seq<Row>, table: Table) {
    && InSlotOrder(rows) && Keyed(table)
    && (forall r :: r in rows <==> r.slotStart in table && table[r.slotStart] == r)
  }

  /** Every key of a listed table has its row in the list. */
  lemma ListedAt(rows: seq<Row>, table: Table, t: Instant)
    requires Lists(rows, table) && t in table
    ensures table[t] in rows
  {
  }

  /** What a submission alone would store. */
  function StatedTable(starts: seq<Instant>, loc: Zone, req: Request): Table {
    map t | t in starts && Stated(req, loc, t).Some? :: Stated(req, loc, t).value
  }

  predicate FromCalendar(table: Table, t: Instant) {
    t in table && table[t].source.SourceCalendar?
  }

  /** Calendar rows fill the slots a submission is silent about. */
  function Carried(stated: Table, prior: Table): Table {
    map t | t in stated.Keys + prior.Keys && (t in stated || FromCalendar(prior, t)) ::
      if t in stated then stated[t] else prior[t]
  }

  function StatedOnly(table: Table): Table {
    map t | t in table && !FromCalendar(table, t) :: table[t]
  }

  predicate Busy(t: Instant, minutes: int, blocks: seq<Interval>) {
    Hits(Interval(t, t + minutes * MINUTE), blocks)
  }

  /** A "no" for every slot the calendar covers and the person did not speak of. */
  function Imported(table: Table, starts: seq<Instant>, minutes: int, blocks: seq<Interval>): Table {
    map t | t in starts && (t in StatedOnly(table) || Busy(t, minutes, blocks)) ::
      if t in StatedOnly(table) then table[t] else Row(t, TierNo, SourceCalendar)
  }

  // ---------- a submission, said entry by entry ----------

  predicate CoarseReads(c: Coarse) {
    c.cell.Some? && ParseTier(c.tier).Some?
  }

  predicate FineReads(starts: seq<Instant>, f: Fine) {
    f.slot in starts && ParseTier(f.tier).Some?
  }

  ghost predicate Reads(starts: seq<Instant>, req: Request) {
    (forall c <- req.coarse :: CoarseReads(c)) && (forall f <- req.fine :: FineReads(starts, f))
  }

  /** The error names the first entry that cannot be read, coarse ones first, and what is wrong with it. */
  ghost predicate FirstUnreadable(starts: seq<Instant>, req: Request, e: Error) {
    match e
    case BadCell(i) =>
      i < |req.coarse| && req.coarse[i].cell.None? && forall j :: 0 <= j < i ==> CoarseReads(req.coarse[j])
    case BadCoarseTier(i) =>
      && i < |req.coarse| && req.coarse[i].cell.Some? && ParseTier(req.coarse[i].tier).None?
      && forall j :: 0 <= j < i ==> CoarseReads(req.coarse[j])
    case NotASlot(i) =>
      && i < |req.fine| && req.fine[i].slot !in starts
      && (forall c <- req.coarse :: CoarseReads(c)) && forall j :: 0 <= j < i ==> FineReads(starts, req.fine[j])
    case BadFineTier(i) =>
      && i < |req.fine| && req.fine[i].slot in starts && ParseTier(req.fine[i].tier).None?
      && (forall c <- req.coarse :: CoarseReads(c)) && forall j :: 0 <= j < i ==> FineReads(starts, req.fine[j])
  }

  ghost predicate LastFine(fine: seq<Fine>, i: nat, slot: Instant) {
    i < |fine| && fine[i].slot == slot && forall j :: i < j < |fine| ==> fine[j].slot != slot
  }

  ghost predicate LastCoarse(coarse: seq<Coarse>, i: nat, cell: Cell) {
    i < |coarse| && coarse[i].cell == Some(cell) && forall j :: i < j < |coarse| ==> coarse[j].cell != Some(cell)
  }

  /** The row is the manual one of the last entry for its slot, or, when the slot
      has no entry, the coarse one of the last tap on its part of the day. */
  ghost predicate Speaks(req: Request, loc: Zone, row: Row) {
    || (row.source == SourceManual
        && exists i: nat :: LastFine(req.fine, i, row.slotStart) && ParseTier(req.fine[i].tier) == Some(row.tier))
    || (row.source == SourceCoarse && (forall f <- req.fine :: f.slot != row.slotStart)
        && exists i: nat :: LastCoarse(req.coarse, i, Of(row.slotStart, loc))
                            && ParseTier(req.coarse[i].tier) == Some(row.tier))
  }

  lemma {:induction false} CoarseFaultMeaning(starts: seq<Instant>, coarse: seq<Coarse>)
    ensures CoarseFault(coarse).None? <==> forall c <- coarse :: CoarseReads(c)
    ensures CoarseFault(coarse).Some? ==> FirstUnreadable(starts, Request(coarse, []), CoarseFault(coarse).value)
  {
    if coarse != [] {
      var init, last := coarse[..|coarse| - 1], coarse[|coarse| - 1];
      CoarseFaultMeaning(starts, init);
      assert coarse == init + [last];
      if CoarseFault(init).Some? {
        hide CoarseReads, ParseTier;
        FaultStays(starts, Request(init, []), Request(coarse, []), CoarseFault(init).value);
        assert exists c <- init :: !CoarseReads(c);
      } else {
        hide ParseTier;
        LastCoarseFault(starts, init, last);
        hide CoarseReads, FirstUnreadable;
      }
    }
  }

  lemma {:induction false} FineFaultMeaning(starts: seq<Instant>, fine: seq<Fine>)
    ensures FineFault(starts, fine).None? <==> forall f <- fine :: FineReads(starts, f)
    ensures FineFault(starts, fine).Some? ==> FirstUnreadable(starts, Request([], fine), FineFault(starts, fine).value)
  {
    if fine != [] {
      var init, last := fine[..|fine| - 1], fine[|fine| - 1];
      FineFaultMeaning(starts, init);
      assert fine == init + [last];
      if FineFault(starts, init).Some? {
        hide FineReads, ParseTier;
        FaultStays(starts, Request([], init), Request([], fine), FineFault(starts, init).value);
        assert exists f <- init :: !FineReads(starts, f);
      } else {
        hide ParseTier;
        LastFineFault(starts, init, last);
        hide FineReads, FirstUnreadable;
      }
    }
  }

  /** Entries added behind do not change what the first unreadable one is. */
  lemma FaultStays(starts: seq<Instant>, req: Request, longer: Request, e: Error)
    requires FirstUnreadable(starts, req, e) && (req.fine == [] || req.coarse == longer.coarse)
    requires req.coarse <= longer.coarse && req.fine <= longer.fine
    ensures FirstUnreadable(starts, longer, e)
  {
    hide CoarseReads, FineReads, ParseTier;
  }

  lemma LastCoarseFault(starts: seq<Instant>, init: seq<Coarse>, last: Coarse)
    requires forall c <- init :: CoarseReads(c)
    ensures last.cell.None? ==> FirstUnreadable(starts, Request(init + [last], []), BadCell(|init|))
    ensures last.cell.Some? && ParseTier(last.tier).None? ==>
              FirstUnreadable(starts, Request(init + [last], []), BadCoarseTier(|init|))
    ensures (forall c <- init + [last] :: CoarseReads(c)) <==> last.cell.Some? && ParseTier(last.tier).Some?
  {
    hide ParseTier;
    assert last in init + [last];
    assert forall j :: 0 <= j < |init| ==> (init + [last])[j] == init[j] && init[j] in init;
  }

  lemma LastFineFault(starts: seq<Instant>, init: seq<Fine>, last: Fine)
    requires forall f <- init :: FineReads(starts, f)
    ensures last.slot !in starts ==> FirstUnreadable(starts, Request([], init + [last]), NotASlot(|init|))
    ensures last.slot in starts && ParseTier(last.tier).None? ==>
              FirstUnreadable(starts, Request([], init + [last]), BadFineTier(|init|))
    ensures (forall f <- init + [last] :: FineReads(starts, f)) <==>
              last.slot in starts && ParseTier(last.tier).Some?
  {
    hide ParseTier;
    assert last in init + [last];
    assert forall j :: 0 <= j < |init| ==> (init + [last])[j] == init[j] && init[j] in init;
  }

  lemma FaultMeaning(starts: seq<Instant>, req: Request)
    ensures Fault(starts, req).None? <==> Reads(starts, req)
    ensures Fault(starts, req).Some? ==> FirstUnreadable(starts, req, Fault(starts, req).value)
  {
    hide ParseTier, CoarseFault, FineFault;
    CoarseFaultMeaning(starts, req.coarse);
    FineFaultMeaning(starts, req.fine);
  }

  lemma {:induction false} FineTierMeaning(fine: seq<Fine>, slot: Instant)
    ensures (forall f <- fine :: f.slot != slot) ==> FineTier(fine, slot).None?
    ensures forall i: nat :: LastFine(fine, i, slot) ==> FineTier(fine, slot) == ParseTier(fine[i].tier)
    ensures (exists f <- fine :: f.slot == slot) ==> exists i: nat :: LastFine(fine, i, slot)
  {
    hide ParseTier;
    if fine != [] {
      var init, n := fine[..|fine| - 1], |fine| - 1;
      FineTierMeaning(init, slot);
      if fine[n].slot == slot {
        assert LastFine(fine, n, slot);
      } else {
        forall i: nat ensures LastFine(fine, i, slot) <==> LastFine(init, i, slot) {
          assert LastFine(init, i, slot) ==> forall j :: i < j < |init| ==> init[j] == fine[j];
        }
        assert forall f :: f in fine <==> f in init || f == fine[n];
      }
    }
  }

  lemma {:induction false} CoarseTierMeaning(coarse: seq<Coarse>, cell: Cell)
    ensures (forall c <- coarse :: c.cell != Some(cell)) ==> CoarseTier(coarse, cell).None?
    ensures forall i: nat :: LastCoarse(coarse, i, cell) ==> CoarseTier(coarse, cell) == ParseTier(coarse[i].tier)
    ensures (exists c <- coarse :: c.cell == Some(cell)) ==> exists i: nat :: LastCoarse(coarse, i, cell)
  {
    hide ParseTier;
    if coarse != [] {
      var init, n := coarse[..|coarse| - 1], |coarse| - 1;
      CoarseTierMeaning(init, cell);
      if coarse[n].cell == Some(cell) {
        assert LastCoarse(coarse, n, cell);
      } else {
        forall i: nat ensures LastCoarse(coarse, i, cell) <==> LastCoarse(init, i, cell) {
          assert LastCoarse(init, i, cell) ==> forall j :: i < j < |init| ==> init[j] == coarse[j];
        }
        assert forall c :: c in coarse <==> c in init || c == coarse[n];
      }
    }
  }

  lemma StatedMeaning(starts: seq<Instant>, req: Request, loc: Zone, row: Row)
    requires Reads(starts, req)
    ensures Stated(req, loc, row.slotStart) == Some(row) <==> Speaks(req, loc, row)
  {
    hide ParseTier, FineTier, CoarseTier, Of, LastFine, LastCoarse;
    var t := row.slotStart;
    FineTierMeaning(req.fine, t);
    CoarseTierMeaning(req.coarse, Of(t, loc));
    if exists f <- req.fine :: f.slot == t {
      var i: nat :| LastFine(req.fine, i, t);
      LastIsThere(req, i, t);
      assert FineReads(starts, req.fine[i]);
    } else if exists c <- req.coarse :: c.cell == Some(Of(t, loc)) {
      var i: nat :| LastCoarse(req.coarse, i, Of(t, loc));
      LastTapIsThere(req, i, Of(t, loc));
      assert CoarseReads(req.coarse[i]);
    }
    NoneWithoutEntries(req, t, Of(t, loc));
  }

  lemma LastIsThere(req: Request, i: nat, t: Instant)
    requires LastFine(req.fine, i, t)
    ensures i < |req.fine| && req.fine[i] in req.fine
  {
  }

  lemma LastTapIsThere(req: Request, i: nat, cell: Cell)
    requires LastCoarse(req.coarse, i, cell)
    ensures i < |req.coarse| && req.coarse[i] in req.coarse
  {
  }

  lemma NoneWithoutEntries(req: Request, t: Instant, cell: Cell)
    ensures (exists i: nat :: LastFine(req.fine, i, t)) ==> exists f <- req.fine :: f.slot == t
    ensures (exists i: nat :: LastCoarse(req.coarse, i, cell)) ==> exists c <- req.coarse :: c.cell == Some(cell)
  {
    if i: nat :| LastFine(req.fine, i, t) {
      assert req.fine[i] in req.fine;
    }
    if i: nat :| LastCoarse(req.coarse, i, cell) {
      assert req.coarse[i] in req.coarse;
    }
  }

  /** The rows a submission alone would store are those it speaks of slots of the event. */
  lemma StatedTableMeaning(starts: seq<Instant>, loc: Zone, req: Request, rows: seq<Row>)
    requires Reads(starts, req) && Lists(rows, StatedTable(starts, loc, req))
    ensures forall row :: row in rows <==> row.slotStart in starts && Speaks(req, loc, row)
  {
    hide Reads, Speaks, Stated, InSlotOrder, Keyed;
    forall row ensures row in rows <==> row.slotStart in starts && Speaks(req, loc, row) {
      StatedMeaning(starts, req, loc, row);
    }
  }

  // ---------- the operations ----------

  /** buildResponses. */
  method BuildResponses(starts: seq<Instant>, loc: Zone, req: Request) returns (r: Built)
    ensures r.Refused? <==> Fault(starts, req).Some?
    ensures r.Refused? ==> Fault(starts, req) == Some(r.error)
    ensures r.Accepted? ==> Lists(r.rows, StatedTable(starts, loc, req))
    ensures r.Refused? <==> !Reads(starts, req)
    ensures r.Refused? ==> FirstUnreadable(starts, req, r.error)
    ensures r.Accepted? ==>
              InSlotOrder(r.rows) && forall row :: row in r.rows <==> row.slotStart in starts && Speaks(req, loc, row)
  {
    hide Of, Reads, FirstUnreadable, Speaks;
    FaultMeaning(starts, req);
    var fault, sel := ParseSelections(req.coarse);
    if fault.Some? {
      return Refused(fault.value);
    }
    var tiers := ExpandParts(starts, loc, sel);
    var sources := map t | t in tiers :: SourceCoarse;
    for i := 0 to |req.fine|
      invariant FineFault(starts, req.fine[..i]).None?
      invariant tiers.Keys == sources.Keys
      invariant forall t :: t in tiers <==> t in starts && Stated(Request(req.coarse, req.fine[..i]), loc, t).Some?
      invariant forall t <- tiers :: Some(Row(t, tiers[t], sources[t])) ==
                  Stated(Request(req.coarse, req.fine[..i]), loc, t)
    {
      FineStep(starts, req.fine, i);
      hide FineFault, FineTier, CoarseTier, ParseTier;
      var slot := req.fine[i].slot;
      if slot !in starts {
        return Refused(NotASlot(i));
      }
      var tier := ParseTier(req.fine[i].tier);
      if tier.None? {
        return Refused(BadFineTier(i));
      }
      tiers := tiers[slot := tier.value];
      sources := sources[slot := SourceManual];
    }
    hide FineFault, FineTier, CoarseTier, ParseTier, CoarseFault;
    assert req.fine[..|req.fine|] == req.fine;
    assert Request(req.coarse, req.fine) == req;
    var out := RowsFrom(tiers, sources);
    SortAscends(out);
    out := SortedCopy(out, BySlot);
    r := Accepted(out);
    StatedTableMeaning(starts, loc, req, out);
  }

  lemma HasElement(s: set<Instant>)
    requires s != {}
    ensures exists t :: t in s
  {
    assert (forall t :: t !in s) ==> s == {};
  }

  method RowsFrom(tiers: map<Instant, Tier>, sources: map<Instant, Source>) returns (out: seq<Row>)
    requires tiers.Keys == sources.Keys
    ensures UniqueSlots(out)
    ensures forall r :: r in out <==>
              r.slotStart in tiers && r == Row(r.slotStart, tiers[r.slotStart], sources[r.slotStart])
  {
    out := [];
    var todo := tiers.Keys;
    while todo != {}
      invariant todo <= tiers.Keys && UniqueSlots(out)
      invariant forall r :: r in out <==>
                  r.slotStart in tiers && r.slotStart !in todo
                      && r == Row(r.slotStart, tiers[r.slotStart], sources[r.slotStart])
      decreases todo
    {
      HasElement(todo);
      var t :| t in todo;
      assert forall k :: 0 <= k < |out| ==> out[k] in out;
      out := out + [Row(t, tiers[t], sources[t])];
      todo := todo - {t};
    }
  }

  /** mergeCalendarRows. */
  method MergeCalendarRows(stated: seq<Row>, prior: seq<Row>, ghost said: Table, ghost was: Table)
    returns (out: seq<Row>)
    requires Lists(stated, said) && Lists(prior, was)
    ensures Lists(out, Carried(said, was))
  {
    var seen := set r <- stated :: r.slotStart;
    out := stated;
    StartsUnique(stated);
    for i := 0 to |prior|
      invariant UniqueSlots(out)
      invariant forall r :: r in out <==>
                  r in stated || (r in prior[..i] && r.source.SourceCalendar? && r.slotStart !in seen)
    {
      if prior[i].source.SourceCalendar? && prior[i].slotStart !in seen {
        NewSlot(out, stated, prior, i, seen);
        out := out + [prior[i]];
      }
      hide Lists;
    }
    assert prior[..|prior|] == prior;
    SortAscends(out);
    out := SortedCopy(out, BySlot);
    CarriedMeaning(stated, prior, said, was);
    hide Carried, InSlotOrder, UniqueSlots;
  }

  lemma StartsUnique(rows: seq<Row>)
    requires InSlotOrder(rows)
    ensures UniqueSlots(rows)
  {
  }

  lemma NewSlot(out: seq<Row>, stated: seq<Row>, prior: seq<Row>, i: nat, seen: set<Instant>)
    requires InSlotOrder(prior) && i < |prior| && prior[i].slotStart !in seen
    requires forall r :: r in out ==> r in prior[..i] || r.slotStart in seen
    ensures forall k :: 0 <= k < |out| ==> out[k].slotStart != prior[i].slotStart
  {
    forall k | 0 <= k < |out| ensures out[k].slotStart != prior[i].slotStart {
      assert out[k] in out;
    }
  }

  lemma CarriedMeaning(stated: seq<Row>, prior: seq<Row>, said: Table, was: Table)
    requires Lists(stated, said) && Lists(prior, was)
    ensures forall r: Row :: r.slotStart in Carried(said, was) && Carried(said, was)[r.slotStart] == r <==>
              r in stated || (r in prior && r.source.SourceCalendar? && r.slotStart !in set q <- stated :: q.slotStart)
  {
    hide InSlotOrder;
    var seen := set q <- stated :: q.slotStart;
    forall t ensures t in seen <==> t in said {
      if t in said {
        ListedAt(stated, said, t);
      }
    }
  }

  /** applyCalendarToResponses, with the number of slots it blocks. */
  method ApplyCalendar(existing: seq<Row>, starts: seq<Instant>, minutes: int, blocks: seq<Interval>, ghost was: Table)
    returns (out: seq<Row>, blocked: nat)
    requires Lists(existing, was) && Ascending(starts)
    ensures Lists(out, Imported(was, starts, minutes, blocks))
    ensures blocked == |set t | t in starts && FromCalendar(Imported(was, starts, minutes, blocks), t)|
  {
    hide Imported, StatedOnly, Hits, FromCalendar, ListsFirst, Lists;
    var stated := StatedRows(existing, was);
    ghost var after := Imported(was, starts, minutes, blocks);
    ImportedKeys(was, starts, minutes, blocks);
    out, blocked := [], 0;
    NoneListed(starts, after);
    for i := 0 to |starts|
      invariant ListsFirst(out, blocked, starts, i, after)
    {
      var slot := starts[i];
      ImportedAt(was, starts, minutes, blocks, slot);
      NextSlot(out, blocked, starts, i, after);
      if slot in stated {
        out := out + [stated[slot]];
        continue;
      }
      var hit := Proposal.CoveredBy(slot, minutes * MINUTE, blocks);
      if hit {
        out := out + [Row(slot, TierNo, SourceCalendar)];
        blocked := blocked + 1;
      }
    }
    AllListed(out, blocked, starts, after);
  }

  /** The rows for the first i slots, and how many of them the calendar blocks. */
  ghost predicate ListsFirst(out: seq<Row>, blocked: nat, starts: seq<Instant>, i: nat, after: Table)
    requires i <= |starts|
  {
    ListsSome(out, starts[..i], after) && blocked == |Blocked(starts[..i], after)|
  }

  ghost predicate ListsSome(out: seq<Row>, slots: seq<Instant>, after: Table) {
    && InSlotOrder(out)
    && (forall r :: r in out <==> r.slotStart in slots && r.slotStart in after && after[r.slotStart] == r)
  }

  ghost function Blocked(slots: seq<Instant>, after: Table): set<Instant> {
    set t | t in slots && FromCalendar(after, t)
  }

  lemma NoneListed(starts: seq<Instant>, after: Table)
    ensures ListsFirst([], 0, starts, 0, after)
  {
    assert Blocked(starts[..0], after) == {};
  }

  lemma AllListed(out: seq<Row>, blocked: nat, starts: seq<Instant>, after: Table)
    requires ListsFirst(out, blocked, starts, |starts|, after)
    requires Keyed(after) && forall t <- after :: t in starts
    ensures Lists(out, after) && blocked == |set t | t in starts && FromCalendar(after, t)|
  {
    assert starts[..|starts|] == starts;
    assert Blocked(starts, after) == set t | t in starts && FromCalendar(after, t);
    hide FromCalendar;
  }

  lemma RowsGrow(out: seq<Row>, slots: seq<Instant>, slot: Instant, after: Table)
    requires ListsSome(out, slots, after) && forall t <- slots :: t < slot
    requires slot in after ==> after[slot].slotStart == slot
    ensures ListsSome(if slot in after then out + [after[slot]] else out, slots + [slot], after)
  {
    forall k | 0 <= k < |out| ensures out[k].slotStart < slot {
      assert out[k] in out;
    }
  }

  lemma BlockedGrows(slots: seq<Instant>, slot: Instant, after: Table)
    requires slot !in slots
    ensures |Blocked(slots + [slot], after)| == |Blocked(slots, after)| + if FromCalendar(after, slot) then 1 else 0
  {
    hide FromCalendar;
    if FromCalendar(after, slot) {
      assert Blocked(slots + [slot], after) == Blocked(slots, after) + {slot};
    } else {
      assert Blocked(slots + [slot], after) == Blocked(slots, after);
    }
  }

  lemma NextSlot(out: seq<Row>, blocked: nat, starts: seq<Instant>, i: nat, after: Table)
    requires i < |starts| && Ascending(starts) && ListsFirst(out, blocked, starts, i, after)
    requires starts[i] in after ==> after[starts[i]].slotStart == starts[i]
    ensures ListsFirst(if starts[i] in after then out + [after[starts[i]]] else out,
                       if FromCalendar(after, starts[i]) then blocked + 1 else blocked, starts, i + 1, after)
  {
    var slot := starts[i];
    assert starts[..i + 1] == starts[..i] + [slot];
    RowsGrow(out, starts[..i], slot, after);
    BlockedGrows(starts[..i], slot, after);
    hide ListsSome, Blocked, FromCalendar;
  }

  method StatedRows(existing: seq<Row>, ghost was: Table) returns (stated: Table)
    requires Lists(existing, was)
    ensures stated == StatedOnly(was) && Keyed(was)
  {
    stated := map[];
    for i := 0 to |existing|
      invariant forall t :: t in stated <==> t in was && was[t] in existing[..i] && !FromCalendar(was, t)
      invariant forall t <- stated :: stated[t] == was[t]
    {
      assert existing[i] in existing;
      if !existing[i].source.SourceCalendar? {
        stated := stated[existing[i].slotStart := existing[i]];
      }
    }
    assert existing[..|existing|] == existing;
    forall t ensures t in stated <==> t in StatedOnly(was) {
      if t in was {
        ListedAt(existing, was, t);
        assert was[t] in existing[..|existing|];
      }
    }
  }

  /** The rows handleDisconnectCalendar keeps. */
  method DisconnectRows(existing: seq<Row>, ghost was: Table) returns (kept: seq<Row>)
    requires Lists(existing, was)
    ensures Lists(kept, StatedOnly(was))
  {
    kept := [];
    for i := 0 to |existing|
      invariant InSlotOrder(kept)
      invariant forall r :: r in kept <==> r in existing[..i] && !r.source.SourceCalendar?
    {
      if !existing[i].source.SourceCalendar? {
        forall k | 0 <= k < |kept| ensures kept[k].slotStart < existing[i].slotStart {
          assert kept[k] in kept;
        }
        kept := kept + [existing[i]];
      }
    }
    assert existing[..|existing|] == existing;
    hide InSlotOrder;
  }

  lemma ImportedAt(was: Table, starts: seq<Instant>, minutes: int, blocks: seq<Interval>, t: Instant)
    requires t in starts && Keyed(was)
    ensures var after := Imported(was, starts, minutes, blocks);
            if t in StatedOnly(was) then t in after && after[t] == StatedOnly(was)[t] && !FromCalendar(after, t)
            else if Busy(t, minutes, blocks) then t in after && after[t] == Row(t, TierNo, SourceCalendar)
                && FromCalendar(after, t)
            else t !in after && !FromCalendar(after, t)
  {
    hide Hits;
    var after := Imported(was, starts, minutes, blocks);
    assert t in after <==> t in StatedOnly(was) || Busy(t, minutes, blocks);
    if t in StatedOnly(was) {
      assert t in was && StatedOnly(was)[t] == was[t];
    }
  }

  lemma ImportedKeys(was: Table, starts: seq<Instant>, minutes: int, blocks: seq<Interval>)
    requires Keyed(was)
    ensures Keyed(Imported(was, starts, minutes, blocks))
    ensures Keyed(StatedOnly(was))
    ensures forall t <- Imported(was, starts, minutes, blocks) :: t in starts
  {
    hide Hits;
  }
}
