/** Stored rows as plain values; the database itself is not modelled. */
module Store {
  import opened Options
  import opened Zones
  import opened Scoring

  /** How a stored tier came about. */
  datatype Source = SourceCoarse | SourceManual | SourceCalendar

  datatype Row = Row(slotStart: Instant, tier: Tier, source: Source)

  /** `zone` is None when the stored zone name no longer resolves. */
  datatype StoredParticipant = StoredParticipant(
    id: string, displayName: string, zone: Option<Zone>, required: bool, responded: bool)

  /** The tier the last row for a slot states, or "no" when no row mentions it. */
  function LastTier(rows: seq<Row>, s: Instant): Tier {
    if rows == [] then TierNo
    else if rows[|rows| - 1].slotStart == s then rows[|rows| - 1].tier
    else LastTier(rows[..|rows| - 1], s)
  }
}
