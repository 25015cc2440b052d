/** A time zone as a piecewise-constant offset from UTC.

    Instants are whole seconds since the Unix epoch, the resolution of every
    slot start.  The zone database itself is not modelled: a zone is whatever
    list of transitions the caller supplies. */
module Zones {
  type Instant = int

  ghost predicate Ascending(s: seq<Instant>) {
    forall i, j :: 0 <= i < j < |s| ==> s[i] < s[j]
  }

  const MINUTE := 60
  const HOUR := 3600
  const DAY := 86400

  /** From `at` on, the zone's clocks show UTC plus `offset` seconds. */
  datatype Transition = Transition(at: Instant, offset: int)

  datatype Zone = Zone(initial: int, transitions: seq<Transition>) {
    /** The offset in force after the first k transitions. */
    function Offset(k: nat): int
      requires k <= |transitions|
    {
      if k == 0 then initial else transitions[k - 1].offset
    }

    /** The last transition at or before t, searched backwards from the k-th. */
    function PassedFrom(t: Instant, k: nat): (n: nat)
      requires k <= |transitions|
      ensures n <= k
      ensures n > 0 ==> transitions[n - 1].at <= t
      ensures forall i :: n <= i < k ==> t < transitions[i].at
    {
      if k == 0 || transitions[k - 1].at <= t then k else PassedFrom(t, k - 1)
    }

    /** How many transitions have happened by t. */
    function Passed(t: Instant): (n: nat)
      ensures n <= |transitions|
      ensures n > 0 ==> transitions[n - 1].at <= t
      ensures forall i :: n <= i < |transitions| ==> t < transitions[i].at
    {
      PassedFrom(t, |transitions|)
    }

    function OffsetAt(t: Instant): int {
      Offset(Passed(t))
    }

    /** The wall clock at t, as seconds of local time since the epoch's midnight. */
    function LocalSecond(t: Instant): int {
      t + OffsetAt(t)
    }

    function HourAt(t: Instant): (h: int)
      ensures 0 <= h < 24
    {
      (LocalSecond(t) % DAY) / HOUR
    }
  }

  const UTC := Zone(0, [])
}
