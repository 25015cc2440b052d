# Overlap: a verified model of the scheduling core

Overlap is a group scheduler.  People answer a poll tier by tier; the server
ranks the slots, says whether the outcome is already settled, whom to wait for,
and folds in calendars.  This project models the Go API's five cores in Dafny
and proves what they promise.

* **Dominance** (`Scoring`, `ScoreMeaning`, `ScoreOrder`, `Dominance`, `Exposure`, `EarlyVerdict`,
  `Solver`, `Sorting`, `Ranking`, `RankingCircle`, `Store`, `Results`).  A poll is *settled* when
  one slot wins under every way of filling in the outstanding answers, and a slot
  is *possible* when it wins under some way.  Those are quantifiers over
  exponentially many completions; the code scores every slot twice.  The bounds
  tests are proved exact, both ways, wherever the two fills really are bounds,
  and the condition for that is itself proved exact: one row of arithmetic per
  unanswered optional person who is outside working hours at the slot.
* **Windows across clock changes** (`Zones`, `Calendar`, `WallClocks`, `Slots`).
  A zone is a piecewise-constant offset whose transitions are isolated.  Every
  grid clock that exists becomes exactly one start, its first reading.
* **Calendars** (`Nanoseconds`, `Text`, `IcsWriter`, `IcsReader`, `IcsFields`, `IcsRoundTrip`, `Intervals`,
  `Proposal`, `Recurrence`, `FastForward`).  Writing an event and reading it back
  is the identity to the second; merging is a normal form; the recurrence
  fast-forward refines the plain walk, with the exact ages at which the month
  estimate first jumps too far and at which an occurrence is first lost.
* **Shared state** (`FiniteSets`, `Reals`, `RateLimit`, `RateBounds`, `ProposalCache`,
  `Broker`).  Classes proved against step functions, and theorems over every run or
  interleaving of steps.
* **Answers** (`Rows`, `AnswerHistory`).  Submissions, calendar imports and
  disconnects in any order.

Loops and updated objects of the source are methods and classes proved against
specification functions; the theorems are lemmas about those functions.

## Where the code and its comments part

* `solver.go` says a decidable outcome is one no outstanding response can change.
  `EarlyVerdict.VerdictTooEarly` is a poll under the default configuration where
  it can: attending at an unsociable hour costs a slot more than "if needed"
  brings it, and the slot that may still win is dropped from the possible winners.
  The other direction never fails (`Exposure.SettledAlwaysClears`),
  and `Exposure.SettledIff` and `Exposure.PossibleIff` give the truth in full.
* The ranking comparator can run in circles: `RankingCircle.ComparatorCanCircle` is a
  poll on which it does.  `Ranking.OrderedUnderEveryHistoryIff`
  says exactly for which slates it does not, whatever the group's history.
* The 30-day month estimate jumps past the window for some monthly series that began
  6180 days or more before it (`FastForward.MonthJumpOvershoots`), and for none
  younger (`FastForward.SafeBelowIff`).  For events of up to four weeks an occurrence
  is lost for some series 6360 days old (`FastForward.SeptemberIsLost`), and for none
  younger (`FastForward.CompleteBelowIff`).
* Stepping month by month from a day past the 28th drifts off the day the rule names:
  from 31 January 2023 one step comes to 3 March and the next to 3 April, where a jump
  of two comes to 31 March (`Recurrence.LastOfJanuary`).  `Recurrence.NeverDriftsIff`
  says when steps and jumps agree.
* Raw and merged busy blocks answer a collision query alike exactly for positive
  durations (`Intervals.MergingIsNeutralIff`).
* `Limiter.Allow` reads the clock before taking the lock, so readings can reach the
  buckets out of order.  `RateBounds.KeepsRateIff` says exactly which sequences of
  readings, each serving any number of steps, keep the rate: once readings fall back
  behind a rise from a to b, they stay at least as far below a as b was above it.
  Clock order is one such case; `RateBounds.StaleReadingOvergrants` and
  `RateBounds.ReturnOvergrants` are the runs that break the rate otherwise.
* Every save of rows marks its owner as having responded.  Importing or
  disconnecting a calendar before answering therefore counts as "no" to every
  slot (`AnswerHistory.ImportSpeaksForTheSilent`).

## Model

| member | source | states |
|---|---|---|
| `ScoreOrder.ScoreMonotone` | api/internal/solver/solver.go:179-254 | Better answers from the same people, with the same people charged the unsociable penalty, never eliminate a surviving slot and never lower its score. |
| `ScoreOrder.SameAnswersSameScore` | api/internal/solver/solver.go:179-254 | A score depends on nothing but what the listed people answer for the slot. |
| `Dominance.ClearsIsSettled` | api/internal/solver/solver.go:451-476 | Decidability is exact: a slot's worst case clears every rival's best case iff the slot wins under every completion of the unknown answers, where the two fills bound every completion. |
| `Dominance.CouldWinIsPossible` | api/internal/solver/solver.go:592-619 | A slot is kept as a possible winner iff some completion leaves it alive with a maximal score, under the same condition. |
| `Dominance.CouldWinAlwaysPossible` | api/internal/solver/solver.go:592-619 | Without any condition on exposure, every slot the code keeps really can win. |
| `Dominance.CouldWinSetIsPossibleSet` | api/internal/solver/solver.go:575-590 | The set of possible winners the code computes is the set of slots that some completion makes win. |
| `Dominance.PinningNarrows` | api/internal/solver/solver.go:510-529 | Learning one person's uniform answer never adds a possible winner. |
| `Dominance.BoundsHoldWhenNobodyExposed` | api/internal/solver/solver.go:222-231 | The two fills bound every completion of a slot when no unanswered optional person is outside working hours there. |
| `Exposure.BoundsHoldIff` | api/internal/solver/solver.go:493-505 | For unique IDs: the two fills bound every completion iff the penalty never outweighs what a head count of exposed people adds, a check of one formula per count. |
| `Exposure.SettledIff` | api/internal/solver/solver.go:451-476 | With no condition on exposure: a slot wins under every completion iff it survives everybody's refusal and no attendance of exposed people at it, or absence from a rival, lets the rival outscore it. |
| `Exposure.SettledAlwaysClears` | api/internal/solver/solver.go:451-476 | The undecided verdict is never wrong: whenever a slot is settled the code's test succeeds on it. |
| `Exposure.PossibleIff` | api/internal/solver/solver.go:595-619 | With no condition on exposure: a slot can win iff some head count of absentees lets it reach a score every rival can fall to. |
| `EarlyVerdict.VerdictTooEarly` | api/internal/solver/solver.go:431-483 | A chronological two-slot poll of three people under the default configuration: every verdict the analysis can give calls the late slot decided, while a completion makes the early slot win, which is not among the possible winners the code keeps. |
| `Solver.ScoreSlot` | api/internal/solver/solver.go:179-254 | The accumulating loop: eliminated iff a required person says no; otherwise alpha times the weighted mean of those who come plus the rest times the smallest value among required comers (the mean if none), less the capped penalty per comer at odd hours, not below zero, and zero when no weight counts; and the people who refuse, veto or have not answered, in list order. |
| `ScoreMeaning.ScoreMeans` | api/internal/solver/solver.go:179-254 | Every score is exactly that, said with sums and counts over the list and a smallest value, for every poll, slot and configuration. |
| `ScoreMeaning.OrderOfPeople` | api/internal/solver/solver.go:179-254 | Listing the same people in another order leaves elimination, score, penalty and coverage as they are. |
| `ScoreMeaning.ZoneMovesOnlyPenalty` | api/internal/solver/solver.go:222-247 | Moving one person to another zone eliminates nothing, changes nobody's attendance, and moves the score by at most one person's penalty. |
| `Solver.WalkParticipants` | api/internal/solver/solver.go:190-232 | The walk over the participants reaches the totals of the whole list. |
| `Solver.LeaderOf` | api/internal/solver/solver.go:283-297 | The leader is the first survivor of maximal score; there is none iff every slot is eliminated. |
| `Solver.BoundAll` | api/internal/solver/solver.go:493-529 | Every slot scored with all unknown answers pinned to one tier. |
| `Solver.WinnersFrom` | api/internal/solver/solver.go:595-619 | The nested search keeps exactly the slots whose best case no rival's worst case beats. |
| `Solver.PossibleWinners` | api/internal/solver/solver.go:575-590 | The slots the code keeps, and, where the bounds hold, exactly the slots some completion makes win. |
| `Solver.RelevantNonResponders` | api/internal/solver/solver.go:546-571 | The people named, in list order; where the bounds hold as things stand and once any one person answers uniformly, exactly those whose all-no or all-preferred answer strictly shrinks the possible winners. |
| `Solver.ChasedExactlyWhenNarrowing` | api/internal/solver/solver.go:546-571 | Nobody is chased in vain, and both uniform answers of an unnamed non-responder leave the possible winners unchanged, where the bounds hold before and after those answers. |
| `Solver.BoundsHoldPinnedWhenNobodyExposed` | api/internal/solver/solver.go:222-231 | They do when no unanswered optional person is outside working hours at a slot. |
| `Solver.BlockingRequired` | api/internal/solver/solver.go:438-449 | Names exactly the required people with an unanswered slot, in list order. |
| `Solver.FirstClearing` | api/internal/solver/solver.go:454-476 | The nested search stops at the first slot whose worst case clears every rival's best case. |
| `Solver.Analyze` | api/internal/solver/solver.go:431-483 | The whole verdict; where the bounds hold, decidable iff some slot is settled, and the leader is then the first settled slot in list order. |
| `Solver.ReportDecidesExactly` | api/internal/solver/solver.go:451-476 | Any verdict the bounds tests produce decides exactly where the bounds hold. |
| `Sorting.InsertionSort` | api/internal/solver/solver.go:318-345 | Sorting in place is a fixed stable sort of the old contents, for any comparator. |
| `Sorting.SortPermutes` | api/internal/solver/solver.go:318-345 | The sort is a permutation, even for a comparator that cycles. |
| `Sorting.SortOrders` | api/internal/solver/solver.go:318-345 | For a strict weak order no element precedes one the comparator puts before it. |
| `Ranking.OrderedUnderEveryHistoryIff` | api/internal/solver/solver.go:318-345 | The comparator is a strict weak order on a slate under every history iff the slate has no rising chain: a over c by more than epsilon, b near both, coverage not falling from a over b to c. |
| `Ranking.TransitiveNearHasNoChain` | api/internal/solver/solver.go:318-345 | A slate on which "within epsilon" is transitive has no rising chain. |
| `RankingCircle.ComparatorCanCircle` | api/internal/solver/solver.go:318-345 | A chronological three-slot poll of four people under the default configuration whose scores some history makes the comparator cycle on. |
| `Ranking.RankWithHistory` | api/internal/solver/solver.go:306-347 | A permutation of the slots' scores; without a rising chain, eliminated slots last, no pair more than epsilon apart inverted, and ties between survivors, and between eliminated slots, broken by coverage, history, score and start in turn. |
| `Ranking.HeadNearLeader` | api/internal/solver/solver.go:283-347 | The head of such a ranking scores within epsilon of leaderOf's slot. |
| `Results.BuildOne` | api/internal/results/results.go:71-87 | A responder's tiers: the last stored row of each event slot, "no" where no row speaks, rows off the event's slots dropped. |
| `Results.Build` | api/internal/results/results.go:36-91 | Each stored participant is carried over with ID, name, role and the clock of their zone (UTC without one), and all or nothing: with distinct IDs a responder's every slot is known and nobody else's is. |
| `Results.BlockedIsUndecided` | api/internal/solver/solver.go:438-476 | On such matrices a name in the blocking list excludes a decidable verdict. |
| `Results.AnsweredIsDecided` | api/internal/solver/solver.go:431-476 | With all answers in, decidable iff a slot survives, and the leader is leaderOf's. |
| `Results.ToDominanceView` | api/internal/server/solve.go:93-128 | Each of the six verdicts is shown iff it is the first that applies. |
| `Results.TruthFromReport` | api/internal/server/solve.go:104-126 | What each verdict lets a reader conclude: "no slots" hides no decidable outcome, "tied" means the required people have all answered and an optional one has not, and so on. |
| `Results.SolveEvent` | api/internal/server/solve.go:177-189 | From stored rows to the verdict shown, end to end: the ranking is a permutation of the scores, the verdict is the first that applies and tells the truth, and where the bounds hold it is "decidable" iff some slot is settled. |
| `Calendar.DateOfMeaning` | api/internal/slots/slots.go:33-48 | Normalising a day number gives the one valid date with that number. |
| `Calendar.DateOfDayNumber` | api/internal/slots/slots.go:33-48 | A valid date survives the trip through its day number. |
| `Calendar.NextIsNextDay` | api/internal/slots/slots.go:35-38 | The next date is valid and one day later, which is what makes the window loop end. |
| `Calendar.AfterIsLater` | api/internal/slots/slots.go:40-48 | The field-by-field comparison is the order of day numbers. |
| `Calendar.MonthsAtMost` | api/internal/icsparse/rrule.go:126-140 | Up to 202 months, counting 30 days a month falls short by at most 90 days. |
| `Calendar.MonthsFallShort` | api/internal/icsparse/rrule.go:126-140 | 202 is the most: 203 months from March 2000 fall short by 91 days. |
| `Calendar.MonthsAtMostFurther` | api/internal/icsparse/rrule.go:126-140 | Up to 207 months, by at most 92 days. |
| `Calendar.MonthsFallFurther` | api/internal/icsparse/rrule.go:126-140 | 208 months from May 2003 fall short by 93 days. |
| `WallClocks.MatchesIff` | api/internal/slots/slots.go:237-242 | An instant shows a date, hour and minute iff they are real clock digits and its local second is theirs. |
| `WallClocks.SameClockProbeApart` | api/internal/slots/slots.go:195-202 | Two instants reading one wall clock are one transition and 30, 60 or 120 minutes apart, so one of the six probes connects them. |
| `WallClocks.AtMostTwice` | api/internal/slots/slots.go:195-233 | No wall clock is read three times. |
| `WallClocks.EarliestAscends` | api/internal/slots/slots.go:133-144 | First readings keep the order of the wall clocks. |
| `Slots.Resolve` | api/internal/slots/slots.go:207-233 | Nonexistent iff no instant reads the clock, ambiguous iff two do, and the instant returned is the earliest reading. |
| `Slots.NextStartIsNew` | api/internal/slots/slots.go:170-176 | The duplicate check cannot fire: a further clock's first reading is later than every start so far. |
| `Slots.PlaceClock` | api/internal/slots/slots.go:156-182 | The body of the inner loop files one clock as start, skipped or ambiguous. |
| `Slots.ExpandDay` | api/internal/slots/slots.go:153-186 | One date's minute grid, with the early return when the cap is passed. |
| `Slots.ClocksCount` | api/internal/slots/slots.go:152-155 | The grid has days times the whole number of slots in the band. |
| `Slots.CoveredIsFaithful` | api/internal/slots/slots.go:145-189 | A covered grid has ascending starts, and starts plus skipped clocks count days times slots per day. |
| `Slots.Expand` | api/internal/slots/slots.go:119-189 | The first validation error; otherwise the starts, ascending, are exactly the earliest readings of a date of the range at the day's start plus a whole number of slots, the slot ending within the band; skipped and ambiguous are exactly those such clocks that are read never and twice; too many slots iff more than 5000 such clocks can be read. |
| `Slots.ValidateMeaning` | api/internal/slots/slots.go:119-131 | A window passes iff it has a zone, a positive slot, a day band and a date range that are not empty; an error names what is wrong. |
| `Slots.GridMeaning` | api/internal/slots/slots.go:151-159 | The two loops visit exactly the scheduled clocks: a date of the range, the day's start plus k slots, ending within the band. |
| `Slots.CoversSchedule` | api/internal/slots/slots.go:133-189 | A covered grid has as starts, skipped and ambiguous exactly the scheduled clocks' earliest readings, the unread ones and the twice read ones. |
| `Slots.ReadableCount` | api/internal/slots/slots.go:177-181 | The cap counts scheduled clocks that exist, each once. |
| `Intervals.Merge` | api/internal/icsparse/icsparse.go:64-88 | Sorts its argument in place and returns the merged list. |
| `Intervals.MergedMeaning` | api/internal/icsparse/icsparse.go:64-88 | The result is sorted with strictly positive gaps and covers exactly the same instants. |
| `Intervals.CanonicalIsUnique` | api/internal/icsparse/icsparse.go:64-88 | There is only one such list. |
| `Intervals.MergedDependsOnInstants` | api/internal/icsparse/icsparse.go:64-88 | Two lists merge alike iff they cover the same instants; merging twice is merging once. |
| `Intervals.MergedIgnoresOrder` | api/internal/icsparse/icsparse.go:64-88 | The order of the input does not matter. |
| `Intervals.MergingIsNeutralIff` | api/internal/proposal/proposal.go:86-100 | Collision queries of a given duration agree on raw and merged blocks, for all starts and blocks, iff the duration is positive. |
| `Proposal.CoveredBy` | api/internal/server/calendar.go:149-157 | True iff some block overlaps the slot. |
| `Proposal.FreeForAll` | api/internal/proposal/proposal.go:90-100 | True iff no connected member is busy during the meeting. |
| `Proposal.FirstFree` | api/internal/proposal/proposal.go:70-82 | The scan of the sorted candidates finds the earliest free one. |
| `Proposal.Best` | api/internal/proposal/proposal.go:58-84 | The earliest candidate free for every connected member, none iff there is no such candidate, and the considered names sorted; nothing when nobody is connected. |
| `Proposal.SameSuggestionMerged` | api/internal/proposal/proposal.go:58-100 | For a positive duration the suggestion is the same on raw and merged calendars. |
| `Recurrence.JumpLands` | api/internal/icsparse/rrule.go:244-256 | Jumping k periods from the start lands on the k-th occurrence. |
| `Recurrence.OccurrenceStep` | api/internal/icsparse/rrule.go:205-219 | Each occurrence is one step after the one before, by the rule's own calendar distance. |
| `Recurrence.FastForward` | api/internal/icsparse/rrule.go:118-140 | On a regular series the cursor lands on an occurrence, fewer than four periods short of the window, and at least three short if it moved; it never moves for a rule with COUNT. |
| `Recurrence.Expand` | api/internal/icsparse/rrule.go:94-203 | For every rule without BYDAY: exactly the occurrences inside COUNT and UNTIL, not excluded and overlapping the window, among the 2000 the loop walks to from the jump on; on a regular series those are the occurrences the rule names. |
| `Recurrence.PickingEnds` | api/internal/icsparse/rrule.go:152-200 | The early exits lose nothing: past the window, UNTIL or COUNT no later occurrence qualifies. |
| `Recurrence.RegularWalk` | api/internal/icsparse/rrule.go:205-256 | On a regular series single steps and jumps come to the same occurrences. |
| `Recurrence.NeverDriftsIff` | api/internal/icsparse/rrule.go:205-256 | k single steps of a monthly rule come to one jump of k, for every interval and k, iff the series starts on day 1 to 28. |
| `Recurrence.LastOfJanuary` | api/internal/icsparse/rrule.go:205-256 | From 31 January 2023 two steps come to 3 April, a jump of two to 31 March. |
| `Recurrence.YearsKeepDate` | api/internal/icsparse/rrule.go:205-256 | n periods of a yearly rule on, it is the same clock on the same date, or on 1 March when a 29 February does not exist. |
| `FastForward.TakesAllIff` | api/internal/icsparse/rrule.go:94-203 | The answer is the whole walk iff nothing that qualifies is jumped over or beyond the 2000 steps. |
| `FastForward.CountedTakesAll` | api/internal/icsparse/rrule.go:113-203 | With COUNT up to 2000 the answer is the qualifying ones of exactly the first COUNT occurrences, excluded ones counted. |
| `FastForward.FixedTakesAll` | api/internal/icsparse/rrule.go:126-203 | Daily and weekly series: an event of at most four periods in a window of at most 1996 is expanded in full. |
| `FastForward.MonthJumpIsSafe` | api/internal/icsparse/rrule.go:126-140 | Monthly series on day 1 to 28, events of up to 28 days, less than 6180 days old: the jump lands at or before the window and skips only occurrences that ended. |
| `FastForward.MonthJumpOvershoots` | api/internal/icsparse/rrule.go:126-140 | A series begun in March 2000 whose jump lands one day past the window 6180 days later. |
| `FastForward.SafeBelowIff` | api/internal/icsparse/rrule.go:126-140 | The jump is safe for every such series younger than a bound iff the bound is at most 6180 days. |
| `FastForward.MonthSkipsEnded` | api/internal/icsparse/rrule.go:126-140 | Less than 6360 days from its start a series of events of up to 28 days has only occurrences that ended skipped. |
| `FastForward.MonthlyTakesAll` | api/internal/icsparse/rrule.go:126-203 | Such a series is expanded in full over any window of up to 1980 four-week steps. |
| `FastForward.SeptemberIsLost` | api/internal/icsparse/rrule.go:126-203 | A series begun in May 2003 whose running occurrence is skipped 6360 days later. |
| `FastForward.CompleteBelowIff` | api/internal/icsparse/rrule.go:126-203 | Every such series younger than a bound is expanded in full iff the bound is at most 6360 days. |
| `FastForward.NamedIsOccurrence` | api/internal/icsparse/rrule.go:205-256 | The k-th occurrence is the instant the rule names: k intervals of days or weeks after the first, or the same clock on the same day of the month k intervals of months on. |
| `FastForward.ExpansionIsWhatIsDue` | api/internal/icsparse/rrule.go:94-203 | On every regular series within the stated reach the answer is, in order, exactly the spans of the instants the rule names that are inside COUNT and UNTIL, not excluded, and overlap the window. |
| `IcsWriter.PassesAreOne` | api/internal/ics/ics.go:96-104 | The six replacement passes amount to escaping each character once, CRLF as one line end. |
| `IcsWriter.UnescapeEscape` | api/internal/ics/ics.go:96-104 | Undoing the escapes by section 3.3.11 of RFC 5545 returns the text with its line ends normalised. |
| `IcsWriter.EscapedHasNoLineEnds` | api/internal/ics/ics.go:96-104 | Escaped text cannot break a content line. |
| `IcsWriter.WriteFolded` | api/internal/ics/ics.go:112-140 | The loop over the runes appends the folded line. |
| `IcsWriter.FoldedMeaning` | api/internal/ics/ics.go:107-140 | Every physical line is within 75 octets, no scalar value is split, and the pieces joined are the line. |
| `IcsWriter.Render` | api/internal/ics/ics.go:43-82 | The object is the folded lines of header, event and footer, optional properties present when set. |
| `IcsReader.Unfold` | api/internal/icsparse/icsparse.go:96-112 | The loop joins continuation lines onto the line before and drops empty lines. |
| `IcsReader.VEvents` | api/internal/icsparse/icsparse.go:161-184 | The properties of each complete event block, in order. |
| `IcsReader.Parse` | api/internal/icsparse/icsparse.go:49-56 | The merged list of all events' intervals: sorted with positive gaps, and covering exactly the instants at which some event keeps its owner busy. |
| `IcsReader.ParsedMeaning` | api/internal/icsparse/icsparse.go:49-56 | An instant is covered iff an event contains it that is neither cancelled nor transparent and, without a rule, overlaps the window. |
| `IcsReader.IntervalsMeaning` | api/internal/icsparse/icsparse.go:208-273 | One event's intervals: none when cancelled or transparent; else its span, ending at a DTEND after the start, else after a positive DURATION, else a day later for a date, when it overlaps the window; with a rule, what the rule expands that span to. |
| `IcsReader.FreeBlockChangesNothing` | api/internal/icsparse/icsparse.go:208-217 | A cancelled or transparent event may be put anywhere between the others without changing the answer. |
| `IcsReader.ExdatesMeaning` | api/internal/icsparse/icsparse.go:276-286 | An instant is excluded iff some EXDATE lists it, read with that property's own zone. |
| `IcsFields.DurationReads` | api/internal/icsparse/icsparse.go:340-404 | Every signed sum of weeks, days, hours, minutes and seconds reads as its length; without parts it is none. |
| `IcsFields.LocalTimeReads` | api/internal/icsparse/icsparse.go:296-337 | A time without Z is read in the zone TZID names, in UTC when there is none or it is unknown. |
| `IcsFields.DateReads` | api/internal/icsparse/icsparse.go:296-337 | A date is a whole day from midnight in that zone, marked as a date or recognised by its length. |
| `IcsFields.ParameterReads` | api/internal/icsparse/icsparse.go:121-149 | A parameter, quoted or not, and the value behind the colon are read back as written. |
| `IcsRoundTrip.UnfoldFold` | api/internal/icsparse/icsparse.go:96-112 | Fold then unfold is the identity on every non-empty line without line ends. |
| `IcsRoundTrip.UnfoldFoldIff` | api/internal/icsparse/icsparse.go:96-112 | And on no other text. |
| `IcsRoundTrip.UnfoldFolded` | api/internal/ics/ics.go:107-140 | A whole file of content lines unfolds to those lines. |
| `IcsRoundTrip.OneEvent` | api/internal/icsparse/icsparse.go:121-184 | The reader finds one event in the file, with the properties written. |
| `IcsRoundTrip.StampParses` | api/internal/ics/ics.go:84-92 | A UTC stamp reads back as its instant to the second, for years 0 to 9999. |
| `IcsRoundTrip.ParseRendered` | api/internal/ics/ics.go:43-140 | Reading a written event gives its time to the second when that overlaps the window and nothing otherwise, whatever summary and description hold. |
| `IcsRoundTrip.TextsReadBack` | api/internal/ics/ics.go:43-104 | Summary and description, unescaped, are the event's with line ends normalised; UID, URL and stamp are as given; absent texts leave no property; the event is confirmed and busy. |
| `RateLimit.Limiter.Allow` | api/internal/ratelimit/ratelimit.go:64-105 | The buckets and the answer after a request: eviction only at capacity, waving through only when that frees nothing, lazy refill, one token spent. |
| `RateLimit.Limiter.Sweep` | api/internal/ratelimit/ratelimit.go:113-117 | Keeps exactly the buckets that are not full and counts the rest. |
| `RateLimit.Limiter.EvictLocked` | api/internal/ratelimit/ratelimit.go:119-129 | The loop over the map drops exactly the full buckets. |
| `RateLimit.AllowStepLevels` | api/internal/ratelimit/ratelimit.go:64-105 | A tracked request succeeds iff its key has a whole token and then costs one; no other key's level changes. |
| `RateLimit.SameAsNeverDropping` | api/internal/ratelimit/ratelimit.go:87-129 | In any interleaving of requests, sweeps and evictions, a key never waved through is answered as by a limiter that drops no bucket. |
| `RateBounds.KeepsRateIff` | api/internal/ratelimit/ratelimit.go:64-129 | A sequence of clock readings keeps every limiter to its rate, in every run that works with them, each reading serving any number of steps, and for every key never waved through, iff readings that fall back behind a rise stay below its mirror image for good. |
| `RateBounds.RateHeld` | api/internal/ratelimit/ratelimit.go:64-129 | In a run with such readings a key never waved through is allowed at most burst plus refill times the length of any interval. |
| `RateBounds.RateBound` | api/internal/ratelimit/ratelimit.go:64-129 | In particular in every run in clock order. |
| `RateBounds.StepAvail` | api/internal/ratelimit/ratelimit.go:87-129 | One step, at whatever reading, raises no later request's tokens, and a grant takes one. |
| `RateLimit.KeysBounded` | api/internal/ratelimit/ratelimit.go:77-85 | The map never outgrows its cap. |
| `RateLimit.WavedAtCapacityOnly` | api/internal/ratelimit/ratelimit.go:70-85 | A request is waved through iff its key is new, the map is full and no full bucket can be dropped; full buckets go exactly when a new key finds the map full, and no other bucket changes. |
| `RateBounds.StaleReadingOvergrants` | api/internal/ratelimit/ratelimit.go:64-68 | A request at a, a sweep at b and a late request that read c, less than b - a below a and before b, are granted less than a token's time apart with burst one. |
| `RateBounds.ReturnOvergrants` | api/internal/ratelimit/ratelimit.go:64-68 | Readings that fall back further and then return above the rise grant more than the rate too. |
| `RateBounds.PairwiseIsNotEnough` | api/internal/ratelimit/ratelimit.go:64-68 | Six steps, one to a reading, that keep clear of every single rise and still grant five requests where four are due. |
| `RateLimit.RetryHonoured` | api/internal/server/ratelimit.go:28-35 | A refused caller who waits out Retry-After is let through, whatever others do meanwhile, iff the burst holds a whole token. |
| `ProposalCache.Cache.Lookup` | api/internal/server/proposalcache.go:93-102 | A hit iff the key has an entry younger than the time to live, and then that entry's result. |
| `ProposalCache.Cache.Store` | api/internal/server/proposalcache.go:104-117 | The map after a store: stale entries evicted only when full, the write skipped when that frees nothing. |
| `ProposalCache.Cache.EvictStaleLocked` | api/internal/server/proposalcache.go:119-126 | The loop drops exactly the stale entries. |
| `ProposalCache.StoredMeaning` | api/internal/server/proposalcache.go:104-126 | A store drops stale entries only, adds or replaces at most one entry, and keeps the bound. |
| `ProposalCache.NoTwoComputeTogether` | api/internal/server/proposalcache.go:70-86 | In every interleaving no two computations for one key overlap. |
| `ProposalCache.ComputesAreSpaced` | api/internal/server/proposalcache.go:66-86 | None begins within the time to live of any earlier save of its key, and no failure is ever saved. |
| `ProposalCache.OnlyStaleLeaves` | api/internal/server/proposalcache.go:104-126 | The map stays within 2000 entries; a step drops an entry only when stale and changes one only for a newer result of its key. |
| `ProposalCache.AnswersWereMade` | api/internal/server/proposalcache.go:61-91 | Every answer, from the cache or a shared flight, is what a computation for the caller's own key returned. |
| `ProposalCache.HitIsLatestSave` | api/internal/server/proposalcache.go:93-102 | A lookup succeeds iff the key was saved less than the time to live ago, and returns the latest save. |
| `ProposalCache.ComputedIsSaved` | api/internal/server/proposalcache.go:104-117 | A computed result is stored, dated then, iff fewer than 2000 keys have an entry younger than the time to live, as when the map holds fewer than 2000. |
| `ProposalCache.SavedIsServed` | api/internal/server/proposalcache.go:93-117 | From then until its time to live is over every lookup of the key hits and returns that result, whatever every caller does meanwhile. |
| `ProposalCache.WaitersAreServed` | api/internal/server/proposalcache.go:70-90 | A waiting caller's leader has an answer for the same key, which the caller then gets, or can still move. |
| `Broker.Broker.Subscribe` | api/internal/sse/broker.go:66-74 | Registers a new, empty, open channel. |
| `Broker.Broker.Cancel` | api/internal/sse/broker.go:77-96 | Once only: deregisters the channel, drops an emptied event, closes the channel. |
| `Broker.Broker.Publish` | api/internal/sse/broker.go:106-118 | Offers the message to every channel of the event and to no other, a full buffer refusing it. |
| `Broker.NeverPanics` | api/internal/sse/broker.go:66-118 | In every interleaving no send hits a closed channel and none is closed twice; the registered channels are exactly the open ones, no event is kept without one, and buffers hold at most eight. |
| `Broker.RegisteredIffWatching` | api/internal/sse/broker.go:66-99 | A channel is registered, under its event alone, exactly from its Subscribe to its first cancel. |
| `Broker.OnlyDropsWhenFull` | api/internal/sse/broker.go:106-118 | Received then buffered messages are a subsequence of those published while watching, and what is missing are exactly the publishes that found eight waiting. |
| `Broker.WakeUpNotLost` | api/internal/sse/broker.go:39-45 | A publish since the last receive implies a message waiting. |
| `Broker.CancelledLeavesNothing` | api/internal/sse/broker.go:84-91 | Once every subscription is cancelled the map is empty. |
| `Rows.TierNamesInvert` | api/internal/server/responses.go:300-316 | parseTier accepts exactly the four tier names and inverts Tier.String. |
| `Rows.ParseSelections` | api/internal/server/responses.go:221-239 | The first unreadable coarse entry, or selections that give each cell its last tier. |
| `Rows.ExpandParts` | api/internal/dayparts/dayparts.go:111-128 | Exactly the slots in a selected cell, each with the cell's last tier. |
| `Rows.BuildResponses` | api/internal/server/responses.go:220-277 | Refused iff some entry cannot be read, with the first such entry and what is wrong with it; otherwise, in slot order, exactly the manual row of each slot's own last entry and, for slots without one, the coarse row of the last tap on their part of the day. |
| `Rows.StatedMeaning` | api/internal/server/responses.go:255-267 | What a submission says of a slot is its own last entry, and only without any entry the last tap on its cell. |
| `Rows.FaultMeaning` | api/internal/server/responses.go:221-253 | The fault is the first coarse entry, or else the first slot entry, that cannot be read. |
| `Rows.OfReads` | api/internal/dayparts/dayparts.go:65-83 | An instant's cell is the local date and the part of the day its local clock shows, morning before 12 and evening from 17. |
| `Rows.MergeCalendarRows` | api/internal/server/responses.go:281-296 | The stated rows and the prior calendar rows of slots they are silent about, in order. |
| `Rows.ApplyCalendar` | api/internal/server/calendar.go:112-146 | Stated rows kept, a calendar "no" for every other covered slot, and the number of those. |
| `Rows.DisconnectRows` | api/internal/server/calendar.go:189-194 | Exactly the rows that are not the calendar's. |
| `AnswerHistory.StatedRowsAreTheLastSubmission` | api/internal/server/responses.go:177-199 | Over every history rows are unique per slot and within the event, calendar rows are "no", and the stated rows are exactly what the last accepted submission said. |
| `AnswerHistory.TiersAreTheLastEntries` | api/internal/results/results.go:71-87 | After every history the stated rows are exactly the manual and coarse rows of the last submission that could be read, entry by entry; Build reads those tiers, and "no" where it was silent. |
| `AnswerHistory.CalendarRowIff` | api/internal/server/calendar.go:112-146 | After every history a slot has a calendar row iff a block of the last import, not disconnected since, overlaps it, and neither the submission then in force nor any accepted since speaks of it. |
| `AnswerHistory.ImportThenDisconnect` | api/internal/server/calendar.go:177-205 | Import then disconnect leaves exactly the stated rows. |
| `AnswerHistory.SubmissionKeepsCalendar` | api/internal/server/responses.go:183-197 | A submission keeps every calendar row it does not mention. |
| `AnswerHistory.CalendarNeverSways` | api/internal/results/results.go:75-87 | A responder's tiers are those of the last accepted submission, the same with calendar rows removed. |
| `AnswerHistory.RespondedIffSaved` | api/internal/store/participants.go:169-222 | A participant has responded iff some accepted submission, import or disconnect has happened. |
| `AnswerHistory.ImportSpeaksForTheSilent` | api/internal/server/calendar.go:112-146 | Someone who never submitted but connected or disconnected a calendar answers "no" everywhere; if required, no slot survives. |

## Left out

- Floating-point rounding: scores, tokens and waits are reals.
- Integer width: instants, counters and durations are unbounded, so 64-bit overflow is not modelled.
- The time-zone database: a zone is a list of transitions, isolated by at least 48 hours, each a jump of 30, 60 or 120 minutes; `time.Date` is its documented contract.
- Slots.Expand: takes real calendar dates, as its callers parse them, and instants in whole seconds, since every slot start is one.
- Recurrence.Expand: BYDAY and zones whose offset changes are not modelled, and rule text is parsed outside the model.
- IcsReader.Parse: the zone lookup of non-UTC times and the expansion of recurrence rules are parameters, so the round trip holds for any; case mapping beyond ASCII and fractional seconds in times are not modelled.
- IcsReader.ParsedMeaning: for feeds with recurrence rules it takes the expansion to return spans that take time, as `Recurrence.Expand` does of an event that does.
- IcsWriter.Render: text is a sequence of Unicode scalar values, so invalid UTF-8 does not arise.
- IcsRoundTrip.ParseRendered: needs UID and URL without line ends, because the writer does not escape them, and four-digit years.
- Rows.BuildResponses: a block or date that does not parse is a missing cell; the JSON around it is not modelled.
- RateBounds.KeepsRateIff: lets each reading serve any number of steps, since requests can share one; for steps counted one to a reading the condition suffices, but what is needed depends on how often a reading repeats. Like all rate results it speaks of keys never waved through at capacity, as waving through is untracked by design.
- ProposalCache: the branch for a time to live of zero or less, which computes for every caller, has no state to reason about; panics inside a computation are not modelled.
- ProposalCache.ComputesAreSpaced: a result that found the map full of fresh entries is not saved and starts no cooldown, as in the source.
- Broker.Broker.Subscribe: channels are named by creation order instead of by reference.
- `sort.SliceStable` and `sort.Slice` internals: any stable sort, written as an insertion sort.
- The history affinity's decay: the history is an arbitrary function, which makes the ranking theorems stronger.
- HTTP handlers, JSON, SQL, configuration, tokens, network policy and the web front end: input and output around these cores.
