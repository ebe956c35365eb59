# NeSy reasoning ingestion: a verified model

This Dafny 4.11 project models the core of the NeSy reasoning MCP server and proves properties of it: a cron search
over the real calendar, an implication graph with a propositional meaning, a multi-worker ingestion protocol, the path
from reviewer votes to stored relations, scheduled runs, and a few bounded stateful loops. Run
`dafny verify dfyconfig.toml` to check everything.

## How it is organised

| files | what they model |
|---|---|
| `Basics` | option and result types, division facts, sorted lists of strings |
| `Calendar`, `CronFields`, `CronText`, `CronSearch`, `CronCoverage`, `CronCycle`, `CronDates` | Gregorian days and minutes; cron fields and their text; the next-fire search and its skips; what its answers add up to; which schedules run dry |
| `Implication`, `PathSearch`, `GraphIndex` | relations, edges and valuations; best-path search; the path queries of the graph index |
| `Classification`, `Contradictions`, `Exclusivity`, `Counterfactual` | classification as entailment; exclusive-group contradictions with temporal windows; the exclusivity override of a classification; the counterfactual tool |
| `IngestionLifecycle`, `IngestionProgress`, `IngestionOutcomes`, `JobMerging` | jobs, records and workers as interleaved store steps; when a job can still be finished; what makes it DONE or FAILED; merging claimed jobs; the write-back decision |
| `Voting`, `VotingRules`, `ReviewAggregation`, `Gate`, `Writer`, `Replan`, `ReviewPipeline` | vote policies and when each approves; stand-in votes; the write gate; deduplication and placeholder ids; planning twice; the pipeline end to end |
| `ScheduledRuns`, `ScheduledDues` | claiming scheduled jobs, the final state write, the retry ladder, due times |
| `RateLimiter`, `StoreMerge`, `Crawler` | the HTTP rate limiter; store merges through position indexes; the bounded crawl |

Code that computes by expressions is a function here; code that changes things step by step is a method with a loop
and its invariants, proved against a function or a property; the rate limiter is a class. The ingestion protocol and
the scheduler are state machines: a step is one atomic store operation of one worker, a run is any sequence of enabled
steps, and a worker that crashes simply takes no further step. The store is only assumed to keep the claim and
compare-and-swap contracts of `storage/protocol.py`.

## Conventions

- Instants are microseconds; a zone is a fixed whole-minute offset. Confidences are reals, and best-confidence search
  maximises their product.
- Valuations are sets of true propositions. "Enough depth" means a depth bound of at least the node count less one.
- A raised exception is the `Raised` or `None` result of the member concerned.
- Reasoning, duplicate detection, id generation, the assertion tool, path independence, URL checks, fetching, page
  parsing and the reading of integers are function parameters; a predicate names what is assumed of them (`Lawful` in
  `ReviewPipeline`, `RespectsLimits` in `Crawler`, `ReadsDecimals` in `CronText`).

## Where the code does less than one might expect

- `BEST_CONFIDENCE` applies the depth bound only after choosing the best path of any length, so it can return nothing
  although a shorter path exists (`GraphIndex.BestConfidenceMissesAShortPath`). It answers when every most confident
  path fits the bound and not when every one exceeds it (`GraphIndex.BestConfidenceDepth`); `SHORTEST` is complete.
- With temporal windows the group contradiction test misses conflicts in two ways: it wants one instant for the paths
  to all members (`Contradictions.JointWindowHidesAConflict`), and it looks at one shortest path per member
  (`Contradictions.OnePathPerMemberHidesAConflict`). It misses one exactly when the paths found share no instant
  (`Contradictions.ReportedExactly`); under a `valid_at` filter it misses none (`Contradictions.ReportedIffNoModel`).
- The exclusivity override of `classify` has the same gap: it looks at one most confident path to the target and one to
  the sibling (`Exclusivity.LapsedPathHidesAContradiction`), and misses a contradiction exactly when those share no
  instant (`Exclusivity.OverrideExactly`).
- The counterfactual tool cuts the alternatives to five before it looks at independence: an independent path in sixth
  place does not count (`Counterfactual.SixthDetourIsIgnored`, with letters in `Counterfactual.LettersMakeTheInput`;
  exact condition in `Counterfactual.DetourIgnoredExactly`).
- A job can stay REVIEWING for ever although all its records are settled (`IngestionLifecycle.JobsCanBeStranded`); it
  can still leave exactly while some review pass has it ahead (`IngestionProgress.LeavesExactlyWhenConcerned`).
- Some schedules raise from some starts: 29 February (`CronCoverage.LeapDayRunsDry`), Friday the 13th
  (`CronCycle.FridayThirteenthRaises`). The gaps between allowed dates decide which
  (`CronDates.DatesDecide`).
- A cron search that raises after a run leaves the job RUNNING for good (`ScheduledRuns.FinishSticksExactly`,
  `ScheduledRuns.StuckForever`, and on a leap day `ScheduledRuns.LeapDayJobSticks`).
- Workers run from the snapshot they listed and a claim compares the status only, so two workers can fail a job more
  often than its retry limit and leave it ACTIVE (`ScheduledRuns.StaleClaimsOutrunTheLadder`); the retry ladder needs
  claims that find the retry count unchanged (`ScheduledRuns.LadderNeedsFreshClaims`). In the same way one due time can
  be run twice (`ScheduledDues.StaleClaimRunsADueTimeTwice`), and is not when claims find the due time unchanged
  (`ScheduledDues.NoDueTimeTwice`).
- Enabling or disabling a scheduled job during a run breaks exclusion, and only then
  (`ScheduledRuns.AdministeringDuringARunBreaksExclusion`, `ScheduledRuns.AdministeringIsSafeWhenIdle`).
- Upserting an independence record by id can leave its pair in the list twice (`StoreMerge.UpsertRepeatsAPair`), exactly
  when another record holds that pair (`StoreMerge.PairsSurviveUpsert`, `StoreMerge.PairsSurviveMerge`).
- Planning the same batch again can report a duplicate under another record's id (`Replan.SecondPlanReportsAnother`),
  exactly when the record first reported lacks the canonical key and another carries it
  (`Replan.ReplanReportsAnother`).
- Once the table is pruned, the expired-window branch of the rate limiter is never taken
  (`RateLimiter.PrunedEntriesAreOpen`), and the missing high-priority vote test never holds after stand-in votes are
  added (`ReviewAggregation.NoMissingVotes`).

## Model

| member | source | states |
|---|---|---|
| `Calendar.OrdinalOrder` | src/nesy_reasoning_mcp/auto_ingest/scheduler.py:440-491 | Day ordinals order valid Gregorian dates exactly as year, month and day do; month and day skips rest on this. |
| `Calendar.NextDateSucceeds` | src/nesy_reasoning_mcp/auto_ingest/scheduler.py:705-707 | The next date is the one with the next ordinal, across month ends, leap days and year ends. |
| `Calendar.DateOfOrdinal` | src/nesy_reasoning_mcp/auto_ingest/scheduler.py:440-491 | Reading a date off an ordinal and back is the identity from year 1 on. |
| `Calendar.AtStamp` | src/nesy_reasoning_mcp/auto_ingest/scheduler.py:454-455 | Minute stamps and wall-clock readings are inverse to each other. |
| `Calendar.DaysBeforeYearClosedForm` | src/nesy_reasoning_mcp/auto_ingest/scheduler.py:440-491 | Counting days year by year agrees with the closed form built from the 4, 100 and 400 year leap rules. |
| `CronFields.RangeMember` | src/nesy_reasoning_mcp/auto_ingest/scheduler.py:761-780 | A stepped range holds exactly the values between its ends that lie a whole number of steps from its start. |
| `CronFields.SingleIgnoresStep` | src/nesy_reasoning_mcp/auto_ingest/scheduler.py:761-780 | `5/15` denotes just 5. |
| `CronFields.ParseField` | src/nesy_reasoning_mcp/auto_ingest/scheduler.py:742-758 | A field is accepted exactly when it has entries, each step is positive and the values named lie in order inside the range; its values are exactly those some entry stands for: a range by its step from its own start, `*` from the least value, a number alone. |
| `CronFields.PartValuesMeaning` | src/nesy_reasoning_mcp/auto_ingest/scheduler.py:761-780 | The set computed for an entry holds exactly the values it stands for. |
| `CronFields.StarOverStep` | src/nesy_reasoning_mcp/auto_ingest/scheduler.py:761-780 | `*` over n yields every n-th value of the range, counted from its least value; n is positive. |
| `CronFields.SpanOverStep` | src/nesy_reasoning_mcp/auto_ingest/scheduler.py:761-780 | A range over n yields every n-th value counted from the start of the range. |
| `CronFields.StarOverStepField` | src/nesy_reasoning_mcp/auto_ingest/scheduler.py:742-780 | The set parsed from the one-entry field `*` over n, in numbers. |
| `CronFields.QuarterHours` | src/nesy_reasoning_mcp/auto_ingest/scheduler.py:742-780 | `*/15` in minutes is parsed to 0, 15, 30 and 45. |
| `CronFields.ParseCron` | src/nesy_reasoning_mcp/auto_ingest/scheduler.py:671-680 | On split text: parsing succeeds exactly when all five fields are acceptable; the weekday set is the field with 7 folded onto 0; accepted fields are non-empty and in range. |
| `CronText.ParseCronText` | src/nesy_reasoning_mcp/auto_ingest/scheduler.py:666-680 | From text: aliases are looked up ignoring case and outer space; parsing succeeds exactly when the text splits into five fields of well-formed entries and all are acceptable; the result denotes them. |
| `CronText.SplitJoined` | src/nesy_reasoning_mcp/auto_ingest/scheduler.py:742-753 | Splitting at a separator undoes joining with it. |
| `CronText.WordsOfJoined` | src/nesy_reasoning_mcp/auto_ingest/scheduler.py:666-673 | Splitting at white space undoes joining words with a space. |
| `CronText.RoundTrip` | src/nesy_reasoning_mcp/auto_ingest/scheduler.py:666-785 | Parsing a printed expression gives that expression back, for every expression with numbers from zero on. |
| `CronText.PartIsRead` | src/nesy_reasoning_mcp/auto_ingest/scheduler.py:761-776 | An entry is accepted exactly when its text is a base, or a base, a slash and a step, with each number read from its own part; anything malformed raises. |
| `CronText.SpaceSeparates` | src/nesy_reasoning_mcp/auto_ingest/scheduler.py:670 | A blank, tab or line break splits the words on its two sides and does nothing else. |
| `CronText.PaddingIsIgnored` | src/nesy_reasoning_mcp/auto_ingest/scheduler.py:667 | Space around a text is ignored. |
| `CronText.CaseIsIgnored` | src/nesy_reasoning_mcp/auto_ingest/scheduler.py:667 | So is the case of its letters. |
| `CronText.AliasTextsParse` | src/nesy_reasoning_mcp/auto_ingest/scheduler.py:44-52 | Every alias, in any case and with space around it, parses to its expression, which never raises. |
| `CronText.NamedSchedules` | src/nesy_reasoning_mcp/auto_ingest/scheduler.py:44-52 | When each name fires: `@hourly` at minute 0, `@daily` and `@midnight` at midnight, `@weekly` at midnight on Sunday, `@monthly` on the first of the month, `@yearly` and `@annually` on 1 January. |
| `CronSearch.NextAtOrAfter` | src/nesy_reasoning_mcp/auto_ingest/scheduler.py:734-739 | The least listed value at or above the current one, or none when there is none. |
| `CronSearch.NextAfter` | src/nesy_reasoning_mcp/auto_ingest/scheduler.py:726-731 | The least listed value above the current one, or none. |
| `CronSearch.NextAllowedMonth` | src/nesy_reasoning_mcp/auto_ingest/scheduler.py:710-723 | The first day and time of the next allowed month, in this year or the next, with no allowed month in between. |
| `CronSearch.MonthSkip` | src/nesy_reasoning_mcp/auto_ingest/scheduler.py:459-466 | Jumping from a month that is not allowed to the next allowed one passes no matching minute. |
| `CronSearch.DaySkip` | src/nesy_reasoning_mcp/auto_ingest/scheduler.py:467-469 | Jumping to the first allowed time of the next day passes no matching minute when the rest of the day has none. |
| `CronSearch.HourSkip` | src/nesy_reasoning_mcp/auto_ingest/scheduler.py:470-477 | Jumping to the next allowed hour passes no matching minute. |
| `CronSearch.MinuteSkip` | src/nesy_reasoning_mcp/auto_ingest/scheduler.py:478-482 | Jumping to the next allowed minute of the hour passes no matching minute. |
| `CronSearch.Advance` | src/nesy_reasoning_mcp/auto_ingest/scheduler.py:458-490 | One pass of the loop: either the moment matches all five fields, or the loop moves strictly forward past non-matching minutes only. |
| `CronSearch.NextCronRun` | src/nesy_reasoning_mcp/auto_ingest/scheduler.py:440-491 | The six-branch search terminates and returns what a minute-by-minute scan of the 366-day window returns, raising exactly when that scan finds nothing. |
| `CronCoverage.NextFiringIsLeast` | src/nesy_reasoning_mcp/auto_ingest/scheduler.py:440-491 | The answer is a whole matching minute strictly after the start and the least such; with no answer, no minute within 366 days matches. |
| `CronCoverage.ChainEnumerates` | src/nesy_reasoning_mcp/auto_ingest/scheduler.py:440-491 | Passing each answer back as the next start lists exactly the matching minutes, in order, none skipped or repeated. |
| `CronCoverage.UnrestrictedWeekdayNeverRaises` | src/nesy_reasoning_mcp/auto_ingest/scheduler.py:440-491 | With any weekday allowed, the search never raises from any start if and only if some allowed date exists in every year. |
| `CronCoverage.UnrestrictedDateNeverRaises` | src/nesy_reasoning_mcp/auto_ingest/scheduler.py:440-491 | With any day and month allowed, no weekday set ever raises. |
| `CronCoverage.AliasesNeverRaise` | src/nesy_reasoning_mcp/auto_ingest/scheduler.py:44-52 | None of the built-in aliases can raise, whatever the start. |
| `CronCoverage.AliasFires` | src/nesy_reasoning_mcp/auto_ingest/scheduler.py:683-704 | The readings at which an alias's fields match, month, day and weekday included. |
| `CronCycle.YearTwoThousand` | src/nesy_reasoning_mcp/auto_ingest/scheduler.py:700-704 | The weekday count is anchored: 1 January 2000 is a Saturday. |
| `CronCoverage.LeapDayRunsDry` | src/nesy_reasoning_mcp/auto_ingest/scheduler.py:440-491 | A schedule for midnight of 29 February raises from every start after midnight of one: a concrete schedule the search fails on. |
| `CronCycle.FiringRepeats` | src/nesy_reasoning_mcp/auto_ingest/scheduler.py:458-491 | A schedule fires at a minute if and only if it fires 400 years later: the calendar cycle carries weekdays as well as dates. |
| `CronCycle.OneCycleDecides` | src/nesy_reasoning_mcp/auto_ingest/scheduler.py:440-491 | For any schedule, date and weekday both restricted included, the search never raises if and only if no start in one 400-year cycle is more than 366 days from a firing. |
| `CronDates.FiresOn` | src/nesy_reasoning_mcp/auto_ingest/scheduler.py:683-704 | A schedule fires at a minute of a day exactly when that date and that time are each allowed. |
| `CronDates.DatesDecide` | src/nesy_reasoning_mcp/auto_ingest/scheduler.py:440-491 | A test on dates alone: a schedule never raises if and only if, in one 400-year cycle, some date is allowed and after each allowed date the next one comes within 366 days, or 367 when the allowed times run from 0:00 to 23:59. |
| `CronCycle.FridayThirteenthRunsDry` | src/nesy_reasoning_mcp/auto_ingest/scheduler.py:440-491 | In a common year that begins on a Friday before a leap year, a schedule for Friday the 13th has no firing within 366 days of 14 August. |
| `CronCycle.FridayThirteenthRaises` | src/nesy_reasoning_mcp/auto_ingest/scheduler.py:440-491 | 1999 is such a year, so that schedule raises from some starts. |
| `Implication.NormalizeKeepsMeaning` | src/nesy_reasoning_mcp/normalization.py:17-70 | A valuation satisfies a relation exactly when it respects every edge the relation is normalized to. |
| `Implication.EdgesKeepMeaning` | src/nesy_reasoning_mcp/normalization.py:56-70 | A valuation satisfies all relations exactly when it respects all edges of the index. |
| `Implication.EdgeOrigin` | src/nesy_reasoning_mcp/normalization.py:35-70 | Every edge of the index is one normalized edge of a listed relation, and conversely; it carries that relation's id, type, confidence and validity, between its two propositions. |
| `Implication.CompatibleRelations` | src/nesy_reasoning_mcp/reasoning.py:380-386 | The filter keeps exactly the relations compatible with context, store, domain, assumptions and instant. |
| `Implication.IncompatibleExactly` | src/nesy_reasoning_mcp/reasoning.py:533-551 | A relation is left out exactly through the store, context, domain, an assumption or the instant asked for; an absent or empty entry leaves nothing out. |
| `PathSearch.BestTrail` | src/nesy_reasoning_mcp/reasoning.py:206-230 | For any gain that never grows along a path, the search returns a simple path of greatest gain over all paths of any length, or none exactly when there is no path. |
| `PathSearch.ProductIsSound` | src/nesy_reasoning_mcp/reasoning.py:489-493 | The confidence product is such a gain when confidences lie in the unit interval. |
| `GraphIndex.SearchGraph` | src/nesy_reasoning_mcp/reasoning.py:305-315 | The searched edges are exactly those at or above the confidence floor. |
| `GraphIndex.BestDirectEdge` | src/nesy_reasoning_mcp/reasoning.py:232-246 | The most confident edge between two nodes at or above the floor, or none exactly when there is none. |
| `GraphIndex.FirstOnTies` | src/nesy_reasoning_mcp/reasoning.py:232-246 | Among equally confident edges the first one is chosen. |
| `GraphIndex.Weakest` | src/nesy_reasoning_mcp/reasoning.py:465-478 | The minimum policy yields the least confidence on the path, and one on an empty path. |
| `GraphIndex.BestEdgesTrail` | src/nesy_reasoning_mcp/reasoning.py:291-303 | Choosing the best edge on every hop of a linked node list gives a path with exactly those nodes. |
| `GraphIndex.FoundPathIsPath` | src/nesy_reasoning_mcp/reasoning.py:148-185 | For the direct and the two shortest-path cases: a returned path is a simple path of the searched graph, uses the best parallel edge on every hop, respects the depth bound and carries the product, the least or no confidence, as the policy says. |
| `GraphIndex.DirectOnlyExactly` | src/nesy_reasoning_mcp/reasoning.py:161-173 | With direct edges only, there is an answer exactly when an edge joins the two at or above the floor, and it is the most confident one. |
| `GraphIndex.SelfPath` | src/nesy_reasoning_mcp/reasoning.py:148-156 | A proposition leads to itself by the empty path. |
| `GraphIndex.BestConfidenceIsMaximal` | src/nesy_reasoning_mcp/reasoning.py:206-230 | A best-confidence answer has the largest confidence product of all paths between the two nodes, whatever their length. |
| `GraphIndex.FoundWithinDepth` | src/nesy_reasoning_mcp/reasoning.py:206-223 | An answer exists exactly when the unbounded search finds one and that one fits the depth bound. |
| `GraphIndex.BestConfidenceMisses` | src/nesy_reasoning_mcp/reasoning.py:219-223 | When connected nodes get no best-confidence answer, the most confident path exceeds the depth bound. |
| `GraphIndex.BestConfidenceDepth` | src/nesy_reasoning_mcp/reasoning.py:219-223 | Connected nodes get a best-confidence answer when every most confident simple path fits the depth bound, and none when every one exceeds it; an answer means one of them fits. |
| `GraphIndex.BestConfidenceMissesAShortPath` | src/nesy_reasoning_mcp/reasoning.py:219-223 | A family of graphs where best-confidence search returns nothing at depth one although a one-edge path exists and shortest search finds it. |
| `GraphIndex.ShortestIsComplete` | src/nesy_reasoning_mcp/reasoning.py:206-223 | Shortest search answers if and only if some path fits the depth bound, and with the fewest edges. |
| `GraphIndex.EnoughDepth` | src/nesy_reasoning_mcp/reasoning.py:148-185 | At any depth an answer proves connection; with depth at the node count less one, either strategy finds every connection. |
| `GraphIndex.VerifyExplicitChain` | src/nesy_reasoning_mcp/reasoning.py:248-289 | A chain is verified exactly when every adjacent pair has an edge at or above the floor, with the best edge per hop; otherwise the first missing link is reported, and whether only its reverse exists. |
| `Classification.ReachableIsModel` | src/nesy_reasoning_mcp/reasoning.py:388-401 | The set of nodes reachable from a node respects every edge: the countermodel for whatever is out of reach. |
| `Classification.ConnectedIsForced` | src/nesy_reasoning_mcp/reasoning.py:148-185 | A path exists if and only if every valuation respecting the edges carries truth from start to end. |
| `Classification.ConnectedIsEntailed` | src/nesy_reasoning_mcp/reasoning.py:305-323 | Connection in the searched graph is exactly propositional entailment by the relations at or above the floor. |
| `Classification.ClassifyIsSound` | src/nesy_reasoning_mcp/tool_reasoning.py:30-54 | At any depth, a sufficient, necessary or equivalent verdict is entailed in the claimed directions. |
| `Classification.ClassifyIsEntailment` | src/nesy_reasoning_mcp/tool_reasoning.py:30-54 | With enough depth the four verdicts, before the exclusivity override, are exactly entailment in each direction. |
| `Classification.VerifiedChainIsEntailed` | src/nesy_reasoning_mcp/tool_reasoning.py:112-176 | A verified explicit chain is an entailment from its first to its last proposition. |
| `Contradictions.PathWindow` | src/nesy_reasoning_mcp/reasoning.py:41-52 | The folded window holds exactly the instants at which every edge of the path is valid. |
| `Contradictions.PathsTemporallyCompatible` | src/nesy_reasoning_mcp/reasoning.py:633-642 | The window test on several paths is exactly the existence of a common valid instant. |
| `Contradictions.ReachableGroupMembers` | src/nesy_reasoning_mcp/reasoning.py:949-970 | The hits are exactly the group members a node leads to within depth, each once, with its shortest path. |
| `Contradictions.HardGroupContradictions` | src/nesy_reasoning_mcp/reasoning.py:582-630 | A node is reported exactly when it reaches two members and all its member paths share an instant; its report lists exactly the members reached, each once, in the group's order. |
| `Contradictions.ReportIsContradiction` | src/nesy_reasoning_mcp/reasoning.py:582-630 | With windows, each report comes with an instant at which all its path edges hold and the node has no model that respects the group. |
| `Contradictions.ConflictIsTwoValidTrails` | src/nesy_reasoning_mcp/reasoning.py:582-630 | A node has no model respecting the group at an instant if and only if trails valid throughout at that instant lead to two different members; the countermodel is the set reached by edges valid then. |
| `Contradictions.ReportedExactly` | src/nesy_reasoning_mcp/reasoning.py:582-630 | With enough depth, a node is reported if and only if it has a contradiction at some instant and all the paths found to members share some instant; so a contradiction is missed exactly when those paths share none. |
| `Contradictions.ReportedIffNoModel` | src/nesy_reasoning_mcp/reasoning.py:582-630 | When all searched edges are valid at one instant and with enough depth, a node is reported if and only if no valuation makes it true, respects the edges valid then and makes at most one member true. |
| `Contradictions.FilteredEdgesHold` | src/nesy_reasoning_mcp/reasoning.py:380-386 | Under a `valid_at` filter all searched edges are valid at that instant, so the finder is complete there. |
| `Contradictions.UnboundedReportedIffNoModel` | src/nesy_reasoning_mcp/reasoning.py:582-630 | Without windows and with enough depth, a node is reported if and only if no valuation makes it true, respects the edges and makes at most one member true. |
| `Contradictions.JointWindowHidesAConflict` | src/nesy_reasoning_mcp/reasoning.py:602-605 | A third member never valid with the first hides a conflict between the first two. |
| `Contradictions.OnePathPerMemberHidesAConflict` | src/nesy_reasoning_mcp/reasoning.py:949-970 | With two members, a short path that is never valid with the other member's hides a longer one that is: a contradiction at an instant and no report. |
| `Exclusivity.RelationsForGroup` | src/nesy_reasoning_mcp/reasoning.py:564-579 | A group looks exactly at the compatible relations of its store, and of its context unless its scope is global. |
| `Exclusivity.GroupScope` | src/nesy_reasoning_mcp/reasoning.py:554-579 | Which groups a query passes over, and which relations a group looks at, said on store, context and scope. |
| `Exclusivity.FirstClash` | src/nesy_reasoning_mcp/reasoning.py:421-461 | The loop over siblings returns the least sibling, in sorted order, that the source reaches along with the target by paths sharing an instant; none exactly when there is no such sibling. |
| `Exclusivity.FindContradiction` | src/nesy_reasoning_mcp/reasoning.py:404-462 | The first group that is in scope, has relations and contradicts, with its least clashing sibling; none exactly when no group contradicts. |
| `Exclusivity.ClassifyWithGroups` | src/nesy_reasoning_mcp/tool_reasoning.py:30-77 | The verdict is contradictory if and only if some group contradicts, and then names the first such group and sibling; otherwise it is the verdict of reachability. |
| `Exclusivity.ContradictionIsReal` | src/nesy_reasoning_mcp/reasoning.py:404-462 | A contradiction leaves the source no model of the group's relations that respects the group, at an instant both paths hold. |
| `Exclusivity.OverrideExactly` | src/nesy_reasoning_mcp/reasoning.py:404-462 | At enough depth and whatever the windows, a group contradicts through a sibling if and only if it applies, at some instant no model makes the source true and at most one of target and sibling, and the two paths found share an instant; so a contradiction is missed exactly when those paths share none. |
| `Exclusivity.OverrideIsEntailment` | src/nesy_reasoning_mcp/reasoning.py:404-462 | The case where the group's relations are all valid at one instant, as under a `valid_at` filter: a group contradicts if and only if it applies and its relations entail both the target and the sibling from the source. |
| `Exclusivity.LapsedPathHidesAContradiction` | src/nesy_reasoning_mcp/reasoning.py:421-461 | An input: the source implies both members at an instant, but the most confident path to the target has lapsed by then, and no contradiction is reported at any depth bound. |
| `Counterfactual.AlternativePaths` | src/nesy_reasoning_mcp/tool_counterfactual.py:256-295 | The alternatives are the first five, in node order, of the best paths from other nodes that have an edge and avoid the intervention; the duplicate check on node lists never fires. |
| `Counterfactual.DetoursExactly` | src/nesy_reasoning_mcp/tool_counterfactual.py:256-295 | The detours are exactly the answers, with an edge and away from the intervention, of starting nodes other than the two. |
| `Counterfactual.FirstFive` | src/nesy_reasoning_mcp/tool_counterfactual.py:256-295 | The alternatives are the detours, cut to the first five. |
| `Counterfactual.TargetsExactly` | src/nesy_reasoning_mcp/tool_counterfactual.py:145-148 | The targets are those asked for, or without any all nodes but the intervention. |
| `Counterfactual.OpenWorldBuckets` | src/nesy_reasoning_mcp/tool_counterfactual.py:39-107 | The loop puts every judged target in the bucket of its judgement, in order. |
| `Counterfactual.BucketsConserve` | src/nesy_reasoning_mcp/tool_counterfactual.py:39-107 | The four buckets together hold each target exactly as often as it was asked. |
| `Counterfactual.SplitConserves` | src/nesy_reasoning_mcp/tool_counterfactual.py:307-336 | The closed-world split loses and repeats nothing, and upgrades exactly the items with direct causes that are all blocked. |
| `Counterfactual.Counterfactual` | src/nesy_reasoning_mcp/tool_counterfactual.py:23-140 | Every target ends in exactly one bucket, also after closed-world upgrades; only possibly blocked items move, only when closed, and only with all listed causes blocked. |
| `Counterfactual.JudgementMeaning` | src/nesy_reasoning_mcp/tool_counterfactual.py:39-107 | Judgements are sound at every depth and exact at enough depth: blocked if and only if no model with the intervention false keeps the target; otherwise split by whether the intervention entails it. |
| `Counterfactual.JudgementPaths` | src/nesy_reasoning_mcp/tool_counterfactual.py:39-107 | The paths shown: from a blocked target to the intervention, from the intervention to an affected target, and the alternatives. |
| `Counterfactual.SurvivorHasAModel` | src/nesy_reasoning_mcp/tool_counterfactual.py:54-107 | At enough depth, a target that is not blocked is true, with the intervention false, in the model of what it leads to. |
| `Counterfactual.DirectCausesMeaning` | src/nesy_reasoning_mcp/tool_counterfactual.py:339-349 | The listed causes are exactly the sources of relations sufficient for the target and the other sides of its equivalences. |
| `Counterfactual.UpgradeMeaning` | src/nesy_reasoning_mcp/tool_counterfactual.py:307-365 | An upgraded target is false in every model with the intervention false where it needs one of those causes; at enough depth it is upgraded exactly when it has causes and none can hold without the intervention. |
| `Counterfactual.StillPossibleExactly` | src/nesy_reasoning_mcp/tool_counterfactual.py:84-107 | A target the intervention affects but does not block is still possible if and only if one of the first five detours is independent; its paths are exactly those. |
| `Counterfactual.DetourIgnoredExactly` | src/nesy_reasoning_mcp/tool_counterfactual.py:256-295 | An independent detour exists but the target is only possibly blocked, if and only if the target is affected, none of the first five detours is independent, and a later one is. |
| `Counterfactual.StillPossibleMeans` | src/nesy_reasoning_mcp/tool_counterfactual.py:84-107 | Each path listed for a still possible target is independent, starts elsewhere, avoids the intervention and leads to the target. |
| `Counterfactual.SixthDetourIsIgnored` | src/nesy_reasoning_mcp/tool_counterfactual.py:256-295 | An input: six sources and the intervention each imply the target, only the sixth source's path is independent, and the target is reported possibly blocked. |
| `Counterfactual.LettersMakeTheInput` | src/nesy_reasoning_mcp/tool_counterfactual.py:256-295 | The letters a to f, i and t are such an input. |
| `Counterfactual.AnswerMeaning` | src/nesy_reasoning_mcp/tool_counterfactual.py:23-140 | What a whole answer means: every necessarily blocked item fails in the models its proof speaks about, and a proof by causes lists them all; every other item, at enough depth, survives, and in a closed world a possibly blocked one has no causes or a surviving one. |
| `JobMerging.MergeClaimedJobs` | src/nesy_reasoning_mcp/auto_ingest/worker.py:527-538 | The groups put together give back the claimed jobs in order; each is a run of mergeable jobs within the size limit, and none could have taken the next job. |
| `JobMerging.GroupIsOneStretch` | src/nesy_reasoning_mcp/auto_ingest/worker.py:541-558 | A merged group shares session, transcript and mode, and its turns are all absent or count up by one. |
| `JobMerging.GreedyIsUnique` | src/nesy_reasoning_mcp/auto_ingest/worker.py:527-558 | Only one grouping of a job list has these properties. |
| `JobMerging.StretchIsMerged` | src/nesy_reasoning_mcp/auto_ingest/worker.py:527-558 | One stretch within the size limit, turns all absent or counting up, is merged into one group. |
| `JobMerging.GroupEnds` | src/nesy_reasoning_mcp/auto_ingest/worker.py:527-558 | A group ends only where it is full or the next job does not continue it. |
| `JobMerging.JobsToFinish` | src/nesy_reasoning_mcp/auto_ingest/review_worker.py:450-489 | The jobs to be finished are exactly the source jobs that some record names and whose records are all committed or resolved. |
| `IngestionLifecycle.StepKeeps` | src/nesy_reasoning_mcp/auto_ingest/worker.py:315-394 | Every atomic step of ingest workers, review workers and manual commits keeps the invariant tying jobs, records, groups and write-backs together. |
| `IngestionLifecycle.EveryRunIsSafe` | src/nesy_reasoning_mcp/auto_ingest/review_worker.py:450-489 | In every interleaving, each record naming a DONE job is committed or resolved, and no job of a finished group is left extracting. |
| `IngestionLifecycle.JobsOnlyAdvance` | src/nesy_reasoning_mcp/storage/protocol.py:91-106 | Over every run claimed jobs are never dropped, job status never goes back, and DONE and FAILED never change. |
| `IngestionLifecycle.SettledStays` | src/nesy_reasoning_mcp/storage/protocol.py:124-158 | Over every run a committed or resolved record stays committed or resolved. |
| `IngestionLifecycle.NewNames` | src/nesy_reasoning_mcp/auto_ingest/worker.py:340-350 | A group queues records naming only its own jobs, which nothing named before, and it disturbs no finished write-back. |
| `IngestionLifecycle.StrandedForever` | src/nesy_reasoning_mcp/auto_ingest/review_worker.py:450-489 | A job in REVIEWING whose records are all settled, with no review pass left that concerns it, stays there through every further run. |
| `IngestionProgress.LeavesExactlyWhenConcerned` | src/nesy_reasoning_mcp/auto_ingest/review_worker.py:248-345 | A job under review whose records are all settled leaves REVIEWING in some continuation if and only if some review pass still has it ahead of it. |
| `IngestionOutcomes.OutcomesExactly` | src/nesy_reasoning_mcp/auto_ingest/review_worker.py:248-345 | Such a job can become DONE if and only if some review pass may still finish it, and FAILED if and only if some review pass may still fail it. |
| `IngestionOutcomes.FailedNeedsARaise` | src/nesy_reasoning_mcp/auto_ingest/review_worker.py:318-340 | In every interleaving a FAILED job had a raise in its own group, or in a review pass that rejected it. |
| `IngestionOutcomes.MovedByItsRecords` | src/nesy_reasoning_mcp/auto_ingest/worker.py:340-394 | In every interleaving, a job its group moves becomes DONE exactly when no record names it, and REVIEWING otherwise. |
| `IngestionOutcomes.ReviewedRun` | src/nesy_reasoning_mcp/auto_ingest/review_worker.py:284-290 | A run in which the review commits or resolves the record and the write-back makes the job DONE. |
| `IngestionOutcomes.RetriedRun` | src/nesy_reasoning_mcp/auto_ingest/review_worker.py:370-375 | A run in which the review leaves the record PENDING again and the job under review. |
| `IngestionOutcomes.FailedReviewRun` | src/nesy_reasoning_mcp/auto_ingest/review_worker.py:318-331 | A run in which the review raises and record and job become FAILED. |
| `IngestionOutcomes.NothingExtractedRun` | src/nesy_reasoning_mcp/auto_ingest/worker.py:340-394 | A run in which a group queues nothing and its job becomes DONE. |
| `IngestionOutcomes.FailedGroupRun` | src/nesy_reasoning_mcp/auto_ingest/worker.py:340-394 | A run in which a group raises and its job becomes FAILED. |
| `IngestionLifecycle.JobsCanBeStranded` | src/nesy_reasoning_mcp/tool_review_queue.py:53-128 | Such a job is reachable: committing its record by hand writes nothing back. |
| `Voting.MostCommon` | src/nesy_reasoning_mcp/auto_ingest/review_voting.py:363-375 | The counter yields a key of maximal count; ties go to the first met. |
| `Voting.FirstOfMostCommon` | src/nesy_reasoning_mcp/auto_ingest/review_voting.py:363-375 | No type met before the chosen one has as many votes. |
| `Voting.MajorityKindIsQuota` | src/nesy_reasoning_mcp/auto_ingest/review_voting.py:363-375 | With a quota above half the votes, a type is chosen if and only if it meets the quota. |
| `VotingRules.ApprovalExactly` | src/nesy_reasoning_mcp/auto_ingest/review_voting.py:270-316 | An approval of a type needs the confirmed support of all votes for it and a confidence among them; it carries the least of those confidences, and otherwise a human decides. |
| `VotingRules.UnanimousExactly` | src/nesy_reasoning_mcp/auto_ingest/review_voting.py:127-158 | Unanimous: approved exactly when all votes are for one type and support it; rejected exactly when a vote rejects; else a human decides. |
| `VotingRules.MajorityExactly` | src/nesy_reasoning_mcp/auto_ingest/review_voting.py:161-195 | Majority: approved exactly when some type has more than half of the votes and their support; rejected exactly when none has and more than half reject; else a human decides. |
| `VotingRules.RiskTieredExactly` | src/nesy_reasoning_mcp/auto_ingest/review_voting.py:198-267 | Risk-tiered: rejected exactly when a high-priority vote rejects; approved exactly when all high-priority votes approve, a type has more than half of all votes, their support, and the agreement of the high-priority votes; else a human decides. |
| `VotingRules.VerdictByPolicy` | src/nesy_reasoning_mcp/auto_ingest/review_voting.py:102-125 | No votes, no verdict; a lone vote that leaves no high-priority model missing stands for itself; else the policy decides. |
| `VotingRules.VerdictNamesPolicy` | src/nesy_reasoning_mcp/auto_ingest/review_voting.py:270-316 | A policy's verdict names the policy as its reviewer. |
| `Voting.VerdictIgnoresOrder` | src/nesy_reasoning_mcp/auto_ingest/review_voting.py:102-316 | No policy's decision, type, confidence or support changes when the votes are reordered. |
| `Voting.UnanimousImpliesRiskTiered` | src/nesy_reasoning_mcp/auto_ingest/review_voting.py:127-267 | A unanimous approval is also a risk-tiered approval with the same type, confidence and support. |
| `Voting.RiskTieredImpliesMajority` | src/nesy_reasoning_mcp/auto_ingest/review_voting.py:161-267 | A risk-tiered approval is also a majority approval with the same type, confidence and support. |
| `Voting.PoliciesAreNested` | src/nesy_reasoning_mcp/auto_ingest/review_voting.py:102-267 | The two implications on the aggregated verdict, the single-vote shortcut included. |
| `ReviewAggregation.MissingVotes` | src/nesy_reasoning_mcp/auto_ingest/review_voting.py:385-411 | The added votes are exactly one needs-human vote for each listed model that did not vote. |
| `ReviewAggregation.VotesExactly` | src/nesy_reasoning_mcp/auto_ingest/review_voting.py:29-99 | The votes counted are the candidate's reviews and one bare needs-human vote for each listed model without one. |
| `ReviewAggregation.DedupeNext` | src/nesy_reasoning_mcp/auto_ingest/text.py:8-11 | A further name is kept at the end exactly when it has text and was not met before. |
| `ReviewAggregation.Aggregate` | src/nesy_reasoning_mcp/auto_ingest/review_voting.py:29-99 | Each candidate gets the verdict on its own votes and the stand-ins, in candidate order; the ids set aside are exactly those some vote names and no candidate has. |
| `ReviewAggregation.NoMissingVotes` | src/nesy_reasoning_mcp/auto_ingest/review_voting.py:385-421 | After the stand-ins are added, no high-priority model is missing from the votes, so that test cannot fail there. |
| `ReviewAggregation.ApprovalNeedsHighPriority` | src/nesy_reasoning_mcp/auto_ingest/review_voting.py:198-267 | A risk-tiered approval requires that every high-priority model voted and that each of its votes approves. |
| `ReviewAggregation.ApprovalNeedsMajority` | src/nesy_reasoning_mcp/auto_ingest/review_voting.py:227-316 | With two votes or more it rests on a strict majority for its type, all with confirmed support, at the least confidence among them. |
| `ReviewAggregation.VerdictOnKeepsCandidate` | src/nesy_reasoning_mcp/auto_ingest/review_voting.py:102-316 | A verdict carries the id of the candidate it was reached on. |
| `Gate.LastReviewWins` | src/nesy_reasoning_mcp/auto_ingest/gate.py:42-47 | A candidate's last review is the one the gate uses. |
| `Gate.ScreenPasses` | src/nesy_reasoning_mcp/auto_ingest/gate.py:50-119 | A candidate passes the first loop if and only if its review approves it with confirmed support and the reviewed confidence, or else its own, at or above the threshold; it is discarded if and only if its review rejects it. |
| `Gate.RelationAsserts` | src/nesy_reasoning_mcp/auto_ingest/gate.py:258-267 | The relation made from an item says what its candidate says, from source to target, with the reviewed type and confidence where given. |
| `Gate.BlockedExactly` | src/nesy_reasoning_mcp/auto_ingest/gate.py:122-150 | The batch is held back exactly when something passed and reasoning, asked about those relations, fails or finds a hard contradiction. |
| `Gate.FlaggedExactly` | src/nesy_reasoning_mcp/auto_ingest/gate.py:152-197 | A candidate is flagged exactly when writing is on, nothing is held back, and its relation is called a duplicate. |
| `Gate.RunGate` | src/nesy_reasoning_mcp/auto_ingest/gate.py:26-209 | The two loops produce the stopped results, then the decided ones, and the approved relations, given the reasoning and duplicate answers; each approved relation says what a passing candidate of the batch says under its own review. |
| `Gate.OneResultEach` | src/nesy_reasoning_mcp/auto_ingest/gate.py:46-209 | The gate gives exactly one result per candidate, repeated ids included. |
| `Gate.NothingWrittenWhenBlocked` | src/nesy_reasoning_mcp/auto_ingest/gate.py:127-177 | No result is AUTO_WRITE on failed reasoning or a hard contradiction. |
| `Gate.DurableMatchesResults` | src/nesy_reasoning_mcp/auto_ingest/gate.py:152-209 | The approved relations are those of the AUTO_WRITE results, in the same order. |
| `Gate.DurableSources` | src/nesy_reasoning_mcp/auto_ingest/gate.py:199-209 | Every approved relation comes from a passing candidate that was not flagged, and says what that candidate says. |
| `Writer.SharesKeyExactly` | src/nesy_reasoning_mcp/auto_ingest/writer.py:157-176 | Two records are duplicates of each other exactly when type, context and store agree and so do source and target, by name or by id. |
| `Writer.Lookup` | src/nesy_reasoning_mcp/auto_ingest/writer.py:128-143 | The record found carries one of the keys; nothing is found only when no record carries any. |
| `Writer.DedupeRelations` | src/nesy_reasoning_mcp/auto_ingest/writer.py:113-154 | The two dictionaries implement the plan: first key first, stored before new, first record per key. |
| `Writer.PlanShape` | src/nesy_reasoning_mcp/auto_ingest/writer.py:113-154 | One id per prepared record; new and duplicate records add up to the input. |
| `Writer.EachIsAddedOrDuplicate` | src/nesy_reasoning_mcp/auto_ingest/writer.py:113-154 | Each input without a known record sharing a key is added under its own id; any other adds nothing and reports, and lists as duplicate, the id of such a record. |
| `Writer.AddedIsFilled` | src/nesy_reasoning_mcp/auto_ingest/writer.py:15-73 | Whatever is stored is one of the approved relations, unchanged but for looked-up proposition ids. |
| `Writer.AddedKeysAreApart` | src/nesy_reasoning_mcp/auto_ingest/writer.py:113-176 | New relations share no key with each other or with any stored record. |
| `Writer.PlanReportsEach` | src/nesy_reasoning_mcp/auto_ingest/writer.py:113-176 | The id planned for each input belongs to a stored or new record that shares a key with it. |
| `Writer.ReplanAddsNothing` | src/nesy_reasoning_mcp/auto_ingest/writer.py:113-176 | Planning the same relations again over the stored and added records adds nothing. |
| `Replan.ReplanReportsAnother` | src/nesy_reasoning_mcp/auto_ingest/writer.py:113-176 | The second plan reports another record for an input if and only if the record first reported does not carry its canonical key and some stored or new record does; with distinct ids the reported ids differ just then. |
| `Replan.SecondPlanReportsAnother` | src/nesy_reasoning_mcp/auto_ingest/writer.py:128-143 | An input: a stored relation written by name, a new one by id, and a second new one by both; the first plan reports the stored one for it, the second plan the new one. |
| `Writer.OrderedRelationIds` | src/nesy_reasoning_mcp/auto_ingest/writer.py:179-193 | Each placeholder takes the next new id at its first use and keeps it; other ids stay. |
| `Writer.PlaceholdersInOrder` | src/nesy_reasoning_mcp/auto_ingest/writer.py:179-193 | A plan first uses its placeholders in the order of the new relations, so the new ids meet their own relations. |
| `Writer.RenamedPlanReports` | src/nesy_reasoning_mcp/auto_ingest/writer.py:15-73 | After replacement every id still belongs to a stored record sharing a key with the input in its position, whatever ids the store assigned. |
| `Writer.WriteApproved` | src/nesy_reasoning_mcp/auto_ingest/writer.py:15-73 | A successful write returns one aligned id per relation and stores exactly the planned additions; a refused one changes nothing. |
| `ReviewPipeline.WrittenByCandidate` | src/nesy_reasoning_mcp/auto_ingest/review_worker.py:528-538 | A candidate's ids are exactly those paired with its relations, in order. |
| `ReviewPipeline.OneIdEach` | src/nesy_reasoning_mcp/auto_ingest/review_worker.py:528-538 | With one relation per candidate, that is the one id in its relation's position. |
| `ReviewPipeline.UpdatedRecords` | src/nesy_reasoning_mcp/auto_ingest/review_worker.py:349-397 | Each update keeps its record and takes status and ids from the gate result and the written ids. |
| `ReviewPipeline.LastResultWins` | src/nesy_reasoning_mcp/auto_ingest/review_worker.py:349-355 | A candidate's last gate result is the one its record follows. |
| `ReviewPipeline.GateSeesVerdict` | src/nesy_reasoning_mcp/auto_ingest/openai_agents.py:612-636 | The gate finds for each candidate the verdict reached on that candidate's votes. |
| `ReviewPipeline.DiscardedIffRejected` | src/nesy_reasoning_mcp/auto_ingest/gate.py:46-209 | With distinct candidate ids, a candidate is rejected by the gate if and only if its own review rejects it. |
| `ReviewPipeline.WrittenIffCleared` | src/nesy_reasoning_mcp/auto_ingest/gate.py:46-209 | With distinct candidate ids, a candidate is written if and only if its own review passes the first loop, the batch is not blocked and its id is not flagged. |
| `ReviewPipeline.OwnAction` | src/nesy_reasoning_mcp/auto_ingest/gate.py:46-209 | With distinct ids, a candidate's action is the one its own screening gives, and for one that passes the batch's: AUTO_WRITE unless blocked or flagged, else QUEUE. |
| `ReviewPipeline.CommittedIsBacked` | src/nesy_reasoning_mcp/auto_ingest/review_worker.py:349-397 | The alignment of one committed record through gate, deduplication, placeholder replacement and grouping by candidate. |
| `ReviewPipeline.BackedMeans` | src/nesy_reasoning_mcp/auto_ingest/review_worker.py:349-397 | The record behind a committed update has the candidate's context and store and the reviewed type, and its ends are the candidate's by name or by id. |
| `ReviewPipeline.AdditionsAreFromBatch` | src/nesy_reasoning_mcp/auto_ingest/review_worker.py:248-316 | Whatever a pass adds to the store says what a candidate of the batch says whose own review passes. |
| `ReviewPipeline.ReviewGroup` | src/nesy_reasoning_mcp/auto_ingest/review_worker.py:248-316 | With distinct candidate ids. It raises if and only if the write was refused, or relations were approved with writing off. The store gains exactly the planned additions, each from a passing candidate. Else a record is committed if and only if its review passes, the batch is not blocked and it is not flagged, resolved if and only if its review rejects it, pending otherwise; only a committed one has ids, it needs writing on, and its one id names a stored relation sharing a key with its own. |
| `ReviewPipeline.AutoWriteEvidence` | src/nesy_reasoning_mcp/auto_ingest/gate.py:46-209 | Under the risk-tiered policy and for votes the schema accepts, AUTO_WRITE implies: all high-priority models voted and only to approve, a strict majority for the type with two votes or more, confirmed support, confidence at the threshold, and an unblocked batch; candidate ids may repeat. |
| `ScheduledRuns.NextRunIsLater` | src/nesy_reasoning_mcp/auto_ingest/scheduler.py:576-663 | Every next due time written after a run or a skip lies strictly after its finish. |
| `ScheduledRuns.NextRunIsFirstFiring` | src/nesy_reasoning_mcp/auto_ingest/scheduler.py:576-636 | After a success or a last failure the job is due at the first cron firing after the finish; after a retried failure exactly one backoff later. |
| `ScheduledRuns.StateAfterExactly` | src/nesy_reasoning_mcp/auto_ingest/scheduler.py:576-636 | What is written after a run: disabled stays disabled, otherwise ACTIVE, or FAILED after the last failure; a success clears the retry count and a failure adds one; nothing is written exactly when a needed cron search raises. |
| `ScheduledRuns.StateAfterSkipExactly` | src/nesy_reasoning_mcp/auto_ingest/scheduler.py:639-663 | A refused run makes the job FAILED, due at the first firing, with its retry count unchanged. |
| `ScheduledRuns.RefusedJobFails` | src/nesy_reasoning_mcp/auto_ingest/cli.py:1320-1338 | A refused run is over and its job is FAILED and due at the first firing, unless the cron search raises. |
| `ScheduledRuns.StepKeeps` | src/nesy_reasoning_mcp/auto_ingest/cli.py:1294-1478 | Every step of any worker keeps each live run's job RUNNING under that run's id. |
| `ScheduledRuns.AtMostOneRun` | src/nesy_reasoning_mcp/auto_ingest/cli.py:1294-1478 | In every interleaving, with no administration during a run, a job has at most one run between claim and final write. |
| `ScheduledRuns.LiveUntilFinished` | src/nesy_reasoning_mcp/auto_ingest/cli.py:1340-1478 | Only its own final write ends a live run. |
| `ScheduledRuns.AdministeringIsSafeWhenIdle` | src/nesy_reasoning_mcp/auto_ingest/cli.py:1630-1648 | An enable or disable keeps that invariant if and only if no run of the job is live. |
| `ScheduledRuns.AdministeringDuringARunBreaksExclusion` | src/nesy_reasoning_mcp/auto_ingest/cli.py:1630-1648 | Enabling or disabling a job during its run lets a second run of it go live, a manual one if it was disabled. |
| `ScheduledRuns.FinishSticksExactly` | src/nesy_reasoning_mcp/auto_ingest/scheduler.py:576-636 | The final write leaves the job RUNNING, with no run of it live, if and only if the cron search finds nothing and the run succeeded or was the last retry. |
| `ScheduledRuns.StuckForever` | src/nesy_reasoning_mcp/auto_ingest/cli.py:1294-1478 | A job left RUNNING with no live run is never changed again, through any run that does not administer it. |
| `ScheduledRuns.StuckIsReleased` | src/nesy_reasoning_mcp/auto_ingest/cli.py:1630-1648 | Administration releases such a job: written anew, it can be taken and claimed again. |
| `ScheduledRuns.LeapDayJobSticks` | src/nesy_reasoning_mcp/auto_ingest/cli.py:1466-1478 | An input: a job due at midnight of 29 February, claimed and finished on one, is left so. |
| `ScheduledRuns.RetryLadder` | src/nesy_reasoning_mcp/auto_ingest/scheduler.py:604-636 | Over every interleaving in which each successful claim of the job is automatic and finds the retry count of its snapshot still stored: while ACTIVE the retry count is the failure streak and at most the limit; FAILED if and only if some streak reached limit plus one and no search raised; RUNNING without a run if and only if one raised. |
| `ScheduledRuns.FailedExactlyOnLastRetry` | src/nesy_reasoning_mcp/auto_ingest/scheduler.py:604-636 | Over the same interleavings, if no run is live and no cron search raised, the job is FAILED exactly when some streak reached limit plus one, and ACTIVE otherwise. |
| `ScheduledRuns.LadderNeedsFreshClaims` | src/nesy_reasoning_mcp/auto_ingest/cli.py:1340-1478 | After one more claim and a failed run, the job is on the ladder again if and only if that claim found the snapshot's retry count still stored. |
| `ScheduledRuns.StaleClaimsOutrunTheLadder` | src/nesy_reasoning_mcp/auto_ingest/cli.py:1294-1338 | An input: two workers list the same due job and run it one after the other; with one retry allowed it is still ACTIVE after two failures in a row. |
| `ScheduledDues.NoDueTimeTwice` | src/nesy_reasoning_mcp/auto_ingest/cli.py:1294-1478 | In every interleaving whose claims find the due time of their snapshot still stored, and whose runs do not finish before they were due, due times strictly increase from claim to claim: none is run twice. |
| `ScheduledDues.StaleClaimRunsADueTimeTwice` | src/nesy_reasoning_mcp/auto_ingest/cli.py:1265-1291 | An input: two workers list the same due job; the second, stale claim runs the same due time again. |
| `RateLimiter.Limiter.RateAllowed` | src/nesy_reasoning_mcp/http_server.py:86-106 | One request changes the table and answers as the pruned fixed-window rule says. |
| `RateLimiter.PrunedEntriesAreOpen` | src/nesy_reasoning_mcp/http_server.py:86-106 | Every entry left by pruning is inside its window, so the expired-window branch is never taken. |
| `RateLimiter.PruningIsInvisible` | src/nesy_reasoning_mcp/http_server.py:101-106 | The pruned table stands for the unpruned windows of every client. |
| `RateLimiter.AnswersFollowWindows` | src/nesy_reasoning_mcp/http_server.py:86-99 | Every answer is the one the unpruned windows would give. |
| `RateLimiter.ServedUnderLimit` | src/nesy_reasoning_mcp/http_server.py:86-99 | With fewer than `limit` of a client's calls accepted in the last 60 seconds, its next call is accepted. |
| `RateLimiter.RefusedExactly` | src/nesy_reasoning_mcp/http_server.py:86-99 | A call is refused if and only if its window is still open and already holds `limit` accepted calls. |
| `RateLimiter.LimitPerWindow` | src/nesy_reasoning_mcp/http_server.py:86-99 | From the start of a client's current window on, at most `limit` of its requests are accepted. |
| `RateLimiter.WindowsAreApart` | src/nesy_reasoning_mcp/http_server.py:91-99 | Successive windows of a client start at least 60 seconds apart. |
| `RateLimiter.AnyMinute` | src/nesy_reasoning_mcp/http_server.py:86-99 | No half-open 60-second interval, aligned or not, holds more than twice `limit` acceptances of a client. |
| `StoreMerge.Upsert` | src/nesy_reasoning_mcp/storage/common.py:244-258 | The position index implements replace-last-or-append; stored, appended and updated counts add up. |
| `StoreMerge.UpsertHolds` | src/nesy_reasoning_mcp/storage/common.py:244-258 | After an upsert the last slot of each incoming key holds the last incoming record with that key. |
| `StoreMerge.UpsertInPlace` | src/nesy_reasoning_mcp/storage/common.py:298-323 | Once all incoming keys are present, an upsert changes only their last slots and no key. |
| `StoreMerge.UpsertIsIdempotent` | src/nesy_reasoning_mcp/storage/common.py:244-258 | Upserting the same records twice equals once, for any input, repeated ids included. |
| `StoreMerge.KeptByPair` | src/nesy_reasoning_mcp/storage/common.py:270-281 | Exactly the stored relations sharing a pair with an incoming one give way. |
| `StoreMerge.ReplaceIsIdempotent` | src/nesy_reasoning_mcp/storage/common.py:270-281 | Replacing by pair twice equals once. |
| `StoreMerge.ReplaceExactly` | src/nesy_reasoning_mcp/storage/common.py:270-281 | Replacing by pair leaves the stored records of other pairs, then the incoming ones. |
| `StoreMerge.SamePairExactly` | src/nesy_reasoning_mcp/storage/common.py:326-358 | Two independence records are about one pair exactly when context, store and the two ends agree, in either order. |
| `StoreMerge.UpsertOne` | src/nesy_reasoning_mcp/storage/common.py:341-358 | One independence record replaces by id, else by pair, else is appended; both indexes stay right, and every record it does not clash with survives. |
| `StoreMerge.PairsSurviveUpsert` | src/nesy_reasoning_mcp/storage/common.py:341-358 | From distinct pairs, all indexed: the pairs stay distinct if and only if the record does not replace one by id while another holds its pair. |
| `StoreMerge.PairsSurviveMerge` | src/nesy_reasoning_mcp/storage/common.py:341-358 | Through a whole merge: the pairs are distinct after every upsert if and only if none of them collides so. |
| `StoreMerge.UpsertRepeatsAPair` | src/nesy_reasoning_mcp/storage/common.py:342-347 | An input: a record with the id of the second stored record and the pair of the first leaves that pair in the list twice. |
| `StoreMerge.MergeIndependence` | src/nesy_reasoning_mcp/storage/common.py:326-358 | From distinct ids: ids stay distinct, the id index is the exact inverse of the list, pair entries point at their pair, and each incoming record survives unless a later one shares its id or pair. From distinct pairs, the pairs stay distinct throughout if and only if no upsert collides. |
| `Crawler.Enqueue` | src/nesy_reasoning_mcp/auto_ingest/crawler.py:253-294 | An invalid, already met or disallowed URL changes nothing; any other is queued once, and is met from then on. |
| `Crawler.Record` | src/nesy_reasoning_mcp/auto_ingest/crawler.py:139-189 | A fetched page is kept exactly when it is allowed and no redirect to a page already met; kept pages with text become evidence, all others are counted as dropped. |
| `Crawler.Visit` | src/nesy_reasoning_mcp/auto_ingest/crawler.py:124-223 | One pass: the byte budget given to the fetcher, the counters, the evidence, that every link above the depth limit is met, that what is newly queued are links of the accepted page one level deeper, and where each newly met URL comes from. |
| `Crawler.CrawlEvidence` | src/nesy_reasoning_mcp/auto_ingest/crawler.py:94-223 | The crawl terminates within page, byte and depth limits; evidence has pairwise distinct canonical URLs on allowed hosts; no canonical URL is requested twice; every queued URL is fetched, failed or still queued; it stops early only at a limit; every link of an accepted page above the depth limit is met, and whatever is met was requested, is queued, or is the final URL of an accepted page. |
| `Crawler.RequestedIsNear` | src/nesy_reasoning_mcp/auto_ingest/crawler.py:124-223 | Every requested URL ends a chain of links, each from a page accepted in an earlier pass, that starts at a seed and has at most `max_depth` links. |
| `Crawler.EmptyQueueIsClosed` | src/nesy_reasoning_mcp/auto_ingest/crawler.py:124-223 | When the queue runs empty the crawl is closed: every valid and allowed link of an accepted page above the depth limit was requested, or is the final URL of an accepted page. |

Paths are relative to the root of the repository.

## Left out

- CronSearch.NextCronRun: does not model zones with daylight saving, where repeated and skipped wall-clock hours are not order-preserving, nor the error the date library raises past year 9999.
- CronText.ParseCronText: what `int` reads is a parameter, assumed to include decimal numerals; white space and lower case are those of ASCII.
- CronSearch.NextAllowedMonth: the error for an empty month list is not modelled, since parsing never yields one.
- PathSearch.BestTrail: stands for the graph library's search; which of several equally good paths that library returns, float rounding and the sentinel weight of a zero confidence are not modelled.
- GraphIndex.FoundPathIsPath: covers the two shortest-path strategies with at most one path; the strategy that enumerates all paths is not modelled.
- GraphIndex.BestDirectEdge: a repeated edge key, which overwrites an earlier parallel edge in the graph library, is not modelled; edges are kept as a list.
- Classification.ClassifyIsEntailment: does not include the exclusivity override, which is `Exclusivity.ClassifyWithGroups`.
- Exclusivity.FindContradiction: returns the group and the sibling; the paths and texts of the diagnostic, and the necessity status beside the classification, are not modelled.
- Contradictions.HardGroupContradictions: one group at a time; the order of reports, their type (direct or transitive), the soft findings (explicit negation, confidence tension, cycles, direct opposition, context-separated conflicts) and the choice of relations per group are not modelled.
- Counterfactual.UpgradeMeaning: the causes are a set; the order in which they are listed is not modelled.
- Counterfactual.AlternativePaths: whether a path is proven independent is an input.
- IngestionLifecycle.EveryRunIsSafe: assumes fresh job and record ids (enqueueing under an existing id, which replaces the stored item, is not modelled) and says nothing about progress; retry times and attempt counts only appear as a free choice of failing or retrying.
- IngestionProgress.LeavesExactlyWhenConcerned: a possible continuation, with that free choice; not a promise that workers take it.
- JobMerging.JobsToFinish: returns which jobs qualify; the compare-and-swap on each is a step of `IngestionLifecycle`.
- Voting.PoliciesAreNested: reasons, risk flags and vote metadata of a verdict are not modelled.
- Gate.RunGate: reasons, diagnostics and metadata of a gate result are not modelled; the reasoning answer is reduced to its error status and severities.
- Writer.WriteApproved: no other writer touches the store between the plan and the assertion, and the assertion tool returns one id per relation it accepts.
- ReviewPipeline.ReviewGroup: proposition canonicalization, the guard verdicts used after a reviewer runtime failure, runtime diagnostics and the retry updates after a raise are not modelled.
- ScheduledRuns.AtMostOneRun: job configurations are fixed; run records, reports and cancellation (a failure that is raised again) carry nothing else.
- ScheduledRuns.RetryLadder: speaks about automatic runs only; a manual run of a FAILED or disabled job starts from that status and is left out of the ladder.
- RateLimiter.AnyMinute: the limit is at least one, as the configuration requires, and the clock does not go back.
- StoreMerge.MergeIndependence: the upsert mode; append and store replacement only filter and append.
- Crawler.CrawlEvidence: URL syntax, host resolution, redirects, HTML parsing and evidence text are parameters; diagnostics and the rejected count are not modelled.
- Model calls, prompts, providers, evaluation, hooks, transcripts, the HTTP application beyond the rate limiter, audit records and text rendering are not part of this model.
- The stores themselves (`storage/memory.py`, `storage/sqlite.py`) are not part of this model.
