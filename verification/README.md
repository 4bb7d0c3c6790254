# A verified model of GPI's scheduling core

GPI places tasks on machines of several clouds, runs them on a schedule and
keeps its state in a small persistent store. This project models the parts of
GPI that decide something by themselves, in Dafny, and proves what they promise:
the cron engine and the job scheduler, the price cache, the placement optimizer,
the state store with its two kinds of backend, the service account tokens, the
key-style codec, the layered configuration, and four small parsers.

`dafny verify dfyconfig.toml` checks everything.

## How the program is modelled

| file | models |
|---|---|
| Calendar, Weekdays, Cron, CronCompleteness, CronPosix | the proleptic Gregorian calendar of ISO 8601 in UTC; parsing of cron fields and specifications; the minute-by-minute search for the next run; the day rule against that of the crontab utility |
| Jobs, JobRuns | the job manager as a class over job records; runs of one job as an interleaved system of atomic record updates |
| MetaCache, CacheRuns, FetchRate | the price cache as a class whose methods are its critical sections; calls as an interleaved system over map objects shared by reference; calls in sequence with a clock |
| StableSort, Bags, Placement, Ranking, RankingLaws, PipelineLaws | a stable in-place sort; matching and collecting instances; the placement pipeline and its laws |
| Store, StoreHistory, SqlBackend, Tokens | the in-memory store, its eight-step save and its crashes; what it holds after a history of calls; tables replaced in transactions and read back; the token life cycle |
| KeyStyle, JsonKeys | renaming keys between camel, snake and Pascal case, and whole JSON trees |
| ConfigMerge | merging configuration trees |
| Accelerators, Ranges, InstanceType, LineWriter | the printers and parsers of accelerator requests, numeric ranges and virtual instance types, and the line splitter |
| Text, Arithmetic | the string functions of Go's standard library that the code uses, on ASCII text, and three division facts |

Code that updates variables or fields is written as methods with loops and
proved against functions; the laws are then lemmas about those functions. Time
is counted from Go's zero time, 0001-01-01: in nanoseconds for the clock of the
job system, seconds or minutes for the cron search; 0 is the zero time. Prices
and scores are real numbers. I/O enters as parameters: whether a write fails,
what a price source answers, whether an attempt succeeds, in which order a map
is visited or a database answers.

## What the proofs found

Where the code departs from its documentation or from what one would expect,
the model follows the code, an input shows it, and a lemma says exactly when the
expectation holds.

* The crontab utility of POSIX.1-2017 (crontab, INPUT FILES) takes a day that fits
  month and day of month *or* the day of week when both sides are restricted;
  `match` wants all three. `CronPosix.FridayOrThirteenth` shows a difference,
  `CronPosix.DifferExactly` says at which minutes the two differ and
  `CronPosix.RulesAgreeExactly` on which schedules they never do. The seven-day
  bound on weekday schedules needs day and month `*` for that reason.
* `*/n` counts from 0 to 59 in every field, so it is refused for days and months
  and, below 60, for hours and weekdays (`Cron.StarStep`).
* The search gives up after 1825 days, and the job is then stopped. That happens to
  a 29 February schedule across a century without a leap day
  (`CronCompleteness.LeapDayMissed`) and to a date bound to a weekday: from 2 January
  2035, `0 0 1 1 1` finds no Monday in time (`CronCompleteness.NewYearMondayMissed`).
  When a schedule for one date is found is `CronCompleteness.DateFoundExactly`.
* A stopped job can be set going again: where the search begins to find something,
  two runs of one slot that end a minute apart do it (`JobRuns.StoppedCanRevive`),
  for a 29 February job at the end of February 2099 (`JobRuns.LeapDayJobRevives`).
  When a stopped job can become due again is `JobRuns.DueAgainExactly`.
* Nothing marks a job as taken between finding it due and marking it running, so
  one slot can start two runs (`JobRuns.SlotCanStartTwice`, exactly when:
  `JobRuns.SlotOpenExactly`, `JobRuns.OnlyRunGuardsSlot`).
* `Submit` ignores the error of storing a job whose name is taken: it answers with
  the new record while the old one stays (`Jobs.Manager.Submit`).
* Price calls that overlap can lose prices: the later of two that both started on an
  empty entry replaces the earlier result (`CacheRuns.PricesCanBeDropped`), and a call
  that holds a replaced entry brings it back, whether it succeeds
  (`CacheRuns.StaleCommitDrops`) or fails (`CacheRuns.StaleFailureDrops`). After which
  events the cache holds all results is `CacheRuns.CommitKeepsFoldExactly`,
  `CacheRuns.FailureKeepsFoldExactly` and `CacheRuns.OthersKeepFold`. Before the first
  success failures are not remembered and nothing limits the rate
  (`FetchRate.NoBackoffBeforeFirstSuccess`).
* Two clouds can share cache keys when their names contain NULs
  (`MetaCache.CacheKeysCollideExactly`).
* Widening a disk range can exclude an instance, because the matcher compares
  with the lower bound if there is one and with the upper bound otherwise
  (`Placement.WiderDiskCanExclude`, exactly when: `Placement.WideningExcludesExactly`).
* A metric may look at the run time estimate, which is filled in only if "time" is
  listed; listing it can then turn a strict ranking around
  (`RankingLaws.ExtensionCanReverse`, exactly which lists are safe:
  `RankingLaws.ExtensionLawExactly`). With "cost" and "time" that cannot happen.
* After a save that failed, a later save cut short can leave the disk in a state
  memory never had, and a restart makes that the store's state
  (`Store.MixtureAfterFailure`). A call is atomic exactly when the disk holds the
  state before or after it beforehand (`Store.CrashAtomicExactly`).
* The SQL backend does not keep the order of events, unlike the file backend,
  unless they were added in time order without ties
  (`SqlBackend.EventOrderKeptExactly`).
* `mergeNode` is documented as changing the base; it copies it. With a duplicate
  key it changes the last entry while `Section` reads the first
  (`ConfigMerge.DuplicateHidesOverlay`, exactly when the overlay is seen:
  `ConfigMerge.SectionOfMergeExactly`). Layering is associative only when the
  layers agree (`ConfigMerge.AssociativeExactly`).
* A range whose printed form starts with a minus sign is not read back
  (`Ranges.RangeRoundTripExactly`).

## Model

| member | source | states |
|---|---|---|
| Calendar.CalendarRoundTrip | internal/jobs/cron.go:134-148 | counting days from 0001-01-01 reaches a valid date exactly at its day number, so the fields the matcher reads are those of the proleptic Gregorian calendar |
| Calendar.DaysBeforeYearClosedForm | internal/jobs/cron.go:123-132 | the days before a year follow the leap-year rule in closed form |
| Calendar.DayNumberMonotone | internal/jobs/cron.go:123-132 | later dates have larger day numbers |
| Cron.ParseField | internal/jobs/cron.go:75-121 | the two nested loops accept and collect exactly what the field's specification says, nil for `*` |
| Cron.FieldMeaning | internal/jobs/cron.go:75-121 | a field is accepted if and only if every part is; it then matches exactly the values some part denotes, all in the unit's range |
| Cron.StarStep | internal/jobs/cron.go:81-112 | `*/n` is accepted for minutes, for hours and weekdays only with n at least 60, for days and months never |
| Cron.ValueListRoundTrip | internal/jobs/cron.go:75-121 | a list of in-range values printed with commas is read back unchanged |
| Cron.SpansMeaning | internal/jobs/cron.go:75-121 | a printed list of ranges `a-b` or `a-b/n` within the unit is accepted and matches exactly the numbers on one of them, those x from a to b with x - a a multiple of n |
| Cron.UnitRanges | internal/jobs/cron.go:69-121 | a number is accepted for minutes up to 59, hours up to 23, days 1 to 31, months 1 to 12 and weekdays up to 6, and for nothing else |
| Cron.SteppedNumber | internal/jobs/cron.go:75-121 | a number with a step matches that number alone |
| Cron.StarMeaning | internal/jobs/cron.go:81-112 | where `*/n` is accepted it matches the multiples of n up to 59 |
| Cron.ParseSchedule | internal/jobs/cron.go:14-67 | macros, `@every` and five fields, with the same refusals |
| Cron.FieldsInOrder | internal/jobs/cron.go:14-67 | five words are minute, hour, day of month, month and day of week in that order, and are accepted if and only if each is for its unit |
| Cron.FiveOrNothing | internal/jobs/cron.go:36-39 | any other number of words is refused |
| Cron.EveryDuration | internal/jobs/cron.go:18-24 | `@every` takes the duration after it, space around it ignored, and is refused if that is none |
| Cron.Minutely | internal/jobs/cron.go:25-32 | `@minutely` runs at every minute |
| Cron.Hourly | internal/jobs/cron.go:25-32 | `@hourly` runs at minute 0 of every hour |
| Cron.Daily | internal/jobs/cron.go:25-32 | `@daily` runs at midnight |
| Cron.Midnight | internal/jobs/cron.go:25-32 | so does `@midnight` |
| Cron.Weekly | internal/jobs/cron.go:25-32 | `@weekly` runs at midnight on Sundays |
| Cron.Monthly | internal/jobs/cron.go:25-32 | `@monthly` runs at midnight on the first of the month |
| Cron.Next | internal/jobs/cron.go:123-132 | the search loop computes the search function over 2628000 minutes |
| Cron.NextIsLeast | internal/jobs/cron.go:123-148 | next is the least whole minute strictly after the start that matches, and zero if and only if none of the following 2628000 minutes matches |
| Cron.NextMonotone | internal/jobs/cron.go:123-148 | a later start never gives an earlier run, and every start before the next run gives that same run |
| CronCompleteness.YearlyDateFound | internal/jobs/cron.go:123-148 | with weekday `*`, an allowed date that every year has is found within 366 days |
| CronCompleteness.WeekdayFound | internal/jobs/cron.go:123-148 | with day and month `*`, any allowed weekday is found within 7 days |
| CronCompleteness.NeverFiresExactly | internal/jobs/cron.go:123-160 | every search gives zero if and only if no allowed time of day, no allowed date that occurs in any year (31 February, say) or no allowed weekday exists |
| CronCompleteness.DateFoundExactly | internal/jobs/cron.go:123-148 | a schedule for one date, weekdays restricted or not, is found if and only if some year fits it and the first coming fitting day lies within the 1825-day horizon for some allowed time |
| CronCompleteness.NewYearMissed | internal/jobs/cron.go:123-148 | a schedule for 1 January on one weekday finds nothing from the day after such a day if the next year is a leap year |
| CronCompleteness.NewYearMondayMissed | internal/jobs/cron.go:123-148 | `0 0 1 1 1` finds nothing from 2 January 2035 |
| CronCompleteness.LeapDayFoundExactly | internal/jobs/cron.go:123-148 | a pure 29 February schedule is found if and only if the first coming leap day lies within the 1825-day horizon for some allowed time |
| CronCompleteness.LeapDayFoundAwayFromCenturies | internal/jobs/cron.go:123-148 | it is found whenever no century year without a leap day lies in the four years ahead |
| CronCompleteness.LeapDayMissed | internal/jobs/cron.go:123-148 | from 1 March before such a century the search gives zero |
| CronCompleteness.HorizonEdge | internal/jobs/cron.go:123-132 | in the year before a century without a leap day nothing is found from 23:59 on the last of February, and from midnight on the leap day exactly 1825 days later is |
| CronPosix.DifferExactly | internal/jobs/cron.go:134-148 | at a minute the matcher and the POSIX rule differ if and only if both sides are restricted, the time fits and the day fits just one of the two |
| CronPosix.MatchImpliesPosix | internal/jobs/cron.go:134-148 | the matcher never takes a minute that the POSIX rule refuses |
| Weekdays.DateMeetsWeekday | internal/jobs/cron.go:134-148 | every date of the calendar falls on every weekday, again within 800 years of any day |
| CronPosix.RulesAgreeExactly | internal/jobs/cron.go:134-148 | the two rules agree at every minute if and only if a side is `*`, no time of day is allowed, or dates and weekdays are all allowed or all excluded |
| CronPosix.DisagreeingRules | internal/jobs/cron.go:134-148 | a schedule on which they do not agree has a differing minute after every minute, within about 800 years |
| CronPosix.FridayOrThirteenth | internal/jobs/cron.go:134-148 | `0 0 13 * 5` differs on a Friday, 5 January, again within 800 years of any day |
| Jobs.Manager.Submit | internal/jobs/jobs.go:32-64 | which requests are refused, the record returned, and that a taken name leaves the stored job alone |
| Jobs.Manager.RunNow | internal/jobs/jobs.go:68-117 | the retry loop leaves exactly the record that the attempts' outcomes determine and returns nil accordingly |
| Jobs.RunOutcome | internal/jobs/jobs.go:90-117 | a run ends at its first successful attempt with every earlier one counted as a failure, or counts Retries+1 failures and fails |
| Jobs.Manager.Due | internal/jobs/jobs.go:146-160 | the due jobs are exactly the scheduled ones, neither running nor queued, whose nonzero NextRun is not after the clock |
| Jobs.Manager.Reschedule | internal/jobs/jobs.go:163-187 | the new record, and that other jobs stay as they are |
| Jobs.RescheduleMovesForward | internal/jobs/jobs.go:163-187 | NextRun becomes strictly later than the clock, or 0 with status stopped, for `@every` of at least one second |
| Jobs.RescheduledCron | internal/jobs/jobs.go:163-187 | for cron, NextRun is the first matching minute after the clock, none in between, and the job is stopped with 0 if none comes within 1825 days |
| Jobs.RescheduledEvery | internal/jobs/jobs.go:163-187 | for `@every d`, NextRun is the clock plus d in whole seconds since 1970; a job whose schedule cannot be read is stopped |
| Jobs.RescheduledKeeps | internal/jobs/jobs.go:163-187 | no other field changes |
| Jobs.FirstRunExactly | internal/jobs/jobs.go:51-61 | a submitted cron job is due at the clock's second, an `@every d` job d later |
| Jobs.EpochIs1970 | internal/jobs/jobs.go:51-61 | stored times count from 1 January 1970 |
| JobRuns.CountersCountAttempts | internal/jobs/jobs.go:90-142 | in every interleaving RunCount and FailCount grow by exactly the successful and the failed attempts |
| JobRuns.AttemptsAccountedFor | internal/jobs/jobs.go:68-142 | summed over the runs the attempts are what the counters gained, and no run makes more than Retries+1 |
| JobRuns.NilMeansSuccess | internal/jobs/jobs.go:90-117 | with Retries at least 0 a run returns nil if and only if one of its own attempts succeeded |
| JobRuns.NextRunNeverMovesBack | internal/jobs/jobs.go:163-187 | in every interleaving a reschedule never moves a nonzero NextRun backwards |
| JobRuns.SubmittedIsGrounded | internal/jobs/jobs.go:42-55 | a newly submitted job meets the condition that result starts from |
| JobRuns.StoppedStaysStopped | internal/server/server.go:217-238 | a job without a next run and with no scheduled run in flight is never due again, whatever requested runs do |
| JobRuns.StoppedCanRevive | internal/jobs/jobs.go:175-187 | a submitted job with any schedule whose search begins to find something at some later minute has a history in which two runs of one slot, started ten seconds apart, stop it and a minute later set it going again |
| JobRuns.LeapDayJobRevives | internal/jobs/jobs.go:175-187 | a 29 February job that allows midnight meets such a minute at the end of February of the year before any century year without a leap day |
| JobRuns.CommonCenturyAfter | internal/jobs/cron.go:123-148 | such a century comes within 202 years |
| JobRuns.DueAgainExactly | internal/jobs/jobs.go:146-187 | a job without a next run can become due again if and only if a scheduled run is in flight and the search finds something at some later instant |
| JobRuns.SlotOpenExactly | internal/server/server.go:217-238 | until a run reschedules, a due slot can be started once more if and only if the latest status update is not the beginning of a run |
| JobRuns.OnlyRunGuardsSlot | internal/server/server.go:217-238 | the only run so far keeps the slot closed exactly from its beginning to its end |
| JobRuns.OnlyRunGuardsRequests | internal/server/server.go:501-518 | a requested run is refused exactly while the only run so far is under way |
| JobRuns.SlotCanStartTwice | internal/server/server.go:217-238 | so one due slot can start two runs, at two ticks ten seconds apart |
| MetaCache.CacheKeyInjective | internal/metacache/metacache.go:61 | distinct cloud and region pairs have distinct keys when no cloud name holds a NUL |
| MetaCache.CacheKeysCollideExactly | internal/metacache/metacache.go:61 | two cloud names share a key for some regions if and only if one is the other followed by a NUL and anything |
| MetaCache.PriceCache.Begin | internal/metacache/metacache.go:146-160 | the snapshot taken under the lock and the decision to contact the source |
| MetaCache.PriceCache.Succeed | internal/metacache/metacache.go:172-183 | the whole cache after a successful commit: the result is merged into the snapshot's map object, or a new one, which becomes the entry |
| MetaCache.PriceCache.Fail | internal/metacache/metacache.go:165-171 | the whole cache after a failed fetch: the snapshot is written back with the failure time, nothing when there was none |
| MetaCache.PriceCache.Prices | internal/metacache/metacache.go:137-219 | one undisturbed call, forced or not: when it contacts the source, the new cache and the answer |
| CacheRuns.HeldPricesWereFetched | internal/metacache/metacache.go:149-183 | in every interleaving each held price was returned by a successful fetch for that same key and type |
| CacheRuns.AnsweredPricesWereFetched | internal/metacache/metacache.go:149-219 | the same of every map a call answered with, at any later time |
| CacheRuns.HeldIsFold | internal/metacache/metacache.go:149-219 | if at most one fetch that found no entry succeeds, the held map is the right-biased fold of the successful results in commit order |
| CacheRuns.HeldTypesGrow | internal/metacache/metacache.go:172-183 | then no priced type is ever lost |
| CacheRuns.CommitKeepsFoldExactly | internal/metacache/metacache.go:172-183 | after a successful commit the cache holds all results if and only if the map object merged into agrees with the earlier results outside the fetched types |
| CacheRuns.FailureKeepsFoldExactly | internal/metacache/metacache.go:165-171 | after a failure of a call that had found an entry it does if and only if that entry's map object agrees with all the results |
| CacheRuns.OthersKeepFold | internal/metacache/metacache.go:137-219 | no other event changes whether it does |
| CacheRuns.FirstFetchReplaces | internal/metacache/metacache.go:172-183 | so a fetch that had found no entry keeps it if and only if its result covers the earlier ones |
| CacheRuns.PricesCanBeDropped | internal/metacache/metacache.go:172-183 | a run of two calls after which a fetched price is gone |
| CacheRuns.StaleCommitDrops | internal/metacache/metacache.go:197-219 | a run in which a successful commit into a replaced map object loses a price |
| CacheRuns.StaleFailureDrops | internal/metacache/metacache.go:165-171 | a run in which a failed fetch writes a replaced entry back and loses it |
| FetchRate.ContactsAreSpaced | internal/metacache/metacache.go:142-182 | after the first success two contacts on a key are at least min(TTL, 5 s) apart |
| FetchRate.WindowBound | internal/metacache/metacache.go:142-182 | a window of length W sees at most W / min(TTL, 5 s) + 1 contacts |
| FetchRate.NoContactWithinTTL | internal/metacache/metacache.go:149-153 | no contact happens within TTL of a success, whatever happens in between |
| FetchRate.NoBackoffBeforeFirstSuccess | internal/metacache/metacache.go:154-171 | before the first success every call contacts the source |
| FetchRate.AskedExactly | internal/metacache/metacache.go:137-219 | over every run on a key in time order a request goes to the source if and only if it is forced, or no fetch has succeeded yet, or it comes more than the TTL after the last success with no failed request since in the 5 seconds before it |
| StableSort.SliceStable | internal/optimizer/lexicographic.go:184-200 | sorting the array in place gives the specified sort of its old contents |
| StableSort.SortIsStableSort | internal/optimizer/lexicographic.go:184-200 | for a strict weak order that sort is a permutation in order that keeps equal elements in their old order |
| StableSort.StableSortUnique | internal/optimizer/lexicographic.go:184-200 | there is only one such permutation's result |
| Placement.RelaxedMatches | internal/optimizer/match.go:13-42 | relaxing a request keeps every matching instance, disks compared by the bound the matcher picks |
| Placement.NumberRequests | internal/optimizer/match.go:13-42 | a request for CPUs or memory alone takes exactly the instances with that many vCPUs or GiB, bounds included |
| Placement.OtherRequests | internal/optimizer/match.go:13-42 | a request for disk alone compares the largest disk with its lower bound, or with its upper bound for lack of one; a request for an instance type takes that type |
| Placement.AcceleratorRequests | internal/optimizer/match.go:13-42 | a request for accelerators alone takes the instances with at least that many, names looked for in lower case first |
| Placement.RequestsCombine | internal/optimizer/match.go:13-42 | several requirements are met if and only if each is |
| Placement.DiskChangeKeepsExactly | internal/optimizer/match.go:13-42 | changing the disk range alone keeps every matching instance if and only if the bound the matcher picks does not rise |
| Placement.WideningExcludesExactly | internal/optimizer/match.go:13-42 | widening it excludes an instance if and only if the wider range has no lower bound and an upper one above what was asked for |
| Placement.WiderDiskCanExclude | internal/optimizer/match.go:13-42 | 10-100 widened to -100 excludes an instance with 50 GiB |
| Placement.CollectCandidates | internal/optimizer/candidate.go:55-98 | the loops over clouds and regions collect the feasible instances in order, and fail when a lookup does |
| Placement.AttachPrices | internal/optimizer/candidate.go:102-132 | each candidate gets its own price in place, whatever the order of the grouped lookups |
| Placement.EstimateRuntime | internal/optimizer/time.go:49-66 | the accumulating loop computes the estimated hours from the accelerators' total |
| Placement.RuntimeScale | internal/optimizer/time.go:49-66 | a positive time_sec counts in hours; without one 4 vCPUs take one hour, and unknown vCPUs count for 4 |
| Placement.AcceleratorsCountSixteen | internal/optimizer/time.go:49-66 | an accelerator shortens the estimate as 16 vCPUs do |
| Placement.MoreIsFaster | internal/optimizer/time.go:49-66 | more vCPUs or accelerators never take longer |
| Ranking.Optimize | internal/optimizer/lexicographic.go:57-126 | the outcome, refusals included, of the pipeline from request to numbered plan |
| Ranking.RankPlan | internal/optimizer/lexicographic.go:147-220 | scoring, the in-place stable sort, truncation and numbering give the specified plan |
| RankingLaws.RankStrictWeak | internal/optimizer/lexicographic.go:184-200 | for any number of metrics the comparison is a strict weak order |
| RankingLaws.PlanIsExact | internal/optimizer/lexicographic.go:147-220 | the plan is the first min(MaxCandidates, n) elements of the unique stable sort by group, unpriced and scores, numbered from 1 |
| RankingLaws.NoDroppedAheadOfKept | internal/optimizer/lexicographic.go:201-205 | no dropped candidate ranks strictly ahead of a kept one |
| RankingLaws.OrderOfCollectionIrrelevant | internal/optimizer/lexicographic.go:184-200 | reordering the collected candidates leaves the keys at every rank as they are |
| RankingLaws.ExtensionKeepsPreparedRanking | internal/optimizer/lexicographic.go:147-200 | whatever the metrics, a strict ranking of the candidates as the extended list prepares them is kept by that list |
| RankingLaws.ExtensionLawExactly | internal/optimizer/lexicographic.go:147-200 | a list's strict rankings survive every extension if and only if it has "time" already or filling in the estimates undoes none of them |
| RankingLaws.ExtensionKeepsStrictRanking | internal/optimizer/lexicographic.go:157-200 | so a ranking is kept when its list is safe in that sense or the extension fills in no estimates |
| RankingLaws.CostIgnoresTime | internal/optimizer/cost.go:27-29 | "cost" does not look at the estimate, so lists of it are safe |
| RankingLaws.RegisteredRankingsKept | internal/optimizer/lexicographic.go:157-200 | with "cost" and "time" a strict ranking survives every extension |
| RankingLaws.ExtensionCanReverse | internal/optimizer/lexicographic.go:147-200 | some metric's strict ranking is turned around by appending "time" |
| RankingLaws.RepeatedMetricIsNoOp | internal/optimizer/lexicographic.go:157-200 | naming a metric again further down changes no comparison |
| RankingLaws.TimeOnlyFillsEstimates | internal/optimizer/time.go:49-66 | with a positive time_sec, "time" at any place compares candidates as the list does once their estimates are filled in, whatever the metrics |
| RankingLaws.TimeIsNoOpExactly | internal/optimizer/time.go:49-66 | so it changes no comparison if and only if filling in the estimates changes none |
| RankingLaws.RegisteredTimeIsNoOp | internal/optimizer/time.go:49-66 | with "cost" and "time" it never does |
| PipelineLaws.FeasibleExactly | internal/optimizer/candidate.go:55-98 | the candidates are exactly the instances offered by a selected cloud in a permitted region that meet the requirements |
| PipelineLaws.FeasibleCount | internal/optimizer/candidate.go:55-98 | a fitting instance is a candidate exactly as often as selected clouds list it in permitted regions, any other never |
| PipelineLaws.PreRankKeepsSmallest | internal/optimizer/lexicographic.go:129-142 | beyond 200 candidates those kept have no more vCPUs than those dropped |
| PipelineLaws.BoundedIsExhaustive | internal/optimizer/lexicographic.go:129-142 | with at most 200 feasible candidates a group, what is ranked is every feasible instance of every group |
| PipelineLaws.IterationOrderIrrelevant | internal/optimizer/candidate.go:55-131 | then listing the clouds, or the regions of the selected ones, in another order leaves the keys at every rank as they are, and a failure a failure |
| PipelineLaws.CandidatePrices | internal/optimizer/candidate.go:102-132 | each candidate carries the positive prices that its cloud and region list for its type, and 0 for lack of one |
| PipelineLaws.PlanContents | internal/optimizer/lexicographic.go:57-220 | a plan has at most MaxCandidates launches, by default 10, on NumNodes nodes, by default 1, numbered from 1, each with the fields of a candidate and in the chosen mode |
| PipelineLaws.RefusedExactly | internal/optimizer/lexicographic.go:57-110 | which error is returned, and that there is a plan in every other case |
| PipelineLaws.TotalIsFirstPrice | internal/optimizer/plan.go:26-44 | the total is the first launch's price in the chosen mode, else 0.3 times its on-demand price or 3 times its spot price, else 0 |
| PipelineLaws.CheapestInChosenMode | internal/optimizer/plan.go:26-44 | under "cost", when every priced primary candidate has a price in the chosen mode, the total is the first launch's price in that mode and no primary candidate has a lower one |
| PipelineLaws.TopCost | internal/optimizer/plan.go:26-44 | under "cost" the top launch costs what the cheapest priced candidate of the primary request does |
| PipelineLaws.RelaxingNeverCostsMore | internal/optimizer/match.go:13-42 | under "cost" relaxing the primary request never raises the top launch's hourly cost once that group has a priced candidate |
| Store.StateStore.Save | internal/state/state.go:164-187 | how far the eight writes get, what the disk then holds, and when nil is returned |
| Store.StateStore.AddClusterRecord | internal/state/state.go:195-209 | the new memory and disk, and when it is refused |
| Store.StateStore.UpdateClusterRecord | internal/state/state.go:239-251 | the same for an update whose callback may fail |
| Store.StateStore.DeleteClusterRecord | internal/state/state.go:254-262 | the same for a deletion |
| Store.StateStore.RecordYAML | internal/state/cluster_store.go:9-25 | the upsert keeps the creation time of an existing record |
| Store.StateStore.RecordHistory | internal/state/cluster_store.go:50-75 | the upsert keeps an existing record's creation time and fills in missing times of a new one |
| Store.StateStore.AddEvent | internal/state/cluster_store.go:89-97 | events are appended, stamped when they carry no time |
| Store.StateStore.AddJobRecord | internal/state/jobs.go:32-43 | the new memory and disk, and when it is refused |
| Store.StateStore.UpdateJobRecord | internal/state/jobs.go:68-80 | the same for an update whose callback may fail |
| Store.OneCollectionChanges | internal/state/state.go:164-262 | every one of the sixteen mutators changes one collection, whose write alone takes the disk from before to after |
| Store.CrashLeavesBeforeOrAfter | internal/state/state.go:164-262 | with disk and memory equal, a stop at any point of the save leaves exactly the state before or after, and says which |
| Store.CrashAtomicExactly | internal/state/state.go:164-262 | a call is atomic wherever its save may stop if and only if the disk holds the state before or after it beforehand |
| Store.DiskFollowsMemory | internal/state/state.go:164-187 | over every run with failures and restarts, disk and memory agree whenever the last save went through or a restart followed |
| Store.RestartChangesNothing | internal/state/backend.go:107-164 | reopening the file backend then gives the same store |
| Store.SaveCatchesUp | internal/state/state.go:164-187 | whatever failed before, the next complete save brings the disk back in step |
| Store.DiskHoldsPastState | internal/state/state.go:164-187 | after any run, failures and restarts included, each collection on disk is that collection as memory had it at some point |
| Store.MixtureAfterFailure | internal/state/state.go:164-187 | a failed call, a stopped one and a restart leave the store in a mixture memory never held |
| StoreHistory.ClusterHeld | internal/state/state.go:195-262 | over every history of calls a cluster is held as it was added, with the clock's times and the default status, as each successful update made it, and not at all once deleted; calls for other names do not matter |
| StoreHistory.ServiceHeld | internal/state/services.go:26-85 | the same for services, which have no default status |
| StoreHistory.JobHeld | internal/state/jobs.go:32-80 | the same for jobs, which are never deleted |
| StoreHistory.YamlHeld | internal/state/cluster_store.go:9-25 | a cluster's YAML is the last one recorded, with the time of the first recording and of the last |
| StoreHistory.HistoryHeld | internal/state/cluster_store.go:50-75 | a cluster's history has the facts and launch time last recorded and the creation time of the first record, times missing from that record taken from the clock |
| StoreHistory.ConfigHeld | internal/state/config_store.go:16-27 | a configuration key has the value last set, with the time of the first setting and of the last |
| StoreHistory.EventsHeld | internal/state/cluster_store.go:89-97 | all events ever added are held in order, with their own times or the clock's |
| StoreHistory.TokensChange | internal/state/token_store.go:38-129 | calls for tokens change the list as the token table's operations do, other calls not at all |
| StoreHistory.RefusedExactly | internal/state/state.go:195-262 | a call changes nothing and saves nothing if and only if it adds a name that is held, changes or deletes one that is not, or its callback fails |
| SqlBackend.ReplaceAll | internal/state/sql.go:211-228 | deleting, inserting and committing replaces the rows if and only if no statement fails and no constraint breaks; otherwise they are unchanged |
| SqlBackend.SaveMap | internal/state/sql.go:409-446 | the table then has one row for each entry, and only a failing statement or two entries with one key prevent it |
| SqlBackend.TimeColumns | internal/state/sql.go:428-437 | a row's time columns carry the record's times, or the save's for lack of one |
| SqlBackend.ClashFree | internal/state/sql.go:211-267 | the rows of a map break the key constraint if and only if two entries share a key |
| SqlBackend.Database.SaveTable | internal/state/sql.go:181-381 | which of the eight tables gets which rows, and that a failed save leaves all as they are |
| SqlBackend.Database.SaveAll | internal/state/state.go:164-187 | the tables saved up to the first failure have their collections' rows, the rest are untouched, and a failure is a failing statement or a clash |
| SqlBackend.Database.OpenAll | internal/state/backend.go:107-164 | the eight loads fill the store with what the queries answer |
| SqlBackend.SaveNamedState | internal/state/sql.go:193-446 | a state whose keys are its records' names is saved and held, unless a statement fails or two tokens share an id or a hash |
| SqlBackend.NamedRoundTripExactly | internal/state/sql.go:193-228 | a map saved under its records' names reads back unchanged if and only if every key is its record's name |
| SqlBackend.HeldMapReadsBack | internal/state/sql.go:383-405 | whatever order the rows come in, a table that holds a map reads back as it |
| SqlBackend.ReopenYieldsSame | internal/state/backend.go:107-164 | opening gives the same maps, and the same events and tokens ordered by time, Active worked out afresh |
| SqlBackend.OpenedIsSaved | internal/state/backend.go:107-164 | what is opened is held by the tables, and its keys are its records' names |
| SqlBackend.CompleteSaveIsHeld | internal/state/sql.go:193-446 | the rows of a complete save hold the state, given that every yaml, history and config key is its record's name |
| SqlBackend.SaveKeepsConstraints | internal/state/sql.go:76-166 | however far a save gets, no table breaks a constraint afterwards |
| SqlBackend.EffectKeepsNames | internal/state/cluster_store.go:9-75 | every mutator keeps each yaml, history and config key equal to its record's name |
| SqlBackend.DatabaseFollowsMemory | internal/state/sql.go:193-446 | over every run of saves that write rows, with failed saves and restarts, keys are names, no constraint is broken, and after a save that went through the tables hold memory |
| SqlBackend.CompleteSaveExistsExactly | internal/state/sql.go:193-446 | after any run a call can save everything if and only if no two tokens share an id or a hash |
| SqlBackend.StateSurvivesRestart | internal/state/backend.go:107-164 | so the state survives a restart |
| SqlBackend.LookupsSurviveRestart | internal/state/token_store.go:59-72 | and every token lookup answers as before |
| SqlBackend.SqlCrashLeavesBeforeOrAfter | internal/state/sql.go:409-446 | with tables that hold memory, a save that stops after any number of tables leaves tables that hold the state before or the state after |
| SqlBackend.EventOrderKeptExactly | internal/state/sql.go:269-304 | every answer of the database keeps the events' order if and only if they are in time order and no two different ones share a time |
| Tokens.TokenTable.CreateToken | internal/state/token_store.go:38-56 | the new token is appended and only its hash is kept |
| Tokens.TokenTable.GetTokenByHash | internal/state/token_store.go:59-72 | the first token with the hash decides, expired or not |
| Tokens.TokenTable.DeleteToken | internal/state/token_store.go:84-94 | the first token with the id is cut out |
| Tokens.TokenTable.RotateToken | internal/state/token_store.go:97-115 | hash, expiry and times of the first token with the id are replaced |
| Tokens.TokenTable.MarkTokenUsed | internal/state/token_store.go:118-129 | only the time of use changes |
| Tokens.RotatedToken | internal/state/token_store.go:97-115 | rotating gives the first token with the id the new hash, expiry and creation time and clears its time of use; every other token keeps all its fields |
| Tokens.UsedToken | internal/state/token_store.go:118-129 | using sets the time of use of the first token with the id and nothing else |
| Tokens.AcceptedExactly | internal/state/token_store.go:38-129 | over all histories a secret is accepted at time t if and only if it is the latest issued for an id not deleted and not expired at t |
| Tokens.UnknownExactly | internal/state/token_store.go:59-72 | a lookup answers that there is no such token if and only if the secret is not the latest of any id, and otherwise, when refused, that it has expired |
| Tokens.RetiredNeverAccepted | internal/state/token_store.go:84-115 | a secret rotated out or deleted is never accepted again |
| Tokens.RotateOrDeleteRetires | internal/state/token_store.go:84-115 | rotating or deleting retires that secret and leaves every other token's secret alone |
| KeyStyle.SplitWords | internal/server/keystyle.go:85-116 | the loop over the characters computes the words that the scanning function defines |
| KeyStyle.ConvertCase | internal/server/keystyle.go:118-148 | rewriting the words in place and joining them computes the case conversion |
| KeyStyle.SnakeCanonical | internal/server/keystyle.go:85-141 | for every ASCII key and style, converting to snake first changes nothing; snake is idempotent |
| KeyStyle.CamelRoundTripExactly | internal/server/keystyle.go:85-141 | lower-case words joined by underscores come back from camel if and only if no two adjacent one-letter words occur after the first word |
| KeyStyle.PascalRoundTripExactly | internal/server/keystyle.go:85-141 | they come back from Pascal if and only if no two adjacent one-letter words occur at all |
| KeyStyle.DashIsUnderscore | internal/server/keystyle.go:85-116 | keys that differ only in which separators they use, dashes or underscores, convert alike |
| KeyStyle.OnlySeparators | internal/server/keystyle.go:118-148 | a key of separators alone stays as it is |
| JsonKeys.ConvertKeys | internal/server/keystyle.go:54-81 | the recursive conversion gives a permitted result, schema references included, in whatever order keys are visited |
| JsonKeys.PathsFollow | internal/server/keystyle.go:54-81 | without collisions every node is found again under the renamed keys of its path, objects and arrays with their size, texts with their references renamed, the rest unchanged |
| JsonKeys.ReferencesFollow | internal/server/keystyle.go:68-78 | a reference to a schema of a table still names that schema in the converted table |
| JsonKeys.OtherTextStays | internal/server/keystyle.go:68-78 | any other text stays as it is |
| JsonKeys.OneResult | internal/server/keystyle.go:54-81 | without colliding siblings the result does not depend on that order |
| JsonKeys.ThroughSnake | internal/server/keystyle.go:54-81 | converting through snake gives a permitted result of converting directly, collisions or not |
| JsonKeys.ThroughSnakeEqualsDirect | internal/server/keystyle.go:54-81 | without collisions the two are equal |
| JsonKeys.SizeKeptExactly | internal/server/keystyle.go:56-61 | an object keeps its size if and only if none of its keys collide, and never grows |
| ConfigMerge.MergeNode | internal/config/config.go:237-263 | the two loops over the index of keys compute the merge |
| ConfigMerge.FindSection | internal/config/config.go:268-278 | the lookup loop finds the first entry of a name |
| ConfigMerge.Load | internal/config/config.go:194-208 | the project's file is laid on the user's, either of which may be missing |
| ConfigMerge.MergeGetAll | internal/config/config.go:237-263 | whatever keys repeat, a key's value is the base's last one with the overlay's values for it laid on in turn |
| ConfigMerge.MergeKeys | internal/config/config.go:237-263 | base keys keep their order and the overlay's new keys follow in theirs |
| ConfigMerge.MergeGet | internal/config/config.go:250-260 | each key's value depends on its two values alone: merged if both are mappings, else the overlay's |
| ConfigMerge.SelfMerge | internal/config/config.go:237-263 | merging a tree without duplicate keys onto itself changes nothing, nor does an empty overlay |
| ConfigMerge.OverlayWinsAtLeaves | internal/config/config.go:237-263 | the overlay wins at every path where it has a leaf |
| ConfigMerge.BaseShowsThrough | internal/config/config.go:237-263 | where the overlay is silent the base's node is kept |
| ConfigMerge.AbsorbedExactly | internal/config/config.go:237-263 | merging a under c leaves c if and only if c lists a's keys first, in order, at every level they share |
| ConfigMerge.AssociativeExactly | internal/config/config.go:237-263 | merging three layers is associative if and only if no key goes from mapping to something else to a mapping that does not absorb the first |
| ConfigMerge.SectionOfMerge | internal/config/config.go:268-278 | a section of a merged configuration is the base's with the overlay's values for it laid on, for any overlay and a base that has it once at most |
| ConfigMerge.SectionOfMergeExactly | internal/config/config.go:268-278 | for every overlay that has the section once at most it is the overlay's laid on the base's if and only if the base has it once at most |
| ConfigMerge.SectionOfLoaded | internal/config/config.go:194-278 | the same for the two configuration files together |
| ConfigMerge.DuplicateHidesOverlay | internal/config/config.go:237-278 | with a duplicate key in the base no overlay value for it is ever read |
| Accelerators.Show | internal/task/accelerators.go:14-32 | names are printed in byte order with their counts, 1 left out |
| Accelerators.NamesUnique | internal/task/accelerators.go:18-22 | the printed text does not depend on the order in which the map is visited |
| Accelerators.LessMeaning | internal/task/accelerators.go:18-22 | in that order the first difference decides and a prefix comes first |
| Accelerators.Parse | internal/task/accelerators.go:36-81 | the loop over the items reads a text or a list, nil when nothing is named |
| Accelerators.BadCountIsOne | internal/task/accelerators.go:85-103 | a count that is no positive number is taken for 1 |
| Accelerators.RoundTripExactly | internal/task/accelerators.go:14-103 | reading the printed form gives the same accelerators if and only if names are trimmed and free of commas and colons and counts are positive 64-bit numbers, save a nameless single |
| Ranges.ParseRange | internal/task/range.go:19-73 | setting the flags and fields step by step gives the specified range, nil or error |
| Ranges.OneNumberForms | internal/task/range.go:19-73 | `a`, `a+` and `-a` are the numbers equal to, at least and at most a |
| Ranges.TwoNumberForm | internal/task/range.go:19-73 | `a-b` is the numbers from a to b, bounds included, and an empty text all numbers |
| Ranges.RangeErrors | internal/task/range.go:19-73 | a bound that cannot be read is an error, on either side |
| Ranges.ShownForms | internal/task/range.go:87-106 | a range is printed in the same forms, a single number when its bounds are equal |
| Ranges.RangeRoundTrip | internal/task/range.go:19-106 | a range whose bounds print without a minus sign is read back |
| Ranges.NaturalRangeRoundTrip | internal/task/range.go:19-106 | in particular natural bounds below a million |
| Ranges.RangeRoundTripExactly | internal/task/range.go:19-106 | a range with a bound comes back if and only if the bound printed first is not negative |
| InstanceType.ParseInstanceType | internal/cloud/kubernetes/provider.go:417-438 | the loop over the parts reads CPUs, GiB, GPU and count |
| InstanceType.BareGpuIsOne | internal/cloud/kubernetes/provider.go:417-438 | a GPU named without a count is read as one |
| InstanceType.BadNumbers | internal/cloud/kubernetes/provider.go:417-438 | a number that cannot be read is 0, one beyond 64 bits the largest |
| InstanceType.TypeNameRoundTripExactly | internal/cloud/kubernetes/metadata.go:103-109 | a printed type, numbers of either sign, is read back if and only if there is no GPU at all, or a positive number of them whose name has no colon, double dash or leading space |
| LineWriter.Writer.Write | internal/backend/docker.go:150-164 | a write forwards and holds back what feeding its bytes one by one does |
| LineWriter.WriteAll | internal/backend/docker.go:145-164 | a new writer given the chunks one by one ends where feeding them in sequence does |
| LineWriter.LinesOfText | internal/backend/docker.go:150-164 | of closed lines and an unfinished one the former are forwarded in order, trimmed, the empty ones dropped, and the latter is held |
| LineWriter.CarriageReturns | internal/backend/docker.go:157-160 | a line loses exactly the carriage returns at its end, and is dropped when nothing else is left |
| LineWriter.ChunkInvariance | internal/backend/docker.go:145-164 | however the stream is cut into writes the outcome is that one |
| LineWriter.EveryText | internal/backend/docker.go:150-164 | every stream is of that shape |

## Left out

- Cloud clients, pricing APIs, Kubernetes calls, SSH, Docker and the HTTP, CLI and logging layers: I/O and plumbing; sources, executions and failures are parameters here.
- `Instances` and `Regions` of the cache: they follow the price cache's pattern without the merge, so they add only easier members.
- Services, configuration entries and tokens in `StateStore`: their mutators are modelled in `Store.Effect` and covered by the laws, those of `StoreHistory` included; methods are written out for clusters, jobs and the cluster collections, and for tokens in `Tokens`.
- Text formats: YAML and JSON text and SQL syntax; each is taken as a lossless codec. The Redis backend behaves as the file backend does here.
- File atomicity: a collection's write is one step, by temporary file and rename or by transaction.
- SHA-256 and randomness: a hash is an injective function and drawn secrets and ids are fresh, as premises of the lemmas that need them.
- Floating point and time zones: rounding, NaN and exponent notation are not modelled; all times are UTC.
- Shared pointers to records: records are values, so changes made through a pointer returned by `GetCluster` or `GetJob` are not covered.
- Update callbacks that fail halfway: a callback either yields a new record or fails without effect.
- `@every` with a duration that is not positive: excluded by a premise of the rescheduling lemmas.
- Non-ASCII text: letters, digits and white space are ASCII, so Unicode case rules are not covered.
- The map forms of accelerator requests: they copy counts without parsing; texts and lists are modelled.
- ExtensionKeepsStrictRanking: not of every list of arbitrary metrics, since it fails for some; `ExtensionLawExactly` says for which it holds.
- Fallback timestamps: one save takes the clock once for the columns of entities without times, which are never read back.
