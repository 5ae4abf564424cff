# A verified model of the host agent's accounting, reconcilers and allocators

The agent runs on a virtualisation host: it bills traffic, keeps firewall state in line with leases and
policies, executes platform commands, stores metrics, serves a control socket and hands out container
addresses. Each module models one of these cores and proves what it is for.

- `Calendar`, `Schedule`, `Traffic`: the closed-form Gregorian calendar, the monthly billing periods built on
  it, and the byte accumulator that survives interface re-creation.
- `Connlimit`: leased connection limits. Policies live in a file, matching rules in a firewall chain. Every
  save and command may fail, and the process may die between any two steps; the next operation starts from disk.
- `RfwRules`, `Normalize`, `HostPolicy`: the host firewall controller. It normalises a requested policy, then
  brings a remote table that other users also edit in line with it, remembering which rules it owns.
- `Commands`, `Executions`: concurrent execution of platform commands as interleaved atomic task steps, with a
  pruned result cache and a garbage-collected table of reference-counted locks; and the life of each execution in a run.
- `History`: raw samples folded into rollups, against a ghost log of everything recorded.
- `RequestReader`, `Framing`: the control socket's HTTP reader, against a parser of the whole byte stream, and that
  parser against requests written out as text.
- `Ipv6`, `Allocator`: the byte-wise 128-bit adder and the container address allocator built on it.
- `IpLimiter`: admission of connections by distinct source address.
- `Text`, `Numbers`, `Wrappers`: string operations, bytes and powers of two, and the option type they share.

Code that updates state in place is modelled by classes and loops, each proved against a function or relation on
values; pure code by functions and lemmas; concurrent tasks by a state machine over their atomic steps.

## What the code does that its documentation does not say

- A fixed `reset_day` of 0 puts resets in the past; resets always lie ahead if and only if the anchor names a
  real day (`Schedule.ResetsAheadIff`). The agent does not get there: src/config.rs:170 accepts only days 1 to 28.
- Connection-limit rules are installed for trimmed and unmapped addresses but removed for the text as it stands.
  A lease with padded or IPv4-mapped addresses leaves its rules behind; applying and releasing a lease empties
  the chain if and only if its addresses are removable (`Connlimit.ApplyThenRelease`). The addresses come from the
  instance backend (main.go:221, controlapi/connlimit_linux.go:122), so only one that reports padded or
  IPv4-mapped addresses could cause this.
- A retirement whose intent cannot be saved leaves the policy active on disk (`Connlimit.RetireResult`), although
  the comment at firewall/connlimit/connlimit_linux.go:317-319 expects a removal mark there.
- The request reader's outcome depends on how reads cut the stream if and only if the body limit is below 4095
  bytes (`RequestReader.CutIndependentIff`); the agent's limit is far above.
- The request reader accepts lengths that section 8.6 of RFC 9110 does not allow. An accepted length follows the
  grammar if and only if it holds no plus and no white space but space and tab around it
  (`RequestReader.LengthIsStandardIff`); every length can be written in both loose ways (`RequestReader.LooseLengths`).
- An in-sync readback means an idle reconciliation if and only if no two live owned rules share a key
  (`RfwRules.InSyncIsIdleIff`). Readback fails for tables of more than 256 rows.
- The row the agent adds for a rule it has just created, and any listing of that form, is recognised if and only if
  the rule names an end port or starts at port 0, given a trimmed CIDR (`RfwRules.OmittedEndPort`).
- A rule is asked for before it is written down. A rule whose answer is lost becomes a stray (`HostPolicy.Agent.Create`),
  as does one not on disk when the process ends (`HostPolicy.Agent.Restart`); a reconciliation adds only rules it
  created, and none if it succeeds (`Ledger` in `HostPolicy.Agent.ReconcileRfw`). So the live rules the agent does not
  remember are exactly its strays, and each was created by an operation that reported failure (`HostPolicy.Run`).
- The answered id is cast to 32 bits (src/hostpolicy.rs:450-453). It is taken down as it is if and only if it is positive
  and fits; for every rule, one made by hand included, there is a larger answer that makes the agent remember that
  rule (`HostPolicy.RecordedIff`). That answers fit is therefore an assumption of `HostPolicy.Run`.
- A policy whose save failed stays in memory. Sent again with the same revision it is reported as applied although the
  file does not hold it, if and only if nothing else had to be saved (`HostPolicy.Agent.Apply`, src/hostpolicy.rs:218-241).
- Charts are said to have at most 360 points (src/history.rs:7). Over raw samples that holds, whenever they were taken,
  if and only if the range is at most 359 minutes (`History.CapHoldsIff`); no chart has more than 367
  (`History.PointsBounded`).
- For prefixes longer than /112 the IPv6 gateway falls back to the host's address, which a container may be
  given too (`Allocator.GatewayIff`).
- A command whose task panics stays "running" in the cache: it is never executed again and never answered
  (`Commands.EndsLost`, `Commands.LostForever`).
- A sample may come too late. Recording it keeps the agreement of rollups and log, whatever it holds, if and only if
  it is past every rollup and its bucket was not folded (`History.TimelyIff`); a stored rollup may come to disagree
  if and only if its bucket has one (`History.AgreeIff`), and otherwise the sample is lost (`History.LateLost`). Within
  the retention of rollups the condition is that the sample is not before the boundary, and a sample of the current
  bucket always meets it (`History.TimelyGuard`). `History.LateRun` reaches a disagreement.

## Assumptions

- Connection limits: a rule check answers truthfully, a failed command has no effect, the file is replaced
  atomically, the clock does not go back. One lookup serves a whole reconciliation, so two policies of one instance
  see the same target.
- Host firewall: a created rule gets a positive 32-bit id never used before and is listed as one that matches; a
  deletion affects only its id. `quiet` marks runs in which nobody else edits the table; safety does not depend on it. The standard
  library's address parsing and printing is a parameter; what is printed is parsed back.
- Commands: the two maps are updated under their mutexes, so each critical section is one step.
- Metrics: floating point is `real`. Neither the times of samples nor those of maintenance are restricted; buckets
  spoiled by late samples are tracked and exempt from the agreement, all others are not affected.
- Allocation: the number of IPv6 addresses per container is fixed between 1 and 15 and database writes succeed.

## Model

| member | source | states |
|---|---|---|
| Calendar.DaysFromCivilCounts | src/traffic.rs:152-160 | the closed form equals a recursive day count with the 4/100/400 leap rule, for every year and month |
| Calendar.YearStartIsClosed | src/traffic.rs:152-160 | the recursive count of days to 1 January of any year, before or after 1970, is the closed form's |
| Calendar.CivilParts | src/traffic.rs:138-149 | the era arithmetic splits every day number into era, year of era and day of year, with a 366th day only in leap years |
| Calendar.DaysRoundTrip | src/traffic.rs:138-160 | every integer day number yields a valid date and is recovered from it |
| Calendar.DateRoundTrip | src/traffic.rs:138-160 | every valid date is recovered from its day number |
| Calendar.DaysMonotone | src/traffic.rs:152-160 | a later date has a larger day number |
| Calendar.OrderPreserved | src/traffic.rs:138-149 | day numbers and dates are ordered alike, both ways |
| Schedule.StartInMonth | src/traffic.rs:98-102 | a clamped period start lies inside its own month |
| Schedule.PeriodLength | src/traffic.rs:98-102 | consecutive periods start 28 to 31 days apart |
| Schedule.StartsGrow | src/traffic.rs:98-102 | periods of later months start no earlier than the end of earlier ones |
| Schedule.PeriodHolds | src/traffic.rs:105-116 | the computed period's start-to-start interval holds the moment |
| Schedule.PeriodUnique | src/traffic.rs:105-116 | no two periods hold one moment |
| Schedule.PeriodIff | src/traffic.rs:105-123 | the period of a moment is exactly the month whose interval holds it |
| Schedule.ResetBounds | src/traffic.rs:126-130 | the next reset is ahead by at most 31 days, starts the following period, and the clamp to 0 is not used |
| Schedule.PeriodsTile | src/traffic.rs:85-135 | periods tile time: the period is the current one exactly from its start up to the reset, and the following one at the reset |
| Schedule.DayZeroReset | src/traffic.rs:85-102 | with reset day 0 the reset of a 31 January is that very moment |
| Schedule.ResetsAheadIff | src/traffic.rs:85-130 | resets lie ahead of every moment if and only if the anchor names a real day |
| Schedule.ResetsOnAnchor | src/traffic.rs:77-130 | every reset falls on the anchor's day, or the last day of a shorter month, at the anchor's second of the local day: local midnight of the reset day for a fixed schedule |
| Schedule.CreationStarts | src/traffic.rs:85-123 | with creation anniversaries a period starts at the creation itself |
| Schedule.EastIsEarlier | src/traffic.rs:77-130 | d minutes further east a fixed reset comes d minutes earlier |
| Traffic.Accumulator.Update | src/traffic.rs:26-43 | the new counters are the fold of the sample into the old ones |
| Traffic.Replay | src/traffic.rs:26-43 | a history fed through one accumulator ends in the fold of all its samples |
| Traffic.TotalsAreRunTops | src/traffic.rs:26-43 | each total is the sum of the last values of the maximal same-interface non-decreasing runs |
| Traffic.MonthsConserve | src/traffic.rs:26-43 | each total is the sum of all closed month counters and the current one |
| Traffic.MonthIsGain | src/traffic.rs:26-52 | the month counters are what the totals gained since the period began |
| Traffic.MonthAfter | src/traffic.rs:46-52 | a reader gets what came in and went out, in that order, since the period began, and zero for any other period |
| Connlimit.ValidateIPs | firewall/connlimit/connlimit_linux.go:379-395 | accepted if and only if every address parses and is global; the result is the set of unmapped addresses, each once |
| Connlimit.ValidatePolicy | firewall/connlimit/connlimit_linux.go:358-377 | accepted if and only if id, name, limit of 100 to 10000, lease of 60 to 3600 s and addresses are valid |
| Connlimit.FamilyIff | firewall/connlimit/connlimit_linux.go:379-424 | rules for IPv4-mapped addresses go to the IPv4 tables, only genuine IPv6 to the others |
| Connlimit.ReplacePolicy | firewall/connlimit/connlimit_linux.go:348-356 | exactly the record with that id changes |
| Connlimit.RemovePolicy | firewall/connlimit/connlimit_linux.go:581-589 | the list without the policies of that id |
| Connlimit.Host.Load | firewall/connlimit/connlimit_linux.go:534-547 | a successful load is what the disk holds |
| Connlimit.Host.Save | firewall/connlimit/connlimit_linux.go:549-579 | the file is the old or the new list, the new one if reported saved |
| Connlimit.Host.EnsureChain | firewall/connlimit/connlimit_linux.go:426-439 | on success the chain exists and is jumped to; a new jump has its chain; nothing is taken away |
| Connlimit.Host.RemoveRules | firewall/connlimit/connlimit_linux.go:441-464 | removes only rules of the policy's addresses as written, and on success all of them |
| Connlimit.Host.InstallRules | firewall/connlimit/connlimit_linux.go:397-424 | adds only rules of the policy's targets, and on success all of them, with their jumps |
| Connlimit.Host.Retire | firewall/connlimit/connlimit_linux.go:320-346 | stops in one of three stages: untouched, intent on disk and some rules gone, policy and removable rules gone |
| Connlimit.RetireGood | firewall/connlimit/connlimit_linux.go:320-346 | in whatever stage a retirement stops, every rule still has its policy on disk |
| Connlimit.RetireResult | firewall/connlimit/connlimit_linux.go:320-346 | what each result of a retirement leaves on disk; an unsaved intent leaves the policy unmarked |
| Connlimit.Host.Apply | firewall/connlimit/connlimit_linux.go:74-117 | keeps the state good; done means on disk, installed and scheduled, and for a new lease that no other of its instance is running; each refusal has its reason and changes nothing; an existing lease is completed only for the same terms; a failed activation is withdrawn as its result says |
| Connlimit.Host.Place | firewall/connlimit/connlimit_linux.go:85-104 | finds the lease of that id if its terms agree, otherwise a new place only when none of that instance is running, otherwise refuses with the reason |
| Connlimit.Host.Complete | firewall/connlimit/connlimit_linux.go:86-100 | completing an existing lease installs and schedules it, or withdraws it |
| Connlimit.Host.Begin | firewall/connlimit/connlimit_linux.go:105-116 | a new lease is written before its rules are installed |
| Connlimit.Host.Release | firewall/connlimit/connlimit_linux.go:119-158 | refuses exactly malformed requests, and another vm or instance than the lease names; done means the policy is gone from disk, its timer stopped and, from a good state, no rule of that id left |
| Connlimit.Host.Expire | firewall/connlimit/connlimit_linux.go:161-189 | the same for the expiry timer's call |
| Connlimit.Host.Suspend | firewall/connlimit/connlimit_linux.go:263-283 | an instance stopped or without usable addresses ends without rules, unless reported failed |
| Connlimit.Host.Refresh | firewall/connlimit/connlimit_linux.go:284-312 | a running instance ends with exactly the rules of its current addresses, or the failure is reported |
| Connlimit.Host.ReconcileOne | firewall/connlimit/connlimit_linux.go:203-312 | one round touches only its policy's rules; if the index stays, the list shrinks or the policy becomes newly marked |
| Connlimit.Host.Reconcile | firewall/connlimit/connlimit_linux.go:194-315 | terminates, stays good and makes no lease up whatever fails; without failure the chain is exactly the rules of the surviving leases at current addresses, which are on record and scheduled, and every dropped lease had ended |
| Connlimit.EndTally | firewall/connlimit/connlimit_linux.go:203-315 | a finished pass, read off by id: the chain equals the survivors' rules, both ways |
| Connlimit.GoodHasNoOrphans | firewall/connlimit/connlimit_linux.go:74-346 | in a good state each rule has a policy on disk with its id, limit and address |
| Connlimit.Run | firewall/connlimit/connlimit_linux.go:74-346 | in any run of the operations, with any failures, crashes, restarts and reboots, no rule is orphaned, no instance has two running leases, and limits and times are within bounds |
| Connlimit.ApplyThenRelease | firewall/connlimit/connlimit_linux.go:74-158 | applying and releasing a lease on an empty host empties the chain if and only if its addresses are removable |
| Connlimit.PlainIsRemovable | firewall/connlimit/connlimit_linux.go:441-464 | addresses without padding and not IPv4-mapped are removable |
| Connlimit.PaddedAndMappedLeak | firewall/connlimit/connlimit_linux.go:379-464 | padded and IPv4-mapped addresses are not |
| RfwRules.EchoMatches | src/hostpolicy.rs:711-761 | a rule listed as sent is recognised if and only if a CIDR carries no surrounding space |
| RfwRules.OmittedEndPort | src/hostpolicy.rs:463-475 | the row the agent builds for a created rule is recognised if and only if the rule names an end port or starts at 0, and its CIDR is trimmed |
| RfwRules.FingerprintDecides | src/hostpolicy.rs:711-761 | rules with equal fingerprints are matched by the same listings |
| RfwRules.SettledReadsInSync | src/hostpolicy.rs:258-335 | one owned matching live rule per desired key reads back in sync |
| RfwRules.KeepsFirst | src/hostpolicy.rs:427-440 | when readback finds all desired rules in sync, reconciliation keeps the first owner of each key |
| RfwRules.InSyncIsIdleIff | src/hostpolicy.rs:258-335 | an in-sync readback means no request is due if and only if no two live owned rules share a key |
| RfwRules.DuplicateReadsInSync | src/hostpolicy.rs:258-335 | a live owned duplicate reads in sync and is still due for deletion |
| RfwRules.RowSyncMeans | src/hostpolicy.rs:285-306 | a listed rule is manual, orphaned, in sync or drifted by who remembers it, what is asked for now and whether it matches |
| RfwRules.WantSyncMeans | src/hostpolicy.rs:307-333 | a desired rule is missing, in sync or drifted by the first owner of its key |
| Normalize.ShownParses | src/hostpolicy.rs:1063-1097 | a printed network is parsed back and has nothing to trim |
| Normalize.NormalCidrMeans | src/hostpolicy.rs:1063-1097 | CIDR normalisation is idempotent and keeps the set of addresses meant |
| Normalize.CollectedMeans | src/hostpolicy.rs:653-667 | the stored country codes are those asked for, trimmed and in upper case, each once and in order |
| Normalize.CodesRanked | src/hostpolicy.rs:657-666 | codes are two capital letters, kept in the order of the first and then the second |
| Normalize.NormalIsNormal | src/hostpolicy.rs:598-670 | normalising gives a rule in normal form for the same key |
| Normalize.NormalIffFixed | src/hostpolicy.rs:598-670 | the rules normalisation leaves alone are exactly those in normal form |
| Normalize.NormalIsRecognised | src/hostpolicy.rs:593-761 | a normal rule listed as sent is recognised |
| Normalize.RecognisedIff | src/hostpolicy.rs:711-761 | a listing is recognised as a normal rule if and only if it says the same in every field: one edited by hand is not |
| Normalize.NormalKeeps | src/hostpolicy.rs:598-670 | normalising keeps key, priority, direction, action, state, ports and the addresses or countries meant |
| Normalize.AcceptedIff | src/hostpolicy.rs:598-670 | a rule is accepted if and only if every field is in its range |
| Normalize.KeyIff | src/hostpolicy.rs:599-608 | keys are 1 to 80 letters, digits, dashes and underscores |
| Normalize.NormalizePolicy | src/hostpolicy.rs:593-670 | accepts exactly lists of at most 64 valid rules with distinct valid keys, and normalises each |
| Normalize.PolicyIsNormal | src/hostpolicy.rs:593-670 | an accepted policy comes out normal with distinct keys and is its own normal form |
| HostPolicy.Agent.List | src/hostpolicy.rs:503-517 | a listing is the table, and is given if and only if RFW answers with at most 256 rows of positive ids |
| HostPolicy.Agent.CheckProtocols | src/hostpolicy.rs:417-424 | passes if and only if every protocol is reported as supported, or, without a report, none is mtproto |
| HostPolicy.Agent.Load | src/hostpolicy.rs:1001-1026 | a file is accepted if and only if its policy and its ownership entries are valid, and its rules are normalised again |
| HostPolicy.Agent.Restart | src/hostpolicy.rs:1001-1026 | what the agent stores always loads unchanged; exactly the rules it had not stored become strays |
| HostPolicy.Agent.Establish | src/hostpolicy.rs:427-477 | only creates; keeps rules already serving; afterwards every desired rule has a selected, owned, live match; adds strays only if it fails |
| HostPolicy.Agent.Post | src/hostpolicy.rs:441-456 | a request creates at most one rule under a new id; the answer names it or is lost |
| HostPolicy.RecordedIff | src/hostpolicy.rs:450-456 | an answered id is taken down as it is if and only if it is positive and fits 32 bits; a larger one may name any other rule |
| HostPolicy.Agent.Create | src/hostpolicy.rs:441-476 | one request; an answered rule is remembered at once, an unanswered one is a stray |
| HostPolicy.Agent.Prune | src/hostpolicy.rs:478-499 | deletes and forgets exactly the remembered rules not selected, and none of the selected |
| HostPolicy.Agent.ReconcileRfw | src/hostpolicy.rs:413-501 | undisturbed success leaves one owned live rule per key that says what is asked, unowned rules untouched, serving rules in place; at each deletion every desired rule has another live match; nothing is sent for an unsupported protocol; silent exactly when idle; strays come only from its own requests and only if it fails |
| HostPolicy.Agent.Apply | src/hostpolicy.rs:218-241 | rejects exactly unacceptable, stale and silently changed policies, changing nothing; any other is in memory in its normal form from then on, and on disk once saved; a repeated one that succeeds is on disk if and only if it was before or something had to be saved |
| HostPolicy.Agent.Reconcile | src/hostpolicy.rs:243-256 | before the first policy it succeeds and changes nothing, otherwise it reconciles the stored rules |
| HostPolicy.Agent.CompareRows | src/hostpolicy.rs:285-306 | each listed rule is classified, and owned and drifted ones are counted exactly |
| HostPolicy.Agent.CompareWants | src/hostpolicy.rs:307-333 | each desired rule is classified, and drifted and missing ones are counted exactly |
| HostPolicy.Agent.Readback | src/hostpolicy.rs:258-335 | the report classifies all rules, its counts are exact, and it says in sync if and only if nothing drifted or is missing; then every desired rule has a live owned rule that says the same |
| HostPolicy.InSyncSays | src/hostpolicy.rs:258-335 | what reads in sync says in every field what is asked for |
| HostPolicy.SameReadbackIff | src/hostpolicy.rs:763-795 | a rule passes as the one shown if and only if it is shown alike; then both mean the same |
| HostPolicy.Agent.DeleteManual | src/hostpolicy.rs:337-363 | refuses exactly what is not shown as manual, is owned, cannot be listed or is listed otherwise than shown; a deletion is asked for exactly of the rest; success means the rule is gone |
| HostPolicy.Agent.ReconcileThenReadback | src/hostpolicy.rs:258-501 | after an undisturbed successful reconciliation a readback reports in sync with nothing missing |
| HostPolicy.Agent.ReadbackThenReconcile | src/hostpolicy.rs:258-501 | after an in-sync readback a reconciliation sends nothing, given unique live keys, and only then |
| HostPolicy.Run | src/hostpolicy.rs:413-501 | in every run, with others editing and anything failing, only ids granted to this agent are deleted, never a manual rule's; its live rules are remembered or strays, and each stray was created by an operation that reported failure |
| Commands.CollectedTable | src/platform/commands.rs:185-194 | dropping table entries with one owner never drops a lock some task holds or awaits |
| Commands.LocksStep | src/platform/commands.rs:112-194 | every step keeps counts exact, each referred lock in the table, and each held lock with one holder |
| Commands.LocksAlways | src/platform/commands.rs:112-194 | that holds after every run |
| Commands.MutualExclusion | src/platform/commands.rs:112-155 | in every interleaving at most one command per instance is inside, and all its waiters wait for that lock |
| Commands.PrunedTracked | src/platform/commands.rs:197-204 | pruning forgets only results that have lived their time |
| Commands.CacheAlways | src/platform/commands.rs:49-83 | after every run the cache says of each command what its history says |
| Commands.NoOverlap | src/platform/commands.rs:49-83 | executions of a named command never overlap |
| Commands.ExecutionsSpaced | src/platform/commands.rs:49-83 | between two executions a result was cached, and the second starts 3600 s or more after every earlier result |
| Commands.ReplaysFaithful | src/platform/commands.rs:49-68 | a replay repeats the result of the last execution |
| Commands.ReplayBeforeExpiry | src/platform/commands.rs:49-68 | before its time is over a result is replayed and nothing starts; a running command's replay is ignored |
| Commands.EndsLost | src/platform/commands.rs:70-82 | a named command whose task ends stays running in the cache if and only if it ends without storing a result |
| Commands.LostForever | src/platform/commands.rs:49-68 | such a command is never started, cached or replayed again in any continuation |
| Commands.Runner.Prune | src/platform/commands.rs:197-204 | keeps running entries and unexpired results, once the cache has reached 1024 entries |
| Commands.Runner.Submit | src/platform/commands.rs:49-71 | ignores, replays or starts as the state machine does |
| Commands.Runner.Collect | src/platform/commands.rs:188-190 | drops and frees exactly the locks only the table owns, past 1024 entries |
| Commands.Runner.TakeRef | src/platform/commands.rs:185-192 | takes a reference to the instance's lock, entering one if missing |
| Commands.Runner.Store | src/platform/commands.rs:73-78 | caches the reply of a named command |
| Commands.PruneLimits | src/platform/commands.rs:197-204 | below 1024 entries nothing is pruned; beyond, only running commands and unexpired results are left |
| Commands.RetainLimits | src/platform/commands.rs:188-190 | up to 1024 locks all stay; beyond, only those tasks refer to |
| Executions.TasksLive | src/platform/commands.rs:49-155 | every task of every run was started by a submission of its command for its instance, and a lifecycle command with a result got it inside its instance's lock |
| Executions.SectionsApart | src/platform/commands.rs:112-155 | two lifecycle commands of one instance do their work one after the other |
| Executions.EventsCaused | src/platform/commands.rs:49-83 | every start, cached result and replay has the step that caused it |
| Executions.ResultsGenuine | src/platform/commands.rs:70-155 | every cached result is that of a task of that command, obtained inside its instance's lock, or without one if it has no instance |
| Executions.SubmissionStarts | src/platform/commands.rs:49-71 | a submission starts a task for its command and instance unless the cache answers it |
| Executions.VacantAdmits | src/platform/commands.rs:185-194 | a waiting command can enter if and only if nobody is inside for its instance |
| Executions.InsideCompletes | src/platform/commands.rs:70-155 | a command inside its lock that completes is answered with its result |
| Executions.FreeCompletes | src/platform/commands.rs:70-155 | so is a command that takes no lock |
| Executions.LifecycleCompletes | src/platform/commands.rs:70-194 | a lifecycle command of a free instance runs through to its answer |
| History.PeakMeans | src/history.rs:171-180 | a peak is attained and exceeded by no value, ignoring NULL |
| History.AvgBelowPeak | src/history.rs:171-180 | an average exists exactly when the peak does and never exceeds it |
| History.ColumnsMean | src/history.rs:171-180 | column by column a rollup is the mean or the peak of that column, told by deviations and bounds; memory is cut down to a whole number |
| History.SingleSample | src/history.rs:171-180 | the rollup of one sample is that sample, column by column |
| History.AvgCombines | src/history.rs:171-180 | an average over more rows weighs the averages by their counts |
| History.FoldedRows | src/history.rs:163-180 | the rows folded into a new rollup are all that was logged in its bucket |
| History.FreshGroup | src/history.rs:163-180 | a bucket is folded once |
| History.FoldedInv | src/history.rs:163-180 | folding, at any time, keeps every rollup equal to the aggregate of the log and leaves nothing before the current bucket unfolded |
| History.TrimmedInv | src/history.rs:181-184 | no sample is expired before it is folded |
| History.ExpiredInv | src/history.rs:185-188 | expiring rollups leaves no sample that could be folded again |
| History.RollupsDetermined | src/history.rs:163-190 | after maintenance the rollups are those of the whole log computed anew |
| History.MaintainedMeans | src/history.rs:163-190 | after maintenance exactly the samples of the last two days are left, and rollups exactly for the closed buckets of the last thirty |
| History.MaintenanceIsIdle | src/history.rs:163-190 | maintenance leaves itself nothing to do at that time, whatever the tables held |
| History.NothingToDo | src/history.rs:163-190 | idle maintenance folds and expires nothing |
| History.TimelyIff | src/history.rs:129-180 | recording a sample keeps the invariant, whatever it holds, if and only if it is past every rollup and its bucket was not folded |
| History.AgreeIff | src/history.rs:129-180 | all stored rollups survive any sample for a key if and only if its bucket has none |
| History.LateLost | src/history.rs:165-180 | a late sample of a bucket not folded gets no rollup at any time while the boundary stands |
| History.TimelyGuard | src/history.rs:165-180 | samples of the current bucket are timely, and within retention exactly those not before the boundary |
| History.LateDisagrees | src/history.rs:129-180 | a late sample above its bucket's stored peak makes the rollup wrong |
| History.LateRun | src/history.rs:129-190 | a run of record, maintain and a late record ends in a disagreement |
| History.ForgottenInv | src/history.rs:192-197 | forgetting an instance keeps the agreement for all others, though the boundary may fall back |
| History.HalfForgottenInv | src/history.rs:192-197 | so does a forgetting that stops after the first deletion, with the instance's own buckets given up |
| History.PeakOfPeaks | src/history.rs:206-219 | the maximum of stored peaks over any buckets is the maximum of everything logged in them |
| History.PointsPartition | src/history.rs:219-224 | each row of the range is in the one point whose interval holds it |
| History.CapHoldsIff | src/history.rs:206-224 | charts of raw samples keep to 360 points if and only if the range is at most 359 minutes |
| History.PointsBounded | src/history.rs:206-224 | no chart has more than 367 points |
| History.AppendedMeans | src/history.rs:129-160 | of a batch's samples of one key the last stays; other keys keep what they had |
| History.Store.Record | src/history.rs:129-160 | all of a batch, of any times, is recorded or none; exactly the buckets it comes too late for are spoiled |
| History.Store.Boundary | src/history.rs:166-170 | the end of the latest rollup of any instance, 0 without one |
| History.Store.Maintain | src/history.rs:163-190 | at any time and with a failure at any statement no unfolded sample of an unspoiled bucket goes; success at a time not before earlier ones makes both tables, outside spoiled buckets, a function of log and time; repeating it changes nothing |
| History.Store.Forget | src/history.rs:192-197 | success removes exactly that instance from both tables; a failure removes nothing or its samples only |
| History.Store.ChartPeaks | src/history.rs:200-254 | refused exactly for ranges outside 1 s to 30 days; the peaks are the maxima of the raw samples, or beyond two days of all samples logged in the point's buckets |
| History.Run | src/history.rs:129-197 | after every run, with any times and failures, each rollup is the aggregate of all that was logged in its bucket, except in buckets given a sample from before the bucket current at the latest maintenance or of an instance whose forgetting reported failure |
| History.LateIsOld | src/history.rs:129-180 | a batch comes too late only for buckets it has a sample in from before the current one |
| RequestReader.ScanHeadOutcome | src/controlapi.rs:732-753 | reading chunks until a blank line gives the outcome of the whole stream, or, only below a body limit of 4095, a refusal for size |
| RequestReader.ScanBodyOutcome | src/controlapi.rs:780-789 | reading on gives the announced bytes; the trailing-data guard never fires |
| RequestReader.StreamedIsWhole | src/controlapi.rs:732-795 | for every limit and cut the result or error is that of the whole-stream parser, or, only below 4095, a refusal for size |
| RequestReader.SmallLimitCuts | src/controlapi.rs:732-753 | below that limit two cuts of one stream get different errors |
| RequestReader.CutIndependentIff | src/controlapi.rs:732-795 | the outcome depends on the byte stream alone if and only if the body limit is at least 4095 |
| RequestReader.AnnouncedMeaning | src/controlapi.rs:757-776 | framing as in section 6.3 of RFC 9112: a length is taken if and only if exactly one line announces it; transfer encodings, repeats and malformed lines are rejected |
| RequestReader.LengthIsStandardIff | src/controlapi.rs:769-774 | an accepted length is digits between blanks if and only if it holds no plus and no other white space |
| RequestReader.StandardLengthIsRead | src/controlapi.rs:769-774 | every length of the grammar is a numeral after zeros, read as its number if that fits a machine word and refused otherwise |
| RequestReader.LooseLengths | src/controlapi.rs:769-774 | every length is also accepted after a plus and after any white space |
| RequestReader.ReadHeaders | src/controlapi.rs:757-776 | the header loop computes the announced length or its error |
| RequestReader.ReadRequest | src/controlapi.rs:732-795 | the reader returns what the whole-stream parser returns, or, only below a body limit of 4095, refuses for size |
| Framing.DecodeIff | src/controlapi.rs:754 | bytes are decoded to a text if and only if they are its UTF-8 encoding |
| Framing.LinesIff | src/controlapi.rs:755 | the lines of the head are exactly the texts without CR LF that join to it |
| Framing.RequestLineIff | src/controlapi.rs:797-806 | the first line gives method and target if and only if it is those two words and HTTP/1.0 or 1.1, in that order, with white space between and around |
| Framing.HeadRead | src/controlapi.rs:754-776 | a head written out from method, target and fields is read as these with length n if and only if its fields announce n |
| Framing.HeadEnds | src/controlapi.rs:735-738 | such a head ends at the first blank line of the stream |
| Framing.RequestRead | src/controlapi.rs:732-795 | a request written out is read as its method, target and announced bytes, or refused by exactly the bound it exceeds |
| Framing.RequestRefused | src/controlapi.rs:757-776 | one whose fields announce no single length is refused |
| Framing.ReadRendered | src/controlapi.rs:732-795 | the reader does so for every cut of the bytes |
| Ipv6.RippleByte | manager/incus/incus.go:924-939 | one byte of the carry loop keeps value plus weighted carry |
| Ipv6.AddOffset | manager/incus/incus.go:924-939 | exact 128-bit addition, refused exactly for IPv4 or when the sum reaches 2^128 |
| Ipv6.ValueInjective | manager/incus/incus.go:924-939 | addresses with equal values are equal |
| Allocator.ComputeIPs | manager/incus/incus.go:864-900 | the IPv4 address and the whole IPv6 block of an index, or no IPv6 when the block does not fit |
| Allocator.BlocksContiguous | manager/incus/incus.go:876-895 | blocks follow each other without a gap, in a prefix from offset 2 on |
| Allocator.Gateway | manager/incus/incus.go:902-919 | offset 0xffff of the prefix where it has one, otherwise the fallback |
| Allocator.OffsetBound | manager/incus/incus.go:864-919 | all container offsets stay below 0xffff |
| Allocator.Manager.NextIdx | db/db.go:512-529 | the least unused index from 2 to 4094, none exactly when all are used |
| Allocator.Manager.Create | manager/incus/incus.go:136-166 | replaces any container of that name by one with the least free index and changes no other; succeeds if and only if the instance can be built, an index is free and, where only IPv6 is used, its block fits |
| Allocator.Manager.Delete | manager/incus/incus.go:495-516 | exactly that row goes |
| Allocator.Manager.Reinstall | manager/incus/incus.go:118-132 | like delete and create, with no other row changed and the same condition |
| Allocator.RowsDisjoint | manager/incus/incus.go:864-900 | rows with different indices share no address; IPv4 stays inside 10.91.0.0/20 and off the bridge |
| Allocator.Run | manager/incus/incus.go:118-166 | after every run no two containers share an index or an address, IPv4 stays inside 10.91.0.0/20 and off the bridge, and no container has a gateway clear of the pool |
| Allocator.GatewayIff | manager/incus/incus.go:864-919 | no container gets the gateway's address if and only if the configuration is clear of it: always in SNAT mode and for prefixes up to /112 |
| Allocator.GatewayHit | manager/incus/incus.go:902-919 | otherwise some index is given it |
| IpLimiter.Limiter.SetLimit | manager/portforward/portforward.go:176-197 | refuses exactly negative limits; changes only that instance's effective limit |
| IpLimiter.Limiter.TryAcquire | manager/portforward/portforward.go:208-223 | admits exactly known sources, unlimited instances and those below the limit; counts stay exact |
| IpLimiter.Limiter.Release | manager/portforward/portforward.go:225-240 | one connection less, with no empty entries left |
| IpLimiter.AcquiredMeans | manager/portforward/portforward.go:208-223 | one count goes up by one and the number of sources only for a new one |
| IpLimiter.ReleasedMeans | manager/portforward/portforward.go:225-240 | one positive count goes down by one and emptied entries go |
| IpLimiter.Interleave | manager/portforward/portforward.go:153-240 | any interleaving, with limits changed at any time, has exactly the open connections and limits of a plain account of its steps, and never more sources than the largest limit a handler was given |
| IpLimiter.AccountBounded | manager/portforward/portforward.go:208-240 | in that account the open sources of an instance never exceed the largest limit read for it |
| IpLimiter.ConstantLimit | manager/portforward/portforward.go:153-197 | an instance kept at a limit of its own, or at the global one, is within it |

## Left out

- Integer widths: counters, seconds and day numbers are unbounded; 64-bit overflow in src/traffic.rs is not modelled.
- History.Store.ChartPeaks: averages of chart points are not modelled; averages of rollups are not averages of samples.
- Allocator.Gateway: addresses are numbers; their text form and the interface lookup behind the fallback are not modelled.
- RequestReader.ReadRequest: socket errors are not modelled, only the end of the stream.
- Connlimit.Host.Apply: the check of an instance identity is a parameter, as it is a library's.
- Connlimit.ValidateIPs: the sort order of the result is not modelled; addresses are parsed values.
- HostPolicy.Agent.Load: that the policy repeats the file's revision is not modelled; the state has one revision.
- Normalize.NormalizePolicy: the abuse part of a policy is not modelled.
- HostPolicy.Agent.Apply: the abuse part of a policy, the bridge check and the iptables scripting behind it are not modelled.
- Commands.MutualExclusion: fairness and the sending of replies are not modelled; a process restart, which empties the cache, starts a new run.
- Liveness: no claim that an operation eventually succeeds is made.
- `src/connlimit.rs` and `firewall/hostpolicy/policy.go`, twins of the two reconcilers; the former needs a weaker fault model.
- `usage` in src/history.rs and `events` in src/hostpolicy.rs, plain queries.
- Drivers (`src/runtime`, `manager/cloudhv`, `manager/podman`, `manager/wgbind`, `ndp`), the web interface, the console, updaters and JSON or TOML encoding.
- Contents of the port-forward table after a synchronisation, which the code leaves unreconciled on purpose.
