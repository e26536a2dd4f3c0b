# QuinnAI in Dafny

A model of the parts of QuinnAI whose correctness is not visible from reading one function:
protocols that run over time, a printer and its parser, guarded state machines with
rollback, and a few loops whose results have exact characterisations. Each file is one
module. `Basics`, `Wrappers` and `Text` are shared, `MissionReader` builds on `Briefing`, and
`BeadGuard`, `BuiltInTables` and `ConfiguredGuard` on `Lifecycle`. `dafny verify dfyconfig.toml` checks the
whole project.

| file | models |
|---|---|
| `Continuation.dfy` | the continuation engine: graduated prompts to idle workers, rate-limited by a memory of past prompts |
| `Briefing.dfy`, `Text.dfy` | the CEO briefing's markdown printer and parser |
| `MissionReader.dfy` | the reader that takes the org's mission from the same file |
| `Lifecycle.dfy` | the prioritised, partly cached lookup of a bead type's lifecycle configuration |
| `BeadGuard.dfy` | the lifecycle guard in front of the bead tracker, over runs of commands |
| `BuiltInTables.dfy` | the built-in lifecycle tables, and what they let a bead do |
| `ConfiguredGuard.dfy` | the same guard while its configuration is changed, cached and re-read |
| `OrgChart.dfy` | the recursive walk that regenerates the org chart |
| `OrgStart.dfy` | starting and stopping an org, with a failure possible at every step |
| `Escalation.dfy` | the escalation monitor's per-worker state machine |
| `Flags.dfy` | taking `--justify` and `--override` out of a command line |
| `Retry.dfy` | provider calls with backoff, and opening a locked database |
| `BeadsDir.dfy` | the walk to the nearest `.beads` directory |
| `Subscriptions.dfy` | the board's update subscriptions |
| `Basics.dfy`, `Wrappers.dfy` | worker ids and times; optional values and results |

The pattern is the same throughout. Code that changes state is a class whose methods are
proved to compute a specification function of the old state; the theorems are about that
function, over every input or every run. Constants and literals of the source are pinned by
theorems that spell them out, in minutes, headings or names, without the model's own functions.

## Modelling decisions

- Times are integers in microseconds. A check of the continuation engine reads the clock
  three times and sends in between; all four instants are kept apart, and the clock is only
  assumed never to run backwards.
- A prompt counts as sent when it is attempted: the engine ignores the prompter's result and
  records the attempt. An escalation is an event; nothing is claimed about a bead existing
  afterwards.
- A check that raises records nothing and ends its poll; a run of the engine is the sequence
  of checks that were completed.
- The bead tracker is a store: an accepted update sets the status, an accepted close sets it
  to "closed", a command on an unknown bead changes nothing. Whatever a YAML file, a database
  row, a clock, a random number or a call outside the repository yields is a parameter.
- Reading a text file turns a carriage return, with a newline right after it, into a newline.
  The mission reader is modelled from the contents of the file, with that translation.
- `str.strip` is modelled with Python's full set of white-space characters. Lower-casing is
  ASCII only, which decides membership in the list of closed statuses exactly.
- In the org model each read, write, event publication, message to the terminal and call that
  can raise is a named step, and a start or stop carries the set of steps that do. The worker object's own copy of
  the CEO's lifecycle is part of the model, because the handler looks at that copy. Logging is
  not a step: the handlers the repository installs report their own errors and do not raise.
- A save of a lifecycle configuration can fail before it writes, fail after the commit, or
  complete; only a completed one clears the cache.

## Where the code differs from what is written about it

- `cli/core/lifecycle.py:107-110` announces the database as the highest priority. A database row
  for "default" is consulted only after the YAML file's own default: exactly when it counts is
  `Lifecycle.DefaultRowCounts`, an input where it does not is
  `Lifecycle.YamlDefaultBeatsSavedDefault`.
- `cli/core/lifecycle.py:608` clears the cache so that the next read is up to date. A save that
  raises does not get there and leaves a stale cache in place (`Lifecycle.FailedSaveKeepsCache`);
  exactly when an edit of the YAML file is seen is `Lifecycle.EditIsSeenExactly`.
- `cli/core/lifecycle.py:66-70` announces the defaults for a malformed YAML file. A YAML syntax
  error is none of the errors caught there: the lookup raises
  (`Lifecycle.LifecycleModule.GetLifecycleForType` on `Malformed`), and a guarded command that
  needs it is stopped (`ConfiguredGuard.RaisingLookupRefuses`).
- `cli/core/bd_wrapper.py:229` says that a dependency that cannot be looked up is taken to
  block. It is not: `BeadGuard.UnknownDependencyDoesNotBlock` is a close that goes through, and
  `BeadGuard.CloseAcceptedExactly` says which do.
- `cli/core/org.py:285-290` promises that an org is not left half-activated when the CEO's
  onboarding raises. It is kept exactly under the condition of `OrgStart.FailedTransitionCeo`.
  It fails when publishing the event of the first write raises, since the worker object then
  still holds the old lifecycle, and when the CEO cannot be read twice in a row
  (`OrgStart.HalfActivated`). Events are published only where an event bus has been installed,
  which outside the tests nothing in the repository does.
- A failure after the CEO's activation puts the org status back but not the CEO, and then no
  later start can succeed (`OrgStart.LateFailureIsFatal`, `OrgStart.RunnableExactly`).
- A start whose two reads of the new status both fail leaves the org running with no rollback
  (`OrgStart.UnreadStatusIsNotRolledBack`), and so does a failing chart if the handler cannot
  write its message to the terminal first (`OrgStart.UnreportedFailureIsNotRolledBack`).
  Exactly when the status is put back is `OrgStart.FailedTransitionExactly`.
- A fresh engine's first word to a worker can be an escalation
  (`Continuation.EscalationCanComeFirst`). The graduated sequence is a theorem about engines that
  were already polling, and holds in every run exactly if the polling period and the lag of a
  check together stay within five minutes (`Continuation.RolesGraduatedExactly`).
- The mission reader takes any line starting with "##" for the end of the context and joins
  context sections that follow each other; the parser of the same text knows only its own four
  headings and keeps the last context section. What either reads from any file is
  `MissionReader.MissionOfText` and `MissionReader.ContextAsParsed`; when they agree is
  `MissionReader.MissionAgreesOnText`.
- The walk over the org chart needs no acyclicity: a worker reached from a root without a
  manager cannot lie on a cycle (`OrgChart.PathFits`).

## Model

| member | source | states |
|---|---|---|
| `Continuation.ForWorker` | cli/core/continuation_engine.py:56-91 | every role's thresholds are ordered |
| `Continuation.FreshPoll` | cli/core/continuation_engine.py:56-91 | what a fresh engine sends to a single worker: each prompt type exactly in its range of idle minutes, 15/30/50/60 for a worker without a manager, 10/25/40/45 for one with reports, 5/15/25/30 otherwise |
| `Continuation.FreshPollRaises` | cli/core/continuation_engine.py:193-253 | its check raises iff reading does, or it comes to an escalation that does |
| `Continuation.Engine.ShouldSendPrompt` | cli/core/continuation_engine.py:279-305 | permission is given iff the type was never sent to the worker or at least the gap ago |
| `Continuation.Engine.MarkPromptSent` | cli/core/continuation_engine.py:307-321 | the memory changes at one worker and one type only |
| `Continuation.Engine.CheckWorker` | cli/core/continuation_engine.py:219-277 | a check sends and remembers what the specification says for the old memory; an escalation that raises records nothing |
| `Continuation.Engine.CheckAllWorkers` | cli/core/continuation_engine.py:185-217 | a poll is the run of its rows' checks, in order, from the memory it finds, up to the first that raises |
| `Continuation.PollsCompose` | cli/core/continuation_engine.py:170-183 | consecutive polls are one run, so theorems about runs hold across polls |
| `Continuation.Spacing` | cli/core/continuation_engine.py:246-277 | two prompts of one type to one worker are at least the type's gap apart, from any starting memory |
| `Continuation.RepeatedExactly` | cli/core/continuation_engine.py:246-277 | a second prompt of a type is sent iff 10, 15, 10 or 60 minutes have passed since the first, by type |
| `Continuation.SendsExactlyWhenQuiet` | cli/core/continuation_engine.py:279-321 | a prompt is sent iff it is due and every earlier one of the type to the worker is at least a gap old: the memory stands for the whole history |
| `Continuation.WindowBound` | cli/core/continuation_engine.py:246-277 | any window holds at most floor(length / gap) + 1 prompts of a type to a worker |
| `Continuation.HourlyLimits` | cli/core/continuation_engine.py:249-273 | in less than an hour a worker gets at most 6 soft checks, 4 status requests, 6 final warnings and 1 escalation |
| `Continuation.HeardExactlyWhenChecked` | cli/core/continuation_engine.py:238-277 | a quiet worker has heard a prompt type iff some check of the stretch fell into its idle window clear of older prompts |
| `Continuation.GraduatedEscalation` | cli/core/continuation_engine.py:238-321 | before any escalation of a quiet stretch the engine has sent a soft check, a status request and a final warning in that stretch, in that order |
| `Continuation.QuietWorkerIsEscalated` | cli/core/continuation_engine.py:246-253 | a worker idle past the escalation threshold, and an hour past any older prompt, has been escalated in the same stretch |
| `Continuation.GraduatedExactly` | cli/core/continuation_engine.py:243-305 | for any ordered thresholds the graduated sequence holds in all runs with a given period and lag iff every stage is open, clear of older prompts, for at least a period; the failing runs read no activity newer than the last |
| `Continuation.GraduatedPerRole` | cli/core/constants/messaging.py:127-164 | it holds for the CEO iff the period is at most 10 minutes and period and lag at most 20, for a manager iff at most 5 and 15, for an ordinary worker iff period and lag are at most 5 |
| `Continuation.RolesGraduatedExactly` | cli/core/constants/messaging.py:127-164 | for the three role policies it holds in all runs iff the period and the lag together are at most five minutes |
| `Continuation.EscalationCanComeFirst` | cli/core/continuation_engine.py:246-253 | a fresh engine escalates an idle worker at its first check |
| `Continuation.SeverityNeverDrops` | cli/core/continuation_engine.py:243-277 | within a quiet stretch prompts to a worker never become milder |
| `Continuation.PollOrderIrrelevant` | cli/core/continuation_engine.py:193-214 | permuting a poll's checks, each with its clock readings, changes neither any worker's prompt nor the final memory |
| `Continuation.PollTimingIrrelevant` | cli/core/continuation_engine.py:193-305 | with other readings in another order a worker still gets the same prompt, if over the time of the polls neither its stage nor its rate limit changes |
| `Briefing.ToMarkdown` | board_ui/widgets/ceo_briefing.py:32-48 | the printed text is the sections with content, in order, joined by blank lines |
| `Briefing.FromMarkdown` | board_ui/widgets/ceo_briefing.py:50-84 | the loop computes the parse of the text |
| `Briefing.HeadingSetsField` | board_ui/widgets/ceo_briefing.py:57-82 | each of the four literal headings, followed by any text none of whose lines starts with one of them, sets its own field to the trimmed text and no other |
| `Briefing.OrdinaryLineExactly` | board_ui/widgets/ceo_briefing.py:58-80 | a visible line below "## Context" is context iff it starts with none of the four literal headings |
| `Briefing.PrintedField` | board_ui/widgets/ceo_briefing.py:32-48 | a single field is printed as its literal heading, a blank line and the text |
| `Briefing.PrintedInOrder` | board_ui/widgets/ceo_briefing.py:32-48 | four fields are printed in the order context, requirements, constraints, success criteria |
| `Text.StripsExactly` | board_ui/widgets/ceo_briefing.py:62-82 | the characters that stripping removes, by code point |
| `Briefing.ParseReadsLastText` | board_ui/widgets/ceo_briefing.py:57-82 | each field is the trimmed text under the section's last heading that has lines below it, empty if there is none; text before the first heading is ignored |
| `Briefing.EveryTextDecomposes` | board_ui/widgets/ceo_briefing.py:57-80 | every text is a preface without headings followed by headings with their lines, so the previous row covers every text |
| `Briefing.RoundTripExactly` | board_ui/widgets/ceo_briefing.py:32-84 | printing and parsing gives a briefing back iff its fields are trimmed and none of their lines reads as a heading, empty fields included |
| `Briefing.HeadingInFieldLosesText` | board_ui/widgets/ceo_briefing.py:58-80 | a heading inside a field strictly loses visible characters |
| `Briefing.ScanWeight` | board_ui/widgets/ceo_briefing.py:57-84 | the parser never stores a visible character that was not on an ordinary line |
| `Briefing.ReparseExactly` | board_ui/widgets/ceo_briefing.py:50-84 | for every text, printing and parsing its parse changes nothing iff under each section's deciding heading the first visible line does not read as a heading once left-trimmed |
| `Briefing.ReparseStable` | board_ui/widgets/ceo_briefing.py:50-84 | so it changes nothing whenever no ordinary line of the text reads as a heading once left-trimmed, repeated headings and leading text included |
| `MissionReader.LoadOrgMission` | cli/core/onboarding.py:270-304 | the mission is the joined context lines of the file as read, or the literal default if there are none |
| `Text.ReadEndings` | cli/core/onboarding.py:282-282 | in a file as read every carriage return, with a newline right after it or without, is one newline, and nothing else is changed |
| `MissionReader.NoContextNoMission` | cli/core/onboarding.py:284-298 | the substring test never changes the result |
| `MissionReader.MissionOfPrinted` | cli/core/onboarding.py:282-301 | from any printed file with a context the mission is the context's lines as read, up to the first other heading of level two or deeper, without blank ones and repeated context headings, trimmed and joined by spaces, or the default if none is left |
| `MissionReader.MissionAgreesExactly` | cli/core/onboarding.py:282-301 | the mission is the whole context of the printed briefing iff that has a visible character and, as read, no line starting with "##" |
| `MissionReader.MissionOfText` | cli/core/onboarding.py:282-301 | from any file the mission is the lines below the first context heading and those directly following it, together, up to a line starting with "##" |
| `MissionReader.ContextAsParsed` | board_ui/widgets/ceo_briefing.py:57-82 | the parsed context has the trimmed lines below the last context heading that has any |
| `MissionReader.MissionAgreesOnText` | cli/core/onboarding.py:284-301 | for any file whose last context section is among the first the reader meets: after blank sections only, mission and parsed context agree iff that section is visible and has no line starting with "##"; without such lines, iff it is visible and only blank sections precede it |
| `Lifecycle.LifecycleModule.LoadLifecycleConfig` | cli/core/lifecycle.py:40-70 | a load returns the cached file if there is one; otherwise a missing file reads as empty, a malformed one raises and caches nothing |
| `Lifecycle.LifecycleModule.LoadFromDatabase` | cli/core/lifecycle.py:73-101 | a missing path, database, row or readable JSON yields nothing |
| `Lifecycle.LifecycleModule.GetLifecycleForType` | cli/core/lifecycle.py:104-169 | a lookup is the search over what the cache shows, errors included |
| `Lifecycle.LifecycleModule.SetDatabasePath` | cli/core/lifecycle.py:172-180 | the path changes and the cache is cleared |
| `Lifecycle.LifecycleModule.ClearLifecycleCache` | cli/core/lifecycle.py:183-189 | only the cache changes |
| `Lifecycle.LifecycleModule.SaveLifecycleConfig` | cli/core/lifecycle.py:568-609 | a missing database or a failing write changes nothing; otherwise one row is replaced, and the cache is cleared iff nothing raised |
| `Lifecycle.CacheIsInvisible` | cli/core/lifecycle.py:40-189 | after any interleaving, failed saves included, in which the last YAML edit was followed by an operation that clears the cache, a cached lookup equals the uncached search |
| `Lifecycle.EditIsSeenExactly` | cli/core/lifecycle.py:40-189 | after the last YAML edit of a run lookups of a type are the uncached ones for all new contents iff the database settles the type, nothing was cached, or a later operation reached the clear |
| `Lifecycle.YamlEntryIsSeen` | cli/core/lifecycle.py:126-169 | after an edit that is seen, a type without a usable row gets the file's entry for it, whatever the defaults; else the file's default, else the database's, else the built-in table; a missing file names nothing, a malformed one raises |
| `Lifecycle.StaleUntilCleared` | cli/core/lifecycle.py:46-49 | without the clear every lookup goes on reading the old file |
| `Lifecycle.FailedSaveKeepsCache` | cli/core/lifecycle.py:593-609 | a save to a missing database, or one whose write fails, is no such clear |
| `Lifecycle.SavedIsSeen` | cli/core/lifecycle.py:568-609 | a non-empty configuration written to the current database is what every later lookup of its type resolves, until its row or the database is replaced |
| `Lifecycle.SavedIsUsed` | cli/core/lifecycle.py:118-126 | key by key what that lookup yields: declared states, terminal states, moves and initial state, the first state or "open" for a missing initial one, an error for an empty list of states |
| `Lifecycle.EmptyRowIsIgnored` | cli/core/lifecycle.py:118-120 | a row in which nothing is declared is as good as none |
| `Lifecycle.PathSwitches` | cli/core/lifecycle.py:172-180 | after a switch the rows of the new database are looked up |
| `Lifecycle.DefaultRowCounts` | cli/core/lifecycle.py:128-157 | after a completed save of a default row, a lookup of another type resolves that row iff the YAML file is readable and names neither the type nor a default and the database has no row for the type |
| `Lifecycle.YamlDefaultBeatsSavedDefault` | cli/core/lifecycle.py:138-157 | an input on which the default in the YAML file beats the row just saved |
| `BeadGuard.ValidateTransition` | cli/core/lifecycle.py:421-456 | accepted iff both states are valid and the table lists the move |
| `BeadGuard.ValidateClose` | cli/core/lifecycle.py:459-486 | accepted iff the state is terminal |
| `BeadGuard.GetOpenBlockers` | cli/core/bd_wrapper.py:207-231 | the loop gathers the blocking dependencies in order |
| `BeadGuard.OpenBlockersAre` | cli/core/bd_wrapper.py:221-231 | those are exactly the listed beads on record with an unresolved status |
| `BeadGuard.BlockersInOrder` | cli/core/bd_wrapper.py:221-231 | they are named in the order listed |
| `BeadGuard.ResolvedExactly` | cli/core/bd_wrapper.py:221-228 | a status without capitals is resolved iff it is a terminal state of some built-in table |
| `BeadGuard.ResolvedIgnoresCase` | cli/core/bd_wrapper.py:226-227 | statuses that differ only in case are resolved alike |
| `BeadGuard.CheckLifecycleTransition` | cli/core/bd_wrapper.py:234-291 | an unknown bead or an unchanged status passes; an update is judged by the table, a close by terminal state first and then by its blockers |
| `BeadGuard.CloseAcceptedExactly` | cli/core/bd_wrapper.py:272-283 | a close is accepted iff the state is terminal and every dependency on record is resolved |
| `BeadGuard.CloseRefusedBy` | cli/core/bd_wrapper.py:272-283 | a refusal names the invalid or non-terminal state first, else exactly the open dependencies on record |
| `BeadGuard.UpdateAcceptedExactly` | cli/core/bd_wrapper.py:285-291 | an update is accepted iff it does not change the status, or the table lists the move and both ends are states or terminal states |
| `BeadGuard.UpdateRefusedBy` | cli/core/lifecycle.py:440-456 | a refusal names the state left first, then the state entered, then the move |
| `BeadGuard.UpdateIgnoresDependencies` | cli/core/bd_wrapper.py:285-291 | open dependencies do not matter to an update |
| `BeadGuard.UnknownBeadPasses` | cli/core/bd_wrapper.py:265-269 | a command on an unknown bead passes |
| `BeadGuard.UnknownDependencyDoesNotBlock` | cli/core/bd_wrapper.py:224-229 | an accepted close of a bead whose only dependency is not on record |
| `BeadGuard.UpdatesFollowTable` | cli/core/bd_wrapper.py:285-291 | over every run a bead none of whose closes was accepted moves along a path of its type's table |
| `BeadGuard.UpdatesStayInside` | cli/core/lifecycle.py:373-456 | so it stays valid and never leaves a state with no way out |
| `BeadGuard.DependenciesStayResolved` | cli/core/bd_wrapper.py:207-283 | with safe tables every dependency of a bead closed through the guard is resolved then and for the rest of the run |
| `BeadGuard.PromiseKeptExactly` | cli/core/bd_wrapper.py:207-291 | for any tables under which something can be closed, that promise holds for all stores and runs iff no table leads from a resolved status to an unresolved one |
| `BeadGuard.BuiltInKeepsPromise` | cli/core/constants/beads.py:120-171 | the built-in tables keep it |
| `BeadGuard.DoneNeverBlocks` | cli/core/bd_wrapper.py:207-283 | over every run under the built-in tables a dependency that has reached a terminal state, or was closed through the guard, never holds back a close |
| `BuiltInTables.TaskMovesExactly` | cli/core/constants/beads.py:121-133 | a task moves to a neighbour in investigation, planning, implementation, review, done, or out to rejected or abandoned, and in no other way |
| `BuiltInTables.BugMovesExactly` | cli/core/constants/beads.py:134-146 | likewise a bug in triage, investigation, fixing, review, done, with wontfix from anywhere and duplicate from the first two only |
| `BuiltInTables.FeatureMovesExactly` | cli/core/constants/beads.py:147-159 | likewise a feature in discovery, design, implementation, review, done, with rejected and deferred |
| `BuiltInTables.OtherMovesExactly` | cli/core/constants/beads.py:160-171 | any other bead moves from open or in_progress to any other of its states |
| `BuiltInTables.StatesArePath` | cli/core/constants/beads.py:120-180 | the states in the order listed are a path from the initial state to "done" |
| `BuiltInTables.DoneIsReachable` | cli/core/constants/beads.py:120-171 | from every state with a way out "done" can be reached |
| `BuiltInTables.CanBeFinished` | cli/core/bd_wrapper.py:234-291 | a bead in such a state, its other dependencies resolved, can be brought to "closed" by commands the guard lets through |
| `ConfiguredGuard.RaisingLookupRefuses` | cli/core/lifecycle.py:341-362 | a command whose lookup raises is stopped |
| `ConfiguredGuard.WorldIsRun` | cli/core/lifecycle.py:104-189 | the configuration after any interleaving of commands and changes is that of the changes and the commands' own lookups |
| `ConfiguredGuard.SavedMovesAreAccepted` | cli/core/lifecycle.py:421-456 | under a table saved to the current database a move is accepted iff it is declared, between declared states |
| `ConfiguredGuard.PromisedExactly` | cli/core/bd_wrapper.py:234-291 | with each command judged by the tables in force, the promise holds for all stores and all interleavings with permitted changes iff from the first possible close on no permitted operations bring tables into force that lead from a resolved status to an unresolved one |
| `ConfiguredGuard.BareKeepsPromise` | cli/core/lifecycle.py:104-189 | without a database, saves, path changes and clears cannot break it |
| `OrgChart.BuildWorkerEntry` | cli/core/org_chart.py:151-174 | the recursion visits the workers of its subtree in preorder and fills in their entries |
| `OrgChart.UpdateOrgChart` | cli/core/org_chart.py:105-148 | an error iff no worker lacks a manager; otherwise the chart of the preferred root, which is not terminated iff some root is not |
| `OrgChart.FirstRootIs` | cli/core/queries/worker.py:541-562 | a root is found iff there is one of the wanted kind |
| `OrgChart.FirstRootIsFirst` | cli/core/queries/worker.py:541-562 | it is the first of its kind in the table |
| `OrgChart.PathFits` | cli/core/org_chart.py:172-174 | no chain of managers from a root is longer than the table: the recursion ends on every table with distinct ids |
| `OrgChart.VisitsOnce` | cli/core/org_chart.py:151-174 | no worker is visited twice |
| `OrgChart.ChartIsExact` | cli/core/org_chart.py:123-174 | the chart has exactly the workers whose manager chain starts at the root, with their own data; b is in a's reports iff b's manager is a |
| `OrgChart.EntryInOrder` | cli/core/org_chart.py:151-174 | an entry lists its reports in the order of the table |
| `OrgStart.Org.Status` | cli/core/org.py:81-86 | the status comes from memory if it is there; otherwise it is read and remembered, or nothing changes if reading raises |
| `OrgStart.Org.ValidateTransition` | cli/core/org.py:131-143 | refused iff the move is none of uninitialized to initialized, initialized or stopped to running, running to stopped, from the status as read; raises iff that cannot be read |
| `OrgStart.Org.ActivateCeo` | cli/core/worker/lifecycle_manager.py:66-96 | which onboarding writes happen before the first failing step, and what the worker object then holds |
| `OrgStart.Org.ActivateOrRestoreCeo` | cli/core/org.py:291-309 | a failed activation is undone iff the lifecycle the worker object holds or reads has changed and the write back succeeds |
| `OrgStart.Org.Start` | cli/core/org.py:268-333 | which of CEO lifecycle, org status and cached status a start has changed, for every set of failing steps |
| `OrgStart.Org.RollbackToStatus` | cli/core/org.py:335-345 | the status is written back unless that write fails |
| `OrgStart.Org.Stop` | cli/core/org.py:436-456 | only a running org is stopped, and only if nothing fails before the write |
| `OrgStart.Org.TransitionOrgState` | cli/core/org_start_controller.py:310-347 | a failure other than an invalid transition is rolled back to the status of the start mode iff it can be reported and the status can be read and is running |
| `OrgStart.FailedTransitionExactly` | cli/core/org_start_controller.py:325-347 | a failed transition leaves the org status as it was iff the new status was never written, or the handler's message, one of the two reads and the rollback's write succeed |
| `OrgStart.UnreadStatusIsNotRolledBack` | cli/core/org.py:325-326 | with both reads failing the org stays running, in both start modes |
| `OrgStart.UnreportedFailureIsNotRolledBack` | cli/core/org_start_controller.py:333-337 | so it does if the chart fails and the failure cannot be reported |
| `OrgStart.FailedTransitionCeo` | cli/core/org.py:290-309 | a failed transition leaves the CEO as it was iff this is no first start with a pending CEO, or onboarding never wrote, or it failed at a step from which it is undone |
| `OrgStart.StartSucceedsExactly` | cli/core/org_start_controller.py:324-327 | a start succeeds iff every step up to the chart does |
| `OrgStart.StartExactly` | cli/core/org_start_controller.py:310-347 | a start leaves the org running iff it ran, or the new status was written and nothing failed after that or it could not be rolled back; otherwise the status is as before |
| `OrgStart.CeoAfterStart` | cli/core/org.py:290-309 | whether a first start leaves a pending CEO pending, onboarding or active, by the failing steps |
| `OrgStart.StopExactly` | cli/core/org.py:436-456 | a stop leaves the org stopped iff it was, or it ran and neither the monitors nor the write failed; otherwise the status is as before, and the CEO always is |
| `OrgStart.StopThenStart` | cli/core/org.py:436-456 | stopping and starting a running org brings it back with the same CEO |
| `OrgStart.MemoryIsHonest` | cli/core/org.py:81-86 | whatever fails, the status held in memory is the one stored |
| `OrgStart.CeoMovesExactly` | shared/state_machines.py:22-29 | the moves of the CEO's lifecycle |
| `OrgStart.AlwaysConsistent` | shared/state_machines.py:22-29 | over every run of starts and stops failing anywhere and CEO moves, a running or stopped org has a CEO past onboarding, and no run loses the CEO |
| `OrgStart.StuckForever` | cli/core/org.py:281-309 | an initialized org whose CEO has left pending never runs |
| `OrgStart.RunnableExactly` | shared/state_machines.py:65-70 | an initialized org can be brought to running iff it has no CEO or a pending one |
| `OrgStart.LateFailureIsFatal` | cli/core/org_start_controller.py:334-347 | a first start that fails after activating the CEO restores the org status only, and no later run gets the org running |
| `OrgStart.HalfActivated` | cli/core/queries/worker.py:249-264 | an event that cannot be published after the first write, or two failing reads of the CEO, leave the org initialized with an onboarding CEO for good |
| `Escalation.Monitor.TransitionState` | cli/core/escalation_monitor.py:244-287 | a move off the table changes nothing; any other sets the state and the idle start |
| `Escalation.Monitor.CheckWorkerEscalation` | cli/core/escalation_monitor.py:149-242 | a missing row is created; an attempted escalation is recorded and the row moved to pending; otherwise the row follows the table; a vanished worker is not escalated, and a failing write leaves the row as it was |
| `Escalation.Monitor.UpdateWorkerActivity` | cli/core/escalation_monitor.py:377-403 | only the last activity of one worker changes, or a row is created |
| `Escalation.Attempts` | cli/core/escalation_monitor.py:195-210 | an escalation is attempted iff a check finds a normal or warned worker, still on record, idle for longer than its timeout |
| `Escalation.AttemptsByRole` | cli/core/escalation_monitor.py:224-242 | that is longer than 30 minutes for a worker with a manager, 60 for the CEO, 45 for others without a manager |
| `Escalation.CheckExactly` | cli/core/escalation_monitor.py:195-222 | a resolved worker is normal after a check, a warned one if active in the last five minutes, an escalated one pending since now; other rows stay |
| `Escalation.FirstCheckExactly` | cli/core/escalation_monitor.py:166-182 | a first check creates a normal row, active now |
| `Escalation.ResolveExactly` | cli/core/escalation_monitor.py:244-287 | which moves from outside take effect, and the row they leave |
| `Escalation.ActivityExactly` | cli/core/escalation_monitor.py:377-403 | a report sets the last activity and nothing else |
| `Escalation.OthersUntouched` | cli/core/escalation_monitor.py:149-287 | an event changes one worker's row only |
| `Escalation.EscalatedAgainExactly` | cli/core/escalation_monitor.py:195-222 | after a resolved escalation a worker that stays quiet is escalated at the check after next, past its role's minutes |
| `Escalation.StepsFollowTable` | shared/state_machines.py:83-88 | every step of every run follows the table; checks never enter the warning state |
| `Escalation.IdleSinceMarksPending` | cli/core/escalation_monitor.py:276-285 | in every reachable table the idle start is set iff an escalation is pending |
| `Escalation.AttemptsBalance` | cli/core/escalation_monitor.py:195-222 | escalations attempted equal entries into pending plus attempts whose state could not be written; entries exceed exits by one while pending and by none otherwise |
| `Escalation.ReportingPreventsEscalation` | cli/core/escalation_monitor.py:184-210 | a worker whose every check finds a recent enough activity report is never escalated |
| `Flags.Invocation.StripFlags` | cli/commands/qn_bd.py:224-248 | the loop strips the list in place and reports the values |
| `Flags.Spellings` | cli/commands/qn_bd.py:228-247 | each flag in each literal spelling, and a bare flag without a value |
| `Flags.StripRendered` | cli/commands/qn_bd.py:228-248 | flag units inserted into plain words, in any number, place and spelling, come off again and yield the last value of each flag |
| `Flags.EveryLineIsRendered` | cli/commands/qn_bd.py:228-247 | every argument list is such a mix, with at most a bare flag left over at the end |
| `Flags.StrippedIsPlain` | cli/commands/qn_bd.py:228-248 | what is left is free of flags, except for a bare one as last token |
| `Flags.StripIsIdempotent` | cli/commands/qn_bd.py:228-248 | stripping twice is stripping once |
| `Retry.WithRetry` | shared/provider_types.py:615-649 | calls stop at the first success or non-retryable error or at the last retry, with one sleep between calls, and all sleeps together take at most 1.25 times the longest delay for each retry allowed; there is a second call iff a retry is allowed and the first failed with a connection, timeout or rate-limit error or a status of at least 500 |
| `Retry.DelaysMultiply` | shared/provider_types.py:573-574 | the first delay is the initial one and each further one the base times the one before, capped at the longest |
| `Retry.JitterRange` | shared/provider_types.py:576-579 | jitter adds nothing at the least draw and a quarter at the greatest |
| `Retry.DelaysGrow` | shared/provider_types.py:573-574 | delays before jitter never shrink from an attempt to any later one, for a base of at least one |
| `Retry.TotalIsBounded` | shared/provider_types.py:573-581 | the sleeps of a call take at most the number of retries made times 1.25 times the longest delay |
| `Retry.ConnectWithRetry` | board_ui/services/org_connection_registry.py:111-130 | attempts stop at the first that is not locked or the last allowed, and the sleep is 0.5 * (2^(attempts - 1) - 1) |
| `BeadsDir.FindNearestBeadsDir` | cli/core/bd_wrapper.py:443-464 | the longest ancestor in range that holds `.beads`, none iff there is none |
| `BeadsDir.ResolveBeadsDir` | cli/core/bd_wrapper.py:467-495 | in host mode the directory lies in the project and is the nearest to a working directory inside it |
| `Subscriptions.Connection.SubscribeToUpdates` | board_ui/services/org_connection.py:517-544 | the callback is added, a baseline is taken only if none is held, polling starts with the first subscriber; without a connection nothing changes |
| `Subscriptions.Connection.UnsubscribeFromUpdates` | board_ui/services/org_connection.py:546-553 | one occurrence of the callback goes; polling and baseline go with the last subscriber |
| `Subscriptions.RemoveFirstExactly` | board_ui/services/org_connection.py:546-553 | it is the first occurrence that goes, and the rest keep their order |
| `Subscriptions.UnsubscribeExactly` | board_ui/services/org_connection.py:546-553 | the multiset of subscribers is lowered by one occurrence of the callback |
| `Subscriptions.SubscribersInOrder` | board_ui/services/org_connection.py:517-544 | new subscribers come last |
| `Subscriptions.NoConnectionNoSubscriber` | board_ui/services/org_connection.py:517-544 | without a connection nothing is subscribed |
| `Subscriptions.NoSubscriberAfterClose` | board_ui/services/org_connection.py:200-210 | over a closed connection nobody can subscribe |
| `Subscriptions.Connection.CheckForUpdates` | board_ui/services/org_connection.py:557-588 | each subscriber in the snapshot is called once iff the reading changed |
| `Subscriptions.Connection.Close` | board_ui/services/org_connection.py:200-210 | no subscriber, baseline or polling is left |
| `Subscriptions.AlwaysConsistent` | board_ui/services/org_connection.py:517-588 | over every run polling is on iff there is a subscriber iff a baseline is held |
| `Subscriptions.RoundsAreChanges` | board_ui/services/org_connection.py:557-588 | while subscribers remain the rounds of notification equal the adjacent unequal readings |

## Left out

- Textual views, terminal providers, tmux, templates and message texts: user interface and foreign processes.
- Threads, events and PID files of the daemons: the poll loops are sequences of timed steps. Concurrent access to subscriptions is not modelled; a check writes its baseline outside the lock.
- Bead lookups that fail for a moment: a bead is either on record or not. When a lookup fails the guard lets the command through.
- Extracting the command and the bead id from raw arguments: the guard starts from a parsed command.
- Lifecycle.Declared holds the four keys the search reads; a dictionary with only other keys counts as empty here.
- Permission, authorization, budget, secrets and toolchain checks, and the asynchronous twin of the retry wrapper: small case splits that would only add easy members.
- OrgStart.Org.Stop: does not model stopping the sessions and monitors themselves, only that it may fail before the status is written.
- OrgStart.Org.Start: does not model the content of the briefing it delivers, interrupts from the keyboard, or logging set up from outside with filters that raise.
- The files written beside the state (YAML chart, briefing, storage) and the git commit of the chart.
- MissionReader.MissionAgreesOnText: does not cover files where the parser keeps a context section that the reader does not get to, or gets to only after other visible text and past a line starting with "##", because there the two read different text and agree only if it happens to be the same.
- ConfiguredGuard.PromisedExactly: does not model errors of the database while a row is read, because the search takes them for a missing row.
- Retry.ConnectWithRetry: does not model the progress callback.
- Sleeps, delays and jitter are real numbers: floating-point rounding is not modelled.
