# EhBot: a verified model of its decision, archive and queue logic

EhBot downloads galleries, decides with operator-written rules which of them to keep, and files them in a
library. This project models the parts of it whose correctness is hard to see by reading one function, and
proves what they are for:

* **the rule language** (`Rules`, `RuleLaws`, `RuleReadings`, `RuleText`, `RuleEvaluation`, `RuleOperators`, `Like`,
  `RuntimeWitness`): validation, what each condition asks, the audit text, evaluation with its trace, and LIKE
  patterns compiled to regular expressions;
* **automatic decisions** (`Decisions`, `Sweeper`, `Followups`, `FollowupPasses`): the match on a snapshot that is
  checked again in the write lock, the round-robin sweep and the durable follow-ups;
* **durable step protocols** (`RearchiveBatch`, `RearchiveSafety`, `RearchiveItems`, `RearchiveReplays`,
  `RearchiveAdmission`, `ObservationChanges`, `Toolchain`): the resumable re-archive of a library, edits that wait for
  a download to stop, and the swap of the managed 7-Zip directory, each over every interleaving of workers and crashes;
* **the re-archive planner** (`Rearchive`, `RearchiveRuns`): what one run plans, and what the next run plans after it
  on the library, the files and the pins it left;
* **the archive gate** (`Decimals`, `Volumes`, `VolumeGaps`, `NaturalOrder`, `Members`, `Compression`, `Manifest`,
  `PageNames`): split volumes and the gaps between them, what a listing must satisfy, page order and page names;
* **bounded queues and fallback** (`Events`, `CommandWindow`, `AiClient`, `AiChain`, `AiCooldowns`, `ChainOrder`).

`Text`, `Sorting` and `Sequences` hold the few pieces of Python's `str`, of stable sorting and of sequences that the
rest is stated in.
`dafny verify dfyconfig.toml` checks everything.

## How to read it

A source function that computes a value is a Dafny function. A source function that changes state or loops is a
method, usually of a class with the source's fields, and its `ensures` equate the new state with a specification
function of the old one; the lemmas are about those functions. Database tables are maps or sequences, and a
`BEGIN IMMEDIATE` block is one atomic step. A run of a protocol is a sequence of such steps by any number of
workers, so a crash is a worker that takes no further step. Whatever the world answers (a provider, the file
system, the clock, another command) is an argument that ranges over everything it may be.

`Runtime` collects what the rules use of Python itself (`float`, `str`, `upper`, `casefold`). `Lawful` says what is
relied on, and `RuntimeWitness` builds a runtime that meets it.

## Where the code does less than one would expect

Each of these is a lemma, and the property that holds instead is proved with its exact condition.

* `{Rating} = true` passes validation but cannot be validated again once stored, and cannot be evaluated
  (`RuleEvaluation.BooleanEqualityBreaks`); nothing else escapes validation (`RuleLaws.SoundUnlessBoolEquality`).
* `%` is documented as any run of characters; it is any run without a line feed (`Like.PercentMatchesLines`).
* A rule that cannot be evaluated ends the whole search, so no rule behind it is asked; this happens exactly when the
  first enabled rule that does not say no has no verdict (`Decisions.SearchRaisesExactly`).
* A publication between two failed reports takes the wait back to thirty seconds without any acknowledgement
  (`Followups.PublicationShortensTheWait`); a wait is shorter than the one before it exactly if the attempts were reset
  in between and that one was longer than thirty seconds (`Followups.WaitsShrinkExactlyOnReset`).
* The file names reported for missing volumes close the gap unless one of them is the leading volume of a series
  whose own name ends like a numbered part, or a legacy volume beyond `.r999` (`VolumeGaps.GapReportClosesTheGap`,
  `VolumeGaps.PartOfAPartStaysOpen`, `VolumeGaps.BeyondR999StaysOpen`).
* A forced tool install that unpacks into something unusable replaces a working tool; nothing else loses it
  (`Toolchain.InstallNeverLosesTheTool`).
* A rename leaves its journal row behind if its item gets an outcome from a concurrent copy between its two halves
  (`RearchiveItems.RefusedMoveLeavesItsJournal`) or its file cannot be put back, and only then
  (`RearchiveItems.JournalRowStaysExactly`, `RearchiveItems.PreparedRowStaysExactly`).
* The second of two packed works with one computed path is filed under a suffixed name and planned again by every
  later default run (`RearchiveRuns.TwoWorksOneName`).
* Free names are looked for on the disk only, and pins are unique by path. A move to a path that is free on the disk
  but pinned by another work is undone by an error without a code, which ends the run before all later works, and so
  in every later run (`RearchiveRuns.PinnedElsewhere`); queueing the second of two unpacked works with one computed
  path does the same (`RearchiveRuns.TwoQueuedOneName`). A default run is followed by one without moves exactly if
  every move was reached and landed at its computed path (`RearchiveRuns.LibraryConvergesExactly`), which a test on
  the library before the run ensures (`RearchiveRuns.OrderlyLibraryConverges`).
* A re-archive batch that queues two works under one path never completes, however often it is called again
  (`RearchiveReplays.TwoItemsOneName`). An undisturbed call completes a batch exactly if no item is stuck when its turn
  comes (`RearchiveReplays.ReplayCompletesExactly`): on another use of its key, a journal row, another work's pin, or
  an error that has no code or asks for recovery.
* A key refused by one entry of a chain is asked again by a later entry once its ten minutes are over
  (`AiCooldowns.RefusedKeyIsAskedAgain`, `AiCooldowns.RefusedKeyComesBackExactly`); short chains rest it
  (`AiCooldowns.ShortChainsRestTheKey`).
* A vendor's error envelope in a 2xx body may be marked retryable and is still not retried
  (`AiClient.RetriesExactly`).
* A forced re-archive run does not settle: it plans every packed work with a path again
  (`RearchiveRuns.ForcedRunRepeatsExactly`).
* The sweep's query wraps to the oldest candidate by itself (app/db/database.py:3304-3306), so the empty pass that
  resets the cursor is not needed for fairness, and one round of n / 100 passes, rounded up, covers the queue.

## Model

| member | source | states |
|---|---|---|
| `Like.LikePattern` | app/auto_approval/rules.py:399-427 | The text the index loop joins is read back by the regex engine as exactly the pattern's parts: no literal becomes a metacharacter. |
| `Like.CompilationPreservesMeaning` | app/auto_approval/rules.py:386-427 | For every pattern and text the compiled regex matches the whole text iff a direct LIKE reading accepts it. |
| `Like.ParseInvertsTexts` | app/auto_approval/rules.py:408-427 | Joining the escaped pieces of any parts loses nothing: the joined text parses back to those parts. |
| `Like.PercentMatchesLines` | app/auto_approval/rules.py:399-413 | `%` accepts a text iff it has no line feed. |
| `RuleLaws.ValidatedIsShaped` | app/auto_approval/rules.py:107-186 | Everything validation accepts has a known field, an operator of that field's role and a clean value of the right form. |
| `RuleLaws.SoundUnlessBoolEquality` | app/auto_approval/rules.py:178-186 | An accepted rule is free of conversion errors iff its raw form compares no numeric field with a JSON boolean by `=` or `<>`. |
| `RuleLaws.OperatorRoundTrip` | app/auto_approval/rules.py:67-75 | Every canonical operator token normalizes to itself. |
| `RuleLaws.ValidationIsIdempotentIffSound` | app/auto_approval/rules.py:107-186 | Validating a stored rule again returns that very rule iff the rule is sound, and is refused otherwise. |
| `RuleText.QuoteRoundTrip` | app/auto_approval/rules.py:189-210 | A JSON-quoted text can be read back, whatever follows it. |
| `RuleText.RuleReads` | app/auto_approval/rules.py:189-210 | A rendered rule can be cut off the front of a longer text in one way only (nested groups, IN lists, quoted values). |
| `RuleText.AuditTextDeterminesRule` | app/auto_approval/rules.py:189-210 | Two validated rules have the same audit text iff they differ only in the connective of one-child groups. |
| `RuleEvaluation.Evaluation.Evaluate` | app/auto_approval/rules.py:252-286 | The result is the AND/OR fold over the tree, and the trace gains one entry per leaf, left to right, with no short-circuit. |
| `RuleEvaluation.Evaluation.EvaluateAll` | app/auto_approval/rules.py:263-265 | Every child is evaluated, and traced, before the fold. |
| `RuleEvaluation.TotalIffSound` | app/auto_approval/rules.py:252-383 | A validated rule evaluates without an error on every metadata map, under both case settings, iff it is sound. |
| `RuleEvaluation.BooleanEqualityBreaks` | app/auto_approval/rules.py:174-186 | The input `Rating = true`: accepted, refused when validated again, an error when evaluated. |
| `RuleEvaluation.NegationLaw` | app/auto_approval/rules.py:302-383 | NOT operators are exact complements where there is a value to compare with (on TAG always); on blank or non-numeric values both are false. |
| `RuleOperators.ComparisonsAreAnOrder` | app/auto_approval/rules.py:343-363 | On a numeric field `<`, `=` and `>` exclude each other and one of them holds iff both numbers are numbers; `>=` and `<=` are the unions. |
| `RuleOperators.ComparisonsAreMonotone` | app/auto_approval/rules.py:358-363 | A work above a bound is above every lower one, and below likewise. |
| `RuleOperators.MembershipIsAnyEquality` | app/auto_approval/rules.py:321-382 | IN says yes iff `=` does for one of the values; on TAG iff one of the tags exists. |
| `RuleOperators.PlainLikeIsEquality` | app/auto_approval/rules.py:366-396 | LIKE without wildcards decides like `=`. |
| `RuleReadings.TagExistsExactly` | app/auto_approval/rules.py:289-299 | A tag exists on a work iff a piece between the commas, line feeds and ends of `TagsRaw` or `Tags`, trimmed and not blank, is the value: as it stands, or with both folded where case does not matter. |
| `RuleReadings.TagLikeExactly` | app/auto_approval/rules.py:336-340 | LIKE on TAG says yes iff the pattern reads one of those names. |
| `RuleReadings.TextFieldsRead` | app/auto_approval/rules.py:302-396 | On a text field EXISTS asks for a text that is not blank, `=` for the same text (folded or not) and LIKE for one the pattern reads. |
| `RuleReadings.NumericFieldsRead` | app/auto_approval/rules.py:343-363 | `>`, `<`, `>=` and `<=` compare the number that the trimmed text is, with infinities and without NaN; a blank or other text satisfies none. |
| `RuleReadings.GroupsRead` | app/auto_approval/rules.py:259-271 | Where all children have a verdict, AND is that all say yes and OR that one does. |
| `RuleReadings.OperatorsTaken` | app/auto_approval/rules.py:78-98 | The operators each field takes, listed for the numeric fields, TAG and all others. |
| `RuleReadings.BoundsAreRead` | app/auto_approval/rules.py:165-171 | A bound is the number given, or the one the text given is; a boolean is one or zero; anything else is refused. |
| `RuleReadings.TextsAreTrimmed` | app/auto_approval/rules.py:172-186 | An equality or pattern is stored trimmed, and refused if blank or, on a numeric field, no number. |
| `RuleReadings.ListsAreTrimmed` | app/auto_approval/rules.py:95-105 | A list keeps its texts, trimmed, in order, without blank ones and nulls. |
| `RuleReadings.ListsAreStored` | app/auto_approval/rules.py:140-160 | A membership test needs a list with something in it, all numbers on a numeric field; EXISTS needs one tag on TAG and nothing on another field. |
| `Text.SplitExactly` | app/auto_approval/rules.py:297-298 | Splitting gives exactly the pieces between the separators and the ends. |
| `Text.StripCuts` | app/auto_approval/rules.py:295-299 | Stripping cuts blanks off both ends and nothing else. |
| `RuleEvaluation.SameTextSameMeaning` | app/auto_approval/rules.py:189-286 | Validated rules with the same audit text match the same works, with the same trace. |
| `RuleEvaluation.PrintedForm` | app/auto_approval/rules.py:195-210 | Every validated condition prints as field, operator and value: a quoted list for IN, a bare number for a bound, a quoted text otherwise, a tag in parentheses for EXISTS on TAG and nothing for EXISTS on another field; a missing value is never printed. |
| `RuleEvaluation.PrintedOperatorReads` | app/auto_approval/rules.py:48-75 | The printed words of an operator (`NOT LIKE`) normalize to the token it is stored as. |
| `RuleEvaluation.OneChildGroupsPrintAlike` | app/auto_approval/rules.py:191-193 | A one-child AND and OR are different rules that print alike and decide alike on every work, leaf by leaf. |
| `RuntimeWitness.WitnessIsLawful` | app/auto_approval/rules.py:174-186 | What the model assumes of `float`, `str` and `upper` can be met. |
| `Decisions.Database.MatchingRuleInTransaction` | app/auto_approval/service.py:43-77 | The loop over the enabled rules returns the specified first match, skips stale rules and changes nothing. |
| `Decisions.MatchIsFirstByPriority` | app/auto_approval/service.py:43-77 | The search answers with the first enabled rule by priority and id that does not say no: a match with its trace where it says yes, an error where it has no verdict; no match means that every enabled rule said no or is stale. |
| `Decisions.SearchRaisesExactly` | app/auto_approval/service.py:43-77 | The search raises iff the first enabled rule that does not say no has no verdict. |
| `Decisions.SoundRulesNeverRaise` | app/auto_approval/service.py:43-77 | With validated and sound rules enabled the search never raises. |
| `Decisions.Database.BeginDecision` | app/auto_approval/commit.py:9-21 | The decision begins iff the match made now equals the one held and no identity change is pending, for approving and rejecting rules alike; otherwise nothing changes. |
| `Decisions.Database.RecordDecision` | app/auto_approval/commit.py:24-33 | The audit row holds the match and the jobs of the decision. |
| `Decisions.Database.Decide` | app/auto_approval/commit.py:36-40 | Status and audit change together or not at all. |
| `Decisions.DecisionsAreJustified` | app/auto_approval/commit.py:9-40 | Over any run every committed decision is on a pending, unchanging candidate with the gallery and identity of the match, by an enabled rule that says yes at commit time with every enabled rule before it saying no; only the status and two audit rows change. |
| `Decisions.CommitsExactly` | app/auto_approval/commit.py:9-40 | A decision goes through iff the candidate is in review and not changing, has the gallery, identity and metadata of the match, the match's rule is the foremost and says yes with that trace, and the jobs are queued; status, audit rows and what does not change are told. |
| `Decisions.FoundExactly` | app/auto_approval/service.py:43-77 | The search finds a match iff it holds of the candidate as it is. |
| `Decisions.LookedAtIsDecided` | app/auto_approval/commit.py:9-40 | A worker that looks and then commits, whatever other workers do between as long as the tables end up the same, adds one decision, approving or rejecting as its rule says. |
| `Decisions.EvidenceTells` | app/auto_approval/rules.py:272-284 | The trace has one line per leaf in order, with its text and what the leaf says. |
| `Decisions.DecisionsAreSerialisable` | app/auto_approval/commit.py:9-40 | The tables of any run of looks, commits and outside changes are those of a serial run of the same changes and of decisions that each look and commit at once, on the same candidates in the same order. |
| `Decisions.DecidedAtMostOnce` | app/auto_approval/commit.py:9-40 | Workers holding the same match cannot both commit; a candidate is decided once at most until it is put back into review. |
| `Sweeper.AutoApprovalSweeper.SweepOnce` | app/auto_approval/sweeper.py:183-258 | A pass examines exactly the next hundred in cursor order whatever the decisions raise, moves the cursor to the last, and reports and counts the decided ones. |
| `Sweeper.DecidedExactly` | app/auto_approval/sweeper.py:216-246 | A pass tells of exactly the examined candidates that were approved or rejected. |
| `Sweeper.DecidedInOrder` | app/auto_approval/sweeper.py:216-246 | It tells of them in the order they were examined. |
| `Sweeper.PassAdvances` | app/auto_approval/sweeper.py:196-207 | A pending candidate is examined in this pass, or exactly a hundred fewer are ahead of it in the next. |
| `Sweeper.ArrivalsDelay` | app/db/database.py:3296-3317 | Between passes only arrivals put more candidates ahead of one that waits, each at most one. |
| `Sweeper.StaysPendingIsExamined` | app/auto_approval/sweeper.py:183-258 | From any cursor a candidate that stays pending is examined within k passes if those ahead and those arriving are fewer than 100 k. |
| `Sweeper.QueueIsCoveredInOneRound` | app/auto_approval/sweeper.py:183-258 | Without arrivals n pending candidates are all examined within n / 100 passes, rounded up. |
| `Followups.DueRowsExactly` | app/candidates/followups.py:4-14 | An entry is due iff it is linked, has an unacknowledged publication, its wait is over and its candidate is not changing. |
| `Followups.FollowupQueue.DueFollowups` | app/candidates/followups.py:4-14 | The first `limit` due entries by retry time (none first) and id. |
| `Followups.FollowupQueue.FinishFollowup` | app/candidates/followups.py:32-58 | Only the entry at the reported generation and revision changes: acknowledged, or put back with its next wait. |
| `Followups.FollowupQueue.ProcessIngestFollowups` | app/auto_approval/sweeper.py:148-177 | Every follow-up taken up is reported back, as completed only if the work was ready and no rule is left to apply, whatever the others raised. |
| `Followups.DueIdentitiesDiffer` | app/candidates/followups.py:4-14 | One pass takes up different entries, each of them due. |
| `Followups.FinishAllExactly` | app/auto_approval/sweeper.py:157-172 | A pass leaves each entry as its own report does, and every other entry alone. |
| `Followups.PassKeepsIntents` | app/auto_approval/sweeper.py:148-177 | After a pass each entry taken up is acknowledged, or still unacknowledged with its next wait set. |
| `FollowupPasses.DueAnswerExactly` | app/candidates/followups.py:4-14 | The due query answers with min(limit, due entries) identities, each of a due entry, ordered by retry time with none first and then id. |
| `FollowupPasses.TakenUpExactly` | app/candidates/followups.py:4-14 | A due entry is taken up iff fewer due entries than the limit stand before it. |
| `FollowupPasses.PassSettlesExactly` | app/auto_approval/sweeper.py:148-177 | Each entry taken up is acknowledged iff its work was ready and decided or no rule matches it any more, and else put back with one attempt more and 30, 120 or 600 seconds; all others stay as they are. |
| `FollowupPasses.DecisionsCounted` | app/auto_approval/sweeper.py:148-177 | A pass reports the number of visits that decided. |
| `FollowupPasses.PassAdvances` | app/auto_approval/sweeper.py:148-177 | A due entry that a pass does not take up has, at the next, exactly a hundred fewer due entries before it. |
| `FollowupPasses.DueEntryIsTakenUp` | app/auto_approval/sweeper.py:148-177 | However the visits go, a due entry with fewer than 100 n due ones before it is taken up within n uninterrupted passes. |
| `Followups.DoneNeverPassesPublished` | app/db/migrations/031_ingest_entries.sql:39-53 | In every run done never passes published, and neither goes back. |
| `Followups.StaleReportsChangeNothing` | app/candidates/followups.py:41-47 | A report about an older revision or generation, another candidate or an unlinked entry changes nothing. |
| `Followups.ChangesRead` | app/db/migrations/031_ingest_entries.sql:39-53 | A publication links the entry, counts one more and starts the attempts afresh; a change of link leaves the publications alone. |
| `Followups.PublicationIsNotLost` | app/candidates/followups.py:32-58 | In every run an unacknowledged publication keeps its entry due, whenever that is linked, its wait is over and its candidate is not changing, until a completed report names the publication current then, which is it or a later one; without such a report, to the end of the run. |
| `Followups.WaitsCount` | app/candidates/followups.py:53-58 | In every run the waits count 30, 120, 600, 600, ... from the attempts made, and from the start where a publication or an acknowledgement reset them. |
| `Followups.WaitsShrinkExactlyOnReset` | app/candidates/followups.py:32-58 | In every run each wait is from 30 to 600 seconds, and one is shorter than the one before iff the attempts were reset in between and that one was above 30. |
| `Followups.PublicationShortensTheWait` | app/db/migrations/031_ingest_entries.sql:39-53 | The input that fails: failed report, publication, failed report gives waits of 120 and 30 seconds. |
| `Rearchive.PlanTemplateLibrary` | app/archive/rearchive.py:183-197 | Tasks and skips are those of the per-work decisions in order, and exactly the unpacked works with a refused path are parked in a real run. |
| `Rearchive.PlanAiLibrary` | app/archive/rearchive.py:293-355 | Any batch size gives the plan of one pass, in the same order. |
| `Rearchive.FileOutcomes` | app/archive/rearchive.py:325-330 | Each outcome goes to the tasks, to the skips or nowhere, in order. |
| `Rearchive.WorkReads` | app/archive/rearchive.py:200-239 | When a work is packed, in flight or pinned by hand, and where it is recorded, by its columns. |
| `Rearchive.TemplatePlanExactly` | app/archive/rearchive.py:200-290 | In the lists template mode returns: a work is queued iff it is unpacked, not in flight and pinned by hand or not refused; moved iff it is packed, has a computed path and is forced, or neither pinned by hand nor recorded there; parked iff it is unpacked, free and refused; and skipped in exactly the remaining cases that have a reason. |
| `Rearchive.AiPlanExactly` | app/archive/rearchive.py:358-470 | The same for AI mode: which works are queued, moved to their cached answer, filed again under a new one, or skipped, under force or not and asking again for works in place or not; works in flight are left alone, and a pin is dropped iff it was chosen by hand and the work is unpacked and forced. |
| `Rearchive.ApplyRearchive` | app/archive/rearchive.py:473-595 | The report files every task under what it came to; a refusal is one skipped work, any other fault ends the run. |
| `Rearchive.PreviewReport` | app/archive/rearchive.py:638-691 | The preview files every task as a run without refusals would. |
| `Rearchive.ReportIsConservative` | app/archive/rearchive.py:473-595 | A report names each work exactly as often as the plan's tasks and skips do. |
| `Rearchive.ReportTells` | app/archive/rearchive.py:473-595 | The rows of a report in each category, with their columns, iff a task with that reply; the planned skips with the refusals. |
| `Rearchive.PreviewTells` | app/archive/rearchive.py:638-691 | The rows of a preview in each category, with their columns, by the mode of the tasks. |
| `Rearchive.PlanNamesWorksOnce` | app/archive/rearchive.py:183-197 | A plan names a work at most as often as the library lists it. |
| `Rearchive.PlansNameWorksOnce` | app/archive/rearchive.py:183-355 | Of a library with distinct ids either planner names each work once at most. |
| `RearchiveRuns.FindTarget` | app/conversion/naming.py:455-483 | The loop finds the first of the target and its suffixed names that is free or the book's own, up to 999. |
| `RearchiveRuns.UniqueTargetIs` | app/conversion/naming.py:455-483 | The chosen name is the book's own or nobody's, and is the target iff that is the book's own or free. |
| `RearchiveRuns.UniqueTargetExactly` | app/conversion/naming.py:455-483 | The name is the target if free or own, and else the first numbered one from 2 to 999 that is; without one there is none. |
| `RearchiveRuns.NumberedNames` | app/conversion/naming.py:474-476 | The number stands before the suffix. |
| `RearchiveRuns.LandsExactly` | app/downloads/archived.py:1112-1238 | A move is recorded at its target iff nothing else comes up, the file is there to be moved, the target is free on the disk or its own, and no other work is pinned there; it ends the run iff an error without a code comes up or the name chosen on the disk is pinned by another work, and then changes nothing. |
| `RearchiveRuns.QueueBreaksExactly` | app/archive/rearchive.py:533-546 | Queueing a work ends the run iff the path to pin is another work's (a pin chosen by hand is not overwritten) or an error without a code comes up; a pin that was to be dropped is gone all the same. |
| `RearchiveRuns.ApplyTurns` | app/archive/rearchive.py:511-567 | The loop takes the works in order on the library, the files and the pins, and stops at the first error without a code. |
| `RearchiveRuns.WorkAt` | app/archive/rearchive.py:511-567 | A work the run does not reach is as it was, and a work it reaches ends as its own turn leaves it. |
| `RearchiveRuns.NextRunMovesExactly` | app/archive/rearchive.py:271-290 | Under unchanged rules the next default run moves a work iff this one was to move it and it was not reached or did not land at its computed path; where it landed it is out of scope. |
| `RearchiveRuns.NextAiRunMovesExactly` | app/archive/rearchive.py:448-470 | The same under AI mode with unchanged answers. |
| `RearchiveRuns.LibraryConvergesExactly` | app/archive/rearchive.py:183-290 | After a default run of a library the same rules plan no move iff every move was reached and landed at its computed path. |
| `RearchiveRuns.AiLibraryConvergesExactly` | app/archive/rearchive.py:448-470 | The same under AI mode. |
| `RearchiveRuns.OrderlyRunsLand` | app/archive/rearchive.py:473-595 | If nothing else comes up, the files to be moved are there and apart, their targets are not taken by another file, and the paths to be pinned are distinct and not pinned by another work, the run of any plan reaches its end and every move lands. |
| `RearchiveRuns.OrderlyLibraryConverges` | app/archive/rearchive.py:183-290 | An orderly default run reaches its end, every move lands, and the next run plans none. |
| `RearchiveRuns.OrderlyAiLibraryConverges` | app/archive/rearchive.py:358-470 | The same under AI mode. |
| `RearchiveRuns.TwoWorksOneName` | app/downloads/archived.py:1164-1172 | The inputs that fail: of two packed works with one computed path the second gets a suffixed name, is planned again by the next run, and stays there. |
| `RearchiveRuns.PinnedElsewhere` | app/db/migrations/015_work_archive_paths.sql:44-45 | The inputs that fail: a work pinned by hand at the computed path of a packed one; this run and every later one end at that move, and a third work is never moved. |
| `RearchiveRuns.TwoQueuedOneName` | app/archive/rearchive.py:533-546 | The inputs that fail: two unpacked works with one computed path; this run and every later one end at the second, and a third work is never moved. |
| `RearchiveRuns.ForcedRunRepeatsExactly` | app/archive/rearchive.py:272-283 | After a forced run the next forced run moves a work iff it is packed and has a computed path. |
| `RearchiveRuns.NoBookIsOverwritten` | app/downloads/archived.py:1112-1238 | Whatever is planned, after a run every book still has a file of its own. |
| `RearchiveRuns.NoPinIsShared` | app/db/migrations/015_work_archive_paths.sql:44-45 | Whatever is planned, no run leaves two works pinned at one path. |
| `RearchiveBatch.RearchiveStore.ReadReceipt` | app/review/commands.py:69-80 | A stored receipt or refusal under the same digest is returned; any other use of the key is a conflict. |
| `RearchiveBatch.RearchiveStore.InspectItem` | app/archive/maintenance.py:154-162 | A stored outcome wins over every check; otherwise the work version, the policy and the path answer must be the admitted ones. |
| `RearchiveBatch.RearchiveStore.SaveItem` | app/archive/maintenance.py:171-174 | The receipt is stored, and the work version is raised if it is still the admitted one, which it is unless a trigger raised it with the effect. |
| `RearchiveBatch.RearchiveStore.RaiseVersion` | app/db/migrations/039_work_commands.sql:50-84 | The triggers on jobs, artifacts and pins raise the version of the work and of no other. |
| `RearchiveBatch.RearchiveStore.PinWork` | app/db/database.py:2224-2243 | A task's pin is dropped or written, a pin chosen by hand is left as it is, and another work's pin at the path refuses it. |
| `RearchiveBatch.RearchiveStore.EnqueueItem` | app/archive/maintenance.py:198-226 | Inspection, obstacles, the pin, parking or enqueueing and the receipt are one transaction, all or nothing. |
| `RearchiveBatch.RearchiveStore.PrepareMove` | app/downloads/archived.py:1112-1177 | The first half of a move: inspected and, if it renames, journalled, or refused. |
| `RearchiveBatch.RearchiveStore.FinishMove` | app/downloads/archived.py:1178-1236 | The second half: inspected again and committed with its pin and receipt, the journal row gone; or put back, the row kept if that fails. |
| `RearchiveBatch.RearchiveStore.PerformItem` | app/archive/maintenance.py:181-196 | A move in its two transactions and anything else in one, with nobody in between. |
| `RearchiveBatch.RearchiveStore.RefuseItem` | app/archive/maintenance.py:228-238 | A refusal is stored only where no outcome is. |
| `RearchiveBatch.RearchiveStore.ExecuteItem` | app/archive/maintenance.py:181-196 | Undisturbed, an error with a code becomes the stored outcome unless it asks for recovery; any other error escapes. |
| `RearchiveBatch.RearchiveStore.ReplayItems` | app/archive/maintenance.py:90-94 | The items are executed in order until an error ends the call. |
| `RearchiveBatch.RearchiveStore.ExecuteBatch` | app/archive/maintenance.py:66-95 | An admitted batch is answered with its stored report, or with the report of its items once all are done. |
| `RearchiveBatch.RearchiveStore.BeginBatch` | app/archive/maintenance.py:109-139 | A batch is admitted once per key with the items of its plan; the same key and digest finds it again. |
| `RearchiveBatch.RearchiveStore.CompleteBatch` | app/review/batches.py:110-119 | The first report stays; later ones are answered with it. |
| `RearchiveBatch.AssembleReport` | app/archive/maintenance.py:87-95 | Every item's outcome is appended to its category, parked works are not kept in the preview's skips. |
| `RearchiveSafety.StepKeeps` | app/archive/maintenance.py:70-238 | Every step of every caller, and every outside change, keeps the invariant. |
| `RearchiveSafety.EmptyHolds` | app/archive/maintenance.py:70-139 | The invariant holds before any batch. |
| `RearchiveSafety.ExactlyOnceOverRuns` | app/archive/maintenance.py:142-238 | Over every run: items never change after admission; an item takes effect at most once, and once iff it has a receipt; after a refusal never; a stored outcome stays. |
| `RearchiveSafety.CompletedBatchIsFinal` | app/archive/maintenance.py:97-107 | A completed batch keeps its report, and every later caller with the key gets it and has nothing to do. |
| `RearchiveSafety.RequestIsBalanced` | app/archive/maintenance.py:122-135 | The admitted items and kept skips stand for every work of the plan, each once. |
| `RearchiveSafety.CompletedReportIsConservative` | app/archive/maintenance.py:87-95 | A completed report names every planned task, parked work and planned skip once, in one category. |
| `RearchiveItems.RefusedMoveLeavesItsJournal` | app/downloads/archived.py:1178-1185 | The input that fails: a rename whose item is refused between its halves returns that refusal with its journal row still there, which locks the work for every later move. |
| `RearchiveItems.EnqueuesExactly` | app/archive/maintenance.py:198-226 | An enqueueing or parking takes effect, with its receipt and a later work version, iff the item is fresh, no move or job is under way, its input exists, its path is not another work's pin and no other obstacle comes up; otherwise nothing changes, and the error has no code iff the pins clash or the obstacle has none. |
| `RearchiveItems.PinnedExactly` | app/db/database.py:2224-2243 | A task's pin is refused iff it clashes with another work's; no other pin changes, a pin chosen by hand stays unless dropped, and else the work is pinned at its target. |
| `RearchiveItems.MovesExactly` | app/archive/maintenance.py:154-174 | The second half of a move takes effect, with its pin, its receipt and a later work version, iff the item is fresh and nothing is in the way, another work's pin included; else it changes nothing if an outcome is stored by then or the file cannot be put back, and otherwise gives up only its journal row. |
| `RearchiveItems.JournalRowStaysExactly` | app/downloads/archived.py:1178-1236 | The journal row of a rename outlives its second half iff an outcome of the item is stored when that begins, or something is in the way and the file cannot be put back. |
| `RearchiveItems.PreparedRowStaysExactly` | app/downloads/archived.py:1148-1236 | In any run the row of a caller that was not interrupted stays iff somebody stored an outcome of the item between its two halves or its file cannot be put back; with nobody in between only the latter can be. |
| `RearchiveItems.PinsStayApart` | app/db/migrations/015_work_archive_paths.sql:44-45 | In no run of callers and outside writers are two works pinned at one path. |
| `RearchiveReplays.ExecuteEndsExactly` | app/archive/maintenance.py:181-238 | An undisturbed item ends with an outcome iff it is not stuck; the outcome is stored, so that executing the item again gives it and changes nothing; an error is a key conflict, asks for recovery or has no code, and touches no outcome, effect, pin or version. |
| `RearchiveReplays.ReplayCompletesExactly` | app/archive/maintenance.py:66-95 | An undisturbed call completes an admitted batch, with the report of all its outcomes, iff no item is stuck when its turn comes. |
| `RearchiveReplays.AdmittedItemsAreApart` | app/archive/maintenance.py:122-135 | In every reachable state the items of a batch are of different works under different keys. |
| `RearchiveReplays.UnhinderedReplayCompletes` | app/archive/maintenance.py:66-95 | In every reachable state an undisturbed call completes a batch whose keys are not used otherwise and whose works, where still as admitted, have no journal row, no grave obstacle, and paths that are distinct and not pinned by another work. |
| `RearchiveReplays.TwoItemsOneName` | app/archive/maintenance.py:213-226 | The input that fails: a batch that queues two works under one path has no report after any number of calls. |
| `RearchiveAdmission.AdmitsExactly` | app/archive/maintenance.py:109-139 | A new key is admitted iff the settings are those seen, the key is unused and every planned work is there; then the items are the tasks in order and the works to be parked, each with the work id, revision and answer of the tables, and the archive for a task to queue or the CBZ for any other. |
| `RearchiveAdmission.OutcomeExactly` | app/archive/maintenance.py:164-238 | The category and columns of the outcome of a fresh item: what was made, or the refusal that comes first. |
| `RearchiveAdmission.StaleItemIsRefused` | app/archive/maintenance.py:154-162 | An item whose work, settings or answer changed since is refused for that. |
| `RearchiveAdmission.RunKeepsParents` | app/archive/maintenance.py:109-139 | In every run only admitted batches have outcomes of items. |
| `RearchiveAdmission.AdmittedIsFresh` | app/archive/maintenance.py:66-95 | Executed right after admission, each item is fresh when its turn comes. |
| `RearchiveAdmission.AdmittedBatchReports` | app/archive/maintenance.py:66-95 | Executed right after admission and completed, a task to queue is reported under the queued works, and one to file again under those, iff its archive, or CBZ, is there and no journal row, job, pin or obstacle is in the way; a move under the moved files or those in place iff no obstacle is. |
| `RearchiveAdmission.AssembledSkips` | app/archive/maintenance.py:87-95 | The skips of a report are the refused outcomes and the planned skips that no parked item stands for; the report is not marked as a preview. |
| `ObservationChanges.ChangeProcessor.DeferObservationChange` | app/candidates/changes.py:14-79 | Admission stores the last edit, the union of old and newly touched tasks and the merge intent, and raises both revisions; otherwise nothing changes. |
| `ObservationChanges.ChangeProcessor.ProcessChange` | app/candidates/changes.py:103-150 | One pending change waits, is applied (with the merge it may bring), or fails on its own revision; the candidates to report are those it touched. |
| `ObservationChanges.ChangeProcessor.ProcessObservationChanges` | app/candidates/changes.py:95-151 | The round settles each id in turn and reports their candidates in order. |
| `ObservationChanges.ChangeProcessor.RetryOperation` | app/candidates/operations.py:100-174 | A failed change at the revision the operator saw, still about its observation, is pending again with the next revision and with every task of its reach added; otherwise nothing changes. |
| `ObservationChanges.AppliedEditsAreSafe` | app/candidates/changes.py:95-160 | Over every run of admissions, workers, crashes, retries, merges and outside changes an edit is applied only when no task accumulated since it became pending needs stopping, and what is applied is the last edit admitted. |
| `ObservationChanges.ReadmissionOnlyGrows` | app/candidates/changes.py:41-68 | Admission while pending keeps the change pending and only adds tasks and merge intent. |
| `ObservationChanges.AdmittedExactly` | app/candidates/changes.py:30-77 | In fields of source, message and job: an edit is held back iff its observation can be edited and an edit is pending or it changes something while a download in its reach runs; its reach is the whole work if it brings the missing gallery or the pending edit had it, and else the Telegram downloads that fixed this observation; the stored change is told entirely, and otherwise nothing is stored. |
| `ObservationChanges.LateFailureIsHarmless` | app/candidates/changes.py:143-150 | A failure recorded late finds the row it failed on or changes nothing. |
| `ObservationChanges.MergeMovesChanges` | app/candidates/merging.py:103-104 | A merge takes exactly the pending changes of the candidate that goes to the one that stays, at their next revision. |
| `ObservationChanges.RetryMeetsWhatWasSeen` | app/candidates/operations.py:33-174 | Whatever happens after an operator's look, the retry goes through iff the change is still the very one that was seen, failed and about its observation; the same edit is then pending with every download in its reach added to its tasks. |
| `ObservationChanges.RoundSettlesExactly` | app/candidates/changes.py:95-151 | A round leaves a pending edit failed if its observation has moved on when its turn comes, pending if a task of it needs stopping, failed if applying it raises, and applied otherwise. |
| `ObservationChanges.TurnExactly` | app/candidates/changes.py:103-150 | What a turn makes of the tables: fails, waits, or applies with the merge's effect on the other pending changes. |
| `ObservationChanges.ReportedExactly` | app/candidates/changes.py:95-151 | A round reports exactly the candidates of the changes it ended and those their observations moved to. |
| `ObservationChanges.StartHolds` | app/candidates/changes.py:14-79 | The invariant holds on any tables, an edit found unfinished counting as admitted once. |
| `Toolchain.ToolDirectory.InstallTool` | app/archive/toolchain.py:349-409 | The directories go through exactly the specified layouts, in order, whatever each file operation does. |
| `Toolchain.InstallNeverLosesTheTool` | app/archive/toolchain.py:363-402 | Every layout of a run from a recoverable one is recoverable (root good, or absent with a good previous), iff the run publishes no unusable directory. |
| `Toolchain.ToolSurvivesEveryHistory` | app/archive/toolchain.py:349-409 | However many runs fail or are cut short at any point, the tool stays recoverable. |
| `Toolchain.NextRunRestores` | app/archive/toolchain.py:363-373 | The next run makes the tool usable even if its download fails, provided the one rename works. |
| `Toolchain.CleanRunReplaces` | app/archive/toolchain.py:381-409 | A forced run without faults leaves the new install alone in place. |
| `Toolchain.InstallsExactly` | app/archive/toolchain.py:349-409 | A run reports success iff what an earlier one left was put back or deleted, and the tool was usable and not forced or the download, the unpacking and the exchange all went well. |
| `Decimals.DecRoundTrip` | app/archive/formats.py:165-173 | A printed number reads back as itself. |
| `Decimals.PaddedRoundTrip` | app/archive/formats.py:165-173 | Zero padding does not change a number's value. |
| `Volumes.SiblingVolumes` | app/archive/formats.py:114-132 | The scan and sort give the group's volumes of the directory in order. |
| `Volumes.ResolveVolumes` | app/archive/formats.py:135-162 | The ordered names and the names of the missing indexes, or the file alone. |
| `Volumes.CollectIndexes` | app/archive/formats.py:148 | The indexes of the volumes that have one. |
| `Volumes.NameMissing` | app/archive/formats.py:155-161 | The expected names of the absent indexes up to the highest, ascending. |
| `Volumes.VolumesExactly` | app/archive/formats.py:114-132 | The volumes are sorted by index and name and are exactly the files of the group. |
| `Volumes.MissingExactly` | app/archive/formats.py:156-161 | The missing indexes are {1..max} without the present ones. |
| `Volumes.MissingAscends` | app/archive/formats.py:158 | The missing indexes are reported in ascending order. |
| `Volumes.ResolutionIsEntryIndependent` | app/archive/formats.py:114-162 | Any two members of a group, and any two listings of the directory, give the same answer. |
| `VolumeGaps.ExpectedReads` | app/archive/formats.py:78-111 | A printed volume name reads back as that volume of that group, or, exactly where it is unreadable, as none of the group. |
| `VolumeGaps.GapReportClosesTheGap` | app/archive/formats.py:135-173 | Adding the reported names empties the next report iff each of them is readable. |
| `VolumeGaps.PartOfAPartStaysOpen` | app/archive/formats.py:165-173 | The inputs that fail: the second part of a series whose own name ends in `.partN`. |
| `VolumeGaps.BeyondR999StaysOpen` | app/archive/formats.py:78-111 | The other inputs that fail: a `.r00` next to a part beyond 1002, where `.r1000` is reported and never read. |
| `NaturalOrder.KeyIsOrder` | app/archive/safety.py:91-98 | Natural keys are totally ordered, so sorting by them always works and only equal keys tie. |
| `NaturalOrder.NumbersSortByValue` | app/archive/safety.py:91-98 | Behind a common text the smaller number sorts first, whatever the padding and what follows (`2.jpg` before `10.jpg`). |
| `Compression.CompressionGroups` | app/archive/safety.py:205-226 | The dictionary and the loops give the groups of the blocks in order of first appearance, then the single members. |
| `Compression.CollectBlocks` | app/archive/safety.py:217-223 | One pass gathers every block and the members without one, in listing order. |
| `Compression.GroupsPartition` | app/archive/safety.py:205-226 | For every weight of members (so for every count) the sum over the groups is the sum over the files. |
| `Compression.GroupsAreGroups` | app/archive/safety.py:205-226 | A group is all the members of one block or one member without a block, and never empty. |
| `Compression.FilesExactly` | app/archive/models.py:55-57 | The files of a listing are its members without the directories, in order. |
| `Compression.PackedIsLargest` | app/archive/safety.py:264-267 | The packed size of a group is the largest of its members'. |
| `Compression.SizesAdd` | app/archive/safety.py:268 | The size of a group is the sum of its members'. |
| `Compression.RatioExactly` | app/archive/safety.py:264-290 | A listing keeps the ratio iff each group has no packed size, unpacks to at most the ratio times it, holds only images by their bytes, or is probed to begin with an image in an archive that is not encrypted. |
| `Compression.EnforceCompressionRatio` | app/archive/safety.py:240-299 | Accepted iff every group with a packed size that is not exempt keeps the ratio. |
| `Compression.ExpansionIsBounded` | app/archive/safety.py:264-299 | All charged groups together unpack to at most the ratio times their packed sizes. |
| `Manifest.InspectMember` | app/archive/safety.py:326-387 | One member's first fault in the order of the checks, and whether it is a page. |
| `Manifest.ValidateManifest` | app/archive/safety.py:302-395 | The verdict is the specified one: the first fault in order, or the pages sorted. |
| `Manifest.AcceptedExactly` | app/archive/safety.py:302-395 | Accepted iff there are files and not too many, each member is sound, no leading sum passes the total, charged groups keep the ratio and there is a page. |
| `Manifest.AcceptedIsBounded` | app/archive/safety.py:346-356 | An accepted archive keeps the member bound, the total bound and the expansion bound. |
| `Manifest.PagesAreNatural` | app/archive/safety.py:388-395 | Pages are the publishable members, each as often as listed, in natural order, ties in listing order. |
| `Manifest.PagesHoldImages` | app/archive/safety.py:361-387 | A page whose bytes were seen is identified as an image or claims a format without a fixed signature. |
| `Members.DrivesRead` | app/archive/safety.py:108 | A name has a drive iff it begins with a letter and a colon. |
| `Members.PartsRead` | app/archive/safety.py:113-119 | The parts of a path are the pieces between slashes that are neither empty nor a dot. |
| `Members.SuffixesRead` | app/archive/safety.py:335 | A suffix begins at the last dot, unless that is the first or the last character. |
| `PageNames.FreshName` | app/archive/safety.py:412-416 | The collision loop ends with a free name, and is not entered if the plain name is free. |
| `PageNames.PageFileNames` | app/archive/safety.py:398-419 | The names are place and true extension for any page count: the collision loop never iterates. |
| `PageNames.NamesGrow` | app/archive/safety.py:398-419 | The names increase in natural order and no two are equal up to case. |
| `PageNames.NameTellsFormat` | app/archive/safety.py:173-198 | A published name is read back with an extension that fits the bytes. |
| `PageNames.PublishedNamesAreStable` | app/archive/safety.py:398-419 | Under their published names the pages keep their order and get the same names again. |
| `Events.EventBus.Subscribe` | app/api/events.py:101-106 | A new empty queue that starts at the current watermark. |
| `Events.EventBus.Leave` | app/api/events.py:106-109 | A queue that is left is offered nothing more. |
| `Events.EventBus.Take` | app/api/events.py:178-188 | The oldest queued event is delivered. |
| `Events.EventBus.Publish` | app/api/events.py:120-136 | The watermark always advances; every open queue is offered the event; an unknown name changes nothing. |
| `Events.EventBus.Offer` | app/api/events.py:138-155 | A full queue gives up its oldest event, which is counted, and the event always gets in. |
| `Events.StepKeeps` | app/api/events.py:101-155 | Subscribing, leaving, publishing and taking keep the invariant. |
| `Events.BusHolds` | app/api/events.py:101-155 | In every run each open queue is the newest events without a gap and within its size; delivered, queued and lost add up to what was published since joining, deliveries are in order, and the dropped count is the sum of the losses. |
| `CommandWindow.CommandSession.Receive` | app/api/realtime.py:313-331 | The answer and the new memory for each frame, up to the next await. |
| `CommandWindow.CommandSession.Enqueue` | app/api/realtime.py:331-332 | The admitted command joins the queue, or the queue is full. |
| `CommandWindow.CommandSession.Start` | app/api/realtime.py:307-309 | The worker takes the oldest waiting command. |
| `CommandWindow.CommandSession.Finish` | app/api/realtime.py:307-309 | The running command is done, and the worker free for the next. |
| `CommandWindow.AdmittedAlwaysFits` | app/api/realtime.py:323-332 | Whatever the worker does during the await between check and put, the queue has room. |
| `CommandWindow.StartedInOrder` | app/api/realtime.py:307-332 | Started commands are a prefix of the accepted ones, and no id repeats within 4097 accepted in a row. |
| `CommandWindow.RefusedExactly` | app/api/realtime.py:313-331 | The answer to every frame: pings are passed over, frames without a proper id are invalid, a command is a duplicate iff its id is among the last 4096 accepted, else busy iff eight wait, else accepted. |
| `AiClient.Complete` | app/ai/client.py:409-435 | The retry loop gives the specified outcome and number of posts. |
| `AiClient.RetriesExactly` | app/ai/client.py:409-435 | The posts are the shortest run of missing replies, missing connections and 5xx that ends in another reply, or all that are allowed; the last one decides. |
| `AiClient.RepliesTell` | app/ai/client.py:285-325 | Which replies are retried (none, no connection, 5xx), and the failure or text each reply is. |
| `AiClient.TriesAllowed` | app/ai/client.py:360 | One try, and one more for each allowed retry. |
| `AiClient.KeyFaultsAreFinal` | app/ai/client.py:285-325 | A key is refused iff the last post ends in 401, 403 or 429 or in the vendor's envelope that refuses it; an answer's text is that of a last post below 400. |
| `AiChain.AiProviderService.RotateKeys` | app/ai/service.py:472-479 | The keys start at the provider's cursor, which moves on by one. |
| `AiChain.CallsRotate` | app/ai/service.py:456-479 | A call asks the listed keys from the provider's cursor around, from the first without a cursor, and moves the cursor on by one. |
| `AiChain.AiProviderService.AskKey` | app/ai/service.py:961-1002 | One turn: the posts are made, and a refusal is recorded with its cooldown or a use with the cooldown cleared, unless the record is dropped. |
| `AiChain.RotationIsFair` | app/ai/service.py:472-479 | Over n calls with n keys each key leads exactly once, from any cursor. |
| `AiChain.RotationKeepsKeys` | app/ai/service.py:477 | A rotation loses no key. |
| `AiChain.AiProviderService.Ask` | app/ai/service.py:930-1002 | The keys whose cooldown is over are asked in rotated order until one answers; a refused one is given ten minutes, unreadable ones are passed over. |
| `AiChain.FirstKeyAnswers` | app/ai/service.py:961-1002 | The answer is that of the first key that serves; otherwise every key was asked. |
| `AiChain.DisabledIsPassedOver` | app/ai/service.py:887-912 | An entry with its provider or model disabled is not asked and does not serve. |
| `AiChain.EnabledIsAsked` | app/ai/service.py:887-912 | Any other entry is asked in its turn and serves iff a key answers with a text the caller accepts. |
| `AiChain.AiProviderService.CompleteChain` | app/ai/service.py:844-928 | The answer comes from the first enabled entry that answers validly; otherwise the reason tells whether any entry was enabled. |
| `AiChain.PostsAreBounded` | app/ai/service.py:887-912 | The posts made are at most the sum over enabled entries of keys times tries. |
| `AiCooldowns.OfferedExactly` | app/db/database.py:4319-4345 | An entry may ask a stored key iff the key has no cooldown, or its cooldown is over, when the entry reads the keys. |
| `AiCooldowns.AskedExactly` | app/ai/service.py:961-1002 | A key is asked iff it is among the entry's keys, can be opened and no key before it answers. |
| `AiCooldowns.RefusedKeyComesBackExactly` | app/ai/service.py:930-1002 | A recorded refusal that nobody touched: a later entry of the provider may ask the key iff ten minutes have passed, and does iff it comes to the key's turn. |
| `AiCooldowns.ShortChainsRestTheKey` | app/ai/models.py:57-68 | If timeouts and retries of the entries in between add up to less than ten minutes, a refused key is not asked again by them. |
| `AiCooldowns.RefusedKeyIsAskedAgain` | app/ai/models.py:57-68 | The input that fails: a chain [P, Q, P] whose second provider times out for twenty minutes asks P's refused key again, every post within its timeout. |
| `ChainOrder.Reorder` | app/ai/service.py:748-763 | The edited list, or an error for a model that is not in the chain. |
| `ChainOrder.ReorderingKeepsTheRest` | app/ai/service.py:748-763 | Each action keeps the chain free of repeats and the other models in their order, and puts the named model where it belongs. |
| `ChainOrder.ShiftMoves` | app/ai/service.py:755-758 | A shift puts the model at the clamped place and keeps the others in order. |
| `ChainOrder.ShiftIsUndone` | app/ai/service.py:755-758 | A shift that is not cut short at an end is undone by the opposite shift. |
| `ChainOrder.AppendIsUndone` | app/ai/service.py:753-762 | Appending a new model is undone by removing it. |

## Left out

- Decisions.Database.MatchingRuleInTransaction: a stored condition with an unknown operator counts as one
  RuleValidationError of the whole rule. Where an unsound comparison stands before that operator, the source raises
  the Python error of the comparison first, which the model does not tell.
- Followups.FollowupQueue.ProcessIngestFollowups: stated for a pass that nobody interrupts; interleavings are the
  subject of the run lemmas about single reports.
- ObservationChanges.ChangeProcessor.ProcessObservationChanges: the order and the limit of the query for pending
  ids are not modelled; the ids are an argument.
- ObservationChanges.ChangeProcessor.DeferObservationChange: the target key, the release of a processing ingest
  entry and the stop intents themselves are not modelled; the queue after them is an argument.
- ObservationChanges.ChangeProcessor.RetryOperation: the receipts of retry commands, retries of reference changes and
  the release of a processing ingest entry are not modelled; a command repeated with its key changes nothing.
- ObservationChanges.RoundSettlesExactly: an edit that raises raises an IngestError; any other exception, which ends
  the round, is not modelled.
- RearchiveBatch.RearchiveStore.PrepareMove: the journal is the set of works with an open row; the hash and the stamp
  of the file, and which attempt inserted the row, are not modelled.
- RearchiveRuns.NextRunMovesExactly: nobody else writes during a run or between two, a file whose move is undone is put
  back, and the job row that planning parks is not told. Targets end in `.cbz`, the one suffix a number is put before,
  and file names compare case-sensitively.
- Toolchain.ToolDirectory.InstallTool: a directory is absent, usable or unusable; which files a partial extraction
  leaves is not modelled. Digests and downloads are a yes or no.
- Sweeper.AutoApprovalSweeper.SweepOnce: cancellation in the middle of a pass, after the cursor has moved, is not
  modelled.
- AiCooldowns.RefusedKeyComesBackExactly: keys that an operator adds, disables or deletes during a call are not
  modelled; clearing a cooldown and using a key are.
- AiCooldowns.ShortChainsRestTheKey: a post is taken to end within its timeout; the HTTP client's timeouts are per
  phase, and nothing else bounds the time of a post.
- AiChain.AiProviderService.CompleteChain: an exception of the caller's own test that is no AiError, which ends the
  call, is not modelled; the test is a predicate.
- Child keys and request digests are SHA-256 values in the source and distinct terms here: collisions are not
  modelled.
- Floats: rounding, the range of finite floats and negative zero are not modelled, nor is the OverflowError that
  `float` raises for a huge JSON integer. The compression ratio is computed over reals.
- Unicode: case folding is an argument of the rules; file names and natural keys lower only ASCII letters. Digits
  are ASCII, so the error `natural_sort_key` raises for a digit such as a superscript two is not modelled.
- `PurePosixPath.suffix` is the one of Python 3.12 and 3.13; a name that ends in a dot has no suffix.
- What the packer makes of a pin chosen by hand is not part of this model; the plan only says which pin is dropped.
- `editor_rows` and the form parser it inverts, the trial run of a rule (`dry_run`, `preview`) and rule storage.
- The receipt query of a batch (`RearchiveCommands.receipt`) and the HTTP layer around every command.
- Extraction of answers from provider bodies, SSE parsing, request parameters, and the record of key use.
- Subprocesses, Pillow, network access, credentials, settings pages, serializers and templates.
- SQL text and locking: tables are maps or sequences and a write transaction is one step.
