# Verified model of Gniza's decisions

Gniza backs up cPanel accounts with restic. Most of its code moves bytes; some
of it decides who may see, delete or overwrite a backup, and a wrong decision
there loses or exposes one. This project models those decisions and proves what
they keep, over every input, every run, or every interleaving of steps.

Code that computes is a function here, code that updates state is a class with
the same fields and methods proved against a specification function, and
protocols are state machines whose steps are proved one by one and then over
all runs. What a specification function means is stated beside it without naming
it: by the paths, names, times and flags that go in and come out, and for a
machine by what its steps come to when nothing is between them.

| module | what it models |
|---|---|
| `NodeStore`, `Text`, `Paths` | the records on disk, and Go's `strings` and `path.Clean` |
| `PolicyCover`, `RemovalSafety` | whether an account may be terminated, and the fewest backups that would allow it |
| `Identity`, `HookSpool` | whose backups a cPanel name shows, call by call, with crash and replay |
| `IdentityRuns`, `IdentityExposures` | the same over whole runs, each call taken apart into its reads and writes, and the runs on which it goes wrong |
| `Forget`, `ForgetRuns` | what retention deletes, with any number of passes under way |
| `Retentions`, `RetentionRuns` | on whose authority it deletes, one call at a time and then read by read and write by write |
| `InventoryCache` | the single-flight cache, in every interleaving |
| `Scheduler`, `WorkQueue`, `BackupRun` | when a policy fires, the queue that runs it, and what a run reports about its destinations |
| `Chunker`, `ChunkerRuns` | whose chunker parameters a repository copies, and adds that overlap |
| `GrantPatterns`, `GrantLines` | a GRANT's database as a LIKE pattern, and reading grants back |
| `OutputWriters` | the line splitter and the capped buffer, for every way of cutting a stream |
| `Disk`, `Archive`, `ArchiveRoundTrip` | packing a directory and unpacking it, in full or by member |
| `Destination`, `Layout` | repository paths, and payload paths and their roles |
| `Granular`, `Kinds`, `Merging`, `Repeats` | what a granular restore reads, kind by kind and name by name, and when it names something twice |
| `WriteBack` | writing a restore into a live account |

## What does not hold

These are properties one might expect of the code and that it does not have.
Each is named with its input or run, and with the lemma that says exactly when
the property does hold.

- A turnover of a name that nothing reports, to a holder with the same uid,
  shows the newcomer the last holder's backups, though every step is in order
  (`IdentityExposures.SilentTurnoverExposes`). A listing is safe exactly when the
  record before it shuts out every stranger's backup (`IdentityRuns.ListingIff`),
  and `RunsShowOnlyOwn` says which runs see to that.
- A pass over the account list reads all records at once and writes each back
  later. A create event recorded in between is overwritten: its boundary is gone,
  and the newcomer is shown the last holder's backups
  (`IdentityExposures.LostBoundaryExposes`). `IdentityRuns.LaterIff` says of each
  write exactly when it keeps the boundary there is, `CoversIff` when it keeps
  all that is shut, whoever holds the name, and `BoundaryOverRuns` that a run
  keeps every boundary if and only if none of its writes goes back behind one.
- A create event that could not be recorded, and is retried after the removal
  that followed it, un-retires the departed holder's record
  (`IdentityExposures.RetriedCreateReopens`, `IdentityRuns.CreateSafeIff`).
- A rename into a name nobody recorded carries the old boundary along, and
  shows the backups an earlier holder left under the new name
  (`IdentityExposures.RenameExposes`, `IdentityRuns.RenameSafeIff`). It is enough
  that every backup stored under the new name is hidden by the moved boundary,
  which the engine could check (`RenameSafeWhenAllHidden`).
- A backup read from an account and stored after its name has passed to somebody
  else is dated on the newcomer's side of the boundary
  (`IdentityExposures.LateBackupExposes`, `IdentityRuns.LateBackupIff`).
- Spool files sort in time order only from 1970 on: the sign of a negative time
  sorts first and the digits behind it sort backwards (`HookSpool.StemOrder`).
- A plan that read the repository's record before an approval was withdrawn and
  writes it afterwards puts the withdrawn approval back
  (`RetentionRuns.WithdrawalCanBeLost`). A write keeps the record sound exactly
  when nothing was withdrawn since its read, or the same policy was approved
  again since (`CarryingIff`); deletion is authorised on every run of such writes
  (`RunsDeleteOnlyAuthorised`), and a record that is not sound can delete without
  authority (`RecordDecides`).
- Withdrawing an approval does not stop a pass that has checked it: its
  deletions go on (`RetentionRuns.WithdrawnYetDeleted`). A deletion follows a
  withdrawal only when its own check read the record before it, or the policy
  was approved again in between (`DeletesAfterWithdrawal`).
- A schedule that parses and has no instant ahead fires at every tick
  (`Scheduler.EmptyScheduleAlwaysFires`); `DueIff` says when one does.
- Forgetting the first repository, initialised or not, while one that copies it
  is not initialised yet can leave a server on which no repository can be
  initialised until all are forgotten (`Chunker.StrandedIsReachable`,
  `StrandedStays`). Forgetting a destination does so exactly when it leaves
  something, and all that was initialised or had nothing to copy was there
  (`ForgettingStrandsIff`); nothing else does (`OnlyForgettingStrands`).
- Two repositories added at once to an empty server can both be recorded as
  copying from nobody, and get a polynomial each
  (`ChunkerRuns.OverlappingAddsSplit`). Storing one keeps the polynomials
  together exactly when what it was made from was not empty, or nothing on record
  has a polynomial or could take one of its own (`PutIff`).
- An accepted repository path is not always accepted as itself again: "/ a" is
  cleaned to " a" and that to "a" (`Destination.SecondCleaningDiffers`,
  `AcceptedAgainIff`).
- A database that has to be created and is asked for twice is created once and
  not loaded (`WriteBack.AskedTwiceLeavesItEmpty`, `CompletesIff`).
- A single granular request can list one thing twice, since only several
  requests are merged: a file or a mailbox named twice, a domain named like
  another domain's web server files, a domain called "cache.json"
  (`Repeats.OneRequestRepeats`, `CacheDomainRepeats`). `RepeatFreeIff` says
  exactly which requests do not, kind by kind.
- The comment on `unescapeGrantDatabase` says an unescaped underscore or per
  cent is what it refuses; the code also refuses a pattern that ends in a
  backslash, and `grantPattern` escapes the underscore alone
  (`GrantPatterns.PatternRoundTripIff`).

## Model

| member | source | states |
|---|---|---|
| `PolicyCover.MinimumPolicyCover` | internal/node/removal.go:222-309 | The answer covers every missing repository with no more policies than any other covering choice, and is empty exactly when nothing is missing or nothing covers. |
| `PolicyCover.CoverExists` | internal/node/removal.go:241-245 | Some choice of policies covers the missing repositories exactly when each of them is written to by some policy. |
| `PolicyCover.CoverSearch.Search` | internal/node/removal.go:250-308 | The branch-and-bound call returns with covered, chosen and selected as it found them, and with a best selection that no cover extending the current one beats. |
| `PolicyCover.CoverSearch.TryAll` | internal/node/removal.go:293-305 | Trying every candidate that reaches one uncovered repository leaves nothing smaller unexplored. |
| `PolicyCover.CoverSearch.TryOption` | internal/node/removal.go:293-305 | One candidate is taken, explored and released: the counts, flags and selection are restored, and no cover with it beats the best. |
| `PolicyCover.CoverSearch.Take` | internal/node/removal.go:293-298 | The covered count of each repository rises by what the candidate reaches, and the candidate is chosen last. |
| `PolicyCover.CoverSearch.Release` | internal/node/removal.go:300-304 | The last candidate's counts are taken back, exactly undoing its Take. |
| `PolicyCover.CoverSearch.Branch` | internal/node/removal.go:271-292 | The repository branched on is uncovered and its options are all the unused candidates that reach it; no option at all means no cover extends the selection. |
| `PolicyCover.CoverSearch.BranchesComplete` | internal/node/removal.go:271-305 | Every cover extending the selection takes one of the branching repository's options, so the branches between them miss nothing. |
| `PolicyCover.CoverSearch.DeadEnd` | internal/node/removal.go:286-288 | A wanted repository that no unused candidate reaches shuts out every cover of the selection. |
| `PolicyCover.CoverSearch.SelectionBounds` | internal/node/removal.go:258-269 | A selection as large as the best can be pruned: everything extending it is at least as large. |
| `PolicyCover.GreedyPolicyCover` | internal/node/removal.go:311-341 | The greedy seed is a cover by distinct candidates, and it is empty exactly when no cover exists. |
| `PolicyCover.Unreachable` | internal/node/removal.go:319-337 | When no unused candidate gains anything, what is still uncovered cannot be covered. |
| `PolicyCover.CandidateMinimum` | internal/node/removal.go:223-241 | A minimum over the filtered candidates is a minimum over the policies as given. |
| `RemovalSafety.AccountRemovalSafety` | internal/node/removal.go:78-154 | Removal is allowed exactly when a full policy applies and every promised repository holds a complete successful copy within the smallest promised age. |
| `RemovalSafety.Expected` | internal/node/removal.go:83-103 | Each promised repository is held to the smallest age any applying policy promises for it. |
| `RemovalSafety.LatestOf` | internal/node/removal.go:104-122 | The time kept for a repository is that of its most recent complete copy under an applying policy. |
| `RemovalSafety.Missing` | internal/node/removal.go:123-142 | The repositories reported are exactly those whose copy is absent or older than promised. |
| `RemovalSafety.ApplyingIff` | internal/node/removal.go:352-383 | A policy applies exactly when it is an enabled full-account policy of the account with a usable freshness. |
| `RemovalSafety.MoreJobsKeepSafe` | internal/node/removal.go:104-153 | Adding jobs to the history never turns an allowed removal into a refused one. |
| `RemovalSafety.QueueRemovalPreparation` | internal/node/removal.go:160-212 | It is busy only when work is in flight. With one snapshot of the state a cover is always found when copies are missing; what is queued is a smallest one, and once its jobs have landed whole the removal is allowed at that instant. |
| `RemovalSafety.CoverFound` | internal/node/removal.go:180-191 | The applying policies always cover what is missing, so preparation never fails for want of a cover. |
| `RemovalSafety.CompletionSuffices` | internal/node/removal.go:104-154 | Complete copies at the missing repositories make the whole decision safe, whatever the other repositories held before. |
| `RemovalSafety.OnePolicyIff` | internal/node/removal.go:78-154 | With one policy removal is safe exactly when it is enabled, full and covers the account, its schedule has a gap, and each repository it writes to holds a whole copy of its own no older than twice the gap, or than the alert's days where there are some. |
| `RemovalSafety.PromisesAreEachOnes` | internal/node/removal.go:83-103 | Several policies promise exactly what each of them promises alone. |
| `RemovalSafety.FreshnessIs` | internal/node/removal.go:368-383 | What is promised is that allowance as a 64-bit duration, and nothing when the schedule does not parse or repeat, or the duration wraps. |
| `Identity.Engine.BackfillIdentities` | internal/node/identity.go:37-77 | Every listed name without a record gets one with no boundary of its own; every other record is left alone. |
| `Identity.Engine.NoteIdentity` | internal/node/identity.go:79-122 | The record becomes what the seen uid says of it: unchanged, or reopened with a boundary of now when the name is unknown after the backfill, was retired or changed uid. |
| `Identity.Engine.AccountCreated` | internal/node/identity.go:216-239 | A create event records the owner and a boundary no earlier than the one there was; a name without a unix account is reported gone and one that cannot be read is not recorded. |
| `Identity.Engine.AccountRemoved` | internal/node/identity.go:552-594 | The record is retired and kept, and the account leaves every named policy. |
| `Identity.Engine.UserSnapshots` | internal/node/identity.go:633-656 | The record is noted first, and the snapshots returned are exactly those not before the boundary it then has. |
| `Identity.Engine.ReconcileAccounts` | internal/node/identity.go:430-524 | Each listed name ends with its polled record or with the record of an absent, unretired name of the same uid; renames are one to one, happen only after a modification, miss no name that could take over a record, and carry the policies along. |
| `Identity.Engine.RenamePolicyAccount` | internal/node/identity.go:526-546 | Every policy that names the old account names the new one in its place. |
| `Identity.NotedCases` | internal/node/identity.go:79-122 | A note opens a record for a name never seen, one retired or of another uid, with a boundary unless the backfill has not run; any other record it leaves. |
| `Identity.PolledCases` | internal/node/identity.go:465-505 | A pass leaves a record in force of the uid it finds, and notes every other name. |
| `Identity.EventCases` | internal/node/identity.go:216-239 | A create event changes nothing that has as late a boundary and otherwise sets one; a removal retires a record once and keeps the rest of it. |
| `Identity.VisibleCases` | internal/node/identity.go:633-656 | Hidden is exactly what is older than the boundary of a record that has one. |
| `Identity.BoundaryNeverRetreats` | internal/node/identity.go:79-122 | No way of recording a name clears its boundary or moves it earlier. |
| `Identity.RemovalNeverWidens` | internal/node/identity.go:552-594 | Taking an account out of a policy never makes an enabled policy cover an account it did not cover: one left without accounts is disabled. |
| `Identity.RenameCarriesCover` | internal/node/identity.go:526-546 | After a rename a policy covers the new name as it covered the old, and everybody else as before. |
| `IdentityRuns.InvariantStep` | internal/node/identity.go:430-594 | What hides a stranger's backups, from the holder and from every listing under way, is kept by every step in order: each read and write of a note, a create or remove event, a pass, a rename or a forgetting, and whatever happens to the account between them. |
| `IdentityRuns.UndisturbedIsInOrder` | internal/node/identity.go:79-122 | A write is in order when nothing came between it and what its call looked up and read. |
| `IdentityRuns.NoteAlone` | internal/node/identity.go:79-122 | With nothing between them, the steps of a note leave the record a note leaves. |
| `IdentityRuns.CreateAlone` | internal/node/identity.go:216-239 | So do those of a create event, which is done at its read when it is on record already. |
| `IdentityRuns.RemoveAlone` | internal/node/identity.go:552-594 | And those of a removal. |
| `IdentityRuns.PassAlone` | internal/node/identity.go:465-476 | A pass puts back exactly a record in force of the uid it finds. |
| `IdentityRuns.RenameAlone` | internal/node/identity.go:476-521 | It moves a record exactly to a name without one and of the same uid. |
| `IdentityRuns.ForgetAlone` | internal/node/forget_account.go:32-82 | A forgetting of a retired account drops its record exactly when all it listed is gone. |
| `IdentityRuns.CoversIff` | internal/node/identity.go:465-476 | Comparing the record there is with the one about to be written tells exactly whether the boundary is kept and everything shut stays shut, whoever holds the name or comes to. |
| `IdentityRuns.LaterIff` | internal/node/identity.go:465-476 | One write keeps the boundary or moves it later exactly when none was recorded since its read that it would go back behind. |
| `IdentityRuns.ListingIff` | internal/node/identity.go:633-656 | A listing nothing interrupts shows only the holder's own backups exactly when the record before the call already shuts out each stranger's. |
| `IdentityRuns.ListingSteps` | internal/node/identity.go:633-656 | Such a listing is what its five steps come to: look up, read, note, list, read again. |
| `IdentityRuns.WriteSafeIff` | internal/node/identity.go:79-122 | After a write the next listing is safe exactly when what was written shuts out every stranger's backup. |
| `IdentityRuns.RunsShowOnlyOwn` | internal/node/identity.go:633-656 | Over every run in order, however its calls interleave, a listing noted once the last turnover is on record, and answered while the same customer holds the name, shows nothing but that customer's backups. |
| `IdentityRuns.BoundaryOverRuns` | internal/nodestore/queries.go:631-638 | Over every run without a forgetting, a name's boundary is never cleared or moved earlier if and only if no write goes back behind a boundary recorded since its read. |
| `IdentityExposures.SilentTurnoverExposes` | internal/node/identity.go:79-122 | A run, all in order, in which an unreported turnover to the same uid shows the newcomer the last holder's backups. |
| `IdentityExposures.LostBoundaryExposes` | internal/node/identity.go:430-476 | A run in which only the pass's late write is out of order: it takes away the boundary a live create event recorded, and the newcomer sees the last holder's backups. |
| `IdentityExposures.RetriedCreateReopens` | internal/node/identity.go:251-321 | A run in which only a create event retried after a removal is out of order, and exposes the departed holder's backups. |
| `IdentityRuns.CreateSafeIff` | internal/node/identity.go:216-239 | Recording a create event leaves the next listing safe exactly when every stranger's backup is older than the event says the account is. |
| `IdentityRuns.RenameSafeIff` | internal/node/identity.go:476-521 | Carrying a rename into an unrecorded name is safe exactly when the moved boundary hides every stranger's backup under that name. |
| `IdentityRuns.RenameSafeWhenAllHidden` | internal/node/identity.go:476-521 | It is enough that the moved boundary hides everything stored under the new name, or found there by a listing under way, whoever made it. |
| `IdentityExposures.RenameExposes` | internal/node/identity.go:476-521 | A run in which only a rename is out of order, and exposes an earlier holder's backups. |
| `IdentityRuns.LateBackupIff` | internal/node/run.go:267-300 | Storing a backup of an earlier holder leaves the next listing safe exactly when it was safe before and the record calls the present holder new. |
| `IdentityExposures.LateBackupExposes` | internal/node/run.go:267-300 | A run in which only a backup stored after the turnover is out of order, and is shown to the newcomer. |
| `HookSpool.StemOrder` | internal/hookspool/hookspool.go:70-131 | File names sort as their times do exactly when the later time is not negative. |
| `HookSpool.Write` | internal/hookspool/hookspool.go:70-131 | The first free of a hundred names is taken and the event put there; listing then gives what it gave before and this event, if it names an account. Nothing is overwritten, names still tell the times, and it fails exactly when none is free, the event is too large or of no kept kind. |
| `HookSpool.AttemptsDiffer` | internal/hookspool/hookspool.go:94-101 | No two of the hundred names are the same. |
| `HookSpool.NamesAre` | internal/hookspool/hookspool.go:91-101 | The names of each kind of event, at the first attempt and after. |
| `HookSpool.Pending` | internal/hookspool/hookspool.go:134-180 | Exactly the usable files come back, each once, oldest first when their times are not negative; every other listed file is counted as a problem and left. |
| `HookSpool.RecordEvent` | internal/node/identity.go:256-289 | One event is recorded as its kind says, and its file stays exactly when a create could not be recorded. |
| `HookSpool.ReplayHookSpool` | internal/node/identity.go:251-321 | The loop leaves the records and the files that replaying the events in order leaves. |
| `HookSpool.LastEventDecides` | internal/node/identity.go:251-321 | After a replay the last event of an account decides: a removal leaves no record of it in force and no policy naming it, a create that can be read a boundary no earlier than the event. |
| `HookSpool.ApplyAgain` | internal/node/identity.go:251-321 | Recording an event again after any part of it was recorded comes to what recording it once does. |
| `HookSpool.ReplaySurvivesCuts` | internal/node/identity.go:251-321 | However often and wherever a replay is cut off, the one that finishes ends with the same owners, boundaries, retirements, policies and files as one uninterrupted replay. |
| `HookSpool.LeftIsInert` | internal/node/identity.go:282-289 | Files that stay were not recorded, and replaying them changes nothing while their account stays unreadable. |
| `Forget.ReceiptCertifies` | internal/resticrun/completion.go:30-62 | A receipt certifies the snapshot it was written for and no other. |
| `Forget.CompletedIff` | internal/resticrun/completion.go:68-85 | An id counts as completed exactly when some receipt in the listing certifies it. |
| `Forget.CompletionReceipts` | internal/resticrun/completion.go:68-85 | The loop over the receipts collects those ids. |
| `Forget.ReceiptedIff` | internal/resticrun/completion.go:68-85 | A snapshot is certified exactly when a snapshot with the receipt tag carries "completed:" and its id, eight to 64 hexadecimal digits. |
| `Forget.ForgetPlanned` | internal/resticrun/forget.go:154-247 | What is deleted is exactly the removals of the groups that are safe by the receipts on record, nothing on a rehearsal, and nothing at all when an id is not an exact one or the keep policy is unusable. |
| `Forget.SafeRemovals` | internal/resticrun/forget.go:203-227 | Groups with a suspect member keep everything, receipts are in no group, and the remaining removals and totals are those of the rest. |
| `Forget.RemovedIff` | internal/resticrun/forget.go:203-227 | An id is removed exactly when an unblocked group of account backups lists it for removal. |
| `Forget.GoesIff` | internal/resticrun/forget.go:154-247 | What goes is exactly what a group lists that holds no receipts, is not protected, and whose every member is not reported incomplete and, where it has to be, receipted. |
| `Forget.TotalsConserved` | internal/resticrun/forget.go:57-125 | Kept and removed add up to the previewed account backups, whatever was protected. |
| `Forget.SameBlocked` | internal/resticrun/forget.go:190-202 | When nothing previewed depends on a receipt, not reading them changes no decision. |
| `Forget.Snapshots` | internal/resticrun/restore.go:96-129 | Every backup shown was listed and is no receipt, and is marked read whole exactly when something listed needs a receipt and one certifies it. All are shown in their order, or the latest n; receipts never take a place. |
| `ForgetRuns.ForgetPlannedDecides` | internal/resticrun/forget.go:154-247 | What ForgetPlanned deletes is a decision of the run machine, whatever landed since the preview. |
| `ForgetRuns.DecisionIsReplaced` | internal/resticrun/forget.go:190-227 | Everything a pass decides to delete is unprotected and was read whole, and so was something newer of its group. |
| `ForgetRuns.InvariantStep` | internal/resticrun/forget.go:131-247 | Every step of every pass, deletions cut off anywhere included, keeps: whatever is gone or decided on was read whole and has something newer of its group that was too. |
| `ForgetRuns.NewestIsThere` | internal/resticrun/forget.go:131-152 | From any backup ever read whole, the newer ones lead to one that is still there. |
| `ForgetRuns.StoredAndCertified` | internal/resticrun/completion.go:30-62 | A backup and its receipt can always be stored, and the receipt is what makes it verified. |
| `ForgetRuns.PassAlone` | internal/resticrun/forget.go:131-247 | A pass by itself deletes all it decided on, nothing else, and is over. |
| `ForgetRuns.RunsKeepVerified` | internal/resticrun/forget.go:154-247 | Over every run of backups, crashes before the receipt and any number of overlapping passes, each cut off anywhere, a group that once held a verified backup always does, and no receipt is lost. |
| `ForgetRuns.RunsDeleteOnlyReplaced` | internal/resticrun/completion.go:68-85 | Whatever disappears was verified and has a newer verified one of its group, even when things land between preview and delete. |
| `ForgetRuns.LonePassesKeepVerified` | internal/resticrun/forget.go:154-247 | One pass at a time, the same holds whichever member of each group a preview keeps. |
| `ForgetRuns.OverlappingPartitionsLoseAGroup` | internal/resticrun/forget.go:154-247 | Of the abstraction only: passes that overlap and previews that need not keep the newest, which no preview by restic is, can between them empty a group. |
| `Retentions.MergedIsGreatest` | internal/node/retention.go:40-63 | Each count of the merged policy is the greatest any enabled schedule writing here asks for, or zero. |
| `Retentions.MergedRetention` | internal/node/retention.go:40-63 | The loop computes the merge. |
| `Retentions.GreatestIsOne` | internal/node/retention.go:40-63 | There is one policy of which that is true. |
| `Retentions.Engine.RetentionFor` | internal/node/retention.go:301-315 | The merged policy, refused when it would keep nothing. |
| `Retentions.Engine.PlanRetention` | internal/node/retention.go:85-118 | A plan is recorded together with the policy it was taken under, and none on a failure. |
| `Retentions.Engine.ApproveRetention` | internal/node/retention.go:194-222 | An approval is recorded for the policy in force exactly when the stored plan was taken under that policy. |
| `Retentions.Engine.WithdrawRetention` | internal/node/retention.go:227-236 | The approval and its policy are cleared. |
| `Retentions.Engine.ApplyRetention` | internal/node/retention.go:127-190 | It deletes under the policy in force exactly when an approval of that policy stands, and then rewrites the plan but not the policy it was taken under. |
| `RetentionRuns.RunsDeleteOnlyAuthorised` | internal/node/retention.go:127-190 | Over every run of plans, approvals, withdrawals, applications, failures and schedule edits, interleaved between the reads and writes each is made of, in which no write carries an approval past its withdrawal, a deletion follows a check that found the merged policy non-empty and equal to a standing approval that followed a plan under it. |
| `RetentionRuns.CarryingIff` | internal/node/retention.go:288-352 | A write that carries the approval along keeps the record backed by a standing approval exactly when that approval was not withdrawn since the read, or the same policy was approved again since. |
| `RetentionRuns.UndisturbedIff` | internal/node/retention.go:288-352 | That can be told from what was logged between the read and the write. |
| `RetentionRuns.InvariantStep` | internal/node/retention.go:85-236 | What the log vouches for is kept by every read, check, write, edit and deletion. |
| `RetentionRuns.PlanAlone` | internal/node/retention.go:85-118 | The steps of a plan, with nothing between them, leave the record PlanRetention leaves, also when it fails. |
| `RetentionRuns.ApproveAlone` | internal/node/retention.go:194-236 | So do those of an approval and a withdrawal. |
| `RetentionRuns.ApplyAlone` | internal/node/retention.go:127-190 | And those of an application, which may check exactly when ApplyRetention would delete. |
| `RetentionRuns.RecordDecides` | internal/node/retention.go:127-190 | An approval in the record deletes as soon as the schedules ask for its policy, and with authority exactly when the record is backed. |
| `Retentions.LegacyApprovalAuthorisesNothing` | internal/node/retention.go:271-278 | An approval recorded before policies were stored with it authorises nothing. |
| `RetentionRuns.DeletesAfterWithdrawal` | internal/node/retention.go:225-236 | A deletion follows a withdrawal, with no new approval of its policy between, only when its own check read the record before it. |
| `RetentionRuns.WithdrawnYetDeleted` | internal/node/retention.go:127-190 | From any point between a check and its deletion, a fair run withdraws the approval and then deletes. |
| `RetentionRuns.CanBeApproved` | internal/node/retention.go:194-222 | A run that meets the condition reaches a backed approval, so the safety statement is about something. |
| `RetentionRuns.WithdrawalCanBeLost` | internal/node/retention.go:339-349 | A run in which a withdrawn approval is written back and stands in the record unbacked. |
| `InventoryCache.KeyIsUnambiguous` | internal/inventory/cache.go:56-60 | Two sources share an entry only when they are the same snapshot of the same repository key. |
| `InventoryCache.InvariantStep` | internal/inventory/cache.go:74-120 | Who reads, what is remembered and what was answered stay consistent under every step of every caller. |
| `InventoryCache.ResultsAreReads` | internal/inventory/cache.go:74-120 | In every interleaving, a result that is not an error equals a direct read of that snapshot. |
| `InventoryCache.ReadsAtOnce` | internal/inventory/cache.go:56-120 | At most one read of a key runs at a time, and each Forget of that key in the run allows at most one more. |
| `InventoryCache.AnswersAreFinal` | internal/inventory/cache.go:32-37 | An answer never changes once done, and no caller is given one that is not done or its own. |
| `InventoryCache.FailureEvictsOnlyItself` | internal/inventory/cache.go:108-118 | A failed read takes away its own entry and never a newer one. |
| `InventoryCache.StaleAnswersAreReadAgain` | internal/inventory/cache.go:74-106 | Over every run, an answer handed out from memory was published by a reader less than the time to live before, and its key was not forgotten in between. |
| `InventoryCache.FreshAnswersAreReused` | internal/inventory/cache.go:74-106 | Over every run, an answer published while it was the remembered one is what every caller is handed until the time to live is over or its key is forgotten. |
| `InventoryCache.EveryCallIsAnswered` | internal/inventory/cache.go:74-120 | From every reachable state each call can be answered, and by its own read of the repository whenever nothing is remembered or what is has expired. |
| `InventoryCache.CallReads` | internal/inventory/cache.go:104-120 | Then it reads once and is given what that read comes back with, which is remembered unless it is an error. |
| `InventoryCache.CallWaits` | internal/inventory/cache.go:92-103 | While somebody else reads, it waits and is given what that read comes back with. |
| `InventoryCache.OnlyWaitersGiveUp` | internal/inventory/cache.go:92-103 | Only a call that was waiting for another's read is ever left without an answer, and only by its own context. |
| `Scheduler.Engine.Schedule` | internal/node/run.go:665-756 | The policies that fire are exactly those enabled, writing somewhere, resolved and due, each once and in the order of the list; each has its firing recorded at the tick's own time, and no other last firing changes. |
| `Scheduler.DueIff` | internal/node/run.go:708-736 | A policy is due exactly when an instant has passed since the later of its last firing and the window's edge, or when its schedule has no instant ahead. |
| `Scheduler.ConsumedOnce` | internal/controller/scheduler.go:80-107 | Over every increasing sequence of ticks, an instant is consumed by at most one firing. |
| `Scheduler.Honoured` | internal/node/run.go:708-736 | An instant is honoured by a firing at or before any successful tick that comes less than the window after it. |
| `Scheduler.FiringsAreEarned` | internal/node/run.go:708-736 | A firing has an instant behind it that no earlier firing consumed, so a gap of any length gives one firing on return. |
| `Scheduler.EmptyScheduleAlwaysFires` | internal/node/run.go:708-736 | A schedule with no instant at all fires at every successful tick. |
| `WorkQueue.Rollup` | internal/job/job.go:61-96 | Which status a job's targets give it, each status characterised exactly. |
| `WorkQueue.Engine.RunningJobFor` | internal/nodestore/queries.go:532-553 | True exactly when some work of the account has not ended. |
| `WorkQueue.Engine.Enqueue` | internal/nodestore/queries.go:421-450 | All of the work is stored, pending and in one batch, when the account has none in flight, and none of it otherwise. |
| `WorkQueue.Engine.PendingWork` | internal/nodestore/queries.go:605-626 | The work returned is pending; it is a restore whenever one is, and nothing pending of its kind was queued before it. |
| `BackupRun.TargetFor` | internal/agent/agent.go:555-563 | It finds a destination exactly when the job has it. |
| `BackupRun.RunJob` | internal/agent/agent.go:325-450 | One line for every destination, in order: it succeeded exactly when its first upload landed whole or a second was made and did, and otherwise it failed; a job that could not be staged has no lines. |
| `BackupRun.RetryOnlyAdds` | internal/agent/agent.go:419-447 | Trying again takes no success back, and adds exactly the destinations whose second upload landed whole. |
| `BackupRun.RunBackup` | internal/node/run.go:237-331 | What a job is rolled up from: the report's lines, or one failure for each repository of the policy when it could not be staged. |
| `WorkQueue.ResultsEnd` | internal/node/run.go:304-331 | A staged job ends in success exactly when every destination got a whole copy, failed when none did, and a partial success otherwise; one that was not staged failed. |
| `WorkQueue.Engine.RunOnce` | internal/node/run.go:222-356 | The next piece of work ends with the status its uploads give it, always a final one, and nothing else changes. |
| `WorkQueue.Engine.Drain` | internal/node/run.go:982-994 | The loop ends with nothing pending: everything that was pending has been done once, restores before backups and each kind in the order it was queued, and ended as its uploads say. |
| `WorkQueue.DrainStep` | internal/node/run.go:982-994 | One more piece of work keeps the order, the once-each and the count of what is left. |
| `WorkQueue.Engine.RecoverFromRestart` | internal/node/node.go:213-252 | Exactly the running work becomes failed, and what was pending still is. |
| `WorkQueue.ExclusiveStep` | internal/node/run.go:108-126 | Every step keeps all unfinished work of an account in one batch, and at most one piece running. |
| `WorkQueue.RunsAreExclusive` | internal/node/run.go:152-235 | In every reachable state all unfinished work of an account came with one enqueue, and only the worker's own piece is running. |
| `WorkQueue.MethodsAreSteps` | internal/node/run.go:152-235 | What enqueueing, working and a restart promise are steps of that run. |
| `Chunker.ChunkerSource` | internal/nodestore/queries.go:253-274 | It ends on any chain, cyclic ones included, with the id of a stored repository: where the climb from an oldest one stops, and on reachable records a repository that copies from nothing on record. |
| `Chunker.Store.PutRepository` | internal/nodestore/queries.go:234-248 | A new repository copies from nobody when it is the first and from a stored root otherwise. |
| `Chunker.Store.DeleteDestination` | internal/nodestore/queries.go:190-221 | It is refused exactly while a schedule still sends backups to a repository there, and otherwise forgets exactly those repositories. |
| `Chunker.Store.EnsureProvisioned` | internal/node/run.go:34-88 | The pass initialises repositories in order until the first that cannot be, and counts them. |
| `Chunker.StepKeepsInv` | internal/nodestore/queries.go:228-274 | Adding, initialising and forgetting keep: either nothing is initialised and one repository may be on its own, or all initialised ones share a polynomial and none may be. |
| `ChunkerRuns.RunsShareOnePolynomial` | internal/nodestore/queries.go:228-274 | Over every run, adds that overlap included, in which none made from an empty listing lands beside a repository with a polynomial of its own, all initialised repositories share one. |
| `ChunkerRuns.PutIff` | internal/nodestore/queries.go:234-248 | Storing a new repository keeps that possible exactly under that condition. |
| `ChunkerRuns.AloneIsStep` | internal/nodestore/queries.go:234-248 | An add nothing comes between is PutRepository's own step. |
| `ChunkerRuns.UnfairSplits` | internal/node/run.go:34-88 | And when the condition fails, two initialisations give two polynomials. |
| `ChunkerRuns.OverlappingAddsSplit` | internal/nodestore/queries.go:234-248 | A run in which two adds list the empty store, and both repositories get a polynomial of their own. |
| `Chunker.PolynomialOutlivesItsRepository` | internal/nodestore/queries.go:253-274 | And it stays that one, whatever is added and forgotten, until no repository is left. |
| `Chunker.StrandedStays` | internal/node/run.go:53-64 | Once no repository is initialised and none may be on its own, none is ever initialised again until all are forgotten. |
| `Chunker.ForgettingStrandsIff` | internal/nodestore/queries.go:190-221 | Forgetting a destination strands a server exactly when it leaves something, and everything initialised or with nothing to copy was there. |
| `Chunker.OnlyForgettingStrands` | internal/nodestore/queries.go:228-274 | No other step does. |
| `Chunker.StrandedIsReachable` | internal/nodestore/queries.go:190-221 | Two runs that do: the first repository is forgotten before or after it was initialised, the second not being so. |
| `Chunker.ProvisionIsSound` | internal/node/run.go:34-88 | A pass only initialises, keeps the shared polynomial, and leaves what it has not come to as it was. |
| `Chunker.ProvisionIff` | internal/node/run.go:34-88 | With restic answering, a pass initialises everything exactly when each repository's source is initialised or comes earlier in the listing. |
| `GrantPatterns.LikeRules` | internal/inventory/dbusers.go:85-95 | What a pattern means: an underscore is any character, a backslash makes the next one itself, a per cent is any run. |
| `GrantPatterns.LiteralIff` | internal/inventory/dbusers.go:85-114 | A pattern without a dangling backslash spells a name exactly when a single name matches it, and that is the name. |
| `GrantPatterns.UnescapeGrantDatabase` | internal/inventory/dbusers.go:97-114 | The scan says literal exactly when one name matches, returns that name, and refuses every dangling backslash. |
| `GrantPatterns.PatternRoundTripIff` | internal/cpanel/putback.go:130-132 | Unescaping undoes grantPattern on exactly the names without a per cent and a backslash. |
| `GrantPatterns.PatternCoversOnlyItself` | internal/cpanel/putback.go:122-132 | A grant written for such a name matches that database and no other. |
| `GrantPatterns.UsableNames` | internal/granular/granular.go:532-548 | Both hold for every name UsableDatabaseName accepts, and without the escape a name with an underscore would match more. |
| `GrantLines.StagedIff` | internal/inventory/dbusers.go:42-43 | The groups taken from a line are those of the match with the longest privileges, and there are some whenever the expression matches at all. |
| `GrantLines.GranteeIff` | internal/inventory/dbusers.go:42-43 | A line is split into grant and grantee in one way only, by its last four quotes. |
| `GrantLines.ParseGrants` | internal/inventory/dbusers.go:46-83 | The whole file is read line by line into each user's grants, or refused for the reason of its first bad line. |
| `GrantLines.ReadOne` | internal/inventory/dbusers.go:49-81 | One line is skipped, refused for its reason, or read as one user's grant on one database. |
| `GrantLines.SkippedIff` | internal/inventory/dbusers.go:49-57 | A line is skipped exactly when it is blank, a comment or makes a user, and unreadable when it is none of these and no grant. |
| `GrantLines.GroupedAt` | internal/inventory/dbusers.go:77-80 | Each user is given exactly its own grants, in the order of the file. |
| `GrantLines.NothingIsWidened` | internal/inventory/dbusers.go:85-95 | Every grant that will be given back was, in some line, on a pattern that matches one database, which is the one it names. |
| `GrantLines.PrintedGrantsReadBack` | internal/inventory/dbusers.go:46-83 | Every list of printed single-database grants is read back as it was printed. |
| `GrantLines.KeyIsUnambiguous` | internal/inventory/dbusers.go:77-80 | The key user@host tells two logins apart as long as no host carries an at sign. |
| `OutputWriters.LineWriter.Write` | internal/resticrun/command.go:158-179 | One write has the effect of its bytes one at a time, or of those up to its last newline when the unfinished line would pass the bound. |
| `OutputWriters.LinesReadBack` | internal/resticrun/command.go:144-152 | The byte-at-a-time reading gives back exactly the non-empty lines a stream was made of, and its unfinished tail. |
| `OutputWriters.LinesAreThePieces` | internal/resticrun/command.go:144-179 | Of any stream, cut at its newlines, the lines are the pieces that are not empty, and what follows the last newline is held. |
| `OutputWriters.OnlyTheTailIsLost` | internal/resticrun/command.go:158-179 | Past the bound only the unfinished line of that write is lost; every line it completes is still handed on. |
| `OutputWriters.SplitterIff` | internal/resticrun/command.go:144-179 | For every way of cutting a stream, the lines emitted and the line held are those of the whole stream exactly when no write leaves an unfinished line past the bound. |
| `OutputWriters.LinesIff` | internal/resticrun/command.go:158-179 | For a stream that ends in a newline the emitted lines alone are right exactly then. |
| `OutputWriters.PendingIsBounded` | internal/resticrun/command.go:154-156 | The held line never passes the bound. |
| `OutputWriters.CappedWriter.Write` | internal/resticrun/command.go:127-142 | The new buffer and the new mark, and always a full write reported. |
| `OutputWriters.CappedKeepsFirst` | internal/resticrun/command.go:127-142 | For every way of cutting a stream the buffer holds its first limit bytes, and the mark is set exactly when more came or an empty write found the buffer full. |
| `OutputWriters.NonEmptyWrites` | internal/resticrun/command.go:127-142 | Without empty writes the mark is set exactly when more than limit bytes came. |
| `OutputWriters.EmptyWriteMisreports` | internal/resticrun/command.go:127-142 | An empty write to a full buffer sets the mark although nothing was lost; the writers here are fed by exec's copying (command.go:83-97), which makes no empty write, so for them NonEmptyWrites holds. |
| `Paths.CleanIsIdempotent` | internal/reassemble/tar.go:252-254 | Cleaning twice is cleaning once. |
| `Paths.CleanRules` | internal/reassemble/tar.go:252-254 | The rules of path.Clean: an empty segment and a dot go, a parent takes the name before it away, and nothing is above the root. |
| `Paths.StaysBeneath` | internal/reassemble/tar.go:252-261 | Pieces that never climb above where they start lead to the same names beneath any place. |
| `Paths.PlainStaysBeneath` | internal/destination/destination.go:61-66 | Plain segments joined to any root end up beneath it, as themselves. |
| `Destination.AcceptedIff` | internal/destination/destination.go:67-88 | A repository path is accepted exactly when its trimmed text has no backslash or zero byte and cleans to something that does not leave; what is accepted has only plain segments, and the check after cleaning refuses nothing more. |
| `Destination.AcceptedStaysBeneath` | internal/destination/destination.go:67-88 | An accepted path joined to any root lies strictly beneath it. |
| `Destination.AcceptedAgainIff` | internal/destination/destination.go:67-88 | An accepted path is accepted again as itself exactly when it has no space at either end. |
| `Destination.SecondCleaningDiffers` | internal/destination/destination.go:67-88 | Two paths that cleaning again changes or refuses. |
| `Archive.SafeNameStaysInside` | internal/reassemble/tar.go:252-261 | No entry name, whatever it says, is put anywhere but beneath the extraction directory. |
| `Archive.SafeNameIs` | internal/reassemble/tar.go:252-261 | An entry goes where its name's own segments lead, and nowhere when they lead out or start at the root. |
| `Archive.HeaderNameReadsBack` | internal/reassemble/tar.go:213-216 | The name an entry is packed under is unpacked where it came from. |
| `Archive.LinkIff` | internal/reassemble/tar.go:144-168 | A link with nothing in its way is put, as it is, exactly when its target is relative and following it from the link's directory never climbs above the top. |
| `Archive.LinksStayBeneath` | internal/reassemble/tar.go:144-168 | Wherever the directory is, the target of such a link lies beneath it. |
| `Archive.UnpackedWasAcceptable` | internal/reassemble/tar.go:72-175 | Any archive unpacked to its end held, of what was asked for, no name or link leading out and no file past the limit, and as many files as were counted. |
| `Archive.TouchesOnlyTheAsked` | internal/reassemble/tar.go:72-175 | Nothing is touched but what was asked for and the directories on the way. |
| `Archive.CreateTar` | internal/reassemble/tar.go:181-240 | Every path of the tree is packed once, in the walk's order, unless there is a socket. |
| `Archive.Directory.ExtractTarFiltered` | internal/reassemble/tar.go:72-175 | Entry by entry, what is kept is put on disk and counted, and the first that is refused stops it; whatever the archive holds, a directory whose links all lead inside stays so. |
| `Archive.Directory.ExtractMembers` | internal/reassemble/tar.go:41-64 | Asked for nothing it refuses; otherwise it extracts what the prefixes name. |
| `Disk.MkdirAllAdds` | internal/reassemble/tar.go:120-133 | Where only directories are in the way, the missing ones are made and nothing else is touched. |
| `Disk.KeptStep` | internal/reassemble/tar.go:107-168 | A kept entry is put exactly when it is allowed, and the directory is then what it should be one entry later. |
| `Disk.AncestorsFirst` | internal/reassemble/tar.go:191-204 | A walk visits every directory on the way to a path before the path. |
| `ArchiveRoundTrip.RoundTripIff` | internal/reassemble/tar.go:72-240 | What was packed is unpacked exactly when every link stays inside and no file is too large: the same directories, files and links with the same contents, modes up to the forced bits and the umask, and nothing besides. |
| `ArchiveRoundTrip.MembersAreTheRestriction` | internal/reassemble/tar.go:41-175 | Unpacking some members gives the tree cut down to them and the directories leading to them, and returns how many of them are regular files. |
| `ArchiveRoundTrip.MemberIff` | internal/reassemble/tar.go:45-63 | A request ending in a slash names a directory and everything beneath it, any other names one file, and the archive's top directory does not count. |
| `ArchiveRoundTrip.AskedIff` | internal/reassemble/tar.go:45-63 | Of several requests, a member is unpacked exactly when one of them names it. |
| `ArchiveRoundTrip.UnchangedIff` | internal/reassemble/tar.go:268-270 | Without a umask a node comes back with its mode exactly when it has all of the owner's bits and none above permission. |
| `ArchiveRoundTrip.RestoredIsStable` | internal/reassemble/tar.go:268-270 | Packing what was unpacked loses nothing further. |
| `Layout.ClassifyPaths` | internal/reassemble/reassemble.go:202-243 | Each path is given the role its name says, and the combination is refused unless it is one payload. |
| `Layout.RoleEndings` | internal/reassemble/reassemble.go:202-221 | A path's role is what it ends in. |
| `Layout.ClassifiedIff` | internal/reassemble/reassemble.go:222-242 | Accepted is exactly the server's settings without a part of an account, an archive without parts, or metadata with a home directory, and never two home directories. |
| `Layout.PlanIs` | internal/pkgacct/pkgacct.go:196-245 | Which requests are planned, and the paths of the plan. |
| `Layout.OrderIsImmaterial` | internal/reassemble/reassemble.go:202-243 | Any permutation of paths with one of each role is classified the same. |
| `Layout.RolesRecoveredIff` | internal/pkgacct/pkgacct.go:196-276 | For every plan and every permutation of its paths, the roles and the mode come back exactly when the payload includes a home directory that does not end like a part or an archive; every other split payload is refused. |
| `Granular.BuiltFromParts` | internal/granular/granular.go:230-274 | Whatever names are given, every path to be restored is a part of the snapshot or beneath one. |
| `Granular.MembersComeWithMetadata` | internal/granular/granular.go:375-393 | Members of the metadata archive are asked for only together with the archive itself. |
| `Granular.PrefixIsBeneath` | internal/granular/granular.go:496-511 | A cleaned path whose text begins with the home directory and a slash is beneath it, segment by segment. |
| `Granular.UnderHomeIff` | internal/granular/granular.go:496-511 | With a clean home directory a name is accepted exactly when where it leads is that directory or beneath it, segment by segment, and then that is what is restored. |
| `Granular.FilesAreNamed` | internal/granular/granular.go:345-358 | A request for files is granted exactly when every name is inside the home directory, and restores what was named, in order. |
| `Granular.DumpsAreNamed` | internal/granular/granular.go:395-408 | A request for databases is granted exactly when every name is simply a name, and restores the dump of each right beneath the databases. |
| `Kinds.PlainNameIff` | internal/granular/granular.go:514-522 | A database may be named by anything without a slash, a backslash or two dots in a row. |
| `Kinds.UserNameIff` | internal/granular/granular.go:588-596 | A database user by at most 32 word characters and dollar signs. |
| `Kinds.DatabaseNameIff` | internal/granular/granular.go:532-548 | One to be created by at most 64 of those. |
| `Kinds.DomainByLabels` | internal/granular/granular.go:557-581 | A domain is two or more labels of at most 63 word characters and inner hyphens, and 253 characters in all. |
| `Kinds.FixedKinds` | internal/granular/granular.go:244-270 | The members of the settings, the cron jobs and the FTP accounts, and the server's own part. |
| `Kinds.WebsiteKind` | internal/granular/granular.go:243-243 | The website is public_html in the home directory. |
| `Kinds.UsersKind` | internal/granular/granular.go:435-453 | The database users come as their three files, for acceptable names. |
| `Kinds.MailKind` | internal/granular/granular.go:375-393 | Mailboxes come in order, with the mail settings when the metadata is there. |
| `Kinds.DnsKind` | internal/granular/granular.go:176-188 | The zones of the domains named, in order, or all of them. |
| `Kinds.SslKind` | internal/granular/granular.go:191-203 | Their certificates in order and the older stores, or all of them. |
| `Kinds.DomainsKind` | internal/granular/granular.go:207-223 | The files of each domain named and what tells them apart, and nothing else; or all of it. |
| `Kinds.NamesAreNeeded` | internal/granular/granular.go:230-237 | Without an account nothing is granted, and without names no files, mailboxes or databases. |
| `Granular.BuildAll` | internal/granular/granular.go:284-310 | One request is passed on; several are granted exactly when each can be, and then ask for what some request needs, each thing once; and none is refused. |
| `Merging.AddNew` | internal/granular/granular.go:316-330 | The values already there, then each new one once. |
| `Merging.MergeIsUnion` | internal/granular/granular.go:316-330 | Merging is a union without repeats that keeps what was there in front. |
| `Merging.AllOrNothing` | internal/granular/granular.go:284-310 | Several requests are built together exactly when each of them can be. |
| `Merging.GatheredIsUnion` | internal/granular/granular.go:284-310 | The paths and members of several requests are exactly those some request needs, each once. |
| `Merging.GatheredMetadata` | internal/granular/granular.go:284-310 | The metadata archive is named exactly when some request needs it. |
| `Granular.GatheredFromParts` | internal/granular/granular.go:284-310 | What several requests need together stays within the snapshot's parts. |
| `Repeats.RepeatFreeIff` | internal/granular/granular.go:284-330 | What is built names no path and no member twice exactly when there were several requests, or the names of the only one are apart, kind by kind. |
| `Repeats.OneRequestIff` | internal/granular/granular.go:230-273 | The same of one request: its files or mailboxes lead to different places, no mailbox to the metadata archive, its databases and domains differ, and no domain is named like another's web server files or "cache.json". |
| `Repeats.BlocksApart` | internal/granular/granular.go:207-223 | Two domains share a member exactly when they are one, or one is named like a file of the other. |
| `Repeats.OneRequestRepeats` | internal/granular/granular.go:284-290 | A file named twice in one request is listed twice. |
| `Repeats.CacheDomainRepeats` | internal/granular/granular.go:207-223 | A request for the domain "cache.json" alone is granted and names a member twice. |
| `WriteBack.CheckDatabaseDumps` | internal/agent/items.go:563-585 | It passes exactly when something is named and each has a dump, and lists the databases the account does not have. |
| `WriteBack.CheckDatabaseUsers` | internal/agent/items.go:592-668 | It passes exactly when the backup holds users, each wanted name is among them, and every grant of the chosen ones is on a database that is there or being made. |
| `WriteBack.CheckAll` | internal/agent/items.go:381-432 | The first half of the write-back passes exactly when the account can be read, every dump, user and file is there and every grant has its database. |
| `WriteBack.Account.Write` | internal/agent/items.go:450-502 | The second half makes the planned changes up to the first the panel refuses, and reports those and no others. |
| `WriteBack.Account.ApplyItems` | internal/agent/items.go:338-503 | The account is untouched unless every check passed; then it has had exactly the planned changes before the first refusal, in order, and exactly those are reported. |
| `WriteBack.EveryTargetIsThere` | internal/agent/items.go:433-480 | When its turn comes, every load and every grant finds its databases on the account, there from the start or created by an earlier step. |
| `WriteBack.StepsAreWhatWasAsked` | internal/agent/items.go:354-378 | The planned changes are exactly what the selections name: each database asked for is loaded, and created when it is missing; the home directory, the cron jobs and the users picked are written when some selection asks for them. |
| `WriteBack.CompletesIff` | internal/agent/items.go:450-502 | With the panel agreeing to everything it can, a checked write-back comes to its end exactly when no database that has to be created was asked for twice. |
| `WriteBack.AskedTwiceLeavesItEmpty` | internal/agent/items.go:464-480 | Asked for twice, a missing database is created once and loaded not at all. |

## Left out

Assumptions and abstractions:

- restic is what its preview, listing and deletion say: a preview is any partition by host and tags that keeps at least one of a non-empty group, and a call that is cut off has deleted some of what it was given and nothing else.
- cron is a set of instants with a horizon; tar encoding, bbolt, MySQL and cPanel's own tools are not part of this model.
- Store writes succeed; every call on the store is one step in the modules that follow it call by call, and `RetentionRuns`, `IdentityRuns` and `ChunkerRuns` interleave the reads and writes calls are made of.
- The uid lookup, the account list, clock readings, restic's answers and the panel's answers are parameters.
- Each method of `Identity` and `HookSpool` is one call with nothing in between; `IdentityRuns` takes the calls apart. One pass over the account list reads the clock once. The backfill runs before anything is served.
- IdentityRuns.RunsShowOnlyOwn: holds on the runs whose steps are in order; `UndisturbedIsInOrder` says that a call nothing comes between is, and `LostBoundaryExposes`, `RetriedCreateReopens`, `RenameExposes` and `LateBackupExposes` show what a single step out of order does. A forgetting drops a record only when all it listed is gone.
- ForgetRuns.RunsKeepVerified: assumes of restic that whatever a preview removes is older than something of its group that it keeps, as any positive keep count has it when no two times are equal; `LonePassesKeepVerified` does without, one pass at a time.
- RetentionRuns.RunsDeleteOnlyAuthorised: holds on the runs in which every write meets the condition of `CarryingIff`; `WithdrawalCanBeLost` is a run outside them.
- HookSpool.ReplaySurvivesCuts: every attempt gets the same answer for an account.
- HookSpool.Write: where the account's name is found in the payload is not modelled.
- InventoryCache.ResultsAreReads: a snapshot's containers always read the same; expiry is by the cache's own clock.
- RemovalSafety.AccountRemovalSafety: the explanatory text, its order and the grouping of several accounts are not modelled.
- HookSpool.Pending: the text of the problems it reports is not modelled, only their number.
- WorkQueue.Engine.Drain: nothing is queued meanwhile and no run reports an internal error, which in the code ends the inner loop until the next tick.
- ChunkerRuns.RunsShareOnePolynomial: attaching a repository made elsewhere is not a step of the run, and updates of a stored repository keep its source and bring back none that was forgotten. Ids are numbers, and never used twice.
- Chunker.Store.PutRepository: the listing and the put are one step; `ChunkerRuns` takes them apart. `StrandedStays` and `PolynomialOutlivesItsRepository` are about adds nothing comes between.
- GrantPatterns.LiteralIff: names are compared byte for byte; MySQL's case rules for database names are not part of this model.
- GrantLines.ParseGrants: white space is ASCII white space.
- OutputWriters.LineWriter.Write: that an emitted line shares memory with the writer's buffer is not modelled.
- Archive.Directory.ExtractTarFiltered: an entry beneath a link is refused, where os.Root follows a link that stays inside; a refused entry leaves nothing, where the code may leave the directories it made for it; the archive itself always reads. Links are judged by what their targets say, as the code judges them, not by what another link on the way would make of it.
- ArchiveRoundTrip.RoundTripIff: owners, times and extended attributes are not modelled; the walk's order is any order that visits a directory before what is in it.
- Layout.RolesRecoveredIff: the staging directory is absolute, as the agent's is.
- Granular.BuiltFromParts: descriptions are not modelled.
- WriteBack.Account.ApplyItems: a provider call that reports an error has changed nothing; hints and error texts are not modelled.

Not modelled:

- The controller's lease protocol: its deciding half is in SQL that is not part of this model.
- Staging estimates, progress records, error texts and the figures of a report.
- QueueInitialBackup and QueueSuspensionBackup, which enqueue through the modelled queue.
- PutDatabaseUsers' partition of users and the script it writes, beyond its grant patterns.
- Attaching repositories, vault and secret handling, notifications, TLS, the web pages and the command line: easy members or I/O.
