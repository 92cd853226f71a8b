# Ledger backend: a verified model

This project models the hardest logic of a personal-ledger server written in Go and proves properties of it in Dafny 4.11.
Code that changes state in the server (classes with fields, loops over arrays and maps, transactions) is modelled by classes
and methods proved against specification functions; expressions and queries are functions. What the server promises is then
proved about those functions, for all inputs, runs and interleavings.

`dafny verify dfyconfig.toml` checks all modules together.

## Components

**Crash-safe attachment restore** — `AttachmentDisk`, `AttachmentRoot`, `AttachmentStaging`, `AttachmentRestore`,
`AttachmentSafety`, `AttachmentService`, `AttachmentBarrier`, `RestoreNames`.
A restore commits the user's rows together with a marker that names a generation of uploaded files, and then moves the upload
directory forward by renames: active to previous, stage to active, each followed by a directory sync. The disk is a *volatile*
directory table, the tables a crash could still leave (one per unsynced operation), and the set of directories whose contents are
durable; a crash keeps any prefix of the unsynced operations. `AttachmentDisk` states the crash invariant and shows that every step
keeps it; `AttachmentRestore` and `AttachmentService` are the plan and the service as classes, in which every file-system call may
fail and every outcome of the database transaction is possible; each method also collects the states it passes through, so that
`Crash` can pick any of them. `AttachmentBarrier` interleaves that
service's restores and recoveries, crashes, and any number of threads that upload and read under the shared barrier.

**Sessions** — `Sessions`: login in two steps (check the password against a snapshot, then commit), refresh with rotation, family
logout and password change, as atomic transactions over shared rows, in every interleaving.

**Report generation** — `GenerationLock` (the reference-counted lock per key), `ReportGeneration` (cache reuse under the lock).

**Limits** — `SlidingWindow`, `RequestLimiter`, `AttemptLimits`.

**Money** — `Decimal`, `Rounding`, `Money`, `FloatCarrier`. An amount is a number of cents or invalid; machine integers are
64 bits wide (`int64`, `uint64` newtypes), so that every overflow would be an error. The float carrier is treated in
`FloatCarrier` alone, over `real` with a relative error bound (section 4.3.1 of IEEE 754-2019).

**Ledger** — `Ledger`, `LedgerService`, `History`, `LedgerHistory`, `Summary`, `Lending`, `Reminder`: signed balances of asset and
debt accounts, transactions, the chained log of balance changes, historical balances and net worth read from the log of any run,
loans and repayments, reminder payments and rollbacks.

**Backup format** — `JsonTree`, `BackupScanner`, `BackupPreflight`, `BackupEnvelope`, `BackupRules` (the bounded streaming check),
`Text`, `PortablePaths`, `UploadReferences`, `BackupOwners`, `BackupTransfer` (paths, references and owners),
`BackupFormat`, `BackupRows`, `BackupGuard` (rows out and in again). `Optional` is shared.

Beside the laws over runs, every operation is described once more apart from the function that computes it: when it is refused,
what it changes and what it leaves alone (lemmas named `...Answers`, `...Changes`, `...Means`, `...Moves`), with names, numbers and
signs written out.

## Where the code does less than one would expect

For each of these the project has a lemma or a run with a concrete input that shows it (named first), and the exact condition under
which the promise holds (named second). The last one depends on failures of the file system and has the condition only.

- An expired refresh token cannot log out its session family, although a successor of it may be live: validation comes before the
  revocation (`Sessions.ExpiredTokenRevokesNothing`, `Sessions.LogoutRevokesIff`).
- An invalid amount counts as zero cents in the next addition, so a running total forgets that it overflowed
  (`Summary.SummaryForgetsOverflow`, `Summary.TotalIsRightIffInRange`).
- The guard of the float carrier admits 2^53 - 1 cents, but the relative error bound alone guarantees the way there and back only
  below 2^51 (`FloatCarrier.FloatBoundIsTight`, `FloatCarrier.FloatRoundTrip`).
- The request limiter uses the empty key as "none found yet", so that a table at capacity may evict nothing and grow
  (`RequestLimiter.EmptyKeyOverfills`, `RequestLimiter.GlobalRateLimiter.Allow`).
- The query for historical balances breaks ties in time by a random id (`History.TieGoesWrong`,
  `History.QueryIsRightIffTiesInOrder`).
- Deleting the opening transaction of a loan lowers its balance but not its principal (`Lending.OpeningDeleted`,
  `Lending.OpeningRollback`).
- Taking back a reminder payment that paid interest only treats the whole amount as principal, because a stored zero reads as "not
  split" (`Reminder.InterestOnlyRollback`, `Reminder.RollbackKeepsTotalsIff`).
- A debt account is clipped at zero, so paying more principal than is owed loses the rest, and taking it back does not restore the
  debt (`Reminder.OverpaidAndAssetDebt` and `Reminder.OverpaidRollback`, `Reminder.PaymentCostsInterestIff` and
  `Reminder.RollbackRestoresIff`).
- A reminder may name an account that is not a debt account; a payment then takes the principal from that account as well
  (`Reminder.OverpaidAndAssetDebt`, `Reminder.PaymentCostsInterestIff`).
- A user with a reference to a row that no longer exists can be backed up, but the backup cannot be restored
  (`BackupGuard.DanglingIsNotClosed`, `BackupGuard.BackUpAndRestore`). The comment at
  backend/internal/service/backup_guard.go:11-14 says that such references remain accepted; lines 98-100 reject them.
- Transactions with an empty source and reports with an empty status come back from a backup with the schema's default
  (`BackupGuard.DefaultsComeBack`, `BackupRows.OnlyExcludedIsLost`).
- An entry of a JSON list with white space around a reference passes the collection of owners, which trims it, and then fails the
  remapping, which does not (`BackupTransfer.PaddedReferenceFails`, `BackupTransfer.AcceptableIffNotPadded`).
- Once an attempt to activate has succeeded and cleared the stage name of its plan, the retry with that plan fails its own validation:
  if the probe in between fails too, the user is left pending although the generation is active
  (`AttachmentService.BackupService.Finalize`).

In the ledger's account, opening balances are booked as income or expense; "income less expense" below includes them.

## Model

The first twenty rows are the main results; the others follow component by component.

| member | source | states |
|---|---|---|
| `AttachmentService.BackupService.RestoreBackup` | backend/internal/service/backup.go:294-510 | For every outcome of the transaction and every file-system failure all states passed through are safe; nil means new rows and the new complete generation durably active; a clean abort is answered as a rejection, with nobody pending, nothing changed and the stage gone; pending is answered only to who was pending, after an unreadable outcome, or if a committed generation could not be activated |
| `AttachmentService.BackupService.RestoreAndSurvive` | backend/internal/service/backup.go:350-509 | A restore with any outcome, any number of crashes from within it on, and a clean start: rows and files are both old or both new |
| `AttachmentService.BackupService.RecoverAttachmentRestores` | backend/internal/service/backup_attachment_recovery.go:108-181 | A nil return means all markers were loaded and valid and every marked user is durably active and not pending; without failures the root becomes exactly the recovered table; without storage it succeeds only if there is no marker |
| `AttachmentDisk.CrashKeepsInv` | backend/internal/service/backup_attachments.go:533-640 | Whatever subset of unsynced directory operations and writes a crash keeps, the invariant still holds and the tree of every unedited marker is complete |
| `Sessions.NoSessionWithoutPassword` | backend/internal/service/auth.go:151-176 | A user without rows has none after any run in which no request came with the right password |
| `AttachmentBarrier.StorageBarrier.ReaderSeesMarker` | backend/internal/service/attachment_barrier.go:8-44 | In every interleaving of restores, recoveries, crashes, uploads and checks, a reader that passed the check finds the generation of the committed marker active, with the files of its manifest until someone edits them, or there is no marker |
| `Sessions.LogoutIsFinal` | backend/internal/service/auth.go:235-261 | After a browser logout with any validating token of a family, legacy or not, no live row of the family exists then or in any later state, also when there was nothing to delete |
| `Sessions.PasswordChangeIsFinal` | backend/internal/service/auth.go:263-294 | After a password change every live row of the user, then and later, descends from a login checked against a hash set at or after the change |
| `Sessions.SingleUse` | backend/internal/repository/refresh_token.go:31-41 | Over every run each refresh token is exchanged at most once |
| `Sessions.GuessesAreBounded` | backend/internal/service/auth.go:141-163 | In any quarter of an hour without a success at most five wrong guesses are checked and counted, fewer after earlier failures, in every interleaving of any number of requests |
| `GenerationLock.OneHolderPerKey` | backend/internal/service/ai_report.go:308-337 | No two requests hold one key, whatever entries were deleted and created again |
| `ReportGeneration.NoSecondCall` | backend/internal/service/ai_report.go:205-229 | From then on any number of requests over unchanged facts and provider make no further call for the key, in every interleaving |
| `RequestLimiter.GlobalRateLimiter.Allow` | backend/internal/middleware/rate_limiter.go:286-320 | A request passes exactly if fewer than the maximum passed within the last window since the key was last evicted; a key is evicted only for a new one while at least as many keys as fit were seen within the window, and is then the one of them seen longest ago unless the empty key is in the way; when the map outgrows its capacity is said exactly |
| `Money.CentsFromDecimalString` | backend/internal/money/money.go:193-274 | A trimmed well-formed text gives 100 times its value rounded half away from zero, and is rejected exactly if that leaves 64 bits; every other text is rejected |
| `FloatCarrier.FloatRoundTrip` | backend/internal/money/money.go:22-50 | Fewer than 2^51 cents survive the float carrier under any operations with relative error at most 2^-53 |
| `LedgerHistory.RunTrendIsNetWorth` | backend/internal/service/statistics.go:237-334 | Over every run: the asset trend for an earlier moment, computed from the query at the end, is all income less all expense booked by that moment |
| `Lending.SettledLoanLeavesNoTrace` | backend/internal/service/lending.go:82-523 | A loan booked and repaid through one asset or debt account leaves that account where it would be without it exactly when settled |
| `BackupEnvelope.Preflight` | backend/internal/service/backup_json.go:96-227 | A document passes exactly if it is one acceptable envelope followed by nothing |
| `BackupGuard.BackUpAndRestore` | backend/internal/service/backup.go:166-485 | Backing up and restoring at once succeeds exactly if every reference of the rows of the user leads to a row of the user; then every table is reproduced except for what transactions and reports lose, else nothing changes |
| `BackupTransfer.Backup.Normalize` | backend/internal/service/backup_references.go:16-159 | Succeeds exactly if the owner can be found and no JSON array has a reference with white space around it; then every reference, and nothing else, has moved to the target and leads into the target's directory without ever leaving it |
| `AttachmentDisk.ExactlyOnePlace` | backend/internal/service/backup_attachments.go:533-595 | In every directory table a crash could leave, the tree a marker names is in exactly one of stage and active directory; while it is not active, active and previous do not both exist and the tree is complete |
| `AttachmentDisk.DisplaceKeepsInv` | backend/internal/service/backup_attachments.go:575-582 | Renaming the old active directory to its previous name keeps the crash invariant for every user |
| `AttachmentDisk.ActivateKeepsInv` | backend/internal/service/backup_attachments.go:584-594 | Renaming the stage to the active name keeps the crash invariant |
| `AttachmentDisk.SyncKeepsInv` | backend/internal/service/storage_sync.go:17-26 | A directory sync, complete or interrupted, keeps the crash invariant |
| `AttachmentDisk.UnlinkKeepsInv` | backend/internal/service/backup_attachments.go:616-640 | Removing an entry that no marker names keeps the crash invariant |
| `AttachmentDisk.CommitKeepsInv` | backend/internal/service/backup_attachment_recovery.go:40-59 | Committing a marker keeps the crash invariant when its stage is durable, complete and the only table |
| `AttachmentDisk.EditKeepsInv` | backend/internal/service/upload.go:61-159 | An upload into a durably active directory keeps the crash invariant, also for marked users |
| `AttachmentDisk.OthersStayActive` | backend/internal/service/backup_attachments.go:642-656 | Serving one user leaves every other user's durably active generation as it was |
| `AttachmentRoot.UploadRoot.Sync` | backend/internal/service/storage_sync.go:17-26 | A root sync that reports success leaves one durable table; one that fails leaves some newer suffix of the tables |
| `AttachmentRoot.UploadRoot.RemoveEntry` | backend/internal/service/backup_attachments.go:666-681 | Removing an entry may stop anywhere, but every state on the way has at most that tree emptied or that entry gone |
| `AttachmentStaging.AppendManifest` | backend/internal/service/backup_attachments.go:222-253 | A manifest can be staged exactly if every file fits its checksum and no path repeats |
| `AttachmentStaging.StagedIsReady` | backend/internal/service/backup_attachments.go:222-270 | A staged, synced generation beside an otherwise unchanged disk may be named by a marker |
| `AttachmentStaging.StageRoot.WriteAttachments` | backend/internal/service/backup_attachments.go:222-262 | The loop over the manifest writes exactly its files into the stage, durably, or reports an error |
| `AttachmentRestore.TokenTellsPlace` | backend/internal/service/backup_attachments.go:703-739 | The generation file identifies the marked tree: the active directory carries the token exactly if it is that tree |
| `AttachmentRestore.AttachmentRestorePlan.Forward` | backend/internal/service/backup_attachments.go:533-595 | From wherever an earlier attempt or crash left it, a nil return means the generation is durably active; every state on the way is one of activating it |
| `AttachmentRestore.AttachmentRestorePlan.MoveForward` | backend/internal/service/backup_attachments.go:563-594 | The old tree is displaced, the stage activated, each followed by a sync, and never the other way round |
| `AttachmentRestore.AttachmentRestorePlan.Commit` | backend/internal/service/backup_attachments.go:616-640 | Displaced tree and stage are removed only once the generation is durably active, also when it was active on entry |
| `AttachmentRestore.AttachmentRestorePlan.Rollback` | backend/internal/service/backup_attachments.go:597-614 | Rolling back removes the stage and touches nothing else |
| `AttachmentSafety.StagingIsSafe` | backend/internal/service/backup_attachments.go:165-270 | While staging, the active directory, the rows and every marker are as before |
| `AttachmentSafety.ActivatingIsSafe` | backend/internal/service/backup.go:484-509 | After the marker committed, every state on the way to activation has the new rows and either the new generation active or the old tree still standing |
| `AttachmentSafety.CommitOutcome` | backend/internal/service/backup.go:501-543 | However the work after a commit ends, every state was safe, rows and marker are new, and everyone not pending has the marked generation durably active |
| `AttachmentSafety.RowsAndTreeTogether` | backend/internal/service/backup.go:486-509 | Whatever instant of a restore a crash picks, the surviving rows and the tree that recovery activates are both old or both new |
| `AttachmentSafety.RecoveredIdempotent` | backend/internal/service/backup_attachment_recovery.go:108-181 | Recovering twice is recovering once, and afterwards every marked tree is its user's active directory |
| `AttachmentDisk.RenamesProgress` | backend/internal/service/backup_attachments.go:575-589 | Each rename lowers the number of renames left by one |
| `AttachmentRestore.AttachmentRestorePlan.Displace` | backend/internal/service/backup_attachments.go:575-582 | Displacing the old tree is durable before anything else happens, and leaves one rename fewer to do |
| `AttachmentRestore.AttachmentRestorePlan.ActivateStage` | backend/internal/service/backup_attachments.go:584-594 | Activating the stage is durable when it is reported, and leaves no rename to do |
| `AttachmentSafety.CrashLeavesUndecided` | backend/internal/service/backup.go:350-509 | A crash at any instant of a restore leaves old rows with old files, or new rows with a marker that recovery can follow |
| `AttachmentSafety.StaysUndecided` | backend/internal/service/backup_attachment_recovery.go:108-181 | A crash at any instant of recovery leaves no less to the next recovery |
| `AttachmentSafety.RecoveryDecides` | backend/internal/service/backup_attachment_recovery.go:108-181 | A recovery that ends decides for old rows and files or new rows and files |
| `AttachmentSafety.RecoveredIsCleanedUp` | backend/internal/service/backup_attachment_recovery.go:229-265 | Settling every marked user and removing unreferenced stages gives the table recovery aims at |
| `AttachmentSafety.ServedIsActive` | backend/internal/service/attachment_barrier.go:38-44 | On a served disk a user who is not pending has the marked generation in the active directory |
| `AttachmentService.BackupService.PrepareAttachmentRestore` | backend/internal/service/backup_attachments.go:165-270 | A returned plan has its own complete, durable stage; an error leaves no trace but new stages |
| `AttachmentService.BackupService.Finalize` | backend/internal/service/backup.go:512-543 | A nil return means durably active; a failure that is over by the time of the one retry is survived; once the first attempt cleared the stage name, the user is left pending exactly if the probe after it failed, although the generation is active |
| `AttachmentService.BackupService.Retry` | backend/internal/service/backup_attachment_recovery.go:183-197 | Retrying opens the root again and runs the forward commit of the same generation |
| `AttachmentService.BackupService.CommitRestore` | backend/internal/service/backup.go:484-509 | After a commit, reported as such or not, the result is a restored user with the new generation active or a pending one |
| `AttachmentService.BackupService.AbandonRestore` | backend/internal/service/backup.go:486-500 | After an abort with a readable marker the answer is a rejection, nobody becomes pending and the stage goes; with an unreadable one the user is pending; active tree, rows and markers are untouched |
| `AttachmentService.BackupService.RestoreWithFiles` | backend/internal/service/backup.go:330-509 | Without failures a restore succeeds exactly if the user exists and is not pending, the manifest is intact without repetitions, and the transaction does not abort; every answer says what has happened to availability and stage |
| `AttachmentService.BackupService.RecoverUser` | backend/internal/service/backup_attachment_recovery.go:129-168 | Recovery of one user never rolls back, activates the marked generation or marks the user pending, does not count litter beside a generation seen to be active as failure, and leaves the database alone |
| `AttachmentService.BackupService.CleanupOrphanStages` | backend/internal/service/backup_attachment_recovery.go:229-265 | Only unreferenced stages are removed, best effort |
| `AttachmentService.BackupService.Start` | backend/cmd/server/main.go:82-84 | Nothing is served unless recovery succeeded |
| `AttachmentService.BackupService.ReadAttachments` | backend/internal/service/attachment_barrier.go:38-44 | A reader that passes the pending check finds the generation of the committed marker, with the manifest's files until the user edits them |
| `AttachmentService.BackupService.Upload` | backend/internal/service/upload.go:61-159 | Whatever fails, no file of the user is lost or overwritten; success adds exactly one file under a free name; the crash invariant is kept |
| `AttachmentService.BackupService.Crash` | backend/internal/service/backup_attachment_recovery.go:108-181 | After a crash at any instant of the running operation, the disk satisfies the invariant and the pending set is gone |
| `AttachmentService.BackupService.SurviveCrashes` | backend/internal/service/backup_attachment_recovery.go:108-181 | After any number of crashes, the first anywhere inside a restore, the others anywhere inside recovery, one start without failures leaves rows and files of the user both old or both new, with or without a marker, and every marked user durably active |
| `AttachmentService.BackupService.AttemptAndCrash` | backend/internal/service/backup_attachment_recovery.go:108-181 | A recovery attempt that dies anywhere undoes no rename that was durable |
| `AttachmentBarrier.StorageBarrier.CheckAvailable` | backend/internal/service/attachment_barrier.go:38-44 | The pending check, made while holding the barrier, remembers for whom it succeeded |
| `AttachmentBarrier.StorageBarrier.AcquireWrite` | backend/internal/service/attachment_barrier.go:23-26 | The exclusive side is granted exactly when nobody holds the barrier |
| `AttachmentBarrier.StorageBarrier.Restore` | backend/internal/service/backup.go:330-509 | A restore under the exclusive side ends in a state in which readers may be let in, whatever its outcome |
| `AttachmentBarrier.StorageBarrier.Recover` | backend/internal/service/backup_attachment_recovery.go:108-181 | So does startup recovery |
| `AttachmentBarrier.StorageBarrier.Edit` | backend/internal/service/upload.go:61-159 | Any change of files by a thread that passed the check, mixed with those of others, keeps what readers rely on |
| `RestoreNames.NamesDoNotMeet` | backend/internal/service/backup_attachments.go:642-656 | User, stage and previous directory names of different users, generations or roles are different texts |
| `RestoreNames.StagesHaveThePrefix` | backend/internal/service/backup_attachment_recovery.go:247-254 | Exactly the stage directories have the prefix the orphan cleanup looks for |
| `Sessions.RunKeepsInv` | backend/internal/service/auth.go:296-309 | Every interleaving of login, refresh, logout and password change keeps the session invariant |
| `Sessions.LoginAnswers` | backend/internal/service/auth.go:134-176 | A login succeeds exactly with the right password, and fails exactly with a wrong one, while the hash is still the one checked and no lock stands in the way, then and now; everyone else is refused without a trace |
| `Sessions.LoginAnswersInRuns` | backend/internal/service/auth.go:134-176 | The same for every login of every run, in the state the run has reached |
| `Sessions.FailureChanges` | backend/internal/service/auth.go:152-163 | A wrong password costs one count, at the fifth a lock of fifteen minutes, and touches no row and no other user |
| `Sessions.SuccessChanges` | backend/internal/service/auth.go:165-175 | A success clears count and lock and adds one row with an id, a family and a token never used before |
| `Sessions.NewRowsComeFrom` | backend/internal/service/auth.go:331-357 | A row that was not there comes from a login with the right password, or replaces the row of the token exchanged for it |
| `Sessions.RefreshAnswers` | backend/internal/service/auth.go:178-227 | A token can be exchanged exactly if it was issued to someone, has a family, has not expired and is held by an unexpired row; otherwise nothing changes |
| `Sessions.RefreshChanges` | backend/internal/service/auth.go:202-222 | The row that held the token gives way to one of the same user and family with a token never used before; all other rows and all users stay |
| `Sessions.LogoutBrowserChanges` | backend/internal/service/auth.go:238-261 | Exactly the rows of the token's family and the one that holds the token go; all other sessions stay |
| `Sessions.LogoutChanges` | backend/internal/service/auth.go:229-233 | Exactly the user's rows go |
| `Sessions.ChangePasswordChanges` | backend/internal/service/auth.go:263-294 | Happens exactly with the right and still current old password; the hash is then one never used before, exactly the user's rows are gone, and nothing else has changed |
| `Sessions.OneRowPerFamily` | backend/internal/service/auth.go:331-357 | A session family has at most one live row, whose id is the session its token claims |
| `Sessions.RefreshSucceeds` | backend/internal/service/auth.go:178-227 | Exactly the tokens that validate and are held by an unexpired row can be exchanged; inserting the successor never collides |
| `Sessions.LogoutRevokesIff` | backend/internal/service/auth.go:238-261 | A logout with a token that was ever issued leaves its family without a live row exactly if the token still validates and its user exists, or the family had no live row before |
| `Sessions.ExpiredTokenRevokesNothing` | backend/internal/service/auth.go:238-249 | Reached by a login and a refresh: a logout with the first, expired token is refused while the second keeps its live row |
| `Sessions.OldVerificationIsRefused` | backend/internal/service/auth.go:141-146 | A login verified against an older hash changes nothing after the change, whatever came in between |
| `Sessions.FailCountIsExact` | backend/internal/service/auth.go:141-163 | The stored failure count is the number of committed failures since the last committed success: no update is lost |
| `Sessions.LockHolds` | backend/internal/service/auth.go:147-150 | While a lock lasts, no attempt in any interleaving succeeds or is counted |
| `Sessions.LimitLocks` | backend/internal/service/auth.go:153-158 | Once a failure brings the count to five, no attempt of the next fifteen minutes, right or wrong, succeeds or is counted, in every interleaving |
| `Sessions.AuthStore.Consume` | backend/internal/repository/refresh_token.go:31-41 | Deletes the matching unexpired row and reports exactly whether one went |
| `Sessions.AuthStore.DeleteSession` | backend/internal/repository/refresh_token.go:55-61 | Deletes the session row and the row of the presented token, digest or plain, and reports whether any went |
| `Sessions.AuthStore.GenerateTokensForSession` | backend/internal/service/auth.go:331-357 | Stores a fresh token under the session id unless that id is taken |
| `Sessions.AuthStore.Login` | backend/internal/service/auth.go:125-176 | The transaction half of login: rechecks hash and lock, counts a failure or opens a fresh session |
| `Sessions.AuthStore.RefreshToken` | backend/internal/service/auth.go:178-227 | Consumes the digest row or else the plain row, and replaces it by one fresh token of the same family |
| `Sessions.AuthStore.LogoutBrowserSession` | backend/internal/service/auth.go:235-261 | Deletes the family found by session id or token, as one transaction |
| `Sessions.AuthStore.Logout` | backend/internal/service/auth.go:229-233 | Deletes all of the user's rows |
| `Sessions.AuthStore.ChangePassword` | backend/internal/service/auth.go:263-294 | Sets a new hash and deletes all of the user's rows together, unless the verified hash is stale |
| `GenerationLock.EntryIffUsed` | backend/internal/service/ai_report.go:318-335 | The map holds an entry exactly for the keys in use, and its count is the number of users |
| `GenerationLock.WaiterIsGranted` | backend/internal/service/ai_report.go:327-329 | A waiting request can lock its entry exactly when no request holds the key |
| `GenerationLock.UnregisterKeepsCounts` | backend/internal/service/ai_report.go:331-334 | The count reaches zero exactly with the last user, and the map then still holds this very entry |
| `GenerationLock.LockTable.Register` | backend/internal/service/ai_report.go:318-325 | Finds or creates the entry and counts the request, keeping the table sound |
| `GenerationLock.LockTable.Acquire` | backend/internal/service/ai_report.go:327 | Granted exactly if the entry is free |
| `GenerationLock.LockTable.Release` | backend/internal/service/ai_report.go:329 | Frees the entry and keeps the table sound |
| `GenerationLock.LockTable.Unregister` | backend/internal/service/ai_report.go:330-335 | Drops the count and the entry with its last user |
| `ReportGeneration.FirstCompletionSettles` | backend/internal/service/ai_report.go:258-277 | The first call that completes on facts still current settles its key |
| `ReportGeneration.ReuseIsCurrent` | backend/internal/service/ai_report.go:222-229 | A cached report is given out exactly if snapshot, model and revision all agree with the newest one |
| `ReportGeneration.ReportsAreEarned` | backend/internal/service/ai_report.go:263-277 | A report is kept exactly when the call of the holder of its key succeeded, and is made from the facts that were sent |
| `ReportGeneration.CallsAreNeeded` | backend/internal/service/ai_report.go:222-263 | A provider is called exactly when the newest report of the key and model is not made from the facts loaded |
| `ReportGeneration.FactsAreCurrent` | backend/internal/service/ai_report.go:210-219 | A request works with the facts that are current while it holds the key |
| `ReportGeneration.FailedCallIsRepeated` | backend/internal/service/ai_report.go:263-271 | A failed call keeps no report, so that the next request calls again |
| `ReportGeneration.SuccessIsNewest` | backend/internal/service/ai_report.go:272-277 | A successful call leaves its report as the newest of key and model |
| `SlidingWindow.Prune` | backend/internal/middleware/rate_limiter.go:302-308 | The filtering loop keeps exactly the times inside the window |
| `SlidingWindow.PruneCovers` | backend/internal/middleware/rate_limiter.go:333-347 | Filtering the short list gives the same recent times as filtering the whole history |
| `SlidingWindow.AppendKeepsSpaced` | backend/internal/middleware/rate_limiter.go:310-319 | Letting a request through below the limit keeps any max + 1 consecutive requests at least a window apart |
| `RequestLimiter.Serve` | backend/internal/middleware/rate_limiter.go:286-365 | Over any run with no more different keys than fit, nothing is evicted: every call is answered as by a limiter that remembers everything, and no window of any key holds more than the maximum |
| `RequestLimiter.GlobalRateLimiter.CleanupAt` | backend/internal/middleware/rate_limiter.go:333-347 | Every list keeps its recent times, and no list is empty |
| `RequestLimiter.GlobalRateLimiter.EnsureCapacity` | backend/internal/middleware/rate_limiter.go:349-365 | At capacity the least recently seen key goes; nothing goes only if the empty key is strictly the oldest |
| `RequestLimiter.ScanFindsNothing` | backend/internal/middleware/rate_limiter.go:353-364 | The scan comes back without a key exactly if the empty key is visited last and is strictly the oldest |
| `RequestLimiter.GlobalRateLimiter.WindowIsBounded` | backend/internal/middleware/rate_limiter.go:286-320 | For a key never evicted no window contains more than the maximum |
| `RequestLimiter.EmptyKeyOverfills` | backend/internal/middleware/rate_limiter.go:286-365 | A table for one key that holds the empty key has two entries after the next request |
| `AttemptLimits.GenerationLimits.Acquire` | backend/internal/service/ai_report_limits.go:30-53 | An attempt is allowed exactly with fewer than two unreleased handles and fewer than six attempts in the last minute |
| `AttemptLimits.GenerationLimits.Release` | backend/internal/service/ai_report_limits.go:51-52 | The first release gives the slot back, further ones change nothing |
| `AttemptLimits.GenerationLimits.LimitsHold` | backend/internal/service/ai_report_limits.go:8-53 | The active count is the number of unreleased handles, at most two, and no minute has more than six attempts |
| `Money.Add` | backend/internal/money/money.go:61-67 | Invalid exactly if the exact sum leaves the exact range, else that sum, without machine overflow |
| `Money.Sub` | backend/internal/money/money.go:69-75 | Invalid exactly if the exact difference leaves the exact range, else that difference |
| `Money.SubUndoesAdd` | backend/internal/money/money.go:61-79 | Subtracting undoes adding exactly if the sum was valid, one degenerate case aside; subtracting is adding the negation |
| `Money.SumIsExact` | backend/internal/money/money.go:61-67 | A running total is exact while its partial sums stay in range |
| `Money.OverflowIsForgotten` | backend/internal/money/money.go:44-67 | An invalid total counts as zero in the next addition, so the overflow leaves no trace |
| `Money.Divide` | backend/internal/money/money.go:81-99 | The nearest quotient for all signs under truncated division, ties away from zero; zero for divisors that are not positive |
| `Rounding.RoundedIsNearest` | backend/internal/money/money.go:81-99 | No integer is nearer to the quotient, and one equally near is smaller |
| `Money.ReadIffSpells` | backend/internal/money/money.go:193-230 | A text reads as a literal exactly if it writes it: optional sign, digits, optional point and digits, not a lone point |
| `Money.LiteralCents` | backend/internal/money/money.go:231-251 | Two decimals and a carry from the third are 100 times the value of a digit string of any length, rounded half away from zero |
| `Money.ParseFraction` | backend/internal/money/money.go:231-246 | The padding loop and the third digit give the fractional cents |
| `Money.Combine` | backend/internal/money/money.go:247-273 | Whole units and fractional cents are put together exactly if the signed result fits 64 bits, carry and minimum included |
| `Money.PrintParse` | backend/internal/money/money.go:183-191 | Printing and parsing gives back every 64-bit number of cents, the minimum included |
| `Money.FormatInjective` | backend/internal/money/money.go:183-191 | Different amounts print differently |
| `Money.FormattedShape` | backend/internal/money/money.go:183-191 | An amount is printed as a sign if negative, whole units without leading zeros, a point and exactly two digits |
| `FloatCarrier.FloatBoundIsTight` | backend/internal/money/money.go:15-50 | At 2^51 cents operations within that error can gain two cents, although the guard admits up to 2^53 - 1 |
| `Ledger.CashIsEarned` | backend/internal/service/transaction_balance.go:14-35 | Over all accounts of whatever type a transaction's cash flows add up to its income or expense; a transfer cancels |
| `Ledger.CashFlowsAreEarnings` | backend/internal/repository/transaction.go:264-304 | The cash flows of any list of transactions, summed over all accounts, are income minus expense |
| `Ledger.NetWorthIsEarnings` | backend/internal/service/account.go:406-439 | Assets minus liabilities are all income less all expense ever booked, opening balances included |
| `Ledger.ApplyMoves` | backend/internal/service/transaction_balance.go:14-35 | Applying a transaction moves every balance by its signed cash flow and extends the log chain |
| `Ledger.RevertMoves` | backend/internal/service/transaction_balance.go:126-147 | Reverting a transaction moves every balance back by its signed cash flow and extends the log chain |
| `Ledger.MutateKeepsChain` | backend/internal/service/transaction_balance.go:186-225 | Every log row starts at the balance the account's previous row ended with |
| `Ledger.PeriodsAddUp` | backend/internal/repository/transaction.go:264-304 | The aggregates of two adjacent periods add up to that of both |
| `LedgerService.OpenKeepsInv` | backend/internal/service/account.go:43-133 | Opening an account raises net worth by its signed opening balance and keeps balances equal to booked flows |
| `LedgerService.CreateKeepsInv` | backend/internal/service/transaction.go:107-164 | Creating a transaction changes net worth by its income or expense and keeps balances, transactions and log in step |
| `LedgerService.UpdateKeepsInv` | backend/internal/service/transaction.go:436-520 | Editing replaces one transaction's effect by another's, whatever accounts either names |
| `LedgerService.DeleteKeepsInv` | backend/internal/service/transaction.go:630-680 | Deleting a transaction takes its effect back |
| `LedgerService.OpenedMeans` | backend/internal/service/account.go:43-133 | A new account holds its opening balance; what adds to worth is booked as income, what takes from it as expense, zero not at all |
| `LedgerService.MutateMeans` | backend/internal/service/transaction_balance.go:153-225 | Cash raises what an account holds and lowers what it owes; the log row has the balance before and after |
| `LedgerService.CreatedMeans` | backend/internal/service/transaction.go:107-164 | Succeeds exactly if the accounts exist and every signed move of cash is possible, and then makes exactly those moves |
| `LedgerService.UpdatedMeans` | backend/internal/service/transaction.go:436-520 | Succeeds exactly for live transactions of the user whose moves can be made backwards and then the new ones, and makes exactly those |
| `LedgerService.DeletedMeans` | backend/internal/service/transaction.go:630-680 | Succeeds exactly for live transactions other than opening balances whose moves can be made backwards, and makes exactly those |
| `LedgerService.AllTimeDeltaIsBalance` | backend/internal/repository/transaction.go:264-304 | The aggregate over all time is the balance |
| `LedgerService.PeriodIsEarnings` | backend/internal/repository/transaction.go:264-304 | Over a period the rows of all accounts, liabilities counted against, add up to income minus expense |
| `LedgerService.LedgerStore.OpenAccount` | backend/internal/service/account.go:75-133 | Creates the account and, for a non-zero opening balance, its system transaction |
| `LedgerService.LedgerStore.MutateBalance` | backend/internal/service/transaction_balance.go:153-225 | Logs before and after and changes the balance, or does neither |
| `LedgerService.LedgerStore.ApplyBalanceChanges` | backend/internal/service/transaction_balance.go:14-35 | Both sides of a transfer, or one account, are changed as specified |
| `LedgerService.LedgerStore.RevertBalanceChanges` | backend/internal/service/transaction_balance.go:126-147 | The opposite changes |
| `LedgerService.LedgerStore.Create` | backend/internal/service/transaction.go:107-164 | All of the creation or none of it |
| `LedgerService.LedgerStore.Update` | backend/internal/service/transaction.go:436-520 | All of the edit or none of it; system transactions are refused |
| `LedgerService.LedgerStore.Delete` | backend/internal/service/transaction.go:630-680 | All of the deletion or none of it |
| `History.BalanceReadIsReplayed` | backend/internal/repository/account_log.go:38-59 | While the times of an account never go back and its ties are in order, the balance read for a time is the initial balance plus the changes of all rows written by then, and nothing else can be read |
| `History.ReplayFollowsChain` | backend/internal/service/transaction_balance.go:212-224 | Along the chain of before and after, adding up the changes made by a time leads to the last of them |
| `History.QueryIsRightIffTiesInOrder` | backend/internal/repository/account_log.go:38-59 | The query is right at every time exactly if among changes with one time the last written has the greatest id |
| `History.TieGoesWrong` | backend/internal/repository/account_log.go:65-91 | Two changes at one time whose random ids are in the wrong order: the query returns the balance before the last change |
| `LedgerHistory.RunKeepsInv` | backend/internal/service/transaction.go:107-164 | Over every run of opening, creating, editing and deleting, balances, booked flows and the chain of the log stay in step, and accounts and log only grow |
| `LedgerHistory.QueryFindsBalanceThen` | backend/internal/repository/account_log.go:38-59 | What the query finds for a time, whenever it is asked, is the balance the account had then |
| `LedgerHistory.HistoryIsKept` | backend/internal/repository/account_log.go:38-59 | However a run is cut in two, a query at its end about the moment of the cut finds every balance as it was |
| `LedgerHistory.TrendIsNetWorth` | backend/internal/service/statistics.go:308-334 | The figures of the asset trend for a time differ by the net worth at that time |
| `Summary.GetSummary` | backend/internal/service/account.go:421-439 | The loop computes both totals as accumulated amounts, exact until they leave the exact range, and their difference |
| `Summary.TotalIsRightIffInRange` | backend/internal/service/account.go:427-438 | For every list of balances a total shown is the exact one precisely if that is in the exact range |
| `Summary.SummaryForgetsOverflow` | backend/internal/service/account.go:427-438 | The largest exact balance, one cent and five cents: the summary shows five cents |
| `Summary.BalancesFromAccountSnapshots` | backend/internal/service/statistics.go:308-334 | The totals of the accounts that existed at the time, with snapshot or initial balance |
| `Summary.PastCounts` | backend/internal/service/statistics.go:319-331 | An account counts exactly if it had been created and not yet deleted by then; a later deletion does not matter |
| `Summary.SplitIsNetWorth` | backend/internal/service/account.go:406-419 | However balances are split into assets and liabilities, the difference is the net worth |
| `Summary.SummaryIsEarnings` | backend/internal/service/account.go:421-439 | For a ledger in good order the summary's totals differ by all income less all expense |
| `Lending.CreateConserves` | backend/internal/service/lending.go:82-178 | A new contract adds up |
| `Lending.OpeningMoves` | backend/internal/service/lending.go:82-178 | When a contract is refused, and that lending takes the principal from what the account is worth while borrowing adds it, for both types of account |
| `Lending.RepaymentMoves` | backend/internal/service/lending.go:407-523 | When a repayment is refused, and that it adds to what the account is worth for money lent and takes from it for money borrowed; row, record and transaction are as said |
| `Lending.DeletionMoves` | backend/internal/service/transaction_rollback.go:128-193 | When a deletion is refused, and that it takes back exactly what the transaction brought |
| `Lending.RepayConserves` | backend/internal/service/lending.go:407-523 | A repayment that commits keeps principal = balance + repaid = balance + records, balance >= 0, settled iff zero |
| `Lending.RollbackConserves` | backend/internal/service/transaction_rollback.go:148-163 | Deleting a repayment's transaction removes its records and keeps the contract adding up |
| `Lending.OpeningRollback` | backend/internal/service/transaction_rollback.go:164-169 | Deleting the opening transaction leaves a contract that adds up exactly if nothing was open any more |
| `Lending.OpeningDeleted` | backend/internal/service/transaction_rollback.go:164-169 | Lending 100 and deleting the opening transaction leaves a principal of 100, nothing owed, nothing repaid and no settlement |
| `Lending.RunConserves` | backend/internal/service/lending.go:407-523 | Over every interleaving of reads, conditional updates, rollbacks and other bookings, however stale the reads, the contract adds up |
| `Lending.RunCarriesLoan` | backend/internal/service/lending.go:146-171 | At any time account and open claim together are worth what the account would be worth without the loan |
| `Lending.RunKeepsWorth` | backend/internal/service/lending.go:82-523 | What the account is worth together with the open claim does not change through any repayments and rollbacks |
| `Lending.LendingStore.UpdateIfUnchanged` | backend/internal/service/lending.go:436-456 | The conditional update changes the row exactly if the compared columns are as read |
| `Lending.LendingStore.RecordRepayment` | backend/internal/service/lending.go:407-523 | All writes of a repayment or none |
| `Lending.LendingStore.DeleteRecords` | backend/internal/service/transaction_rollback.go:160-163 | Deletes exactly the records of the transaction |
| `Lending.LendingStore.DeleteTransaction` | backend/internal/service/transaction_rollback.go:128-193 | Account, contract and records are taken back together or not at all; the contract adds up afterwards exactly unless its opening transaction went while money was owed |
| `Reminder.SplitIsExact` | backend/internal/service/reminder.go:627-650 | A payment is accepted exactly if the given parts leave a non-negative split of the amount, and the result is the only one |
| `Reminder.PaymentMeans` | backend/internal/service/reminder.go:516-624 | When a payment is refused, and every column and balance it changes |
| `Reminder.RollbackMeans` | backend/internal/service/transaction_rollback.go:29-125 | Every column and balance that taking a payment back changes |
| `Reminder.RollbackIsRefusedIff` | backend/internal/service/transaction_rollback.go:29-125 | When taking a payment back is refused |
| `Reminder.PaymentKeepsTotals` | backend/internal/service/reminder.go:536-580 | A payment that commits keeps the columns equal to the sums over the payments |
| `Reminder.TotalsAddUp` | backend/internal/service/reminder.go:536-554 | In the running totals principal and interest make up everything paid |
| `Reminder.RunKeepsTotals` | backend/internal/service/reminder.go:509-625 | Over every run, however stale the reads, the totals are those of the payments in force, unless interest alone is taken back while a balance is tracked |
| `Reminder.RollbackKeepsTotalsIff` | backend/internal/service/transaction_rollback.go:29-77 | Taking a payment back keeps the totals exactly if it paid some principal or no balance is tracked |
| `Reminder.PaymentCostsInterestIff` | backend/internal/service/reminder.go:706-759 | Paying from one account towards another costs exactly the interest, exactly if no principal is paid or a debt account still owes it; accounts of other types are covered |
| `Reminder.RollbackRestoresIff` | backend/internal/service/transaction_rollback.go:29-125 | Paying and taking back restores reminder and balances exactly if some principal was paid wherever it is tracked, and no more than was owed |
| `Reminder.DebtPaymentIsExactIff` | backend/internal/service/reminder.go:706-759 | What leaves the debt is counted as paid, and taking it back restores the debt, exactly if no more is paid than was owed; after a payment nobody owes less than nothing |
| `Reminder.InterestOnlyRollback` | backend/internal/service/transaction_rollback.go:34-56 | A payment of interest alone on a debt of 1000, taken back, leaves 1050 |
| `Reminder.OverpaidAndAssetDebt` | backend/internal/service/reminder.go:719-741 | A debt of 30 paid with 50 loses 20; an asset account in the place of the debt account is charged a second time |
| `Reminder.OverpaidRollback` | backend/internal/service/transaction_rollback.go:77-123 | A debt of 30 paid with 50 and taken back is a debt of 50 |
| `Reminder.ReminderStore.RecordPayment` | backend/internal/service/reminder.go:509-625 | All writes of a payment or none |
| `BackupScanner.Decoder.Skip` | backend/internal/service/backup_json.go:339-393 | Consumes exactly the tokens of one value and succeeds exactly if its height fits the depth limit |
| `BackupScanner.Decoder.SkipItems` | backend/internal/service/backup_json.go:375-388 | The array loop: all members and the closing bracket |
| `BackupScanner.Decoder.SkipFields` | backend/internal/service/backup_json.go:353-373 | The object loop: all members and the closing brace |
| `JsonTree.ItemsHeightBound` | backend/internal/service/backup_json.go:339-393 | The height of an array bounds that of all its members |
| `BackupPreflight.CanonicalField` | backend/internal/service/backup_json.go:284-299 | Recognises exactly the known names and the names a case-insensitive decoder would confuse with them |
| `BackupPreflight.IsNotificationCredentialField` | backend/internal/service/backup_json.go:268-282 | Recognises exactly the credential names, ignoring case |
| `BackupPreflight.ScanCollection` | backend/internal/service/backup_json.go:301-337 | Accepts null, or an array within its own and the remaining total limit and the depth limit |
| `BackupPreflight.ScanNotificationSettings` | backend/internal/service/backup_json.go:229-266 | Accepts null or an object within the depth limit and reports whether it names a credential |
| `BackupPreflight.AcceptedInAnyOrder` | backend/internal/service/backup_json.go:96-227 | Acceptance does not depend on the order of the fields |
| `BackupPreflight.NoAmbiguity` | backend/internal/service/backup_json.go:127-135 | In an accepted envelope a case-insensitive decoder finds at most one field for each known name |
| `BackupEnvelope.ScanMember` | backend/internal/service/backup_json.go:137-178 | The value of one field is accepted exactly if it is in order and the total stays within its limit |
| `BackupEnvelope.ScanFields` | backend/internal/service/backup_json.go:114-180 | The field loop accepts exactly the lists of fields in good order and remembers what the special ones said |
| `BackupEnvelope.CheckEnvelope` | backend/internal/service/backup_json.go:191-226 | Version rules and required collections, as the predicate has them |
| `BackupRules.AcceptedMeans` | backend/internal/service/backup_json.go:96-227 | The accepted envelopes with every limit, name and version rule written out and without order |
| `BackupRules.HeightIsNesting` | backend/internal/service/backup_json.go:339-393 | The height is the length of the longest chain of nested values |
| `BackupRules.FoldMeans` | backend/internal/service/backup_json.go:284-299 | Folding confuses the two cases of ASCII letters, and with them the long s and the Kelvin sign |
| `UploadReferences.ParsePrint` | backend/internal/service/backup_references.go:262-312 | Parsing undoes printing, for both forms |
| `UploadReferences.ParsedIsPrinted` | backend/internal/service/backup_references.go:262-312 | Whatever parses as a reference is its printed form: canonical owner, portable suffix, no white space around it |
| `UploadReferences.FreeTextIff` | backend/internal/service/backup_references.go:262-320 | Left alone is exactly the text that, without white space around it, begins neither with the prefix nor with a number and a slash or backslash |
| `UploadReferences.PaddedIsMalformedIff` | backend/internal/service/backup_references.go:262-312 | With white space around it, exactly what would be a reference without it is rejected |
| `UploadReferences.RemapRoundTrip` | backend/internal/service/backup_references.go:235-254 | A reference of the source keeps suffix and form, parses with the target as owner, and remapping back gives the original |
| `UploadReferences.RemapSucceedsIff` | backend/internal/service/backup_references.go:235-254 | Remapping succeeds exactly for free text, which it leaves alone, and for the source's own references |
| `UploadReferences.ReferenceStaysBelow` | backend/internal/service/backup_references.go:262-312 | Followed component by component from the uploads root, a reference goes into its owner's directory and never leaves it |
| `UploadReferences.ClimbingIsNoReference` | backend/internal/service/backup_attachments.go:338-355 | Nothing with an empty component, a dot or a double dot is a reference |
| `UploadReferences.OwnersDoNotMeet` | backend/internal/service/backup_references.go:256-312 | Different references are different texts |
| `BackupOwners.AcceptUserID` | backend/internal/service/backup_references.go:21-34 | Accepting one more owner succeeds exactly if all named so far agree |
| `BackupOwners.AcceptAll` | backend/internal/service/backup_references.go:36-109 | The loops over records and references accept exactly lists that agree, and find the common owner |
| `BackupOwners.VisitColumns` | backend/internal/service/backup_references.go:322-376 | Visits exactly the texts of all columns, unless a list is broken |
| `BackupOwners.RemapColumn` | backend/internal/service/backup_references.go:203-233 | Moves every entry of a column and keeps its form, or fails |
| `BackupTransfer.EntryOwner` | backend/internal/service/backup_references.go:95-108 | Every entry that is a reference belongs to the common owner |
| `BackupTransfer.Backup.FindOwner` | backend/internal/service/backup_references.go:21-110 | Succeeds exactly if no record is null, no list or reference is broken and all owners agree |
| `BackupTransfer.CollectableMeans` | backend/internal/service/backup_references.go:21-109 | An owner can be found exactly if no record is null, no list and no trimmed reference broken, and everyone named is one and the same user |
| `BackupTransfer.AcceptableIffNotPadded` | backend/internal/service/backup_references.go:203-254 | Of the backups whose owner can be found, exactly those with a padded reference in a JSON array cannot be remapped |
| `BackupTransfer.PaddedReferenceFails` | backend/internal/service/backup_references.go:203-254 | One reference with a blank before it: the owner is found, the remapping fails |
| `PortablePaths.PathSet.Add` | backend/internal/service/backup_attachments.go:423-445 | A path is taken exactly if it is compatible with every path taken before |
| `PortablePaths.PathSet.AddDirectories` | backend/internal/service/backup_attachments.go:432-441 | The walk up to the root succeeds exactly if every directory fits, and records them all |
| `PortablePaths.AddAll` | backend/internal/service/backup_attachments.go:177-187 | Adding a list succeeds exactly if its paths are pairwise compatible |
| `PortablePaths.CompatibleIffStorable` | backend/internal/service/backup_attachments.go:411-445 | A list is compatible exactly if its paths differ and fit together into one directory tree that does not tell their keys apart |
| `PortablePaths.PortablePathMeans` | backend/internal/service/backup_attachments.go:338-405 | Portable are exactly the paths of at most 4096 bytes and 32 parts whose parts have 1 to 255 bytes, no dot or blank at the end, no reserved character and no device name |
| `PortablePaths.CompatibleInAnyOrder` | backend/internal/service/backup_attachments.go:411-445 | Whether a list of paths can coexist does not depend on its order |
| `BackupFormat.EncodeAll` | backend/internal/service/backup_codec.go:191-200 | Encodes every row, in order |
| `BackupFormat.DecodeAll` | backend/internal/service/backup_codec.go:132-189 | Fails exactly if a tombstone is missing, else decodes every row, in order |
| `BackupRows.SelectRows` | backend/internal/service/backup.go:166-230 | Lists exactly the user's rows, tombstones included, each once |
| `BackupRows.CreateBackup` | backend/internal/service/backup.go:166-277 | Lists and encodes all of the user's tables |
| `BackupRows.DecodeBackup` | backend/internal/service/backup_codec.go:85-130 | Fails exactly if some tombstone is missing |
| `BackupRows.RestoreTable` | backend/internal/service/backup.go:371-475 | Clears and inserts one table; fails exactly if a primary key is taken |
| `BackupRows.RestoreRows` | backend/internal/service/backup.go:350-485 | All tables are restored or none |
| `BackupRows.SecondWriteRestores` | backend/internal/service/backup.go:383-425 | The second write undoes every default the insert substituted; transactions and reports keep it exactly for empty source and status |
| `BackupRows.TableRoundTrip` | backend/internal/service/backup.go:371-475 | One table: every row of the user comes back as encoding, decoding and storing make it, all else stays |
| `BackupRows.BackupFits` | backend/internal/service/backup_codec.go:59-130 | A created backup has every tombstone, and where it was taken no primary key is in its way |
| `BackupRows.RestoreReproduces` | backend/internal/service/backup.go:166-485 | Restoring a created backup reproduces every table except for what transactions and reports lose; other users' rows stay |
| `BackupRows.OnlyExcludedIsLost` | backend/internal/service/backup_codec.go:15-18 | Only the import fingerprint and the provider revision are lost, exactly if source and status are not empty |
| `BackupGuard.CheckReferences` | backend/internal/service/backup_guard.go:15-104 | Accepts exactly the backups that contain every row they refer to |
| `BackupGuard.AcceptedIsClosed` | backend/internal/service/backup_guard.go:11-104 | After such a restore every reference of a row of the user leads to a row of the same user |
| `BackupGuard.ClosedMeans` | backend/internal/service/backup_guard.go:15-104 | Closed means, column by column: whatever a row of the user names is a row of the user in the table the column refers to |
| `BackupGuard.CreatedIsClosedIff` | backend/internal/service/backup_guard.go:15-104 | A created backup contains every row it refers to exactly if every reference of the rows of the user leads to a row of the user |
| `BackupGuard.DanglingIsNotClosed` | backend/internal/service/backup_guard.go:93-101 | A user with one dangling reference can be backed up and not restored |
| `BackupGuard.DefaultsComeBack` | backend/internal/service/backup.go:398-460 | An empty source and an empty status do not survive a round trip that succeeds |
| `BackupGuard.RowStore.Restore` | backend/internal/service/backup.go:294-485 | Decodes, checks and replaces the user's rows, leaving them closed under references, or changes nothing |

## Left out

- HTTP handlers and middleware, configuration, logging, metrics and clients of other services.
- GORM and its drivers beyond atomic transactions, row locks and the substitution of schema defaults for zero values; a transaction's callback failing at any statement is one outcome, abort.
- Cryptography: tokens and hashes are abstract values, fresh tokens are new, password hashes never repeat, signing and checking are functions.
- First-time setup, profile changes and access tokens of the session service; access tokens stay valid until they expire, as the code says.
- The JSON text grammar and the values of numbers and booleans: the scanner works on the tokens the decoder returns, and the text of lists of references is given by codec functions with a round-trip law.
- JSON and database codecs of amounts; they delegate to the parser, the printer and the range check that are modelled.
- The injected hooks of the restore (commit, retry, cleanup) other than their defaults.
- AttachmentService.BackupService.Upload: types, sizes and contents of uploads, and the unique name made after a clash, are given; deleting a single upload is not modelled.
- Durability of the upload root's own entry in its parent directory, symbolic links and permissions.
- The two further conditions on the paths of a manifest, no number as first part and no name of the restore itself (backup_attachments.go:321-336).
- The comparison of attachment metadata with existing files before a restore (`validateBackupAttachmentMetadataFiles`).
- The scope check that follows the remapping of references (`normalizeBackupAttachmentScopes`); it may reject more backups.
- Unicode normalisation and case folding: the key of a path is a component-wise function, a parameter. Strings are sequences of characters, so invalid UTF-8 does not occur.
- Backup tables beyond accounts, categories, family members, transactions, budgets, reminders, lendings, lending records and reports: templates, tags, the two logs, notification settings and the user profile have the same shape and would add easy members.
- BackupTransfer.Backup.Normalize: leaves the columns unchanged when it fails, whereas the code may leave a partly remapped value that its caller discards.
- Ledger.PeriodsAddUp: is about the aggregate per account, without the query's removal of zero rows and its limit to the ten largest.
- LedgerService.LedgerStore.Delete: takes back the account side of a transaction; what deleting one does to its loan or reminder is in `Lending` and `Reminder`. Reminder payments move debt accounts without a transaction and are not among the ledger's operations.
- LedgerService.LedgerStore.Update: the text columns, tags and attachments of a transaction are not modelled.
- AttachmentStaging.StageRoot.WriteAttachments: the limits on the size of one file and of all files, and the directories below the stage, are not modelled.
- Deleting and archiving accounts; budgets; the notification scheduler and its calendar arithmetic.
- The month loop of the asset trend and the lending summary, which only repeat the modelled totals; editing the descriptive columns of loans and reminders.
- The separate limiter for login attempts per address and account (`CheckIP`, `CheckAccount`).
- Several server processes on one database: the barrier, the pending set and the lock table are local to a process.
- The text of the generation lock's key: keys are abstract values that differ when their parts differ.
- Period, prompt and masking rules of reports.
