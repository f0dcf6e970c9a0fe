# Fleetdock, modelled and proved

Fleetdock is a control plane for database servers. This project models the parts of it that are
algorithms and protocols rather than wiring, in Dafny, and proves what they keep. `dafny verify
dfyconfig.toml` checks everything.

Where the source steps through mutable state, the model is a class or a method with loops, proved
against a function of the state; what the source promises is then proved about that function, over
every input or every run. Protocols whose steps interleave are state machines over those steps.

| component | modules |
|---|---|
| rows, keys, tables and what the engines do with them | Rows, Tables |
| backup copy comparison and restore | CopyDiff, CopyPages, CopyRestore, CopyConvergence, RestoreUndo |
| row change journal and undo | Journal, DataBrowser, EditUndo, UndoRace |
| SQL script splitting in the console | SqlText, SqlTokens, SqlKeyword, SqlSplit, SqlLiterals, SqlGrammar, SqlRoundTrip, SqlRejoin |
| life of a backup copy | BackupCopies, BackupCopyRuns, BackupCopyLeaks, BackupCopyExpiry |
| instance update and its secrets | GoText, InstancePlans, InstanceUpdate |
| database names and reconciliation | DatabaseNames, Reconcile |
| alerts | Alerts |
| audit log, paging and cursors | AuditLog, AuditCursor, AuditCursorText, AuditPages |
| stored results of fleet runs | RunResults |
| gateway endpoints | Endpoints |
| grants, listings and token scopes | Authorization |
| operations, moves and their drops | Operations, OperationsService, MoveSafety, MoveEnds, JobPlaces |

## What the proofs turned up

Each of these is a lemma: a concrete input or run, a whole family of inputs, or the exact condition.

- Row keys are matched by a text that joins the values with NUL. Two different keys of two columns can
  share a text (Rows.TwoColumnCollision), and then a comparison takes a row for another one
  (CopyPages.PageGoesWrong); CopyPages.PageRightIff and CopyRestore.FindsRowsIff say exactly when pages
  and look-ups are right.
- The check before a restore digests only the columns both sides have, although RestoreRows says that
  each row is checked against the comparison. A live row changed in a column added since the backup
  passes it (CopyConvergence.DriftMissed); a row that is put back keeps that change, a row that is
  deleted takes it along (CopyConvergence.DriftIsKeptIff).
- An undo whose release does not reach the journal leaves an entry marked undone though nothing was
  (UndoRace.LostReleaseBlocks).
- leadingKeyword loses the keyword after a comment that opens with `/*/`, and reads a word of a line
  comment that holds a carriage return (SqlKeyword.KeywordHidden, SqlKeyword.KeywordInComment).
- A statement that reads as a DELIMITER line survives splitting but not joining and splitting again
  (SqlRoundTrip.DirectiveStatementLost); these are the only ones (SqlRejoin.SplitJoinIff).
- An expiry pass can drop a discarded copy whose restore still runs; the temporary database that this
  restore then makes is never dropped (BackupCopyLeaks.DropOvertakesRestore, LeakedForGood). The
  condition of ListDue does not ask whether the restore is over; if drops waited for that, no dropped
  copy would leave anything (BackupCopyLeaks.DroppedIsGone).
- A store lost while the end of a restore is reported leaves the copy restoring, its temporary database
  never due, and a restore that fails can leave one too (BackupCopyLeaks.StrandedForGood, WhatOutlives).
- An expiry pass goes by the list it read first: a copy that a user extends meanwhile, and is told so, is
  dropped all the same (BackupCopyExpiry.ExtendedYetDropped, DropsOnlyExpired).
- When a step after the row write of an instance update fails, a new host can be in place with the old
  admin and data passwords (InstanceUpdate.OldPasswordsBehindNewHost, LateFailureKeepsOldRootIff).
- Database names listed with spaces around them are stored trimmed and later marked missing
  (Reconcile.UntrimmedGoesMissing). Distinct names, on the other hand, are not needed.
- A cursor whose year has more than four digits is refused (AuditCursor.OtherYearsAreLost).
- encodeResults does not end when neither the part without results nor any earlier state fits
  (RunResults.NeverEnds, EndsIff).
- A move onto the place of its own source, whose name is then taken, registers no target and drops the
  database it has just restored (MoveEnds.MoveDropsItsOwnCopy, MoveOntoItselfIff); and in general a
  source is dropped although its target could not be registered (MoveEnds.MoveEndsIff).
- A database whose instance has no server is listed and decided alike only under the condition of
  Authorization.ListingAgreesWithoutServerIff.

## Model

| member | source | states |
|---|---|---|
| Rows.KeyStringInjectiveIff | backend/internal/platform/engine/rowreader.go:47-60 | With no assumption on the values, the text of a row key tells keys apart exactly for keys of one column |
| Rows.NulFreeKeysSeparate | backend/internal/platform/engine/rowreader.go:47-60 | Keys of several columns whose values hold no NUL are told apart by their texts, so the maps filled by text hold one row per key |
| Rows.TwoColumnCollision | backend/internal/platform/engine/rowreader.go:47-60 | For every key of two or more columns there are two different keys with the same text |
| Tables.UpdateTouchesOneRow | backend/internal/platform/engine/rowimage.go:247-329 | A single-row update succeeds exactly if the row and its columns are there and its key stays or moves to a free one; it then sets the values in that row and leaves every other as it was |
| Tables.ImageWriteTouchesOneRow | backend/internal/platform/engine/rowimage.go:334-395 | Writing a row image is refused as changed exactly if its check fails on the row as it is now; otherwise the row is gone or holds the wanted values, no other row changes, and the reported images are true |
| Tables.ScanProgress | backend/internal/platform/engine/rowreader.go:116-174 | A page holds the first rows after a position in key order, and its next position leaves exactly the others |
| Tables.GetRows | backend/internal/platform/engine/rowreader.go:138-174 | A look-up returns, once each, exactly the rows asked for that exist, and refuses tables without a key, too many keys and incomplete ones, in this order |
| CopyDiff.CommonColumns | backend/internal/app/dbadmin/backup_copy.go:112-142 | The columns both sides have, in live order; once each, first for the live side, a warning with exactly the columns the other side lacks, each once and in order, if and only if there are some |
| CopyDiff.ChangedColumns | backend/internal/app/dbadmin/backup_copy.go:172-204 | The columns on which two rows differ, exactly those and in order |
| CopyDiff.DiffPages | backend/internal/app/dbadmin/backup_copy.go:172-204 | The loop over a map filled by key text reports each scanned row, in order, against the row that its text finds: added, changed in exactly the differing columns, removed, or nothing |
| CopyPages.PageRightIff | backend/internal/app/dbadmin/backup_copy.go:172-204 | That is what a comparison with the whole other table reports exactly if, scanning the live side, no row shares its text with another row of the page that the backup has, and scanning the backup, no row that is gone shares its text with one that is not; in whatever order the partners came |
| CopyPages.PageGoesWrong | backend/internal/app/dbadmin/backup_copy.go:172-204 | For every key of two or more columns there is, on either side, a page that is reported wrong |
| CopyDiff.KeysOf | backend/internal/app/dbadmin/backup_copy.go:206-216 | The key images of a page, in order, identify the same rows |
| CopyDiff.GetInBatches | backend/internal/app/dbadmin/backup_copy.go:288-306 | Looking keys up in batches of any size gives exactly the rows asked for, as one look-up would |
| CopyDiff.DiffCopy | backend/internal/app/dbadmin/backup_copy.go:220-286 | One step succeeds exactly on a ready copy, equal row keys and a usable cursor; in both phases it warns exactly of the columns added to and dropped from the live table since the backup; columns, count and next cursor depend on cursor and page size alone, the items pair the page by key text with the rows looked up for it; where the texts tell the keys apart, the items too depend on nothing else |
| CopyDiff.StepTakesFront | backend/internal/app/dbadmin/backup_copy.go:220-286 | A step returns the front of what is left to report, and its cursor stands for the rest |
| CopyDiff.StepAdvances | backend/internal/app/dbadmin/backup_copy.go:220-286 | Each step lowers (phase, rows left), so following cursors ends |
| CopyDiff.FollowDiff | backend/internal/app/dbadmin/backup_copy.go:220-286 | Following the cursors from none to the end terminates with the full difference, for every page and batch size |
| CopyDiff.DiffIsExact | backend/internal/app/dbadmin/backup_copy.go:170-306 | The full difference is the keyed symmetric difference: the verdict on each key of either table, each key consulted once |
| CopyDiff.DiffReportsEachKeyOnce | backend/internal/app/dbadmin/backup_copy.go:170-306 | Exactly the keys with a verdict are reported, and none twice |
| CopyRestore.RestoreRows | backend/internal/app/dbadmin/backup_copy.go:336-448 | Accepts exactly 1 to 200 rows of known kinds with complete keys on a ready copy; otherwise changes nothing; else puts back row after row what the text of its key finds among the backup rows asked for, which is what its key finds if no chosen key shares its text with another one that the backup has |
| CopyRestore.FindsRowsIff | backend/internal/app/dbadmin/backup_copy.go:357-396 | Looking the chosen rows up by text finds the rows of their keys if and only if no chosen key shares its text with another chosen key that the backup has |
| CopyRestore.RestoreEach | backend/internal/app/dbadmin/backup_copy.go:392-447 | The loop over the rows has, row by row, the effect of the specification on the rows found by text, and by key where those are the same |
| CopyRestore.RestoreRow | backend/internal/app/dbadmin/backup_copy.go:394-446 | One row: no backup row, conflict, engine failure, or written and journaled |
| CopyConvergence.RestoredIffAsCompared | backend/internal/app/dbadmin/backup_copy.go:394-446 | A reported row is put back, and it alone, exactly when it still is as compared; otherwise it is a conflict and nothing changes |
| CopyConvergence.DriftMissed | backend/internal/app/dbadmin/backup_copy.go:398-409 | A row changed only in a column the backup does not have passes the check as unchanged |
| CopyConvergence.DriftIsKeptIff | backend/internal/app/dbadmin/backup_copy.go:394-446 | Putting such a row back keeps the value of that column if the backup has the row; a row the backup does not have is deleted, and the change with it |
| CopyConvergence.DriftSeenIff | backend/internal/app/dbadmin/backup_copy.go:398-409 | The check notices every change of a row if and only if the backup has every column of the live table |
| CopyConvergence.RestoreConverges | backend/internal/app/dbadmin/backup_copy.go:336-448 | Restoring every item of a full difference, in any number of calls, leaves exactly the backup's keys with its values on all common columns, and a second full difference is empty |
| RestoreUndo.UndoRevertsRestore | backend/internal/app/dbadmin/backup_copy.go:332-448 | Undoing the batch of a restore, with some rows in conflict and some engine calls failing, brings the table back exactly |
| Journal.OutcomeIsRecorded | backend/internal/domain/rowchange/rowchange.go:125-150 | Whatever an edit or image write reports as undoable, its journal entry records the exact change of the table; past the size cap the images go and the entry is not undoable |
| Journal.UndoIsInverse | backend/internal/app/dbadmin/changes.go:164-225 | Applying the inverse of an undoable entry right after its change succeeds, restores the table and journals an entry that again records the change |
| DataBrowser.Browser.Record | backend/internal/app/dbadmin/changes.go:81-97 | Appends the journal entry of a change, none for a call that changed nothing |
| DataBrowser.Browser.EditRow | backend/internal/app/dbadmin/changes.go:60-78 | An edit changes the table and appends its entry, or fails and changes neither |
| DataBrowser.Browser.ClaimUndo | backend/internal/infra/postgres/rowchange_repository.go:149-156 | The claim succeeds for one caller only: where the entry is undoable and not undone |
| DataBrowser.Browser.ReleaseUndo | backend/internal/infra/postgres/rowchange_repository.go:158-163 | A release makes the entry claimable again and touches nothing else |
| DataBrowser.Browser.UndoEntry | backend/internal/app/dbadmin/changes.go:164-225 | Claim, inverse write, release on failure and journaling, with each outcome the code tells apart |
| DataBrowser.Browser.UndoChange | backend/internal/app/dbadmin/changes.go:119-131 | Undoing by id: a missing entry is refused, any other is undone as above |
| DataBrowser.Browser.UndoBatch | backend/internal/app/dbadmin/changes.go:135-160 | Without an error, exactly those of the newest 200 entries of the batch that are undoable and not undone have an outcome, one each, newest first; an error stops it with the outcomes of exactly the newer ones of them; of the old entries exactly those reported undone are marked so, and nothing else in them changes; whatever conflicts |
| DataBrowser.BatchUndoIsExact | backend/internal/app/dbadmin/changes.go:135-225 | Undoing a batch of undoable changes with nothing in between succeeds on every entry and returns the tables to their exact earlier state, several changes of one row and moved keys included; undoing the undos reapplies it |
| DataBrowser.RedoIsExact | backend/internal/app/dbadmin/changes.go:135-225 | Undoing the undos of a batch brings back what the batch had made |
| EditUndo.UndoRevertsSave | backend/internal/app/dbadmin/changes.go:60-225 | Any sequence of edits saved as one batch is taken back by undoing that batch, and comes back when that is undone |
| EditUndo.UndoRespectsLaterChanges | backend/internal/app/dbadmin/changes.go:164-225 | An unforced undo that succeeds found every column its change set as the change left it; one that fails changes no table and leaves the entry as claimable as before |
| EditUndo.ConflictIff | backend/internal/app/dbadmin/changes.go:164-206 | An undo that may go ahead ends in a conflict if and only if the row is no longer as the change left it and the undo is not forced, or the table lost a column of the image |
| EditUndo.ForcedUndoOverwrites | backend/internal/app/dbadmin/changes.go:164-206 | A forced undo that succeeds takes an inserted row away and gives any other the values it had before the change, whatever became of it, and leaves the other rows alone |
| UndoRace.AppliedAtMostOnce | backend/internal/app/dbadmin/changes.go:164-225 | In every interleaving of concurrent undo calls and other edits, the inverse is applied at most once, by the one call that says so |
| UndoRace.ClaimableAtRestIff | backend/internal/app/dbadmin/changes.go:164-225 | When all calls are over, the entry can be claimed if and only if its inverse was not applied and every release of a failed attempt reached the journal |
| UndoRace.OnlySuccessWrites | backend/internal/app/dbadmin/changes.go:164-225 | A step of an undo changes the table only as its call succeeds, and an unforced one then found the row as the change had left it |
| UndoRace.LostReleaseBlocks | backend/internal/app/dbadmin/changes.go:190-206 | A release that does not reach the journal leaves an entry marked undone though nothing was undone; later calls are told it was undone already |
| UndoRace.AloneIsUndoOne | backend/internal/app/dbadmin/changes.go:164-225 | A call that runs alone through the interleaved steps does what the sequential undo does |
| SqlTokens.TokenIff | frontend/src/lib/sql.ts:78-123 | The scanner takes a quoted literal, comment, dollar quote or single character exactly where a declarative description of that token fits the text |
| SqlKeyword.FindLeadingKeyword | frontend/src/lib/sql.ts:18-38 | The rewriting loop computes the recursive keyword function |
| SqlKeyword.WordIsKeyword | frontend/src/lib/sql.ts:18-38 | A word after white space and opening brackets is the keyword, in capitals |
| SqlKeyword.CommentSkippedIff | frontend/src/lib/sql.ts:23-35 | One step of the loop leads past a comment of the grammar exactly when the comment does not open with "/*/" followed later by its close, nor is a line comment with a carriage return before more text |
| SqlKeyword.KeywordSkipsComments | frontend/src/lib/sql.ts:18-38 | If every leading comment is skipped whole, the keyword is the first one past the comments of the grammar |
| SqlKeyword.KeywordHidden | frontend/src/lib/sql.ts:29-33 | After the comment "/*/*/" the keyword that follows is not found |
| SqlKeyword.KeywordInComment | frontend/src/lib/sql.ts:24-28 | A carriage return inside a line comment gives a word of the comment as the keyword |
| SqlSplit.ScanQuoted | frontend/src/lib/sql.ts:78-99 | The index loop over a literal stops exactly at the end that doubled quotes and backslashes give |
| SqlSplit.ScanPiece | frontend/src/lib/sql.ts:78-123 | The branches on the current character take exactly one token of the grammar |
| SqlSplit.SplitStatements | frontend/src/lib/sql.ts:54-132 | The character loop terminates and returns the kept statements of the tokenized script |
| SqlLiterals.LiteralStaysWhole | frontend/src/lib/sql.ts:54-132 | Whatever text is written into a literal, in single or double quotes or backticks, with its quote doubled and in single quotes its backslashes too, stays in one statement, and the literal ends at its closing quote: a semicolon after it separates |
| SqlLiterals.PlainLiteralStaysWhole | frontend/src/lib/sql.ts:82-101 | The same for any text without that quote, and in single quotes without a backslash, semicolons and comment openers included |
| SqlLiterals.LineCommentStaysWhole | frontend/src/lib/sql.ts:102-108 | After -- or #, the rest of the line is part of its statement, whatever it holds, and the statement goes on in the next line |
| SqlLiterals.BlockCommentStaysWhole | frontend/src/lib/sql.ts:109-115 | Between /* and the first */, everything is part of its statement |
| SqlLiterals.DollarQuoteStaysWhole | frontend/src/lib/sql.ts:116-126 | Between two equal dollar tags, with a name or without, everything in which the tag does not occur is part of its statement |
| SqlLiterals.DelimiterLine | frontend/src/lib/sql.ts:65-81 | After a DELIMITER line, in capitals or not, statements end at its delimiter and not at semicolons; the line is in no statement |
| SqlGrammar.DirectiveIff | frontend/src/lib/sql.ts:66-73 | The directive pattern fires exactly on the lines the grammar calls a DELIMITER directive, and reads the same delimiter |
| SqlGrammar.GrammarIff | frontend/src/lib/sql.ts:54-132 | The grammar gives every script exactly one tokenization, the one of the scanner |
| SqlGrammar.SplitCovers | frontend/src/lib/sql.ts:54-132 | Every character belongs to exactly one raw statement or separator, in order, and the output is the raw statements that keep something when trimmed |
| SqlRoundTrip.ScanLocal | frontend/src/lib/sql.ts:54-132 | A trimmed raw statement is scanned alike wherever it is put before a line feed or the end |
| SqlRejoin.DirectiveTakesLetters | frontend/src/lib/sql.ts:66-73 | A script in which a directive fires has more characters, line feeds and semicolons apart, than its statements together |
| SqlRejoin.RejoinIff | frontend/src/lib/sql.ts:54-132 | Statements that a splitting kept come back from their join if and only if none of them reads as a directive |
| SqlRejoin.SplitJoinIff | frontend/src/lib/sql.ts:54-132 | For a script in which no directive fires, joining with "\n;\n" and splitting again gives the same list if and only if no statement reads as a directive; with statements that end in line comments and a last one with an unterminated literal |
| SqlRejoin.StatementSplitsIff | frontend/src/lib/sql.ts:66-73 | A single statement survives being split again if and only if it does not read as a directive |
| SqlRoundTrip.DirectiveStatementLost | frontend/src/lib/sql.ts:66-73 | Any statement that is a whole DELIMITER line is kept by one split but lost by joining and splitting again |
| SqlRoundTrip.DirectiveStatement | frontend/src/lib/sql.ts:66-73 | There is such a statement |
| BackupCopies.CopyRepository.Create | backend/internal/infra/postgres/backupcopy_repository.go:30-44 | Inserts a restoring copy exactly when the database has no live one |
| BackupCopies.CopyRepository.SetJob | backend/internal/infra/postgres/backupcopy_repository.go:112-114 | Links the restore job |
| BackupCopies.CopyRepository.MarkReady | backend/internal/infra/postgres/backupcopy_repository.go:116-119 | Only a restoring copy becomes ready |
| BackupCopies.CopyRepository.MarkFailed | backend/internal/infra/postgres/backupcopy_repository.go:121-124 | Only a restoring or ready copy fails |
| BackupCopies.CopyRepository.MarkDropping | backend/internal/infra/postgres/backupcopy_repository.go:126-130 | Any copy not yet dropped becomes dropping; a drop job given counts as an attempt, none given leaves the old one |
| BackupCopies.CopyRepository.MarkDropped | backend/internal/infra/postgres/backupcopy_repository.go:132-134 | Becomes dropped, whatever it was |
| BackupCopies.CopyRepository.SetExpiry | backend/internal/infra/postgres/backupcopy_repository.go:136-139 | Only a ready copy is extended |
| BackupCopies.Service.Create | backend/internal/app/backupcopy/service.go:61-103 | Success adds one restoring copy, linked to the restore job, to a database that had no live one; giving up leaves no live copy unless the store is lost; run alone, it makes exactly the stored changes of its steps |
| BackupCopies.Service.Extend | backend/internal/app/backupcopy/service.go:123-140 | Success leaves a ready copy expiring at the earlier of now plus TTL and readiness plus MaxTTL |
| BackupCopies.Service.Drop | backend/internal/app/backupcopy/service.go:158-164 | Success leaves the copy dropping, with the requested job |
| BackupCopies.Service.Discard | backend/internal/app/backupcopy/service.go:144-156 | Success leaves the copy dropping or dropped, whatever it was; run alone, exactly its steps |
| BackupCopies.Service.OnCopyRestored | backend/internal/app/backupcopy/service.go:167-196 | A restoring copy becomes ready for its own TTL; after a failed restore, or for a copy discarded meanwhile, the drop is requested |
| BackupCopies.Service.OnCopyDropped | backend/internal/app/backupcopy/service.go:200-207 | Run alone, its steps: dropped if the drop succeeded |
| BackupCopies.Service.ExpireDue | backend/internal/app/backupcopy/service.go:211-227 | The loop drops each listed copy and counts the drops that were requested and linked; it touches no other copy |
| BackupCopyRuns.StatusOnlyRises | backend/internal/infra/postgres/backupcopy_repository.go:116-139 | In every interleaving a status only moves up restoring < ready < failed < dropping < dropped, so a discarded copy never becomes ready |
| BackupCopyRuns.OneLivePerDatabase | backend/internal/infra/postgres/backupcopy_repository.go:30-44 | In every interleaving a database has at most one live copy |
| BackupCopyRuns.FailedStaysDue | backend/internal/infra/postgres/backupcopy_repository.go:94-99 | A failed copy never has a drop job, so every expiry pass finds it due |
| BackupCopyRuns.ExpiryIsBounded | backend/internal/app/backupcopy/service.go:123-140 | However often it is extended, a copy expires within the larger of its TTL and MaxTTL after becoming ready |
| BackupCopyRuns.ReadyIsBacked | backend/internal/app/backupcopy/service.go:167-196 | The temporary database of a ready copy exists unless its drop was already requested |
| BackupCopyRuns.DiscardSticks | backend/internal/app/backupcopy/service.go:144-156 | After a discard reports success the copy is dropping or dropped for the rest of the run |
| BackupCopyExpiry.ListedIff | backend/internal/infra/postgres/backupcopy_repository.go:94-99 | In every run, a pass lists exactly the ready copies whose expiry lies before its time, the failed ones, and those dropping without an update for 15 minutes and with fewer than five tries; of more than 50, those longest without an update |
| BackupCopyExpiry.ReadyListedIff | backend/internal/infra/postgres/backupcopy_repository.go:94-99 | In every run, a ready copy is listed if and only if its expiry lies before the time of the pass, unless the list is full |
| BackupCopyExpiry.DropsOnlyExpired | backend/internal/app/backupcopy/service.go:211-227 | In every run, a pass requests the drop of, or marks dropping, only a copy that the same pass found ready past its expiry, failed, or dropping for too long with tries left; one still ready then still has that expiry, unless it was extended since |
| BackupCopyExpiry.OnlyExtended | backend/internal/infra/postgres/backupcopy_repository.go:136-139 | While a copy is ready, only an extension changes its expiry |
| BackupCopyExpiry.ExtendedYetDropped | backend/internal/app/backupcopy/service.go:211-227 | A run in which a user is told that a copy was extended, and the pass that had listed it drops it all the same |
| BackupCopyLeaks.DroppedIsGone | backend/internal/app/backupcopy/service.go:158-227 | In every run in which no drop of a copy is requested while its restore is pending, a dropped copy has left no temporary database and no restore that could still bring one |
| BackupCopyLeaks.LateRestoreLeaksIff | backend/internal/app/backupcopy/service.go:167-227 | In every run, once a copy is dropped and no drop of it is under way, its temporary database is there later exactly if it was there then, or the restore of the copy, succeeded or failed, has left it since, and no drop of it has ended since; such a drop comes only after that restore failed, and never if the database was there from the first; the copy is never due again |
| BackupCopyLeaks.WhatOutlives | backend/internal/infra/postgres/backupcopy_repository.go:94-99 | In every run at rest, a temporary database still there belongs to a copy that comes due, or was tried to drop five times, or is still restoring because the store was lost to the report of its restore, succeeded or failed, or that was dropped after a drop was requested while its restore was pending |
| BackupCopyLeaks.StrandedForGood | backend/internal/app/backupcopy/service.go:167-196 | A run to its rest in which a restore fails after it has created its database and the report of that is lost: the copy stays restoring and never comes due, its temporary database stays |
| BackupCopyLeaks.DropOvertakesRestore | backend/internal/app/backupcopy/service.go:211-227 | A run in which an expiry pass drops a discarded copy whose restore job still runs |
| BackupCopyLeaks.LeakedForGood | backend/internal/app/backupcopy/service.go:167-196 | That run goes on to its rest with the temporary database left for good |
| InstancePlans.PlansFit | backend/internal/app/instance/service.go:333-577 | The three planners only ever plan put-before, put-after, delete-after or nothing in the way that fits the old and new reference of their secret |
| InstancePlans.RerouteNeedsSecrets | backend/internal/app/instance/service.go:350-433 | A plan that changes the host or the bastion keeps an admin or data secret only if this very update supplies its plaintext |
| InstancePlans.SshSecretKeptFor | backend/internal/app/instance/ssh.go:28-85 | A stored SSH secret is kept only for the same bastion host, user and method; a changed port alone does not count |
| InstanceUpdate.Service.PutNewSecrets | backend/internal/app/instance/service.go:435-466 | The put-before steps, stopping at the first that fails and taking back those already done |
| InstanceUpdate.Service.SettleSecrets | backend/internal/app/instance/service.go:478-508 | The put-after and delete-after steps, in order, stopping at the first failing put |
| InstanceUpdate.Service.Update | backend/internal/app/instance/service.go:333-508 | The whole update as one function of the request and of the set of steps that fail |
| InstanceUpdate.NeverDangles | backend/internal/app/instance/service.go:435-508 | For every request and every set of failing steps, the row never refers to a secret missing from the store |
| InstanceUpdate.FailedWriteKeepsSecrets | backend/internal/app/instance/service.go:435-508 | If the row write or a step before it fails, row and referenced plaintexts are as before |
| InstanceUpdate.RerouteLeavesNoOldSecret | backend/internal/app/instance/service.go:350-508 | After a successful update that changes the route, the admin and data secrets on the row are the passwords given in it |
| InstanceUpdate.LateFailureKeepsOldRootIff | backend/internal/app/instance/service.go:478-508 | If a step after the row write fails, the new route is in place with the new admin password if and only if the secret is not one rotated under its own reference |
| InstanceUpdate.LateFailureKeepsOldDataIff | backend/internal/app/instance/service.go:474-483 | The data login then has the new password unless its own rotation is the step that failed |
| InstanceUpdate.OldPasswordsBehindNewHost | backend/internal/app/instance/service.go:474-508 | Two such updates: the new host is left with the old admin password, in one also with the old data password |
| InstanceUpdate.SshSecretStaysPut | backend/internal/app/instance/ssh.go:64-71 | Over a whole update that supplies no SSH credentials, a remaining tunnel reaches the same bastion host as the same user and method |
| InstanceUpdate.RowAsAsked | backend/internal/app/instance/service.go:333-413 | For every request and every set of failing steps, the row is as it was or every field of it is as the request gives it, trimmed where the source trims, and otherwise unchanged; a host key pin is kept only for the same bastion host and port |
| Reconcile.DatabaseRepository.Reconcile | backend/internal/infra/postgres/database_repository.go:306-391 | The loops over rows and observations compute the one-function specification of the new rows and of the outcome |
| Reconcile.ReconcileIsItsSets | backend/internal/infra/postgres/database_repository.go:306-391 | Added, Reappeared and Missing are exactly their set definitions, each name once; rows change only so and none is deleted |
| Reconcile.OnlyActiveAndMissingMove | backend/internal/infra/postgres/database_repository.go:306-391 | A pass moves a status only from active to missing or back |
| Reconcile.ReconcileIsIdempotent | backend/internal/infra/postgres/database_repository.go:306-391 | The same listing at the same time again finds nothing and changes no status |
| Reconcile.NeverMissingTooSoon | backend/internal/infra/postgres/database_repository.go:368-388 | With a clock that never runs back, and whatever is listed, no pass marks missing a database that a pass of the last MissingAfter listed |
| Reconcile.UntrimmedGoesMissing | backend/internal/infra/postgres/database_repository.go:306-391 | A name listed with spaces around it is later marked missing although it is still listed |
| Alerts.Evaluator.EvaluateOne | backend/internal/app/notification/service.go:356-386 | One evaluation updates the two maps and emits as the specification does |
| Alerts.Evaluator.EvaluateAlerts | backend/internal/app/notification/service.go:324-354 | The rule and sample loops evaluate every enabled rule on every matching sample with a value, in order |
| Alerts.EvaluatedIff | backend/internal/app/notification/service.go:324-429 | A pass evaluates exactly the rules for all servers or for that of the sample, where the sample has the metric, a percentage of a total that is not zero; breaching as the value compares with the threshold |
| Alerts.RunStartIs | backend/internal/app/notification/service.go:356-386 | What counts as an unbroken run of breaching evaluations: where it starts and that there is none otherwise |
| Alerts.StateIsRuns | backend/internal/app/notification/service.go:356-386 | Over every run, the breaching map holds exactly the present unbroken runs with their start times, and firing exactly those that lasted long enough |
| Alerts.FiringIsBreaching | backend/internal/app/notification/service.go:356-386 | A firing pair is always in the breaching map |
| Alerts.FiresIff | backend/internal/app/notification/service.go:356-386 | An evaluation fires exactly when its unbroken run has lasted ForSeconds and had not before |
| Alerts.EventsAlternate | backend/internal/app/notification/service.go:356-386 | The events of each pair strictly alternate, firing first |
| AuditLog.AuditRepository.List | backend/internal/infra/postgres/audit_repository.go:58-120 | Returns the newest matching events before the cursor, in (created_at, id) order, at most limit; each has every field the filter asks for, an action by name or group, and one that has them is missing only if the page is full and newer |
| AuditLog.AuditRepository.PruneBefore | backend/internal/infra/postgres/audit_repository.go:125-146 | Removes exactly the events before the cutoff and returns their number; if a batch fails, the batches before it stay removed and are counted |
| AuditCursor.Base64RoundTrips | backend/internal/app/audit/cursor.go:17-41 | Unpadded URL-safe base64 (section 5 of RFC 4648) reads back every byte string |
| AuditCursorText.EncodedThree | backend/internal/app/audit/cursor.go:17-41 | Three bytes give four characters of the URL-safe alphabet with their 24 bits in order, followed by the encoding of the rest |
| AuditCursorText.EncodedTwo | backend/internal/app/audit/cursor.go:17-41 | The last two bytes give three characters, filled up with zero bits |
| AuditCursorText.EncodedOne | backend/internal/app/audit/cursor.go:17-41 | A last byte gives two characters, filled up with zero bits |
| AuditCursor.TimeRoundTrips | backend/internal/app/audit/cursor.go:17-41 | RFC 3339 text with nanoseconds reads back for the years 0 to 9999 |
| AuditCursor.OtherYearsAreLost | backend/internal/app/audit/cursor.go:17-41 | For any other year it is refused |
| AuditCursor.UuidRoundTrips | backend/internal/app/audit/cursor.go:17-41 | The 36-character form of an id reads back |
| AuditCursor.CursorRoundTripsIff | backend/internal/app/audit/cursor.go:17-41 | A token reads back as its place if and only if the year is 0 to 9999, and is refused otherwise |
| AuditPages.List | backend/internal/app/audit/service.go:260-290 | A page is the front of what remains after the token; it has a next token exactly when more remains; an unreadable token is refused |
| AuditPages.RemainingAfter | backend/internal/infra/postgres/audit_repository.go:90-99 | The cursor condition on the last event of a page leaves exactly the later part of the listing |
| AuditPages.PageShown | backend/internal/app/audit/service.go:260-290 | A page without a token shows all that remains after its position; any other shows the front of it, and its token reads back as the position of its last event |
| AuditPages.PageTurned | backend/internal/app/audit/service.go:260-290 | Turning a page keeps what the pages so far promise: no matching event of the start skipped, none shown twice, newest first, whatever arrived; and fewer events are left to come |
| AuditPages.FollowPages | backend/internal/app/audit/service.go:260-290 | Following tokens from none to the end yields every event that matched at the start exactly once, newest first, whatever events arrive between the pages, for any page size and equal times; if the arrivals are newer than the start, it yields those events alone |
| RunResults.TargetResults.Clean | backend/internal/app/fleet/runner.go:232-247 | The loops replace NUL in every column name and cell, drop what only previews set, and keep everything else |
| RunResults.CleanedKeeps | backend/internal/app/fleet/runner.go:232-247 | Cleaning leaves every result, column, row and cell in its place, no NUL anywhere, and every other character, count and flag as it was |
| RunResults.TargetResults.TrimRows | backend/internal/app/fleet/runner.go:264-277 | Halves the rows of the first longest result, or reports that none has rows |
| RunResults.TargetResults.EncodeResults | backend/internal/app/fleet/runner.go:232-261 | Wherever some state fits the budget or does not encode, the loop ends with the first such state, and stores its text |
| RunResults.EndsIff | backend/internal/app/fleet/runner.go:232-261 | The loop ends if and only if one of its finitely many states fits; in particular whenever the part without results fits |
| RunResults.NeverEnds | backend/internal/app/fleet/runner.go:246-261 | For every encoding in which the error appears, the loop does not end on a target whose error alone is longer than the budget |
| RunResults.DropTimesKeeps | backend/internal/app/fleet/runner.go:232-277 | Unless cleared, every result keeps a prefix of its rows and is flagged when shortened; each round drops something as long as there are results |
| RunResults.TrimmedIff | backend/internal/app/fleet/runner.go:246-261 | Where the loop ends, the whole is newly flagged as trimmed exactly when something was dropped, with or without results, if the flag does not shorten the text |
| RunResults.RunFitsIff | backend/internal/app/fleet/runner.go:216-227 | Whatever the targets of a run store, it is at most 64 MiB together, if and only if the run has at most 4793490 targets |
| Endpoints.EndpointService.Transition | backend/internal/app/endpoint/service.go:467-475 | Writes a status exactly when status or error differ and the step is allowed; each write is an allowed transition |
| Endpoints.EndpointService.SettleRoutable | backend/internal/app/endpoint/service.go:404-430 | Settles one routable endpoint as the report says, a refused write leaving it as it was |
| Endpoints.EndpointService.SettleDisabling | backend/internal/app/endpoint/service.go:448-454 | Retires every disabling endpoint |
| Endpoints.EndpointService.Reconcile | backend/internal/app/endpoint/service.go:336-390 | After a pass whose configuration was taken, every routable endpoint is active, in error or pending by the report alone and every disabling one disabled; after a refused one, routable ones are pending and none is retired; only allowed transitions are logged |
| Endpoints.SecondPass | backend/internal/app/endpoint/service.go:336-390 | A second pass on the same report writes no status |
| Authorization.Allow | backend/internal/domain/authz/authz.go:66-76 | Grants allow exactly when one confers the permission globally or on a scope of the ancestry |
| Authorization.ReadableScope | backend/internal/domain/authz/authz.go:99-115 | The lists hold exactly the scopes the permission is granted on |
| Authorization.ListingAgrees | backend/internal/app/authz/resolver.go:37-77 | For a database whose instance has a server, the listing filter admits it exactly when access to it is allowed |
| Authorization.ListingAgreesWithoutServerIff | backend/internal/infra/postgres/database_repository.go:105-113 | Without a server, both agree exactly under the condition stated on how the missing server is read |
| Authorization.DependentsDecideAlike | backend/internal/app/authz/resolver.go:37-77 | Backups, and operations on them, are decided as their database is |
| Authorization.UnscopedNeedsGlobal | backend/internal/domain/authz/authz.go:66-76 | Something without ancestry is open to global grants alone |
| Authorization.RestrictToScopes | backend/internal/app/auth/service.go:313-325 | The map-and-slice loop keeps exactly the grants in scope, in order |
| Authorization.PrincipalFor | backend/internal/app/auth/service.go:257-284 | A session or token is let in exactly for an active account at its epoch, with all grants of the user, or those within the scopes if there are any |
| Authorization.TokenAllowsIff | backend/internal/app/auth/service.go:276-283 | A token allows exactly what its user may do and its scopes name, or all of it when it has no scopes |
| Authorization.TokenListsIff | backend/internal/app/auth/service.go:276-283 | A token lists exactly what its user may list, if the permission is in its scopes or it has none |
| OperationsService.Service.Create | backend/internal/app/operation/service.go:170-190 | Records a new open job |
| OperationsService.Service.Register | backend/internal/infra/postgres/database_repository.go:47-72 | Registers a database under its trimmed name exactly if that is valid and free on the instance; otherwise nothing changes |
| OperationsService.Service.Trigger | backend/internal/app/backup/service.go:81-137 | Records the backup job, with the move in its parameters, and the backup |
| OperationsService.Service.Restore | backend/internal/app/backup/service.go:153-221 | Records a restore of a complete, stored backup; refuses any other |
| OperationsService.Service.Delete | backend/internal/app/database/service.go:186-227 | Enqueues the drop, if physical, before the record goes; refuses system databases |
| OperationsService.Service.OnBackupComplete | backend/internal/app/move/service.go:109-129 | The backup leg of a move leads to the restore of that same backup on the target, and to nothing else |
| OperationsService.Service.OnRestoreComplete | backend/internal/app/move/service.go:134-173 | The restore leg registers the target, if its name is free, and if asked to, drops the source |
| OperationsService.Service.Complete | backend/internal/app/operation/service.go:515-607 | Finalizes a job once and applies its side effects by kind and parameters; a verification restore leads to the drop at its own place |
| OperationsService.Service.FailStuck | backend/internal/app/operation/service.go:500-513 | Fails every listed job and counts exactly those that were open |
| MoveSafety.InvAlways | backend/internal/app/operation/service.go:515-607 | What every job keeps about its origin, its predecessors and its times holds after every run of calls |
| MoveSafety.AllTraced | backend/internal/app/operation/service.go:515-607 | Every job was created by the call at its creation time, as its origin says, and finished by a completion of it at its completion time with that result |
| MoveSafety.DropsAreAskedForOrMoved | backend/internal/app/move/service.go:109-173 | In every run, the call that enqueues the drop of a registered database either asked for it, or ends a move started to drop it: calls completed its backup and then the restore of that same backup on the target as succeeded, in this order, before |
| MoveSafety.ScratchRestoresMoveNothing | backend/internal/app/operation/service.go:694-721 | Completing a verification or copy restore registers and drops no database and enqueues nothing but, for a verification, the drop at the instance and name it restored to |
| JobPlaces.JobsArePlaced | backend/internal/app/operation/service.go:170-190 | In every run, every job works on the instance and database name that the call which created it gave, or that the database it was about bears, by origin: backups, restores, imports, moves, verifications, copies and drops |
| JobPlaces.VerifyDropsItsScratch | backend/internal/app/operation/service.go:705-721 | In every run, the drop after a verification is of the instance and name that the verification restore, whose completion enqueued it, had: the instance of the database backed up and the name given when the verification was asked for |
| JobPlaces.ScratchHitsNoDatabase | backend/internal/app/operation/service.go:694-721 | In every run whose given names are scratch names, no restore or drop of a verification or copy names a database that is or ever was registered |
| MoveSafety.RolesOutliveScratch | backend/internal/app/operation/service.go:577-592 | The access-role cleanup runs only for succeeded drops of registered databases, never for scratch databases |
| MoveSafety.FailStuckAdvancesNoMove | backend/internal/app/operation/service.go:500-513 | Failing interrupted jobs leaves none of them open and registers or drops no database |
| MoveSafety.CompletesOnce | backend/internal/app/operation/service.go:515-522 | Completing a job again changes nothing |
| MoveEnds.MoveEndsIff | backend/internal/app/move/service.go:134-173 | In every run, when the restore of a move succeeds, the target is registered exactly if its name is valid and free on its instance and the store takes it; the source is dropped, registered target or not, exactly if it was to be, is still there, is no system database and the drop is not refused; the place dropped is the one just restored to exactly if that is the place of the source, and then no target is registered |
| MoveEnds.MoveOntoItselfIff | backend/internal/app/move/service.go:54-105 | In every run, the drop that ends a move is of the very place that the move restored to if and only if the move was started onto the own instance of its source, under its own name or none |
| MoveEnds.MoveDropsItsOwnCopy | backend/internal/app/move/service.go:134-173 | Such a run, whose last call drops the database it has just restored and leaves no database registered |

## Assumptions

- A table is a map from keys to rows. The engines scan it in one fixed key order, look up exactly the
  rows asked for that exist, and check and write one row in one step; the module Tables writes this out
  from rowreader.go and rowimage.go.
- The row digest (RowHash) has no collisions; it is modelled as the values it digests.
- Journal entries are ordered by creation, with no two at the same time.
- Each SQL statement of a repository is one atomic step, and the reads, statements and job requests of
  concurrent calls interleave freely in BackupCopyRuns and UndoRace.
- A step that fails has no effect: a secret store call, a row write, an engine call. Which steps fail is
  a parameter. The jobs on temporary databases are excepted: a failed restore may leave its database,
  and a failed drop may have dropped it.
- Jobs have no operation as their resource (Authorization.JobsAreNotNested), as no caller creates one so.
- Ids are numbers never used before; clocks, random passwords and ids, queue answers and failures are
  parameters.

## Left out

- AuditCursor.ParseTime: reads only the form that a token contains, in UTC; Go's parser also takes other zones and looser spellings, which the model refuses.
- AuditCursor.ParseUuid: reads only the 36-character form in hexadecimal digits; Go's also takes braces, a urn prefix and no dashes.
- CopyDiff.DiffIsExact: whole comparisons are of one-column keys, or keys whose values hold no NUL; for others, CopyPages.PageRightIff decides page by page, and which rows meet on a page depends on order and page size.
- CopyConvergence.RestoreConverges: restores whole comparisons, so of the same keys.
- RunResults.TargetResults.EncodeResults: modelled exactly where the loop ends, which EndsIff characterizes.
- MoveSafety.DropsAreAskedForOrMoved: completion hooks run together with the completion that calls them; hooks of two completions do not interleave.
- Endpoints.EndpointService.Reconcile: passes run one at a time and no endpoint is disabled meanwhile; the guard against that is in a repository that is not part of this model.
- InstanceUpdate.Service.Update: one update at a time; the foreign key that sets a reference to null when its secret goes is not relied on.
- Alerts.Evaluator.EvaluateAlerts: one process; a restart forgets both maps, and gaps between evaluations are not noticed, as in the source. Values are real numbers instead of floating point.
- SqlSplit.SplitStatements: characters instead of UTF-16 units, which differ only inside a character that no rule mentions.
- isReadOnly, writeStatements and previewBlocker of sql.ts: single look-ups in a set of keywords on top of the statements proved here.
- Cells too long for display are cut before they are shown; the comparison itself works on whole values.
- Generated, identity and unsigned columns, secondary unique keys, foreign keys and triggers of a user's table.
- DataBrowser.Browser.Record: the journal never fails to append an entry; in the source the edit then stands without one.
- Several databases in one journal, and pruning the journal.
- The JSON form of an image (MarshalJSON, UnmarshalJSON, imageJSON): the image is the map itself.
- Plain field validation, credential and engine family checks of the operations: refusals that change nothing.
- Rows of backup copies deleted together with their database.
- Other kinds of operation (provisioning, import, gateway), logs, progress, and claiming: they neither start nor advance a move.
- Endpoints' TLS probe and the generation of the gateway configuration: parameters of the pass.
- Charset, collation, labels and versions of stored databases.
- Handlers, pages, delivery of notifications, tunnels and object storage.
