# CyberGuard: verified models of its hardest parts

Dafny models of six parts of CyberGuard Enterprise, with proofs about every run and every input.

- **Migration of a console installation into the installed service** (`MigrationDisk`, `MigrationSafety`, `MigrationCopies`, `MigrationService`). The disk is a state machine of atomic changes. A start can fail or crash after any of them, so a history is any sequence of allowed changes. `Host` follows the service's code step by step and is proved to make no other change, so the theorems about histories hold of it.
- **Logins racing changes of authority** (`AuthProtocol`), **role and status changes that lock rows** (`AdminLocks`), **the rate limiter** (`RateLimit`, `AttemptFlow`) **and session lifetimes** (`SessionLifetime`). Each store command is one step; any number of threads interleave.
- **The rotating log** (`LogDisk`, `LogLines`, `RotatingLog`): no order is lost in any interrupted rotation, and records do not depend on how the stream is cut.
- **Event delivery** (`DeliveryLedger`, `DeliveryPosts`, `Delivery`) **and the creation-time cache** (`CreatedTimeCache`): an account of every captured event over every run.
- **Binary formats**: the DER reader and the certificate's two fields (`Der`, `Certificate`), the Windows version resource (`VersionResource`, `VersionInfo`).
- **Two readings of a release version** (`ReleaseVersion`), proved to be one grammar.

`Common` holds the shared datatypes. `dafny verify dfyconfig.toml` checks the whole project.

Where the code does less than a first expectation, there is a run that shows it and the exact condition:

- `exists` takes a name it cannot inspect as free, so a rotation can replace a file (`RotatingLog.ReplacedArchive`). `Log.Rotate` states if and only if when; `LogDisk.HistoryIsInOrder` says what is left.
- A write that a crash cut off leaves a line without an end, and the next record joins it (`RotatingLog.JoinedLines`). `RecordIsALine` states if and only if when a record is a line of its own, and `Log.Write` that a log whose file ended a line when it was opened keeps it so through every failure.
- An account's counter is deleted by each login of it that succeeds, so more attempts than its threshold can be under way (`RateLimit.AccountBurst`). It is exact if and only if it is never deleted with a slot held on it (`ExactUnlessWiped`).
- A change whose scan fails leaves a session with the old role (`AuthProtocol.FailedScanLeavesOldAuthority`), and so does one whose commit got no answer and is made after its scan (`LateCommitLeavesOldAuthority`). `NoOldAuthority` holds without both.
- A rewrite can keep a session's entry past its cap (`SessionLifetime.EntryPastItsCap`, and `RewriteOutlivesTheCap` if and only if when), but no use that began past the cap answers from it (`CapHolds`).
- A use can answer from a session that was revoked after its `GET` (`SessionLifetime.AnswerAfterRevocation`). `RevokedAnswers` states if and only if when.
- A backoff factor that is not a number passes the configuration's check and ends the waiting (`DeliveryPosts.BackoffGrows`).
- A block of 65536 bytes or more is written with a truncated length; a tree is read back if and only if its block is shorter and no key holds a 0 (`VersionResource.ReadsBackExactly`).

## Model

| member | source | states |
|---|---|---|
| MigrationSafety.EveryCombinationIsHandled | agent/cg-agent/src/service/migration.rs:549-576 | After every history of starts, failures and crashes from a console host, the three directories are in a combination `prepare` has a branch for; a staging or legacy directory that exists counts, and with the data root away there is a record |
| MigrationSafety.IdentityIsNeverLost | agent/cg-agent/src/service/migration.rs:1330-1399 | In every reachable state the original agent id and key are held complete by the data root or, while it is away, by the legacy directory |
| MigrationSafety.CopiesGoOnlyAfterTheCommit | agent/cg-agent/src/service/migration.rs:1599-1680 | A change that deletes a copy or the legacy directory is allowed only where the data root is an installed tree with the original identity and the recorded choice is `remove` |
| MigrationSafety.KeptCopiesStay | agent/cg-agent/src/service/migration.rs:1599-1680 | Before the commit, and after it with `keep`, every original file is still there, the same but for its security |
| MigrationSafety.CopiesAreRestricted | agent/cg-agent/src/service/migration.rs:1290-1327 | Once the data root was renamed away no old copy is under its console security and the legacy directory is closed |
| MigrationSafety.CommitIsFinal | agent/cg-agent/src/service/migration.rs:1540-1582 | Along any run, once the commit is made the identity and the record, but for the copies not reached, never change again |
| MigrationSafety.ReversalIsOfThisCommit | agent/cg-agent/src/service/migration.rs:1559-1581 | Wherever a start would rename the legacy directory back, the second rename after the last first rename failed: a stale mark never undoes a later commit |
| MigrationSafety.SecondFailedIsWitnessed | agent/cg-agent/src/service/migration.rs:1559-1581 | The flag that the second rename failed goes back to a step that failed it, with no first rename since |
| MigrationSafety.InvHolds | agent/cg-agent/src/service/migration.rs:549-576 | Every reachable state is one of three phases: the console installation in place, away at the legacy name beside a checked staged tree, or replaced by an installed tree |
| MigrationSafety.Kept | agent/cg-agent/src/service/migration.rs:1330-1582 | Each change the protocol allows keeps that invariant, and after the commit keeps the commit |
| MigrationSafety.KeptBefore | agent/cg-agent/src/service/migration.rs:1330-1399 | The changes of a start that has the console installation in place keep the invariant |
| MigrationSafety.KeptBetween | agent/cg-agent/src/service/migration.rs:648-734 | The changes made between the renames keep it: the second rename, its failure, the mark, the rename back |
| MigrationSafety.KeptAfter | agent/cg-agent/src/service/migration.rs:1599-1774 | The changes to the old copies keep it, and keep the commit |
| MigrationSafety.BetweenFacts | agent/cg-agent/src/service/migration.rs:648-681 | With the data root away the staging directory is a recorded installed tree and the legacy directory the console installation it records |
| MigrationSafety.AfterFacts | agent/cg-agent/src/service/migration.rs:507-529 | After the commit `<P>` and the data root are closed, and a legacy directory counts |
| MigrationSafety.CopyIsChecked | agent/cg-agent/src/service/migration.rs:1697-1719 | Every copy still has the file ID the record holds |
| MigrationSafety.StagedIsClosed | agent/cg-agent/src/service/migration.rs:768-823 | In every reachable state with something staged, renamed or committed, `<P>` and the data root are closed |
| MigrationService.DispatchReadsThePhase | agent/cg-agent/src/service/migration.rs:549-576 | A start that can inspect everything takes each branch exactly in the phase it is for, and never the one for other combinations |
| MigrationService.DispatchIsSafe | agent/cg-agent/src/service/migration.rs:430-450 | Whatever a start cannot inspect (a staging or legacy directory then does not count, a data root or identity file is taken as there), each branch is taken only in the phases named; with a record, the branch of a console layout alone exactly when the staging directory could not be inspected before the commit |
| MigrationService.Host.constructor | agent/cg-agent/src/service/migration.rs:549-576 | A host as the console runbook left it, with no change made yet |
| MigrationService.Host.Do | agent/cg-agent/src/service/migration.rs:239-292 | One atomic change, only where the protocol allows it; the history grows by it and the disk is what it leads to |
| MigrationDisk.FlagIsHistory | agent/cg-agent/src/service/migration.rs:1559-1581 | No change depends on what is remembered of the second rename but the mark it allows |
| MigrationService.Host.Prepare | agent/cg-agent/src/service/migration.rs:549-576 | Every change is one the protocol allows, whatever fails; nothing changes without the lock or on a console layout without arguments; arguments other than the recorded ones are refused and leave the disk as it was, whatever cannot be inspected; exactly when a start goes on plainly or as a console layout; fault-free it commits, or makes the reversal it found recorded |
| MigrationService.Host.Recover | agent/cg-agent/src/service/migration.rs:604-681 | From every interrupted state the recorded arguments reach the commit in two fault-free starts, and in two exactly when a reversal is pending |
| MigrationService.Host.BesideAConsoleLayout | agent/cg-agent/src/service/migration.rs:604-644 | Nothing changes without the lock or the arguments, or with other arguments than the recorded; a fault-free start with the recorded ones commits, with the console installation in place |
| MigrationService.Host.BetweenRenames | agent/cg-agent/src/service/migration.rs:648-681 | Nothing changes without the lock or with other arguments; fault-free, the commit is completed or the pending reversal made |
| MigrationService.Host.Complete | agent/cg-agent/src/service/migration.rs:664-681 | The staged tree is checked again and renamed; fault-free it commits |
| MigrationService.Host.Reverse | agent/cg-agent/src/service/migration.rs:698-734 | When its operations succeed the legacy directory is the data root again, unchanged, and the record has lost its mark |
| MigrationService.Host.CommittedBefore | agent/cg-agent/src/service/migration.rs:592-599 | Succeeds only after the commit with the recorded arguments or none, and then always without a fault |
| MigrationService.Host.PlainStart | agent/cg-agent/src/service/migration.rs:579-589 | Succeeds if and only if there are no arguments, the directories can be inspected and pass their check, and a record, if any, can be read |
| MigrationService.Host.CheckDirectories | agent/cg-agent/src/service/migration.rs:507-529 | Passes exactly when both directories can be inspected and satisfy the policy |
| MigrationService.Host.CheckCommitted | agent/cg-agent/src/service/migration.rs:768-791 | After a commit it fails only when a directory cannot be inspected |
| MigrationService.Host.NotInProgress | agent/cg-agent/src/service/migration.rs:549-576 | A start that sees none: exactly when it does something, exactly how it goes on; once a migration is further than its first checks, it changes nothing |
| MigrationService.Host.GoOn | agent/cg-agent/src/service/migration.rs:549-576 | A start that sees a migration: arguments other than the recorded ones change nothing |
| MigrationService.Host.ConsoleStart | agent/cg-agent/src/service/migration.rs:549-576 | A start that sees a console layout alone: without arguments it changes nothing and goes on exactly when the directories pass; with them it commits only from the console installation in place, and changes nothing once something is staged or committed |
| MigrationService.Host.Route | agent/cg-agent/src/service/migration.rs:768-791 | Nothing changes without the lock; something is done exactly when `<P>` comes to be closed; started afresh beside a staged or committed migration it fails and leaves the disk as it was; success means committed, and from the console installation in place; on a migratable host a fault-free route commits |
| MigrationService.Host.CheckAndRestrict | agent/cg-agent/src/service/migration.rs:768-791 | Success means the directories closed, the entries accepted, every file restricted and one identity verified; a staging directory with a record is left alone; afresh beside one, or after the commit, it fails and the disk is as it was |
| MigrationService.Host.CheckAll | agent/cg-agent/src/service/migration.rs:892-954 | Items 2.2 and 2.3 change nothing, accept only their conditions, and accept a migratable host |
| MigrationService.Host.CloseDirectories | agent/cg-agent/src/service/migration.rs:794-823 | Item 2.1 closes both directories or stops, does something exactly when it comes to close `<P>`, touches nothing else, and changes nothing when both were closed |
| MigrationService.Host.DeleteInterrupted | agent/cg-agent/src/service/migration.rs:862-873 | A staging directory without a record is deleted, or part of it is left and the start stops; the data root is untouched |
| MigrationService.Host.CheckWhatIsThere | agent/cg-agent/src/service/migration.rs:892-954 | Accepts only and, without a fault, exactly the agent's own entries, all required ones, each a plain file |
| MigrationService.Host.ReadEachFile | agent/cg-agent/src/service/migration.rs:1086-1145 | Accepts only and, without a fault, exactly a console configuration, the anchor asked for and one agent's unexpired identity, the recorded one |
| MigrationService.Host.RestrictFiles | agent/cg-agent/src/service/migration.rs:1290-1327 | Every file loses its console security or the start stops; no content and no name changes |
| MigrationService.Host.RestrictVerified | agent/cg-agent/src/service/migration.rs:1290-1327 | Restricting leaves the verified identity as it is |
| MigrationService.Host.StageAndCommit | agent/cg-agent/src/service/migration.rs:768-791 | On what the items before accepted, success means committed, and fault-free it succeeds |
| MigrationService.Host.RecordAndStage | agent/cg-agent/src/service/migration.rs:1330-1399 | Success means a staged installed tree under a record, without a mark, of this console installation; the data root is untouched |
| MigrationService.Host.ReuseStaging | agent/cg-agent/src/service/migration.rs:1361-1364 | A continued migration's staging directory holds exactly the new record, or the start stops |
| MigrationService.Host.MakeStaging | agent/cg-agent/src/service/migration.rs:1365-1372 | A new staging directory holds exactly the record, or the start stops |
| MigrationService.Host.StageTree | agent/cg-agent/src/service/migration.rs:1374-1397 | Success means the staged tree passes the check of an installed tree; only the staging directory changes |
| MigrationService.Host.StageIdentityTree | agent/cg-agent/src/service/migration.rs:1381-1395 | The staged identity holds the recorded agent's three files |
| MigrationService.Host.StageShared | agent/cg-agent/src/service/migration.rs:1377-1380 | A staged file is whole, torn or absent, and whole exactly on success |
| MigrationService.Host.StageIdentityOne | agent/cg-agent/src/service/migration.rs:1384-1395 | The same for a file of the staged identity |
| MigrationService.Host.Rewrite | agent/cg-agent/src/service/migration.rs:738-747 | The record is replaced whole or not at all, and nothing else changes but the leftover of the rewrite |
| MigrationService.Host.Commit | agent/cg-agent/src/service/migration.rs:1540-1582 | Success means the staged tree is the data root and the data root the legacy directory; when the second rename fails and the reversal works, the data root is what it was |
| MigrationService.Host.SecondHalf | agent/cg-agent/src/service/migration.rs:1554-1581 | The second rename commits exactly when it succeeds; failed and reversible, the console installation is back in place |
| MigrationService.Host.RecordAndReverse | agent/cg-agent/src/service/migration.rs:1564-1581 | The failure is recorded, then the rename undone; when all of it works the start ends reversed |
| MigrationService.Host.OldCopies | agent/cg-agent/src/service/migration.rs:1599-1680 | Nothing changes without a legacy directory that counts; otherwise the report tells of each copy what became of it and the record names what was not reached; fault-free, `remove` leaves no legacy directory and `keep` every copy |
| MigrationService.Host.PassOverCopies | agent/cg-agent/src/service/migration.rs:1614-1680 | The same for one pass, with every kept copy restricted |
| MigrationService.Host.EachCopy | agent/cg-agent/src/service/migration.rs:1622-1641 | The loop over the copies: a copy out of reach stops nothing, and the report tells the truth of each |
| MigrationService.Host.OneCopy | agent/cg-agent/src/service/migration.rs:1624-1641 | A copy ends restricted, deleted, out of reach or cut short, as reported, and deleted only with `remove` |
| MigrationService.Host.RestrictOne | agent/cg-agent/src/service/migration.rs:1724-1743 | The copy is restricted, or untouched and reported so |
| MigrationService.Host.RemoveOne | agent/cg-agent/src/service/migration.rs:1747-1761 | The restricted copy is deleted, or untouched and reported so |
| MigrationService.Host.LastStep | agent/cg-agent/src/service/migration.rs:1642-1665 | The directory goes only when empty and asked for; the record holds what was not reached |
| MigrationCopies.FullPass | agent/cg-agent/src/service/migration.rs:1599-1680 | A pass that reached everything left nothing with `remove`, and every copy restricted with `keep` |
| MigrationCopies.NotingOne | agent/cg-agent/src/service/migration.rs:1624-1641 | One more copy noted keeps the report true of every copy passed |
| AuthProtocol.NoOldAuthority | services/api/src/auth/service.ts:302-411 | Over any interleaving of logins, changes and uses, commits without an answer included, once every change of a user has finished its scan and none was made after its scan began, a session a login returned has the user's present role, an active user and the version the login read |
| AuthProtocol.FailedScanLeavesOldAuthority | services/api/src/auth/service.ts:227-240 | The scans must finish: a run in which one fails and a session keeps the role its user lost |
| AuthProtocol.LateCommitLeavesOldAuthority | services/api/src/auth/service.ts:176-220 | No commit may come after its scan began: a run in which one without an answer does, every scan finishes, and a session keeps the role its user lost |
| AuthProtocol.RevokedStaysRevoked | services/api/src/auth/session.ts:76-101 | A deleted session never returns, not even by a use that had read it |
| AuthProtocol.EntriesNeverChange | services/api/src/auth/session.ts:76-101 | No use gives a session another user or role |
| AuthProtocol.RacedLoginLeavesNothing | services/api/src/auth/service.ts:367-380 | A login that sees its row changed never returns its token, and once its own deletion was made leaves no session, whatever the scan saw |
| AuthProtocol.IssuesStay | services/api/src/auth/session.ts:47-65 | A token is issued once, with the login and row it was made for |
| AuthProtocol.InvAt | services/api/src/auth/service.ts:207-240 | Every reachable state: entries are as issued, rows read are the user's or passed by its version, and a kept session gone stale has a change still to delete it |
| AuthProtocol.StaleByCommit | services/api/src/auth/service.ts:207-220 | A kept session goes stale only by a commit of a change of its user, made at once or late |
| AuthProtocol.StillDeletes | services/api/src/auth/session.ts:132-144 | A change that was to delete a session still is, through every step of its scan, unless the session is gone |
| AdminLocks.LastAdminStays | services/api/src/auth/service.ts:249-299 | Over any interleaving of changes that lock rows in user-id order and read each again, an org with an active admin keeps one |
| AdminLocks.NoDeadlock | services/api/src/auth/service.ts:249-299 | No chain of waits for locks closes into a cycle |
| AdminLocks.SomeoneCanMove | services/api/src/auth/service.ts:249-299 | While a transaction is under way, one of them can lock its next row or end |
| AdminLocks.InvAt | services/api/src/auth/service.ts:249-299 | What a transaction holds comes before all it has yet to lock, and what it read under a lock is what the row still is |
| AdminLocks.AdminStays | services/api/src/auth/service.ts:262-277 | One step keeps an active admin: a change that takes one holds another |
| AdminLocks.WaitsAscend | services/api/src/auth/service.ts:249-299 | Along a chain of waits the row waited for only grows |
| RateLimit.Redis.constructor | services/api/src/auth/ratelimit.ts:41-72 | No counters at first |
| RateLimit.Redis.Reserve | services/api/src/auth/ratelimit.ts:41-49 | Granted exactly when every counter has room; then each is raised, and refused nothing changes |
| RateLimit.Redis.Failed | services/api/src/auth/ratelimit.ts:53-62 | Each window restarts; a counter whose window ended counts afresh at 1 |
| RateLimit.Redis.Release | services/api/src/auth/ratelimit.ts:65-72 | One slot is given back on each counter, and a counter that reaches 0 is gone |
| RateLimit.IncrementedAt | services/api/src/auth/ratelimit.ts:41-49 | Reserving raises exactly the attempt's counters, each by one |
| RateLimit.RestartedAt | services/api/src/auth/ratelimit.ts:53-62 | A failure changes no count but of a counter whose window ended |
| RateLimit.DecrementedAt | services/api/src/auth/ratelimit.ts:65-72 | Releasing lowers exactly the attempt's counters that count something, each by one |
| RateLimit.ReleaseUndoesReserve | services/api/src/auth/ratelimit.ts:41-72 | A release takes back exactly what the reservation put in |
| RateLimit.CountersStayBounded | services/api/src/auth/ratelimit.ts:41-145 | Under any interleaving, windows ending and stores failing, every counter lies between 1 and its threshold and counts no slot twice |
| RateLimit.ExactUnlessWiped | services/api/src/auth/ratelimit.ts:105-110 | A counter always equals the slots held on it if and only if it is never deleted, by its window or by a login of its account, while one is still held |
| RateLimit.NoBurst | services/api/src/auth/ratelimit.ts:94-145 | While a counter is not deleted with a slot held on it, which for an address, a user and a password takes the end of its window, it equals the attempts in flight plus the failures, never above the threshold |
| RateLimit.MoreAttempts | services/api/src/auth/ratelimit.ts:41-49 | While there is room, any number of attempts is granted, each with a slot of its own |
| RateLimit.AccountBurst | services/api/src/auth/ratelimit.ts:105-110 | A run in which a login that succeeds deletes the counter of its account, and nine attempts come to hold slots of five |
| RateLimit.CountChange | services/api/src/auth/ratelimit.ts:41-145 | What every step does to one counter |
| RateLimit.HoldersChange | services/api/src/auth/ratelimit.ts:94-145 | What every step does to the attempts that hold a slot on it |
| AttemptFlow.LoginBody | services/api/src/auth/service.ts:312-411 | Of a login's body: `settled` is set exactly when a settling call is made, and each ending has its calls and its checks |
| AttemptFlow.OtherBody | services/api/src/auth/service.ts:492-564 | The same of a password change's and a confirmation's body |
| AttemptFlow.Attempt | services/api/src/auth/service.ts:302-411 | On every path, its catch included, each counter is settled at most once, and each is settled unless nothing was reserved or the deletion of the account's counter failed; the settling calls lead from phase to phase |
| AttemptFlow.PathStands | services/api/src/auth/ratelimit.ts:94-145 | In every run an attempt is in the phase its own calls so far lead to |
| AttemptFlow.CallsAreSteps | services/api/src/auth/ratelimit.ts:94-145 | Whatever other attempts do meanwhile, the next settling call of a path is always a step of the limiter's run |
| SessionLifetime.Sessions.constructor | services/api/src/auth/session.ts:33-41 | An empty store with the configured lifetimes |
| SessionLifetime.Sessions.Create | services/api/src/auth/session.ts:47-65 | The history gains the issue; every entry still stands for a life of the history |
| SessionLifetime.Sessions.Resolve | services/api/src/auth/session.ts:76-101 | Answers exactly when the history has the session unrevoked, used within the idle time and issued within the cap, with its user; the use joins the history |
| SessionLifetime.Sessions.Revoke | services/api/src/auth/session.ts:127-129 | The entry is gone and the history gains the revocation |
| SessionLifetime.Sessions.RevokeAllForUser | services/api/src/auth/session.ts:132-144 | Whatever the batches of a full scan, every entry of the user is gone and no other |
| SessionLifetime.LifeMeans | services/api/src/auth/session.ts:76-101 | A life in the history is of the token's last issue with no revocation after, and its last use the last that found it alive |
| SessionLifetime.RevokedIsOver | services/api/src/auth/session.ts:127-129 | A revoked token has no life until it is issued again |
| SessionLifetime.CapHolds | services/api/src/auth/session.ts:76-101 | However the clock, reads and rewrites interleave, a use that answers took its time within the cap of the issue, and answers no earlier |
| SessionLifetime.EntryPastItsCap | services/api/src/auth/session.ts:87-99 | A run under the default lifetimes in which a rewrite 1 ms late leaves an entry still there at its cap |
| SessionLifetime.RewriteOutlivesTheCap | services/api/src/auth/session.ts:87-99 | A rewrite gives an entry an end past its cap if and only if it comes later, after the time its use took, than the idle lifetime leaves of the cap |
| SessionLifetime.RevokedIsNotFound | services/api/src/auth/session.ts:93-99 | However they interleave, no use that reads after a revocation finds the session |
| SessionLifetime.RevokedAnswers | services/api/src/auth/session.ts:84-100 | After a revocation a use is to answer from the session if and only if its `GET` came before it |
| SessionLifetime.AnswerAfterRevocation | services/api/src/auth/session.ts:84-100 | A run in which a use reads, the session is revoked, and the use is still to answer |
| SessionLifetime.IssuedStaysAt | services/api/src/auth/session.ts:93-99 | In every interleaving an entry's time of issue is the token's own, and no use is ahead of the clock |
| LogDisk.HistoryIsKept | agent/cg-agent/src/service/rotation.rs:128-156 | After every history of renames, removals, reopens and appends in which no rename replaced a file: what was dropped, then archives 5 to 1, the rotating and the active file, is what there was at first, then all that was appended |
| LogDisk.HistoryIsInOrder | agent/cg-agent/src/service/rotation.rs:128-156 | After every history, whatever a rename replaced: what the files hold is in the order written, and what is missing is as long as what was removed or replaced |
| LogDisk.ReplacingOp | agent/cg-agent/src/service/rotation.rs:128-156 | A rename that replaces a file leaves out its bytes and no others, in place |
| LogDisk.OneOp | agent/cg-agent/src/service/rotation.rs:128-156 | An operation that replaces nothing drops from the oldest end alone and adds at the newest alone |
| LogDisk.ShiftKeepsOrder | agent/cg-agent/src/service/rotation.rs:128-156 | Shifting an archive to a free name keeps the order of all archives |
| LogDisk.DropTakesTheOldest | agent/cg-agent/src/service/rotation.rs:128-156 | Removing archive 5 removes the oldest bytes and no others |
| LogLines.FrameMeans | agent/cg-agent/src/service/rotation.rs:256-295 | The byte-by-byte framer holds the records of the lines received, the diagnostic in place of a line exactly when it is too long for a record, with its full length |
| LogLines.FrameAfterPlain | agent/cg-agent/src/service/rotation.rs:256-267 | A chunk without a newline adds to what is kept, until it outgrows a record |
| LogLines.FrameAfterNewline | agent/cg-agent/src/service/rotation.rs:269-280 | A newline hands on one record more and keeps nothing |
| LogLines.LinesAreTheStream | agent/cg-agent/src/service/rotation.rs:286-295 | The lines, none with a newline in it, and the rest are the stream |
| LogLines.RecordOfEach | agent/cg-agent/src/service/rotation.rs:194-205 | One record for each line, in order |
| RotatingLog.Log.constructor | agent/cg-agent/src/service/rotation.rs:83-103 | A log on a directory as it is found, nothing received |
| RotatingLog.Log.Open | agent/cg-agent/src/service/rotation.rs:83-103 | Opened, a rotation found unfinished is finished and no file grew past its bound; an active file that ends a line still does; with a full file a rename replaces one exactly when a taken name counts as free; fault-free it opens, at rest |
| RotatingLog.Log.ChronicleIsTheStream | agent/cg-agent/src/service/rotation.rs:194-295 | Whatever failed, until the log stops: what was dropped and all the files hold in order is what there was at first, then a line for each complete line received, each after the ended part a failed write left of it; while nothing failed there are no such parts; after a rename that replaced a file the files hold it in order, less what was lost |
| RotatingLog.Log.Do | agent/cg-agent/src/service/rotation.rs:128-156 | One file operation where there is something for it; an archive goes only with all five and the rotating file there; a rename onto an existing name is remembered |
| RotatingLog.Log.Reopen | agent/cg-agent/src/service/rotation.rs:116-122 | The tracked size is the file's; only a missing active file is created |
| RotatingLog.Log.Rotate | agent/cg-agent/src/service/rotation.rs:128-156 | From any stage of an interrupted rotation: success leaves no rotating file; failed at any point the directory is still one a retry finishes; nothing is appended; a rename replaces a file if and only if the rotating name, or the first archive place that counts as free, is taken |
| RotatingLog.Log.SetAside | agent/cg-agent/src/service/rotation.rs:129-139 | Success leaves the old file at the rotating name and a new empty active one; a file is replaced exactly when one had that name |
| RotatingLog.Log.MakeRoom | agent/cg-agent/src/service/rotation.rs:140-152 | Only archives move, each as it was, and one goes only with all places taken; success leaves archive 1 free unless a taken place counted as free, and then a file is or will be replaced |
| RotatingLog.Log.ShiftUp | agent/cg-agent/src/service/rotation.rs:147-152 | The archives before a free place move up one, the oldest first; only that place can be replaced |
| RotatingLog.Log.ShiftOne | agent/cg-agent/src/service/rotation.rs:147-152 | One archive to the next place, replacing what is there |
| RotatingLog.Log.FirstFree | agent/cg-agent/src/service/rotation.rs:140-146 | The first archive place that is free or cannot be inspected, or one past the last |
| RotatingLog.Log.RotateIfDue | agent/cg-agent/src/service/rotation.rs:159-191 | Refuses only when rotation has failed for the limit or the file cannot be opened; with room left nothing is rotated; at rest the record then fits |
| RotatingLog.Log.AppendRaw | agent/cg-agent/src/service/rotation.rs:237-244 | All the bytes, or a part of them, at the end of the active file |
| RotatingLog.Log.WriteRecord | agent/cg-agent/src/service/rotation.rs:194-228 | Unless the log stops, the active file is its former content (an empty one only if that had no room), the ended part a failed write left, then the record's line, and ends a line; at rest every file stays within its bound; when it stops an operation named failed |
| RotatingLog.Log.WriteLine | agent/cg-agent/src/service/rotation.rs:210-228 | The line, or the line again after the end of its failed first part |
| RotatingLog.Log.Retry | agent/cg-agent/src/service/rotation.rs:211-226 | A newline is written first exactly when the reopened file is longer than tracked |
| RotatingLog.Log.Take | agent/cg-agent/src/service/rotation.rs:256-267 | The frame becomes that of the bytes received so far |
| RotatingLog.Log.EndLine | agent/cg-agent/src/service/rotation.rs:269-280 | The frame becomes that of the stream with its newline, and what was appended is still each record after its ended part; the file ends a line; at rest the log stays at rest |
| RotatingLog.Log.HandOn | agent/cg-agent/src/service/rotation.rs:269-280 | The record is appended as a line of its own, after the end of whatever a failed write left, and both are remembered |
| RotatingLog.Log.TakeLine | agent/cg-agent/src/service/rotation.rs:286-295 | The bytes up to the next newline are received, and the line it ends is handed on |
| RotatingLog.Log.Write | agent/cg-agent/src/service/rotation.rs:286-295 | However a stream is cut, the frame after a write is that of the whole stream received; a file that ends a line still does |
| RotatingLog.Log.WriteAll | agent/cg-agent/src/service/rotation.rs:286-295 | For every way of cutting a stream and every failure, the records handed on are those of the concatenation's lines, and what was appended is those records until the log stops; no file is replaced while names can be inspected |
| RotatingLog.Position | agent/cg-agent/src/service/rotation.rs:286-295 | The next newline, with none before it, or the end |
| RotatingLog.RecordIsALine | agent/cg-agent/src/service/rotation.rs:210-228 | A record is a complete line of its own if and only if the file ended a line or a part of it was ended first; either way the file ends a line again |
| RotatingLog.JoinedLines | agent/cg-agent/src/service/rotation.rs:83-103 | A write cut off by a crash, a new log on that directory and a record: the two are one line |
| RotatingLog.ReplacedArchive | agent/cg-agent/src/service/rotation.rs:128-156 | A full log beside an archive that cannot be inspected: its rotation replaces a file |
| DeliveryLedger.EveryEventIsAccountedFor | agent/cg-agent/src/delivery.rs:145-254 | After every run: accepted events are those in the ring, overflowed, or in batches by how they ended, and the drop counter is the overflowed and those counted from outside |
| DeliveryLedger.EveryBatchIsWhole | agent/cg-agent/src/delivery.rs:326-352 | After every run each batch is consecutive accepted events, at most 1024, and they alone carry its number |
| DeliveryLedger.BatchesAreInOrder | agent/cg-agent/src/delivery.rs:326-352 | An event of an earlier batch was accepted before one of a later batch |
| DeliveryLedger.AlwaysBalanced | agent/cg-agent/src/etw/ring.rs:73-143 | The account balances after every run of entries |
| DeliveryLedger.EnterBalances | agent/cg-agent/src/etw/ring.rs:73-143 | Each entry keeps it balanced: an arrival, an overflow, a batch formed or ended, drops counted from outside |
| DeliveryPosts.BooksHold | agent/cg-agent/src/delivery.rs:145-254 | Over every run of the loop: the POST in flight is the last batch and no other is; a retry repeats number and events and numbers never go back; a batch was delivered by one attempt, dropped by exactly its budget of rejections, and given up only without events |
| DeliveryPosts.TryHolds | agent/cg-agent/src/delivery.rs:189-244 | One attempt keeps those books |
| DeliveryPosts.FormHolds | agent/cg-agent/src/delivery.rs:163-177 | A batch formed with none in flight keeps them |
| DeliveryPosts.LastHolds | agent/cg-agent/src/delivery.rs:264-301 | The last attempt of all keeps them |
| DeliveryPosts.LostExplained | agent/cg-agent/src/delivery.rs:264-301 | A last attempt that does not deliver leaves every other batch explained and its own as lost |
| DeliveryPosts.SettleExplained | agent/cg-agent/src/delivery.rs:197-244 | After an attempt the counts of outcomes still explain how every batch stands |
| DeliveryPosts.BackoffGrows | agent/cg-agent/src/delivery.rs:429-431 | Under any rounding that keeps order and integers up to 2^53, the next wait never passes the cap; it is never below the wait before it and the cap if and only if the factor is a number |
| Delivery.EventRing.constructor | agent/cg-agent/src/etw/ring.rs:51-57 | An empty ring with an empty account |
| Delivery.EventRing.EnqueueOrDrop | agent/cg-agent/src/etw/ring.rs:73-93 | The ring stays the accepted events with no fate, in order, within its capacity; full, the oldest is dropped and counted; a nameless process event changes nothing |
| Delivery.EventRing.PushBack | agent/cg-agent/src/etw/ring.rs:86-93 | The event is the last accepted |
| Delivery.EventRing.PopFront | agent/cg-agent/src/etw/ring.rs:88-91 | The oldest event is dropped and counted |
| Delivery.EventRing.DrainUpTo | agent/cg-agent/src/etw/ring.rs:126-143 | The oldest events, as many as asked for or there are, leave the ring as the next batch |
| Delivery.EventRing.AddDropped | agent/cg-agent/src/etw/ring.rs:105-107 | The drop counter grows by what was dropped outside the ring |
| Delivery.TickIsOnSchedule | agent/cg-agent/src/delivery.rs:146-158 | The next tick is the first of the fixed schedule after now |
| Delivery.Loop.constructor | agent/cg-agent/src/delivery.rs:103-126 | A loop with no batch yet |
| Delivery.Loop.AccountsFor | agent/cg-agent/src/delivery.rs:145-254 | Whenever the loop is valid every accepted event is in the ring, dropped and counted, delivered, or in the POST in flight, and the attempts explain every batch |
| Delivery.Loop.RunUntil | agent/cg-agent/src/delivery.rs:131-254 | For every sequence of rounds: the turns are those up to the first that ends the loop; exactly the events captured in them were accepted and exactly the attempts made in them were posted; the loop is valid at the end |
| Delivery.Loop.Serve | agent/cg-agent/src/delivery.rs:145-254 | A round posts exactly when one is in flight, a tick is due or a batch is, without events only for a tick; its clock, its attempt and whether the loop goes on |
| Delivery.Loop.Open | agent/cg-agent/src/delivery.rs:146-177 | A round up to its attempt |
| Delivery.Loop.Begin | agent/cg-agent/src/delivery.rs:146-177 | A POST is formed exactly when none is in flight and a tick or a batch calls for one; the schedule after it |
| Delivery.Loop.Try | agent/cg-agent/src/delivery.rs:189-252 | A round from its attempt on: what stays in flight after each outcome |
| Delivery.Loop.Settle | agent/cg-agent/src/delivery.rs:197-245 | What stays in flight after an outcome, its wait, and the attempt recorded |
| Delivery.Loop.Retried | agent/cg-agent/src/delivery.rs:197-244 | The two budgets: tried again exactly within them, and a last rejection counts its events as dropped |
| Delivery.Loop.FormBatch | agent/cg-agent/src/delivery.rs:326-352 | The oldest events under the next number, fresh budgets, and empty exactly when the ring is |
| Delivery.Loop.Arrive | agent/cg-agent/src/etw/ring.rs:73-93 | Exactly the events with a name join the accepted, while the loop stays valid |
| Delivery.Loop.NextTick | agent/cg-agent/src/delivery.rs:153-157 | Missed ticks collapse into the first tick after now |
| Delivery.Loop.FinalPost | agent/cg-agent/src/delivery.rs:264-301 | What was accepted is what was delivered, what was counted as dropped, and what is reported undelivered; the last attempt is recorded with its outcome and the books are closed in order |
| Delivery.Loop.Leave | agent/cg-agent/src/delivery.rs:264-301 | The same, from the POST in flight; undelivered is the ring and a batch not delivered |
| Delivery.FinalBalance | agent/cg-agent/src/delivery.rs:264-301 | The account of the final POST |
| CreatedTimeCache.HitIsTheLastLaunch | agent/cg-agent/src/etw/cache.rs:37-82 | Over every run of launches, terminates, lookups and interleaved sweeps, what the cache holds for a PID is the time of its latest unterminated Launch |
| CreatedTimeCache.HitGivesTheSameUid | agent/cg-agent/src/etw/dispatch.rs:54-86 | A Terminate that hits has the uid of exactly that Launch and of no other process of the agent |
| CreatedTimeCache.NewLaunchIsNotEvicted | agent/cg-agent/src/etw/cache.rs:64-82 | A Launch made between a sweep's snapshot and its eviction is not evicted by it |
| CreatedTimeCache.UidIsUnique | agent/cg-agent/src/etw/uid.rs:13-15 | Equal uids of one agent have equal PIDs and times |
| CreatedTimeCache.NanosAreInOrder | agent/cg-agent/src/etw/dispatch.rs:240-247 | Distinct times stay distinct and in order exactly until the product saturates |
| CreatedTimeCache.Cache.constructor | agent/cg-agent/src/etw/cache.rs:29-33 | An empty cache |
| CreatedTimeCache.Cache.Insert | agent/cg-agent/src/etw/cache.rs:37-40 | The PID's time is the Launch's; no other changes |
| CreatedTimeCache.Cache.ConsultAndPurge | agent/cg-agent/src/etw/cache.rs:45-48 | The PID's time if there is one, which is then gone; no other changes |
| CreatedTimeCache.Cache.Evict | agent/cg-agent/src/etw/cache.rs:73-82 | Exactly the entries found gone that still hold their time are evicted, and counted |
| CreatedTimeCache.Probe | agent/cg-agent/src/etw/cache.rs:69-72 | Exactly the snapshot's entries whose process is not alive |
| CreatedTimeCache.DispatchRecord | agent/cg-agent/src/etw/dispatch.rs:54-86 | A record from before 1970 is dropped and leaves the cache and the ring alone; otherwise its event, with its own time at a Launch and what the cache held at a Terminate, is what comes to the ring |
| Der.ElementReadsBack | agent/cg-agent/src/x509.rs:137-167 | Reading recovers the tag, the value and the rest from every encoding |
| Der.AcceptedIsElement | agent/cg-agent/src/x509.rs:137-167 | Whatever is accepted is the encoding of what was read, then the rest |
| Der.LengthReadsBack | agent/cg-agent/src/x509.rs:143-160 | Every length below 2^32 is read back from its encoding |
| Der.LengthIsShortest | agent/cg-agent/src/x509.rs:143-160 | An accepted length is exactly its one encoding |
| Der.NoLengthIsShorter | agent/cg-agent/src/x509.rs:154-158 | No other bytes with the length's value are fewer (section 10.1 of ITU-T X.690) |
| Der.Reader.constructor | agent/cg-agent/src/x509.rs:127-130 | A cursor on the bytes |
| Der.Reader.Next | agent/cg-agent/src/x509.rs:137-167 | The next element as specified, the rest shortened by it; refused bytes have none |
| Der.Reader.Expect | agent/cg-agent/src/x509.rs:169-175 | The next element's value when it has the tag |
| Certificate.CommonName | agent/cg-agent/src/x509.rs:80-103 | The loops over the name compute the specified scan, and end |
| Certificate.OneSet | agent/cg-agent/src/x509.rs:80-103 | The same for the attributes of one set |
| Certificate.CommonNameIsTheOne | agent/cg-agent/src/x509.rs:80-103 | Of every encoded name the common name is returned exactly when there is one, in any set and position, and it is text |
| Certificate.ScannedNameIsEncoded | agent/cg-agent/src/x509.rs:80-103 | A name scanned to its end is the encoding of one |
| Certificate.ScannedSetIsEncoded | agent/cg-agent/src/x509.rs:80-103 | A set scanned to its end is the encoding of one |
| Certificate.Ed25519Key | agent/cg-agent/src/x509.rs:107-125 | The key as specified |
| Certificate.KeyIsItsEncoding | agent/cg-agent/src/x509.rs:107-125 | A key is returned exactly from its own encoding (section 3 of RFC 8410) |
| Certificate.ReadTbs | agent/cg-agent/src/x509.rs:56-77 | The subject and the key as specified |
| Certificate.CertificateIdentity | agent/cg-agent/src/x509.rs:56-77 | The identity as specified |
| Certificate.IdentityReadsBack | agent/cg-agent/src/x509.rs:56-77 | Of every encoded certificate (section 4.1 of RFC 5280) the identity is its key and its one common name, or nothing |
| Certificate.IdentityIsEncoded | agent/cg-agent/src/x509.rs:56-77 | Bytes with an identity are a certificate's encoding, with that one common name and that key |
| Certificate.TbsReadsBack | agent/cg-agent/src/x509.rs:56-77 | The subject and the key are read back, with a version or without |
| Certificate.TbsIsEncoded | agent/cg-agent/src/x509.rs:56-77 | What the reading accepts is an encoding |
| VersionResource.Pad4 | agent/cg-agent/build.rs:199-203 | Zeros up to the next 32-bit boundary, and no more |
| VersionResource.AppendUnits | agent/cg-agent/build.rs:170-172 | Each unit in two bytes, the low one first, in order |
| VersionResource.AppendValue | agent/cg-agent/build.rs:174-187 | The value's bytes, a text with its end |
| VersionResource.AppendChildren | agent/cg-agent/build.rs:188-191 | Each child at a 32-bit boundary |
| VersionResource.Patch | agent/cg-agent/build.rs:192-196 | The three 16-bit fields replace the first six bytes and nothing else |
| VersionResource.Block | agent/cg-agent/build.rs:168-197 | The block of a key, a value and children's blocks |
| VersionResource.PaddingAligns | agent/cg-agent/build.rs:199-203 | The padding is what is missing to a multiple of four |
| VersionResource.BlockReadsBack | agent/cg-agent/build.rs:168-203 | From every tree's block under 65536 bytes a reader that follows `wLength`, `wValueLength`, `wType` and the alignment recovers the tree, whatever follows |
| VersionResource.ReadsBackExactly | agent/cg-agent/build.rs:168-203 | It does if and only if no key holds a 0 and the block is under 65536 bytes |
| VersionResource.ParsedIsTree | agent/cg-agent/build.rs:168-203 | Whatever the reader accepts has no 0 in a key |
| VersionResource.LengthIsHeld | agent/cg-agent/build.rs:192-193 | `wLength` is the block's length if and only if the block is under 65536 bytes |
| VersionResource.ChildrenReadBack | agent/cg-agent/build.rs:188-191 | The children are read back from a body, each at its boundary |
| VersionResource.KeyEnds | agent/cg-agent/build.rs:168-173 | A key is found to end at its own end |
| VersionResource.ValueReadsBack | agent/cg-agent/build.rs:174-187 | A value is read back by its length and type |
| VersionInfo.WriteVersion | agent/cg-agent/build.rs:112-157 | The blocks, the innermost first, are those of the version's tree |
| VersionInfo.WriteStringInfo | agent/cg-agent/build.rs:135-147 | The string table's blocks |
| VersionInfo.WriteVarInfo | agent/cg-agent/build.rs:148-151 | The translation's blocks |
| VersionInfo.WriteStrings | agent/cg-agent/build.rs:135-144 | A block for each string, in order |
| VersionInfo.VersionReadsBack | agent/cg-agent/build.rs:112-157 | For all numbers, the version's tree is recovered if and only if its text has at most 16253 units |
| VersionInfo.VersionSize | agent/cg-agent/build.rs:112-157 | The exact length of the version's block, from the text's length |
| VersionInfo.SizeIsWritten | agent/cg-agent/build.rs:168-197 | The arithmetic of a block's length is its bytes' number, for every tree |
| VersionInfo.NumbersReadBack | agent/cg-agent/build.rs:113-133 | The fixed block holds the three numbers for the file and for the product |
| VersionInfo.AppendHeader | agent/cg-agent/build.rs:90-109 | The 32 bytes of a resource header |
| VersionInfo.ResourceFile | agent/cg-agent/build.rs:79-87 | The file is the empty resource, then the version's |
| VersionInfo.FileReadsBack | agent/cg-agent/build.rs:79-109 | A reader that follows the two sizes of each header recovers every list of resources from its file |
| ReleaseVersion.IsReleaseVersion | agent/cg-agent/src/version.rs:38-65 | The byte scanner accepts exactly the grammar: three numbers without leading zeros joined by dots |
| ReleaseVersion.ReleaseComponents | agent/cg-agent/build.rs:61-75 | The splitter accepts exactly the grammar, and its parts joined are the text |
| ReleaseVersion.ReadBoth | agent/cg-agent/src/version.rs:38-65 | For every text the two agree |
| ReleaseVersion.VersionIsThreeNumbers | agent/cg-agent/build.rs:61-75 | The grammar holds exactly when splitting gives three parts, each a number |
| ReleaseVersion.HopelessIsNoVersion | agent/cg-agent/src/version.rs:38-65 | Once the scanner refuses a prefix no text that goes on from it is a version |
| ReleaseVersion.PartsAreTheText | agent/cg-agent/build.rs:61-75 | The parts joined by dots are the text |

## Left out

- Windows custody: handles, DACLs, reparse points, transactions and other processes; renames and the record's rewrite are atomic changes, and no outside actor changes the directories.
- Parsing of start arguments, refusal texts, exit lines beyond their code, logs and audit rows.
- The enrolling account's SID, the generated configuration's text and certificate PEM: contents are told apart only as far as the migration's checks do.
- MigrationService.Host.CheckWhatIsThere: takes a file's kind, owner, links and DACL, the enrolling account of the identity files and the data root's case-sensitivity as one condition of each file and one of the directory, because they are read from Windows.
- Cryptography, TOTP, Argon2 and pgcrypto: whether credentials are right is a parameter of an attempt.
- AuthProtocol and AdminLocks model the service's methods as steps of a state machine, one for each statement or Redis command, and not as methods; a full SCAN is taken to return every key present throughout it.
- AuthProtocol.NoOldAuthority: goes one way; a change whose scan failed or whose commit came late leaves an old session in some runs (the two lemmas beside it) and none in others, according to what its scan saw.
- SessionLifetime.Sessions.Create: requires a token that no entry has, for the random tokens of the service; the service and Redis are taken to share one clock.
- Stored session entries that are not JSON objects: the revocation's scan would throw on one; the service never writes one.
- AttemptFlow.OtherBody: is one body for the TOTP confirmation and the password change, whose checks are the same in number and order.
- Network records, their decoding and discards; a loop without a ring is one whose ring gets no event.
- Delivery.EventRing.constructor: requires a capacity above 0, as the ring's documentation does.
- DeliveryPosts.BackoffGrows: takes the rounding of 64-bit floats as a function that keeps order and integers up to 2^53; the tick's number is unbounded.
- TLS, signing and HTTP: the outcome of an attempt is a parameter.
- RotatingLog.Log.constructor: takes the text of the diagnostic, which holds a time, as a parameter that fits in a record.
- UTF-8 decoding of a common name is a parameter; error texts of the certificate reader are not modelled.
- The version text's UTF-16 encoding is the input of the version resource; the environment variables and the file's writing are not modelled.
- Dashboards, reports, ingest, schemas, migrations of databases and everything else of the repository.
