# A model of osmdbt

osmdbt turns the commits of an OpenStreetMap PostgreSQL database into replication diffs. A logical decoding plugin writes a line for each object version, `osmdbt-get-log` stores the lines in a durable log file, `osmdbt-catchup` tells the database that it may forget them, `osmdbt-create-diff` makes a numbered diff with a state file from the log files and marks them as `.done`. `osmdbt-fake-log` makes log files from the tables. This project models these programs in Dafny and proves what the pipeline as a whole is for: nothing is lost, nothing is logged or published twice, published numbers form a prefix that is complete whenever no lock file is left, and every object in a diff carries exactly its own children. Where the code keeps such a promise only under a condition, the exact condition is proved.

There are three layers.

**Step machines.** `LogDir` has commits, every effect of get-log and catchup, and crashes of processes and of the whole host, over a visible and a durable copy of the log directory. `Pipeline` adds every file-system effect of create-diff in the order of the source. `Cycle` adds the shell script of the README of osmdbt, restarted from the top after each failure. A run is any finite sequence of enabled steps. The changes directory has what is seen and what each of its directories had when it was last synced; a file is safe when it is synced in its directory and the first-level directory above it is synced in the top one. `ExactlyOnce` and `SlotOrder` state what holds in all runs of the script, `LogOnce` when transactions are logged once if the programs run in any order, `FailedSync` what a failing directory sync does, `OwnCatchup` where get-log with `--catchup` goes on, `Endings` how a program's end or death frees or blocks the next one, `Progress` that the programs go on and where they cannot. `Counterexamples` and `ScriptCounterexamples` have concrete runs in which a promise fails. `Publish` is create-diff as a sequential program over the machine (when it publishes, and what it leaves behind when it does not), `RepeatedRuns` has such programs one after the other, and `WholePass` a pass of the script in which nothing fails.

**Algorithms.** `MergeJoin` has the loops that attach tags, way nodes and members with cursors over sorted lists; `CreateDiff` has the selection of logs, the queries (an inner join with the wanted keys, in the order asked for) and the time stamp over three loops; `Draining` repeated runs with a limit; `FakeLog` the grouping of entries by minute; `PidLock` the PID files; `LogWriter` writing, syncing and renaming a log file; `Sorting` what `std::sort` promises.

**Text formats.** `Numbers` has printing in base 10 and 16 and `strtoull`/`strtoll` as in section 7.22.1.4 of ISO/IEC 9899:2011; `Text` lines and fields; `Lsn`, `LogNames`, `Timestamps`, `StateFile`, `SequencePath`, `OsmObjects`, `Plugin` and `GetLog` the formats and the loops that write and read them; `RoundTrip` says that a log file is read as exactly the inserted object versions.

`EndToEnd` connects the layers: what get-log writes and catchup finds is what the step machine writes and scans, every log file of a reachable state has an object, and the exactly-once result makes the work lists distinct, which is what the merge join needs.

Code that changes state step by step is a class or a method with loops and is proved against a function or a property; the machines are values, because their properties quantify over all states and runs.

## What holds only under a condition

These are statements that the code does not keep in general. Each has a lemma that says exactly when it does, or a run that shows the failure.

- A redacted row is skipped before its children are passed, so the cursor waits there and every later object of the type is written without children. `MergeJoin.AttachedExactly`, `MergeJoinIsNestedLoopExactly`, `AroundFirstRedaction` and `CursorReachesEnd` are exact; `CreateDiff.CleanQueries` says it in terms of tables and work list. The change file is complete if and only if no wanted redacted version with children has a wanted version with children of that kind behind it (`CreateDiff.WrittenIsComplete`, and `EndToEnd.DiffIsComplete` for every reachable state).
- Repeated runs of create-diff with a limit use up all logs if the last one has an object, and with limit 0 never if it has none (`Draining.Drained`, `NeverDrained`). Files written by get-log always have one, so in every reachable state runs that are not kept from publishing use up all logs, unless one of them cannot read `state.txt` (`RepeatedRuns.DrainReachable`).
- fake-log starts with `last = 0` as "no minute yet". Entries at time 0 get no name or end up in the file of the next minute, unless older entries exist and no newer ones (`FakeLog.OneFilePerMinuteExactly`).
- The plugin prints 64-bit values as unsigned, `read_log` reads them as signed and cuts version and changeset to 32 bits; values come back if and only if they are in range (`RoundTrip.ObjectReadExactly`). fake-log prints signed ids, which always come back.
- A state file is read back if and only if its number is not 0 and its time stamp is not the epoch (`StateFile.StateRoundTrip`). create-diff writes the epoch into `state.txt` if and only if no row that it fetched is later than that, for example when none of the wanted versions is in the tables any more (`CreateDiff.TimestampSetExactly`). Then, and only then, the next run without `--sequence-number` that has something to publish cannot read it and throws (`Publish.NextRunReadsExactly`), and repeated runs stop there (`RepeatedRuns.Drain`).
- create-diff may make the first-level directory of a new diff, syncs the directories below it, replaces `state.txt`, and only then syncs the changes directory that holds both. A host crash in between, or after a run that ended in between, can keep `state.txt` and lose the directory with both files of its number; this can happen in the very first publication (`ScriptCounterexamples.CrashLosesFirstDirectory`). In every reachable state the published prefix is complete if and only if the first-level directory of the number in `state.txt` is there, only the files of that number can be missing, and never without lock file (`Pipeline.PublishedPrefix`). A crash can do it exactly when that directory is not synced (`Pipeline.CrashBreaksPrefixExactly`).
- With `--sequence-number` and an existing `state.txt`, numbers grow and the prefix stays complete if and only if the given number is the next one; a number within the prefix replaces files (`Publish.SequenceNumberExactly`). The runs of the step machine have only such continuing numbers.
- catchup asks the slot to go backwards exactly when the newest log file is `.done` and an older one is not (`SlotOrder.BackwardsExactly`). This needs a crash that keeps a later rename and loses an earlier one (`ScriptCounterexamples.ScriptAsksBackwards`, a run of the script); if crashes keep renames in order it never happens (`SlotOrder.NeverBackwards`).
- catchup does not sync the log directory itself. If syncing fails inside get-log after the rename, get-log's PID file goes away, catchup may confirm the visible file, and a crash may take it back (`ScriptCounterexamples.FailedSyncLosesData`, a run of the script). In the script, confirming what catchup found loses nothing if and only if all log files are synced, and a run never loses anything if and only if catchup confirms only then (`FailedSync.AdvanceExactly`, `NeverLosesExactly`). The runs of `ExactlyOnce`, `SlotOrder` and `EndToEnd` and of `LogDir.NothingIsLost` are those; the runs of `Pipeline` and of `LogOnce.NeverTwiceExactly` are all.
- The order of the cycle is needed: with create-diff between get-log and catchup a transaction can be logged twice (`Counterexamples.EarlyCreateDiffLogsTwice`). With the programs in any order, a transaction is never in two log files if and only if get-log renames its file only when the slot has confirmed the newest `.log` or `.log.done` file (`LogOnce.NeverTwiceExactly`, `AlwaysOnceExactly`). This can be read off before get-log starts (`LogOnce.GuardFromStart`), and in the script it always holds (`ExactlyOnce.ScriptRenamesInOrder`). The slot can also be ahead of that file, because get-log with `--catchup` confirms transactions without a new version for which it writes no file.
- The programs go on until they end, one effect after the other; get-log can always go on, catchup if and only if it has not found an LSN behind the slot (`Progress.GetLogEnds`, `CatchupEndsExactly`), create-diff if and only if the next number is known, no left-over state file or lock file is in its way and the number has at most nine digits (`Progress.DiffStuckExactly`). A killed program blocks the next ones through its PID file until the host crashes (`Endings.KilledForever`, `DiffKilledForever`).
- State files left in the tmp directory, by a crash or by a dry run, make every later run fail, because they are created exclusively (`Publish.App`, `Publish.RunAfterDryRun`).
- Without a run directory PID files exclude nobody (`PidLock.NoRunDirNoExclusion`); a PID file that could not be written stays and blocks everybody (`PidLock.StaleFileBlocks`).
- catchup throws on log files written by fake-log, whose names have no LSN (`LogNames.FakeLogNameIsRefused`).

Where code and documentation differ the model follows the code: the manual page of create-diff says that its limit counts one extra change for each commit, the code counts objects only; the manual page reads `state.txt` before the logs, the code reads it after the change file is written; the README of osmdbt says that a failing step of get-log may leave a `.new` file, a failing directory sync leaves the `.log` file.

## Model

| member | source | states |
|---|---|---|
| ExactlyOnce.ExactlyOnceLogged | README.md:207-258 | in every run of the script, with commits and crashes at any step: the LSN intervals of the `.log` and `.log.done` files are consecutive and start at 0, a file holds exactly the transactions of its interval, each transaction up to the newest file is in exactly one file and later ones in none, and the slot is never ahead of the files |
| ExactlyOnce.ExactlyOncePublished | README.md:260-288 | in every run of the script no transaction is in two diffs, and whenever the lock file is absent a logged transaction is in a diff if and only if its log file is `.done` |
| Cycle.StepKeeps | README.md:207-218 | every step of the script keeps the invariant: what is logged is a prefix of the commit order, the slot is at its end or only the newest `.log` file is ahead of it, and what is published stays in the directory |
| Cycle.CrashLog | README.md:220-258 | a host crash takes away at most the newest log file, and only while the slot has not confirmed it |
| Cycle.TargetIs | src/osmdbt-catchup.cpp:20-46 | an LSN that catchup finds and that is not behind the slot is that of the last transaction logged |
| Cycle.PhaseMoves | README.md:207-218 | a command starts exactly when the one before it has ended without failure; after a failure and after create-diff the script begins again; nobody else writes in create-diff's turn, and get-log never advances the slot |
| SlotOrder.BackwardsExactly | src/osmdbt-catchup.cpp:86-103 | catchup finds an LSN behind the slot if and only if there are `.log` files and the newest live file is `.done` |
| SlotOrder.BackwardsInRuns | src/osmdbt-catchup.cpp:86-103 | the same in every reachable state of every run of the script |
| SlotOrder.NeverBackwards | src/osmdbt-catchup.cpp:20-46 | in every run whose crashes keep the renames in order, catchup never asks the slot to move backwards |
| LogDir.NothingIsLost | src/osmdbt-get-log.cpp:143-167 | under every interleaving of get-log, catchup, marking, commits, failures, kills and host crashes in which catchup confirms only LSNs of files that survive a crash, each inserted object version at or below the confirmed LSN is in a `.log` or `.log.done` file that survives a crash |
| LogDir.StepKeeps | src/util.cpp:26-40 | every effect keeps this, and that the data of a file are exactly the transactions from the slot position it was read at to its own LSN |
| LogDir.SyncNewHolds | src/util.cpp:38-39 | after the directory sync everything up to the LSN of the new file is held in durable files, so get-log may confirm it |
| LogDir.AdvanceHolds | src/osmdbt-catchup.cpp:83-103 | confirming the LSN of a durable log file keeps everything confirmed in durable files |
| LogDir.NewestLogIsNewest | src/osmdbt-catchup.cpp:28-43 | the scan yields the LSN of some `.log` file and none is larger |
| OwnCatchup.NextPeekGoesOn | src/osmdbt-get-log.cpp:160-164 | a get-log run with `--catchup` that saw n transactions, whether it wrote or skipped them: whatever commits and marks come in between, the next peek offers exactly what was behind those n, then what was committed since |
| Endings.OrderlyEndFrees | src/io.cpp:89-94 | after success or failure of get-log or catchup both can start again |
| Endings.KilledForever | src/io.cpp:72-79 | after a kill neither can start, nothing is logged and the slot does not move in any run until the host crashes |
| Endings.DiffEndFrees | src/io.cpp:89-94 | after create-diff has come to an end or failed it can start again |
| Endings.DiffKilledForever | src/io.cpp:72-79 | after it was killed it cannot, and nothing is published or marked in any run until the host crashes |
| Endings.PidFilesFollowPrograms | src/io.cpp:62-94 | only a start makes a PID file, only the end of its program or a host crash takes it away |
| Endings.CrashMayLeave | src/io.cpp:14-44 | a host crash may leave each PID file or not, also when everything else has reached the disk |
| Endings.CrashMayLose | src/io.cpp:14-44 | and it may lose everything that was not synced |
| Progress.GetLogOneWay | src/osmdbt-get-log.cpp:70-171 | while get-log is running exactly one of its effects comes next, up to the size of the peek and `--catchup` |
| Progress.GetLogEnds | src/osmdbt-get-log.cpp:70-171 | it can always go on, and comes to its end after at most six effects |
| Progress.CatchupEndsExactly | src/osmdbt-catchup.cpp:80-108 | catchup can go on if and only if it has not found an LSN behind the slot |
| Progress.DiffOneWay | src/osmdbt-create-diff.cpp:588-762 | while create-diff is running exactly one of its effects comes next |
| Progress.DiffEffectOnce | src/osmdbt-create-diff.cpp:588-762 | each effect is the next one in the program, or marks one more file, or is the end |
| Progress.DiffStuckExactly | src/osmdbt-create-diff.cpp:588-762 | in every reachable state it can go on if and only if the next number is known when it is needed, no state file, copy or lock file is in the way, and the number has at most nine digits |
| Progress.StartsBetweenCommands | README.md:207-218 | in the script a command takes all its steps before the next one starts |
| FailedSync.AdvanceExactly | src/osmdbt-catchup.cpp:83-103 | in every state of the script: confirming what catchup found loses nothing if and only if all log files are synced |
| FailedSync.NeverLosesExactly | src/io.cpp:39-44 | in every run of the script, failed directory syncs included: everything confirmed is in durable files all along if and only if catchup confirms only when all log files are synced; and those are the runs of the results about the script |
| LogOnce.RenameExactly | src/osmdbt-get-log.cpp:143-153 | with all programs in any order: get-log's rename logs nothing twice if and only if the slot has confirmed all `.log` and `.log.done` files |
| LogOnce.NeverTwiceExactly | README.md:272-276 | in every run of the programs in any order, with failures, kills and crashes: no transaction is ever in two log files if and only if each rename of get-log happens in such a state |
| LogOnce.AlwaysOnceExactly | README.md:272-276 | and, when catchup confirms only durable files, every transaction with new versions that is confirmed or not newer than the newest file is in exactly one file, all along, under the same condition |
| LogOnce.GuardFromStart | src/osmdbt-get-log.cpp:70-72 | whatever happens between get-log's start and its rename, the condition holds at the rename if and only if it did at the start |
| ExactlyOnce.ScriptRenamesInOrder | README.md:207-218 | in the script the condition holds at each rename |
| Pipeline.StepKeeps | src/osmdbt-create-diff.cpp:588-762 | each effect of create-diff, with the directories it makes and what each sync covers, of the other tools, failed syncs included, of commits and of crashes keeps the invariant that links published diffs, state files, lock file and marked logs |
| Pipeline.AtMostOnce | src/osmdbt-create-diff.cpp:716-755 | in every reachable state no log file is in two diffs, and without lock file the `.done` files are exactly those published |
| Pipeline.PublishedPrefix | src/osmdbt-create-diff.cpp:722-744 | in every reachable state all numbers from the first to that of `state.txt` have change file and state file, and `state.txt` equals the last state file, if and only if the first-level directory of that number is there; all earlier numbers are always complete, and without lock file the last one is too |
| Pipeline.CrashBreaksPrefixExactly | src/osmdbt-create-diff.cpp:738-744 | some crash leaves a `state.txt` without its files if and only if the first-level directory of its number is not synced in the changes directory, which is so only between moving `state.txt` and that sync, or after a run that ended there |
| Pipeline.OnlyCrashBreaksPrefix | src/osmdbt-create-diff.cpp:716-755 | no other step of any program breaks a complete prefix |
| ExactlyOnce.PrefixPublished | README.md:260-267 | the same exact condition in every run of the script, and a complete prefix whenever there is no lock file |
| ScriptCounterexamples.CrashLosesFirstDirectory | src/osmdbt-create-diff.cpp:722-744 | a run of the script from a fresh installation whose first publication ends with number 1 in `state.txt` and neither of its files |
| Pipeline.StepExtends | src/osmdbt-create-diff.cpp:137-151 | `state.txt` changes only to the next number (or back to its durable value in a crash), and no change file or state file is ever overwritten |
| Pipeline.DurableForever | src/osmdbt-create-diff.cpp:738-744 | over whole runs a change file or state file that is synced below a synced first-level directory stays there with the same contents |
| Pipeline.StuckForever | src/osmdbt-create-diff.cpp:153-164 | a lock file that a run left behind stops all publication and marking: in every run once it is synced, and before that in every run without host crash; the changes directory stays as it is, and crashes only take back what was not synced, `state.txt` to its synced contents |
| Publish.App | src/osmdbt-create-diff.cpp:588-762 | for every command line a run publishes if and only if no PID file, state file or lock file is in the way, a log has an object, and the next number is given or follows that of a readable `state.txt`, and is within the bound; then diff, state file, `state.txt` and marks are in place and safe and nothing is left over; otherwise nothing published or marked changes, and it says which files stay behind |
| Publish.PublishLocked | src/osmdbt-create-diff.cpp:716-755 | the critical section moves change file, state file and `state.txt` into place, marks exactly the chosen logs, syncs everything and removes the lock file |
| Publish.MoveIntoPlace | src/osmdbt-create-diff.cpp:722-744 | from the new directories to `state.txt`: directory and all three files in their final places and synced, the tmp directory empty |
| Publish.MarkLogs | src/osmdbt-create-diff.cpp:746-750 | the renaming loop and the sync make exactly the logs that were read `.done`, durably, and touch no other |
| Publish.Prepare | src/osmdbt-create-diff.cpp:592-708 | everything up to the lock file touches only the tmp directory; what ends it, and whether the PID file stays |
| Publish.RunAfterDryRun | src/osmdbt-create-diff.cpp:702-708 | after a dry run the next run finds nothing, has no next number, or fails at its state file |
| Publish.WriteStates | src/osmdbt-create-diff.cpp:137-151 | the next number is that of the command line or the one after `state.txt`; an exception without `state.txt` or when it has no number or the epoch as time stamp, an abort at the bound, and existing state files in the tmp directory end the run |
| Publish.NextRunReadsExactly | src/state.cpp:86-95 | after a publication, the next run without number that has something to publish fails on `state.txt` if and only if the time stamp published is the epoch, in which case the text written is not read back |
| Publish.SequenceNumberExactly | src/osmdbt-create-diff.cpp:140-142 | a number on the command line keeps numbers growing and the prefix complete if and only if it is the next one; a number in the prefix is one that has files already |
| Publish.Machine.Do | src/osmdbt-create-diff.cpp:588-762 | what the program does is a sequence of possible steps, and a run of the step machine as long as sequence numbers continue the numbering |
| ScriptCounterexamples.FailedSyncLosesData | src/util.cpp:38-39 | a run of the script in which a failed directory sync after the rename, then catchup and a crash, lose a confirmed transaction |
| Counterexamples.EarlyCreateDiffLogsTwice | README.md:207-218 | with create-diff before the second catchup, two log files hold the same transaction |
| ScriptCounterexamples.ScriptAsksBackwards | src/osmdbt-create-diff.cpp:746-750 | a run of the script in which a crash keeps only the later of two renames to `.done`, after which catchup asks for an LSN behind the slot |
| MergeJoin.AddChildren | src/osmdbt-create-diff.cpp:335-387 | the do/while loop returns the children of the object that start at the cursor, in order, and the cursor behind them |
| MergeJoin.ProcessNodes | src/osmdbt-create-diff.cpp:419-471 | the loop over node rows: the k-th object written belongs to the k-th row that is not redacted and has its key, changeset, visibility, time stamp, location, the user of its changeset and the tags attached to it; the time stamp is the latest of all rows, redacted ones included; or it stops at a changeset that is not in the cache |
| MergeJoin.ProcessParents | src/osmdbt-create-diff.cpp:473-575 | the same for ways and relations with a second, independent cursor for way nodes or members |
| MergeJoin.NestedLoopHolds | src/osmdbt-create-diff.cpp:394-417 | the nested loop has, for each row that is not redacted, an object with the attributes of the row, the user of its changeset and all children with its key, and nothing else |
| MergeJoin.OwnedExactly | src/osmdbt-create-diff.cpp:335-387 | all children with a key: a child anywhere in the list is one if and only if its key is that |
| MergeJoin.MergeJoinIsNestedLoop | src/osmdbt-create-diff.cpp:419-575 | for distinct rows, sorted children that all have a row, and no redacted row owning children, the merge join equals the naive nested loop |
| MergeJoin.MergeJoinIsNestedLoopExactly | src/osmdbt-create-diff.cpp:419-575 | for all sorted inputs the merge join equals the nested loop if and only if no row that is written and owns children is blocked, for tags and for way nodes or members |
| MergeJoin.EveryChildOnce | src/osmdbt-create-diff.cpp:335-387 | in that case every child row is written exactly once, in order |
| MergeJoin.AttachedClean | src/osmdbt-create-diff.cpp:466-466 | in that case each object carries exactly the children with its key |
| MergeJoin.AttachedExactly | src/osmdbt-create-diff.cpp:450-456 | for all sorted inputs: a row gets all its children, or none if a redacted row with children or an earlier copy of the row came before |
| MergeJoin.AroundFirstRedaction | src/osmdbt-create-diff.cpp:505-519 | objects before the first redacted row owning children carry all of theirs, every later object carries none |
| MergeJoin.OnlyOwnChildren | src/osmdbt-create-diff.cpp:335-387 | whatever the inputs, no object carries another object's children |
| MergeJoin.KeyOrder | src/osmdbt-create-diff.cpp:222-227 | the order that the cursors rely on is by id, then version |
| MergeJoin.CursorReachesEnd | src/osmdbt-create-diff.cpp:440-466 | the cursor ends at the end if and only if no redacted row owns children |
| MergeJoin.CursorIs | src/osmdbt-create-diff.cpp:545-572 | before each row the cursor is right behind the previous row's children, or waits at a child of a redacted row |
| CreateDiff.ReadLogs | src/osmdbt-create-diff.cpp:622-645 | the loop reads the logs that `Draining.Taken` names, appends exactly their objects by type, fills the changeset cache, and fails exactly if one of those logs is malformed |
| CreateDiff.WriteChange | src/osmdbt-create-diff.cpp:675-694 | the three loops together write what the merge joins make of the queries, and the time stamp is the latest over all rows fetched, starting at the epoch |
| CreateDiff.LatestOrderIndependent | src/osmdbt-create-diff.cpp:446-448 | that time stamp does not depend on the order of rows |
| CreateDiff.TimestampSetExactly | src/osmdbt-create-diff.cpp:673-704 | it is not the epoch if and only if some wanted version in the tables is later than that |
| CreateDiff.QueriesFeedJoin | src/osmdbt-create-diff.cpp:217-239 | whatever is wanted, duplicates included, the queries return sorted rows and children that all have a row |
| CreateDiff.WorkListInKeyOrder | src/osmobj.cpp:80-88 | the sorted work list of a type is in that order, too |
| CreateDiff.FetchExactly | src/osmdbt-create-diff.cpp:185-202 | the join returns exactly the rows whose key is wanted |
| CreateDiff.FetchPiece | src/osmdbt-create-diff.cpp:185-202 | each row of a table comes in its place and as often as its key is wanted |
| CreateDiff.MeantToHold | src/osmdbt-create-diff.cpp:394-417 | the objects meant to be in a diff, in terms of the tables: one for each wanted version that is not redacted, with its attributes and all its children |
| CreateDiff.FetchOwned | src/osmdbt-create-diff.cpp:253-273 | when no key is wanted twice, a wanted object finds exactly its children in the table, in order |
| CreateDiff.CleanQueries | src/osmdbt-create-diff.cpp:222-227 | the clean case holds if and only if no wanted redacted version has children |
| CreateDiff.WrittenExactly | src/osmdbt-create-diff.cpp:419-575 | when no key is wanted twice, the objects written are the wanted versions that are not redacted, in key order, each with all its children in the tables, if and only if no wanted redacted version with children has a wanted version with such children behind it |
| CreateDiff.WrittenIsComplete | test/structure.sql:3553-3554 | with the primary and foreign keys on all tables and distinct wanted keys, the whole change file is complete under exactly this condition on the five child tables |
| Draining.TakenIsShortest | src/osmdbt-create-diff.cpp:626-639 | a run reads the shortest non-empty prefix of the sorted list that exceeds the limit, or everything |
| Draining.TakenIsUnique | src/osmdbt-create-diff.cpp:634-638 | and only one number of files has this property |
| Draining.BatchesArePrefix | src/osmdbt-create-diff.cpp:614-645 | repeated runs take consecutive pieces of the list: nothing skipped, repeated or reordered |
| Draining.Drained | src/osmdbt-create-diff.cpp:641-645 | when the last log has an object, as many runs as files use up everything, whatever the limits |
| Draining.NeverDrained | src/osmdbt-create-diff.cpp:641-645 | when the last log has none, runs with limit 0 never do |
| EndToEnd.GetLogIsWriteNew | src/osmdbt-get-log.cpp:119-153 | for any whole transactions: get-log writes exactly when the machine does, the file is read as the machine's object versions, and its name carries the machine's LSN |
| EndToEnd.GetLogRun | src/osmdbt-get-log.cpp:134-167 | the effects of a run on whole transactions are those of the machine's steps: the file exactly when there is a new version, then with `--catchup` the slot advanced to the LSN that the machine confirms |
| EndToEnd.CatchupIsScan | src/osmdbt-catchup.cpp:20-46 | on a directory with the machine's files, listed in any order, catchup finds the LSN that the machine's scan finds |
| RepeatedRuns.OneRun | src/osmdbt-create-diff.cpp:614-750 | a run that no left-over file keeps from publishing takes the first of the `.log` files, at least one if there is any, into the next number, or fails on a `state.txt` that cannot be read and changes nothing published |
| RepeatedRuns.Drain | src/osmdbt-create-diff.cpp:614-750 | the diffs published under consecutive numbers are the list of `.log` files cut into pieces; as many runs as `.log` files, with any limits, leave none if and only if none is stopped by a `state.txt` that cannot be read, which only the epoch as time stamp of a diff before the last one can do |
| RepeatedRuns.DrainReachable | src/osmdbt-get-log.cpp:134-157 | the same from every reachable state, where get-log has seen to it that every log has an object |
| RepeatedRuns.LogListAfterMarking | src/osmdbt-create-diff.cpp:746-750 | marking the files that were read leaves exactly the others, in order |
| WholePass.LogAll | README.md:220-258 | catchup, get-log and catchup without failure: every transaction with new versions is confirmed and in a log file, and there is at most one `.log` file more |
| WholePass.Pass | README.md:207-218 | with create-diff after them, once when no `.log` file was left over: every such transaction is in a diff and no `.log` file is left, unless a diff before the last one has the epoch as time stamp |
| WholePass.PassReachable | README.md:207-218 | the same from every state the script can reach in which nothing was left behind |
| WholePass.GetLogWithCatchup | src/osmdbt-get-log.cpp:70-171 | get-log with `--catchup` without failure, effect by effect, ends with everything seen in a file and confirmed |
| WholePass.ShortPass | README.md:185-192 | get-log with `--catchup` and then create-diff: every transaction is confirmed, every one with versions is in a diff and no `.log` file is left, unless an earlier diff has the epoch as time stamp |
| EndToEnd.ReadLogsIsChoose | src/osmdbt-create-diff.cpp:622-645 | the loop over log texts reads the objects of the files that the machine chooses |
| EndToEnd.WorkListsDistinct | test/structure.sql:2261-2262 | with the primary keys, in every reachable state of the cycle no id and version is wanted twice |
| EndToEnd.UsersFound | src/osmdbt-create-diff.cpp:395-417 | the lookup of a row's changeset cannot throw |
| EndToEnd.DiffHoldsEachVersionWithItsChildren | src/osmdbt-create-diff.cpp:671-694 | for every run of the cycle and every limit: the diff holds each wanted version that is not redacted once, with exactly its own children, if and only if none is blocked by a wanted redacted version with children before it |
| EndToEnd.DiffIsComplete | src/osmdbt-create-diff.cpp:671-694 | for every run of the cycle and every limit: with the keys of the database every changeset is found, and all three parts of the change file are complete under exactly this condition |
| GetLog.BuildLog | src/osmdbt-get-log.cpp:116-139 | the row loop builds one line for each row, the LSN of the last commit row (or none), and whether there is a new object version |
| GetLog.App | src/osmdbt-get-log.cpp:134-167 | a file is written if and only if there is a new version; the slot is advanced exactly when asked for and nothing failed, after the file, and to the LSN in its name |
| GetLog.NoCommitNoLsn | src/osmdbt-get-log.cpp:163-163 | without commit row the advance would throw |
| Plugin.GetAttributeByName | postgresql-plugin/osm-logical.c:76-93 | the loop returns the value of the first attribute with the name, or NULL if there is none |
| Plugin.DecodingContext.OnChange | postgresql-plugin/osm-logical.c:95-195 | a change of an object table sets the flag and appends its message, if it has one; others do nothing (what the message is: the next three rows) |
| Plugin.MessageExactly | postgresql-plugin/osm-logical.c:115-194 | with complete key: "N", "R" or the text for a redaction set to NULL, then the letter of the table, id, version and changeset taken from the columns of those names, and the redaction; nothing for a deletion |
| Plugin.DamagedChange | postgresql-plugin/osm-logical.c:131-156 | without new tuple, or with a NULL in the key, the one error text or the other, and a commit to come |
| Plugin.OtherTable | postgresql-plugin/osm-logical.c:124-126 | every other table is ignored |
| Plugin.BigintExactly | postgresql-plugin/osm-logical.c:70-72 | numbers in decimal, negative ones modulo 2^64, without superfluous zeros |
| Plugin.DecodingContext.OnCommit | postgresql-plugin/osm-logical.c:197-209 | a commit message is appended if and only if the flag was set, which is cleared |
| Plugin.Decode | postgresql-plugin/osm-logical.c:40-48 | a sequence of callbacks computes the specified flag and output |
| Plugin.OutputIsBlocks | postgresql-plugin/osm-logical.c:132-136 | for every sequence of callbacks the output is blocks of at least one change message and exactly one "C"; the last block is open exactly while the flag is set |
| Plugin.TransactionOutput | postgresql-plugin/osm-logical.c:197-209 | a whole transaction yields nothing if it touches no object table, else its messages and one "C" |
| Plugin.StreamOutput | postgresql-plugin/osm-logical.c:197-209 | whole transactions yield their outputs one after the other, leaving no commit pending |
| Plugin.DeleteWithTuple | postgresql-plugin/osm-logical.c:160-174 | a deletion that came with a new tuple would be committed without a message |
| RoundTrip.LogRoundTrip | src/osmobj.cpp:48-78 | for all transactions, the log file, with real state or "0/0 0", is read as exactly the object versions inserted into the tables "nodes", "ways" and "relations", with the type of the table, in order |
| RoundTrip.ObjectReadExactly | src/osmobj.cpp:30-41 | id, version and changeset come back unchanged if and only if none is negative and the latter two fit into 32 bits |
| RoundTrip.ChangeLine | postgresql-plugin/osm-logical.c:158-194 | the line of an insert is read as the object version of its row, the lines of updates, redactions and errors as nothing |
| RoundTrip.ActualDataExactly | src/osmdbt-get-log.cpp:134-141 | get-log writes a file if and only if reading it yields an object |
| RoundTrip.LastCommitIsLastEnd | src/osmdbt-get-log.cpp:134-136 | on a peek of whole transactions the last commit LSN is that of the last transaction seen |
| RoundTrip.FileNamedAfterLastTransaction | src/osmdbt-get-log.cpp:143-153 | it is never empty, `lsn_type` accepts it, and catchup gets it back from the file name |
| RoundTrip.LineStateFields | src/osmdbt-get-log.cpp:123-132 | the first two fields of a line are LSN and transaction id, or "0/0" and "0" |
| RoundTrip.TxnRowMessages | postgresql-plugin/osm-logical.c:158-209 | the rows carry exactly the messages that the plugin writes for the transaction |
| OsmObjects.ReadLog | src/osmobj.cpp:48-78 | all objects of the lines are appended by type and their changesets cached; the first malformed entry ends it with its exception |
| OsmObjects.ObjectLists.Add | src/osmobj.hpp:117-122 | the object is appended to the list of its type and nothing else changes, or nothing changes and the constructor's exception is reported |
| OsmObjects.ObjectLists.Sort | src/osmobj.cpp:80-88 | each list becomes an ordered permutation of itself |
| OsmObjects.ChangesetsKnown | src/osmobj.cpp:43-45 | after reading, exactly the changesets of the objects have been added to the cache |
| OsmObjects.NoUserYet | src/osmobj.cpp:43-45 | and none of these has a user yet, while the other changesets keep theirs |
| OsmObjects.ParseObjExactly | src/osmobj.cpp:17-46 | the letters of types, version and changeset, the conversion to 32 bits, and which exception comes first |
| OsmObjects.LogLineExactly | src/osmobj.cpp:58-77 | a line names an object version if and only if it has six fields and the third one is "N"; it is then in the last three |
| OsmObjects.LessExactly | src/osmobj.hpp:50-56 | the ordering is by type (node, way, relation), then id, then version |
| OsmObjects.StrictWeakOrder | src/osmobj.hpp:44-75 | the ordering is a strict weak order whose classes are equal type, id and version |
| OsmObjects.WorkListOrderIndependent | src/osmobj.cpp:80-88 | sorted keys do not depend on the order of lines and files, nor do the lists when no version is named with two changesets; distinct keys come out strictly increasing |
| OsmObjects.WorkListAmbiguous | src/osmobj.hpp:44-56 | with two changesets for one version, two different results are possible |
| Sorting.SortedKeysOrderIndependent | src/osmobj.cpp:80-88 | sorting two permutations gives the same keys |
| FakeLog.ReadObjects | src/osmdbt-fake-log.cpp:124-146 | the k-th entry appended belongs to the k-th row whose id and version are not done, and has its time, id, version and changeset and the type asked for |
| FakeLog.ReadLogFiles | src/osmdbt-fake-log.cpp:148-172 | the sets hold exactly the ids and versions in the given logs, by type |
| FakeLog.WriteLogs | src/osmdbt-fake-log.cpp:231-247 | the grouping loop writes the specified files, line by line |
| FakeLog.App | src/osmdbt-fake-log.cpp:174-253 | the entries are one for each row of the three tables that the given logs do not name, with the row's time, id, version and changeset, in order of time, type, id and version; they are partitioned into increasing minutes; the files written are one for each minute, with its name and its entries, if and only if time 0 is harmless; nothing is written when nothing is new |
| FakeLog.MinutesPartition | src/osmdbt-fake-log.cpp:234-246 | the sorted entries are partitioned into minutes, increasing, each once and with at least one entry |
| FakeLog.SortedEntries | src/osmdbt-fake-log.cpp:226-229 | sorting puts the entries in order of time |
| FakeLog.OneFilePerMinuteExactly | src/osmdbt-fake-log.cpp:231-247 | the loop writes one file for each distinct minute, with its name and its entries, if and only if time 0 is harmless |
| FakeLog.AllEntriesWritten | src/osmdbt-fake-log.cpp:231-247 | whatever the times, the files together hold the sorted entries, each once, in order |
| FakeLog.FileRead | src/osmdbt-fake-log.cpp:98-108 | a written file is read back as its entries, negative ids included |
| FakeLog.SecondRunFindsNothing | src/osmdbt-fake-log.cpp:148-172 | a second run over the same rows that is given the written files finds nothing new |
| PidLock.PidFile.Acquire | src/io.cpp:62-87 | succeeds if and only if the file could be created and written; a failure leaves the directory as it was, except that a failed write leaves the file |
| PidLock.PidFile.Release | src/io.cpp:89-94 | removes the file that was taken, and nothing without one |
| PidLock.AcquireAndRelease | src/io.cpp:62-94 | taking and giving back restores the directory, and a second taker in between fails without harm |
| PidLock.AcquireIsRun | src/io.cpp:62-87 | what the constructor does is a run of the machine of the next rows, after which the process is inside if and only if it succeeded |
| PidLock.ReleaseIsStep | src/io.cpp:89-94 | and the destructor is the step with which it leaves |
| PidLock.LockExclusion | src/osmdbt-fake-log.cpp:179-181 | for any number of processes and any interleaving with failures and kills, at most one is between taking and giving back |
| PidLock.HolderKeepsFile | src/osmdbt-get-log.cpp:70-72 | while one holds the lock, all attempts of others fail and its file stays |
| PidLock.StaleFileBlocks | src/io.cpp:72-79 | a file left behind keeps everybody out |
| PidLock.StepsOfProcess | src/io.cpp:62-94 | each process opens, writes and leaves in this order, can die in between, and fails only with a run directory |
| PidLock.NoRunDirNoExclusion | src/io.cpp:64-66 | without run directory two processes can be inside |
| PidLock.DeathBlocks | src/io.cpp:81-84 | when the holder is killed or cannot write its id, the file stays and nobody gets in any more |
| PidLock.LeavingFrees | src/io.cpp:89-94 | when the holder leaves, the next one can take the lock |
| PidLock.PidPathExactly | src/io.cpp:68-68 | programs with different names have different PID files |
| LogWriter.WriteDataToFile | src/util.cpp:26-40 | succeeds only with file and directory synced; after each effect the final name has its old contents or the whole data, safe on disk; an existing `.new` file stops it |
| LogWriter.NeverHalfWritten | src/util.cpp:34-39 | a crash at any moment never leaves a partly written file under the final name |
| LogWriter.SyncedSurvives | src/util.cpp:39-39 | after the directory sync a crash cannot take the file away |
| LogWriter.UnsyncedFileCanBeEmpty | src/util.cpp:35-35 | without the sync of the file a crash could leave it empty |
| LogWriter.UnsyncedNameEitherWay | src/util.cpp:38-39 | without the directory sync a crash may or may not take a new name away, or bring an old one back |
| LogWriter.Directory.ExclWriteOpen | src/io.cpp:54-60 | creates the file if and only if it does not exist |
| LogWriter.Directory.Rename | src/io.cpp:14-24 | the file has the new name, replacing one of that name; when it fails nothing changes |
| Lsn.ParseOfStr | src/lsn.cpp:9-41 | for every 64-bit LSN, parsing the printed text returns it |
| Lsn.ParseOfDashedStr | src/osmdbt-get-log.cpp:144-146 | the same with a dash instead of the slash |
| Lsn.ParseOfHexPair | src/lsn.cpp:9-29 | two hexadecimal numbers around a slash or dash always parse, saturating and wrapping as in C |
| Lsn.ParseOfHexPairExactly | src/lsn.cpp:16-26 | only with a slash or dash between them and nothing behind |
| Lsn.StrExactly | src/lsn.cpp:31-41 | what is printed: upper and lower 32 bits in hexadecimal, upper case, without superfluous zeros |
| Lsn.StrLength | src/lsn.cpp:33-38 | at most 17 characters are printed, so the buffer of 20 never truncates |
| LogNames.NameRoundTrip | src/util.cpp:11-24 | for every LSN: text, dashes, file name, pattern and parser return the LSN, and the extension is `.log` |
| LogNames.LogNameExactly | src/util.cpp:11-24 | the name, piece by piece |
| LogNames.LogNameInjective | src/util.cpp:11-24 | two names are equal if and only if clock reading and LSN text are |
| LogNames.NamesSortByTime | src/osmdbt-create-diff.cpp:614-616 | a log file written at a later second sorts behind all earlier ones |
| LogNames.IsLogExactly | src/osmdbt-create-diff.cpp:599-603 | a log is a file whose name ends with ".log" and has something before |
| LogNames.MatchLogNameComplete | src/osmdbt-catchup.cpp:22-23 | the matcher accepts every name that the pattern describes and captures the LSN text |
| LogNames.MatchLogNameSound | src/osmdbt-catchup.cpp:22-23 | and no other name |
| LogNames.MatchedNameParses | src/osmdbt-catchup.cpp:33-34 | a matched name always holds an LSN, so the parser cannot throw there |
| LogNames.GetLsn | src/osmdbt-catchup.cpp:20-46 | the loop returns the maximum over all `.log` names, or fails exactly when one does not match |
| LogNames.Catchup | src/osmdbt-catchup.cpp:80-108 | the LSN asked for is the option if given, else the newest in the directory; nothing is asked for when that is 0 |
| LogNames.NewestLsnOrderIndependent | src/osmdbt-catchup.cpp:28-43 | the result does not depend on the directory order |
| LogNames.NewAndDoneAreIgnored | src/osmdbt-create-diff.cpp:599-603 | `.new` and `.done` files are not taken for logs |
| LogNames.FakeLogNameIsRefused | src/osmdbt-fake-log.cpp:241-241 | a log of fake-log has the extension `.log`, and catchup refuses its name |
| StateFile.ToString | src/state.cpp:18-44 | the loop prints the comment, the number and the time stamp with escaped colons |
| StateFile.ReadState | src/state.cpp:57-96 | the line loop computes the parsed state or the exception |
| StateFile.StateRoundTrip | src/state.cpp:18-96 | reading a printed state, with or without comment, returns it if and only if number and time stamp are set |
| StateFile.StateTextExactly | src/state.cpp:18-44 | the text itself: two lines, the colons of the time stamp behind a backslash |
| StateFile.KeyValueLine | src/state.cpp:65-84 | what each key does with its value, and which values are refused |
| StateFile.JunkBehindNumber | src/state.cpp:76-82 | a number with something behind it is refused |
| StateFile.MissingLine | src/state.cpp:86-95 | a text without line for the number, or without line for the time stamp, is refused |
| StateFile.LastLineWins | src/state.cpp:65-84 | of two values for a key the last one counts |
| StateFile.UnescapedStateIsRead | src/state.cpp:48-53 | the time stamp is also read without backslashes |
| StateFile.IgnoredLinesDoNotMatter | src/state.cpp:65-73 | inserting empty, comment, malformed or unknown-key lines in front of any line of any text changes nothing |
| SequencePath.PathNumber | src/state.cpp:116-128 | the number can be read back from the path |
| SequencePath.FilesDiffer | src/state.cpp:130-132 | the change file and the state file of a number differ, and so do those of two numbers |
| SequencePath.PathOrder | src/state.cpp:116-128 | lexicographic order of paths is numeric order, and paths are distinct |
| SequencePath.DirectoriesArePrefixes | src/state.cpp:130-148 | the two directory paths are the ancestors of both files |
| SequencePath.Dir1IsMillions | src/state.cpp:134-140 | two numbers have the same first-level directory if and only if they agree in the millions |
| SequencePath.NextStaysInRange | src/state.hpp:37-41 | the next number stays in range and no path lies between |
| Timestamps.ParseOfIso | src/state.cpp:34-39 | a printed time stamp is read back |
| Timestamps.TicksInjective | src/osmdbt-create-diff.cpp:446-448 | the number by which time stamps are compared tells them apart |
| Timestamps.LaterExactly | src/osmdbt-create-diff.cpp:446-448 | later means later in the first of year, month, day, hour, minute and second that differs |
| Timestamps.EpochText | src/state.cpp:92-95 | the time stamp that counts as not set is the beginning of 1970 |
| Timestamps.IsoShapeExactly | src/state.cpp:34-39 | the shape of a time stamp, place by place |
| SequencePath.IsoOrder | src/util.cpp:18-18 | printed time stamps sort by time |
| Numbers.StrToULLOfDigits | src/state.cpp:77-81 | `strtoull` reads a digit string inside a text, saturating, and stops right behind it |
| Numbers.StrToLLOfSigned | src/osmobj.cpp:30-41 | `strtoll` reads back any printed number, clamped to 64 bits |
| Numbers.SubjectOfNumber | src/lsn.cpp:14-21 | white space, a sign, a prefix and digits in a text are found, with value and end |
| Numbers.SubjectIsAt | src/lsn.cpp:14-21 | and only such texts are found |
| Numbers.ConvertedExactly | src/osmobj.cpp:30-41 | what both conversions do with what is found, saturation and negation included |
| Text.SplitOfJoin | src/osmobj.cpp:59-59 | splitting undoes joining when no field has the separator |
| Text.FirstField | src/state.cpp:70-73 | the first field is what stands in front of the first separator |
| Text.LinesOfUnlines | src/osmobj.cpp:58-58 | reading lines undoes writing lines |
| Text.LinesOfPartial | src/osmobj.cpp:58-58 | a last line without newline is read, too |

## Left out

- PostgreSQL: a query is the sorted join it asks for, a peek is any non-empty number of whole transactions after the confirmed LSN in commit order, and the slot position is taken to survive a crash (PostgreSQL writes an advanced position at its next checkpoint, so a host crash may bring back an older one).
- Transactions that touch no object table leave no row and are not in the machines' commit order; a transaction there may still have no inserted version (updates and redactions only).
- Names of later log files sort later when the clock has gone on by a second (`LogNames.NamesSortByTime`), and log names are then fresh: clocks going back, two files in one second, and a left-over `.new` file of the same name are not in the step machines (`LogWriter` has the last one).
- The cycle has one script at a time, get-log without `--catchup` and catchup without `--lsn`; `LogDir` and `Pipeline` have any interleaving and get-log with `--catchup`.
- `--log-file` of create-diff; cleanup by a system administrator. `Publish` has every `--sequence-number`, the runs of the machines those that continue the numbering.
- The syncs of the two directories of a diff, the second directly after the first, are one step; a crash between them is covered because it may lose what they sync. The `.pbf` file, the text of the lock file (only its existence), the pid in PID files.
- A failing effect ends the program; it is not tried again.
- Assertions are taken to be compiled in. The Debian package is built without them (debian/rules:10): there the number after 999999999 is used, and its path is cut to nine digits.
- libosmium: builders, buffers, writers, `Timestamp` calendar arithmetic and its range checks (a time stamp is its fields; the text of the comment and of a minute is a parameter); `split_string` is assumed to return no field for an empty text.
- libpqxx, configuration, options, verbose output, exit codes, enable-replication, disable-replication, testdb.
- NULL names, encodings and UTF-8: texts are sequences of characters.
- `populate_changeset_cache` only through its effect: users of the cached changesets are a parameter.
