/**
 Concrete runs of the whole script in which a promise fails: a crash takes the first-level directory
 of the number in `state.txt` away, a failed directory sync and a crash lose a confirmed transaction,
 and a crash makes catchup ask for an LSN behind the slot.
 */
module ScriptCounterexamples {
  import opened Wrappers
  import opened LogDir
  import Pipeline
  import opened Cycle
  import ExactlyOnce
  import SlotOrder
  import FailedSync
  import Counterexamples
  import Draining
  import StateFile
  import Timestamps

  const C1 := Counterexamples.C1
  const C2 := Counterexamples.C2
  const NO_CHANGES := Pipeline.Changes({}, map[], map[], None)
  const NO_TMP := Pipeline.Tmp(None, None, None)

  /** The pipeline with nobody running and nothing in the way; nothing is published yet. */
  function Quiet(wal: seq<Commit>, confirmed: nat, files: seq<LogFile>): Pipeline.State {
    Pipeline.State(LogDir.State(wal, confirmed, files, GetIdle, CatchupIdle, false), Pipeline.NO_DIFF, false,
                   NO_TMP, false, false, NO_CHANGES, NO_CHANGES, None)
  }

  const START := CycleState(Quiet([], 0, []), AtFirstCatchup)

  // --- Building runs ---------------------------------------------------------------------------------------

  lemma {:induction false} RunConcat(c: CycleState, a: seq<CycleAction>, b: seq<CycleAction>)
    requires ExactlyOnce.IsRun(c, a) && ExactlyOnce.IsRun(ExactlyOnce.Run(c, a), b)
    ensures ExactlyOnce.IsRun(c, a + b) && ExactlyOnce.Run(c, a + b) == ExactlyOnce.Run(ExactlyOnce.Run(c, a), b)
    decreases |a|
  {
    hide Cycle.Enabled, Cycle.Step;
    if a == [] {
      assert a + b == b;
    } else {
      assert (a + b)[0] == a[0] && (a + b)[1..] == a[1..] + b;
      RunConcat(Cycle.Step(c, a[0]), a[1..], b);
    }
  }

  lemma NoStep(c: CycleState) returns (a: seq<CycleAction>)
    ensures a == [] && ExactlyOnce.IsRun(c, a) && ExactlyOnce.Run(c, a) == c
  {
    a := [];
  }

  /** Appending one step. */
  lemma Then(c: CycleState, a: seq<CycleAction>, end: CycleState, next: CycleAction)
    returns (b: seq<CycleAction>, end': CycleState)
    requires ExactlyOnce.IsRun(c, a) && ExactlyOnce.Run(c, a) == end && Cycle.Enabled(end, next)
    ensures end' == Cycle.Step(end, next) && ExactlyOnce.IsRun(c, b) && ExactlyOnce.Run(c, b) == end'
  {
    hide Cycle.Enabled, Cycle.Step;
    b, end' := a + [next], Cycle.Step(end, next);
    assert [next][1..] == [];
    RunConcat(c, a, [next]);
  }

  /** Appending a run. */
  lemma ThenRun(c: CycleState, a: seq<CycleAction>, end: CycleState, b: seq<CycleAction>) returns (ab: seq<CycleAction>)
    requires ExactlyOnce.IsRun(c, a) && ExactlyOnce.Run(c, a) == end && ExactlyOnce.IsRun(end, b)
    ensures ExactlyOnce.IsRun(c, ab) && ExactlyOnce.Run(c, ab) == ExactlyOnce.Run(end, b)
  {
    RunConcat(c, a, b);
    ab := a + b;
  }

  /** A step of get-log, catchup or the database, seen from the script. */
  lemma LogStep(c: CycleState, a: LogDir.Action)
    requires LogDir.Enabled(c.p.log, a) && Scheduled(c.phase, Pipeline.LogAction(a))
    requires !a.MarkDone? && !a.SyncDir? && !a.Crash?
    ensures Cycle.Enabled(c, Do(Pipeline.LogAction(a)))
    ensures Cycle.Step(c, Do(Pipeline.LogAction(a)))
            == CycleState(c.p.(log := LogDir.Step(c.p.log, a)), NextPhase(c.phase, Pipeline.LogAction(a)))
  {
    hide LogDir.Possible, LogDir.Enabled, LogDir.Step;
  }

  // --- The commands -------------------------------------------------------------------------------------------

  lemma CatchupSteps(l: LogDir.State, newest: nat)
    requires l.catchup == CatchupIdle && !l.pidFile && NewestLog(l.files) == newest
    ensures LogDir.Enabled(l, CatchupStart)
    ensures var l1 := l.(catchup := CatchupStarted, pidFile := true);
            && LogDir.Step(l, CatchupStart) == l1
            && LogDir.Enabled(l1, Scan) && LogDir.Step(l1, Scan) == l1.(catchup := CatchupScanned(newest))
  {
    hide NewestLog;
  }

  lemma CatchupEnds(l: LogDir.State, newest: nat)
    requires l.catchup == CatchupScanned(newest)
    requires newest != 0 ==> newest >= l.confirmed && DurableFile(l.files, newest)
    ensures newest == 0 ==>
              LogDir.Enabled(l, CatchupExit) && LogDir.Step(l, CatchupExit) == l.(catchup := CatchupIdle, pidFile := false)
    ensures newest != 0 ==>
              && LogDir.Enabled(l, AdvanceToNewest)
              && var l1 := l.(catchup := CatchupDone, confirmed := newest);
              && LogDir.Step(l, AdvanceToNewest) == l1
              && LogDir.Enabled(l1, CatchupExit)
              && LogDir.Step(l1, CatchupExit) == l1.(catchup := CatchupIdle, pidFile := false)
  {
    hide NewestLog, DurableFile;
  }

  lemma {:induction false} CatchupRun(wal: seq<Commit>, confirmed: nat, files: seq<LogFile>, phase: Phase, newest: nat)
    returns (a: seq<CycleAction>, end: CycleState)
    requires phase == AtFirstCatchup || phase == AtSecondCatchup
    requires NewestLog(files) == newest && (newest != 0 ==> newest >= confirmed && DurableFile(files, newest))
    ensures ExactlyOnce.IsRun(CycleState(Quiet(wal, confirmed, files), phase), a)
    ensures ExactlyOnce.Run(CycleState(Quiet(wal, confirmed, files), phase), a) == end
    ensures end == CycleState(Quiet(wal, if newest == 0 then confirmed else newest, files),
                              if phase == AtFirstCatchup then AtGetLog else AtCreateDiff)
  {
    hide LogDir.Possible, LogDir.Enabled, LogDir.Step, NewestLog, DurableFile, ExactlyOnce.IsRun, ExactlyOnce.Run,
         Cycle.Enabled, Cycle.Step;
    var c := CycleState(Quiet(wal, confirmed, files), phase);
    a := NoStep(c);
    end := c;
    CatchupSteps(end.p.log, newest);
    LogStep(end, CatchupStart);
    a, end := Then(c, a, end, Do(Pipeline.LogAction(CatchupStart)));
    LogStep(end, Scan);
    a, end := Then(c, a, end, Do(Pipeline.LogAction(Scan)));
    CatchupEnds(end.p.log, newest);
    if newest != 0 {
      LogStep(end, AdvanceToNewest);
      a, end := Then(c, a, end, Do(Pipeline.LogAction(AdvanceToNewest)));
    }
    LogStep(end, CatchupExit);
    a, end := Then(c, a, end, Do(Pipeline.LogAction(CatchupExit)));
  }

  lemma SyncAndExit(l: LogDir.State, files: seq<LogFile>, start: nat, commit: Commit)
    requires l.getLog == GetRenamed(start, [commit]) && l.files == files + [LogFile(start, [commit], Log, Absent)]
    requires forall i :: 0 <= i < |files| ==> files[i].durable == files[i].seen
    ensures LogDir.Enabled(l, SyncNew)
    ensures var l1 := l.(getLog := GetLogged(commit.lsn), files := files + [LogFile(start, [commit], Log, Log)]);
            && LogDir.Step(l, SyncNew) == l1
            && LogDir.Enabled(l1, GetExit) && LogDir.Step(l1, GetExit) == l1.(getLog := GetIdle, pidFile := false)
  {
    assert Synced(l.files) == files + [LogFile(start, [commit], Log, Log)];
  }

  /** A commit, and get-log up to its rename. */
  lemma {:induction false} GetLogUntilRename(wal: seq<Commit>, confirmed: nat, files: seq<LogFile>, commit: Commit)
    returns (a: seq<CycleAction>, end: CycleState)
    requires commit.lsn > LastLsn(wal) && commit.lsn > confirmed && commit.objs != []
    requires Acked(wal, confirmed) == |wal| && Acked(wal + [commit], confirmed) == |wal|
    ensures ExactlyOnce.IsRun(CycleState(Quiet(wal, confirmed, files), AtGetLog), a)
    ensures ExactlyOnce.Run(CycleState(Quiet(wal, confirmed, files), AtGetLog), a) == end
    ensures end == CycleState(
                     Quiet(wal, confirmed, files)
                     .(log := LogDir.State(wal + [commit], confirmed, files + [LogFile(confirmed, [commit], Log, Absent)],
                                           GetRenamed(confirmed, [commit]), CatchupIdle, true)),
                     AtGetLog)
  {
    hide LogDir.Possible, LogDir.Enabled, LogDir.Step, Acked, LastLsn, ExactlyOnce.IsRun, ExactlyOnce.Run,
         Cycle.Enabled, Cycle.Step;
    var c := CycleState(Quiet(wal, confirmed, files), AtGetLog);
    a := NoStep(c);
    end := c;
    Counterexamples.CommitStep(end.p.log, commit);
    LogStep(end, CommitTxn(commit));
    a, end := Then(c, a, end, Do(Pipeline.LogAction(CommitTxn(commit))));
    LogStep(end, GetStart);
    a, end := Then(c, a, end, Do(Pipeline.LogAction(GetStart)));
    assert After(end.p.log.wal, end.p.log.confirmed) == [commit];
    Counterexamples.PeekStep(end.p.log, commit);
    LogStep(end, Peek(1));
    a, end := Then(c, a, end, Do(Pipeline.LogAction(Peek(1))));
    Counterexamples.WriteStep(end.p.log, confirmed, commit);
    LogStep(end, WriteNew);
    a, end := Then(c, a, end, Do(Pipeline.LogAction(WriteNew)));
    Counterexamples.RenameStep(end.p.log, files, confirmed, commit);
    LogStep(end, RenameNew);
    a, end := Then(c, a, end, Do(Pipeline.LogAction(RenameNew)));
  }

  /** A commit, and get-log writing it to a file. */
  lemma {:induction false} GetLogRun(wal: seq<Commit>, confirmed: nat, files: seq<LogFile>, commit: Commit)
    returns (a: seq<CycleAction>, end: CycleState)
    requires commit.lsn > LastLsn(wal) && commit.lsn > confirmed && commit.objs != []
    requires Acked(wal, confirmed) == |wal| && Acked(wal + [commit], confirmed) == |wal|
    requires forall i :: 0 <= i < |files| ==> files[i].durable == files[i].seen
    ensures ExactlyOnce.IsRun(CycleState(Quiet(wal, confirmed, files), AtGetLog), a)
    ensures ExactlyOnce.Run(CycleState(Quiet(wal, confirmed, files), AtGetLog), a) == end
    ensures end == CycleState(Quiet(wal + [commit], confirmed, files + [LogFile(confirmed, [commit], Log, Log)]),
                              AtSecondCatchup)
  {
    hide LogDir.Possible, LogDir.Enabled, LogDir.Step, Acked, LastLsn, ExactlyOnce.IsRun, ExactlyOnce.Run,
         Cycle.Enabled, Cycle.Step;
    var c := CycleState(Quiet(wal, confirmed, files), AtGetLog);
    a, end := GetLogUntilRename(wal, confirmed, files, commit);
    SyncAndExit(end.p.log, files, confirmed, commit);
    LogStep(end, SyncNew);
    a, end := Then(c, a, end, Do(Pipeline.LogAction(SyncNew)));
    LogStep(end, GetExit);
    a, end := Then(c, a, end, Do(Pipeline.LogAction(GetExit)));
  }

  lemma LastIsDurable(files: seq<LogFile>, commit: Commit)
    requires files != [] && files[|files| - 1].data == [commit]
    requires files[|files| - 1].seen == files[|files| - 1].durable == Log
    ensures DurableFile(files, commit.lsn)
  {
    assert files[|files| - 1].Lsn() == commit.lsn;
  }

  /** The script from its top to create-diff, with one commit that get-log sees. */
  lemma {:induction false} UntilCreateDiff(wal: seq<Commit>, confirmed: nat, files: seq<LogFile>, commit: Commit)
    returns (a: seq<CycleAction>, end: CycleState)
    requires commit.lsn > LastLsn(wal) && commit.lsn > confirmed && commit.objs != []
    requires Acked(wal, confirmed) == |wal| && Acked(wal + [commit], confirmed) == |wal|
    requires forall i :: 0 <= i < |files| ==> files[i].durable == files[i].seen
    requires NewestLog(files) == confirmed && (confirmed != 0 ==> DurableFile(files, confirmed))
    requires NewestLog(files + [LogFile(confirmed, [commit], Log, Log)]) == commit.lsn
    ensures ExactlyOnce.IsRun(CycleState(Quiet(wal, confirmed, files), AtFirstCatchup), a)
    ensures ExactlyOnce.Run(CycleState(Quiet(wal, confirmed, files), AtFirstCatchup), a) == end
    ensures end == CycleState(Quiet(wal + [commit], commit.lsn, files + [LogFile(confirmed, [commit], Log, Log)]),
                              AtCreateDiff)
  {
    hide Acked, LastLsn, NewestLog, ExactlyOnce.IsRun, ExactlyOnce.Run;
    var c := CycleState(Quiet(wal, confirmed, files), AtFirstCatchup);
    var b;
    a, end := CatchupRun(wal, confirmed, files, AtFirstCatchup, confirmed);
    var mid := end;
    b, end := GetLogRun(wal, confirmed, files, commit);
    a := ThenRun(c, a, mid, b);
    mid := end;
    var files' := files + [LogFile(confirmed, [commit], Log, Log)];
    LastIsDurable(files', commit);
    b, end := CatchupRun(wal + [commit], confirmed, files', AtSecondCatchup, commit.lsn);
    a := ThenRun(c, a, mid, b);
  }

  const SOME_TIME: Timestamps.Timestamp := Timestamps.Fields(2020, 1, 1, 1, 2, 3)

  const FIRST := StateFile.State(1, SOME_TIME)

  /** create-diff from the start to the lock file, the first sequence number being 1. */
  lemma {:induction false} DiffUntilLock(wal: seq<Commit>, confirmed: nat, files: seq<LogFile>, chosen: seq<nat>)
    returns (a: seq<CycleAction>, end: CycleState)
    requires Pipeline.Selected(files, 100) == chosen != []
    ensures ExactlyOnce.IsRun(CycleState(Quiet(wal, confirmed, files), AtCreateDiff), a)
    ensures ExactlyOnce.Run(CycleState(Quiet(wal, confirmed, files), AtCreateDiff), a) == end
    ensures end == CycleState(
                     Quiet(wal, confirmed, files)
                     .(diff := Pipeline.Diff(Pipeline.TMP_SYNCED, chosen, FIRST, 0), diffPid := true,
                       tmp := Pipeline.Tmp(Some(chosen), Some(FIRST), Some(FIRST)), lock := true, lockDurable := true),
                     AtCreateDiff)
  {
    hide Pipeline.Selected, LogDir.Possible, LogDir.Enabled, LogDir.Step, ExactlyOnce.IsRun, ExactlyOnce.Run;
    var c := CycleState(Quiet(wal, confirmed, files), AtCreateDiff);
    a := NoStep(c);
    end := c;
    a, end := Then(c, a, end, Do(Pipeline.Start));
    a, end := Then(c, a, end, Do(Pipeline.Choose(100)));
    a, end := Then(c, a, end, Do(Pipeline.WriteChange));
    a, end := Then(c, a, end, Do(Pipeline.GetState(1, SOME_TIME)));
    a, end := Then(c, a, end, Do(Pipeline.WriteState));
    a, end := Then(c, a, end, Do(Pipeline.WriteCopy));
    a, end := Then(c, a, end, Do(Pipeline.WriteLock));
    a, end := Then(c, a, end, Do(Pipeline.SyncTmp));
  }

  /** The changes directory after the first publication; its first-level directory is number 0. */
  function Published(chosen: seq<nat>): Pipeline.Changes {
    Pipeline.Changes({0}, map[1 := chosen], map[1 := FIRST], Some(FIRST))
  }

  /** Between replacing `state.txt` and syncing the changes directory. */
  function TopMoved(wal: seq<Commit>, confirmed: nat, files: seq<LogFile>, chosen: seq<nat>): Pipeline.State {
    Quiet(wal, confirmed, files)
    .(diff := Pipeline.Diff(Pipeline.TOP_MOVED, chosen, FIRST, 0), diffPid := true, lock := true, lockDurable := true,
      seen := Published(chosen), synced := Published(chosen).(dirs := {}, top := None), first := Some(1))
  }

  /** On to `state.txt`: everything is moved, and the directories below the changes directory are synced. */
  lemma {:induction false} DiffUntilTop(wal: seq<Commit>, confirmed: nat, files: seq<LogFile>, chosen: seq<nat>)
    returns (a: seq<CycleAction>, end: CycleState)
    requires Pipeline.Selected(files, 100) == chosen != []
    ensures ExactlyOnce.IsRun(CycleState(Quiet(wal, confirmed, files), AtCreateDiff), a)
    ensures ExactlyOnce.Run(CycleState(Quiet(wal, confirmed, files), AtCreateDiff), a) == end
    ensures end == CycleState(TopMoved(wal, confirmed, files, chosen), AtCreateDiff)
  {
    hide Pipeline.Selected, LogDir.Possible, LogDir.Enabled, LogDir.Step, ExactlyOnce.IsRun, ExactlyOnce.Run;
    var c := CycleState(Quiet(wal, confirmed, files), AtCreateDiff);
    a, end := DiffUntilLock(wal, confirmed, files, chosen);
    a, end := Then(c, a, end, Do(Pipeline.MakeDirs));
    a, end := Then(c, a, end, Do(Pipeline.MoveChange));
    a, end := Then(c, a, end, Do(Pipeline.MoveState));
    a, end := Then(c, a, end, Do(Pipeline.SyncSubdirs));
    a, end := Then(c, a, end, Do(Pipeline.MoveTop));
    assert Pipeline.Dir(1) == 0;
    assert end.p.seen == Published(chosen);
  }

  // --- The first-level directory is lost --------------------------------------------------------------------------

  lemma {:induction false} FirstFacts()
    ensures NewestLog([]) == 0 && Acked([], 0) == 0 && Acked([] + [C1], 0) == 0
    ensures [] + [LogFile(0, [C1], Log, Log)] == [LogFile(0, [C1], Log, Log)] && [] + [C1] == [C1]
    ensures NewestLog([LogFile(0, [C1], Log, Log)]) == 10
  {
    assert [LogFile(0, [C1], Log, Log)][..0] == [];
  }

  lemma {:induction false} ObjectsOfOne(commit: Commit)
    ensures Pipeline.ObjectsIn([commit]) == commit.objs
  {
    assert [commit][1..] == [];
    assert commit.objs + [] == commit.objs;
  }

  lemma {:induction false} OneSelected()
    ensures Pipeline.Selected([LogFile(0, [C1], Log, Log)], 100) == [0]
  {
    var files := [LogFile(0, [C1], Log, Log)];
    assert files[..0] == [];
    assert Pipeline.LogList(files) == [0];
    ObjectsOfOne(C1);
    var contents := Pipeline.Contents(files, [0]);
    assert contents == [C1.objs];
    Draining.Progress(contents, 100);
    assert |Draining.Batch(contents, 100)| == 1;
  }

  /** The first run of the script up to create-diff. */
  lemma {:induction false} FirstCycle() returns (a: seq<CycleAction>, end: CycleState)
    ensures ExactlyOnce.IsRun(START, a) && ExactlyOnce.Run(START, a) == end
    ensures end == CycleState(Quiet([C1], 10, [LogFile(0, [C1], Log, Log)]), AtCreateDiff)
  {
    hide NewestLog, Acked, ExactlyOnce.IsRun, ExactlyOnce.Run;
    FirstFacts();
    a, end := UntilCreateDiff([], 0, [], C1);
  }

  /** A crash right after `state.txt` was replaced: the new first-level directory is gone, `state.txt` is not. */
  const LOSES_DIR := Pipeline.HostCrash([Log], false, false, NO_TMP, true, Pipeline.Changes({}, map[], map[], Some(FIRST)))

  lemma LoseDir(wal: seq<Commit>, confirmed: nat, c: CycleState)
    requires c == CycleState(TopMoved(wal, confirmed, [LogFile(0, [C1], Log, Log)], [0]), AtCreateDiff)
    ensures Cycle.Enabled(c, Do(LOSES_DIR))
    ensures var p := Cycle.Step(c, Do(LOSES_DIR)).p;
            p.seen.top == Some(FIRST) && 1 !in p.seen.osc && 1 !in p.seen.states && !Pipeline.PrefixComplete(p)
  {
    hide Pipeline.Selected;
    assert Pipeline.Dir(1) == 0;
    var p := Cycle.Step(c, Do(LOSES_DIR)).p;
    assert p.first == Some(1) && 1 !in p.seen.osc;
  }

  /** The very first publication can end with a `state.txt` whose number has no files. */
  lemma {:induction false} CrashLosesFirstDirectory() returns (a: seq<CycleAction>, end: CycleState)
    ensures Cycle.Init(START) && ExactlyOnce.IsRun(START, a) && ExactlyOnce.Run(START, a) == end
    ensures end.p.seen.top == Some(FIRST) && 1 !in end.p.seen.osc && 1 !in end.p.seen.states
    ensures !Pipeline.PrefixComplete(end.p)
  {
    hide ExactlyOnce.IsRun, ExactlyOnce.Run, Pipeline.Selected, Cycle.Enabled, Cycle.Step, Pipeline.PrefixComplete;
    a, end := FirstCycle();
    OneSelected();
    var b, e := DiffUntilTop([C1], 10, [LogFile(0, [C1], Log, Log)], [0]);
    a := ThenRun(START, a, end, b);
    LoseDir([C1], 10, e);
    a, end := Then(START, a, e, Do(LOSES_DIR));
  }

  // --- A directory sync that fails --------------------------------------------------------------------------------

  const UNSYNCED := [LogFile(0, [C1], Log, Absent)]

  lemma {:induction false} FailedSyncFacts()
    ensures NewestLog([]) == 0 && NewestLog(UNSYNCED) == 10 && Acked([], 0) == 0 && Acked([] + [C1], 0) == 0
    ensures [] + UNSYNCED == UNSYNCED && [] + [C1] == [C1]
  {
    FirstFacts();
    Counterexamples.OneLog(UNSYNCED);
  }

  /** The sync behind the first rename fails and ends get-log; the script starts again and catchup finds the file. */
  lemma {:induction false} SyncFails() returns (a: seq<CycleAction>, end: CycleState)
    ensures ExactlyOnce.IsRun(START, a) && ExactlyOnce.Run(START, a) == end
    ensures end == CycleState(Quiet([C1], 0, UNSYNCED)
                              .(log := LogDir.State([C1], 0, UNSYNCED, GetIdle, CatchupScanned(10), true)), AtFirstCatchup)
  {
    hide LogDir.Possible, LogDir.Enabled, LogDir.Step, ExactlyOnce.IsRun, ExactlyOnce.Run, Cycle.Enabled, Cycle.Step,
         NewestLog, Acked;
    FailedSyncFacts();
    a, end := CatchupRun([], 0, [], AtFirstCatchup, 0);
    var b, e := GetLogUntilRename([], 0, [], C1);
    a := ThenRun(START, a, end, b);
    end := e;
    GetFails(end.p.log);
    LogStep(end, GetFail);
    a, end := Then(START, a, end, Do(Pipeline.LogAction(GetFail)));
    CatchupSteps(end.p.log, 10);
    LogStep(end, CatchupStart);
    a, end := Then(START, a, end, Do(Pipeline.LogAction(CatchupStart)));
    LogStep(end, Scan);
    a, end := Then(START, a, end, Do(Pipeline.LogAction(Scan)));
  }

  lemma GetFails(l: LogDir.State)
    requires l.getLog.GetRenamed?
    ensures LogDir.Enabled(l, GetFail) && LogDir.Step(l, GetFail) == l.(getLog := GetIdle, pidFile := false)
  {
  }

  /** The crash takes the file back. */
  const LOSES_FILE := Do(Pipeline.HostCrash([Absent], false, false, NO_TMP, false, NO_CHANGES))

  lemma LoseFile(c: CycleState)
    requires c.p == Quiet([C1], 0, UNSYNCED).(log := LogDir.State([C1], 0, UNSYNCED, GetIdle, CatchupScanned(10), true))
    requires c.phase == AtFirstCatchup
    ensures Cycle.Possible(c, FailedSync.ADVANCE)
    ensures Cycle.Possible(Cycle.Step(c, FailedSync.ADVANCE), LOSES_FILE)
    ensures var l := Cycle.Step(Cycle.Step(c, FailedSync.ADVANCE), LOSES_FILE).p.log;
            l.wal == [C1] && l.confirmed == 10 && !Held(l.files, C1)
  {
    hide Acked, NewestLog;
  }

  /** With a failed sync, a run of the script loses a transaction that the slot has confirmed. */
  lemma {:induction false} FailedSyncLosesData() returns (a: seq<CycleAction>, c: CycleState)
    ensures Cycle.Init(START) && ExactlyOnce.IsRun(START, a) && ExactlyOnce.Run(START, a) == c
    ensures Cycle.Possible(c, FailedSync.ADVANCE)
    ensures Cycle.Possible(Cycle.Step(c, FailedSync.ADVANCE), LOSES_FILE)
    ensures var l := Cycle.Step(Cycle.Step(c, FailedSync.ADVANCE), LOSES_FILE).p.log;
            C1 in l.wal && C1.lsn <= l.confirmed && !Held(l.files, C1)
  {
    hide ExactlyOnce.IsRun, ExactlyOnce.Run, Cycle.Possible, Cycle.Step, Held;
    a, c := SyncFails();
    LoseFile(c);
  }

  // --- catchup asks backwards ----------------------------------------------------------------------------------------

  const TWO_FILES := [LogFile(0, [C1], Log, Log), LogFile(10, [C2], Log, Log)]

  lemma {:induction false} SecondFacts()
    ensures Acked([C1], 10) == 1 && Acked([C1] + [C2], 10) == 1 && LastLsn([C1]) == 10
    ensures [LogFile(0, [C1], Log, Log)] + [LogFile(10, [C2], Log, Log)] == TWO_FILES && [C1] + [C2] == [C1, C2]
    ensures NewestLog(TWO_FILES) == 20 && DurableFile([LogFile(0, [C1], Log, Log)], 10)
  {
    LastIsDurable([LogFile(0, [C1], Log, Log)], C1);
    Counterexamples.BothAcked();
    Counterexamples.TwoLogs(TWO_FILES);
  }

  /** create-diff fails right after its start; the script begins again and gets to create-diff with two logs. */
  lemma {:induction false} SecondCycle() returns (a: seq<CycleAction>, end: CycleState)
    ensures ExactlyOnce.IsRun(START, a) && ExactlyOnce.Run(START, a) == end
    ensures end == CycleState(Quiet([C1, C2], 20, TWO_FILES), AtCreateDiff)
  {
    hide ExactlyOnce.IsRun, ExactlyOnce.Run, Pipeline.Selected, NewestLog, Acked, LogDir.Possible, LogDir.Enabled,
         LogDir.Step;
    a, end := FirstCycle();
    a, end := Then(START, a, end, Do(Pipeline.Start));
    a, end := Then(START, a, end, Do(Pipeline.Fail));
    assert end == CycleState(Quiet([C1], 10, [LogFile(0, [C1], Log, Log)]), AtFirstCatchup);
    FirstFacts();
    SecondFacts();
    var b, e := UntilCreateDiff([C1], 10, [LogFile(0, [C1], Log, Log)], C2);
    a := ThenRun(START, a, end, b);
    end := e;
  }

  lemma {:induction false} TwoSelected()
    ensures Pipeline.Selected(TWO_FILES, 100) == [0, 1]
  {
    assert TWO_FILES[..1] == [LogFile(0, [C1], Log, Log)] && TWO_FILES[..1][..0] == [];
    assert Pipeline.LogList(TWO_FILES[..1]) == [0];
    assert Pipeline.LogList(TWO_FILES) == [0, 1];
    ObjectsOfOne(C1);
    ObjectsOfOne(C2);
    var contents := Pipeline.Contents(TWO_FILES, [0, 1]);
    assert contents == [C1.objs, C2.objs];
    BothTaken(contents);
  }

  lemma {:induction false} BothTaken(contents: seq<Draining.LogContent>)
    requires contents == [C1.objs, C2.objs]
    ensures Draining.Batch(contents, 100) == contents
  {
    assert contents[..1] == [C1.objs] && contents[..1][1..] == [];
    assert Draining.Flat([]) == [];
    assert Draining.Flat(contents[..1]) == C1.objs + [];
    Draining.TakenIsUnique(contents, 100, 2);
    assert contents[..2] == contents;
    Draining.FlatOfLast(contents);
  }

  /** Both renames to `.done`, of which a crash keeps only the second. */
  lemma {:induction false} MarkAndCrash(c: CycleState) returns (a: seq<CycleAction>, end: CycleState)
    requires c == CycleState(TopMoved([C1, C2], 20, TWO_FILES, [0, 1]), AtCreateDiff)
    ensures ExactlyOnce.IsRun(c, a) && ExactlyOnce.Run(c, a) == end
    ensures end.phase == AtFirstCatchup
    ensures end.p.log == LogDir.State([C1, C2], 20, [LogFile(0, [C1], Log, Log), LogFile(10, [C2], Done, Done)],
                                      GetIdle, CatchupIdle, false)
  {
    hide ExactlyOnce.IsRun, ExactlyOnce.Run, Pipeline.Selected;
    a := NoStep(c);
    end := c;
    a, end := Then(c, a, end, Do(Pipeline.SyncTop));
    assert end.p.seen == end.p.synced == Published([0, 1]);
    a, end := Then(c, a, end, Do(Pipeline.MarkLog));
    assert end.p.log.files == [LogFile(0, [C1], Done, Log), LogFile(10, [C2], Log, Log)];
    a, end := Then(c, a, end, Do(Pipeline.MarkLog));
    assert end.p.log.files == [LogFile(0, [C1], Done, Log), LogFile(10, [C2], Done, Log)];
    assert Pipeline.Dir(1) == 0;
    a, end := Then(c, a, end,
                   Do(Pipeline.HostCrash([Log, Done], false, false, NO_TMP, true, Published([0, 1]))));
    assert end.p.log.files == [LogFile(0, [C1], Log, Log), LogFile(10, [C2], Done, Done)];
  }

  lemma {:induction false} NewestDone()
    ensures var files := [LogFile(0, [C1], Log, Log), LogFile(10, [C2], Done, Done)];
            SlotOrder.NewestIsDone(files) && NewestLog(files) == 10
  {
    var files := [LogFile(0, [C1], Log, Log), LogFile(10, [C2], Done, Done)];
    assert files[0].seen == Log;
    assert IsLastLive(files, 1) && files[1].seen == Done;
    assert files[..1] == [LogFile(0, [C1], Log, Log)];
    Counterexamples.OneLog(files[..1]);
  }

  /** A run of the script after which catchup asks for an LSN behind the slot. */
  lemma {:induction false} ScriptAsksBackwards() returns (a: seq<CycleAction>, end: CycleState)
    ensures Cycle.Init(START) && ExactlyOnce.IsRun(START, a) && ExactlyOnce.Run(START, a) == end
    ensures SlotOrder.NewestIsDone(end.p.log.files)
    ensures end.p.log.catchup == CatchupScanned(10) && end.p.log.confirmed == 20
  {
    hide ExactlyOnce.IsRun, ExactlyOnce.Run, Pipeline.Selected, Cycle.Enabled, Cycle.Step, NewestLog;
    hide LogDir.Possible, LogDir.Enabled, LogDir.Step, SlotOrder.NewestIsDone;
    a, end := SecondCycle();
    TwoSelected();
    var b, e := DiffUntilTop([C1, C2], 20, TWO_FILES, [0, 1]);
    a := ThenRun(START, a, end, b);
    var b', e' := MarkAndCrash(e);
    a := ThenRun(START, a, e, b');
    end := e';
    NewestDone();
    CatchupSteps(end.p.log, 10);
    LogStep(end, CatchupStart);
    a, end := Then(START, a, end, Do(Pipeline.LogAction(CatchupStart)));
    LogStep(end, Scan);
    a, end := Then(START, a, end, Do(Pipeline.LogAction(Scan)));
  }
}
