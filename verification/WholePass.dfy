/**
 A whole pass of the script in which nothing fails: catchup, get-log, catchup, create-diff. Every
 transaction that was committed before is confirmed and in a diff afterwards.
 */
module WholePass {
  import opened Timestamps
  import opened LogDir
  import Pipeline
  import opened Publish
  import RepeatedRuns
  import EndToEnd
  import Cycle
  import ExactlyOnce
  import SlotOrder

  /** Nobody is running, and no PID file is left. */
  predicate Idle(l: LogDir.State) {
    l.getLog == GetIdle && l.catchup == CatchupIdle && !l.pidFile
  }

  /** catchup has nothing to ask for, or something that is not behind the slot. */
  predicate NotBackwards(l: LogDir.State) {
    NewestLog(l.files) == 0 || NewestLog(l.files) >= l.confirmed
  }

  /** A step of get-log or catchup, seen from the machine. */
  lemma LogStep(s: Pipeline.State, a: LogDir.Action)
    requires LogDir.Enabled(s.log, a) && !a.MarkDone? && !a.SyncDir? && !a.Crash?
    ensures Pipeline.Possible(s, Pipeline.LogAction(a)) && Pipeline.Enabled(s, Pipeline.LogAction(a))
    ensures Pipeline.Step(s, Pipeline.LogAction(a)) == s.(log := LogDir.Step(s.log, a))
  {
    hide LogDir.Possible, LogDir.Enabled, LogDir.Step;
  }

  method DoLog(m: Machine, a: LogDir.Action)
    requires m.Valid() && LogDir.Enabled(m.s.log, a) && !a.MarkDone? && !a.SyncDir? && !a.Crash?
    modifies m
    ensures m.Valid() && m.documented == old(m.documented)
    ensures m.s == old(m.s).(log := LogDir.Step(old(m.s.log), a))
    ensures LogDir.Inv(old(m.s.log)) ==> LogDir.Inv(m.s.log)
  {
    hide LogDir.Inv, LogDir.Possible, LogDir.Enabled, LogDir.Step, Pipeline.Possible, Pipeline.Enabled, Pipeline.Step,
         Pipeline.IsRun, Pipeline.Run, Leads;
    LogStep(m.s, a);
    ghost var l := m.s.log;
    if LogDir.Inv(l) {
      LogDir.StepKeeps(l, a);
    }
    m.Do(Pipeline.LogAction(a));
  }

  function AfterCatchup(l: LogDir.State): LogDir.State {
    l.(confirmed := if NewestLog(l.files) == 0 then l.confirmed else NewestLog(l.files))
  }

  lemma CatchupSteps(l: LogDir.State)
    requires Idle(l) && Settled(l.files) && NotBackwards(l)
    ensures var started := l.(catchup := CatchupStarted, pidFile := true);
            var scanned := started.(catchup := CatchupScanned(NewestLog(l.files)));
            && LogDir.Enabled(l, CatchupStart) && LogDir.Step(l, CatchupStart) == started
            && LogDir.Enabled(started, Scan) && LogDir.Step(started, Scan) == scanned
            && (NewestLog(l.files) == 0 ==>
                  LogDir.Enabled(scanned, CatchupExit) && LogDir.Step(scanned, CatchupExit) == AfterCatchup(l))
            && (NewestLog(l.files) != 0 ==>
                  var done := scanned.(catchup := CatchupDone, confirmed := NewestLog(l.files));
                  && LogDir.Enabled(scanned, AdvanceToNewest) && LogDir.Step(scanned, AdvanceToNewest) == done
                  && LogDir.Enabled(done, CatchupExit) && LogDir.Step(done, CatchupExit) == AfterCatchup(l))
  {
    NewestLogIsNewest(l.files);
    hide NewestLog;
  }

  /** catchup without `--lsn`. */
  method Catchup(m: Machine)
    requires m.Valid() && Idle(m.s.log) && Settled(m.s.log.files) && NotBackwards(m.s.log)
    modifies m
    ensures m.Valid() && m.documented == old(m.documented)
    ensures m.s == old(m.s).(log := AfterCatchup(old(m.s.log)))
    ensures LogDir.Inv(old(m.s.log)) ==> LogDir.Inv(m.s.log)
  {
    CatchupSteps(m.s.log);
    hide LogDir.Inv, LogDir.Possible, LogDir.Enabled, LogDir.Step, NewestLog, Pipeline.IsRun, Pipeline.Run, Leads;
    DoLog(m, CatchupStart);
    DoLog(m, Scan);
    if NewestLog(m.s.log.files) != 0 {
      DoLog(m, AdvanceToNewest);
    }
    DoLog(m, CatchupExit);
  }

  /** What get-log leaves when it is offered everything that the slot has not confirmed. */
  function AfterGetLog(l: LogDir.State): LogDir.State {
    var data := After(l.wal, l.confirmed);
    if HasActualData(data) then l.(files := Synced(l.files) + [LogFile(l.confirmed, data, Log, Log)]) else l
  }

  lemma PeekSteps(l: LogDir.State)
    requires Idle(l)
    ensures var started := l.(getLog := GetStarted, pidFile := true);
            var data := After(l.wal, l.confirmed);
            && LogDir.Enabled(l, GetStart) && LogDir.Step(l, GetStart) == started
            && (data == [] ==>
                  LogDir.Enabled(started, GetExit) && LogDir.Step(started, GetExit) == AfterGetLog(l))
            && (data != [] ==>
                  && LogDir.Enabled(started, Peek(|data|))
                  && LogDir.Step(started, Peek(|data|)) == started.(getLog := GetPeeked(l.confirmed, data)))
  {
    hide Acked;
    var data := After(l.wal, l.confirmed);
    assert data[..|data|] == data;
  }

  lemma SkipSteps(l: LogDir.State, data: seq<Commit>)
    requires l.getLog == GetPeeked(l.confirmed, data) && !HasActualData(data)
    ensures LogDir.Enabled(l, SkipWrite)
    ensures var logged := l.(getLog := GetLogged(LastLsn(data)));
            && LogDir.Step(l, SkipWrite) == logged
            && LogDir.Enabled(logged, GetExit)
            && LogDir.Step(logged, GetExit) == l.(getLog := GetIdle, pidFile := false)
  {
  }

  lemma WriteSteps(l: LogDir.State, data: seq<Commit>)
    requires l.getLog == GetPeeked(l.confirmed, data) && HasActualData(data)
    ensures LogDir.Enabled(l, WriteNew)
    ensures var written := l.(getLog := GetWritten(l.confirmed, data),
                              files := l.files + [LogFile(l.confirmed, data, New, Absent)]);
            var renamed := l.(getLog := GetRenamed(l.confirmed, data),
                              files := l.files + [LogFile(l.confirmed, data, Log, Absent)]);
            && LogDir.Step(l, WriteNew) == written
            && LogDir.Enabled(written, RenameNew) && LogDir.Step(written, RenameNew) == renamed
  {
    hide HasActualData;
    var files := l.files + [LogFile(l.confirmed, data, New, Absent)];
    assert Rename(files, |l.files|, Log) == l.files + [LogFile(l.confirmed, data, Log, Absent)];
  }

  lemma SyncSteps(l: LogDir.State, files: seq<LogFile>, data: seq<Commit>)
    requires l.getLog == GetRenamed(l.confirmed, data) && l.files == files + [LogFile(l.confirmed, data, Log, Absent)]
    ensures LogDir.Enabled(l, SyncNew)
    ensures var logged := l.(getLog := GetLogged(LastLsn(data)),
                             files := Synced(files) + [LogFile(l.confirmed, data, Log, Log)]);
            && LogDir.Step(l, SyncNew) == logged
            && LogDir.Enabled(logged, GetExit)
            && LogDir.Step(logged, GetExit) == logged.(getLog := GetIdle, pidFile := false)
  {
    assert Synced(l.files) == Synced(files) + [LogFile(l.confirmed, data, Log, Log)];
  }

  /** get-log without `--catchup` and without a limit that matters. */
  method GetLog(m: Machine)
    requires m.Valid() && Idle(m.s.log)
    modifies m
    ensures m.Valid() && m.documented == old(m.documented)
    ensures m.s == old(m.s).(log := AfterGetLog(old(m.s.log)))
    ensures LogDir.Inv(old(m.s.log)) ==> LogDir.Inv(m.s.log)
  {
    hide LogDir.Inv, LogDir.Possible, LogDir.Enabled, LogDir.Step, Acked, HasActualData, LastLsn, Pipeline.IsRun,
         Pipeline.Run, Leads;
    var l := m.s.log;
    var data := After(l.wal, l.confirmed);
    PeekSteps(l);
    DoLog(m, GetStart);
    if data != [] {
      DoLog(m, Peek(|data|));
      if HasActualData(data) {
        WriteSteps(m.s.log, data);
        DoLog(m, WriteNew);
        DoLog(m, RenameNew);
        SyncSteps(m.s.log, l.files, data);
        DoLog(m, SyncNew);
      } else {
        SkipSteps(m.s.log, data);
        DoLog(m, SkipWrite);
      }
    }
    DoLog(m, GetExit);
  }

  /** What get-log with `--catchup` leaves: it has confirmed all that it saw. */
  function AfterOwnCatchup(l: LogDir.State): LogDir.State {
    var data := After(l.wal, l.confirmed);
    if data == [] then l else AfterGetLog(l).(confirmed := LastLsn(data))
  }

  lemma OwnCatchupSteps(l: LogDir.State, lsn: nat)
    requires l.getLog == GetLogged(lsn)
    ensures LogDir.Enabled(l, AdvanceOwn)
    ensures var advanced := l.(getLog := GetAdvanced, confirmed := lsn);
            && LogDir.Step(l, AdvanceOwn) == advanced
            && LogDir.Enabled(advanced, GetExit)
            && LogDir.Step(advanced, GetExit) == advanced.(getLog := GetIdle, pidFile := false)
  {
  }

  /** get-log up to the point where it may advance the slot. */
  method GetLogUntilLogged(m: Machine)
    requires m.Valid() && Idle(m.s.log) && After(m.s.log.wal, m.s.log.confirmed) != []
    modifies m
    ensures m.Valid() && m.documented == old(m.documented)
    ensures var l := old(m.s.log);
            m.s == old(m.s).(log := AfterGetLog(l).(getLog := GetLogged(LastLsn(After(l.wal, l.confirmed))), pidFile := true))
    ensures LogDir.Inv(old(m.s.log)) ==> LogDir.Inv(m.s.log)
  {
    hide LogDir.Inv, LogDir.Possible, LogDir.Enabled, LogDir.Step, Acked, HasActualData, LastLsn, Pipeline.IsRun;
    hide Pipeline.Run, Leads;
    var l := m.s.log;
    var data := After(l.wal, l.confirmed);
    PeekSteps(l);
    DoLog(m, GetStart);
    DoLog(m, Peek(|data|));
    if HasActualData(data) {
      WriteSteps(m.s.log, data);
      DoLog(m, WriteNew);
      DoLog(m, RenameNew);
      SyncSteps(m.s.log, l.files, data);
      DoLog(m, SyncNew);
    } else {
      SkipSteps(m.s.log, data);
      DoLog(m, SkipWrite);
    }
  }

  method GetLogWithCatchup(m: Machine)
    requires m.Valid() && Idle(m.s.log)
    modifies m
    ensures m.Valid() && m.documented == old(m.documented)
    ensures m.s == old(m.s).(log := AfterOwnCatchup(old(m.s.log)))
    ensures LogDir.Inv(old(m.s.log)) ==> LogDir.Inv(m.s.log)
  {
    hide LogDir.Inv, LogDir.Possible, LogDir.Enabled, LogDir.Step, AfterGetLog, After, LastLsn, Pipeline.IsRun;
    hide Pipeline.Run, Leads;
    if After(m.s.log.wal, m.s.log.confirmed) == [] {
      NothingSeen(m.s.log);
      GetLog(m);
      return;
    }
    IdleAfterGetLog(m.s.log);
    ghost var data := After(m.s.log.wal, m.s.log.confirmed);
    GetLogUntilLogged(m);
    OwnCatchupSteps(m.s.log, LastLsn(data));
    DoLog(m, AdvanceOwn);
    DoLog(m, GetExit);
  }

  lemma NothingSeen(l: LogDir.State)
    requires After(l.wal, l.confirmed) == []
    ensures AfterGetLog(l) == l
  {
  }

  // --- What is confirmed and logged then --------------------------------------------------------------------

  /** The slot has confirmed every transaction with inserted versions. */
  predicate AllConfirmed(l: LogDir.State) {
    forall c :: c in l.wal && c.objs != [] ==> c.lsn <= l.confirmed
  }

  lemma AfterGetLogIs(l: LogDir.State)
    requires Sound(l) && Settled(l.files)
    ensures var l' := AfterGetLog(l);
            && Settled(l'.files)
            && (NotBackwards(l) ==> NotBackwards(l'))
            && (l' == l ==> AllConfirmed(l))
            && (l' != l ==> NewestLog(l'.files) == LastLsn(l.wal))
  {
    var data := After(l.wal, l.confirmed);
    if HasActualData(data) {
      NewestAfterGetLog(l);
    } else {
      EmptyRest(l);
    }
  }

  lemma EmptyRest(l: LogDir.State)
    requires !HasActualData(After(l.wal, l.confirmed))
    ensures AllConfirmed(l)
  {
    hide Acked;
    var n := Acked(l.wal, l.confirmed);
    forall i | n <= i < |l.wal|
      ensures l.wal[i].objs == []
    {
      assert After(l.wal, l.confirmed)[i - n] == l.wal[i];
    }
  }

  /** The new file ends with the last transaction there is. */
  lemma NewestOfAll(wal: seq<Commit>, files: seq<LogFile>, file: LogFile)
    requires file.seen == Log && file.Lsn() == LastLsn(wal)
    requires forall i :: 0 <= i < |files| ==> files[i].Lsn() <= LastLsn(wal)
    ensures NewestLog(files + [file]) == LastLsn(wal)
  {
    hide LastLsn;
    var all := files + [file];
    NewestLogIsNewest(all);
    assert all[|files|] == file;
    assert forall i :: 0 <= i < |files| ==> all[i] == files[i];
    hide NewestLog;
  }

  lemma FilesUpToLast(l: LogDir.State)
    requires Sound(l)
    ensures forall i :: 0 <= i < |l.files| ==> l.files[i].Lsn() <= LastLsn(l.wal)
    ensures l.confirmed <= LastLsn(l.wal)
  {
    assert forall i :: 0 <= i < |l.files| ==> FileOk(l, l.files[i]);
    hide LastLsn, Increasing, HasActualData;
  }

  lemma NewestAfterGetLog(l: LogDir.State)
    requires Sound(l) && Settled(l.files) && HasActualData(After(l.wal, l.confirmed))
    ensures var l' := AfterGetLog(l);
            Settled(l'.files) && NewestLog(l'.files) == LastLsn(l.wal) >= l.confirmed
  {
    FilesUpToLast(l);
    hide Acked, NewestLog, Sound;
    var data := After(l.wal, l.confirmed);
    assert data[|data| - 1] == l.wal[|l.wal| - 1];
    NewestOfAll(l.wal, Synced(l.files), LogFile(l.confirmed, data, Log, Log));
  }

  /** The log directory after catchup, get-log and catchup. */
  function AfterLogging(l: LogDir.State): LogDir.State {
    AfterCatchup(AfterGetLog(AfterCatchup(l)))
  }

  lemma AllConfirmedThen(l: LogDir.State)
    requires Sound(AfterCatchup(l)) && Settled(l.files) && NotBackwards(l)
    ensures NotBackwards(AfterCatchup(l)) && NotBackwards(AfterGetLog(AfterCatchup(l)))
    ensures Settled(AfterGetLog(AfterCatchup(l)).files)
    ensures AllConfirmed(AfterLogging(l))
  {
    var l1 := AfterCatchup(l);
    assert NotBackwards(l1);
    AfterGetLogIs(l1);
    LastIsMax(l1.wal);
    hide NewestLog, Acked, HasActualData, After, Settled, Increasing, GetLogOk, CatchupOk, Exclusive, FileOk;
  }

  /** get-log adds at most one `.log` file. */
  lemma {:induction false} SameLogList(files: seq<LogFile>, files': seq<LogFile>)
    requires |files| == |files'| && forall i :: 0 <= i < |files| ==> files'[i].seen == files[i].seen
    ensures Pipeline.LogList(files') == Pipeline.LogList(files)
  {
    if files != [] {
      SameLogList(files[..|files| - 1], files'[..|files| - 1]);
    }
  }

  lemma OneMoreLog(l: LogDir.State)
    ensures |Pipeline.LogList(AfterGetLog(l).files)| <= |Pipeline.LogList(l.files)| + 1
  {
    hide Acked, HasActualData;
    SameLogList(l.files, Synced(l.files));
    var file := LogFile(l.confirmed, After(l.wal, l.confirmed), Log, Log);
    assert (Synced(l.files) + [file])[..|l.files|] == Synced(l.files);
  }

  // --- The pass ---------------------------------------------------------------------------------------------

  lemma NoneIsLog(files: seq<LogFile>)
    requires Pipeline.LogList(files) == []
    ensures forall i :: 0 <= i < |files| ==> files[i].seen != Log
  {
    Pipeline.LogListInRange(files);
    hide Pipeline.LogList;
  }

  /** A live file has the transaction. */
  ghost predicate Logged(files: seq<LogFile>, c: Commit) {
    exists i: nat :: HeldBy(files, i, c)
  }

  ghost predicate AllLogged(l: LogDir.State) {
    forall c :: c in l.wal && c.objs != [] ==> Logged(l.files, c)
  }

  lemma ConfirmedIsLogged(l: LogDir.State)
    requires LogDir.Inv(l) && AllConfirmed(l)
    ensures AllLogged(l)
  {
    hide Sound;
    forall c | c in l.wal && c.objs != []
      ensures Logged(l.files, c)
    {
      assert Held(l.files, c);
      var i: nat :| i < |l.files| && HeldIn(l.files[i], c);
      assert HeldBy(l.files, i, c);
    }
  }

  lemma StaysLogged(files: seq<LogFile>, files': seq<LogFile>, c: Commit)
    requires RepeatedRuns.FilesStay(files, files') && Logged(files, c)
    ensures Logged(files', c)
  {
    var i: nat :| HeldBy(files, i, c);
    assert HeldBy(files', i, c);
  }

  lemma InSomeDiff(p: Pipeline.State, c: Commit) returns (n: nat)
    requires Logged(p.log.files, c)
    requires forall i :: 0 <= i < |p.log.files| ==> p.log.files[i].seen != Log
    requires forall i: nat :: i < |p.log.files| ==> (p.log.files[i].seen == Done <==> Pipeline.Published(p.seen, i))
    ensures ExactlyOnce.InDiff(p, n, c)
  {
    hide Pipeline.Published, ExactlyOnce.InDiff;
    var i: nat :| HeldBy(p.log.files, i, c);
    assert p.log.files[i].seen == Done;
    n := ExactlyOnce.DiffOf(p, i, c);
  }

  /** Without lock file, and with all log files used up, everything that was logged is in a diff. */
  lemma AllInDiffs(p: Pipeline.State, l: LogDir.State)
    requires Pipeline.Inv(p) && !p.lock && Pipeline.LogList(p.log.files) == []
    requires AllLogged(l) && RepeatedRuns.FilesStay(l.files, p.log.files) && p.log.wal == l.wal
    ensures forall c :: c in p.log.wal && c.objs != [] ==> exists n :: ExactlyOnce.InDiff(p, n, c)
  {
    ExactlyOnce.DiffFacts(p);
    NoneIsLog(p.log.files);
    hide Pipeline.Inv, Pipeline.LogList, ExactlyOnce.InDiff, Pipeline.Published, Pipeline.Disjoint, Logged,
         RepeatedRuns.FilesStay;
    forall c | c in p.log.wal && c.objs != []
      ensures exists n :: ExactlyOnce.InDiff(p, n, c)
    {
      StaysLogged(l.files, p.log.files, c);
      var n := InSomeDiff(p, c);
    }
  }

  lemma ReachedInv(m: Machine)
    requires m.Valid() && m.documented && Pipeline.Inv(m.start)
    ensures Pipeline.Inv(m.s)
  {
    hide Pipeline.Inv, Leads, Pipeline.Run, Pipeline.IsRun;
    Pipeline.RunKeeps(m.start, m.actions);
  }

  /** The first three commands: every transaction with inserted versions is confirmed and logged. */
  method LogAll(m: Machine)
    requires m.Valid() && LogDir.Inv(m.s.log)
    requires Idle(m.s.log) && Settled(m.s.log.files) && NotBackwards(m.s.log)
    modifies m
    ensures m.Valid() && m.documented == old(m.documented)
    ensures m.s == old(m.s).(log := AfterLogging(old(m.s.log))) && AllConfirmed(m.s.log) && AllLogged(m.s.log)
    ensures |Pipeline.LogList(m.s.log.files)| <= |Pipeline.LogList(old(m.s.log.files))| + 1
  {
    hide Leads, Pipeline.Run, Pipeline.IsRun, NewestLog, AfterGetLog, Settled, AllConfirmed, AllLogged, Sound, NoLoss,
         HeldUpTo, Pipeline.LogList;
    ghost var l := m.s.log;
    Catchup(m);
    AllConfirmedThen(l);
    OneMoreLog(m.s.log);
    IdleAfterGetLog(m.s.log);
    GetLog(m);
    Catchup(m);
    ConfirmedIsLogged(m.s.log);
  }

  lemma IdleAfterGetLog(l: LogDir.State)
    requires Idle(l)
    ensures Idle(AfterGetLog(l)) && AfterGetLog(l).wal == l.wal
  {
  }

  /**
   The pass, with create-diff called until it has used up the log files; when nothing was left over
   from earlier passes one call is enough. Unless a diff before the last one gets the epoch as its
   time stamp, every transaction with inserted versions is confirmed and in a diff afterwards.
   */
  method Pass(m: Machine, limits: seq<nat>, timestamps: seq<Timestamp>) returns (published: seq<seq<nat>>, stopped: bool)
    requires m.Valid() && m.documented && Pipeline.Inv(m.start) && LogDir.Inv(m.s.log)
    requires Idle(m.s.log) && Settled(m.s.log.files) && NotBackwards(m.s.log)
    requires RepeatedRuns.Ready(m.s, |limits|) && Pipeline.Readable(m.s.seen.top)
    requires |timestamps| == |limits| > |Pipeline.LogList(m.s.log.files)|
    modifies m
    ensures m.Valid() && m.documented && m.s.log.wal == old(m.s.log.wal) && AllConfirmed(m.s.log)
    ensures (forall i :: 0 <= i < |timestamps| - 1 ==> timestamps[i] != EPOCH) ==> !stopped
    ensures !stopped ==>
              && Pipeline.LogList(m.s.log.files) == []
              && forall c :: c in m.s.log.wal && c.objs != [] ==> exists n :: ExactlyOnce.InDiff(m.s, n, c)
  {
    hide Pipeline.Inv, LogDir.Inv, Leads, Pipeline.Run, Pipeline.IsRun, NewestLog, AfterGetLog, Settled, Sound,
         Pipeline.LogList, ExactlyOnce.InDiff, EndToEnd.FilesHaveObjects, RepeatedRuns.Flatten,
         RepeatedRuns.NumberedFrom, RepeatedRuns.FilesStay, AllLogged;
    ghost var l := m.s.log;
    LogAll(m);
    ReachedInv(m);
    EndToEnd.InvHasObjects(m.s);
    WalKept(l);
    ghost var logged := m.s.log;
    published, stopped := RepeatedRuns.Drain(m, limits, timestamps);
    ReachedInv(m);
    if !stopped {
      AllInDiffs(m.s, logged);
    }
  }

  lemma OwnCatchupConfirms(l: LogDir.State)
    requires Sound(l)
    ensures AllConfirmed(AfterOwnCatchup(l)) && AfterOwnCatchup(l).wal == l.wal
    ensures AfterOwnCatchup(l).files == AfterGetLog(l).files
    ensures After(l.wal, l.confirmed) != [] ==> AfterOwnCatchup(l).confirmed == LastLsn(l.wal)
  {
    LastIsMax(l.wal);
    var data := After(l.wal, l.confirmed);
    if data == [] {
      NothingSeen(l);
      EmptyRest(l);
    } else {
      assert data[|data| - 1] == l.wal[|l.wal| - 1];
    }
    hide Acked, HasActualData, After, Increasing, GetLogOk, CatchupOk, Exclusive, FileOk;
  }

  /**
   The shorter pass: get-log with `--catchup`, then create-diff. It does not look at the log files that
   are there already, so nothing is asked of them.
   */
  method ShortPass(m: Machine, limits: seq<nat>, timestamps: seq<Timestamp>)
    returns (published: seq<seq<nat>>, stopped: bool)
    requires m.Valid() && m.documented && Pipeline.Inv(m.start) && LogDir.Inv(m.s.log) && Idle(m.s.log)
    requires RepeatedRuns.Ready(m.s, |limits|) && Pipeline.Readable(m.s.seen.top)
    requires |timestamps| == |limits| > |Pipeline.LogList(m.s.log.files)|
    modifies m
    ensures m.Valid() && m.documented && m.s.log.wal == old(m.s.log.wal) && AllConfirmed(m.s.log)
    ensures (forall i :: 0 <= i < |timestamps| - 1 ==> timestamps[i] != EPOCH) ==> !stopped
    ensures !stopped ==>
              && Pipeline.LogList(m.s.log.files) == []
              && forall c :: c in m.s.log.wal && c.objs != [] ==> exists n :: ExactlyOnce.InDiff(m.s, n, c)
  {
    hide Pipeline.Inv, Leads, Pipeline.Run, Pipeline.IsRun, NewestLog, AfterGetLog, AfterOwnCatchup, Sound, NoLoss;
    hide HeldUpTo, Pipeline.LogList, ExactlyOnce.InDiff, EndToEnd.FilesHaveObjects, RepeatedRuns.Flatten;
    hide RepeatedRuns.NumberedFrom, RepeatedRuns.FilesStay, AllLogged, AllConfirmed, After, LastLsn;
    OwnCatchupConfirms(m.s.log);
    OneMoreLog(m.s.log);
    GetLogWithCatchup(m);
    ConfirmedIsLogged(m.s.log);
    ReachedInv(m);
    EndToEnd.InvHasObjects(m.s);
    ghost var logged := m.s.log;
    published, stopped := RepeatedRuns.Drain(m, limits, timestamps);
    SameConfirmed(logged, m.s.log);
    ReachedInv(m);
    if !stopped {
      AllInDiffs(m.s, logged);
    }
  }

  lemma SameConfirmed(l: LogDir.State, l': LogDir.State)
    requires AllConfirmed(l) && l'.wal == l.wal && l'.confirmed == l.confirmed
    ensures AllConfirmed(l')
  {
  }

  lemma ScriptState(c: Cycle.CycleState, actions: seq<Cycle.CycleAction>)
    requires Cycle.Init(c) && ExactlyOnce.IsRun(c, actions)
    ensures var p := ExactlyOnce.Run(c, actions).p; Pipeline.Inv(p) && LogDir.Inv(p.log)
    ensures var l := ExactlyOnce.Run(c, actions).p.log; NotBackwards(l) <==> !SlotOrder.NewestIsDone(l.files)
  {
    Cycle.InitInv(c);
    ExactlyOnce.RunKeeps(c, actions);
    SlotOrder.BackwardsInRuns(c, actions);
    hide Pipeline.Inv, LogDir.Inv, Cycle.Init, Cycle.LogOk, Cycle.ToolsOk, Cycle.PhaseOk, Cycle.PublishedOk,
         SlotOrder.NewestIsDone, NewestLog, ExactlyOnce.IsRun, ExactlyOnce.Run;
  }

  /**
   The same from every state that the script can reach, in which nobody is running, nothing was left
   behind that keeps a program from its work, and the newest log file is not done before an older one.
   */
  method PassReachable(
      m: Machine, limits: seq<nat>, timestamps: seq<Timestamp>, ghost c: Cycle.CycleState,
      ghost actions: seq<Cycle.CycleAction>)
    returns (published: seq<seq<nat>>, stopped: bool)
    requires Cycle.Init(c) && ExactlyOnce.IsRun(c, actions) && m.s == m.start == ExactlyOnce.Run(c, actions).p
    requires m.Valid() && m.documented
    requires Idle(m.s.log) && Settled(m.s.log.files) && !SlotOrder.NewestIsDone(m.s.log.files)
    requires RepeatedRuns.Ready(m.s, |limits|) && Pipeline.Readable(m.s.seen.top)
    requires |timestamps| == |limits| > |Pipeline.LogList(m.s.log.files)|
    modifies m
    ensures m.Valid() && m.documented && m.s.log.wal == old(m.s.log.wal) && AllConfirmed(m.s.log)
    ensures (forall i :: 0 <= i < |timestamps| - 1 ==> timestamps[i] != EPOCH) ==> !stopped
    ensures !stopped ==>
              && Pipeline.LogList(m.s.log.files) == []
              && forall c :: c in m.s.log.wal && c.objs != [] ==> exists n :: ExactlyOnce.InDiff(m.s, n, c)
  {
    hide Pipeline.Inv, LogDir.Inv, Cycle.Init, ExactlyOnce.IsRun, ExactlyOnce.Run, Leads, Pipeline.Run, Pipeline.IsRun,
         Pipeline.LogList, NotBackwards, SlotOrder.NewestIsDone, ExactlyOnce.InDiff, Settled, AllConfirmed;
    ScriptState(c, actions);
    published, stopped := Pass(m, limits, timestamps);
  }

  lemma WalKept(l: LogDir.State)
    ensures AfterLogging(l).wal == l.wal
  {
    hide After, NewestLog, HasActualData;
  }
}
