/**
 The documented cycle: catchup, get-log, catchup, create-diff, run by one shell script that stops at
 the first failure and is started again from the top. Transactions commit and crashes happen at any
 time. In this order every transaction is logged exactly once and published at most once.
 */
module Cycle {
  import opened OsmObjects
  import opened LogDir
  import Pipeline

  /** The command the script is at. */
  datatype Phase = AtFirstCatchup | AtGetLog | AtSecondCatchup | AtCreateDiff

  datatype CycleState = CycleState(p: Pipeline.State, phase: Phase)

  /** A step of the pipeline, or a command that cannot take its PID file: the script ends. */
  datatype CycleAction = Do(a: Pipeline.Action) | StartFails

  predicate IsGetLog(a: LogDir.Action) {
    || a.GetStart? || a.Peek? || a.SkipWrite? || a.WriteNew? || a.RenameNew? || a.SyncNew?
    || a.GetExit? || a.GetFail? || a.GetKill?
  }

  predicate IsCatchup(a: LogDir.Action) {
    a.CatchupStart? || a.Scan? || a.AdvanceToNewest? || a.CatchupExit? || a.CatchupFail? || a.CatchupKill?
  }

  /** Only the command the script is at takes steps; get-log is called without `--catchup`. */
  predicate Scheduled(phase: Phase, a: Pipeline.Action) {
    match a
    case LogAction(l) =>
      || l.CommitTxn?
      || (IsGetLog(l) && phase == AtGetLog)
      || (IsCatchup(l) && (phase == AtFirstCatchup || phase == AtSecondCatchup))
    case HostCrash(_, _, _, _, _, _) => true
    case _ => phase == AtCreateDiff
  }

  predicate AllIdle(p: Pipeline.State) {
    p.log.getLog == GetIdle && p.log.catchup == CatchupIdle && p.diff.pc == Pipeline.IDLE
  }

  /** The steps that the script can take. */
  predicate Possible(c: CycleState, a: CycleAction) {
    match a
    case Do(pa) => Scheduled(c.phase, pa) && Pipeline.Possible(c.p, pa) && Pipeline.Documented(c.p, pa)
    case StartFails => AllIdle(c.p)
  }

  /** The steps of runs in which catchup confirms no log file that a failed directory sync left behind. */
  predicate Enabled(c: CycleState, a: CycleAction): (e: bool)
    ensures e ==> Possible(c, a)
  {
    match a
    case Do(pa) =>
      Scheduled(c.phase, pa) && Pipeline.Enabled(c.p, pa) && (pa.LogAction? ==> LogDir.Enabled(c.p.log, pa.a))
    case StartFails => AllIdle(c.p)
  }

  function NextPhase(phase: Phase, a: Pipeline.Action): Phase {
    match a
    case LogAction(l) =>
      if l.GetExit? then AtSecondCatchup
      else if l.CatchupExit? then if phase == AtFirstCatchup then AtGetLog else AtCreateDiff
      else if l.GetFail? || l.GetKill? || l.CatchupFail? || l.CatchupKill? then AtFirstCatchup
      else phase
    case HostCrash(_, _, _, _, _, _) => AtFirstCatchup
    case NothingToDo(_) => AtFirstCatchup
    case DryRunExit => AtFirstCatchup
    case Exit => AtFirstCatchup
    case Fail => AtFirstCatchup
    case Kill => AtFirstCatchup
    case _ => phase
  }

  function Step(c: CycleState, a: CycleAction): CycleState
    requires Possible(c, a)
  {
    match a
    case Do(pa) => CycleState(Pipeline.Step(c.p, pa), NextPhase(c.phase, pa))
    case StartFails => c.(phase := AtFirstCatchup)
  }

  predicate Init(c: CycleState) {
    Pipeline.Init(c.p) && c.phase == AtFirstCatchup
  }

  /** The steps with which a command fails or the host goes down; the script ends there and is started again. */
  predicate EndsScript(a: CycleAction) {
    match a
    case StartFails => true
    case Do(LogAction(l)) => l.GetFail? || l.GetKill? || l.CatchupFail? || l.CatchupKill?
    case Do(pa) => pa.Fail? || pa.Kill? || pa.HostCrash?
  }

  /** create-diff comes to its end. */
  predicate DiffEnds(a: CycleAction) {
    a.Do? && (a.a.NothingToDo? || a.a.DryRunExit? || a.a.Exit?)
  }

  /**
   Each command starts only after the one before it has ended without failure, and in its turn takes all
   the steps; after a failure and at the end the script begins again with the first one.
   */
  lemma PhaseMoves(c: CycleState, a: CycleAction)
    requires Possible(c, a)
    ensures var from, to := c.phase, Step(c, a).phase;
            && (EndsScript(a) || DiffEnds(a) ==> to == AtFirstCatchup)
            && (to == AtFirstCatchup && from != AtFirstCatchup ==> EndsScript(a) || DiffEnds(a))
            && (to == AtGetLog && from != AtGetLog <==>
                  from == AtFirstCatchup && a == Do(Pipeline.LogAction(CatchupExit)))
            && (to == AtSecondCatchup && from != AtSecondCatchup <==>
                  from == AtGetLog && a == Do(Pipeline.LogAction(GetExit)))
            && (to == AtCreateDiff && from != AtCreateDiff <==>
                  from == AtSecondCatchup && a == Do(Pipeline.LogAction(CatchupExit)))
    ensures a.Do? && a.a.LogAction? && c.phase == AtCreateDiff ==> a.a.a.CommitTxn?
    ensures a.Do? && !a.a.LogAction? && !a.a.HostCrash? ==> c.phase == AtCreateDiff
    ensures a != Do(Pipeline.LogAction(AdvanceOwn))
  {
    hide LogDir.Possible, LogDir.Step, Pipeline.Possible, Pipeline.Step;
  }

  // --- The transactions in the log files -------------------------------------------------------------

  /** The contents of all `.log` and `.log.done` files, one after the other. */
  function Logged(files: seq<LogFile>): seq<Commit> {
    if files == [] then []
    else
      var file := files[|files| - 1];
      Logged(files[..|files| - 1]) + if file.seen.Live() then file.data else []
  }

  lemma {:induction false} LoggedSame(files: seq<LogFile>, files': seq<LogFile>)
    requires |files| == |files'|
    requires forall i :: 0 <= i < |files| ==>
                           files'[i].data == files[i].data && files'[i].seen.Live() == files[i].seen.Live()
    ensures Logged(files') == Logged(files)
  {
    if files != [] {
      LoggedSame(files[..|files| - 1], files'[..|files| - 1]);
    }
  }

  /** Files behind the last live one do not matter. */
  lemma {:induction false} LoggedUpTo(files: seq<LogFile>, t: nat)
    requires t <= |files|
    requires forall i :: t <= i < |files| ==> !files[i].seen.Live()
    ensures Logged(files) == Logged(files[..t])
  {
    if t < |files| {
      var rest := files[..|files| - 1];
      LoggedUpTo(rest, t);
      assert rest[..t] == files[..t];
    } else {
      assert files[..t] == files;
    }
  }

  lemma LoggedLast(files: seq<LogFile>, t: nat)
    requires t < |files| && files[t].seen.Live()
    requires forall i :: t < i < |files| ==> !files[i].seen.Live()
    ensures Logged(files) == Logged(files[..t]) + files[t].data
  {
    LoggedUpTo(files, t + 1);
    assert files[..t + 1][..t] == files[..t];
  }

  /** Each live file's data is a piece of what is logged, behind that of the files before it. */
  lemma {:induction false} LoggedPiece(files: seq<LogFile>, i: nat)
    requires i < |files| && files[i].seen.Live()
    ensures var from := |Logged(files[..i])|;
            from + |files[i].data| <= |Logged(files)|
            && Logged(files)[..from] == Logged(files[..i])
            && Logged(files)[from..from + |files[i].data|] == files[i].data
  {
    var n := |files| - 1;
    var rest := files[..n];
    if i < n {
      LoggedPiece(rest, i);
      assert rest[..i] == files[..i];
      var from, size := |Logged(files[..i])|, |files[i].data|;
      assert Logged(files)[..|Logged(rest)|] == Logged(rest);
      assert Logged(files)[..from] == Logged(rest)[..from];
      assert Logged(files)[from..from + size] == Logged(rest)[from..from + size];
    }
  }

  lemma {:induction false} LoggedMonotone(files: seq<LogFile>, i: nat, j: nat)
    requires i < j <= |files|
    ensures |Logged(files[..i])| + (if files[i].seen.Live() then |files[i].data| else 0) <= |Logged(files[..j])|
  {
    assert files[..j][..j - 1] == files[..j - 1];
    if i < j - 1 {
      LoggedMonotone(files, i, j - 1);
    }
  }

  /** Everything logged is in some live file. */
  lemma {:induction false} LoggedInFile(files: seq<LogFile>, c: Commit) returns (i: nat)
    requires c in Logged(files)
    ensures i < |files| && files[i].seen.Live() && c in files[i].data
  {
    var rest := files[..|files| - 1];
    if c in Logged(rest) {
      i := LoggedInFile(rest, c);
    } else {
      i := |files| - 1;
    }
  }

  // --- Counting what the slot has confirmed ----------------------------------------------------------

  function LoggedCount(l: LogDir.State): nat {
    |Logged(l.files)|
  }

  function AckedCount(l: LogDir.State): nat {
    Acked(l.wal, l.confirmed)
  }

  // --- What the cycle keeps -----------------------------------------------------------------------------

  predicate IsLastLive(files: seq<LogFile>, t: nat) {
    t < |files| && files[t].seen.Live() && forall i :: t < i < |files| ==> !files[i].seen.Live()
  }

  /** The newest log file, still `.log`, is all that is logged but not confirmed. */
  predicate IsTail(l: LogDir.State, t: nat) {
    && IsLastLive(l.files, t) && l.files[t].seen == Log
    && LoggedCount(l) == AckedCount(l) + |l.files[t].data|
  }

  /** The live files hold the commits in order without gap or overlap, and the slot is not ahead of them. */
  ghost predicate LogOk(l: LogDir.State) {
    && LoggedCount(l) <= |l.wal| && Logged(l.files) == l.wal[..LoggedCount(l)]
    && AckedCount(l) <= LoggedCount(l)
    && l.confirmed == LastLsn(l.wal[..AckedCount(l)])
    && (AckedCount(l) < LoggedCount(l) ==> exists t :: IsTail(l, t))
      // only that newest file may still be lost in a crash
    && (forall i :: 0 <= i < |l.files| && l.files[i].seen.Live() && !l.files[i].durable.Live() ==>
          AckedCount(l) < LoggedCount(l) && IsLastLive(l.files, i))
      // each live file starts where the one before it ends
    && (forall i :: 0 <= i < |l.files| && l.files[i].seen.Live() ==> l.files[i].start == LastLsn(Logged(l.files[..i])))
  }

  predicate CaughtUp(l: LogDir.State) {
    AckedCount(l) == LoggedCount(l)
  }

  predicate ToolsOk(c: CycleState) {
    var l := c.p.log;
    && (c.phase != AtGetLog ==> l.getLog == GetIdle)
    && (c.phase == AtGetLog || c.phase == AtCreateDiff ==> l.catchup == CatchupIdle)
    && (c.phase != AtCreateDiff ==> c.p.diff.pc == Pipeline.IDLE)
  }

  predicate PhaseOk(c: CycleState) {
    var l := c.p.log;
    && (c.phase == AtCreateDiff ==> CaughtUp(l))
    && (c.phase == AtGetLog && !l.getLog.GetRenamed? && !l.getLog.GetLogged? ==> CaughtUp(l))
    && (l.getLog.GetPeeked? || l.getLog.GetWritten? ==> IsNext(l, l.getLog.data))
    && (l.catchup.CatchupScanned? ==> l.catchup.target == NewestLog(l.files))
    && (l.catchup == CatchupDone ==> CaughtUp(l))
  }

  /** The data are the commits right behind the confirmed ones. */
  predicate IsNext(l: LogDir.State, data: seq<Commit>) {
    var n := AckedCount(l);
    data != [] && n + |data| <= |l.wal| && data == l.wal[n..n + |data|]
  }

  /** What is published stays in the log directory. */
  ghost predicate PublishedOk(p: Pipeline.State) {
    forall n, i {:trigger i in p.seen.osc[n]} :: n in p.seen.osc && i in p.seen.osc[n] ==>
                     i < |p.log.files| && p.log.files[i].seen.Live() && p.log.files[i].durable.Live()
  }

  ghost predicate Inv(c: CycleState) {
    && Pipeline.Inv(c.p) && LogDir.Inv(c.p.log)
    && ToolsOk(c) && LogOk(c.p.log) && PhaseOk(c) && PublishedOk(c.p)
  }

  // --- The log directory, effect by effect -----------------------------------------------------------------

  lemma LogOkFrame(l: LogDir.State, l': LogDir.State)
    requires LogOk(l) && l'.wal == l.wal && l'.confirmed == l.confirmed && l'.files == l.files
    ensures LogOk(l')
    ensures LoggedCount(l') == LoggedCount(l) && AckedCount(l') == AckedCount(l)
  {
    hide Logged, Acked, LastLsn;
    if AckedCount(l) < LoggedCount(l) {
      var t :| IsTail(l, t);
      assert IsTail(l', t);
    }
  }

  /** Changes that neither create nor lose a live file. */
  lemma SameLiveFiles(l: LogDir.State, l': LogDir.State)
    requires LogOk(l) && l'.wal == l.wal && l'.confirmed == l.confirmed && |l'.files| == |l.files|
    requires forall i :: 0 <= i < |l.files| ==>
                           && l'.files[i].data == l.files[i].data && l'.files[i].start == l.files[i].start
                           && l'.files[i].seen.Live() == l.files[i].seen.Live()
                           && (l.files[i].durable.Live() ==> l'.files[i].durable.Live())
    requires CaughtUp(l) || forall i :: 0 <= i < |l.files| ==> (l.files[i].seen == Log ==> l'.files[i].seen == Log)
    ensures LogOk(l')
    ensures LoggedCount(l') == LoggedCount(l) && AckedCount(l') == AckedCount(l)
  {
    hide Logged, Acked, LastLsn;
    LoggedSame(l.files, l'.files);
    if AckedCount(l) < LoggedCount(l) {
      var t :| IsTail(l, t);
      assert IsTail(l', t);
    }
    forall i | 0 <= i < |l'.files| && l'.files[i].seen.Live()
      ensures l'.files[i].start == LastLsn(Logged(l'.files[..i]))
    {
      LoggedSame(l.files[..i], l'.files[..i]);
    }
  }

  /** The parts of the log directory's invariant that are used here. */
  ghost predicate Basic(l: LogDir.State) {
    && Increasing(l.wal) && l.confirmed <= LastLsn(l.wal)
    && forall i :: 0 <= i < |l.files| ==> l.files[i].data != [] && 0 < l.files[i].Lsn()
  }

  lemma InvIsBasic(l: LogDir.State)
    requires LogDir.Inv(l)
    ensures Basic(l)
  {
    assert forall i :: 0 <= i < |l.files| ==> FileOk(l, l.files[i]);
  }

  lemma AckedAppend(wal: seq<Commit>, c: Commit, confirmed: nat)
    requires Increasing(wal) && confirmed <= LastLsn(wal) < c.lsn
    ensures Acked(wal + [c], confirmed) == Acked(wal, confirmed)
  {
    hide Acked;
    LastIsMax(wal);
    var n := Acked(wal, confirmed);
    assert n > 0 ==> (wal + [c])[n - 1] == wal[n - 1];
    AckedIs(wal + [c], confirmed, n);
  }

  lemma CommitLog(l: LogDir.State, c: Commit)
    requires Basic(l) && LogOk(l) && c.lsn > LastLsn(l.wal)
    ensures var l' := l.(wal := l.wal + [c]);
            LogOk(l') && LoggedCount(l') == LoggedCount(l) && AckedCount(l') == AckedCount(l)
  {
    AckedAppend(l.wal, c, l.confirmed);
    hide Logged, Acked, Increasing, LastLsn;
    var l' := l.(wal := l.wal + [c]);
    var n, m := AckedCount(l), LoggedCount(l);
    assert l'.wal[..n] == l.wal[..n] && l'.wal[..m] == l.wal[..m];
    if n < m {
      var t :| IsTail(l, t);
      assert IsTail(l', t);
    }
  }

  lemma WriteNewLog(l: LogDir.State, file: LogFile)
    requires LogOk(l) && !file.seen.Live()
    ensures var l' := l.(files := l.files + [file]);
            LogOk(l') && LoggedCount(l') == LoggedCount(l) && AckedCount(l') == AckedCount(l)
  {
    hide Acked, LastLsn;
    var l' := l.(files := l.files + [file]);
    assert l'.files[..|l.files|] == l.files;
    assert Logged(l'.files) == Logged(l.files);
    if AckedCount(l) < LoggedCount(l) {
      var t :| IsTail(l, t);
      assert IsTail(l', t);
    }
    assert forall i :: 0 <= i < |l.files| ==> l'.files[..i] == l.files[..i];
  }

  lemma RenameIs(l: LogDir.State)
    requires LogDir.Inv(l) && LogDir.Enabled(l, RenameNew)
    ensures l.getLog.GetWritten? && l.files != [] && l.getLog.start == l.confirmed
    ensures var last := l.files[|l.files| - 1];
            && last.start == l.getLog.start && last.data == l.getLog.data && last.seen == New
            && LogDir.Step(l, RenameNew)
               == l.(getLog := GetRenamed(l.getLog.start, l.getLog.data),
                     files := l.files[..|l.files| - 1] + [last.(seen := Log)])
  {
    hide LogDir.FileOk, LogDir.CatchupOk, LogDir.NoLoss, LogDir.Exclusive, LogDir.Settled, LogDir.Increasing;
    assert l.files == l.files[..|l.files| - 1] + [l.files[|l.files| - 1]];
  }

  lemma LoggedAppend(files: seq<LogFile>, file: LogFile)
    ensures Logged(files + [file]) == Logged(files) + if file.seen.Live() then file.data else []
  {
    assert (files + [file])[..|files|] == files;
  }

  /** A last file that gets live holds the commits right behind those logged. */
  lemma GetsLive(l: LogDir.State, l': LogDir.State, rest: seq<LogFile>, last: LogFile)
    requires LogOk(l) && CaughtUp(l) && l'.wal == l.wal && l'.confirmed == l.confirmed
    requires l.files == rest + [last] && !last.seen.Live() && l'.files == rest + [last.(seen := Log)]
    requires IsNext(l, last.data) && last.start == l.confirmed
    ensures LogOk(l') && AckedCount(l') == AckedCount(l)
  {
    hide Acked, LastLsn, Logged;
    LoggedAppend(rest, last);
    LoggedAppend(rest, last.(seen := Log));
    var t := |rest|;
    var n := AckedCount(l);
    assert Logged(rest) + [] == Logged(rest);
    assert Logged(l'.files) == l.wal[..n] + last.data == l.wal[..n + |last.data|];
    assert l'.files[..t] == rest;
    assert IsTail(l', t);
    assert forall i :: 0 <= i < t ==> l'.files[i] == l.files[i] && l'.files[..i] == l.files[..i];
  }

  lemma RenameLog(l: LogDir.State)
    requires LogDir.Enabled(l, RenameNew) && l.getLog.GetWritten? && IsNext(l, l.getLog.data)
    requires LogDir.Inv(l) && LogOk(l) && CaughtUp(l)
    ensures var l' := LogDir.Step(l, RenameNew); LogOk(l') && AckedCount(l') == AckedCount(l)
  {
    hide Acked, LogDir.Inv, LogDir.Sound, LogDir.Step, LogDir.Possible, LogDir.Enabled, LastLsn, Logged, LogOk, IsNext,
         CaughtUp, AckedCount;
    RenameIs(l);
    var t := |l.files| - 1;
    assert l.files == l.files[..t] + [l.files[t]];
    GetsLive(l, LogDir.Step(l, RenameNew), l.files[..t], l.files[t]);
  }

  lemma LiveFileIn(l: LogDir.State, i: nat)
    requires Basic(l) && LogOk(l) && i < |l.files| && l.files[i].seen.Live()
    ensures var end := |Logged(l.files[..i])| + |l.files[i].data|;
            0 < end <= LoggedCount(l) && l.files[i].Lsn() == l.wal[end - 1].lsn
  {
    hide Acked, Logged, Increasing;
    LoggedPiece(l.files, i);
    var from, size := |Logged(l.files[..i])|, |l.files[i].data|;
    assert l.files[i].data[size - 1] == Logged(l.files)[from + size - 1] == l.wal[from + size - 1];
  }

  /** A `.log` or `.log.done` file ends at a transaction among those logged, and the last one at the last. */
  lemma LiveFileEnds(l: LogDir.State, i: nat)
    requires Basic(l) && LogOk(l) && i < |l.files| && l.files[i].seen.Live()
    ensures LoggedCount(l) > 0
    ensures l.files[i].Lsn() <= l.wal[LoggedCount(l) - 1].lsn
    ensures IsLastLive(l.files, i) <==> l.files[i].Lsn() == l.wal[LoggedCount(l) - 1].lsn
  {
    LiveFileIn(l, i);
    hide Acked, Logged, LogOk;
    if IsLastLive(l.files, i) {
      LoggedLast(l.files, i);
    } else {
      var j :| i < j < |l.files| && l.files[j].seen.Live();
      LiveFileIn(l, j);
      LoggedMonotone(l.files, i, j);
    }
  }

  /** What catchup asks for, when it does not go backwards, is the last transaction logged. */
  lemma TargetIs(l: LogDir.State)
    requires Basic(l) && LogOk(l) && NewestLog(l.files) != 0 && NewestLog(l.files) >= l.confirmed
    ensures LoggedCount(l) > 0 && NewestLog(l.files) == l.wal[LoggedCount(l) - 1].lsn
  {
    hide Logged, NewestLog, Acked, Basic, LogOk;
    NewestLogIsNewest(l.files);
    var i :| 0 <= i < |l.files| && l.files[i].seen == Log && l.files[i].Lsn() == NewestLog(l.files);
    LiveFileEnds(l, i);
    if CaughtUp(l) {
      ConfirmedIsLast(l);
    } else {
      var t: nat := TailOf(l);
      LiveFileEnds(l, t);
    }
  }

  lemma TailOf(l: LogDir.State) returns (t: nat)
    requires LogOk(l) && !CaughtUp(l)
    ensures IsTail(l, t)
  {
    hide Logged, Acked;
    t :| IsTail(l, t);
  }

  lemma ConfirmedIsLast(l: LogDir.State)
    requires LogOk(l) && CaughtUp(l) && LoggedCount(l) > 0
    ensures l.confirmed == l.wal[LoggedCount(l) - 1].lsn
  {
    hide Logged, Acked;
  }

  lemma Advanced(l: LogDir.State, l': LogDir.State)
    requires Basic(l) && LogOk(l) && LoggedCount(l) > 0 && Settled(l.files)
    requires l'.wal == l.wal && l'.files == l.files && l'.confirmed == l.wal[LoggedCount(l) - 1].lsn
    ensures LogOk(l') && CaughtUp(l') && LoggedCount(l') == LoggedCount(l)
  {
    hide Logged, Acked;
    AckedIs(l.wal, l'.confirmed, LoggedCount(l));
  }

  lemma AdvanceIs(l: LogDir.State)
    requires LogDir.Inv(l) && LogDir.Enabled(l, AdvanceToNewest)
    ensures l.catchup.CatchupScanned? && l.catchup.target != 0 && l.catchup.target >= l.confirmed
    ensures DurableFile(l.files, l.catchup.target)
    ensures LogDir.Step(l, AdvanceToNewest) == l.(catchup := CatchupDone, confirmed := l.catchup.target)
  {
    hide LogDir.Inv, LogDir.Sound, LogDir.DurableFile;
  }

  /** With the newest file durable all are. */
  lemma NewestDurable(l: LogDir.State)
    requires Basic(l) && LogOk(l) && LoggedCount(l) > 0 && DurableFile(l.files, l.wal[LoggedCount(l) - 1].lsn)
    ensures Settled(l.files)
  {
    var i: nat :| i < |l.files| && l.files[i].seen.Live() && l.files[i].durable.Live()
                  && l.files[i].Lsn() == l.wal[LoggedCount(l) - 1].lsn;
    LiveFileEnds(l, i);
    hide Logged, Acked, LastLsn, Basic;
  }

  lemma AdvanceLog(l: LogDir.State)
    requires LogDir.Enabled(l, AdvanceToNewest) && l.catchup == CatchupScanned(NewestLog(l.files))
    requires LogDir.Inv(l) && LogOk(l)
    ensures var l' := LogDir.Step(l, AdvanceToNewest);
            LogOk(l') && CaughtUp(l') && LoggedCount(l') == LoggedCount(l)
  {
    hide LogDir.Inv, LogDir.Sound, LogDir.Step, LogDir.Possible, LogDir.Enabled, LogOk, NewestLog, Basic, Logged,
         Acked, DurableFile, Settled;
    InvIsBasic(l);
    AdvanceIs(l);
    TargetIs(l);
    NewestDurable(l);
    Advanced(l, LogDir.Step(l, AdvanceToNewest));
  }

  lemma CrashFacts(l: LogDir.State, places: seq<Place>, pidLeft: bool)
    requires LogDir.Inv(l) && LogDir.Enabled(l, Crash(places, pidLeft))
    ensures var l' := LogDir.Step(l, Crash(places, pidLeft));
            && l'.wal == l.wal && l'.confirmed == l.confirmed && |l'.files| == |l.files|
            && forall i :: 0 <= i < |l.files| ==>
                             && l'.files[i].data == l.files[i].data && l'.files[i].start == l.files[i].start
                             && l'.files[i].durable == l'.files[i].seen
                             && (l'.files[i].seen.Live() ==> l.files[i].seen.Live())
                             && (l.files[i].durable.Live() ==> l'.files[i].seen.Live())
                             && (l.files[i].seen == Log && l'.files[i].seen.Live() ==> l'.files[i].seen == Log)
                             && (l.files[i].durable.Live() ==> l.files[i].seen.Live())
  {
    hide LogDir.GetLogOk, LogDir.CatchupOk, LogDir.NoLoss, LogDir.Exclusive, LogDir.Complete, LogDir.Increasing;
    assert forall i :: 0 <= i < |l.files| ==> FileOk(l, l.files[i]);
  }

  /** A crash can take away at most the newest file, and only while the slot is still behind it. */
  lemma CrashLog(l: LogDir.State, places: seq<Place>, pidLeft: bool)
    requires LogDir.Inv(l) && LogOk(l) && LogDir.Enabled(l, Crash(places, pidLeft))
    ensures LogOk(LogDir.Step(l, Crash(places, pidLeft)))
  {
    CrashFacts(l, places, pidLeft);
    hide LogDir.Inv, LogDir.Sound, LogDir.Step, LogDir.Possible, LogDir.Enabled, Acked, Logged, LastLsn;
    var l' := LogDir.Step(l, Crash(places, pidLeft));
    if forall i :: 0 <= i < |l.files| ==> l'.files[i].seen.Live() == l.files[i].seen.Live() {
      SameLiveFiles(l, l');
    } else {
      var i :| 0 <= i < |l.files| && l'.files[i].seen.Live() != l.files[i].seen.Live();
      DropLast(l, l', i);
    }
  }

  lemma DropLast(l: LogDir.State, l': LogDir.State, t: nat)
    requires LogOk(l) && l'.wal == l.wal && l'.confirmed == l.confirmed && |l'.files| == |l.files|
    requires AckedCount(l) < LoggedCount(l) && IsLastLive(l.files, t) && !l'.files[t].seen.Live()
    requires forall i :: 0 <= i < |l.files| ==>
                           && l'.files[i].data == l.files[i].data && l'.files[i].start == l.files[i].start
                           && l'.files[i].durable == l'.files[i].seen
                           && (i != t ==> l'.files[i].seen.Live() == l.files[i].seen.Live())
    ensures LogOk(l')
  {
    hide Acked, LastLsn, Logged;
    var u :| IsTail(l, u);
    assert u == t;
    LoggedLast(l.files, t);
    LoggedUpTo(l'.files, t);
    LoggedSame(l.files[..t], l'.files[..t]);
    assert Logged(l'.files) == Logged(l.files)[..AckedCount(l)];
    forall i | 0 <= i < |l'.files| && l'.files[i].seen.Live()
      ensures l'.files[i].start == LastLsn(Logged(l'.files[..i]))
    {
      LoggedSame(l.files[..i], l'.files[..i]);
    }
  }

  // --- Every step of the cycle --------------------------------------------------------------------------------

  /** What a step of get-log, catchup or the database means for the parts of the state. */
  lemma LogStepParts(c: CycleState, l: LogDir.Action)
    requires Inv(c) && Enabled(c, Do(Pipeline.LogAction(l)))
    ensures LogDir.Inv(c.p.log) && LogDir.Enabled(c.p.log, l)
    ensures ToolsOk(c) && LogOk(c.p.log) && PhaseOk(c)
    ensures l.CommitTxn? || (IsGetLog(l) && c.phase == AtGetLog)
            || (IsCatchup(l) && (c.phase == AtFirstCatchup || c.phase == AtSecondCatchup))
    ensures var c' := Step(c, Do(Pipeline.LogAction(l)));
            && c'.p.log == LogDir.Step(c.p.log, l) && c'.p.diff == c.p.diff
            && c'.phase == NextPhase(c.phase, Pipeline.LogAction(l))
  {
    hide LogDir.Inv, LogDir.Sound, LogDir.Step, LogDir.Possible, LogDir.Enabled, LogOk, ToolsOk, PhaseOk, PublishedOk,
         Pipeline.NumberingOk, Pipeline.FilesOk;
  }

  lemma CommitIs(l: LogDir.State, commit: Commit)
    requires LogDir.Enabled(l, CommitTxn(commit))
    ensures commit.lsn > LastLsn(l.wal) && LogDir.Step(l, CommitTxn(commit)) == l.(wal := l.wal + [commit])
  {
  }

  lemma WriteNewIs(l: LogDir.State)
    requires LogDir.Enabled(l, WriteNew)
    ensures l.getLog.GetPeeked?
    ensures LogDir.Step(l, WriteNew)
            == l.(getLog := GetWritten(l.getLog.start, l.getLog.data),
                  files := l.files + [LogFile(l.getLog.start, l.getLog.data, New, Absent)])
  {
  }

  lemma SyncNewIs(l: LogDir.State)
    requires LogDir.Enabled(l, SyncNew)
    ensures l.getLog.GetRenamed?
    ensures LogDir.Step(l, SyncNew) == l.(getLog := GetLogged(LastLsn(l.getLog.data)), files := Synced(l.files))
  {
  }

  lemma CommitKeepsLog(c: CycleState, commit: Commit)
    requires Inv(c) && Enabled(c, Do(Pipeline.LogAction(CommitTxn(commit))))
    ensures var c' := Step(c, Do(Pipeline.LogAction(CommitTxn(commit)))); ToolsOk(c') && LogOk(c'.p.log) && PhaseOk(c')
  {
    hide Inv, Pipeline.Inv, LogDir.Inv, LogDir.Sound, LogOk, LoggedCount, AckedCount, Enabled, Step, PublishedOk,
         NewestLog, LogDir.Step, LogDir.Possible, LogDir.Enabled;
    LogStepParts(c, CommitTxn(commit));
    CommitIs(c.p.log, commit);
    InvIsBasic(c.p.log);
    CommitLog(c.p.log, commit);
    var l, l' := c.p.log, LogDir.Step(c.p.log, CommitTxn(commit));
    forall data | IsNext(l, data)
      ensures IsNext(l', data)
    {
      var n := AckedCount(l);
      assert l'.wal[n..n + |data|] == l.wal[n..n + |data|];
    }
  }

  lemma WriteNewKeepsLog(c: CycleState)
    requires Inv(c) && Enabled(c, Do(Pipeline.LogAction(WriteNew)))
    ensures var c' := Step(c, Do(Pipeline.LogAction(WriteNew))); ToolsOk(c') && LogOk(c'.p.log) && PhaseOk(c')
  {
    hide Inv, Pipeline.Inv, LogDir.Inv, LogDir.Sound, LogOk, LoggedCount, AckedCount, Enabled, Step, PublishedOk,
         NewestLog, LogDir.Step, LogDir.Possible, LogDir.Enabled;
    LogStepParts(c, WriteNew);
    WriteNewIs(c.p.log);
    var l := c.p.log;
    var file := LogFile(l.getLog.start, l.getLog.data, New, Absent);
    WriteNewLog(l, file);
    LogOkFrame(l.(files := l.files + [file]), LogDir.Step(l, WriteNew));
  }

  lemma RenameKeepsLog(c: CycleState)
    requires Inv(c) && Enabled(c, Do(Pipeline.LogAction(RenameNew)))
    ensures var c' := Step(c, Do(Pipeline.LogAction(RenameNew))); ToolsOk(c') && LogOk(c'.p.log) && PhaseOk(c')
  {
    hide Inv, Pipeline.Inv, LogDir.Inv, LogDir.Sound, LogOk, LoggedCount, AckedCount, Enabled, Step, PublishedOk,
         NewestLog;
    LogStepParts(c, RenameNew);
    RenameLog(c.p.log);
  }

  lemma RanksOk(l: LogDir.State)
    requires LogDir.Inv(l)
    ensures forall i :: 0 <= i < |l.files| ==> (l.files[i].durable.Live() ==> l.files[i].seen.Live())
  {
    assert forall i :: 0 <= i < |l.files| ==> FileOk(l, l.files[i]);
  }

  lemma SyncNewKeepsLog(c: CycleState)
    requires Inv(c) && Enabled(c, Do(Pipeline.LogAction(SyncNew)))
    ensures var c' := Step(c, Do(Pipeline.LogAction(SyncNew))); ToolsOk(c') && LogOk(c'.p.log) && PhaseOk(c')
  {
    hide Inv, Pipeline.Inv, LogDir.Inv, LogDir.Sound, LogOk, LoggedCount, AckedCount, Enabled, Step, PublishedOk,
         NewestLog, LogDir.Step, LogDir.Possible, LogDir.Enabled;
    LogStepParts(c, SyncNew);
    RanksOk(c.p.log);
    SyncNewIs(c.p.log);
    SameLiveFiles(c.p.log, LogDir.Step(c.p.log, SyncNew));
  }

  lemma AdvanceKeepsLog(c: CycleState)
    requires Inv(c) && Enabled(c, Do(Pipeline.LogAction(AdvanceToNewest)))
    ensures var c' := Step(c, Do(Pipeline.LogAction(AdvanceToNewest))); ToolsOk(c') && LogOk(c'.p.log) && PhaseOk(c')
  {
    hide Inv, Pipeline.Inv, LogDir.Inv, LogDir.Sound, LogOk, LoggedCount, AckedCount, Enabled, Step, PublishedOk,
         NewestLog;
    LogStepParts(c, AdvanceToNewest);
    AdvanceLog(c.p.log);
  }

  /** Without a `.log` file there is nothing that the slot does not know yet. */
  lemma NothingToConfirm(l: LogDir.State)
    requires LogDir.Inv(l) && LogOk(l)
    ensures NewestLog(l.files) == 0 ==> CaughtUp(l)
  {
    hide LogDir.GetLogOk, LogDir.CatchupOk, LogDir.NoLoss, Logged, Acked, NewestLog;
    NewestLogIsNewest(l.files);
    if AckedCount(l) < LoggedCount(l) {
      var t: nat :| IsTail(l, t);
      assert FileOk(l, l.files[t]);
    }
  }

  lemma PeekIsNext(c: CycleState, count: nat)
    requires Inv(c) && Enabled(c, Do(Pipeline.LogAction(Peek(count))))
    ensures var c' := Step(c, Do(Pipeline.LogAction(Peek(count)))); ToolsOk(c') && LogOk(c'.p.log) && PhaseOk(c')
  {
    hide Inv, Pipeline.Inv, LogDir.Inv, LogDir.Sound, LogOk, LoggedCount, AckedCount, Enabled, Step, PublishedOk,
         NewestLog;
    LogStepParts(c, Peek(count));
    LogOkFrame(c.p.log, LogDir.Step(c.p.log, Peek(count)));
    var n := AckedCount(c.p.log);
    AckedCountIs(c.p.log);
    assert After(c.p.log.wal, c.p.log.confirmed)[..count] == c.p.log.wal[n..n + count];
  }

  /** The remaining steps of get-log: nothing that counts changes. */
  lemma QuietGetLogKeepsLog(c: CycleState, l: LogDir.Action)
    requires Inv(c) && Enabled(c, Do(Pipeline.LogAction(l)))
    requires l.GetStart? || l.SkipWrite? || l.GetExit? || l.GetFail? || l.GetKill?
    ensures var c' := Step(c, Do(Pipeline.LogAction(l))); ToolsOk(c') && LogOk(c'.p.log) && PhaseOk(c')
  {
    hide Inv, Pipeline.Inv, LogDir.Inv, LogDir.Sound, LogOk, LoggedCount, AckedCount, Enabled, Step, PublishedOk,
         NewestLog, Acked, IsNext;
    LogStepParts(c, l);
    LogOkFrame(c.p.log, LogDir.Step(c.p.log, l));
  }

  lemma QuietCatchupKeepsLog(c: CycleState, l: LogDir.Action)
    requires Inv(c) && Enabled(c, Do(Pipeline.LogAction(l)))
    requires l.CatchupStart? || l.Scan? || l.CatchupExit? || l.CatchupFail? || l.CatchupKill?
    ensures var c' := Step(c, Do(Pipeline.LogAction(l))); ToolsOk(c') && LogOk(c'.p.log) && PhaseOk(c')
  {
    hide Inv, Pipeline.Inv, LogDir.Inv, LogDir.Sound, LogOk, LoggedCount, AckedCount, Enabled, Step, PublishedOk,
         NewestLog, Acked, IsNext;
    LogStepParts(c, l);
    NothingToConfirm(c.p.log);
    LogOkFrame(c.p.log, LogDir.Step(c.p.log, l));
  }

  lemma AckedCountIs(l: LogDir.State)
    ensures AckedCount(l) == Acked(l.wal, l.confirmed)
  {
  }

  lemma LogStepKeeps(c: CycleState, l: LogDir.Action)
    requires Inv(c) && Enabled(c, Do(Pipeline.LogAction(l)))
    ensures var c' := Step(c, Do(Pipeline.LogAction(l))); ToolsOk(c') && LogOk(c'.p.log) && PhaseOk(c')
  {
    hide Inv, Enabled, Step, ToolsOk, LogOk, PhaseOk;
    match l
    case CommitTxn(commit) => CommitKeepsLog(c, commit);
    case WriteNew => WriteNewKeepsLog(c);
    case RenameNew => RenameKeepsLog(c);
    case SyncNew => SyncNewKeepsLog(c);
    case AdvanceToNewest => AdvanceKeepsLog(c);
    case Peek(count) => PeekIsNext(c, count);
    case GetStart => QuietGetLogKeepsLog(c, l);
    case SkipWrite => QuietGetLogKeepsLog(c, l);
    case GetExit => QuietGetLogKeepsLog(c, l);
    case GetFail => QuietGetLogKeepsLog(c, l);
    case GetKill => QuietGetLogKeepsLog(c, l);
    case _ => OnlyCatchupLeft(c, l); QuietCatchupKeepsLog(c, l);
  }

  lemma OnlyCatchupLeft(c: CycleState, l: LogDir.Action)
    requires Inv(c) && Enabled(c, Do(Pipeline.LogAction(l)))
    requires !l.CommitTxn? && !IsGetLog(l) && !l.AdvanceToNewest?
    ensures l.CatchupStart? || l.Scan? || l.CatchupExit? || l.CatchupFail? || l.CatchupKill?
  {
    LogStepParts(c, l);
  }

  lemma MarkKeepsLog(c: CycleState)
    requires Inv(c) && Enabled(c, Do(Pipeline.MarkLog))
    ensures var c' := Step(c, Do(Pipeline.MarkLog)); ToolsOk(c') && LogOk(c'.p.log) && PhaseOk(c')
  {
    hide Pipeline.NumberingOk, Pipeline.FilesOk, LogDir.Inv, LogDir.Sound, LogOk, LoggedCount, AckedCount, PublishedOk,
         NewestLog;
    var l, l' := c.p.log, LogDir.Step(c.p.log, MarkDone(c.p.diff.chosen[c.p.diff.marked]));
    SameLiveFiles(l, l');
  }

  lemma SyncDirKeepsLog(c: CycleState)
    requires Inv(c) && Enabled(c, Do(Pipeline.SyncLogDir))
    ensures var c' := Step(c, Do(Pipeline.SyncLogDir)); ToolsOk(c') && LogOk(c'.p.log) && PhaseOk(c')
  {
    hide Pipeline.NumberingOk, Pipeline.FilesOk, LogDir.Inv, LogDir.Sound, LogOk, LoggedCount, AckedCount, PublishedOk,
         NewestLog;
    Pipeline.SyncEffect(c.p.log);
    RanksOk(c.p.log);
    SameLiveFiles(c.p.log, LogDir.Step(c.p.log, SyncDir));
  }

  lemma CrashKeepsLog(c: CycleState, a: Pipeline.Action)
    requires Inv(c) && Enabled(c, Do(a)) && a.HostCrash?
    ensures var c' := Step(c, Do(a)); ToolsOk(c') && LogOk(c'.p.log) && PhaseOk(c')
  {
    hide Pipeline.NumberingOk, Pipeline.FilesOk, LogDir.Inv, LogDir.Sound, LogOk, LoggedCount, AckedCount, PublishedOk,
         NewestLog;
    CrashLog(c.p.log, a.places, a.logPidLeft);
  }

  /** The steps of create-diff that do not touch the log directory. */
  lemma DiffKeepsLog(c: CycleState, a: Pipeline.Action)
    requires Inv(c) && Enabled(c, Do(a))
    requires !a.LogAction? && !a.MarkLog? && !a.SyncLogDir? && !a.HostCrash?
    ensures var c' := Step(c, Do(a)); c'.p.log == c.p.log && ToolsOk(c') && LogOk(c'.p.log) && PhaseOk(c')
  {
    hide Pipeline.NumberingOk, Pipeline.FilesOk, LogDir.Inv, LogDir.Sound, LogOk, LoggedCount, AckedCount, PublishedOk,
         NewestLog;
  }

  /** A live file keeps its place once it is durable. */
  ghost predicate DurableLiveKept(l: LogDir.State, l': LogDir.State) {
    && |l.files| <= |l'.files|
    && forall i :: 0 <= i < |l.files| && l.files[i].seen.Live() && l.files[i].durable.Live() ==>
                     l'.files[i].seen.Live() && l'.files[i].durable.Live()
  }

  /** A step publishes nothing, or a diff made from files that are live and durable. */
  lemma PublishedFrame(p: Pipeline.State, p': Pipeline.State)
    requires PublishedOk(p) && DurableLiveKept(p.log, p'.log)
    requires forall n :: n in p'.seen.osc ==>
                           || (n in p.seen.osc && p'.seen.osc[n] == p.seen.osc[n])
                           || forall i :: i in p'.seen.osc[n] ==>
                                i < |p.log.files| && p.log.files[i].seen.Live() && p.log.files[i].durable.Live()
    ensures PublishedOk(p')
  {
    forall n: nat, i: nat | n in p'.seen.osc && i in p'.seen.osc[n]
      ensures i < |p'.log.files| && p'.log.files[i].seen.Live() && p'.log.files[i].durable.Live()
    {
      if n in p.seen.osc && p'.seen.osc[n] == p.seen.osc[n] {
        assert i in p.seen.osc[n];
        assert i < |p.log.files|;
      } else {
        assert i < |p.log.files|;
      }
    }
  }

  /** A file that is published now was durable when it was chosen, and stays. */
  lemma PublishedKept(c: CycleState, a: Pipeline.Action)
    requires Inv(c) && Enabled(c, Do(a))
    ensures PublishedOk(Step(c, Do(a)).p)
  {
    hide Inv, Pipeline.Inv, LogOk, PhaseOk, ToolsOk, Enabled, Step, PublishedOk;
    LogLiveKept(c, a);
    InvPublished(c);
    if a.MoveChange? {
      MoveChangeIs(c);
      ChosenDurable(c);
    } else {
      PublishedNotNew(c, a);
    }
    PublishedFrame(c.p, Step(c, Do(a)).p);
  }

  lemma InvPublished(c: CycleState)
    requires Inv(c)
    ensures PublishedOk(c.p)
  {
    hide Pipeline.Inv, LogOk, PhaseOk, ToolsOk;
  }

  lemma MoveChangeIs(c: CycleState)
    requires Inv(c) && Enabled(c, Do(Pipeline.MoveChange))
    ensures Step(c, Do(Pipeline.MoveChange)).p.seen.osc
            == c.p.seen.osc[c.p.diff.next.sequenceNumber := c.p.diff.chosen]
    ensures Step(c, Do(Pipeline.MoveChange)).p.log == c.p.log
  {
    hide Pipeline.NumbersOk, Pipeline.FilesOk, Pipeline.NextOk, LogDir.Inv, LogDir.Sound, LogOk, LogDir.Possible,
         LogDir.Enabled, LogDir.Step, PhaseOk;
  }

  lemma PublishedNotNew(c: CycleState, a: Pipeline.Action)
    requires Inv(c) && Enabled(c, Do(a)) && !a.MoveChange?
    ensures var c' := Step(c, Do(a));
            forall n :: n in c'.p.seen.osc ==> n in c.p.seen.osc && c'.p.seen.osc[n] == c.p.seen.osc[n]
  {
    hide Pipeline.NumberingOk, Pipeline.FilesOk, LogDir.Inv, LogDir.Sound, LogOk, PhaseOk, PublishedOk, LogDir.Step,
         LogDir.Possible, LogDir.Enabled;
  }

  lemma ChosenDurable(c: CycleState)
    requires Inv(c) && Enabled(c, Do(Pipeline.MoveChange))
    ensures forall i :: i in c.p.diff.chosen ==>
                          i < |c.p.log.files| && c.p.log.files[i].seen.Live() && c.p.log.files[i].durable.Live()
  {
    hide Pipeline.NumbersOk, Pipeline.FilesOk, Pipeline.NextOk, LogDir.Inv, LogDir.Sound, Logged, Acked, NewestLog,
         LogDir.Enabled;
  }

  lemma LogLiveKept(c: CycleState, a: Pipeline.Action)
    requires Enabled(c, Do(a))
    ensures DurableLiveKept(c.p.log, Step(c, Do(a)).p.log)
  {
    hide LogDir.Step, LogDir.Possible, LogDir.Enabled, Pipeline.Step, Pipeline.Possible, Pipeline.Enabled;
    var l := Pipeline.LogActionOf(c.p, a);
    if l.Some? {
      LiveKept(c.p.log, l.value);
    }
  }

  lemma LogInvKept(c: CycleState, a: Pipeline.Action)
    requires LogDir.Inv(c.p.log) && Enabled(c, Do(a))
    ensures LogDir.Inv(Step(c, Do(a)).p.log)
  {
    hide LogDir.Inv, LogDir.Step, LogDir.Possible, LogDir.Enabled, Pipeline.Possible, Pipeline.Step;
    var l := Pipeline.LogActionOf(c.p, a);
    if l.Some? {
      if l.value != AdvanceToNewest {
        OnlyAdvanceDiffers(c.p.log, l.value);
      }
      LogDir.StepKeeps(c.p.log, l.value);
    }
  }

  /** Every step of the cycle keeps the invariant. */
  lemma {:induction false} StepKeeps(c: CycleState, a: CycleAction)
    requires Inv(c) && Enabled(c, a)
    ensures Inv(Step(c, a))
  {
    hide LogOk, ToolsOk, PhaseOk, PublishedOk, Pipeline.Inv, Pipeline.Step, Pipeline.Enabled;
    if a.StartFails? {
      StartFailsKeeps(c);
    } else {
      Pipeline.StepKeeps(c.p, a.a);
      LogInvKept(c, a.a);
      PublishedKept(c, a.a);
      match a.a
      case LogAction(l) => LogStepKeeps(c, l);
      case MarkLog => MarkKeepsLog(c);
      case SyncLogDir => SyncDirKeepsLog(c);
      case HostCrash(_, _, _, _, _, _) => CrashKeepsLog(c, a.a);
      case _ => DiffKeepsLog(c, a.a);
    }
  }

  lemma StartFailsKeeps(c: CycleState)
    requires Inv(c) && Enabled(c, StartFails)
    ensures Inv(Step(c, StartFails))
  {
    hide Pipeline.Inv, LogOk, PublishedOk;
  }

  lemma InitInv(c: CycleState)
    requires Init(c)
    ensures Inv(c)
  {
    Pipeline.InitInv(c.p);
    hide Pipeline.Inv;
  }
}
