/**
 The programs go on: while one of them is running, exactly one of its effects comes next, until it ends
 after a bounded number of them. Where it cannot go on, so that it ends with an exception or an
 assertion, this says why.
 */
module Progress {
  import opened Wrappers
  import opened Pipeline
  import Timestamps
  import LogDir
  import Cycle

  // --- get-log and catchup --------------------------------------------------------------------------

  /** The effects of get-log, apart from its end in failure. */
  predicate GetLogGoesOn(a: LogDir.Action) {
    a.Peek? || a.SkipWrite? || a.WriteNew? || a.RenameNew? || a.SyncNew? || a.AdvanceOwn? || a.GetExit?
  }

  predicate CatchupGoesOn(a: LogDir.Action) {
    a.Scan? || a.AdvanceToNewest? || a.CatchupExit?
  }

  /** Only how much the peek shows and whether `--catchup` was given is not decided by what happened before. */
  lemma GetLogOneWay(s: LogDir.State, a: LogDir.Action, b: LogDir.Action)
    requires LogDir.Sound(s) && LogDir.Possible(s, a) && LogDir.Possible(s, b) && GetLogGoesOn(a) && GetLogGoesOn(b)
    ensures s.getLog != LogDir.GetIdle
    ensures a == b || (a.Peek? && b.Peek?) || (a.AdvanceOwn? && b.GetExit?) || (a.GetExit? && b.AdvanceOwn?)
  {
  }

  /** How many effects get-log has still in front of it, at most. */
  function GetLogLeft(g: LogDir.GetLog): nat {
    match g
    case GetIdle => 0
    case GetStarted => 6
    case GetPeeked(_, _) => 5
    case GetWritten(_, _) => 4
    case GetRenamed(_, _) => 3
    case GetLogged(_) => 2
    case GetAdvanced => 1
  }

  /** get-log can always go on, and every effect brings it nearer to its end. */
  lemma GetLogEnds(s: LogDir.State) returns (a: LogDir.Action)
    requires LogDir.Sound(s) && s.getLog != LogDir.GetIdle
    ensures GetLogGoesOn(a) && LogDir.Possible(s, a)
    ensures forall b :: GetLogGoesOn(b) && LogDir.Possible(s, b) ==>
                          GetLogLeft(LogDir.Step(s, b).getLog) < GetLogLeft(s.getLog)
  {
    hide LogDir.Acked, LogDir.FileOk, LogDir.CatchupOk, LogDir.Increasing, LogDir.HasActualData, LogDir.Complete;
    hide LogDir.After;
    match s.getLog
    case GetStarted =>
      a := if LogDir.After(s.wal, s.confirmed) == [] then LogDir.GetExit else LogDir.Peek(1);
    case GetPeeked(_, data) =>
      a := if LogDir.HasActualData(data) then LogDir.WriteNew else LogDir.SkipWrite;
    case GetWritten(_, _) => a := LogDir.RenameNew;
    case GetRenamed(_, _) => a := LogDir.SyncNew;
    case GetLogged(_) => a := LogDir.GetExit;
    case GetAdvanced => a := LogDir.GetExit;
  }

  function CatchupLeft(c: LogDir.Catchup): nat {
    match c
    case CatchupIdle => 0
    case CatchupStarted => 3
    case CatchupScanned(_) => 2
    case CatchupDone => 1
  }

  lemma CatchupOneWay(s: LogDir.State, a: LogDir.Action, b: LogDir.Action)
    requires LogDir.Possible(s, a) && LogDir.Possible(s, b) && CatchupGoesOn(a) && CatchupGoesOn(b)
    ensures s.catchup != LogDir.CatchupIdle && a == b
    ensures CatchupLeft(LogDir.Step(s, a).catchup) < CatchupLeft(s.catchup)
  {
    hide LogDir.NewestLog;
  }

  /** catchup can go on unless it has found an LSN behind the slot. */
  lemma CatchupEndsExactly(s: LogDir.State)
    requires s.catchup != LogDir.CatchupIdle
    ensures (exists a :: CatchupGoesOn(a) && LogDir.Possible(s, a))
            <==> !(s.catchup.CatchupScanned? && 0 < s.catchup.target < s.confirmed)
  {
    var a := match s.catchup
      case CatchupStarted => LogDir.Scan
      case CatchupScanned(target) => if target == 0 then LogDir.CatchupExit else LogDir.AdvanceToNewest
      case CatchupDone => LogDir.CatchupExit
      case CatchupIdle => LogDir.Scan;
    if !(s.catchup.CatchupScanned? && 0 < s.catchup.target < s.confirmed) {
      assert CatchupGoesOn(a) && LogDir.Possible(s, a);
    }
  }

  // --- create-diff ----------------------------------------------------------------------------------

  /** The command line: the limit, the sequence number (0 if not given), and whether it is a dry run. */
  datatype Options = Options(limit: nat, init: nat, dryRun: bool)

  /** The effects of create-diff with these options, apart from its end in failure. */
  predicate DiffGoesOn(o: Options, a: Action) {
    match a
    case LogAction(_) => false
    case Start => false
    case NothingToDo(limit) => limit == o.limit
    case Choose(limit) => limit == o.limit
    case GetState(init, _) => init == o.init
    case DryRunExit => o.dryRun
    case WriteLock => !o.dryRun
    case Fail => false
    case Kill => false
    case HostCrash(_, _, _, _, _, _) => false
    case _ => true
  }

  /** Only the latest time stamp of the rows is not decided by what happened before. */
  lemma DiffOneWay(o: Options, s: State, a: Action, b: Action)
    requires Possible(s, a) && Possible(s, b) && DiffGoesOn(o, a) && DiffGoesOn(o, b)
    ensures s.diff.pc != IDLE
    ensures a == b || (a.GetState? && b.GetState?)
  {
    hide LogDir.Possible, Selected, Readable, CrashChanges;
  }

  /** Each effect is the next one, or marks one more file, or is the end. */
  lemma DiffEffectOnce(o: Options, s: State, a: Action)
    requires Possible(s, a) && DiffGoesOn(o, a)
    ensures var next := Step(s, a);
            || (next.diff.pc == IDLE && !next.diffPid)
            || next.diff.pc == s.diff.pc + 1
            || (next.diff.pc == s.diff.pc == MARKING
                && next.diff.marked == s.diff.marked + 1 <= |s.diff.chosen| && next.diff.chosen == s.diff.chosen)
  {
    hide LogDir.Possible, LogDir.Step, Selected, Readable, CrashChanges;
  }

  predicate InCode(s: State) {
    s.diff.pc <= FINISHED
  }

  lemma StepInCode(s: State, a: Action)
    requires InCode(s) && Possible(s, a)
    ensures InCode(Step(s, a))
  {
    hide LogDir.Possible, LogDir.Step, Selected, Readable, CrashChanges;
  }

  /**
   What ends a run: no next number, a state file or a copy of it left in the tmp directory, a lock file,
   or a number with more than nine digits.
   */
  predicate Obstacle(o: Options, s: State) {
    || (s.diff.pc == CHANGE_WRITTEN && o.init == 0
        && !(Readable(s.seen.top) && s.seen.top.value.sequenceNumber < 999999999))
    || (s.diff.pc == NUMBER_KNOWN && s.tmp.state.Some?)
    || (s.diff.pc == STATE_WRITTEN && s.tmp.copy.Some?)
    || (s.diff.pc == COPY_WRITTEN && !o.dryRun && s.lock)
    || (s.diff.pc == TMP_SYNCED && s.diff.next.sequenceNumber > 999999999)
  }

  /** The effect that comes next. */
  function NextEffect(o: Options, s: State): Action {
    var pc := s.diff.pc;
    if pc == STARTED then if Selected(s.log.files, o.limit) == [] then NothingToDo(o.limit) else Choose(o.limit)
    else if pc == CHOSEN then WriteChange
    else if pc == CHANGE_WRITTEN then GetState(o.init, Timestamps.EPOCH)
    else if pc == NUMBER_KNOWN then WriteState
    else if pc == STATE_WRITTEN then WriteCopy
    else if pc == COPY_WRITTEN then if o.dryRun then DryRunExit else WriteLock
    else if pc == LOCKED then SyncTmp
    else if pc == TMP_SYNCED then MakeDirs
    else if pc == DIRS_MADE then MoveChange
    else if pc == CHANGE_MOVED then MoveState
    else if pc == STATE_MOVED then SyncSubdirs
    else if pc == SUBDIRS_SYNCED then MoveTop
    else if pc == TOP_MOVED then SyncTop
    else if pc == MARKING then if s.diff.marked < |s.diff.chosen| then MarkLog else SyncLogDir
    else if pc == LOG_SYNCED then Unlock
    else if pc == UNLOCKED then SyncTmpAgain
    else Exit
  }

  /** While create-diff is running, and whatever else happened: it can go on if and only if nothing is in its way. */
  lemma DiffStuckExactly(o: Options, s: State)
    requires Inv(s) && InCode(s) && s.diff.pc != IDLE
    ensures (exists a :: DiffGoesOn(o, a) && Possible(s, a)) <==> !Obstacle(o, s)
  {
    hide LogDir.Sound, Selected, Readable, CrashChanges, NumbersOk, DirsOk, NextOk, SyncedOk, FilesOk, LockOk;
    if !Obstacle(o, s) {
      assert DiffGoesOn(o, NextEffect(o, s)) && Possible(s, NextEffect(o, s));
    }
  }

  // --- The script -----------------------------------------------------------------------------------

  predicate IsStart(a: Action) {
    a == Start || a == LogAction(LogDir.GetStart) || a == LogAction(LogDir.CatchupStart)
  }

  /** The start of the command that the script is at. */
  function StartOf(phase: Cycle.Phase): Action {
    match phase
    case AtFirstCatchup => LogAction(LogDir.CatchupStart)
    case AtGetLog => LogAction(LogDir.GetStart)
    case AtSecondCatchup => LogAction(LogDir.CatchupStart)
    case AtCreateDiff => Start
  }

  /** The script's own steps: neither commits nor crashes. */
  predicate ByScript(a: Cycle.CycleAction) {
    a.Do? && !a.a.HostCrash? && !(a.a.LogAction? && a.a.a.CommitTxn?)
  }

  /** A command takes all its steps, and only then the next one starts, or fails to start. */
  lemma StartsBetweenCommands(c: Cycle.CycleState, a: Cycle.CycleAction)
    requires Cycle.Inv(c) && Cycle.Possible(c, Cycle.StartFails) && Cycle.Possible(c, a) && ByScript(a)
    ensures IsStart(a.a) && a.a == StartOf(c.phase)
  {
    hide LogDir.Inv, LogDir.Step, Cycle.LogOk, Cycle.PhaseOk, Cycle.PublishedOk, Inv, Selected, Readable;
  }

  /** Between two commands the next one starts if and only if its PID file is not there. */
  lemma StartsExactly(c: Cycle.CycleState)
    requires Cycle.Possible(c, Cycle.StartFails)
    ensures Cycle.Possible(c, Cycle.Do(StartOf(c.phase)))
            <==> !(if c.phase == Cycle.AtCreateDiff then c.p.diffPid else c.p.log.pidFile)
  {
  }
}
