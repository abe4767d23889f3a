/**
 A directory sync that fails after get-log's rename: get-log ends, its PID file goes away, and the
 `.log` file can be seen but may not survive a crash. What this means for the script.
 */
module FailedSync {
  import opened LogDir
  import Pipeline
  import opened Cycle
  import ExactlyOnce

  const ADVANCE := Do(Pipeline.LogAction(AdvanceToNewest))

  lemma InvParts(c: CycleState)
    requires Cycle.Inv(c)
    ensures LogDir.Inv(c.p.log) && LogOk(c.p.log) && PhaseOk(c)
  {
    hide LogDir.Inv, LogDir.Sound, LogOk, PhaseOk, ToolsOk, PublishedOk, Pipeline.NumberingOk, Pipeline.FilesOk;
  }

  lemma AdvanceIsStep(c: CycleState)
    requires Cycle.Possible(c, ADVANCE)
    ensures LogDir.Possible(c.p.log, AdvanceToNewest)
    ensures Cycle.Step(c, ADVANCE).p.log == LogDir.Step(c.p.log, AdvanceToNewest)
    ensures Cycle.Enabled(c, ADVANCE) <==> LogDir.Enabled(c.p.log, AdvanceToNewest)
  {
    hide LogDir.Step, LogDir.Possible, LogDir.Enabled;
  }

  lemma AdvancedIs(l: LogDir.State)
    requires LogDir.Possible(l, AdvanceToNewest)
    ensures l.catchup.CatchupScanned? && l.catchup.target != 0 && l.catchup.target >= l.confirmed
    ensures LogDir.Step(l, AdvanceToNewest) == l.(catchup := CatchupDone, confirmed := l.catchup.target)
    ensures LogDir.Enabled(l, AdvanceToNewest) <==> DurableFile(l.files, l.catchup.target)
  {
    hide DurableFile;
  }

  lemma AdvanceFacts(c: CycleState)
    requires Cycle.Possible(c, ADVANCE) && Cycle.Inv(c)
    ensures var l := c.p.log;
            && LogDir.Inv(l) && Basic(l) && LogOk(l) && LogDir.Possible(l, AdvanceToNewest)
            && l.catchup == CatchupScanned(NewestLog(l.files))
            && NewestLog(l.files) != 0 && NewestLog(l.files) >= l.confirmed
  {
    AdvanceIsStep(c);
    AdvancedIs(c.p.log);
    InvParts(c);
    hide Cycle.Inv, LogDir.Inv, LogDir.Sound, LogDir.Possible, Basic, LogOk, NewestLog, Cycle.Possible, CaughtUp,
         IsNext;
    InvIsBasic(c.p.log);
  }

  /** When everything is synced, the file that catchup found is durable. */
  lemma SettledIsDurable(l: LogDir.State)
    requires Settled(l.files) && NewestLog(l.files) != 0
    ensures DurableFile(l.files, NewestLog(l.files))
  {
    hide NewestLog;
    NewestLogIsNewest(l.files);
  }

  /** A live file that is not durable is the newest one, which catchup asks for. */
  lemma UnsettledIsNewest(l: LogDir.State, i: nat)
    requires Basic(l) && LogOk(l) && NewestLog(l.files) != 0 && NewestLog(l.files) >= l.confirmed
    requires i < |l.files| && l.files[i].seen.Live() && !l.files[i].durable.Live()
    ensures IsLastLive(l.files, i) && l.files[i].Lsn() == NewestLog(l.files)
  {
    LastOfUnsettled(l, i);
    hide Logged, Acked, LastLsn, Basic, LogOk, NewestLog;
    LiveFileEnds(l, i);
    TargetIs(l);
  }

  lemma LastOfUnsettled(l: LogDir.State, i: nat)
    requires LogOk(l) && i < |l.files| && l.files[i].seen.Live() && !l.files[i].durable.Live()
    ensures IsLastLive(l.files, i)
  {
    hide Logged, Acked, LastLsn;
  }

  /** A new object version in the file; get-log writes no file without one. */
  lemma SomeNewVersion(l: LogDir.State, i: nat) returns (c: Commit)
    requires LogDir.Inv(l) && i < |l.files|
    ensures c in l.files[i].data && c in l.wal && c.objs != [] && c.lsn <= l.files[i].Lsn()
  {
    assert FileOk(l, l.files[i]);
    hide LogDir.Inv, LogDir.Sound, Increasing;
    var k :| 0 <= k < |l.files[i].data| && l.files[i].data[k].objs != [];
    c := l.files[i].data[k];
  }

  /** No other file has the transactions of the newest one. */
  lemma NotHeld(l: LogDir.State, i: nat, c: Commit)
    requires Basic(l) && LogOk(l) && c in l.wal && HeldBy(l.files, i, c) && !l.files[i].durable.Live()
    ensures !Held(l.files, c)
  {
    hide Basic, LogOk;
    if Held(l.files, c) {
      var j: nat :| j < |l.files| && HeldIn(l.files[j], c);
      assert HeldBy(l.files, j, c);
      if i < j {
        ExactlyOnce.OneFile(l, c, i, j);
      } else if j < i {
        ExactlyOnce.OneFile(l, c, j, i);
      }
    }
  }

  /** Confirming the newest file while it is not durable. */
  lemma LosesUnsettled(l: LogDir.State, i: nat)
    requires LogDir.Inv(l) && Basic(l) && LogOk(l) && LogDir.Possible(l, AdvanceToNewest)
    requires l.catchup == CatchupScanned(NewestLog(l.files))
    requires NewestLog(l.files) != 0 && NewestLog(l.files) >= l.confirmed
    requires i < |l.files| && l.files[i].seen.Live() && !l.files[i].durable.Live()
    ensures !NoLoss(LogDir.Step(l, AdvanceToNewest)) && !DurableFile(l.files, NewestLog(l.files))
  {
    UnsettledIsNewest(l, i);
    var c := SomeNewVersion(l, i);
    NotHeld(l, i, c);
    AdvancedIs(l);
    if DurableFile(l.files, NewestLog(l.files)) {
      DurableIsNewest(l, i);
    }
    hide LogDir.Inv, LogDir.Sound, Basic, LogOk, LogDir.Possible, LogDir.Step, NewestLog, Held;
    assert c.lsn <= LogDir.Step(l, AdvanceToNewest).confirmed;
  }

  lemma DurableIsNewest(l: LogDir.State, i: nat)
    requires Basic(l) && LogOk(l) && IsLastLive(l.files, i) && DurableFile(l.files, l.files[i].Lsn())
    ensures l.files[i].durable.Live()
  {
    hide Logged, Acked, Basic, LogOk;
    var j: nat :| j < |l.files| && l.files[j].seen.Live() && l.files[j].durable.Live()
                  && l.files[j].Lsn() == l.files[i].Lsn();
    LiveFileEnds(l, i);
    LiveFileEnds(l, j);
  }

  /**
   In the script, confirming the LSN that catchup found loses nothing if and only if all log files are
   durable; and the only file that may not be is the newest one.
   */
  lemma {:induction false} AdvanceExactly(c: CycleState)
    requires Cycle.Possible(c, ADVANCE) && Cycle.Inv(c)
    ensures NoLoss(Cycle.Step(c, ADVANCE).p.log) <==> Settled(c.p.log.files)
    ensures Cycle.Enabled(c, ADVANCE) <==> Settled(c.p.log.files)
  {
    AdvanceIsStep(c);
    AdvanceFacts(c);
    var l := c.p.log;
    hide Cycle.Inv, Cycle.Possible, Cycle.Enabled, Cycle.Step, LogDir.Inv, LogDir.Sound, Basic, LogOk, LogDir.Possible,
         LogDir.Enabled, LogDir.Step, NoLoss, DurableFile, NewestLog;
    AdvancedIs(l);
    if Settled(l.files) {
      SettledIsDurable(l);
      AdvanceHolds(l);
    } else {
      var i: nat :| i < |l.files| && l.files[i].seen.Live() && !l.files[i].durable.Live();
      LosesUnsettled(l, i);
    }
  }

  lemma OthersEnabled(c: CycleState, a: CycleAction)
    requires Cycle.Possible(c, a) && a != ADVANCE
    ensures Cycle.Enabled(c, a)
  {
    hide LogDir.Possible, LogDir.Enabled;
    if a.Do? && a.a.LogAction? {
      OnlyAdvanceDiffers(c.p.log, a.a.a);
    }
  }

  // --- Over whole runs ------------------------------------------------------------------------------------

  /** Any sequence of steps that the script can take, failed syncs included. */
  predicate CanRun(c: CycleState, actions: seq<CycleAction>)
    decreases |actions|
  {
    actions == [] || (Cycle.Possible(c, actions[0]) && CanRun(Cycle.Step(c, actions[0]), actions[1..]))
  }

  /** In every state all that the slot has confirmed is in files that survive a crash. */
  ghost predicate NeverLoses(c: CycleState, actions: seq<CycleAction>)
    requires CanRun(c, actions)
    decreases |actions|
  {
    NoLoss(c.p.log) && (actions == [] || NeverLoses(Cycle.Step(c, actions[0]), actions[1..]))
  }

  /** catchup confirms only when no log file is left unsynced. */
  predicate ConfirmsSettled(c: CycleState, actions: seq<CycleAction>)
    requires CanRun(c, actions)
    decreases |actions|
  {
    actions == [] ||
    ((actions[0] == ADVANCE ==> Settled(c.p.log.files)) && ConfirmsSettled(Cycle.Step(c, actions[0]), actions[1..]))
  }

  lemma LosesNothingYet(c: CycleState)
    requires Cycle.Inv(c)
    ensures NoLoss(c.p.log)
  {
    hide Sound, Pipeline.NumberingOk, Pipeline.FilesOk, LogOk, PhaseOk, ToolsOk, PublishedOk, NoLoss;
  }

  lemma {:induction false} NeverLosesFrom(c: CycleState, actions: seq<CycleAction>)
    requires Cycle.Inv(c) && CanRun(c, actions)
    ensures NeverLoses(c, actions) <==> ConfirmsSettled(c, actions)
    ensures ExactlyOnce.IsRun(c, actions) <==> ConfirmsSettled(c, actions)
    decreases |actions|
  {
    hide Cycle.Inv, Cycle.Possible, Cycle.Enabled, Cycle.Step, NoLoss, Settled;
    LosesNothingYet(c);
    if actions != [] {
      if actions[0] == ADVANCE {
        AdvanceExactly(c);
      } else {
        OthersEnabled(c, actions[0]);
      }
      if Cycle.Enabled(c, actions[0]) {
        Cycle.StepKeeps(c, actions[0]);
        NeverLosesFrom(Cycle.Step(c, actions[0]), actions[1..]);
      }
    }
  }

  /**
   Nothing is lost in a run of the script, with failures, kills and crashes at any step, if and only if
   catchup never confirms a log file that a failed directory sync left behind. Those are the runs that
   the other results are about.
   */
  lemma {:induction false} NeverLosesExactly(c: CycleState, actions: seq<CycleAction>)
    requires Cycle.Init(c) && CanRun(c, actions)
    ensures NeverLoses(c, actions) <==> ConfirmsSettled(c, actions)
    ensures ExactlyOnce.IsRun(c, actions) <==> ConfirmsSettled(c, actions)
  {
    Cycle.InitInv(c);
    hide Cycle.Init, Cycle.Inv;
    NeverLosesFrom(c, actions);
  }
}
