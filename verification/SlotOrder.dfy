/**
 Does catchup ever ask the slot to move backwards? When exactly it does, and that it does not in
 runs whose crashes keep the renames to `.done` in order.
 */
module SlotOrder {
  import opened LogDir
  import Pipeline
  import opened Cycle
  import opened ExactlyOnce

  /** The `.done` files come before the `.log` files. */
  ghost predicate DonePrefix(files: seq<LogFile>) {
    forall i, j :: 0 <= i < j < |files| && files[j].seen == Done && files[i].seen.Live() ==> files[i].seen == Done
  }

  /** There are `.log` files, but the newest live file is `.done` already. */
  ghost predicate NewestIsDone(files: seq<LogFile>) {
    && (exists i :: 0 <= i < |files| && files[i].seen == Log)
    && exists t: nat :: IsLastLive(files, t) && files[t].seen == Done
  }

  lemma TailIsLog(l: LogDir.State, t: nat)
    requires Basic(l) && LogOk(l) && IsLastLive(l.files, t) && l.files[t].seen == Done
    ensures CaughtUp(l) && l.confirmed == l.files[t].Lsn()
  {
    hide Logged, Acked, LogOk, Basic;
    if !CaughtUp(l) {
      var _ := TailOf(l);
    } else {
      LiveFileEnds(l, t);
      ConfirmedIsLast(l);
    }
  }

  lemma DoneLastAsksBackwards(l: LogDir.State)
    requires Basic(l) && LogOk(l) && NewestIsDone(l.files)
    ensures 0 < NewestLog(l.files) < l.confirmed
  {
    hide Logged, Acked, LogOk, NewestLog;
    NewestLogIsNewest(l.files);
    var t: nat :| IsLastLive(l.files, t) && l.files[t].seen == Done;
    TailIsLog(l, t);
    LiveFileEnds(l, t);
    forall i: nat | i < |l.files| && l.files[i].seen == Log
      ensures l.files[i].Lsn() < l.confirmed
    {
      LiveFileEnds(l, i);
    }
  }

  lemma BackwardsMeansDoneLast(l: LogDir.State)
    requires Basic(l) && LogOk(l) && 0 < NewestLog(l.files) < l.confirmed
    ensures NewestIsDone(l.files)
  {
    hide Logged, Acked, LogOk, NewestLog, Basic;
    NewestLogIsNewest(l.files);
    var i: nat :| i < |l.files| && l.files[i].seen == Log && l.files[i].Lsn() == NewestLog(l.files);
    var t := LastLive(l.files, i);
    LiveFileEnds(l, t);
    ConfirmedIsLogged(l);
    NewestIsLast(l);
  }

  /** Catchup would ask for an LSN behind the slot if and only if the newest live file is done before an older one. */
  lemma {:induction false} BackwardsExactly(l: LogDir.State)
    requires LogDir.Inv(l) && LogOk(l)
    ensures 0 < NewestLog(l.files) < l.confirmed <==> NewestIsDone(l.files)
  {
    hide LogDir.Inv, LogDir.Sound, Basic, LogOk, NewestLog, NewestIsDone;
    InvIsBasic(l);
    if NewestIsDone(l.files) {
      DoneLastAsksBackwards(l);
    }
    if 0 < NewestLog(l.files) < l.confirmed {
      BackwardsMeansDoneLast(l);
    }
  }

  lemma PrefixIsNotBackwards(l: LogDir.State)
    requires DonePrefix(l.files)
    ensures !NewestIsDone(l.files)
  {
  }

  // --- Runs in which crashes keep the order -----------------------------------------------------------------

  /** Files that create-diff did not choose are behind the chosen ones. */
  ghost predicate ChosenFirst(p: Pipeline.State) {
    p.diff.pc >= Pipeline.CHOSEN ==>
      forall i: nat, k: nat ::
        i < |p.log.files| && p.log.files[i].seen == Log && i !in p.diff.chosen && k < |p.diff.chosen| ==> p.diff.chosen[k] < i
  }

  ghost predicate Ordered(c: CycleState) {
    DonePrefix(c.p.log.files) && ChosenFirst(c.p)
  }

  /** A run in which every crash leaves the `.done` files before the `.log` files. */
  ghost predicate IsOrderedRun(c: CycleState, actions: seq<CycleAction>)
    decreases |actions|
  {
    actions == [] ||
    (var a := actions[0];
     && Cycle.Enabled(c, a)
     && (a.Do? && a.a.HostCrash? ==> DonePrefix(Cycle.Step(c, a).p.log.files))
     && IsOrderedRun(Cycle.Step(c, a), actions[1..]))
  }

  lemma SelectedFirst(files: seq<LogFile>, limit: nat)
    ensures var chosen := Pipeline.Selected(files, limit);
            forall i: nat, k :: i < |files| && files[i].seen == Log && i !in chosen && 0 <= k < |chosen| ==> chosen[k] < i
  {
    Pipeline.LogListInRange(files);
    var list, chosen := Pipeline.LogList(files), Pipeline.Selected(files, limit);
    hide Pipeline.LogList, Pipeline.Contents;
    forall i: nat, k | i < |files| && files[i].seen == Log && i !in chosen && 0 <= k < |chosen|
      ensures chosen[k] < i
    {
      var l :| 0 <= l < |list| && list[l] == i;
      assert chosen == list[..|chosen|];
      assert i !in list[..|chosen|];
      assert list[k] < list[l] || l < |chosen|;
    }
  }

  /** Steps of the tools other than create-diff: live files stay as they are, a new one is the last. */
  lemma LogOrder(l: LogDir.State, a: LogDir.Action)
    requires LogDir.Inv(l) && LogDir.Enabled(l, a) && !a.MarkDone? && !a.SyncDir? && !a.Crash? && DonePrefix(l.files)
    ensures DonePrefix(LogDir.Step(l, a).files)
    ensures a.CommitTxn? ==> LogDir.Step(l, a).files == l.files
  {
    hide LogDir.Complete, LogDir.Increasing, LogDir.Held;
    Pipeline.LogFrame(l, a);
  }

  lemma CreateDiffAlone(c: CycleState, l: LogDir.Action)
    requires Cycle.Inv(c) && Cycle.Enabled(c, Do(Pipeline.LogAction(l)))
    ensures l.CommitTxn? || c.p.diff.pc == Pipeline.IDLE
    ensures LogDir.Inv(c.p.log) && LogDir.Enabled(c.p.log, l) && !l.MarkDone? && !l.SyncDir? && !l.Crash?
    ensures var c' := Cycle.Step(c, Do(Pipeline.LogAction(l)));
            c'.p.log == LogDir.Step(c.p.log, l) && c'.p.diff == c.p.diff
  {
    hide LogDir.Inv, LogDir.Sound, LogDir.Step, LogDir.Possible, LogDir.Enabled, LogOk, PhaseOk, PublishedOk,
         Pipeline.NumberingOk, Pipeline.FilesOk;
  }

  lemma LogActionOrdered(c: CycleState, l: LogDir.Action)
    requires Cycle.Inv(c) && Cycle.Enabled(c, Do(Pipeline.LogAction(l))) && Ordered(c)
    ensures Ordered(Cycle.Step(c, Do(Pipeline.LogAction(l))))
  {
    hide Cycle.Inv, Cycle.Enabled, Cycle.Step, LogDir.Inv, LogDir.Sound, LogDir.Step, LogDir.Possible, LogDir.Enabled,
         DonePrefix;
    CreateDiffAlone(c, l);
    LogOrder(c.p.log, l);
  }

  lemma MarkIs(c: CycleState)
    requires Cycle.Inv(c) && Cycle.Enabled(c, Do(Pipeline.MarkLog))
    ensures Pipeline.ChosenOk(c.p) && c.p.diff.pc == Pipeline.MARKING && c.p.diff.marked < |c.p.diff.chosen|
    ensures var i := c.p.diff.chosen[c.p.diff.marked];
            && i < |c.p.log.files|
            && Cycle.Step(c, Do(Pipeline.MarkLog)).p.log.files == c.p.log.files[i := c.p.log.files[i].(seen := Done)]
            && Cycle.Step(c, Do(Pipeline.MarkLog)).p.diff == c.p.diff.(marked := c.p.diff.marked + 1)
  {
    hide LogDir.Inv, LogDir.Sound, LogOk, PhaseOk, ToolsOk, PublishedOk, Pipeline.FilesOk, Pipeline.NumbersOk,
         Pipeline.NextOk;
  }

  lemma MarkOrdered(c: CycleState)
    requires Cycle.Inv(c) && Cycle.Enabled(c, Do(Pipeline.MarkLog)) && Ordered(c)
    ensures Ordered(Cycle.Step(c, Do(Pipeline.MarkLog)))
  {
    hide Cycle.Inv, Cycle.Enabled, Cycle.Step;
    MarkIs(c);
    var chosen, files := c.p.diff.chosen, c.p.log.files;
    var i := chosen[c.p.diff.marked];
    forall j: nat | j < i && files[j].seen.Live()
      ensures files[j].seen == Done
    {
      if j in chosen {
        var k :| 0 <= k < |chosen| && chosen[k] == j;
        assert k < c.p.diff.marked;
      }
    }
  }

  lemma ChooseOrdered(c: CycleState, limit: nat)
    requires Cycle.Inv(c) && Cycle.Enabled(c, Do(Pipeline.Choose(limit))) && Ordered(c)
    ensures Ordered(Cycle.Step(c, Do(Pipeline.Choose(limit))))
  {
    hide Cycle.Inv, Pipeline.Selected, DonePrefix;
    SelectedFirst(c.p.log.files, limit);
  }

  /** The other steps of create-diff leave the visible log files and the choice alone, or end it. */
  lemma RestOrdered(c: CycleState, a: Pipeline.Action)
    requires Cycle.Enabled(c, Do(a)) && Ordered(c)
    requires !a.LogAction? && !a.MarkLog? && !a.Choose? && !a.HostCrash?
    ensures Ordered(Cycle.Step(c, Do(a)))
  {
    hide Pipeline.Selected;
  }

  lemma CrashOrdered(c: CycleState, a: Pipeline.Action)
    requires Cycle.Enabled(c, Do(a)) && a.HostCrash? && DonePrefix(Cycle.Step(c, Do(a)).p.log.files)
    ensures Ordered(Cycle.Step(c, Do(a)))
  {
    hide DonePrefix;
  }

  lemma {:induction false} StepOrdered(c: CycleState, a: CycleAction)
    requires Cycle.Inv(c) && Cycle.Enabled(c, a) && Ordered(c)
    requires a.Do? && a.a.HostCrash? ==> DonePrefix(Cycle.Step(c, a).p.log.files)
    ensures Ordered(Cycle.Step(c, a))
  {
    hide Cycle.Inv, Cycle.Enabled, Pipeline.Step, Pipeline.Enabled;
    if a.Do? {
      match a.a
      case LogAction(l) => LogActionOrdered(c, l);
      case MarkLog => MarkOrdered(c);
      case Choose(limit) => ChooseOrdered(c, limit);
      case HostCrash(_, _, _, _, _, _) => CrashOrdered(c, a.a);
      case _ => RestOrdered(c, a.a);
    }
  }

  lemma {:induction false} RunOrdered(c: CycleState, actions: seq<CycleAction>)
    requires Cycle.Inv(c) && Ordered(c) && IsOrderedRun(c, actions)
    ensures ExactlyOnce.IsRun(c, actions) && Cycle.Inv(ExactlyOnce.Run(c, actions)) && Ordered(ExactlyOnce.Run(c, actions))
    decreases |actions|
  {
    hide Cycle.Inv, Cycle.Enabled, Cycle.Step, Ordered, DonePrefix;
    if actions != [] {
      Cycle.StepKeeps(c, actions[0]);
      StepOrdered(c, actions[0]);
      RunOrdered(Cycle.Step(c, actions[0]), actions[1..]);
    }
  }

  /**
   Never backwards: in every run of the script whose crashes keep the renames in order, what catchup
   finds is 0 or not behind the slot, in every reachable state.
   */
  lemma {:induction false} NeverBackwards(c: CycleState, actions: seq<CycleAction>)
    requires Cycle.Init(c) && IsOrderedRun(c, actions)
    ensures ExactlyOnce.IsRun(c, actions)
    ensures var l := ExactlyOnce.Run(c, actions).p.log;
            && (NewestLog(l.files) == 0 || NewestLog(l.files) >= l.confirmed)
            && (l.catchup.CatchupScanned? ==> l.catchup.target == 0 || l.catchup.target >= l.confirmed)
  {
    Cycle.InitInv(c);
    InitOrdered(c);
    RunOrdered(c, actions);
    InvNotBackwards(ExactlyOnce.Run(c, actions));
  }

  lemma InitOrdered(c: CycleState)
    requires Cycle.Init(c)
    ensures Ordered(c)
  {
  }

  lemma InvNotBackwards(c: CycleState)
    requires Cycle.Inv(c) && Ordered(c)
    ensures var l := c.p.log;
            && (NewestLog(l.files) == 0 || NewestLog(l.files) >= l.confirmed)
            && (l.catchup.CatchupScanned? ==> l.catchup.target == 0 || l.catchup.target >= l.confirmed)
  {
    hide LogDir.Inv, LogDir.Sound, Pipeline.NumberingOk, Pipeline.FilesOk, LogOk, NewestLog, PublishedOk, ToolsOk,
         NewestIsDone;
    BackwardsExactly(c.p.log);
    PrefixIsNotBackwards(c.p.log);
  }

  /** And in any run at all: it looks backwards exactly when the newest live file is done before an older one. */
  lemma {:induction false} BackwardsInRuns(c: CycleState, actions: seq<CycleAction>)
    requires Cycle.Init(c) && ExactlyOnce.IsRun(c, actions)
    ensures var l := ExactlyOnce.Run(c, actions).p.log;
            0 < NewestLog(l.files) < l.confirmed <==> NewestIsDone(l.files)
  {
    Cycle.InitInv(c);
    ExactlyOnce.RunKeeps(c, actions);
    hide LogDir.Inv, LogDir.Sound, Pipeline.NumberingOk, Pipeline.FilesOk, LogOk, NewestLog, PublishedOk, ToolsOk,
         PhaseOk, NewestIsDone;
    BackwardsExactly(ExactlyOnce.Run(c, actions).p.log);
  }
}
