/**
 What the cycle catchup, get-log, catchup, create-diff achieves over whole runs: every transaction
 is in exactly one log file and in at most one published diff, and when catchup asks the slot to
 go backwards.
 */
module ExactlyOnce {
  import opened LogDir
  import LogOnce
  import Pipeline
  import opened Cycle

  /** A run of the script: any finite sequence of enabled steps, commits and crashes. */
  predicate IsRun(c: CycleState, actions: seq<CycleAction>)
    decreases |actions|
  {
    actions == [] || (Cycle.Enabled(c, actions[0]) && IsRun(Cycle.Step(c, actions[0]), actions[1..]))
  }

  function Run(c: CycleState, actions: seq<CycleAction>): CycleState
    requires IsRun(c, actions)
    decreases |actions|
  {
    if actions == [] then c else Run(Cycle.Step(c, actions[0]), actions[1..])
  }

  lemma {:induction false} RunKeeps(c: CycleState, actions: seq<CycleAction>)
    requires Cycle.Inv(c) && IsRun(c, actions)
    ensures Cycle.Inv(Run(c, actions))
    decreases |actions|
  {
    hide Cycle.Inv, Cycle.Enabled, Cycle.Step;
    if actions != [] {
      Cycle.StepKeeps(c, actions[0]);
      RunKeeps(Cycle.Step(c, actions[0]), actions[1..]);
    }
  }

  // --- Every transaction is in one log file -------------------------------------------------------------

  /** The files' intervals of commit LSNs are consecutive, the first one starting at 0. */
  predicate Consecutive(files: seq<LogFile>) {
    && (forall j :: 0 <= j < |files| && files[j].seen.Live() && (forall i :: 0 <= i < j ==> !files[i].seen.Live()) ==>
          files[j].start == 0)
    && (forall i, j :: 0 <= i < j < |files| && files[i].seen.Live() && files[j].seen.Live()
                       && (forall k :: i < k < j ==> !files[k].seen.Live()) ==>
          files[j].start == files[i].Lsn())
  }

  ghost predicate OnceInLog(l: LogDir.State) {
    && Consecutive(l.files)
    && (forall commit, i: nat :: commit in l.wal && i < |l.files| && l.files[i].seen.Live() ==>
          (commit in l.files[i].data <==> l.files[i].start < commit.lsn <= l.files[i].Lsn()))
    && (forall commit, i: nat, j: nat :: HeldBy(l.files, i, commit) && HeldBy(l.files, j, commit) ==> i == j)
    && (forall commit :: commit in l.wal ==>
          (commit.lsn <= NewestLive(l.files) <==> exists i: nat :: HeldBy(l.files, i, commit)))
    && l.confirmed <= NewestLive(l.files)
  }

  /** A live file holds a stretch of the commit order. */
  lemma Stretch(l: LogDir.State, i: nat) returns (from: nat)
    requires Basic(l) && LogOk(l) && i < |l.files| && l.files[i].seen.Live()
    ensures from == |Logged(l.files[..i])| && from + |l.files[i].data| <= LoggedCount(l) <= |l.wal|
    ensures l.files[i].data == l.wal[from..from + |l.files[i].data|]
    ensures l.files[i].start == (if from == 0 then 0 else l.wal[from - 1].lsn)
    ensures l.files[i].Lsn() == l.wal[from + |l.files[i].data| - 1].lsn
  {
    hide Acked, Logged, Increasing;
    LoggedPiece(l.files, i);
    from := |Logged(l.files[..i])|;
    var size := |l.files[i].data|;
    LogOkParts(l);
    assert l.wal[..LoggedCount(l)][from..from + size] == l.wal[from..from + size];
    assert Logged(l.files[..i]) == l.wal[..from];
    assert l.files[i].data[size - 1] == l.wal[from + size - 1];
  }

  lemma InInterval(l: LogDir.State, commit: Commit, i: nat)
    requires Basic(l) && LogOk(l) && commit in l.wal && i < |l.files| && l.files[i].seen.Live()
    ensures commit in l.files[i].data <==> l.files[i].start < commit.lsn <= l.files[i].Lsn()
  {
    hide Logged, Acked, LogOk;
    var from := Stretch(l, i);
    var to := from + |l.files[i].data|;
    var k :| 0 <= k < |l.wal| && l.wal[k] == commit;
    if from <= k < to {
      assert l.files[i].data[k - from] == commit;
    }
    if commit in l.files[i].data {
      var d :| 0 <= d < |l.files[i].data| && l.files[i].data[d] == commit;
      assert commit == l.wal[from + d];
    }
  }

  /** A file starts behind all the files before it. */
  lemma OneFile(l: LogDir.State, commit: Commit, i: nat, j: nat)
    requires Basic(l) && LogOk(l) && commit in l.wal && i < j && HeldBy(l.files, i, commit)
    ensures !HeldBy(l.files, j, commit)
  {
    hide Logged, Acked, LogOk;
    InInterval(l, commit, i);
    if j < |l.files| && l.files[j].seen.Live() {
      var a := Stretch(l, i);
      var b := Stretch(l, j);
      LoggedMonotone(l.files, i, j);
      InInterval(l, commit, j);
    }
  }

  lemma HeldIsCommitted(l: LogDir.State, commit: Commit, i: nat)
    requires Basic(l) && LogOk(l) && HeldBy(l.files, i, commit)
    ensures commit in l.wal
  {
    hide Logged, Acked, LogOk;
    var from := Stretch(l, i);
    assert commit in l.wal[from..from + |l.files[i].data|];
  }

  lemma {:induction false} IntervalsConsecutive(l: LogDir.State)
    requires Basic(l) && LogOk(l)
    ensures Consecutive(l.files)
  {
    hide Logged, Acked, LogOk;
    var files := l.files;
    forall j | 0 <= j < |files| && files[j].seen.Live() && forall i :: 0 <= i < j ==> !files[i].seen.Live()
      ensures files[j].start == 0
    {
      var _ := Stretch(l, j);
      LoggedUpTo(files[..j], 0);
      NothingLogged();
      assert files[..j][..0] == [];
    }
    forall i, j | 0 <= i < j < |files| && files[i].seen.Live() && files[j].seen.Live()
                  && forall k :: i < k < j ==> !files[k].seen.Live()
      ensures files[j].start == files[i].Lsn()
    {
      var _ := Stretch(l, i);
      var _ := Stretch(l, j);
      LoggedLast(files[..j], i);
      assert files[..j][..i] == files[..i];
    }
  }

  lemma NothingLogged()
    ensures Logged([]) == []
  {
  }

  /** The newest live file ends with the last transaction logged. */
  lemma NewestIsLast(l: LogDir.State)
    requires Basic(l) && LogOk(l)
    ensures NewestLive(l.files) == if LoggedCount(l) == 0 then 0 else l.wal[LoggedCount(l) - 1].lsn
  {
    hide Logged, Acked, LogOk, NewestLive;
    NewestLiveIsNewest(l.files);
    if LoggedCount(l) > 0 {
      LogOkParts(l);
      var commit := Logged(l.files)[0];
      var i := LoggedInFile(l.files, commit);
      var t := LastLive(l.files, i);
      LiveFileEnds(l, t);
    }
    if NewestLive(l.files) != 0 {
      var i: nat :| i < |l.files| && l.files[i].seen.Live() && l.files[i].Lsn() == NewestLive(l.files);
      LiveFileEnds(l, i);
    }
  }

  lemma LogOkParts(l: LogDir.State)
    requires LogOk(l)
    ensures LoggedCount(l) == |Logged(l.files)| <= |l.wal| && Logged(l.files) == l.wal[..LoggedCount(l)]
    ensures AckedCount(l) <= LoggedCount(l) && l.confirmed == LastLsn(l.wal[..AckedCount(l)])
  {
    hide Logged, Acked;
  }

  lemma {:induction false} LastLive(files: seq<LogFile>, i: nat) returns (t: nat)
    requires i < |files| && files[i].seen.Live()
    ensures IsLastLive(files, t)
  {
    t := |files| - 1;
    if !files[t].seen.Live() {
      var rest := files[..t];
      t := LastLive(rest, i);
    }
  }

  lemma InSomeFile(l: LogDir.State, commit: Commit)
    requires Basic(l) && LogOk(l) && commit in l.wal
    ensures commit.lsn <= NewestLive(l.files) <==> exists i: nat :: HeldBy(l.files, i, commit)
  {
    hide Logged, Acked, LogOk, NewestLive;
    NewestIsLast(l);
    LogOkParts(l);
    var k :| 0 <= k < |l.wal| && l.wal[k] == commit;
    if k < LoggedCount(l) {
      assert commit == Logged(l.files)[k];
      var i := LoggedInFile(l.files, commit);
      assert HeldBy(l.files, i, commit);
    } else {
      assert commit.lsn > NewestLive(l.files);
      if i: nat :| HeldBy(l.files, i, commit) {
        var from := Stretch(l, i);
        InInterval(l, commit, i);
      }
    }
  }

  lemma {:induction false} LogOkIsOnce(l: LogDir.State)
    requires LogDir.Inv(l) && LogOk(l)
    ensures OnceInLog(l)
  {
    hide LogDir.Inv, LogDir.Sound, Logged, Acked, LogOk, NewestLive, Consecutive, Increasing;
    InvIsBasic(l);
    IntervalsConsecutive(l);
    NewestIsLast(l);
    forall commit, i: nat | commit in l.wal && i < |l.files| && l.files[i].seen.Live()
      ensures commit in l.files[i].data <==> l.files[i].start < commit.lsn <= l.files[i].Lsn()
    {
      InInterval(l, commit, i);
    }
    forall commit, i: nat, j: nat | HeldBy(l.files, i, commit) && HeldBy(l.files, j, commit)
      ensures i == j
    {
      HeldIsCommitted(l, commit, i);
      if i < j {
        OneFile(l, commit, i, j);
      } else if j < i {
        OneFile(l, commit, j, i);
      }
    }
    forall commit | commit in l.wal
      ensures commit.lsn <= NewestLive(l.files) <==> exists i: nat :: HeldBy(l.files, i, commit)
    {
      InSomeFile(l, commit);
    }
    ConfirmedIsLogged(l);
  }

  lemma ConfirmedIsLogged(l: LogDir.State)
    requires Basic(l) && LogOk(l)
    ensures l.confirmed <= NewestLive(l.files)
  {
    hide Logged, Acked, NewestLive;
    NewestIsLast(l);
  }

  /**
   Exactly once in the log: in every run of the script, with commits and crashes at any time, the
   intervals of the log files are consecutive, a file holds exactly the transactions of its interval,
   each transaction up to the newest file is in exactly one file, and the slot is never ahead of them.
   */
  lemma {:induction false} ExactlyOnceLogged(c: CycleState, actions: seq<CycleAction>)
    requires Cycle.Init(c) && IsRun(c, actions)
    ensures OnceInLog(Run(c, actions).p.log)
  {
    Cycle.InitInv(c);
    RunKeeps(c, actions);
    hide Pipeline.FilesOk, Pipeline.NumberingOk, LogDir.Inv, LogDir.Sound, LogOk, ToolsOk, PhaseOk, PublishedOk,
         OnceInLog;
    LogOkIsOnce(Run(c, actions).p.log);
  }

  lemma RenamePhase(c: CycleState)
    requires Cycle.Possible(c, Do(Pipeline.LogAction(RenameNew))) && Cycle.Inv(c)
    ensures LogDir.Inv(c.p.log) && LogOk(c.p.log) && CaughtUp(c.p.log)
  {
    hide LogDir.Inv, LogDir.Sound, LogDir.Step, LogOk, CaughtUp, IsNext, PublishedOk, Pipeline.NumberingOk,
         Pipeline.FilesOk, After, NewestLog, DurableFile;
  }

  /** In the script get-log renames its file only when the slot has confirmed all log files there are. */
  lemma ScriptRenamesInOrder(c: CycleState)
    requires Cycle.Possible(c, Do(Pipeline.LogAction(RenameNew))) && Cycle.Inv(c)
    ensures LogOnce.SlotKnowsAll(c.p.log)
  {
    RenamePhase(c);
    hide Cycle.Possible, Cycle.Inv, LogDir.Inv, LogDir.Sound, LogOk, Basic, Logged, Acked, NewestLive;
    InvIsBasic(c.p.log);
    NewestIsLast(c.p.log);
    if LoggedCount(c.p.log) > 0 {
      ConfirmedIsLast(c.p.log);
    }
  }

  // --- Every transaction is in one diff --------------------------------------------------------------------

  /** The diff with this number was made from a log file with the transaction. */
  ghost predicate InDiff(p: Pipeline.State, n: nat, commit: Commit) {
    n in p.seen.osc && exists i :: i in p.seen.osc[n] && i < |p.log.files| && commit in p.log.files[i].data
  }

  lemma InDiffFile(p: Pipeline.State, n: nat, commit: Commit) returns (i: nat)
    requires InDiff(p, n, commit) && PublishedOk(p)
    ensures n in p.seen.osc && i in p.seen.osc[n] && HeldBy(p.log.files, i, commit)
  {
    i :| i in p.seen.osc[n] && i < |p.log.files| && commit in p.log.files[i].data;
  }

  lemma DiffFacts(p: Pipeline.State)
    requires Pipeline.Inv(p)
    ensures Pipeline.Disjoint(p.seen)
    ensures !p.lock ==> forall i: nat :: i < |p.log.files| ==>
                                           (p.log.files[i].seen == Done <==> Pipeline.Published(p.seen, i))
  {
    hide LogDir.Inv, LogDir.Sound, Pipeline.Prefix, Pipeline.TmpOk, Pipeline.ChosenOk;
  }

  /** A transaction is in one diff at most, and without lock file in one if its log file is done. */
  lemma {:induction false} DiffsOnce(p: Pipeline.State)
    requires Pipeline.Inv(p) && PublishedOk(p) && OnceInLog(p.log)
    ensures forall m, n, commit :: InDiff(p, m, commit) && InDiff(p, n, commit) ==> m == n
    ensures !p.lock ==> forall i: nat, commit :: HeldBy(p.log.files, i, commit) ==>
                                                   (p.log.files[i].seen == Done <==> exists n :: InDiff(p, n, commit))
  {
    DiffFacts(p);
    hide Pipeline.Inv, Consecutive, NewestLive, InDiff, PublishedOk;
    forall m, n, commit | InDiff(p, m, commit) && InDiff(p, n, commit)
      ensures m == n
    {
      var i := InDiffFile(p, m, commit);
      var j := InDiffFile(p, n, commit);
    }
    if !p.lock {
      forall i: nat, commit | HeldBy(p.log.files, i, commit)
        ensures p.log.files[i].seen == Done <==> exists n :: InDiff(p, n, commit)
      {
        if p.log.files[i].seen == Done {
          var n := DiffOf(p, i, commit);
        }
        if n :| InDiff(p, n, commit) {
          var j := InDiffFile(p, n, commit);
          assert Pipeline.Published(p.seen, j);
        }
      }
    }
  }

  lemma DiffOf(p: Pipeline.State, i: nat, commit: Commit) returns (n: nat)
    requires Pipeline.Published(p.seen, i) && HeldBy(p.log.files, i, commit)
    ensures InDiff(p, n, commit)
  {
    n :| n in p.seen.osc && i in p.seen.osc[n];
  }

  /**
   Exactly once published: in every run of the script no transaction is in two diffs, and whenever
   the lock file is absent a logged transaction is published if and only if its log file is `.done`.
   */
  lemma {:induction false} ExactlyOncePublished(c: CycleState, actions: seq<CycleAction>)
    requires Cycle.Init(c) && IsRun(c, actions)
    ensures var p := Run(c, actions).p;
            && (forall m, n, commit :: InDiff(p, m, commit) && InDiff(p, n, commit) ==> m == n)
            && (!p.lock ==> forall i: nat, commit :: HeldBy(p.log.files, i, commit) ==>
                              (p.log.files[i].seen == Done <==> exists n :: InDiff(p, n, commit)))
  {
    Cycle.InitInv(c);
    RunKeeps(c, actions);
    ExactlyOnceLogged(c, actions);
    hide Pipeline.Inv, LogOk, ToolsOk, PhaseOk, PublishedOk, OnceInLog;
    DiffsOnce(Run(c, actions).p);
  }

  /**
   The published prefix in runs of the script: complete if and only if the first-level directory of the
   number in `state.txt` is there, and always so without lock file.
   */
  lemma {:induction false} PrefixPublished(c: CycleState, actions: seq<CycleAction>)
    requires Cycle.Init(c) && IsRun(c, actions)
    ensures var p := Run(c, actions).p;
            && (Pipeline.PrefixComplete(p) <==> Pipeline.LastDirIn(p.first, p.seen.top, p.seen.dirs))
            && (!p.lock ==> Pipeline.PrefixComplete(p))
  {
    Cycle.InitInv(c);
    RunKeeps(c, actions);
    hide Pipeline.Inv, LogOk, ToolsOk, PhaseOk, PublishedOk, Pipeline.PrefixComplete;
    Pipeline.PrefixCompleteExactly(Run(c, actions).p);
  }
}
