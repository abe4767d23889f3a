/**
 How the programs end: after an orderly end or a failure the PID file is gone and the next one can start,
 after a kill it stays and nobody can, until the host crashes or somebody removes it.
 */
module Endings {
  import opened LogDir
  import LogOnce
  import Pipeline

  /** The end of a program that removes its PID file, in failure or success. */
  predicate IsOrderly(a: Action) {
    a.GetExit? || a.GetFail? || a.CatchupExit? || a.CatchupFail?
  }

  predicate IsKill(a: Action) {
    a.GetKill? || a.CatchupKill?
  }

  /** Then both programs can start. */
  lemma OrderlyEndFrees(s: State, a: Action)
    requires Sound(s) && Possible(s, a) && IsOrderly(a)
    ensures Possible(Step(s, a), GetStart) && Possible(Step(s, a), CatchupStart)
  {
    hide FileOk, GetLogOk, CatchupOk, Increasing, After;
  }

  /** A PID file, and no program that would remove it. */
  predicate Blocked(s: State) {
    s.pidFile && s.getLog == GetIdle && s.catchup == CatchupIdle
  }

  lemma KillBlocks(s: State, a: Action)
    requires Sound(s) && Possible(s, a) && IsKill(a)
    ensures Blocked(Step(s, a)) && Step(s, a).files == s.files && Step(s, a).confirmed == s.confirmed
  {
    hide FileOk, GetLogOk, CatchupOk, Increasing, After;
  }

  /** Nothing is logged and nothing is confirmed: at most log files are marked as done. */
  ghost predicate OnlyMarked(before: State, after: State) {
    && before.wal <= after.wal && after.confirmed == before.confirmed && |after.files| == |before.files|
    && forall i :: 0 <= i < |before.files| ==>
                     && after.files[i].data == before.files[i].data
                     && (after.files[i].seen == before.files[i].seen
                         || (before.files[i].seen == Log && after.files[i].seen == Done))
  }

  lemma BlockedStep(s: State, a: Action)
    requires Blocked(s) && Possible(s, a) && !a.Crash?
    ensures Blocked(Step(s, a)) && OnlyMarked(s, Step(s, a))
  {
  }

  lemma {:induction false} BlockedRun(s: State, actions: seq<Action>)
    requires Blocked(s) && LogOnce.CanRun(s, actions) && forall i :: 0 <= i < |actions| ==> !actions[i].Crash?
    ensures Blocked(LogOnce.Reached(s, actions)) && OnlyMarked(s, LogOnce.Reached(s, actions))
    decreases |actions|
  {
    hide Possible, Step, Blocked;
    if actions != [] {
      BlockedStep(s, actions[0]);
      BlockedRun(Step(s, actions[0]), actions[1..]);
    }
  }

  /**
   After a kill neither program gets anywhere as long as the host stays up: in every run nothing is logged
   and the slot does not move, whatever is tried and however often.
   */
  lemma {:induction false} KilledForever(s: State, a: Action, actions: seq<Action>)
    requires Sound(s) && Possible(s, a) && IsKill(a) && LogOnce.CanRun(Step(s, a), actions)
    requires forall i :: 0 <= i < |actions| ==> !actions[i].Crash?
    ensures var end := LogOnce.Reached(Step(s, a), actions);
            && Blocked(end) && OnlyMarked(Step(s, a), end)
            && !Possible(end, GetStart) && !Possible(end, CatchupStart)
  {
    KillBlocks(s, a);
    BlockedRun(Step(s, a), actions);
    hide Sound, After;
  }

  // --- create-diff ----------------------------------------------------------------------------------

  predicate IsDiffEnd(a: Pipeline.Action) {
    a.NothingToDo? || a.DryRunExit? || a.Exit? || a.Fail?
  }

  /** Then create-diff can start again; the end changes no directory but that of the PID file. */
  lemma DiffEndFrees(s: Pipeline.State, a: Pipeline.Action)
    requires Pipeline.Possible(s, a) && IsDiffEnd(a)
    ensures var end := Pipeline.Step(s, a);
            && Pipeline.Possible(end, Pipeline.Start)
            && end.log == s.log && end.tmp == s.tmp && end.lock == s.lock && end.seen == s.seen && end.synced == s.synced
  {
    hide Pipeline.Selected;
  }

  /** The PID file of a create-diff that is dead. */
  predicate DiffBlocked(s: Pipeline.State) {
    s.diffPid && s.diff.pc == Pipeline.IDLE
  }

  /** Nothing is published or marked, and the tmp directory stays as it is. */
  ghost predicate NothingDiffed(before: Pipeline.State, after: Pipeline.State) {
    && after.seen == before.seen && after.synced == before.synced && after.tmp == before.tmp && after.lock == before.lock
    && |before.log.files| <= |after.log.files|
    && forall i :: 0 <= i < |before.log.files| && after.log.files[i].seen == Done ==> before.log.files[i].seen == Done
  }

  lemma DiffBlockedStep(s: Pipeline.State, a: Pipeline.Action)
    requires DiffBlocked(s) && Pipeline.Possible(s, a) && !a.HostCrash?
    ensures DiffBlocked(Pipeline.Step(s, a)) && NothingDiffed(s, Pipeline.Step(s, a))
  {
    hide Pipeline.Selected, Pipeline.Readable, NewestLog, After, HasActualData;
  }

  lemma {:induction false} DiffBlockedRun(s: Pipeline.State, actions: seq<Pipeline.Action>)
    requires DiffBlocked(s) && Pipeline.IsRun(s, actions) && forall i :: 0 <= i < |actions| ==> !actions[i].HostCrash?
    ensures DiffBlocked(Pipeline.Run(s, actions)) && NothingDiffed(s, Pipeline.Run(s, actions))
    decreases |actions|
  {
    hide Pipeline.Possible, Pipeline.Step, Pipeline.Documented, DiffBlocked;
    if actions != [] {
      DiffBlockedStep(s, actions[0]);
      DiffBlockedRun(Pipeline.Step(s, actions[0]), actions[1..]);
    }
  }

  /** After a kill no create-diff gets anywhere as long as the host stays up, whatever the other programs do. */
  lemma {:induction false} DiffKilledForever(s: Pipeline.State, actions: seq<Pipeline.Action>)
    requires Pipeline.Inv(s) && Pipeline.Possible(s, Pipeline.Kill)
    requires Pipeline.IsRun(Pipeline.Step(s, Pipeline.Kill), actions)
    requires forall i :: 0 <= i < |actions| ==> !actions[i].HostCrash?
    ensures var end := Pipeline.Run(Pipeline.Step(s, Pipeline.Kill), actions);
            DiffBlocked(end) && NothingDiffed(s, end) && !Pipeline.Possible(end, Pipeline.Start)
  {
    assert DiffBlocked(Pipeline.Step(s, Pipeline.Kill));
    DiffBlockedRun(Pipeline.Step(s, Pipeline.Kill), actions);
    hide Pipeline.Inv;
  }

  // --- PID files ------------------------------------------------------------------------------------

  /** Only a start makes a PID file, and only the end of its program or a host crash takes it away. */
  lemma PidFilesFollowPrograms(s: Pipeline.State, a: Pipeline.Action)
    requires Pipeline.Possible(s, a)
    ensures var next := Pipeline.Step(s, a);
            && (next.diffPid && !s.diffPid ==> a == Pipeline.Start)
            && (s.diffPid && !next.diffPid ==> IsDiffEnd(a) || a.HostCrash?)
            && (next.log.pidFile && !s.log.pidFile ==>
                  a in {Pipeline.LogAction(GetStart), Pipeline.LogAction(CatchupStart)})
            && (s.log.pidFile && !next.log.pidFile ==> (a.LogAction? && IsOrderly(a.a)) || a.HostCrash?)
  {
    hide Pipeline.Selected, Pipeline.Readable, NewestLog, After, HasActualData, Pipeline.CrashChanges;
  }

  lemma CrashMayKeepLogs(s: State) returns (places: seq<Place>)
    requires Sound(s)
    ensures CrashPlaces(s.files, places) && forall i :: 0 <= i < |s.files| ==> places[i] == s.files[i].seen
  {
    places := seq(|s.files|, i requires 0 <= i < |s.files| => s.files[i].seen);
    forall i | 0 <= i < |s.files|
      ensures s.files[i].durable.Rank() <= places[i].Rank()
    {
      assert FileOk(s, s.files[i]);
    }
  }

  lemma CrashMayKeepChanges(s: Pipeline.State)
    requires Pipeline.SyncedOk(s) && Pipeline.DirsOk(s)
    ensures Pipeline.CrashChanges(s.synced, s.seen, s.seen)
  {
  }

  /** After a host crash each PID file may be left or not, also when everything else has reached the disk. */
  lemma CrashMayLeave(s: Pipeline.State, logPidLeft: bool, diffPidLeft: bool) returns (a: Pipeline.Action)
    requires Pipeline.Inv(s) && (logPidLeft ==> s.log.pidFile) && (diffPidLeft ==> s.diffPid)
    ensures Pipeline.Possible(s, a) && a.HostCrash?
    ensures var next := Pipeline.Step(s, a);
            && next.seen == s.seen && next.tmp == s.tmp && next.lock == s.lock
            && next.log.pidFile == logPidLeft && next.diffPid == diffPidLeft
            && next.log.getLog == GetIdle && next.log.catchup == CatchupIdle && next.diff.pc == Pipeline.IDLE
            && |next.log.files| == |s.log.files|
            && forall i :: 0 <= i < |s.log.files| ==> next.log.files[i].seen == s.log.files[i].seen
  {
    var places := CrashMayKeepLogs(s.log);
    CrashMayKeepChanges(s);
    hide Pipeline.Inv, Pipeline.CrashChanges, CrashPlaces;
    a := Pipeline.HostCrash(places, logPidLeft, diffPidLeft, s.tmp, s.lock, s.seen);
    assert LogDir.Possible(s.log, Crash(places, logPidLeft));
  }

  /** What of the changes directory is safe on disk. */
  function SafeChanges(synced: Pipeline.Changes): Pipeline.Changes {
    Pipeline.Changes(synced.dirs, map n | n in synced.osc && Pipeline.Dir(n) in synced.dirs :: synced.osc[n],
                     map n | n in synced.states && Pipeline.Dir(n) in synced.dirs :: synced.states[n], synced.top)
  }

  lemma CrashMayLoseLogs(s: State) returns (places: seq<Place>)
    requires Sound(s)
    ensures CrashPlaces(s.files, places) && forall i :: 0 <= i < |s.files| ==> places[i] == s.files[i].durable
  {
    places := seq(|s.files|, i requires 0 <= i < |s.files| => s.files[i].durable);
    forall i | 0 <= i < |s.files|
      ensures places[i].Rank() <= s.files[i].seen.Rank()
    {
      assert FileOk(s, s.files[i]);
    }
  }

  lemma CrashMayLoseChanges(s: Pipeline.State)
    requires Pipeline.SyncedOk(s) && Pipeline.DirsOk(s)
    ensures Pipeline.CrashChanges(s.synced, s.seen, SafeChanges(s.synced))
  {
  }

  /** A host crash may lose everything that was not synced, in both directories. */
  lemma CrashMayLose(s: Pipeline.State) returns (a: Pipeline.Action)
    requires Pipeline.Inv(s)
    ensures Pipeline.Possible(s, a) && a.HostCrash?
    ensures var next := Pipeline.Step(s, a);
            && next.seen == SafeChanges(s.synced) && next.lock == s.lockDurable
            && |next.log.files| == |s.log.files|
            && forall i :: 0 <= i < |s.log.files| ==> next.log.files[i].seen == s.log.files[i].durable
  {
    var places := CrashMayLoseLogs(s.log);
    CrashMayLoseChanges(s);
    hide Pipeline.Inv, Pipeline.CrashChanges, CrashPlaces, SafeChanges;
    a := Pipeline.HostCrash(places, false, false, s.tmp, s.lockDurable, SafeChanges(s.synced));
    assert LogDir.Possible(s.log, Crash(places, false));
  }

  /** A log file that get-log has renamed and not synced can come out of a crash as itself, as `.new`, or not at all. */
  lemma UnsyncedLogInCrash(s: State, place: Place) returns (a: Action)
    requires Sound(s) && Possible(s, WriteNew) && place in {Absent, New, Log}
    ensures var renamed := Step(Step(s, WriteNew), RenameNew);
            Possible(renamed, a) && a.Crash? && |Step(renamed, a).files| == |s.files| + 1
            && Step(renamed, a).files[|s.files|].seen == place
            && forall i :: 0 <= i < |s.files| ==> Step(renamed, a).files[i].seen == s.files[i].seen
  {
    var places := CrashMayKeepLogs(s);
    a := Crash(places + [place], false);
    hide Sound, HasActualData, LastLsn;
  }
}
