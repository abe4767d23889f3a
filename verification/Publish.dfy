/**
 One run of osmdbt-create-diff from start to end, nobody else interfering: the order of effects in
 src/osmdbt-create-diff.cpp as a program over the step machine of module Pipeline. When does a run
 publish, what is there afterwards, and what does a run that does not publish leave behind?
 */
module Publish {
  import opened Wrappers
  import opened Timestamps
  import LogDir
  import StateFile
  import SequencePath
  import opened Pipeline

  datatype Outcome =
    | PidFileExists | NothingFound | NoStateFile | StateFileUnreadable | NumberAtBound | StateFileLeftOver
    | LockFileExists | DryRun | NumberTooLarge | Complete

  datatype Options = Options(limit: nat, init: nat, dryRun: bool)

  /** A run of the machine, extended by one step. */
  lemma Then(start: State, actions: seq<Action>, s: State, a: Action)
    requires IsRun(start, actions) && Run(start, actions) == s && Enabled(s, a)
    ensures IsRun(start, actions + [a]) && Run(start, actions + [a]) == Step(s, a)
    decreases |actions|
  {
    hide Enabled, Step;
    if actions == [] {
      assert [] + [a] == [a] && [a][1..] == [];
    } else {
      assert (actions + [a])[0] == actions[0] && (actions + [a])[1..] == actions[1..] + [a];
      Then(Step(start, actions[0]), actions[1..], s, a);
    }
  }

  /** The state that a sequence of possible steps leads to, whatever the sequence number on the command line. */
  ghost predicate Leads(start: State, actions: seq<Action>, end: State)
    decreases |actions|
  {
    if actions == [] then end == start
    else Possible(start, actions[0]) && Leads(Step(start, actions[0]), actions[1..], end)
  }

  lemma LeadsOn(start: State, actions: seq<Action>, s: State, a: Action)
    requires Leads(start, actions, s) && Possible(s, a)
    ensures Leads(start, actions + [a], Step(s, a))
    decreases |actions|
  {
    hide Possible, Step;
    if actions == [] {
      assert [] + [a] == [a] && [a][1..] == [];
    } else {
      assert (actions + [a])[0] == actions[0] && (actions + [a])[1..] == actions[1..] + [a];
      LeadsOn(Step(start, actions[0]), actions[1..], s, a);
    }
  }

  /**
   The machine as the program sees it, with the actions taken so far. As long as they are those of
   documented use they form a run.
   */
  class Machine {
    var s: State
    ghost const start: State
    ghost var actions: seq<Action>
    ghost var documented: bool

    ghost predicate Valid()
      reads this
    {
      Leads(start, actions, s) && (documented ==> IsRun(start, actions) && Run(start, actions) == s)
    }

    constructor (s: State)
      ensures Valid() && this.s == s && start == s && documented
    {
      this.s, start, actions, documented := s, s, [], true;
    }

    method Do(a: Action)
      requires Valid() && Possible(s, a)
      modifies this
      ensures Valid() && s == Step(old(s), a) && actions == old(actions) + [a]
      ensures documented == (old(documented) && Enabled(old(s), a))
    {
      LeadsOn(start, actions, s, a);
      if documented && Enabled(s, a) {
        Then(start, actions, s, a);
      }
      s, actions, documented := Step(s, a), actions + [a], documented && Enabled(s, a);
    }
  }

  /** The state that a run would write; there is none without readable state file or when its number is at the bound. */
  function NextState(top: Option<DiffState>, init: nat, timestamp: Timestamp): Option<DiffState> {
    if init != 0 then Some(StateFile.State(init, timestamp))
    else if Readable(top) && top.value.sequenceNumber < SequencePath.MAX_SEQUENCE
    then Some(SequencePath.Next(top.value, timestamp)) else None
  }

  /** What ends a run without next state: there is no `state.txt`, its constructor throws, or the assertion fails. */
  function NoNextState(top: Option<DiffState>): Outcome {
    if top == None then NoStateFile else if !Readable(top) then StateFileUnreadable else NumberAtBound
  }

  /** What keeps a run from publishing, in the order of the program. */
  function ExpectedOutcome(s: State, options: Options, timestamp: Timestamp): Outcome {
    var next := NextState(s.seen.top, options.init, timestamp);
    if s.diffPid then PidFileExists
    else if Selected(s.log.files, options.limit) == [] then NothingFound
    else if next == None then NoNextState(s.seen.top)
    else if s.tmp.state.Some? || s.tmp.copy.Some? then StateFileLeftOver
    else if options.dryRun then DryRun
    else if s.lock then LockFileExists
    else if next.value.sequenceNumber > SequencePath.MAX_SEQUENCE then NumberTooLarge
    else Complete
  }

  /** The log files after marking the chosen ones and syncing the directory. */
  ghost predicate Marked(before: seq<LogDir.LogFile>, after: seq<LogDir.LogFile>, chosen: seq<nat>) {
    && |after| == |before|
    && forall i: nat :: i < |before| ==>
                          if i in chosen then after[i] == before[i].(seen := LogDir.Done, durable := LogDir.Done)
                          else after[i] == before[i].(durable := before[i].seen)
  }

  /** Everything is in place and safe on disk, and nothing is left over. */
  ghost predicate PublishedState(before: State, after: State, chosen: seq<nat>, next: DiffState) {
    && after.seen == Changes(before.seen.dirs + {Dir(next.sequenceNumber)}, before.seen.osc[next.sequenceNumber := chosen],
                             before.seen.states[next.sequenceNumber := next], Some(next))
    && after.synced == after.seen
    && after.first == (if before.seen.top == None then Some(next.sequenceNumber) else before.first)
    && !after.lock && !after.lockDurable && !after.diffPid && after.tmp == Tmp(None, None, None)
    && after.diff == NO_DIFF
    && after.log == before.log.(files := after.log.files) && Marked(before.log.files, after.log.files, chosen)
  }

  /** The published and the log directory are as before. */
  predicate NothingPublished(before: State, after: State) {
    after.seen == before.seen && after.synced == before.synced && after.log == before.log && after.lock == before.lock
  }

  /** The files are as the choice needs them, before any of them is renamed. */
  predicate CanMark(files: seq<LogDir.LogFile>, chosen: seq<nat>) {
    && (forall k :: 0 <= k < |chosen| ==> chosen[k] < |files| && files[chosen[k]].seen == LogDir.Log)
    && forall k, l :: 0 <= k < l < |chosen| ==> chosen[k] < chosen[l]
  }

  lemma MarkStep(s: State)
    requires s.diff.pc == MARKING && s.diff.marked < |s.diff.chosen|
    requires s.diff.chosen[s.diff.marked] < |s.log.files| && s.log.files[s.diff.chosen[s.diff.marked]].seen == LogDir.Log
    ensures Possible(s, MarkLog) && Enabled(s, MarkLog)
    ensures var i := s.diff.chosen[s.diff.marked];
            Step(s, MarkLog) == s.(log := s.log.(files := s.log.files[i := s.log.files[i].(seen := LogDir.Done)]),
                                   diff := s.diff.(marked := s.diff.marked + 1))
  {
  }

  /** The first `k` chosen files are renamed, and no other. */
  ghost predicate MarkedUpTo(before: seq<LogDir.LogFile>, files: seq<LogDir.LogFile>, chosen: seq<nat>, k: nat)
    requires k <= |chosen| && CanMark(before, chosen)
  {
    && |files| == |before|
    && (forall j :: 0 <= j < k ==> files[chosen[j]] == before[chosen[j]].(seen := LogDir.Done))
    && (forall i :: 0 <= i < |before| && i !in chosen[..k] ==> files[i] == before[i])
  }

  lemma MarkNext(before: seq<LogDir.LogFile>, files: seq<LogDir.LogFile>, chosen: seq<nat>, k: nat)
    requires k < |chosen| && CanMark(before, chosen) && MarkedUpTo(before, files, chosen, k)
    ensures files[chosen[k]].seen == LogDir.Log
    ensures MarkedUpTo(before, files[chosen[k] := files[chosen[k]].(seen := LogDir.Done)], chosen, k + 1)
  {
    assert chosen[k] !in chosen[..k];
    assert chosen[..k + 1] == chosen[..k] + [chosen[k]];
  }

  lemma MarkedAll(before: seq<LogDir.LogFile>, files: seq<LogDir.LogFile>, chosen: seq<nat>)
    requires CanMark(before, chosen) && MarkedUpTo(before, files, chosen, |chosen|)
    ensures Marked(before, LogDir.Synced(files), chosen)
  {
    assert chosen[..|chosen|] == chosen;
  }

  /** The loop that renames the log files, and the sync behind it. */
  method MarkLogs(m: Machine)
    requires m.Valid() && m.s.diff.pc == MARKING && m.s.diff.marked == 0 && CanMark(m.s.log.files, m.s.diff.chosen)
    modifies m
    ensures m.Valid() && Marked(old(m.s.log.files), m.s.log.files, old(m.s.diff.chosen))
    ensures m.documented == old(m.documented)
    ensures m.s == old(m.s).(log := old(m.s.log).(files := m.s.log.files),
                             diff := old(m.s.diff).(pc := LOG_SYNCED, marked := |old(m.s.diff.chosen)|))
  {
    hide Enabled, Possible, Step, Leads, IsRun, Run, Marked, MarkedUpTo;
    ghost var before := m.s;
    var chosen := m.s.diff.chosen;
    NothingMarked(before.log.files, chosen);
    for k := 0 to |chosen|
      invariant m.Valid() && m.documented == old(m.documented)
      invariant m.s == before.(log := before.log.(files := m.s.log.files), diff := before.diff.(marked := k))
      invariant |m.s.log.files| == |before.log.files| && MarkedUpTo(before.log.files, m.s.log.files, chosen, k)
    {
      MarkNext(before.log.files, m.s.log.files, chosen, k);
      MarkStep(m.s);
      m.Do(MarkLog);
    }
    MarkedAll(before.log.files, m.s.log.files, chosen);
    SyncStep(m.s);
    m.Do(SyncLogDir);
  }

  lemma NothingMarked(files: seq<LogDir.LogFile>, chosen: seq<nat>)
    requires CanMark(files, chosen)
    ensures MarkedUpTo(files, files, chosen, 0)
  {
  }

  lemma SyncStep(s: State)
    requires s.diff.pc == MARKING && s.diff.marked == |s.diff.chosen|
    ensures Possible(s, SyncLogDir) && Enabled(s, SyncLogDir)
    ensures Step(s, SyncLogDir)
            == s.(log := s.log.(files := LogDir.Synced(s.log.files)), diff := s.diff.(pc := LOG_SYNCED))
  {
  }

  /** From the directories to `state.txt`: the change file, the state file, and the top one, each synced. */
  method MoveIntoPlace(m: Machine)
    requires m.Valid() && m.s.diff.pc == TMP_SYNCED && m.s.diff.next.sequenceNumber <= SequencePath.MAX_SEQUENCE
    requires m.s.tmp == Tmp(Some(m.s.diff.chosen), Some(m.s.diff.next), Some(m.s.diff.next))
    modifies m
    ensures m.Valid() && m.documented == old(m.documented)
    ensures var before, next, chosen := old(m.s), old(m.s.diff.next), old(m.s.diff.chosen);
            var seen := Changes(before.seen.dirs + {Dir(next.sequenceNumber)},
                                before.seen.osc[next.sequenceNumber := chosen],
                                before.seen.states[next.sequenceNumber := next], Some(next));
            m.s == before.(diff := before.diff.(pc := MARKING), tmp := Tmp(None, None, None), seen := seen, synced := seen,
                           first := if before.seen.top == None then Some(next.sequenceNumber) else before.first)
  {
    hide LogDir.Step, LogDir.Possible, LogDir.Enabled, Selected, IsRun, Run, Leads, Dir;
    m.Do(MakeDirs);
    m.Do(MoveChange);
    m.Do(MoveState);
    m.Do(SyncSubdirs);
    m.Do(MoveTop);
    m.Do(SyncTop);
  }

  /** The critical section and its end. */
  method PublishLocked(m: Machine)
    requires m.Valid() && m.s.diff.pc == TMP_SYNCED && m.s.diff.marked == 0 && m.s.lock
    requires m.s.diff.next.sequenceNumber <= SequencePath.MAX_SEQUENCE && CanMark(m.s.log.files, m.s.diff.chosen)
    requires m.s.tmp == Tmp(Some(m.s.diff.chosen), Some(m.s.diff.next), Some(m.s.diff.next))
    modifies m
    ensures m.Valid() && PublishedState(old(m.s), m.s, old(m.s.diff.chosen), old(m.s.diff.next))
    ensures m.documented == old(m.documented)
  {
    hide LogDir.Step, LogDir.Possible, LogDir.Enabled, Selected, IsRun, Run, Leads, Marked, CanMark, Dir;
    MoveIntoPlace(m);
    MarkLogs(m);
    m.Do(Unlock);
    m.Do(SyncTmpAgain);
    m.Do(Exit);
  }

  lemma SelectedCanBeMarked(files: seq<LogDir.LogFile>, limit: nat)
    ensures CanMark(files, Selected(files, limit))
  {
    hide Selected;
    SelectedOk(files, limit);
  }

  lemma EndSteps(s: State)
    requires s.diff.pc != IDLE
    ensures Possible(s, Fail) && Enabled(s, Fail) && Step(s, Fail) == s.(diff := NO_DIFF, diffPid := false)
    ensures Possible(s, Kill) && Enabled(s, Kill) && Step(s, Kill) == s.(diff := NO_DIFF)
  {
  }

  lemma GetStateStep(s: State, init: nat, timestamp: Timestamp)
    requires s.diff.pc == CHANGE_WRITTEN && NextState(s.seen.top, init, timestamp).Some?
    ensures Possible(s, GetState(init, timestamp))
    ensures Enabled(s, GetState(init, timestamp)) <==> Continues(s.seen.top, init)
    ensures Step(s, GetState(init, timestamp))
            == s.(diff := s.diff.(pc := NUMBER_KNOWN, next := NextState(s.seen.top, init, timestamp).value))
  {
  }

  lemma WriteStateStep(s: State)
    requires s.diff.pc == NUMBER_KNOWN && s.tmp.state == None
    ensures Possible(s, WriteState) && Enabled(s, WriteState)
    ensures Step(s, WriteState) == s.(diff := s.diff.(pc := STATE_WRITTEN), tmp := s.tmp.(state := Some(s.diff.next)))
  {
  }

  lemma WriteCopyStep(s: State)
    requires s.diff.pc == STATE_WRITTEN && s.tmp.copy == None
    ensures Possible(s, WriteCopy) && Enabled(s, WriteCopy)
    ensures Step(s, WriteCopy) == s.(diff := s.diff.(pc := COPY_WRITTEN), tmp := s.tmp.(copy := Some(s.diff.next)))
  {
  }

  /** Writing `new-state.txt` and its copy, or failing because one of them exists. */
  method WriteBoth(m: Machine) returns (ok: bool)
    requires m.Valid() && m.s.diff.pc == NUMBER_KNOWN
    modifies m
    ensures m.Valid() && m.documented == old(m.documented) && NothingPublished(old(m.s), m.s)
    ensures m.s.lockDurable == old(m.s.lockDurable) && m.s.first == old(m.s.first)
    ensures ok <==> old(m.s.tmp).state == None && old(m.s.tmp).copy == None
    ensures var d := old(m.s.diff);
            if ok then
              && m.s.diff == d.(pc := COPY_WRITTEN) && m.s.diffPid == old(m.s.diffPid)
              && m.s.tmp == Tmp(old(m.s.tmp).change, Some(d.next), Some(d.next))
            else m.s.diff == NO_DIFF && !m.s.diffPid
  {
    hide Step, Possible, Enabled, IsRun, Run, Leads;
    EndSteps(m.s);
    if m.s.tmp.state.Some? {
      m.Do(Fail);
      return false;
    }
    WriteStateStep(m.s);
    m.Do(WriteState);
    if m.s.tmp.copy.Some? {
      EndSteps(m.s);
      m.Do(Fail);
      return false;
    }
    WriteCopyStep(m.s);
    m.Do(WriteCopy);
    return true;
  }

  /** `get_state` and the two state files; or what ends the run there. */
  method WriteStates(m: Machine, options: Options, timestamp: Timestamp) returns (outcome: Option<Outcome>)
    requires m.Valid() && m.s.diff.pc == CHANGE_WRITTEN
    modifies m
    ensures m.Valid() && NothingPublished(old(m.s), m.s)
    ensures m.documented == old(m.documented) || !Continues(old(m.s.seen.top), options.init)
    ensures m.s.lockDurable == old(m.s.lockDurable) && m.s.first == old(m.s.first)
    ensures var next := NextState(old(m.s.seen.top), options.init, timestamp);
            match outcome
            case Some(o) =>
              && m.s.diff == NO_DIFF && m.s.diffPid == (o == NumberAtBound && old(m.s.diffPid))
              && o == (if next == None then NoNextState(old(m.s.seen.top)) else StateFileLeftOver)
              && (if next.Some? then old(m.s.tmp).state.Some? || old(m.s.tmp).copy.Some? else m.s.tmp == old(m.s.tmp))
            case None =>
              && next.Some? && m.s.diff == old(m.s.diff).(pc := COPY_WRITTEN, next := next.value)
              && m.s.diffPid == old(m.s.diffPid) && m.s.tmp == Tmp(old(m.s.tmp).change, next, next)
              && old(m.s.tmp).state == None && old(m.s.tmp).copy == None
  {
    hide Step, Possible, Enabled, IsRun, Run, Leads;
    if options.init == 0 {
      EndSteps(m.s);
      if m.s.seen.top == None {
        m.Do(Fail);
        return Some(NoStateFile);
      }
      if StateFile.CheckComplete(m.s.seen.top.value).Failure? {
        m.Do(Fail);
        return Some(StateFileUnreadable);
      }
      if m.s.seen.top.value.sequenceNumber >= SequencePath.MAX_SEQUENCE {
        m.Do(Kill);
        return Some(NumberAtBound);
      }
    }
    GetStateStep(m.s, options.init, timestamp);
    m.Do(GetState(options.init, timestamp));
    var ok := WriteBoth(m);
    return if ok then None else Some(StateFileLeftOver);
  }

  /** Reading the logs and writing everything to the tmp directory; or what ends the run before. */
  method Prepare(m: Machine, options: Options, timestamp: Timestamp) returns (outcome: Option<Outcome>)
    requires m.Valid() && m.s.diff == NO_DIFF
    modifies m
    ensures m.Valid() && NothingPublished(old(m.s), m.s)
    ensures m.documented == old(m.documented) || !Continues(old(m.s.seen.top), options.init)
    ensures m.s.lockDurable == old(m.s.lockDurable) && m.s.first == old(m.s.first)
    ensures match outcome
            case Some(o) =>
              && o == ExpectedOutcome(old(m.s), options, timestamp) && m.s.diff == NO_DIFF
              && !o.DryRun? && !o.Complete? && !o.NumberTooLarge?
              && (o.NothingFound? || o.PidFileExists? ==> m.s.tmp == old(m.s.tmp))
              && (o.NoStateFile? || o.StateFileUnreadable? || o.NumberAtBound? ==>
                    m.s.tmp == old(m.s.tmp).(change := m.s.tmp.change))
              && (m.s.diffPid <==> o.NumberAtBound? || o.PidFileExists?)
            case None =>
              var chosen := Selected(old(m.s.log.files), options.limit);
              var next := NextState(old(m.s.seen.top), options.init, timestamp);
              && next.Some? && m.s.diff == Diff(COPY_WRITTEN, chosen, next.value, 0)
              && m.s.diffPid && m.s.tmp == Tmp(Some(chosen), next, next)
              && !old(m.s.diffPid) && chosen != [] && old(m.s.tmp).state == None && old(m.s.tmp).copy == None
  {
    hide LogDir.Step, LogDir.Possible, LogDir.Enabled, Selected, IsRun, Run, Leads;
    if m.s.diffPid {
      return Some(PidFileExists);
    }
    m.Do(Start);
    if Selected(m.s.log.files, options.limit) == [] {
      m.Do(NothingToDo(options.limit));
      return Some(NothingFound);
    }
    m.Do(Choose(options.limit));
    m.Do(WriteChange);
    outcome := WriteStates(m, options, timestamp);
  }

  /**
   The whole run. It publishes if and only if no PID file, no lock file and no state file of an
   earlier run is in the way, there is something to publish, and the next number is on the command
   line or follows that of a `state.txt` that can be read, and is not beyond the bound; then everything
   is in place and safe on disk. Otherwise nothing published and no log file changes. The two assertions
   about the number end the program at once: the PID file stays, and a number beyond the bound leaves
   the lock file behind as well.
   */
  method App(m: Machine, options: Options, timestamp: Timestamp) returns (outcome: Outcome)
    requires m.Valid() && m.s.diff == NO_DIFF
    modifies m
    ensures m.Valid() && outcome == ExpectedOutcome(old(m.s), options, timestamp)
    ensures m.documented == old(m.documented) || !Continues(old(m.s.seen.top), options.init)
    ensures outcome == Complete ==>
              PublishedState(old(m.s), m.s, Selected(old(m.s.log.files), options.limit),
                             NextState(old(m.s.seen.top), options.init, timestamp).value)
    ensures m.s.diff == NO_DIFF
    ensures outcome != Complete && outcome != NumberTooLarge ==> NothingPublished(old(m.s), m.s)
    ensures outcome == NothingFound || outcome == PidFileExists ==> m.s.tmp == old(m.s.tmp)
    ensures outcome == NoStateFile || outcome == StateFileUnreadable || outcome == NumberAtBound ==>
              m.s.tmp == old(m.s.tmp).(change := m.s.tmp.change)
    ensures outcome == DryRun ==> m.s.tmp.state.Some? && m.s.tmp.copy.Some?
    ensures outcome == NumberTooLarge ==>
              && m.s.seen == old(m.s.seen) && m.s.synced == old(m.s.synced) && m.s.log == old(m.s.log)
              && m.s.lock && m.s.lockDurable
    ensures m.s.diffPid <==> outcome == PidFileExists || outcome == NumberAtBound || outcome == NumberTooLarge
  {
    hide LogDir.Step, LogDir.Possible, LogDir.Enabled, Selected, IsRun, Run, Leads, Marked, CanMark, Dir;
    SelectedCanBeMarked(m.s.log.files, options.limit);
    var failed := Prepare(m, options, timestamp);
    if failed.Some? {
      return failed.value;
    }
    if options.dryRun {
      m.Do(DryRunExit);
      return DryRun;
    }
    if m.s.lock {
      m.Do(Fail);
      return LockFileExists;
    }
    m.Do(WriteLock);
    m.Do(SyncTmp);
    if m.s.diff.next.sequenceNumber > SequencePath.MAX_SEQUENCE {
      m.Do(Kill);
      return NumberTooLarge;
    }
    PublishLocked(m);
    return Complete;
  }

  /** A dry run leaves its state files behind, and so a run after it fails until somebody removes them. */
  method RunAfterDryRun(m: Machine, dry: Options, options: Options, timestamp: Timestamp)
    returns (first: Outcome, second: Outcome)
    requires m.Valid() && m.s.diff == NO_DIFF && dry.dryRun
    modifies m
    ensures first == DryRun ==>
              second == if Selected(old(m.s.log.files), options.limit) == [] then NothingFound
                        else if NextState(old(m.s.seen.top), options.init, timestamp) == None
                        then NoNextState(old(m.s.seen.top))
                        else StateFileLeftOver
  {
    hide LogDir.Step, LogDir.Possible, LogDir.Enabled, Selected, IsRun, Run, Leads, Marked, Step, Enabled, Possible;
    first := App(m, dry, timestamp);
    if first != DryRun {
      return first, first;
    }
    second := App(m, options, timestamp);
  }

  /** Reading back the text that a publication has put into `state.txt`. */
  lemma TopReadable(before: State, after: State, chosen: seq<nat>, next: DiffState, comment: Option<string>)
    requires PublishedState(before, after, chosen, next) && 0 < next.sequenceNumber <= SequencePath.MAX_SEQUENCE
    requires comment.Some? ==> StateFile.IsComment(comment.value)
    ensures after.seen.top.Some? && (Readable(after.seen.top) <==> next.timestamp != EPOCH)
    ensures StateFile.ParseState(StateFile.ToText(after.seen.top.value, comment))
            == StateFile.CheckComplete(after.seen.top.value)
  {
    hide Marked, Dir;
    StateFile.StateRoundTrip(next, comment);
  }

  /**
   After a publication, the next run without a number on the command line that finds something to
   publish fails on `state.txt` if and only if the time stamp in it is the epoch: then its text cannot
   be read back.
   */
  lemma {:induction false} NextRunReadsExactly(
      before: State, after: State, options: Options, timestamp: Timestamp, comment: Option<string>,
      again: Options, later: Timestamp)
    requires before.diff == NO_DIFF && ExpectedOutcome(before, options, timestamp) == Complete
    requires PublishedState(before, after, Selected(before.log.files, options.limit),
                            NextState(before.seen.top, options.init, timestamp).value)
    requires again.init == 0 && (comment.Some? ==> StateFile.IsComment(comment.value))
    ensures ExpectedOutcome(after, again, later) == StateFileUnreadable
            <==> timestamp == EPOCH && Selected(after.log.files, again.limit) != []
    ensures after.seen.top.Some?
    ensures StateFile.ParseState(StateFile.ToText(after.seen.top.value, comment)).Failure? <==> timestamp == EPOCH
  {
    hide Selected, Marked, Dir, StateFile.ParseState, StateFile.ToText;
    TopReadable(before, after, Selected(before.log.files, options.limit),
                NextState(before.seen.top, options.init, timestamp).value, comment);
  }

  /**
   A sequence number on the command line when there is a `state.txt`: the number grows and the
   published prefix stays complete if and only if it is the next number. A number in the prefix
   replaces the files it has.
   */
  lemma SequenceNumberExactly(before: State, after: State, chosen: seq<nat>, next: DiffState)
    requires Inv(before) && !before.lock && before.diff == NO_DIFF && before.seen.top.Some?
    requires PublishedState(before, after, chosen, next)
    ensures PrefixComplete(after) && next.sequenceNumber > before.seen.top.value.sequenceNumber
            <==> next.sequenceNumber == before.seen.top.value.sequenceNumber + 1
    ensures InPrefix(before.first, before.seen.top, next.sequenceNumber) <==> next.sequenceNumber in before.seen.osc
    ensures InPrefix(before.first, before.seen.top, next.sequenceNumber) <==> next.sequenceNumber in before.seen.states
  {
    PrefixCompleteExactly(before);
    hide LogDir.Sound, FilesOk, ChosenOk, TmpOk, NextOk, Prefix, DirsOk, SyncedOk, Marked, Dir;
    var gap := before.seen.top.value.sequenceNumber + 1;
    assert gap !in before.seen.osc;
    assert gap != next.sequenceNumber ==> gap !in after.seen.osc;
  }
}
