/**
 The whole pipeline as a step machine: the log directory of module LogDir, and osmdbt-create-diff
 with each of its file-system effects in the order of src/osmdbt-create-diff.cpp.

 A diff is known by the log files it was made from. `seen` is the changes directory as listed,
 `synced` what each of its directories had when it was last synced: the top directory its first-level
 directories and `state.txt`, the directories below them their files. A file is safe on disk when it
 is synced in its directory and the first-level directory above it is synced in the top directory.
 */
module Pipeline {
  import opened Wrappers
  import opened OsmObjects
  import opened Timestamps
  import StateFile
  import SequencePath
  import Draining
  import LogDir

  type DiffState = StateFile.State

  /** The changes directory: first-level directories, numbered change and state files, and `state.txt`. */
  datatype Changes = Changes(
    dirs: set<nat>, osc: map<nat, seq<nat>>, states: map<nat, DiffState>, top: Option<DiffState>)

  /** The first-level directory of a number's files, as a number. */
  function Dir(n: nat): nat {
    n / SequencePath.PER_DIR1
  }

  /** The tmp directory without the lock file: `new-change`, `new-state.txt` and its copy. */
  datatype Tmp = Tmp(change: Option<seq<nat>>, state: Option<DiffState>, copy: Option<DiffState>)

  /** The program counter of create-diff: the last effect that is done. */
  type Pc = nat

  const IDLE: Pc := 0  // not running
  const STARTED: Pc := 1  // holds its PID file
  const CHOSEN: Pc := 2  // knows the log files it uses
  const CHANGE_WRITTEN: Pc := 3  // `new-change` is in the tmp directory
  const NUMBER_KNOWN: Pc := 4  // knows the sequence number
  const STATE_WRITTEN: Pc := 5  // `new-state.txt` is in the tmp directory
  const COPY_WRITTEN: Pc := 6  // so is its copy
  const LOCKED: Pc := 7  // the lock file exists
  const TMP_SYNCED: Pc := 8  // the tmp directory is synced
  const DIRS_MADE: Pc := 9  // the directories for the new files exist
  const CHANGE_MOVED: Pc := 10  // the change file is in its final place
  const STATE_MOVED: Pc := 11  // so is the state file
  const SUBDIRS_SYNCED: Pc := 12  // their directories are synced
  const TOP_MOVED: Pc := 13  // `state.txt` is replaced
  const MARKING: Pc := 14  // the changes directory is synced; log files are being renamed
  const LOG_SYNCED: Pc := 15  // the log directory is synced
  const UNLOCKED: Pc := 16  // the lock file is removed
  const FINISHED: Pc := 17  // the tmp directory is synced again

  /** The local variables: the log files read, the new state, and how many files are renamed already. */
  datatype Diff = Diff(pc: Pc, chosen: seq<nat>, next: DiffState, marked: nat)

  datatype State = State(
    log: LogDir.State,
    diff: Diff,
    diffPid: bool,
    tmp: Tmp,
    lock: bool,
    lockDurable: bool,
    seen: Changes,
    synced: Changes,
    first: Option<nat>)

  datatype Action =
    | LogAction(a: LogDir.Action)
    | Start | NothingToDo(limit: nat) | Choose(limit: nat) | WriteChange | GetState(init: nat, timestamp: Timestamp)
    | WriteState | WriteCopy | DryRunExit
    | WriteLock | SyncTmp | MakeDirs | MoveChange | MoveState | SyncSubdirs | MoveTop | SyncTop
    | MarkLog | SyncLogDir | Unlock | SyncTmpAgain | Exit
    | Fail | Kill
    | HostCrash(places: seq<LogDir.Place>, logPidLeft: bool, diffPidLeft: bool, tmp: Tmp, lock: bool, changes: Changes)

  // --- The steps ---------------------------------------------------------------------------------

  /** The `.log` files in the order of their names. */
  function LogList(files: seq<LogDir.LogFile>): seq<nat> {
    if files == [] then []
    else
      var rest := LogList(files[..|files| - 1]);
      if files[|files| - 1].seen == LogDir.Log then rest + [|files| - 1] else rest
  }

  function ObjectsIn(data: seq<LogDir.Commit>): seq<OsmObj> {
    if data == [] then [] else data[0].objs + ObjectsIn(data[1..])
  }

  predicate InRange(files: seq<LogDir.LogFile>, list: seq<nat>) {
    forall k :: 0 <= k < |list| ==> list[k] < |files|
  }

  /** What reading the listed log files yields. */
  function Contents(files: seq<LogDir.LogFile>, list: seq<nat>): seq<Draining.LogContent>
    requires InRange(files, list)
  {
    seq(|list|, k requires 0 <= k < |list| => ObjectsIn(files[list[k]].data))
  }

  /** The log files one run uses: the files read, unless they hold no object at all. */
  function Selected(files: seq<LogDir.LogFile>, limit: nat): seq<nat> {
    LogListInRange(files);
    LogList(files)[..|Draining.Batch(Contents(files, LogList(files)), limit)|]
  }

  lemma {:induction false} LogListInRange(files: seq<LogDir.LogFile>)
    ensures var list := LogList(files);
            && (forall k :: 0 <= k < |list| ==> list[k] < |files| && files[list[k]].seen == LogDir.Log)
            && InRange(files, list)
            && (forall i: nat :: i < |files| && files[i].seen == LogDir.Log ==> i in list)
            && forall k, l :: 0 <= k < l < |list| ==> list[k] < list[l]
  {
    if files != [] {
      LogListInRange(files[..|files| - 1]);
    }
  }

  predicate Published(changes: Changes, i: nat) {
    exists n :: n in changes.osc && i in changes.osc[n]
  }

  /** The log file is in a diff that no crash can take away. */
  predicate SafelyPublished(synced: Changes, i: nat) {
    exists n :: n in synced.osc && Dir(n) in synced.dirs && i in synced.osc[n]
  }

  /** After a crash each directory has what was synced, and maybe more; files go with the directory above them. */
  predicate CrashChanges(synced: Changes, seen: Changes, after: Changes) {
    && synced.dirs <= after.dirs <= seen.dirs
    && (forall n :: n in synced.osc && Dir(n) in after.dirs ==> n in after.osc)
    && (forall n :: n in after.osc ==> n in seen.osc && after.osc[n] == seen.osc[n] && Dir(n) in after.dirs)
    && (forall n :: n in synced.states && Dir(n) in after.dirs ==> n in after.states)
    && (forall n :: n in after.states ==> n in seen.states && after.states[n] == seen.states[n] && Dir(n) in after.dirs)
    && (after.top == synced.top || after.top == seen.top)
  }

  /** There is a `state.txt`, and the `State` constructor does not throw on it. */
  predicate Readable(top: Option<DiffState>) {
    top.Some? && StateFile.CheckComplete(top.value).Success?
  }

  /** The steps that the programs can take. */
  predicate Possible(s: State, a: Action) {
    var pc := s.diff.pc;
    match a
    case LogAction(l) => !l.MarkDone? && !l.SyncDir? && !l.Crash? && LogDir.Possible(s.log, l)
    case Start => pc == IDLE && !s.diffPid
    case NothingToDo(limit) => pc == STARTED && Selected(s.log.files, limit) == []
    case Choose(limit) => pc == STARTED && Selected(s.log.files, limit) != []
    case WriteChange => pc == CHOSEN
    case GetState(init, timestamp) =>
      && pc == CHANGE_WRITTEN
      && (init != 0 || (Readable(s.seen.top) && s.seen.top.value.sequenceNumber < SequencePath.MAX_SEQUENCE))
    case WriteState => pc == NUMBER_KNOWN && s.tmp.state == None
    case WriteCopy => pc == STATE_WRITTEN && s.tmp.copy == None
    case DryRunExit => pc == COPY_WRITTEN
    case WriteLock => pc == COPY_WRITTEN && !s.lock
    case SyncTmp => pc == LOCKED
    case MakeDirs => pc == TMP_SYNCED && s.diff.next.sequenceNumber <= SequencePath.MAX_SEQUENCE
    case MoveChange => pc == DIRS_MADE && s.tmp.change.Some?
    case MoveState => pc == CHANGE_MOVED && s.tmp.state.Some?
    case SyncSubdirs => pc == STATE_MOVED
    case MoveTop => pc == SUBDIRS_SYNCED && s.tmp.copy.Some?
    case SyncTop => pc == TOP_MOVED
    case MarkLog =>
      && pc == MARKING && s.diff.marked < |s.diff.chosen|
      && LogDir.Possible(s.log, LogDir.MarkDone(s.diff.chosen[s.diff.marked]))
    case SyncLogDir => pc == MARKING && s.diff.marked == |s.diff.chosen|
    case Unlock => pc == LOG_SYNCED
    case SyncTmpAgain => pc == UNLOCKED
    case Exit => pc == FINISHED
    case Fail => pc != IDLE
    case Kill => pc != IDLE
    case HostCrash(places, logPidLeft, diffPidLeft, tmp, lock, changes) =>
      && LogDir.Possible(s.log, LogDir.Crash(places, logPidLeft))
      && (diffPidLeft ==> s.diffPid)
      && (lock == s.lock || lock == s.lockDurable)
      && CrashChanges(s.synced, s.seen, changes)
  }

  /** The number from the command line continues the numbering: there is none yet, or it is the next one. */
  predicate Continues(top: Option<DiffState>, init: nat) {
    init == 0 || top == None || init == top.value.sequenceNumber + 1
  }

  /** A step of documented use: a sequence number on the command line only continues the numbering. */
  predicate Documented(s: State, a: Action) {
    a.GetState? ==> Continues(s.seen.top, a.init)
  }

  /** The steps of runs. */
  predicate Enabled(s: State, a: Action): (e: bool)
    ensures e ==> Possible(s, a)
  {
    Possible(s, a) && Documented(s, a)
  }

  function At(s: State, pc: Pc): State {
    s.(diff := s.diff.(pc := pc))
  }

  /** The local variables before they are assigned. */
  const NO_DIFF := Diff(IDLE, [], StateFile.UNSET, 0)

  function Step(s: State, a: Action): State
    requires Possible(s, a)
  {
    match a
    case LogAction(l) => s.(log := LogDir.Step(s.log, l))
    case Start => s.(diff := NO_DIFF.(pc := STARTED), diffPid := true)
    case NothingToDo(_) => s.(diff := NO_DIFF, diffPid := false)
    case Choose(limit) => s.(diff := s.diff.(pc := CHOSEN, chosen := Selected(s.log.files, limit), marked := 0))
    case WriteChange => At(s.(tmp := s.tmp.(change := Some(s.diff.chosen))), CHANGE_WRITTEN)
    case GetState(init, timestamp) =>
      var next := if init != 0 then StateFile.State(init, timestamp) else SequencePath.Next(s.seen.top.value, timestamp);
      s.(diff := s.diff.(pc := NUMBER_KNOWN, next := next))
    case WriteState => At(s.(tmp := s.tmp.(state := Some(s.diff.next))), STATE_WRITTEN)
    case WriteCopy => At(s.(tmp := s.tmp.(copy := Some(s.diff.next))), COPY_WRITTEN)
    case DryRunExit => s.(diff := NO_DIFF, diffPid := false)
    case WriteLock => At(s.(lock := true), LOCKED)
    case SyncTmp => At(s.(lockDurable := s.lock), TMP_SYNCED)
    case MakeDirs =>
      At(s.(seen := s.seen.(dirs := s.seen.dirs + {Dir(s.diff.next.sequenceNumber)})), DIRS_MADE)
    case MoveChange =>
      At(s.(tmp := s.tmp.(change := None),
            seen := s.seen.(osc := s.seen.osc[s.diff.next.sequenceNumber := s.tmp.change.value]),
            first := if s.seen.top == None then Some(s.diff.next.sequenceNumber) else s.first),
         CHANGE_MOVED)
    case MoveState =>
      At(s.(tmp := s.tmp.(state := None),
            seen := s.seen.(states := s.seen.states[s.diff.next.sequenceNumber := s.tmp.state.value])),
         STATE_MOVED)
    // both directories below the top one, of which the upper one holds the lower one
    case SyncSubdirs => At(s.(synced := s.synced.(osc := s.seen.osc, states := s.seen.states)), SUBDIRS_SYNCED)
    case MoveTop => At(s.(tmp := s.tmp.(copy := None), seen := s.seen.(top := s.tmp.copy)), TOP_MOVED)
    case SyncTop => At(s.(synced := s.synced.(dirs := s.seen.dirs, top := s.seen.top)), MARKING)
    case MarkLog =>
      s.(log := LogDir.Step(s.log, LogDir.MarkDone(s.diff.chosen[s.diff.marked])),
         diff := s.diff.(marked := s.diff.marked + 1))
    case SyncLogDir => At(s.(log := LogDir.Step(s.log, LogDir.SyncDir)), LOG_SYNCED)
    case Unlock => At(s.(lock := false), UNLOCKED)
    case SyncTmpAgain => At(s.(lockDurable := s.lock), FINISHED)
    case Exit => s.(diff := NO_DIFF, diffPid := false)
    case Fail => s.(diff := NO_DIFF, diffPid := false)
    case Kill => s.(diff := NO_DIFF)
    case HostCrash(places, logPidLeft, diffPidLeft, tmp, lock, changes) =>
      State(LogDir.Step(s.log, LogDir.Crash(places, logPidLeft)), NO_DIFF, diffPidLeft, tmp, lock, lock,
            changes, changes, s.first)
  }

  /** A fresh installation; `state.txt` may have been put in place to say where numbering starts. */
  predicate Init(s: State) {
    && LogDir.Init(s.log)
    && s.diff == NO_DIFF && !s.diffPid && s.tmp == Tmp(None, None, None) && !s.lock && !s.lockDurable
    && s.seen.dirs == {} && s.seen.osc == map[] && s.seen.states == map[] && s.synced == s.seen
    && s.first == if s.seen.top.Some? then Some(s.seen.top.value.sequenceNumber + 1) else None
  }

  // --- What every step keeps --------------------------------------------------------------------

  /** create-diff is inside its critical section, under a lock file of its own. */
  predicate Own(s: State) {
    LOCKED <= s.diff.pc <= LOG_SYNCED
  }

  /** A diff is being moved into place and its log files are not all marked yet. */
  predicate Moving(s: State) {
    CHANGE_MOVED <= s.diff.pc <= LOG_SYNCED
  }

  /** The lock file was left behind by a run that ended inside the critical section. */
  predicate Stuck(s: State) {
    s.lock && s.lockDurable && !Own(s)
  }

  ghost predicate ChosenOk(s: State) {
    var d := s.diff;
    d.pc >= CHOSEN ==>
      && d.chosen != [] && d.marked <= |d.chosen|
      && (forall k :: 0 <= k < |d.chosen| ==>
            d.chosen[k] < |s.log.files|
            && s.log.files[d.chosen[k]].seen == if k < d.marked then LogDir.Done else LogDir.Log)
      && (forall k, l :: 0 <= k < l < |d.chosen| ==> d.chosen[k] < d.chosen[l])
      && (d.pc < MARKING ==> d.marked == 0)
      && (d.pc > MARKING ==> d.marked == |d.chosen|)
  }

  ghost predicate TmpOk(s: State) {
    var r := s.diff.pc;
    && (CHANGE_WRITTEN <= r < CHANGE_MOVED ==> s.tmp.change == Some(s.diff.chosen))
    && (STATE_WRITTEN <= r < STATE_MOVED ==> s.tmp.state == Some(s.diff.next))
    && (COPY_WRITTEN <= r < TOP_MOVED ==> s.tmp.copy == Some(s.diff.next))
  }

  ghost predicate LockOk(s: State) {
    && (s.diff.pc != IDLE ==> s.diffPid)
    && (Own(s) ==> s.lock)
    && (TMP_SYNCED <= s.diff.pc <= LOG_SYNCED ==> s.lockDurable)
    && (s.diff.pc > LOG_SYNCED ==> !s.lock)
  }

  predicate InPrefix(first: Option<nat>, top: Option<DiffState>, n: nat) {
    first.Some? && top.Some? && first.value <= n <= top.value.sequenceNumber
  }

  /**
   The numbers from the first to the one in `state.txt` have both files, synced in their directories,
   as far as their first-level directory is there; only that of the last one may not be safe.
   */
  ghost predicate Prefix(first: Option<nat>, synced: Changes, dirs: set<nat>, top: Option<DiffState>) {
    top.Some? ==>
      && first.Some? && first.value <= top.value.sequenceNumber + 1
      && (forall k :: first.value <= k <= top.value.sequenceNumber && Dir(k) in dirs ==>
                        k in synced.osc && k in synced.states)
      && (forall k :: first.value <= k < top.value.sequenceNumber ==> Dir(k) in synced.dirs)
      && (first.value <= top.value.sequenceNumber && Dir(top.value.sequenceNumber) in dirs ==>
            synced.states[top.value.sequenceNumber] == top.value)
  }

  ghost predicate NumbersOk(s: State) {
    && Prefix(s.first, s.synced, s.seen.dirs, s.synced.top)
    && Prefix(s.first, s.synced, s.seen.dirs, s.seen.top)
      // there is nothing beyond the number in state.txt, except what is being moved into place
    && (!Moving(s) && !Stuck(s) ==> forall n :: n in s.seen.osc || n in s.seen.states ==> InPrefix(s.first, s.seen.top, n))
    && (Moving(s) && s.diff.pc < TOP_MOVED ==>
          forall n :: n in s.seen.osc || n in s.seen.states ==>
                        n == s.diff.next.sequenceNumber || InPrefix(s.first, s.seen.top, n))
    && (Moving(s) && s.diff.pc >= TOP_MOVED ==>
          forall n :: n in s.seen.osc || n in s.seen.states ==> InPrefix(s.first, s.seen.top, n))
  }

  /** The directory of the number in `state.txt`, if that number was published at all, is in the set. */
  predicate LastDirIn(first: Option<nat>, top: Option<DiffState>, dirs: set<nat>) {
    top.Some? && InPrefix(first, top, top.value.sequenceNumber) ==> Dir(top.value.sequenceNumber) in dirs
  }

  ghost predicate DirsOk(s: State) {
    && s.synced.dirs <= s.seen.dirs
    && (forall n :: n in s.seen.osc || n in s.seen.states ==> Dir(n) in s.seen.dirs)
    && (DIRS_MADE <= s.diff.pc <= LOG_SYNCED ==> Dir(s.diff.next.sequenceNumber) in s.seen.dirs)
    && (!Stuck(s) && !(DIRS_MADE <= s.diff.pc <= TOP_MOVED) ==> s.synced.dirs == s.seen.dirs)
    && (!Stuck(s) && s.diff.pc != TOP_MOVED ==> LastDirIn(s.first, s.seen.top, s.synced.dirs))
  }

  ghost predicate NextOk(s: State) {
    var r, n := s.diff.pc, s.diff.next.sequenceNumber;
    && (NUMBER_KNOWN <= r < TOP_MOVED && s.seen.top.Some? ==> n == s.seen.top.value.sequenceNumber + 1)
    && (Moving(s) && r < TOP_MOVED && s.seen.top == None ==> s.first == Some(n))
    && (Moving(s) ==> n in s.seen.osc && s.seen.osc[n] == s.diff.chosen)
    && (s.diff.pc == CHANGE_MOVED ==> n !in s.seen.states)
    && (Moving(s) && r >= STATE_MOVED ==> n in s.seen.states && s.seen.states[n] == s.diff.next)
    && (Moving(s) && r >= SUBDIRS_SYNCED ==> s.synced.osc == s.seen.osc && s.synced.states == s.seen.states)
    && (Moving(s) && r >= TOP_MOVED ==> s.seen.top == Some(s.diff.next))
    && (Moving(s) && r >= MARKING ==> s.synced == s.seen)
  }

  ghost predicate SyncedOk(s: State) {
    && (forall n :: n in s.synced.osc ==> n in s.seen.osc && s.synced.osc[n] == s.seen.osc[n])
    && (forall n :: n in s.synced.states ==> n in s.seen.states && s.synced.states[n] == s.seen.states[n])
    && (!Moving(s) && !Stuck(s) ==>
          s.synced.osc == s.seen.osc && s.synced.states == s.seen.states && s.synced.top == s.seen.top)
    && (Moving(s) && s.diff.pc < TOP_MOVED ==> s.synced.top == s.seen.top)
    && (s.synced.top != s.seen.top ==>
          && s.seen.top.Some?
          && (s.synced.top.Some? ==> s.synced.top.value.sequenceNumber + 1 == s.seen.top.value.sequenceNumber))
  }

  /** No log file is in two diffs. */
  ghost predicate Disjoint(changes: Changes) {
    forall m, n, i :: m in changes.osc && n in changes.osc && i in changes.osc[m] && i in changes.osc[n] ==> m == n
  }

  ghost predicate FilesOk(s: State) {
    && (forall n, i :: n in s.seen.osc && i in s.seen.osc[n] ==> i < |s.log.files|)
    && Disjoint(s.seen)
    && (forall i: nat :: i < |s.log.files| && s.log.files[i].seen == LogDir.Done ==> SafelyPublished(s.synced, i))
    && (!Moving(s) && !Stuck(s) ==>
          forall n, i :: n in s.seen.osc && i in s.seen.osc[n] ==> s.log.files[i].seen == LogDir.Done)
    && (Moving(s) ==>
          forall n, i :: n in s.seen.osc && i in s.seen.osc[n] ==> s.log.files[i].seen == LogDir.Done || i in s.diff.chosen)
    && ((!Moving(s) && !Stuck(s)) || s.diff.pc == LOG_SYNCED ==>
          forall n, i :: n in s.seen.osc && i in s.seen.osc[n] ==> s.log.files[i].durable == LogDir.Done)
  }

  ghost predicate Inv(s: State) {
    LogDir.Sound(s.log) && NumberingOk(s) && FilesOk(s)
  }

  ghost predicate NumberingOk(s: State) {
    ChosenOk(s) && TmpOk(s) && LockOk(s) && NumbersOk(s) && DirsOk(s) && NextOk(s) && SyncedOk(s)
  }

  lemma SelectedOk(files: seq<LogDir.LogFile>, limit: nat)
    ensures var chosen := Selected(files, limit);
            && (forall k :: 0 <= k < |chosen| ==> chosen[k] < |files| && files[chosen[k]].seen == LogDir.Log)
            && forall k, l :: 0 <= k < l < |chosen| ==> chosen[k] < chosen[l]
  {
    LogListInRange(files);
    assert forall k :: 0 <= k < |Selected(files, limit)| ==> Selected(files, limit)[k] == LogList(files)[k];
  }

  lemma ChooseKeeps(s: State, limit: nat)
    requires Inv(s) && Enabled(s, Choose(limit))
    ensures Inv(Step(s, Choose(limit)))
  {
    hide LogDir.Sound, LogDir.Step, LogDir.Possible, Selected;
    SelectedOk(s.log.files, limit);
  }

  lemma StartKeeps(s: State)
    requires Inv(s) && Enabled(s, Start)
    ensures Inv(Step(s, Start))
  {
    hide LogDir.Sound, LogDir.Step, LogDir.Possible, Selected;
  }

  lemma NothingToDoKeeps(s: State, limit: nat)
    requires Inv(s) && Enabled(s, NothingToDo(limit))
    ensures Inv(Step(s, NothingToDo(limit)))
  {
    hide LogDir.Sound, LogDir.Step, LogDir.Possible, Selected;
  }

  lemma WriteChangeKeeps(s: State)
    requires Inv(s) && Enabled(s, WriteChange)
    ensures Inv(Step(s, WriteChange))
  {
    hide LogDir.Sound, LogDir.Step, LogDir.Possible, Selected;
  }

  lemma GetStateKeeps(s: State, init: nat, timestamp: Timestamp)
    requires Inv(s) && Enabled(s, GetState(init, timestamp))
    ensures Inv(Step(s, GetState(init, timestamp)))
  {
    hide LogDir.Sound, LogDir.Step, LogDir.Possible, Selected;
  }

  lemma WriteStateKeeps(s: State)
    requires Inv(s) && Enabled(s, WriteState)
    ensures Inv(Step(s, WriteState))
  {
    hide LogDir.Sound, LogDir.Step, LogDir.Possible, Selected;
  }

  lemma WriteCopyKeeps(s: State)
    requires Inv(s) && Enabled(s, WriteCopy)
    ensures Inv(Step(s, WriteCopy))
  {
    hide LogDir.Sound, LogDir.Step, LogDir.Possible, Selected;
  }

  lemma DryRunExitKeeps(s: State)
    requires Inv(s) && Enabled(s, DryRunExit)
    ensures Inv(Step(s, DryRunExit))
  {
    hide LogDir.Sound, LogDir.Step, LogDir.Possible, Selected;
  }

  lemma WriteLockKeeps(s: State)
    requires Inv(s) && Enabled(s, WriteLock)
    ensures Inv(Step(s, WriteLock))
  {
    hide LogDir.Sound, LogDir.Step, LogDir.Possible, Selected;
  }

  lemma SyncTmpKeeps(s: State)
    requires Inv(s) && Enabled(s, SyncTmp)
    ensures Inv(Step(s, SyncTmp))
  {
    hide LogDir.Sound, LogDir.Step, LogDir.Possible, Selected;
  }

  lemma MakeDirsKeeps(s: State)
    requires Inv(s) && Enabled(s, MakeDirs)
    ensures Inv(Step(s, MakeDirs))
  {
    hide LogDir.Sound, LogDir.Step, LogDir.Possible, Selected;
  }

  lemma MoveChangeNumbering(s: State)
    requires Inv(s) && Enabled(s, MoveChange)
    ensures NumberingOk(Step(s, MoveChange))
  {
    hide LogDir.Sound, LogDir.Step, LogDir.Possible, Selected, FilesOk;
  }

  lemma MoveChangeFiles(s: State)
    requires Inv(s) && Enabled(s, MoveChange)
    ensures FilesOk(Step(s, MoveChange))
  {
    hide LogDir.Sound, LogDir.Step, LogDir.Possible, Selected, Prefix;
  }

  lemma MoveStateNumbering(s: State)
    requires Inv(s) && Enabled(s, MoveState)
    ensures NumberingOk(Step(s, MoveState))
  {
    hide LogDir.Sound, LogDir.Step, LogDir.Possible, Selected, FilesOk;
  }

  lemma MoveStateFiles(s: State)
    requires Inv(s) && Enabled(s, MoveState)
    ensures FilesOk(Step(s, MoveState))
  {
    hide LogDir.Sound, LogDir.Step, LogDir.Possible, Selected, TmpOk, Prefix;
  }

  lemma SyncSubdirsNumbering(s: State)
    requires Inv(s) && Enabled(s, SyncSubdirs)
    ensures NumberingOk(Step(s, SyncSubdirs))
  {
    hide LogDir.Sound, LogDir.Step, LogDir.Possible, Selected, FilesOk;
  }

  lemma SyncSubdirsFiles(s: State)
    requires Inv(s) && Enabled(s, SyncSubdirs)
    ensures FilesOk(Step(s, SyncSubdirs))
  {
    hide LogDir.Sound, LogDir.Step, LogDir.Possible, Selected, TmpOk, Prefix;
  }

  lemma MoveTopNumbering(s: State)
    requires Inv(s) && Enabled(s, MoveTop)
    ensures NumberingOk(Step(s, MoveTop))
  {
    hide LogDir.Sound, LogDir.Step, LogDir.Possible, Selected, FilesOk;
  }

  lemma MoveTopFiles(s: State)
    requires Inv(s) && Enabled(s, MoveTop)
    ensures FilesOk(Step(s, MoveTop))
  {
    hide LogDir.Sound, LogDir.Step, LogDir.Possible, Selected, TmpOk, Prefix;
  }

  lemma SyncTopNumbering(s: State)
    requires Inv(s) && Enabled(s, SyncTop)
    ensures NumberingOk(Step(s, SyncTop))
  {
    hide LogDir.Sound, LogDir.Step, LogDir.Possible, Selected, FilesOk;
  }

  lemma SyncTopFiles(s: State)
    requires Inv(s) && Enabled(s, SyncTop)
    ensures FilesOk(Step(s, SyncTop))
  {
    hide LogDir.Sound, LogDir.Step, LogDir.Possible, Selected, TmpOk, Prefix;
  }

  /** What marking one log file, syncing the directory, and a crash do to the log directory. */
  lemma MarkEffect(l: LogDir.State, i: nat)
    requires LogDir.Possible(l, LogDir.MarkDone(i))
    ensures i < |l.files| && l.files[i].seen == LogDir.Log
    ensures LogDir.Step(l, LogDir.MarkDone(i)).files == l.files[i := l.files[i].(seen := LogDir.Done)]
  {
  }

  lemma SyncEffect(l: LogDir.State)
    ensures LogDir.Possible(l, LogDir.SyncDir)
    ensures LogDir.Step(l, LogDir.SyncDir).files == LogDir.Synced(l.files)
  {
  }

  lemma CrashEffect(l: LogDir.State, places: seq<LogDir.Place>, pidLeft: bool)
    requires LogDir.Possible(l, LogDir.Crash(places, pidLeft))
    ensures var files' := LogDir.Step(l, LogDir.Crash(places, pidLeft)).files;
            && |files'| == |l.files|
            && forall i :: 0 <= i < |l.files| ==>
                             && (files'[i].seen == LogDir.Done ==> l.files[i].seen == LogDir.Done)
                             && (l.files[i].durable == LogDir.Done ==> files'[i].seen == LogDir.Done)
                             && files'[i].durable == files'[i].seen
  {
  }

  lemma MarkLogNumbering(s: State)
    requires Inv(s) && Enabled(s, MarkLog)
    ensures NumberingOk(Step(s, MarkLog))
  {
    hide LogDir.Sound, LogDir.Step, LogDir.Possible, Selected, FilesOk, Prefix;
    MarkEffect(s.log, s.diff.chosen[s.diff.marked]);
  }

  lemma MarkLogFiles(s: State)
    requires Inv(s) && Enabled(s, MarkLog)
    ensures FilesOk(Step(s, MarkLog))
  {
    hide LogDir.Sound, LogDir.Step, LogDir.Possible, Selected, TmpOk, NumbersOk;
    var i := s.diff.chosen[s.diff.marked];
    MarkEffect(s.log, i);
    assert i in s.diff.chosen;
    assert SafelyPublished(s.synced, i);
  }

  lemma SyncLogDirNumbering(s: State)
    requires Inv(s) && Enabled(s, SyncLogDir)
    ensures NumberingOk(Step(s, SyncLogDir))
  {
    hide LogDir.Sound, LogDir.Step, LogDir.Possible, Selected, FilesOk, Prefix;
    SyncEffect(s.log);
  }

  lemma SyncLogDirFiles(s: State)
    requires Inv(s) && Enabled(s, SyncLogDir)
    ensures FilesOk(Step(s, SyncLogDir))
  {
    hide LogDir.Sound, LogDir.Step, LogDir.Possible, Selected, TmpOk, NumbersOk;
    SyncEffect(s.log);
  }

  lemma UnlockNumbering(s: State)
    requires Inv(s) && Enabled(s, Unlock)
    ensures NumberingOk(Step(s, Unlock))
  {
    hide LogDir.Sound, LogDir.Step, LogDir.Possible, Selected, FilesOk;
  }

  lemma UnlockFiles(s: State)
    requires Inv(s) && Enabled(s, Unlock)
    ensures FilesOk(Step(s, Unlock))
  {
    hide LogDir.Sound, LogDir.Step, LogDir.Possible, Selected, TmpOk, Prefix;
  }

  lemma SyncTmpAgainNumbering(s: State)
    requires Inv(s) && Enabled(s, SyncTmpAgain)
    ensures NumberingOk(Step(s, SyncTmpAgain))
  {
    hide LogDir.Sound, LogDir.Step, LogDir.Possible, Selected, FilesOk;
  }

  lemma SyncTmpAgainFiles(s: State)
    requires Inv(s) && Enabled(s, SyncTmpAgain)
    ensures FilesOk(Step(s, SyncTmpAgain))
  {
    hide LogDir.Sound, LogDir.Step, LogDir.Possible, Selected, TmpOk, Prefix;
  }

  lemma ExitKeeps(s: State)
    requires Inv(s) && Enabled(s, Exit)
    ensures Inv(Step(s, Exit))
  {
    hide LogDir.Sound, LogDir.Step, LogDir.Possible, Selected;
  }

  lemma FailKeeps(s: State)
    requires Inv(s) && Enabled(s, Fail)
    ensures Inv(Step(s, Fail))
  {
    hide LogDir.Sound, LogDir.Step, LogDir.Possible, Selected;
  }

  lemma KillKeeps(s: State)
    requires Inv(s) && Enabled(s, Kill)
    ensures Inv(Step(s, Kill))
  {
    hide LogDir.Sound, LogDir.Step, LogDir.Possible, Selected;
  }

  /** Steps of the other tools leave `.log` and `.log.done` files where they are, and sync at most. */
  lemma LogFrame(l: LogDir.State, a: LogDir.Action)
    requires LogDir.Sound(l) && LogDir.Possible(l, a) && !a.MarkDone? && !a.SyncDir? && !a.Crash?
    ensures var l' := LogDir.Step(l, a);
            && |l.files| <= |l'.files|
            && (forall i :: 0 <= i < |l.files| && l.files[i].seen.Live() ==> l'.files[i].seen == l.files[i].seen)
            && (forall i :: 0 <= i < |l'.files| && l'.files[i].seen == LogDir.Done ==>
                  i < |l.files| && l.files[i].seen == LogDir.Done)
            && (forall i :: 0 <= i < |l.files| && l.files[i].seen == LogDir.Done && l.files[i].durable == LogDir.Done ==>
                  l'.files[i].durable == LogDir.Done)
  {
    hide LogDir.Complete, LogDir.Increasing, LogDir.Held;
  }

  lemma LogActionNumbering(s: State, a: LogDir.Action)
    requires Inv(s) && Enabled(s, LogAction(a))
    ensures NumberingOk(Step(s, LogAction(a)))
  {
    hide LogDir.Sound, LogDir.Step, LogDir.Possible, Selected, FilesOk;
    LogFrame(s.log, a);
  }

  lemma LogActionFiles(s: State, a: LogDir.Action)
    requires Inv(s) && Enabled(s, LogAction(a))
    ensures FilesOk(Step(s, LogAction(a)))
  {
    hide LogDir.Sound, LogDir.Step, LogDir.Possible, Selected, TmpOk, Prefix;
    LogFrame(s.log, a);
  }

  lemma CrashIs(s: State, a: Action)
    requires Enabled(s, a) && a.HostCrash?
    ensures CrashChanges(s.synced, s.seen, a.changes)
    ensures Step(s, a).seen == a.changes && Step(s, a).synced == a.changes && Step(s, a).first == s.first
  {
    hide LogDir.Step, LogDir.Possible, CrashChanges;
  }

  lemma SyncedIsSeen(s: State)
    requires Inv(s)
    ensures forall n :: n in s.synced.osc ==> n in s.seen.osc && s.synced.osc[n] == s.seen.osc[n]
    ensures forall n :: n in s.synced.states ==> n in s.seen.states && s.synced.states[n] == s.seen.states[n]
  {
    hide LogDir.Sound, FilesOk, NumbersOk, DirsOk, ChosenOk, NextOk, TmpOk, LockOk;
  }

  lemma CrashPrefix(first: Option<nat>, synced: Changes, seen: Changes, after: Changes, top: Option<DiffState>)
    requires CrashChanges(synced, seen, after) && Prefix(first, synced, seen.dirs, top)
    requires forall n :: n in synced.states ==> n in seen.states && synced.states[n] == seen.states[n]
    ensures Prefix(first, after, after.dirs, top)
  {
    hide Dir;
  }

  lemma CrashNumbers(s: State, a: Action)
    requires Inv(s) && Enabled(s, a) && a.HostCrash?
    ensures NumbersOk(Step(s, a))
  {
    hide LogDir.Sound, LogDir.Step, LogDir.Possible, Selected, FilesOk, Prefix, ChosenOk, TmpOk, Dir;
    SyncedIsSeen(s);
    CrashPrefix(s.first, s.synced, s.seen, a.changes, s.synced.top);
    CrashPrefix(s.first, s.synced, s.seen, a.changes, s.seen.top);
  }

  /** Without create-diff running, and with everything synced, little is left to say. */
  lemma AfterCrashOk(s: State)
    requires s.diff == NO_DIFF && s.synced == s.seen
    ensures ChosenOk(s) && TmpOk(s) && LockOk(s) && NextOk(s) && SyncedOk(s)
  {
  }

  lemma CrashDirs(s: State, a: Action)
    requires Inv(s) && Enabled(s, a) && a.HostCrash?
    ensures DirsOk(Step(s, a))
  {
    hide LogDir.Sound, LogDir.Step, LogDir.Possible, Selected, FilesOk, Prefix, ChosenOk, TmpOk, NextOk, NumbersOk, Dir;
    CrashIs(s, a);
  }

  lemma CrashStops(s: State, a: Action)
    requires Enabled(s, a) && a.HostCrash?
    ensures Step(s, a).diff == NO_DIFF && Step(s, a).synced == Step(s, a).seen
  {
    hide LogDir.Step, LogDir.Possible, CrashChanges;
  }

  lemma HostCrashNumbering(s: State, a: Action)
    requires Inv(s) && Enabled(s, a) && a.HostCrash?
    ensures NumberingOk(Step(s, a))
  {
    hide Inv, Step, Possible, Enabled, ChosenOk, TmpOk, LockOk, NextOk, SyncedOk, NumbersOk, DirsOk;
    CrashStops(s, a);
    AfterCrashOk(Step(s, a));
    CrashNumbers(s, a);
    CrashDirs(s, a);
  }

  /** When no lock file is left, nothing was pending, and the changes directory is as before. */
  lemma CleanCrash(s: State, a: Action)
    requires Inv(s) && Enabled(s, a) && a.HostCrash? && !a.lock
    ensures !Moving(s) && !Stuck(s) && s.synced == s.seen && a.changes == s.seen
  {
    hide LogDir.Sound, LogDir.Step, LogDir.Possible, Selected, FilesOk, Prefix, ChosenOk, TmpOk, NextOk;
    assert a.changes.osc == s.seen.osc && a.changes.states == s.seen.states;
  }

  lemma HostCrashFiles(s: State, a: Action)
    requires Inv(s) && Enabled(s, a) && a.HostCrash?
    ensures FilesOk(Step(s, a))
  {
    hide LogDir.Sound, LogDir.Step, LogDir.Possible, Selected, Prefix, TmpOk, ChosenOk, NumbersOk, NextOk;
    CrashEffect(s.log, a.places, a.logPidLeft);
    if !a.lock {
      CleanCrash(s, a);
    }
    forall i: nat | SafelyPublished(s.synced, i)
      ensures SafelyPublished(a.changes, i)
    {
      var n :| n in s.synced.osc && Dir(n) in s.synced.dirs && i in s.synced.osc[n];
      assert n in a.changes.osc && i in a.changes.osc[n];
    }
  }

  /** Seen from the log directory, a step of the pipeline is a step of that machine, or nothing happens. */
  lemma LogActionOf(s: State, a: Action) returns (l: Option<LogDir.Action>)
    requires Possible(s, a)
    ensures l == None ==> Step(s, a).log == s.log
    ensures l.Some? ==> LogDir.Possible(s.log, l.value) && Step(s, a).log == LogDir.Step(s.log, l.value)
    ensures l == Some(LogDir.AdvanceToNewest) ==> a == LogAction(LogDir.AdvanceToNewest)
  {
    hide LogDir.Step, LogDir.Possible, Selected, CrashChanges;
    match a {
      case LogAction(la) => l := Some(la);
      case MarkLog => l := Some(LogDir.MarkDone(s.diff.chosen[s.diff.marked]));
      case SyncLogDir => SyncEffect(s.log); l := Some(LogDir.SyncDir);
      case HostCrash(places, logPidLeft, _, _, _, _) => l := Some(LogDir.Crash(places, logPidLeft));
      case _ => l := None;
    }
  }

  lemma LogSoundKept(s: State, a: Action)
    requires Inv(s) && Enabled(s, a)
    ensures LogDir.Sound(Step(s, a).log)
  {
    hide LogDir.Sound, LogDir.Step, LogDir.Possible, NumberingOk, FilesOk, Enabled, Possible, Step;
    var l := LogActionOf(s, a);
    if l.Some? {
      LogDir.StepSound(s.log, l.value);
    }
  }

  /** Every step of the pipeline keeps the invariant. */
  lemma {:induction false} StepKeeps(s: State, a: Action)
    requires Inv(s) && Enabled(s, a)
    ensures Inv(Step(s, a))
  {
    hide LogDir.Sound, LogDir.Step, LogDir.Possible, Selected, NumberingOk, FilesOk, Step, Enabled;
    LogSoundKept(s, a);
    match a
    case LogAction(l) => LogActionNumbering(s, l); LogActionFiles(s, l);
    case Start => StartKeeps(s);
    case NothingToDo(limit) => NothingToDoKeeps(s, limit);
    case Choose(limit) => ChooseKeeps(s, limit);
    case WriteChange => WriteChangeKeeps(s);
    case GetState(init, timestamp) => GetStateKeeps(s, init, timestamp);
    case WriteState => WriteStateKeeps(s);
    case WriteCopy => WriteCopyKeeps(s);
    case DryRunExit => DryRunExitKeeps(s);
    case WriteLock => WriteLockKeeps(s);
    case SyncTmp => SyncTmpKeeps(s);
    case MakeDirs => MakeDirsKeeps(s);
    case MoveChange => MoveChangeNumbering(s); MoveChangeFiles(s);
    case MoveState => MoveStateNumbering(s); MoveStateFiles(s);
    case SyncSubdirs => SyncSubdirsNumbering(s); SyncSubdirsFiles(s);
    case MoveTop => MoveTopNumbering(s); MoveTopFiles(s);
    case SyncTop => SyncTopNumbering(s); SyncTopFiles(s);
    case MarkLog => MarkLogNumbering(s); MarkLogFiles(s);
    case SyncLogDir => SyncLogDirNumbering(s); SyncLogDirFiles(s);
    case Unlock => UnlockNumbering(s); UnlockFiles(s);
    case SyncTmpAgain => SyncTmpAgainNumbering(s); SyncTmpAgainFiles(s);
    case Exit => ExitKeeps(s);
    case Fail => FailKeeps(s);
    case Kill => KillKeeps(s);
    case HostCrash(_, _, _, _, _, _) => HostCrashNumbering(s, a); HostCrashFiles(s, a);
  }

  lemma InitInv(s: State)
    requires Init(s)
    ensures Inv(s)
  {
  }

  // --- Runs --------------------------------------------------------------------------------------

  /** A run: any finite sequence of enabled steps of any of the tools, of the database, and of crashes. */
  predicate IsRun(s: State, actions: seq<Action>)
    decreases |actions|
  {
    actions == [] || (Enabled(s, actions[0]) && IsRun(Step(s, actions[0]), actions[1..]))
  }

  function Run(s: State, actions: seq<Action>): State
    requires IsRun(s, actions)
    decreases |actions|
  {
    if actions == [] then s else Run(Step(s, actions[0]), actions[1..])
  }

  lemma {:induction false} RunKeeps(s: State, actions: seq<Action>)
    requires Inv(s) && IsRun(s, actions)
    ensures Inv(Run(s, actions))
    decreases |actions|
  {
    hide Inv, Enabled, Step;
    if actions != [] {
      StepKeeps(s, actions[0]);
      RunKeeps(Step(s, actions[0]), actions[1..]);
    }
  }

  /**
   At most once: in every reachable state no log file's contents are in two diffs, and whenever the
   lock file is absent the files marked `.done` are exactly the files whose contents are published.
   */
  lemma {:induction false} AtMostOnce(s: State, actions: seq<Action>)
    requires Init(s) && IsRun(s, actions)
    ensures var end := Run(s, actions);
            && (forall m, n, i :: m in end.seen.osc && n in end.seen.osc && i in end.seen.osc[m] && i in end.seen.osc[n]
                                  ==> m == n)
            && (!end.lock ==>
                  forall i: nat :: i < |end.log.files| ==>
                                     (end.log.files[i].seen == LogDir.Done <==> Published(end.seen, i)))
  {
    InitInv(s);
    RunKeeps(s, actions);
    hide LogDir.Sound, Init, IsRun, Run, Prefix;
  }

  /** All numbers from the first to the one in `state.txt` have both files, and `state.txt` is the last state file. */
  ghost predicate PrefixComplete(s: State) {
    s.seen.top.Some? ==>
      && s.first.Some? && s.first.value <= s.seen.top.value.sequenceNumber + 1
      && (forall k :: s.first.value <= k <= s.seen.top.value.sequenceNumber ==> k in s.seen.osc && k in s.seen.states)
      && (s.first.value <= s.seen.top.value.sequenceNumber ==>
            s.seen.states[s.seen.top.value.sequenceNumber] == s.seen.top.value)
  }

  lemma PrefixCompleteExactly(s: State)
    requires Inv(s)
    ensures PrefixComplete(s) <==> LastDirIn(s.first, s.seen.top, s.seen.dirs)
    ensures !s.lock ==> PrefixComplete(s)
    ensures forall k: nat :: InPrefix(s.first, s.seen.top, k) && k < s.seen.top.value.sequenceNumber ==>
                          k in s.seen.osc && k in s.seen.states
  {
    hide LogDir.Sound, FilesOk, NextOk, TmpOk, ChosenOk, Dir;
  }

  /**
   Published prefix: in every reachable state the numbers from the first one published to the one in
   `state.txt` are complete if and only if the first-level directory of that last number is there;
   only its files can be missing, and never without lock file.
   */
  lemma {:induction false} PublishedPrefix(s: State, actions: seq<Action>)
    requires Init(s) && IsRun(s, actions)
    ensures var end := Run(s, actions);
            && (PrefixComplete(end) <==> LastDirIn(end.first, end.seen.top, end.seen.dirs))
            && (!end.lock ==> PrefixComplete(end))
            && forall k: nat :: InPrefix(end.first, end.seen.top, k) && k < end.seen.top.value.sequenceNumber ==>
                             k in end.seen.osc && k in end.seen.states
  {
    InitInv(s);
    RunKeeps(s, actions);
    hide Inv, Init, IsRun, Run;
    PrefixCompleteExactly(Run(s, actions));
  }

  /** Only a crash can take the last number's directory away. */
  lemma {:induction false} OnlyCrashBreaksPrefix(s: State, a: Action)
    requires Inv(s) && Enabled(s, a) && PrefixComplete(s) && !a.HostCrash?
    ensures PrefixComplete(Step(s, a))
  {
    hide Inv, Enabled, Step, PrefixComplete, LastDirIn;
    StepKeeps(s, a);
    PrefixCompleteExactly(s);
    PrefixCompleteExactly(Step(s, a));
    LastDirKept(s, a);
  }

  lemma LastDirKept(s: State, a: Action)
    requires Inv(s) && Enabled(s, a) && !a.HostCrash? && LastDirIn(s.first, s.seen.top, s.seen.dirs)
    ensures LastDirIn(Step(s, a).first, Step(s, a).seen.top, Step(s, a).seen.dirs)
  {
    hide LogDir.Sound, LogDir.Step, LogDir.Possible, Selected, FilesOk, ChosenOk, SyncedOk, Prefix, Dir;
  }

  /** What a crash leaves at least, with `state.txt` as it was seen last. */
  ghost function WorstCrash(s: State): Action {
    HostCrash(seq(|s.log.files|, i requires 0 <= i < |s.log.files| => s.log.files[i].durable), false, false, s.tmp, s.lock,
              Changes(s.synced.dirs,
                      map n | n in s.synced.osc && Dir(n) in s.synced.dirs :: s.synced.osc[n],
                      map n | n in s.synced.states && Dir(n) in s.synced.dirs :: s.synced.states[n],
                      s.seen.top))
  }

  lemma WorstCrashEnabled(s: State)
    requires Inv(s)
    ensures Enabled(s, WorstCrash(s))
  {
    hide Prefix, ChosenOk, TmpOk, NextOk, LockOk, FilesOk, Dir;
    hide LogDir.GetLogOk, LogDir.CatchupOk, LogDir.NoLoss, LogDir.Complete;
    assert forall i :: 0 <= i < |s.log.files| ==> LogDir.FileOk(s.log, s.log.files[i]);
  }

  /**
   When a crash can do that: some crash breaks the prefix if and only if the first-level directory of
   the number in `state.txt` is not synced. That is so only between moving `state.txt` and syncing
   the changes directory, and after a run that ended there.
   */
  lemma {:induction false} CrashBreaksPrefixExactly(s: State)
    requires Inv(s) && PrefixComplete(s)
    ensures (exists a: Action :: a.HostCrash? && Enabled(s, a) && !PrefixComplete(Step(s, a)))
            <==> !LastDirIn(s.first, s.seen.top, s.synced.dirs)
    ensures !LastDirIn(s.first, s.seen.top, s.synced.dirs) ==> s.diff.pc == TOP_MOVED || Stuck(s)
  {
    LastDirSynced(s);
    hide Inv, Enabled, Step, PrefixComplete, LastDirIn;
    WorstCrashEnabled(s);
    CrashKeepsPrefix(s, WorstCrash(s));
    if a: Action :| a.HostCrash? && Enabled(s, a) && !PrefixComplete(Step(s, a)) {
      CrashKeepsPrefix(s, a);
    }
    if !LastDirIn(s.first, s.seen.top, s.synced.dirs) {
      assert !PrefixComplete(Step(s, WorstCrash(s)));
    }
  }

  lemma LastDirSynced(s: State)
    requires Inv(s)
    ensures !LastDirIn(s.first, s.seen.top, s.synced.dirs) ==> s.diff.pc == TOP_MOVED || Stuck(s)
  {
    hide LogDir.Sound, FilesOk, NumbersOk, NextOk, TmpOk, ChosenOk, LastDirIn;
  }

  lemma CrashKeepsPrefix(s: State, a: Action)
    requires Inv(s) && Enabled(s, a) && a.HostCrash?
    ensures LastDirIn(s.first, s.seen.top, s.synced.dirs) ==> PrefixComplete(Step(s, a))
    ensures a == WorstCrash(s) ==> (PrefixComplete(Step(s, a)) <==> LastDirIn(s.first, s.seen.top, s.synced.dirs))
  {
    hide Inv, Enabled, Step, PrefixComplete, LastDirIn;
    StepKeeps(s, a);
    PrefixCompleteExactly(Step(s, a));
    CrashLastDir(s, a);
  }

  lemma CrashLastDir(s: State, a: Action)
    requires Inv(s) && Enabled(s, a) && a.HostCrash?
    ensures var s' := Step(s, a);
            && (LastDirIn(s.first, s.seen.top, s.synced.dirs) ==> LastDirIn(s'.first, s'.seen.top, s'.seen.dirs))
            && (a == WorstCrash(s) ==>
                  (LastDirIn(s'.first, s'.seen.top, s'.seen.dirs) <==> LastDirIn(s.first, s.seen.top, s.synced.dirs)))
  {
    hide LogDir.Sound, LogDir.Step, LogDir.Possible, Selected, FilesOk, TmpOk, ChosenOk, Dir;
  }

  /** The number's files are safe: synced in their directories, below a synced first-level directory. */
  ghost predicate SafeOsc(synced: Changes, n: nat) {
    n in synced.osc && Dir(n) in synced.dirs
  }

  ghost predicate SafeState(synced: Changes, n: nat) {
    n in synced.states && Dir(n) in synced.dirs
  }

  /** What is safe in one state is safe in the other, with the same contents. */
  ghost predicate SafeKept(before: Changes, after: Changes) {
    && (forall n :: SafeOsc(before, n) ==> SafeOsc(after, n) && after.osc[n] == before.osc[n])
    && (forall n :: SafeState(before, n) ==> SafeState(after, n) && after.states[n] == before.states[n])
  }

  /** No change file and no state file is ever replaced, and what is safe on disk stays. */
  ghost predicate Extends(before: State, after: State) {
    && (forall n :: n in before.seen.osc && n in after.seen.osc ==> after.seen.osc[n] == before.seen.osc[n])
    && (forall n :: n in before.seen.states && n in after.seen.states ==> after.seen.states[n] == before.seen.states[n])
    && SafeKept(before.synced, after.synced)
    && |before.log.files| <= |after.log.files|
    && (forall i :: 0 <= i < |before.log.files| ==> after.log.files[i].data == before.log.files[i].data)
  }

  /** How `state.txt` can change: publication takes the next number, a crash may take the last one back. */
  predicate NextNumber(before: State, after: State, a: Action) {
    after.seen.top != before.seen.top ==>
      || (a.HostCrash? && after.seen.top == before.synced.top)
      || (a.MoveTop? && after.seen.top.Some?
          && (before.seen.top.Some? ==> after.seen.top.value.sequenceNumber == before.seen.top.value.sequenceNumber + 1)
          && (before.seen.top == None ==> after.first == Some(after.seen.top.value.sequenceNumber)))
  }

  lemma LogDataKept(s: State, a: Action)
    requires Possible(s, a)
    ensures var s' := Step(s, a);
            && |s.log.files| <= |s'.log.files|
            && forall i :: 0 <= i < |s.log.files| ==> s'.log.files[i].data == s.log.files[i].data
  {
    hide LogDir.Step, LogDir.Possible, Possible, Step;
    var l := LogActionOf(s, a);
    if l.Some? {
      LogDir.DataKept(s.log, l.value);
    }
  }

  lemma MoveExtends(s: State, a: Action)
    requires Inv(s) && Enabled(s, a) && (a.MoveChange? || a.MoveState?)
    ensures var s' := Step(s, a); s'.log == s.log && Extends(s, s') && NextNumber(s, s', a)
    ensures a.MoveChange? ==> s.diff.next.sequenceNumber !in s.seen.osc
    ensures a.MoveState? ==> s.diff.next.sequenceNumber !in s.seen.states
  {
    hide LogDir.Sound, LogDir.Step, LogDir.Possible, Selected, FilesOk, Prefix, ChosenOk;
  }

  lemma SyncExtends(s: State, a: Action)
    requires Inv(s) && Enabled(s, a) && (a.MakeDirs? || a.SyncSubdirs? || a.MoveTop? || a.SyncTop?)
    ensures var s' := Step(s, a); s'.log == s.log && Extends(s, s') && NextNumber(s, s', a)
  {
    hide LogDir.Sound, LogDir.Step, LogDir.Possible, Selected, FilesOk, Prefix, ChosenOk, Dir;
  }

  lemma CrashKeepsSafe(synced: Changes, seen: Changes, after: Changes)
    requires CrashChanges(synced, seen, after)
    requires forall n :: n in synced.osc ==> n in seen.osc && synced.osc[n] == seen.osc[n]
    requires forall n :: n in synced.states ==> n in seen.states && synced.states[n] == seen.states[n]
    ensures SafeKept(synced, after)
  {
    hide Dir;
  }

  lemma CrashExtends(s: State, a: Action)
    requires Inv(s) && Enabled(s, a) && a.HostCrash?
    ensures Extends(s, Step(s, a)) && NextNumber(s, Step(s, a), a)
  {
    hide Inv, Step, Possible, Enabled, SafeKept, Dir;
    LogDataKept(s, a);
    CrashIs(s, a);
    SyncedIsSeen(s);
    CrashKeepsSafe(s.synced, s.seen, a.changes);
  }

  predicate IsQuiet(a: Action) {
    !a.HostCrash? && !a.MakeDirs? && !a.MoveChange? && !a.MoveState? && !a.SyncSubdirs? && !a.MoveTop? && !a.SyncTop?
  }

  lemma QuietSteps(s: State, a: Action)
    requires Enabled(s, a) && IsQuiet(a)
    ensures Step(s, a).seen == s.seen && Step(s, a).synced == s.synced
  {
    hide LogDir.Step, LogDir.Possible, Selected, Enabled;
  }

  lemma QuietExtends(s: State, a: Action)
    requires Inv(s) && Enabled(s, a) && IsQuiet(a)
    ensures Extends(s, Step(s, a)) && NextNumber(s, Step(s, a), a)
  {
    hide Inv, Enabled, Step;
    LogDataKept(s, a);
    QuietSteps(s, a);
  }

  /** Numbers grow by exactly one per publication, and no published number is ever overwritten. */
  lemma {:induction false} StepExtends(s: State, a: Action)
    requires Inv(s) && Enabled(s, a)
    ensures Extends(s, Step(s, a))
    ensures NextNumber(s, Step(s, a), a)
    ensures a.MoveChange? ==> s.diff.next.sequenceNumber !in s.seen.osc
    ensures a.MoveState? ==> s.diff.next.sequenceNumber !in s.seen.states
  {
    hide Inv, Enabled, Step, Extends, NextNumber;
    match a {
      case MoveChange => MoveExtends(s, a);
      case MoveState => MoveExtends(s, a);
      case MakeDirs => SyncExtends(s, a);
      case SyncSubdirs => SyncExtends(s, a);
      case MoveTop => SyncExtends(s, a);
      case SyncTop => SyncExtends(s, a);
      case HostCrash(_, _, _, _, _, _) => CrashExtends(s, a);
      case _ => QuietExtends(s, a);
    }
  }

  lemma SafeKeptOn(a: Changes, b: Changes, c: Changes)
    requires SafeKept(a, b) && SafeKept(b, c)
    ensures SafeKept(a, c)
  {
  }

  /** Over whole runs: a change file or state file that is safe on disk stays in place with the same contents. */
  lemma {:induction false} DurableForever(s: State, actions: seq<Action>)
    requires Inv(s) && IsRun(s, actions)
    ensures var end := Run(s, actions);
            && SafeKept(s.synced, end.synced)
            && |s.log.files| <= |end.log.files|
            && (forall i :: 0 <= i < |s.log.files| ==> end.log.files[i].data == s.log.files[i].data)
    decreases |actions|
  {
    hide Inv, Enabled, Step, SafeOsc, SafeState;
    if actions != [] {
      StepKeeps(s, actions[0]);
      StepExtends(s, actions[0]);
      DurableForever(Step(s, actions[0]), actions[1..]);
      SafeKeptOn(s.synced, Step(s, actions[0]).synced, Run(s, actions).synced);
    }
  }

  /** There is a lock file, and no run is in the critical section that it belongs to. */
  predicate LockLeft(s: State) {
    s.lock && !Own(s)
  }

  /** There is nothing new in the changes directory; `state.txt` is as it was seen or as it was synced. */
  ghost predicate NothingNew(before: State, after: State) {
    && after.seen.dirs <= before.seen.dirs
    && (forall n :: n in after.seen.osc ==> n in before.seen.osc && after.seen.osc[n] == before.seen.osc[n])
    && (forall n :: n in after.seen.states ==> n in before.seen.states && after.seen.states[n] == before.seen.states[n])
    && (after.seen.top == before.seen.top || after.seen.top == before.synced.top)
    && (after.synced.top == before.seen.top || after.synced.top == before.synced.top)
  }

  /** The lock file stays, nothing is published and nothing is marked. */
  ghost predicate StaysLocked(s: State, s': State) {
    && LockLeft(s') && (s.lockDurable ==> s'.lockDurable)
    && NothingNew(s, s')
    && (forall i :: 0 <= i < |s'.log.files| && s'.log.files[i].seen == LogDir.Done ==>
          i < |s.log.files| && s.log.files[i].seen == LogDir.Done)
  }

  lemma LogActionLocked(s: State, a: LogDir.Action)
    requires Inv(s) && LockLeft(s) && Enabled(s, LogAction(a))
    ensures StaysLocked(s, Step(s, LogAction(a)))
  {
    hide LogDir.Sound, LogDir.Step, LogDir.Possible, Selected, FilesOk, NumberingOk;
    LogFrame(s.log, a);
  }

  lemma HostCrashLocked(s: State, a: Action)
    requires Inv(s) && LockLeft(s) && Enabled(s, a) && a.HostCrash? && s.lockDurable
    ensures StaysLocked(s, Step(s, a))
  {
    hide LogDir.Sound, LogDir.Step, LogDir.Possible, Selected, FilesOk, NumberingOk;
    CrashEffect(s.log, a.places, a.logPidLeft);
  }

  /** The steps of create-diff that are possible outside its critical section. */
  lemma OutsideLocked(s: State, a: Action)
    requires Inv(s) && LockLeft(s) && Enabled(s, a) && !a.LogAction? && !a.HostCrash?
    ensures StaysLocked(s, Step(s, a))
  {
    hide LogDir.Sound, LogDir.Step, LogDir.Possible, Selected, Dir;
    hide FilesOk, NumbersOk, DirsOk, NextOk, ChosenOk, TmpOk, SyncedOk;
  }

  lemma LockLeftStep(s: State, a: Action)
    requires Inv(s) && LockLeft(s) && Enabled(s, a) && (a.HostCrash? ==> s.lockDurable)
    ensures StaysLocked(s, Step(s, a))
    ensures !a.HostCrash? ==> Step(s, a).seen == s.seen && Step(s, a).synced == s.synced
  {
    if !a.HostCrash? {
      OutsideIsQuiet(s, a);
      QuietSteps(s, a);
    }
    hide Inv, LockLeft, Enabled, Step, StaysLocked;
    if a.LogAction? {
      LogActionLocked(s, a.a);
    } else if a.HostCrash? {
      HostCrashLocked(s, a);
    } else {
      OutsideLocked(s, a);
    }
  }

  lemma OutsideIsQuiet(s: State, a: Action)
    requires Inv(s) && LockLeft(s) && Enabled(s, a) && !a.HostCrash?
    ensures IsQuiet(a)
  {
    hide LogDir.Sound, LogDir.Possible, LogDir.Enabled, Selected;
  }

  predicate NoHostCrash(actions: seq<Action>) {
    forall i :: 0 <= i < |actions| ==> !actions[i].HostCrash?
  }

  /**
   A lock file left behind stops all further publication and marking until somebody cleans up: in
   every run if it is synced, otherwise in every run in which the host stays up. As long as it does,
   the changes directory stays as it is; crashes only take back what was not synced.
   */
  lemma {:induction false} StuckForever(s: State, actions: seq<Action>)
    requires Inv(s) && LockLeft(s) && IsRun(s, actions) && (s.lockDurable || NoHostCrash(actions))
    ensures var end := Run(s, actions);
            && LockLeft(end)
            && NothingNew(s, end)
            && (NoHostCrash(actions) ==> end.seen == s.seen && end.synced == s.synced)
            && (forall i :: 0 <= i < |end.log.files| && end.log.files[i].seen == LogDir.Done ==>
                  i < |s.log.files| && s.log.files[i].seen == LogDir.Done)
    decreases |actions|
  {
    hide Inv, Enabled, Step, LockLeft;
    if actions != [] {
      StepKeeps(s, actions[0]);
      LockLeftStep(s, actions[0]);
      StuckForever(Step(s, actions[0]), actions[1..]);
    }
  }
}
