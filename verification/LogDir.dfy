/**
 The log directory as a step machine: transactions commit at any time, osmdbt-get-log and
 osmdbt-catchup run under one PID file, somebody else may mark log files as done, and the host may
 crash between any two steps (src/osmdbt-get-log.cpp, src/osmdbt-catchup.cpp, src/util.cpp).

 A log file is known by its position: names carry the time and the LSN, and names of later files
 sort later. `seen` is what a directory listing shows, `durable` what is left after a crash when
 nothing of the not yet synced directory changes reached the disk.
 */
module LogDir {
  import opened OsmObjects

  /** A committed transaction that touched the object tables: its commit LSN and the inserted versions. */
  datatype Commit = Commit(lsn: nat, objs: seq<OsmObj>)

  /** The stations of a log file: not there, `.new`, `.log`, `.log.done`. */
  datatype Place = Absent | New | Log | Done {
    function Rank(): nat {
      match this
      case Absent => 0
      case New => 1
      case Log => 2
      case Done => 3
    }

    predicate Live() {
      Log? || Done?
    }
  }

  /** `start` is the slot position that get-log read from, `data` are the transactions it wrote. */
  datatype LogFile = LogFile(start: nat, data: seq<Commit>, seen: Place, durable: Place) {
    function Lsn(): nat {
      LastLsn(data)
    }
  }

  function LastLsn(commits: seq<Commit>): nat {
    if commits == [] then 0 else commits[|commits| - 1].lsn
  }

  /** get-log between two of its effects. */
  datatype GetLog =
    | GetIdle
    | GetStarted
    | GetPeeked(start: nat, data: seq<Commit>)
    | GetWritten(start: nat, data: seq<Commit>)
    | GetRenamed(start: nat, data: seq<Commit>)
    | GetLogged(lsn: nat)
    | GetAdvanced

  datatype Catchup = CatchupIdle | CatchupStarted | CatchupScanned(target: nat) | CatchupDone

  datatype State = State(
    wal: seq<Commit>, confirmed: nat, files: seq<LogFile>, getLog: GetLog, catchup: Catchup, pidFile: bool)

  datatype Action =
    | CommitTxn(commit: Commit)
      // get-log
    | GetStart | Peek(count: nat) | SkipWrite | WriteNew | RenameNew | SyncNew | AdvanceOwn | GetExit | GetFail | GetKill
      // catchup
    | CatchupStart | Scan | AdvanceToNewest | CatchupExit | CatchupFail | CatchupKill
      // create-diff, seen from here
    | MarkDone(file: nat) | SyncDir
      // the whole host
    | Crash(places: seq<Place>, pidLeft: bool)

  // --- The steps ---------------------------------------------------------------------------------

  /** How many transactions at the front of the commit order the slot has confirmed. */
  function Acked(wal: seq<Commit>, confirmed: nat): (n: nat)
    ensures n <= |wal|
    ensures forall i :: 0 <= i < n ==> wal[i].lsn <= confirmed
    ensures n < |wal| ==> wal[n].lsn > confirmed
  {
    if wal == [] || wal[0].lsn > confirmed then 0 else 1 + Acked(wal[1..], confirmed)
  }

  /** What peeking at the slot offers: whole transactions after the confirmed LSN, in commit order. */
  function After(wal: seq<Commit>, confirmed: nat): seq<Commit> {
    wal[Acked(wal, confirmed)..]
  }

  predicate HasActualData(data: seq<Commit>) {
    exists i :: 0 <= i < |data| && data[i].objs != []
  }

  /** The largest LSN among the `.log` names, 0 if there is none. */
  function NewestLog(files: seq<LogFile>): nat {
    if files == [] then 0
    else
      var newest := NewestLog(files[..|files| - 1]);
      var file := files[|files| - 1];
      if file.seen == Log && file.Lsn() > newest then file.Lsn() else newest
  }

  /** The largest LSN among the `.log` and `.log.done` files, 0 if there is none. */
  function NewestLive(files: seq<LogFile>): nat {
    if files == [] then 0
    else
      var newest := NewestLive(files[..|files| - 1]);
      var file := files[|files| - 1];
      if file.seen.Live() && file.Lsn() > newest then file.Lsn() else newest
  }

  /** The `.log` or `.log.done` file at this position has the transaction. */
  predicate HeldBy(files: seq<LogFile>, i: nat, commit: Commit) {
    i < |files| && files[i].seen.Live() && commit in files[i].data
  }

  function Rename(files: seq<LogFile>, i: nat, place: Place): seq<LogFile>
    requires i < |files|
  {
    files[i := files[i].(seen := place)]
  }

  function Synced(files: seq<LogFile>): (r: seq<LogFile>)
    ensures |r| == |files|
    ensures forall i :: 0 <= i < |files| ==> r[i] == files[i].(durable := files[i].seen)
  {
    seq(|files|, i requires 0 <= i < |files| => files[i].(durable := files[i].seen))
  }

  /** After a crash each file is at a station between the durable one and the one seen before. */
  predicate CrashPlaces(files: seq<LogFile>, places: seq<Place>) {
    && |places| == |files|
    && forall i :: 0 <= i < |files| ==> files[i].durable.Rank() <= places[i].Rank() <= files[i].seen.Rank()
  }

  function AfterCrash(files: seq<LogFile>, places: seq<Place>): (r: seq<LogFile>)
    requires |places| == |files|
    ensures |r| == |files|
    ensures forall i :: 0 <= i < |files| ==> r[i] == files[i].(seen := places[i], durable := places[i])
  {
    seq(|files|, i requires 0 <= i < |files| => files[i].(seen := places[i], durable := places[i]))
  }

  /** The steps that can be taken. get-log can fail anywhere, also in the directory sync after the rename. */
  predicate Possible(s: State, a: Action) {
    match a
    case CommitTxn(c) => c.lsn > LastLsn(s.wal)
    case GetStart => s.getLog == GetIdle && !s.pidFile
    case Peek(count) => s.getLog == GetStarted && 0 < count <= |After(s.wal, s.confirmed)|
    case SkipWrite => s.getLog.GetPeeked? && !HasActualData(s.getLog.data)
    case WriteNew => s.getLog.GetPeeked? && HasActualData(s.getLog.data)
    case RenameNew => s.getLog.GetWritten? && s.files != []
    case SyncNew => s.getLog.GetRenamed?
    case AdvanceOwn => s.getLog.GetLogged?
    case GetExit =>
      (s.getLog == GetStarted && After(s.wal, s.confirmed) == []) || s.getLog.GetLogged? || s.getLog == GetAdvanced
    case GetFail => s.getLog != GetIdle
    case GetKill => s.getLog != GetIdle
    case CatchupStart => s.catchup == CatchupIdle && !s.pidFile
    case Scan => s.catchup == CatchupStarted
    case AdvanceToNewest => s.catchup.CatchupScanned? && s.catchup.target != 0 && s.catchup.target >= s.confirmed
    case CatchupExit => s.catchup == CatchupScanned(0) || s.catchup == CatchupDone
    case CatchupFail => s.catchup != CatchupIdle
    case CatchupKill => s.catchup != CatchupIdle
    case MarkDone(i) => i < |s.files| && s.files[i].seen == Log
    case SyncDir => true
    case Crash(places, pidLeft) => CrashPlaces(s.files, places) && (pidLeft ==> s.pidFile)
  }

  /** A log file that a crash cannot take away has this LSN. */
  predicate DurableFile(files: seq<LogFile>, lsn: nat) {
    exists i :: 0 <= i < |files| && files[i].seen.Live() && files[i].durable.Live() && files[i].Lsn() == lsn
  }

  /** The steps of runs in which catchup does not confirm a log file that a failed directory sync left behind. */
  predicate Enabled(s: State, a: Action): (e: bool)
    ensures e ==> Possible(s, a)
  {
    Possible(s, a) && (a.AdvanceToNewest? ==> DurableFile(s.files, s.catchup.target))
  }

  function Step(s: State, a: Action): State
    requires Possible(s, a)
  {
    match a
    case CommitTxn(c) => s.(wal := s.wal + [c])
    case GetStart => s.(getLog := GetStarted, pidFile := true)
    case Peek(count) => s.(getLog := GetPeeked(s.confirmed, After(s.wal, s.confirmed)[..count]))
    case SkipWrite => s.(getLog := GetLogged(LastLsn(s.getLog.data)))
    case WriteNew =>
      s.(getLog := GetWritten(s.getLog.start, s.getLog.data),
         files := s.files + [LogFile(s.getLog.start, s.getLog.data, New, Absent)])
    case RenameNew =>
      s.(getLog := GetRenamed(s.getLog.start, s.getLog.data), files := Rename(s.files, |s.files| - 1, Log))
    case SyncNew => s.(getLog := GetLogged(LastLsn(s.getLog.data)), files := Synced(s.files))
    case AdvanceOwn => s.(getLog := GetAdvanced, confirmed := s.getLog.lsn)
    case GetExit => s.(getLog := GetIdle, pidFile := false)
    case GetFail => s.(getLog := GetIdle, pidFile := false)
    case GetKill => s.(getLog := GetIdle)
    case CatchupStart => s.(catchup := CatchupStarted, pidFile := true)
    case Scan => s.(catchup := CatchupScanned(NewestLog(s.files)))
    case AdvanceToNewest => s.(catchup := CatchupDone, confirmed := s.catchup.target)
    case CatchupExit => s.(catchup := CatchupIdle, pidFile := false)
    case CatchupFail => s.(catchup := CatchupIdle, pidFile := false)
    case CatchupKill => s.(catchup := CatchupIdle)
    case MarkDone(i) => s.(files := Rename(s.files, i, Done))
    case SyncDir => s.(files := Synced(s.files))
    case Crash(places, pidLeft) =>
      s.(files := AfterCrash(s.files, places), getLog := GetIdle, catchup := CatchupIdle, pidFile := pidLeft)
  }

  lemma OnlyAdvanceDiffers(s: State, a: Action)
    requires Possible(s, a) && !a.AdvanceToNewest?
    ensures Enabled(s, a)
  {
  }

  /** A fresh installation: nothing logged, nothing confirmed. */
  predicate Init(s: State) {
    s == State([], 0, [], GetIdle, CatchupIdle, false)
  }

  // --- What every step keeps --------------------------------------------------------------------

  predicate Increasing(wal: seq<Commit>) {
    && (forall i :: 0 <= i < |wal| ==> wal[i].lsn > 0)
    && forall i, j :: 0 <= i < j < |wal| ==> wal[i].lsn < wal[j].lsn
  }

  /** The data holds exactly the transactions from the slot position `start` to its own last one. */
  predicate Complete(wal: seq<Commit>, start: nat, data: seq<Commit>) {
    && data != []
    && start < LastLsn(data) <= LastLsn(wal)
    && (forall c :: c in data ==> c in wal && start < c.lsn <= LastLsn(data))
    && forall c :: c in wal && start < c.lsn <= LastLsn(data) ==> c in data
  }

  predicate FileOk(s: State, f: LogFile) {
    && Complete(s.wal, f.start, f.data)
    && HasActualData(f.data)
    && f.start <= s.confirmed
    && f.durable.Rank() <= f.seen.Rank()
  }

  /** A log file holds the transaction, and keeps holding it when the host crashes now. */
  predicate HeldIn(f: LogFile, c: Commit) {
    f.seen.Live() && f.durable.Live() && c in f.data
  }

  predicate Held(files: seq<LogFile>, c: Commit) {
    exists i :: 0 <= i < |files| && HeldIn(files[i], c)
  }

  /** No directory change is pending that a crash could take back to a `.new` file or to nothing. */
  predicate Settled(files: seq<LogFile>) {
    forall i :: 0 <= i < |files| && files[i].seen.Live() ==> files[i].durable.Live()
  }

  predicate GetLogOk(s: State) {
    match s.getLog
    case GetIdle => true
    case GetStarted => true
    case GetPeeked(start, data) => start == s.confirmed && Complete(s.wal, start, data)
    case GetWritten(start, data) =>
      && s.files != [] && start == s.confirmed
      && s.files[|s.files| - 1].start == start && s.files[|s.files| - 1].data == data
      && s.files[|s.files| - 1].seen == New
    case GetRenamed(start, data) =>
      && s.files != [] && start == s.confirmed
      && s.files[|s.files| - 1].start == start && s.files[|s.files| - 1].data == data
      && s.files[|s.files| - 1].seen.Live()
    case GetLogged(lsn) => s.confirmed <= lsn <= LastLsn(s.wal)
    case GetAdvanced => true
  }

  predicate CatchupOk(s: State) {
    s.catchup.CatchupScanned? && s.catchup.target != 0 ==>
      exists i :: 0 <= i < |s.files| && s.files[i].seen.Live() && s.files[i].Lsn() == s.catchup.target
  }

  /** At most one of the two tools is between taking and removing the PID file. */
  predicate Exclusive(s: State) {
    && (s.getLog != GetIdle ==> s.pidFile && s.catchup == CatchupIdle)
    && (s.catchup != CatchupIdle ==> s.pidFile && s.getLog == GetIdle)
  }

  /** Every transaction up to the LSN that has inserted versions is held. */
  predicate HeldUpTo(s: State, lsn: nat) {
    forall c :: c in s.wal && c.lsn <= lsn && c.objs != [] ==> Held(s.files, c)
  }

  predicate NoLoss(s: State) {
    HeldUpTo(s, s.confirmed)
  }

  /** What every possible step keeps, failed syncs included. */
  ghost predicate Sound(s: State) {
    && Increasing(s.wal)
    && s.confirmed <= LastLsn(s.wal)
    && (forall i :: 0 <= i < |s.files| ==> FileOk(s, s.files[i]))
    && GetLogOk(s) && CatchupOk(s) && Exclusive(s)
  }

  ghost predicate Inv(s: State) {
    Sound(s) && NoLoss(s) && (s.getLog.GetLogged? ==> HeldUpTo(s, s.getLog.lsn))
  }

  lemma LastIsMax(wal: seq<Commit>)
    requires Increasing(wal)
    ensures forall c :: c in wal ==> 0 < c.lsn <= LastLsn(wal)
  {
  }

  lemma {:induction false} AckedIs(wal: seq<Commit>, confirmed: nat, n: nat)
    requires Increasing(wal) && n <= |wal|
    requires n > 0 ==> wal[n - 1].lsn <= confirmed
    requires n < |wal| ==> wal[n].lsn > confirmed
    ensures Acked(wal, confirmed) == n
  {
  }

  lemma AfterIsComplete(wal: seq<Commit>, confirmed: nat, count: nat)
    requires Increasing(wal) && 0 < count <= |After(wal, confirmed)|
    ensures Complete(wal, confirmed, After(wal, confirmed)[..count])
  {
    hide Acked;
    var n := Acked(wal, confirmed);
    var data := After(wal, confirmed)[..count];
    assert data == wal[n..n + count];
    StretchIsComplete(wal, n, n + count, confirmed);
  }

  lemma InStretch(wal: seq<Commit>, from: nat, to: nat, confirmed: nat, c: Commit)
    requires Increasing(wal) && from < to <= |wal|
    requires forall i :: 0 <= i < from ==> wal[i].lsn <= confirmed
    requires wal[from].lsn > confirmed
    ensures c in wal[from..to] <==> c in wal && confirmed < c.lsn <= wal[to - 1].lsn
  {
    if c in wal[from..to] {
      var d :| 0 <= d < to - from && wal[from..to][d] == c;
      assert c == wal[from + d];
    }
    if c in wal && confirmed < c.lsn <= wal[to - 1].lsn {
      var i :| 0 <= i < |wal| && wal[i] == c;
      assert from <= i < to;
      assert wal[from..to][i - from] == c;
    }
  }

  /** A stretch of the commit order. */
  lemma StretchIsComplete(wal: seq<Commit>, from: nat, to: nat, confirmed: nat)
    requires Increasing(wal) && from < to <= |wal|
    requires forall i :: 0 <= i < from ==> wal[i].lsn <= confirmed
    requires wal[from].lsn > confirmed
    ensures Complete(wal, confirmed, wal[from..to])
  {
    var data := wal[from..to];
    assert data[to - from - 1] == wal[to - 1] && confirmed < wal[to - 1].lsn <= LastLsn(wal);
    hide Increasing;
    forall c: Commit
      ensures c in data <==> c in wal && confirmed < c.lsn <= LastLsn(data)
    {
      InStretch(wal, from, to, confirmed, c);
    }
  }

  lemma CompleteGrows(wal: seq<Commit>, c: Commit, start: nat, data: seq<Commit>)
    requires Complete(wal, start, data) && c.lsn > LastLsn(wal)
    ensures Complete(wal + [c], start, data)
  {
  }

  lemma {:induction false} NewestLogIsNewest(files: seq<LogFile>)
    ensures forall i :: 0 <= i < |files| && files[i].seen == Log ==> files[i].Lsn() <= NewestLog(files)
    ensures NewestLog(files) != 0
            ==> exists i :: 0 <= i < |files| && files[i].seen == Log && files[i].Lsn() == NewestLog(files)
  {
    if files != [] {
      var rest := files[..|files| - 1];
      NewestLogIsNewest(rest);
      assert forall i :: 0 <= i < |rest| ==> rest[i] == files[i];
    }
  }

  lemma {:induction false} NewestLiveIsNewest(files: seq<LogFile>)
    ensures forall i :: 0 <= i < |files| && files[i].seen.Live() ==> files[i].Lsn() <= NewestLive(files)
    ensures NewestLive(files) != 0 ==>
              exists i :: 0 <= i < |files| && files[i].seen.Live() && files[i].Lsn() == NewestLive(files)
  {
    if files != [] {
      var rest := files[..|files| - 1];
      NewestLiveIsNewest(rest);
      assert forall i :: 0 <= i < |rest| ==> rest[i] == files[i];
    }
  }

  lemma CommitSound(s: State, c: Commit)
    requires Sound(s) && Possible(s, CommitTxn(c))
    ensures Sound(Step(s, CommitTxn(c)))
  {
    var s' := Step(s, CommitTxn(c));
    LastIsMax(s.wal);
    forall i | 0 <= i < |s.files|
      ensures FileOk(s', s'.files[i])
    {
      CompleteGrows(s.wal, c, s.files[i].start, s.files[i].data);
    }
    if s.getLog.GetPeeked? {
      CompleteGrows(s.wal, c, s.getLog.start, s.getLog.data);
    }
  }

  lemma PeekSound(s: State, count: nat)
    requires Sound(s) && Possible(s, Peek(count))
    ensures Sound(Step(s, Peek(count)))
  {
    AfterIsComplete(s.wal, s.confirmed, count);
  }

  lemma WriteSound(s: State, a: Action)
    requires Sound(s) && Possible(s, a) && (a.WriteNew? || a.RenameNew?)
    ensures Sound(Step(s, a))
  {
    hide Increasing, HasActualData, CatchupOk;
    WriteKeepsTarget(s, a);
  }

  lemma WriteKeepsTarget(s: State, a: Action)
    requires Sound(s) && Possible(s, a) && (a.WriteNew? || a.RenameNew?)
    ensures CatchupOk(Step(s, a))
  {
    hide Increasing, HasActualData, FileOk, GetLogOk;
  }

  /** The other effects of get-log and catchup, and their ends. */
  lemma ToolSound(s: State, a: Action)
    requires Sound(s) && Possible(s, a)
    requires a.GetStart? || a.SkipWrite? || a.AdvanceOwn? || a.GetExit? || a.GetFail? || a.GetKill? || a.CatchupStart?
             || a.AdvanceToNewest? || a.CatchupExit? || a.CatchupFail? || a.CatchupKill?
    ensures Sound(Step(s, a))
  {
    hide Increasing, HasActualData, DurableFile;
  }

  lemma ScanSound(s: State)
    requires Sound(s) && Possible(s, Scan)
    ensures Sound(Step(s, Scan))
  {
    hide Complete, Increasing, HasActualData;
    NewestLogIsNewest(s.files);
  }

  /** Marking and syncing: no log file leaves its place, and none is lost. */
  lemma MarkSound(s: State, a: Action)
    requires Sound(s) && Possible(s, a) && (a.MarkDone? || a.SyncDir?)
    ensures Sound(Step(s, a))
  {
    hide Increasing, HasActualData, Complete;
    var s' := Step(s, a);
    if s.catchup.CatchupScanned? && s.catchup.target != 0 {
      var j :| 0 <= j < |s.files| && s.files[j].seen.Live() && s.files[j].Lsn() == s.catchup.target;
      assert s'.files[j].seen.Live() && s'.files[j].Lsn() == s.catchup.target;
    }
  }

  lemma SyncNewSound(s: State)
    requires Sound(s) && Possible(s, SyncNew)
    ensures Sound(Step(s, SyncNew))
  {
    hide Increasing, HasActualData;
    assert FileOk(s, s.files[|s.files| - 1]);
  }

  lemma CrashSound(s: State, a: Action)
    requires Sound(s) && Possible(s, a) && a.Crash?
    ensures Sound(Step(s, a))
  {
    hide Complete, Increasing, HasActualData;
  }

  lemma {:induction false} StepSound(s: State, a: Action)
    requires Sound(s) && Possible(s, a)
    ensures Sound(Step(s, a))
  {
    hide Sound, Possible, Step;
    match a
    case CommitTxn(c) => CommitSound(s, c);
    case Peek(count) => PeekSound(s, count);
    case Scan => ScanSound(s);
    case MarkDone(_) => MarkSound(s, a);
    case SyncDir => MarkSound(s, a);
    case SyncNew => SyncNewSound(s);
    case WriteNew => WriteSound(s, a);
    case RenameNew => WriteSound(s, a);
    case Crash(_, _) => CrashSound(s, a);
    case _ => ToolSound(s, a);
  }

  /** A log file that a crash cannot take away stays one. */
  lemma LiveKept(s: State, a: Action)
    requires Possible(s, a)
    ensures var s' := Step(s, a);
            && |s.files| <= |s'.files|
            && forall i :: 0 <= i < |s.files| && s.files[i].seen.Live() && s.files[i].durable.Live() ==>
                             s'.files[i].seen.Live() && s'.files[i].durable.Live()
  {
  }

  /** What was written into a log file never changes. */
  lemma DataKept(s: State, a: Action)
    requires Possible(s, a)
    ensures var s' := Step(s, a);
            && |s.files| <= |s'.files|
            && forall i :: 0 <= i < |s.files| ==> s'.files[i].data == s.files[i].data
  {
  }

  /** What is held stays held. */
  lemma HeldKept(s: State, a: Action)
    requires Possible(s, a)
    ensures forall c :: Held(s.files, c) ==> Held(Step(s, a).files, c)
  {
    hide Possible, Step;
    LiveKept(s, a);
    DataKept(s, a);
    var files' := Step(s, a).files;
    forall c | Held(s.files, c)
      ensures Held(files', c)
    {
      var i :| 0 <= i < |s.files| && HeldIn(s.files[i], c);
      assert HeldIn(files'[i], c);
    }
  }

  /** Only the transactions committed by the step itself are new, and nobody has confirmed them. */
  lemma HeldUpToKept(s: State, a: Action, lsn: nat)
    requires Possible(s, a) && HeldUpTo(s, lsn) && lsn <= LastLsn(s.wal)
    ensures HeldUpTo(Step(s, a), lsn)
  {
    WalIs(s, a);
    HeldKept(s, a);
    hide Possible, Step, Held;
  }

  lemma WalIs(s: State, a: Action)
    requires Possible(s, a)
    ensures if a.CommitTxn? then a.commit.lsn > LastLsn(s.wal) && Step(s, a).wal == s.wal + [a.commit]
            else Step(s, a).wal == s.wal
    ensures !a.AdvanceOwn? && !a.AdvanceToNewest? ==> Step(s, a).confirmed == s.confirmed
    ensures Step(s, a).getLog.GetLogged? ==> Step(s, a).getLog == s.getLog || a.SkipWrite? || a.SyncNew?
  {
  }

  /** A file that starts at or below the confirmed LSN holds everything between that and its own LSN. */
  lemma FileCovers(s: State, i: nat, c: Commit)
    requires Sound(s) && i < |s.files| && c in s.wal && s.confirmed < c.lsn <= s.files[i].Lsn()
    ensures c in s.files[i].data
  {
    assert FileOk(s, s.files[i]);
  }

  lemma SkipWriteHolds(s: State)
    requires Inv(s) && Possible(s, SkipWrite)
    ensures Step(s, SkipWrite).getLog.GetLogged? && HeldUpTo(Step(s, SkipWrite), Step(s, SkipWrite).getLog.lsn)
  {
    hide Held, FileOk, Increasing;
    assert forall c :: c in s.getLog.data ==> c.objs == [];
  }

  /** The directory sync after the rename makes the new file durable, so get-log may confirm its LSN. */
  lemma SyncNewHolds(s: State)
    requires Inv(s) && Possible(s, SyncNew)
    ensures Step(s, SyncNew).getLog.GetLogged? && HeldUpTo(Step(s, SyncNew), Step(s, SyncNew).getLog.lsn)
  {
    hide Increasing, HasActualData;
    HeldKept(s, SyncNew);
    var s' := Step(s, SyncNew);
    var last: nat := |s.files| - 1;
    forall c | c in s'.wal && c.lsn <= s'.getLog.lsn && c.objs != []
      ensures Held(s'.files, c)
    {
      if c.lsn > s.confirmed {
        FileCovers(s, last, c);
        assert HeldIn(s'.files[last], c);
      }
    }
  }

  /** Confirming the LSN of a durable file. */
  lemma AdvanceHolds(s: State)
    requires Inv(s) && Enabled(s, AdvanceToNewest)
    ensures NoLoss(Step(s, AdvanceToNewest))
  {
    hide FileOk, HasActualData, Increasing, GetLogOk;
    var s' := Step(s, AdvanceToNewest);
    var i :| 0 <= i < |s.files| && s.files[i].seen.Live() && s.files[i].durable.Live()
             && s.files[i].Lsn() == s.catchup.target;
    forall c | c in s'.wal && c.lsn <= s'.confirmed && c.objs != []
      ensures Held(s'.files, c)
    {
      if c.lsn > s.confirmed {
        FileCovers(s, i, c);
        assert HeldIn(s.files[i], c);
      }
    }
  }

  lemma OwnHolds(s: State)
    requires Inv(s) && Possible(s, AdvanceOwn)
    ensures NoLoss(Step(s, AdvanceOwn)) && !Step(s, AdvanceOwn).getLog.GetLogged?
  {
    hide FileOk, HasActualData, Increasing, Held;
  }

  lemma SoundBounds(s: State)
    requires Sound(s)
    ensures s.confirmed <= LastLsn(s.wal)
    ensures s.getLog.GetLogged? ==> s.getLog.lsn <= LastLsn(s.wal)
  {
  }

  /** Every step of every tool, of the database and of a crash keeps the invariant. */
  lemma {:induction false} StepKeeps(s: State, a: Action)
    requires Inv(s) && Enabled(s, a)
    ensures Inv(Step(s, a))
  {
    StepSound(s, a);
    SoundBounds(s);
    WalIs(s, a);
    HeldUpToKept(s, a, s.confirmed);
    match a {
      case SkipWrite => SkipWriteHolds(s);
      case SyncNew => SyncNewHolds(s);
      case AdvanceOwn => OwnHolds(s);
      case AdvanceToNewest => AdvanceHolds(s);
      case _ =>
    }
    if s.getLog.GetLogged? {
      HeldUpToKept(s, a, s.getLog.lsn);
    }
    hide Sound, Possible, Enabled, Step, HeldUpTo;
  }

  // --- Runs --------------------------------------------------------------------------------------

  /** A run: any finite sequence of enabled steps. */
  predicate IsRun(s: State, actions: seq<Action>)
    decreases |actions|
  {
    actions == [] || (Enabled(s, actions[0]) && IsRun(Step(s, actions[0]), actions[1..]))
  }

  function Run(s: State, actions: seq<Action>): State
    requires IsRun(s, actions)
    decreases |actions|
  {
    if actions == [] then s else Run(Step(s, actions[0]), actions[1..])
  }

  lemma {:induction false} RunKeeps(s: State, actions: seq<Action>)
    requires Inv(s) && IsRun(s, actions)
    ensures Inv(Run(s, actions))
    decreases |actions|
  {
    if actions != [] {
      StepKeeps(s, actions[0]);
      RunKeeps(Step(s, actions[0]), actions[1..]);
    }
  }

  /**
   No loss: under every interleaving of the tools with commits and crashes, each inserted object
   version that the database was told to forget is in a log file that also survives a crash.
   */
  lemma {:induction false} NothingIsLost(s: State, actions: seq<Action>)
    requires Init(s) && IsRun(s, actions)
    ensures var end := Run(s, actions);
            forall c, o :: c in end.wal && c.lsn <= end.confirmed && o in c.objs ==>
              exists f :: f in end.files && f.seen.Live() && f.durable.Live() && c in f.data
  {
    RunKeeps(s, actions);
    var end := Run(s, actions);
    forall c, o | c in end.wal && c.lsn <= end.confirmed && o in c.objs
      ensures exists f :: f in end.files && f.seen.Live() && f.durable.Live() && c in f.data
    {
      assert Held(end.files, c);
      var i :| 0 <= i < |end.files| && HeldIn(end.files[i], c);
      assert end.files[i] in end.files;
    }
  }
}
