/**
 A concrete run of the tools, in another order than that of the script, in which a transaction is
 logged twice; and the building blocks of such runs.
 */
module Counterexamples {
  import opened OsmObjects
  import opened LogDir
  import LogOnce

  const O1 := OsmObj(Node, 17, 1, 5)
  const O2 := OsmObj(Node, 17, 2, 6)
  const C1 := Commit(10, [O1])
  const C2 := Commit(20, [O2])
  const START := State([], 0, [], GetIdle, CatchupIdle, false)

  lemma {:induction false} RunConcat(s: State, a: seq<Action>, b: seq<Action>)
    requires IsRun(s, a) && IsRun(Run(s, a), b)
    ensures IsRun(s, a + b) && Run(s, a + b) == Run(Run(s, a), b)
    decreases |a|
  {
    hide Enabled, Step;
    if a == [] {
      assert a + b == b;
    } else {
      assert (a + b)[0] == a[0] && (a + b)[1..] == a[1..] + b;
      RunConcat(Step(s, a[0]), a[1..], b);
    }
  }

  lemma OneStep(s: State, a: Action)
    requires Enabled(s, a)
    ensures IsRun(s, [a]) && Run(s, [a]) == Step(s, a)
  {
    hide Enabled, Step;
    assert [a][1..] == [];
  }

  lemma NoStep(s: State) returns (a: seq<Action>)
    ensures a == [] && IsRun(s, a) && Run(s, a) == s
  {
    a := [];
  }

  /** Appending one step to a run. */
  lemma Then(s: State, a: seq<Action>, end: State, next: Action) returns (b: seq<Action>, end': State)
    requires IsRun(s, a) && Run(s, a) == end && Enabled(end, next)
    ensures b == a + [next] && end' == Step(end, next) && IsRun(s, b) && Run(s, b) == end'
  {
    hide Enabled, Step;
    OneStep(end, next);
    RunConcat(s, a, [next]);
    b, end' := a + [next], Step(end, next);
  }

  /** Nobody is running, the slot has confirmed everything, and the directory is synced. */
  predicate Quiet(s: State) {
    s.getLog == GetIdle && s.catchup == CatchupIdle && !s.pidFile && Acked(s.wal, s.confirmed) == |s.wal|
  }

  /** A commit, and get-log up to its rename. */
  lemma LogUntilRename(s: State, c: Commit) returns (a: seq<Action>, end: State)
    requires Quiet(s) && c.lsn > LastLsn(s.wal) && c.lsn > s.confirmed && c.objs != []
    requires Acked(s.wal + [c], s.confirmed) == |s.wal|
    ensures IsRun(s, a) && Run(s, a) == end
    ensures end == s.(wal := s.wal + [c], getLog := GetRenamed(s.confirmed, [c]), pidFile := true,
                      files := s.files + [LogFile(s.confirmed, [c], Log, Absent)])
  {
    hide Acked, IsRun, Run, Enabled, Step;
    a := NoStep(s);
    end := s;
    CommitStep(s, c);
    a, end := Then(s, a, end, CommitTxn(c));
    a, end := Then(s, a, end, GetStart);
    assert After(end.wal, end.confirmed) == [c];
    PeekStep(end, c);
    a, end := Then(s, a, end, Peek(1));
    WriteStep(end, s.confirmed, c);
    a, end := Then(s, a, end, WriteNew);
    RenameStep(end, s.files, s.confirmed, c);
    a, end := Then(s, a, end, RenameNew);
  }

  lemma CommitStep(s: State, c: Commit)
    requires Quiet(s) && c.lsn > LastLsn(s.wal)
    ensures Enabled(s, CommitTxn(c)) && Step(s, CommitTxn(c)) == s.(wal := s.wal + [c])
    ensures var s1 := s.(wal := s.wal + [c]);
            Enabled(s1, GetStart) && Step(s1, GetStart) == s1.(getLog := GetStarted, pidFile := true)
  {
  }

  lemma PeekStep(s: State, c: Commit)
    requires s.getLog == GetStarted && After(s.wal, s.confirmed) == [c]
    ensures Enabled(s, Peek(1)) && Step(s, Peek(1)) == s.(getLog := GetPeeked(s.confirmed, [c]))
  {
    assert [c][..1] == [c];
  }

  lemma WriteStep(s: State, start: nat, c: Commit)
    requires s.getLog == GetPeeked(start, [c]) && c.objs != []
    ensures Enabled(s, WriteNew)
    ensures Step(s, WriteNew) == s.(getLog := GetWritten(start, [c]), files := s.files + [LogFile(start, [c], New, Absent)])
  {
    assert s.getLog.data[0].objs != [];
  }

  lemma RenameStep(s: State, files: seq<LogFile>, start: nat, c: Commit)
    requires s.getLog == GetWritten(start, [c]) && s.files == files + [LogFile(start, [c], New, Absent)]
    ensures Enabled(s, RenameNew)
    ensures Step(s, RenameNew) == s.(getLog := GetRenamed(start, [c]), files := files + [LogFile(start, [c], Log, Absent)])
  {
    var i := |files|;
    assert s.files[i := s.files[i].(seen := Log)] == files + [LogFile(start, [c], Log, Absent)];
  }

  /** catchup finds no `.log` file. */
  lemma CatchupFindsNothing(s: State) returns (a: seq<Action>)
    requires s.catchup == CatchupIdle && !s.pidFile && NewestLog(s.files) == 0
    ensures IsRun(s, a) && Run(s, a) == s
  {
    hide NewestLog, IsRun, Run;
    var end;
    a := NoStep(s);
    a, end := Then(s, a, s, CatchupStart);
    a, end := Then(s, a, end, Scan);
    a, end := Then(s, a, end, CatchupExit);
  }

  lemma {:induction false} OneLog(files: seq<LogFile>)
    requires |files| == 1 && files[0].seen == Log && files[0].data == [C1]
    ensures NewestLog(files) == 10
  {
    assert files[..0] == [];
  }

  lemma {:induction false} TwoLogs(files: seq<LogFile>)
    requires files == [LogFile(0, [C1], Log, Log), LogFile(10, [C2], Log, Log)]
    ensures NewestLog(files) == 20
  {
    assert files[..1] == [LogFile(0, [C1], Log, Log)];
    OneLog(files[..1]);
  }

  // --- create-diff between get-log and catchup --------------------------------------------------------------

  lemma LogOne(s: State, c: Commit) returns (a: seq<Action>, end: State)
    requires Quiet(s) && c.lsn > LastLsn(s.wal) && c.lsn > s.confirmed && c.objs != []
    requires Acked(s.wal + [c], s.confirmed) == |s.wal|
    requires forall i :: 0 <= i < |s.files| ==> s.files[i].durable == s.files[i].seen
    ensures IsRun(s, a) && Run(s, a) == end
    ensures end == s.(wal := s.wal + [c], files := s.files + [LogFile(s.confirmed, [c], Log, Log)])
  {
    hide Acked;
    a, end := LogUntilRename(s, c);
    a, end := Then(s, a, end, SyncNew);
    a, end := Then(s, a, end, GetExit);
    assert end.files == s.files + [LogFile(s.confirmed, [c], Log, Log)];
  }

  /** create-diff is through with the file before the slot knows about it, so catchup finds nothing. */
  lemma DoneTooEarly() returns (a: seq<Action>, end: State)
    ensures IsRun(START, a) && Run(START, a) == end
    ensures end == State([C1], 0, [LogFile(0, [C1], Done, Log)], GetIdle, CatchupIdle, false)
  {
    hide Enabled, Step, NewestLog;
    a, end := LogOne(START, C1);
    FirstDone(end);
    a, end := Then(START, a, end, MarkDone(0));
    var b := CatchupFindsNothing(end);
    RunConcat(START, a, b);
    a := a + b;
  }

  lemma FirstDone(s: State)
    requires s == START.(wal := [C1], files := [LogFile(0, [C1], Log, Log)])
    ensures Enabled(s, MarkDone(0)) && Step(s, MarkDone(0)) == s.(files := [LogFile(0, [C1], Done, Log)])
    ensures NewestLog([LogFile(0, [C1], Done, Log)]) == 0
  {
    assert [LogFile(0, [C1], Done, Log)][..0] == [];
  }

  /** With create-diff before catchup, get-log renames its file while the slot does not know the first one. */
  lemma EarlyCreateDiffLogsTwice() returns (a: seq<Action>, end: State)
    ensures IsRun(START, a) && Run(START, a) == end
    ensures |end.files| == 2
    ensures forall i :: 0 <= i < 2 ==> end.files[i].seen.Live() && end.files[i].data == [C1]
    ensures !LogOnce.NotTwice(end.files)
  {
    a, end := DoneTooEarly();
    hide IsRun, Run;
    a, end := Then(START, a, end, GetStart);
    assert After(end.wal, end.confirmed) == [C1];
    a, end := Then(START, a, end, Peek(1));
    assert end.getLog == GetPeeked(0, [C1]);
    a, end := Then(START, a, end, WriteNew);
    a, end := Then(START, a, end, RenameNew);
    assert HeldBy(end.files, 0, C1) && HeldBy(end.files, 1, C1);
  }

  lemma BothAcked()
    ensures Acked([], 0) == 0 && Acked([] + [C1], 0) == 0
    ensures Acked([C1], 10) == 1 && Acked([C1] + [C2], 10) == 1
  {
    assert [C1][1..] == [] && [] + [C1] == [C1];
    assert ([C1] + [C2])[1..] == [C2];
  }
}
