/**
 get-log with `--catchup`: it advances the slot itself, to the LSN of the last transaction it has seen,
 so that the next peek goes on right behind that.
 */
module OwnCatchup {
  import opened LogDir
  import LogOnce

  /** What the peek at the first `count` transactions behind the slot position showed. */
  function Peeked(s: State, count: nat): seq<Commit>
    requires count <= |After(s.wal, s.confirmed)|
  {
    After(s.wal, s.confirmed)[..count]
  }

  /** get-log works on what it saw in the state `start`; others may have committed since. */
  predicate Working(start: State, count: nat, s: State)
    requires count <= |After(start.wal, start.confirmed)|
  {
    && start.wal <= s.wal && s.confirmed == start.confirmed
    && (s.getLog == GetPeeked(start.confirmed, Peeked(start, count))
        || s.getLog == GetWritten(start.confirmed, Peeked(start, count))
        || s.getLog == GetRenamed(start.confirmed, Peeked(start, count))
        || s.getLog == GetLogged(LastLsn(Peeked(start, count))))
  }

  /** It has advanced the slot to the last of these transactions. */
  predicate Advanced(start: State, count: nat, s: State)
    requires count <= |After(start.wal, start.confirmed)|
  {
    start.wal <= s.wal && s.getLog == GetAdvanced && s.confirmed == LastLsn(Peeked(start, count))
  }

  /** The run of get-log ends here. */
  predicate Ends(a: Action) {
    a.GetExit? || a.GetFail? || a.GetKill? || a.Crash?
  }

  /** Whatever the database, create-diff and others do meanwhile. */
  lemma WorkStep(start: State, count: nat, s: State, a: Action)
    requires count <= |After(start.wal, start.confirmed)|
    requires Sound(s) && Possible(s, a) && !Ends(a)
    requires Working(start, count, s) || Advanced(start, count, s)
    ensures Working(start, count, Step(s, a)) || Advanced(start, count, Step(s, a))
    ensures a.AdvanceOwn? ==> Advanced(start, count, Step(s, a))
  {
    hide After, LastLsn, FileOk, GetLogOk, CatchupOk, Increasing, HasActualData, NewestLog;
  }

  /** Then the slot offers what was behind these transactions, and what was committed since. */
  lemma AdvancedOffers(start: State, count: nat, s: State)
    requires 0 < count <= |After(start.wal, start.confirmed)|
    requires Increasing(s.wal) && Advanced(start, count, s)
    ensures After(s.wal, s.confirmed)
            == After(start.wal, start.confirmed)[count..] + s.wal[|start.wal|..]
  {
    hide Acked;
    var n := Acked(start.wal, start.confirmed);
    var data := Peeked(start, count);
    assert data[count - 1] == start.wal[n + count - 1] == s.wal[n + count - 1];
    assert s.wal == start.wal + s.wal[|start.wal|..];
    AckedIs(s.wal, s.confirmed, n + count);
  }

  lemma {:induction false} WorkRun(start: State, count: nat, s: State, actions: seq<Action>)
    requires count <= |After(start.wal, start.confirmed)|
    requires Sound(s) && LogOnce.CanRun(s, actions) && forall i :: 0 <= i < |actions| ==> !Ends(actions[i])
    requires Working(start, count, s) || Advanced(start, count, s)
    ensures var end := LogOnce.Reached(s, actions);
            Sound(end) && (Working(start, count, end) || Advanced(start, count, end))
    decreases |actions|
  {
    hide Sound, Possible, Step, Working, Advanced, After;
    if actions != [] {
      StepSound(s, actions[0]);
      WorkStep(start, count, s, actions[0]);
      WorkRun(start, count, Step(s, actions[0]), actions[1..]);
    }
  }

  lemma PeekWorks(s: State, count: nat)
    requires Possible(s, Peek(count))
    ensures count <= |After(s.wal, s.confirmed)| && Working(s, count, Step(s, Peek(count)))
  {
    hide After, LastLsn;
  }

  /**
   After a run of get-log with `--catchup` the next peek offers exactly what comes behind the transactions
   that this run has seen, whether it wrote them to a file or skipped them: nothing is seen twice, and
   nothing is left out. Commits, marks and syncs may happen at any time.
   */
  lemma {:induction false} NextPeekGoesOn(s: State, count: nat, actions: seq<Action>)
    requires Sound(s) && Possible(s, Peek(count)) && LogOnce.CanRun(Step(s, Peek(count)), actions)
    requires forall i :: 0 <= i < |actions| ==> !Ends(actions[i])
    requires LogOnce.Reached(Step(s, Peek(count)), actions).getLog == GetAdvanced
    ensures var end := LogOnce.Reached(Step(s, Peek(count)), actions);
            && count <= |After(s.wal, s.confirmed)| && s.wal <= end.wal
            && After(end.wal, end.confirmed) == After(s.wal, s.confirmed)[count..] + end.wal[|s.wal|..]
  {
    var first := Step(s, Peek(count));
    StepSound(s, Peek(count));
    PeekWorks(s, count);
    WorkRun(s, count, first, actions);
    var end := LogOnce.Reached(first, actions);
    assert Increasing(end.wal) && 0 < count;
    hide Sound, Possible, Step, After, Increasing;
    AdvancedOffers(s, count, end);
  }
}
