/**
 When is every transaction logged once? Here get-log, catchup and create-diff run in any order and at
 any time, as far as the PID file lets them. A log file is written from the slot position on, so it
 repeats what a live file behind that position has already.
 */
module LogOnce {
  import opened LogDir

  /** No transaction is in two `.log` or `.log.done` files. */
  ghost predicate NotTwice(files: seq<LogFile>) {
    forall c, i: nat, j: nat :: HeldBy(files, i, c) && HeldBy(files, j, c) ==> i == j
  }

  /** The slot has confirmed every `.log` and `.log.done` file. */
  predicate SlotKnowsAll(s: State) {
    NewestLive(s.files) <= s.confirmed
  }

  lemma RenameIs(s: State)
    requires Sound(s) && Possible(s, RenameNew)
    ensures s.files != [] && !s.files[|s.files| - 1].seen.Live() && s.files[|s.files| - 1].start == s.confirmed
    ensures var last := |s.files| - 1; Step(s, RenameNew).files == s.files[last := s.files[last].(seen := Log)]
  {
    hide FileOk, Increasing;
  }

  /** The transaction right behind the slot position, if there is one. */
  function First(s: State): Commit
    requires Acked(s.wal, s.confirmed) < |s.wal|
  {
    s.wal[Acked(s.wal, s.confirmed)]
  }

  /** It is in every file that starts at or below the slot position and ends behind it. */
  lemma FirstIsIn(s: State, i: nat)
    requires Sound(s) && i < |s.files| && s.files[i].Lsn() > s.confirmed
    ensures Acked(s.wal, s.confirmed) < |s.wal| && First(s) in s.files[i].data
  {
    hide Acked, HasActualData, GetLogOk, CatchupOk, Exclusive;
    assert FileOk(s, s.files[i]);
    var last := s.files[i].data[|s.files[i].data| - 1];
    assert last in s.wal;
    var k :| 0 <= k < |s.wal| && s.wal[k] == last;
    assert s.confirmed < First(s).lsn <= last.lsn;
    FileCovers(s, i, First(s));
  }

  lemma NewEndsBehind(s: State)
    requires Sound(s) && Possible(s, RenameNew)
    ensures s.files != [] && s.files[|s.files| - 1].Lsn() > s.confirmed
  {
    RenameIs(s);
    hide Increasing, HasActualData, GetLogOk, CatchupOk, Exclusive;
    assert FileOk(s, s.files[|s.files| - 1]);
  }

  /** Files that the slot knows end where the new one starts. */
  lemma NewIsBehind(s: State, i: nat, c: Commit)
    requires Sound(s) && SlotKnowsAll(s) && Possible(s, RenameNew) && HeldBy(s.files, i, c)
    ensures c !in s.files[|s.files| - 1].data
  {
    RenameIs(s);
    NewestLiveIsNewest(s.files);
    assert FileOk(s, s.files[i]) && FileOk(s, s.files[|s.files| - 1]);
    hide GetLogOk, CatchupOk, Exclusive, Increasing, NewestLive, HasActualData;
  }

  /** get-log's rename logs nothing twice if and only if the slot has confirmed all live files. */
  lemma {:induction false} RenameExactly(s: State)
    requires Sound(s) && NotTwice(s.files) && Possible(s, RenameNew)
    ensures NotTwice(Step(s, RenameNew).files) <==> SlotKnowsAll(s)
  {
    RenameIs(s);
    NewEndsBehind(s);
    NewestLiveIsNewest(s.files);
    hide Sound, Possible, Step, NewestLive, First, Acked;
    var files, last: nat := Step(s, RenameNew).files, |s.files| - 1;
    if SlotKnowsAll(s) {
      forall c, i: nat, j: nat | HeldBy(files, i, c) && HeldBy(files, j, c)
        ensures i == j
      {
        if i != last {
          assert HeldBy(s.files, i, c);
          NewIsBehind(s, i, c);
        }
        if j != last {
          assert HeldBy(s.files, j, c);
          NewIsBehind(s, j, c);
        }
      }
    } else {
      var i: nat :| i < |s.files| && s.files[i].seen.Live() && s.files[i].Lsn() == NewestLive(s.files);
      FirstIsIn(s, i);
      FirstIsIn(s, last);
      assert HeldBy(files, i, First(s)) && HeldBy(files, last, First(s));
    }
  }

  /** Only the rename makes a file a log file. */
  lemma LiveBefore(s: State, a: Action)
    requires Possible(s, a) && !a.RenameNew?
    ensures var files := Step(s, a).files;
            forall i :: 0 <= i < |files| && files[i].seen.Live() ==>
                          i < |s.files| && s.files[i].seen.Live() && s.files[i].data == files[i].data
  {
  }

  lemma OthersKeep(s: State, a: Action)
    requires Possible(s, a) && !a.RenameNew? && NotTwice(s.files)
    ensures NotTwice(Step(s, a).files)
  {
    LiveBefore(s, a);
    hide Possible, Step;
    forall c, i: nat, j: nat | HeldBy(Step(s, a).files, i, c) && HeldBy(Step(s, a).files, j, c)
      ensures i == j
    {
      assert HeldBy(s.files, i, c) && HeldBy(s.files, j, c);
    }
  }

  // --- Over whole runs ---------------------------------------------------------------------------------

  /** Any sequence of possible steps, failed syncs included. */
  predicate CanRun(s: State, actions: seq<Action>)
    decreases |actions|
  {
    actions == [] || (Possible(s, actions[0]) && CanRun(Step(s, actions[0]), actions[1..]))
  }

  /** In all states of the run. */
  ghost predicate NeverTwice(s: State, actions: seq<Action>)
    requires CanRun(s, actions)
    decreases |actions|
  {
    NotTwice(s.files) && (actions == [] || NeverTwice(Step(s, actions[0]), actions[1..]))
  }

  /** Whenever get-log renames its file, the slot has confirmed all log files that are there. */
  predicate RenamesInOrder(s: State, actions: seq<Action>)
    requires CanRun(s, actions)
    decreases |actions|
  {
    actions == [] ||
    ((actions[0].RenameNew? ==> SlotKnowsAll(s)) && RenamesInOrder(Step(s, actions[0]), actions[1..]))
  }

  lemma {:induction false} NeverTwiceFrom(s: State, actions: seq<Action>)
    requires Sound(s) && NotTwice(s.files) && CanRun(s, actions)
    ensures NeverTwice(s, actions) <==> RenamesInOrder(s, actions)
    decreases |actions|
  {
    hide Sound, Possible, Step, NotTwice, SlotKnowsAll;
    if actions != [] {
      var a := actions[0];
      StepSound(s, a);
      if a.RenameNew? {
        RenameExactly(s);
      } else {
        OthersKeep(s, a);
      }
      if NotTwice(Step(s, a).files) {
        NeverTwiceFrom(Step(s, a), actions[1..]);
      }
    }
  }

  lemma StartIsSound(s: State)
    requires Init(s)
    ensures Inv(s) && NotTwice(s.files)
  {
  }

  /**
   Never twice: in a run of the tools in any order, with failures, kills and crashes at any step, no
   transaction is ever in two log files if and only if get-log renames only when the slot has
   confirmed all log files there are.
   */
  lemma {:induction false} NeverTwiceExactly(s: State, actions: seq<Action>)
    requires Init(s) && CanRun(s, actions)
    ensures NeverTwice(s, actions) <==> RenamesInOrder(s, actions)
  {
    StartIsSound(s);
    hide Init, Inv, NotTwice;
    NeverTwiceFrom(s, actions);
  }

  // --- Never twice, and never not at all ------------------------------------------------------------------

  /**
   Every transaction with inserted versions that the slot has confirmed, or that is not newer than the
   newest log file, is in exactly one log file; and no other transaction is in two.
   */
  ghost predicate Once(s: State) {
    && NotTwice(s.files)
    && forall c :: c in s.wal && c.objs != [] && (c.lsn <= s.confirmed || c.lsn <= NewestLive(s.files)) ==>
                     exists i: nat :: HeldBy(s.files, i, c)
  }

  lemma InSomeFile(s: State, c: Commit) returns (i: nat)
    requires Inv(s) && c in s.wal && c.objs != [] && (c.lsn <= s.confirmed || c.lsn <= NewestLive(s.files))
    ensures HeldBy(s.files, i, c)
  {
    NewestLiveIsNewest(s.files);
    hide GetLogOk, CatchupOk, Exclusive, Increasing, NewestLive, FileOk;
    if c.lsn <= s.confirmed {
      assert Held(s.files, c);
      i :| i < |s.files| && HeldIn(s.files[i], c);
    } else {
      i :| i < |s.files| && s.files[i].seen.Live() && s.files[i].Lsn() == NewestLive(s.files);
      FileCovers(s, i, c);
    }
  }

  lemma OnceIsNotTwice(s: State)
    requires Inv(s)
    ensures Once(s) <==> NotTwice(s.files)
  {
    forall c | c in s.wal && c.objs != [] && (c.lsn <= s.confirmed || c.lsn <= NewestLive(s.files))
      ensures exists i: nat :: HeldBy(s.files, i, c)
    {
      var i := InSomeFile(s, c);
    }
    hide Inv, NotTwice, NewestLive, HeldBy;
  }

  ghost predicate AlwaysOnce(s: State, actions: seq<Action>)
    requires IsRun(s, actions)
    decreases |actions|
  {
    Once(s) && (actions == [] || AlwaysOnce(Step(s, actions[0]), actions[1..]))
  }

  lemma {:induction false} RunIsPossible(s: State, actions: seq<Action>)
    requires IsRun(s, actions)
    ensures CanRun(s, actions)
    decreases |actions|
  {
    hide Step;
    if actions != [] {
      RunIsPossible(Step(s, actions[0]), actions[1..]);
    }
  }

  lemma {:induction false} AlwaysOnceFrom(s: State, actions: seq<Action>)
    requires Inv(s) && IsRun(s, actions) && CanRun(s, actions)
    ensures AlwaysOnce(s, actions) <==> NeverTwice(s, actions)
    decreases |actions|
  {
    hide Inv, Possible, Enabled, Step, NotTwice, Once;
    OnceIsNotTwice(s);
    if actions != [] {
      StepKeeps(s, actions[0]);
      AlwaysOnceFrom(Step(s, actions[0]), actions[1..]);
    }
  }

  /**
   Exactly once: in a run of the tools in any order, in which catchup confirms no file that a failed
   sync left behind, every transaction is logged once all along if and only if get-log renames only when
   the slot has confirmed all log files there are.
   */
  lemma {:induction false} AlwaysOnceExactly(s: State, actions: seq<Action>)
    requires Init(s) && IsRun(s, actions)
    ensures CanRun(s, actions)
    ensures AlwaysOnce(s, actions) <==> RenamesInOrder(s, actions)
  {
    RunIsPossible(s, actions);
    NeverTwiceExactly(s, actions);
    StartIsSound(s);
    hide Init, Inv;
    AlwaysOnceFrom(s, actions);
  }

  // --- The condition can be read before get-log starts ------------------------------------------------------

  /** get-log runs and has not renamed its file yet. */
  predicate BeforeRename(s: State) {
    s.getLog == GetStarted || s.getLog.GetPeeked? || s.getLog.GetWritten?
  }

  lemma GuardStays(s: State, a: Action)
    requires Sound(s) && Possible(s, a) && BeforeRename(s) && BeforeRename(Step(s, a))
    ensures SlotKnowsAll(Step(s, a)) <==> SlotKnowsAll(s)
  {
    LiveStays(s, a);
    hide Sound, Possible, Step;
    SameNewest(s.files, Step(s, a).files);
  }

  lemma LiveStays(s: State, a: Action)
    requires Sound(s) && Possible(s, a) && BeforeRename(s) && BeforeRename(Step(s, a))
    ensures Step(s, a).confirmed == s.confirmed
    ensures var files := Step(s, a).files;
            && |s.files| <= |files|
            && (forall i :: |s.files| <= i < |files| ==> !files[i].seen.Live())
            && forall i :: 0 <= i < |s.files| ==>
                             files[i].data == s.files[i].data && (files[i].seen.Live() <==> s.files[i].seen.Live())
  {
    hide FileOk, Increasing;
  }

  lemma {:induction false} SameNewest(files: seq<LogFile>, files': seq<LogFile>)
    requires |files| <= |files'| && forall i :: |files| <= i < |files'| ==> !files'[i].seen.Live()
    requires forall i :: 0 <= i < |files| ==>
                           files'[i].data == files[i].data && (files'[i].seen.Live() <==> files[i].seen.Live())
    ensures NewestLive(files') == NewestLive(files)
    decreases |files'|
  {
    if files' != [] {
      var n := |files'| - 1;
      SameNewest(if n < |files| then files[..n] else files, files'[..n]);
    }
  }

  /** Up to the end of the sequence get-log runs and does not rename. */
  predicate Preparing(s: State, actions: seq<Action>)
    requires CanRun(s, actions)
    decreases |actions|
  {
    BeforeRename(s) && (actions == [] || Preparing(Step(s, actions[0]), actions[1..]))
  }

  function Reached(s: State, actions: seq<Action>): State
    requires CanRun(s, actions)
    decreases |actions|
  {
    if actions == [] then s else Reached(Step(s, actions[0]), actions[1..])
  }

  /** Until the rename: the slot knows all log files if and only if it did when get-log started. */
  lemma {:induction false} GuardFromStart(s: State, actions: seq<Action>)
    requires Sound(s) && Possible(s, GetStart)
    requires CanRun(Step(s, GetStart), actions) && Preparing(Step(s, GetStart), actions)
    ensures SlotKnowsAll(Reached(Step(s, GetStart), actions)) <==> SlotKnowsAll(s)
  {
    StepSound(s, GetStart);
    hide Sound;
    GuardAlong(Step(s, GetStart), actions);
  }

  lemma {:induction false} GuardAlong(s: State, actions: seq<Action>)
    requires Sound(s) && CanRun(s, actions) && Preparing(s, actions)
    ensures SlotKnowsAll(Reached(s, actions)) <==> SlotKnowsAll(s)
    decreases |actions|
  {
    hide Sound, Possible, Step, BeforeRename, SlotKnowsAll;
    if actions != [] {
      StepSound(s, actions[0]);
      GuardStays(s, actions[0]);
      GuardAlong(Step(s, actions[0]), actions[1..]);
    }
  }
}
