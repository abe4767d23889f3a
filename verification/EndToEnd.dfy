/**
 Putting the parts together: the step machines talk about transactions and object versions, the tools
 about texts, file names, work lists and tables. Here the two views meet.
 */
module EndToEnd {
  import opened Wrappers
  import opened Text
  import opened Numbers
  import opened Lsn
  import opened Timestamps
  import opened OsmObjects
  import opened LogDir
  import opened MergeJoin
  import opened CreateDiff
  import Sorting
  import Draining
  import LogNames
  import Plugin
  import GetLog
  import RoundTrip
  import Pipeline
  import Cycle
  import ExactlyOnce

  // --- The log file that get-log writes is the one of the step machine -----------------------------------

  /** Transactions that touch object tables: the others leave no row at all. */
  predicate AllTouch(ts: seq<RoundTrip.Transaction>) {
    forall i :: 0 <= i < |ts| ==> Plugin.TouchesObjects(RoundTrip.Changes(ts[i].changes))
  }

  /** What the step machines keep of transactions: the end LSN and the inserted object versions. */
  function Commits(ts: seq<RoundTrip.Transaction>): (commits: seq<Commit>)
    ensures |commits| == |ts|
    ensures forall i :: 0 <= i < |ts| ==> commits[i] == Commit(ts[i].end, RoundTrip.InsertedBy(ts[i].changes))
  {
    seq(|ts|, i requires 0 <= i < |ts| => Commit(ts[i].end, RoundTrip.InsertedBy(ts[i].changes)))
  }

  lemma {:induction false} ObjectsOfCommits(ts: seq<RoundTrip.Transaction>)
    ensures Pipeline.ObjectsIn(Commits(ts)) == RoundTrip.InsertedByAll(ts)
  {
    hide RoundTrip.InsertedBy;
    if ts != [] {
      ObjectsOfCommits(ts[1..]);
      assert Commits(ts)[1..] == Commits(ts[1..]);
    }
  }

  lemma {:induction false} SomeObject(commits: seq<Commit>)
    ensures Pipeline.ObjectsIn(commits) != [] <==> HasActualData(commits)
  {
    if commits != [] {
      SomeObject(commits[1..]);
      if HasActualData(commits[1..]) {
        var i :| 0 <= i < |commits[1..]| && commits[1..][i].objs != [];
        assert commits[i + 1].objs != [];
      }
      if HasActualData(commits) && commits[0].objs == [] {
        var i :| 0 <= i < |commits| && commits[i].objs != [];
        assert commits[1..][i - 1].objs != [];
      }
    }
  }

  lemma LastEndIsLast(ts: seq<RoundTrip.Transaction>)
    requires AllTouch(ts) && ts != []
    ensures RoundTrip.LastEnd(ts) == LastLsn(Commits(ts))
  {
  }

  lemma {:induction false} TouchingLeavesRows(ts: seq<RoundTrip.Transaction>)
    requires AllTouch(ts) && ts != []
    ensures RoundTrip.AllRows(ts) != []
  {
    hide Plugin.TouchesObjects, RoundTrip.ChangeRows;
    assert Plugin.TouchesObjects(RoundTrip.Changes(ts[0].changes));
    assert RoundTrip.TxnRows(ts[0]) != [];
  }

  /**
   get-log on any whole transactions: it writes a file exactly when the step machine does, the file
   is read as the object versions that the machine stores, and its name carries the machine's LSN.
   */
  lemma {:induction false} GetLogIsWriteNew(ts: seq<RoundTrip.Transaction>, realState: bool, lsn: string, now: string)
    requires AllTouch(ts) && ts != [] && IsIso(now) && GetLog.IsLastCommitLsn(RoundTrip.AllRows(ts), lsn)
    ensures var rows, commits := RoundTrip.AllRows(ts), Commits(ts);
            && (GetLog.HasNewRow(rows) <==> HasActualData(commits))
            && ParseLog(Lines(Unlines(GetLog.RowLines(rows, realState)))) == Success(Pipeline.ObjectsIn(commits))
            && LogNames.LogLsn(LogNames.CreateReplicationLogName(LogNames.LSN_PREFIX + Dashed(lsn), now))
               == Success(LastLsn(commits))
            && ParseLsn(lsn) == Success(LastLsn(commits))
  {
    hide RoundTrip.AllRows, RoundTrip.LastEnd, ParseLog, Lines, Unlines, ParseLsn, Dashed, LogNames.LogLsn,
         GetLog.IsLastCommitLsn, GetLog.HasNewRow, Pipeline.ObjectsIn, RoundTrip.InsertedByAll, LastLsn, AllTouch;
    TouchingLeavesRows(ts);
    RoundTrip.ActualDataExactly(ts);
    ObjectsOfCommits(ts);
    SomeObject(Commits(ts));
    RoundTrip.LogRoundTrip(ts, realState);
    RoundTrip.FileNamedAfterLastTransaction(ts, lsn, now);
    LastEndIsLast(ts);
  }

  /** What the step machine confirms when get-log, having seen these transactions, advances the slot. */
  function ConfirmedBy(s: LogDir.State, commits: seq<Commit>): nat
    requires s.getLog == GetLogged(LastLsn(commits))
  {
    LogDir.Step(s, AdvanceOwn).confirmed
  }

  /**
   A run of get-log on whole transactions has exactly the effects of the machine's steps: the file, if
   there is a new object version, and then, with `--catchup`, the slot advanced to the LSN that the
   machine confirms. Only writing the file can fail.
   */
  method GetLogRun(
      ts: seq<RoundTrip.Transaction>, options: GetLog.Options, now: string, writeOk: bool, ghost s: LogDir.State)
    returns (effects: seq<GetLog.Effect>, error: Option<GetLog.GetLogError>)
    requires AllTouch(ts) && ts != [] && IsIso(now) && s.getLog == GetLogged(LastLsn(Commits(ts)))
    ensures error == if HasActualData(Commits(ts)) && !writeOk then Some(GetLog.WriteError) else None
    ensures |effects| == (if HasActualData(Commits(ts)) && writeOk then 1 else 0)
                         + (if options.catchup && error == None then 1 else 0)
    ensures HasActualData(Commits(ts)) && writeOk ==>
              && effects[0].WriteFile?
              && ParseLog(Lines(effects[0].data)) == Success(Pipeline.ObjectsIn(Commits(ts)))
              && LogNames.LogLsn(effects[0].name) == Success(LastLsn(Commits(ts)))
    ensures options.catchup && error == None ==>
              && effects[|effects| - 1].AdvanceSlot?
              && ParseLsn(effects[|effects| - 1].lsn) == Success(ConfirmedBy(s, Commits(ts)))
  {
    hide RoundTrip.AllRows, ParseLog, Lines, Unlines, ParseLsn, Dashed, Str, LogNames.LogLsn, GetLog.IsLastCommitLsn;
    hide GetLog.HasNewRow, Pipeline.ObjectsIn, LastLsn, AllTouch, HasActualData, LogDir.Step, LogDir.Possible;
    ghost var rows := RoundTrip.AllRows(ts);
    TouchingLeavesRows(ts);
    var lsn;
    effects, lsn, error := GetLog.App(RoundTrip.AllRows(ts), options, now, writeOk);
    GetLogIsWriteNew(ts, options.realState, lsn, now);
    OwnAdvance(s, Commits(ts));
    ParseOfStr(LastLsn(Commits(ts)));
  }

  lemma OwnAdvance(s: LogDir.State, commits: seq<Commit>)
    requires s.getLog == GetLogged(LastLsn(commits))
    ensures LogDir.Possible(s, AdvanceOwn) && ConfirmedBy(s, commits) == LastLsn(commits)
  {
  }

  // --- The directory that catchup reads is the one of the step machine --------------------------------------

  /** The name of a file at its station; `now` is the clock reading when it was written. */
  function EntryName(f: LogFile, now: string): string
    requires f.Lsn() < TWO_64
  {
    var name := LogNames.CreateReplicationLogName(LogNames.LSN_PREFIX + Dashed(Str(f.Lsn())), now);
    match f.seen
    case Absent => ""
    case New => name + ".new"
    case Log => name
    case Done => name + ".done"
  }

  predicate IsEntry(files: seq<LogFile>, nows: seq<string>, i: nat, entry: string) {
    && i < |files| == |nows| && files[i].Lsn() < TWO_64 && IsIso(nows[i])
    && files[i].seen != Absent && entry == EntryName(files[i], nows[i])
  }

  /** A listing of the log directory in any order; there may be other files that are no logs. */
  ghost predicate IsListing(files: seq<LogFile>, nows: seq<string>, entries: seq<string>) {
    && (forall i: nat :: i < |files| && files[i].seen != Absent ==> exists e :: e in entries && IsEntry(files, nows, i, e))
    && (forall e :: e in entries && LogNames.IsLog(e) ==> exists i: nat :: IsEntry(files, nows, i, e))
  }

  lemma {:induction false} EntryIsLog(files: seq<LogFile>, nows: seq<string>, i: nat, entry: string)
    requires IsEntry(files, nows, i, entry)
    ensures LogNames.IsLog(entry) <==> files[i].seen == Log
    ensures files[i].seen == Log ==> LogNames.LogLsn(entry) == Success(files[i].Lsn())
  {
    hide LogNames.LogLsn, LogNames.Extension, Str, Dashed, IsIso;
    LogNames.NameRoundTrip(files[i].Lsn(), nows[i]);
    var stem := LogNames.PREFIX + nows[i] + "-" + (LogNames.LSN_PREFIX + Dashed(Str(files[i].Lsn())));
    LogNames.NewAndDoneAreIgnored(stem);
    assert stem + ".log" == LogNames.CreateReplicationLogName(LogNames.LSN_PREFIX + Dashed(Str(files[i].Lsn())), nows[i]);
  }

  /** The directory loop of catchup finds what the machine's scan finds, in whatever order the entries come. */
  lemma {:induction false} CatchupIsScan(
      files: seq<LogFile>, nows: seq<string>, entries: seq<string>, r: Result<LsnValue, LogNames.CatchupError>)
    requires IsListing(files, nows, entries) && LogNames.IsNewestLsn(entries, r)
    ensures r == Success(NewestLog(files))
  {
    hide LogNames.LogLsn, LogNames.IsLog, IsEntry, NewestLog;
    NewestLogIsNewest(files);
    forall e | e in entries && LogNames.IsLog(e)
      ensures LogNames.LogLsn(e).Success? && LogNames.LogLsn(e).value <= NewestLog(files)
    {
      var i: nat :| IsEntry(files, nows, i, e);
      EntryIsLog(files, nows, i, e);
      EntryIsFile(files, nows, i, e);
    }
    if NewestLog(files) != 0 {
      var i: nat :| i < |files| && files[i].seen == Log && files[i].Lsn() == NewestLog(files);
      var e :| e in entries && IsEntry(files, nows, i, e);
      EntryIsLog(files, nows, i, e);
    }
  }

  lemma EntryIsFile(files: seq<LogFile>, nows: seq<string>, i: nat, entry: string)
    requires IsEntry(files, nows, i, entry)
    ensures i < |files|
  {
  }

  // --- Draining in the pipeline ------------------------------------------------------------------------------

  /** Every log file has an object. */
  predicate FilesHaveObjects(files: seq<LogFile>) {
    forall i :: 0 <= i < |files| ==> HasActualData(files[i].data)
  }

  /** get-log has seen to it. */
  lemma InvHasObjects(s: Pipeline.State)
    requires Pipeline.Inv(s)
    ensures FilesHaveObjects(s.log.files)
  {
    hide HasActualData, Pipeline.NumberingOk, Pipeline.FilesOk;
    assert forall i :: 0 <= i < |s.log.files| ==> FileOk(s.log, s.log.files[i]);
  }

  lemma LastContentHasObject(files: seq<LogFile>)
    requires FilesHaveObjects(files)
    ensures Pipeline.InRange(files, Pipeline.LogList(files))
    ensures var contents := Pipeline.Contents(files, Pipeline.LogList(files));
            forall k :: 0 <= k < |contents| ==> contents[k] != []
  {
    Pipeline.LogListInRange(files);
    hide Pipeline.LogList, Pipeline.ObjectsIn;
    var list := Pipeline.LogList(files);
    forall k | 0 <= k < |list|
      ensures Pipeline.Contents(files, list)[k] != []
    {
      SomeObject(files[list[k]].data);
    }
  }

  // --- No object version is wanted twice ----------------------------------------------------------------------

  /** Ids and versions of one type. */
  function KindKeys(objs: seq<OsmObj>, kind: ItemType): multiset<Key> {
    Wanted(OfKind(objs, kind))
  }

  /** The primary keys: no object version is inserted twice. */
  ghost predicate InsertedOnce(wal: seq<Commit>) {
    forall kind :: Distinct(KindKeys(Pipeline.ObjectsIn(wal), kind))
  }

  lemma KindKeysConcat(a: seq<OsmObj>, b: seq<OsmObj>, kind: ItemType)
    ensures KindKeys(a + b, kind) == KindKeys(a, kind) + KindKeys(b, kind)
  {
    hide OfKind;
    OfKindConcat(a, b, kind);
    var x, y := OfKind(a, kind), OfKind(b, kind);
    assert WantedKeys(x + y) == WantedKeys(x) + WantedKeys(y);
  }

  lemma Regroup<T>(a: seq<T>, b: seq<T>, c: seq<T>)
    ensures a + (b + c) == a + b + c
  {
  }

  lemma {:induction false} ObjectsInConcat(a: seq<Commit>, b: seq<Commit>)
    ensures Pipeline.ObjectsIn(a + b) == Pipeline.ObjectsIn(a) + Pipeline.ObjectsIn(b)
  {
    if a == [] {
      assert a + b == b;
    } else {
      ObjectsInConcat(a[1..], b);
      assert (a + b)[0] == a[0] && (a + b)[1..] == a[1..] + b;
      Regroup(a[0].objs, Pipeline.ObjectsIn(a[1..]), Pipeline.ObjectsIn(b));
    }
  }

  /** The objects in some of the live files, each file taken at most once. */
  function ChosenObjects(files: seq<LogFile>, chosen: seq<nat>): seq<OsmObj>
    requires forall k :: 0 <= k < |chosen| ==> chosen[k] < |files|
  {
    if chosen == [] then []
    else ChosenObjects(files, chosen[..|chosen| - 1]) + Pipeline.ObjectsIn(files[chosen[|chosen| - 1]].data)
  }

  predicate IsChoice(files: seq<LogFile>, chosen: seq<nat>) {
    && (forall k :: 0 <= k < |chosen| ==> chosen[k] < |files| && files[chosen[k]].seen.Live())
    && forall k, l :: 0 <= k < l < |chosen| ==> chosen[k] < chosen[l]
  }

  lemma {:induction false} SameChoice(files: seq<LogFile>, n: nat, chosen: seq<nat>)
    requires n <= |files| && forall k :: 0 <= k < |chosen| ==> chosen[k] < n
    ensures ChosenObjects(files, chosen) == ChosenObjects(files[..n], chosen)
    decreases |chosen|
  {
    hide Pipeline.ObjectsIn;
    if chosen != [] {
      SameChoice(files, n, chosen[..|chosen| - 1]);
    }
  }

  /** What a choice of files holds is part of what is logged. */
  lemma {:induction false} ChosenIsLogged(files: seq<LogFile>, chosen: seq<nat>, kind: ItemType)
    requires IsChoice(files, chosen)
    ensures KindKeys(ChosenObjects(files, chosen), kind) <= KindKeys(Pipeline.ObjectsIn(Cycle.Logged(files)), kind)
    decreases |files|
  {
    hide KindKeys, Pipeline.ObjectsIn;
    if files == [] {
      assert chosen == [];
      NoKeys(kind);
    } else {
      var n := |files| - 1;
      var rest, last := files[..n], files[n];
      var more := if last.seen.Live() then last.data else [];
      ObjectsInConcat(Cycle.Logged(rest), more);
      KindKeysConcat(Pipeline.ObjectsIn(Cycle.Logged(rest)), Pipeline.ObjectsIn(more), kind);
      if chosen != [] && chosen[|chosen| - 1] == n {
        var before := chosen[..|chosen| - 1];
        SameChoice(files, n, before);
        ChosenIsLogged(rest, before, kind);
        KindKeysConcat(ChosenObjects(files, before), Pipeline.ObjectsIn(last.data), kind);
      } else {
        SameChoice(files, n, chosen);
        ChosenIsLogged(rest, chosen, kind);
      }
    }
  }

  lemma NoKeys(kind: ItemType)
    ensures KindKeys([], kind) == multiset{} && Pipeline.ObjectsIn([]) == []
  {
    assert WantedKeys([]) == [];
  }

  lemma LoggedIsCommitted(l: LogDir.State, kind: ItemType)
    requires Cycle.LogOk(l)
    ensures KindKeys(Pipeline.ObjectsIn(Cycle.Logged(l.files)), kind) <= KindKeys(Pipeline.ObjectsIn(l.wal), kind)
  {
    ExactlyOnce.LogOkParts(l);
    hide KindKeys, Pipeline.ObjectsIn, Cycle.Logged, Cycle.LogOk, Cycle.LoggedCount;
    var m := |Cycle.Logged(l.files)|;
    assert l.wal == l.wal[..m] + l.wal[m..];
    ObjectsInConcat(l.wal[..m], l.wal[m..]);
    KindKeysConcat(Pipeline.ObjectsIn(l.wal[..m]), Pipeline.ObjectsIn(l.wal[m..]), kind);
  }

  /** Some part of distinct keys is distinct. */
  lemma DistinctPart(a: multiset<Key>, b: multiset<Key>)
    requires a <= b && Distinct(b)
    ensures Distinct(a)
  {
  }

  lemma WantedWithout(objs: seq<OsmObj>, i: nat)
    requires i < |objs|
    ensures Wanted(objs) == Wanted(objs[..i] + objs[i + 1..]) + multiset{Key(objs[i].id, objs[i].version)}
  {
    Sorting.RemoveOne(WantedKeys(objs), i);
    assert WantedKeys(objs[..i] + objs[i + 1..]) == WantedKeys(objs)[..i] + WantedKeys(objs)[i + 1..];
  }

  lemma {:induction false} WantedPermutation(a: seq<OsmObj>, b: seq<OsmObj>)
    requires multiset(a) == multiset(b)
    ensures Wanted(a) == Wanted(b)
    decreases |a|
  {
    hide Wanted;
    if a == [] {
      assert |b| == |multiset(b)| == 0;
    } else {
      assert a[0] in multiset(b);
      var i :| 0 <= i < |b| && b[i] == a[0];
      var restA, restB := a[..0] + a[1..], b[..i] + b[i + 1..];
      Sorting.RemoveOne(a, 0);
      Sorting.RemoveOne(b, i);
      Sorting.Cancel(multiset(restA), multiset(restB), a[0]);
      WantedPermutation(restA, restB);
      WantedWithout(a, 0);
      WantedWithout(b, i);
    }
  }

  lemma {:induction false} ChosenAreContents(files: seq<LogFile>, chosen: seq<nat>)
    requires Pipeline.InRange(files, chosen)
    ensures forall k :: 0 <= k < |chosen| ==> chosen[k] < |files|
    ensures ChosenObjects(files, chosen) == Draining.Flat(Pipeline.Contents(files, chosen))
    decreases |chosen|
  {
    hide Pipeline.ObjectsIn;
    if chosen != [] {
      var n := |chosen| - 1;
      ChosenAreContents(files, chosen[..n]);
      var contents := Pipeline.Contents(files, chosen);
      assert contents[..n] == Pipeline.Contents(files, chosen[..n]);
      FlatSnoc(contents, n);
      assert contents[..n + 1] == contents;
    }
  }

  /** What create-diff reads in a run with this limit. */
  function ReadObjects(files: seq<LogFile>, limit: nat): seq<OsmObj> {
    ChosenInRange(files, limit);
    Draining.Flat(Pipeline.Contents(files, Pipeline.Selected(files, limit)))
  }

  lemma ChosenInRange(files: seq<LogFile>, limit: nat)
    ensures Pipeline.InRange(files, Pipeline.Selected(files, limit))
    ensures IsChoice(files, Pipeline.Selected(files, limit))
  {
    hide Pipeline.Selected;
    Pipeline.SelectedOk(files, limit);
  }

  lemma ReadIsCommitted(l: LogDir.State, limit: nat, kind: ItemType)
    requires Cycle.LogOk(l)
    ensures KindKeys(ReadObjects(l.files, limit), kind) <= KindKeys(Pipeline.ObjectsIn(l.wal), kind)
  {
    hide Cycle.LogOk, Pipeline.Selected, Pipeline.ObjectsIn, Pipeline.Contents, Draining.Flat, KindKeys;
    var chosen := Pipeline.Selected(l.files, limit);
    ChosenInRange(l.files, limit);
    ChosenAreContents(l.files, chosen);
    ChosenIsLogged(l.files, chosen, kind);
    LoggedIsCommitted(l, kind);
  }

  lemma RunLogOk(c: Cycle.CycleState, actions: seq<Cycle.CycleAction>)
    requires Cycle.Init(c) && ExactlyOnce.IsRun(c, actions)
    ensures Cycle.LogOk(ExactlyOnce.Run(c, actions).p.log)
  {
    Cycle.InitInv(c);
    ExactlyOnce.RunKeeps(c, actions);
    hide Pipeline.Inv, Cycle.LogOk, Cycle.ToolsOk, Cycle.PhaseOk, Cycle.PublishedOk;
  }

  /**
   Exactly once, as create-diff needs it: in every reachable state of the cycle, whatever the limit,
   no id and version is wanted twice, because no object version is inserted twice.
   */
  lemma {:induction false} WorkListsDistinct(
      c: Cycle.CycleState, actions: seq<Cycle.CycleAction>, limit: nat, kind: ItemType, work: seq<OsmObj>)
    requires Cycle.Init(c) && ExactlyOnce.IsRun(c, actions)
    requires InsertedOnce(ExactlyOnce.Run(c, actions).p.log.wal)
    requires Sorting.IsSortOf(work, OfKind(ReadObjects(ExactlyOnce.Run(c, actions).p.log.files, limit), kind), KeyOf)
    ensures Distinct(Wanted(work))
  {
    RunLogOk(c, actions);
    hide ExactlyOnce.IsRun, ExactlyOnce.Run, Cycle.Init, Cycle.LogOk, ReadObjects, Distinct, Pipeline.ObjectsIn,
         OfKind, Wanted;
    var l := ExactlyOnce.Run(c, actions).p.log;
    ReadIsCommitted(l, limit, kind);
    WantedPermutation(work, OfKind(ReadObjects(l.files, limit), kind));
    DistinctPart(KindKeys(ReadObjects(l.files, limit), kind), KindKeys(Pipeline.ObjectsIn(l.wal), kind));
  }

  // --- Every changeset is in the cache ----------------------------------------------------------------------------

  /** The changeset named in the log is the one in the row. */
  ghost predicate ChangesetsAgree(rows: seq<Row>, objs: seq<OsmObj>) {
    forall i, o :: 0 <= i < |rows| && o in objs && rows[i].key == Key(o.id, o.version) ==> rows[i].cid == o.cid
  }

  lemma KeyIsWanted(objs: seq<OsmObj>, key: Key) returns (o: OsmObj)
    requires key in Wanted(objs)
    ensures o in objs && Key(o.id, o.version) == key
  {
    var i :| 0 <= i < |WantedKeys(objs)| && WantedKeys(objs)[i] == key;
    o := objs[i];
  }

  /** `cucache.at` cannot throw: reading the logs has entered the changeset of every row found. */
  lemma {:induction false} UsersFound(rows: seq<Row>, objs: seq<OsmObj>, kind: ItemType, users: map<nat, UserInfo>)
    requires ChangesetsAgree(rows, OfKind(objs, kind)) && users.Keys == WithChangesets(map[], objs).Keys
    ensures UsersKnown(Found(rows, OfKind(objs, kind)), users)
  {
    hide OfKind, WithChangesets, Fetch, Wanted;
    ChangesetsKnown(map[], objs);
    var found := Found(rows, OfKind(objs, kind));
    forall i | 0 <= i < |found|
      ensures found[i].cid in users
    {
      FetchExactly(rows, RowKey, Wanted(OfKind(objs, kind)), found[i]);
      var o := KeyIsWanted(OfKind(objs, kind), found[i].key);
      InKind(objs, kind, o);
      var k :| 0 <= k < |rows| && rows[k] == found[i];
      assert o.cid in set x | x in objs :: x.cid;
    }
  }

  // --- The diff ---------------------------------------------------------------------------------------------------

  /** The loop over the log texts reads what the step machine chooses. */
  lemma ReadLogsIsChoose(logs: seq<LogText>, files: seq<LogFile>, limit: nat)
    requires Pipeline.InRange(files, Pipeline.LogList(files))
    requires CreateDiff.Contents(logs) == Pipeline.Contents(files, Pipeline.LogList(files))
    ensures Draining.Flat(CreateDiff.Contents(logs)[..Draining.Taken(CreateDiff.Contents(logs), limit)]) == ReadObjects(files, limit)
  {
    hide Pipeline.LogList, Pipeline.ObjectsIn, Draining.Taken, Draining.Flat;
    var contents := CreateDiff.Contents(logs);
    var list := Pipeline.LogList(files);
    var batch := Draining.Batch(contents, limit);
    ChosenInRange(files, limit);
    assert Pipeline.Contents(files, list[..|batch|]) == contents[..|batch|];
    FlatOfNothing();
  }

  lemma FlatOfNothing()
    ensures Draining.Flat([]) == []
  {
  }

  /**
   The objects of one type in the diff, for every reachable state of the cycle and every limit: with the
   database's primary and foreign keys, the object versions named in the logs that were read, which are
   not redacted, in the order of their keys, each with exactly its own children in the tables; if and
   only if no wanted redacted version with children has a wanted version with such children behind it.
   */
  lemma {:induction false} DiffHoldsEachVersionWithItsChildren(
      c: Cycle.CycleState, actions: seq<Cycle.CycleAction>, limit: nat, kind: ItemType, work: seq<OsmObj>,
      rows: seq<Row>, tags: seq<Child<Tag>>, refs: seq<Child<Ref>>, users: map<nat, UserInfo>)
    requires Cycle.Init(c) && ExactlyOnce.IsRun(c, actions)
    requires InsertedOnce(ExactlyOnce.Run(c, actions).p.log.wal)
    requires var objs := ReadObjects(ExactlyOnce.Run(c, actions).p.log.files, limit);
             && Sorting.IsSortOf(work, OfKind(objs, kind), KeyOf)
             && ChangesetsAgree(rows, OfKind(objs, kind)) && users.Keys == WithChangesets(map[], objs).Keys
    requires RowsStrictlySorted(rows) && TableOk(rows, tags) && TableOk(rows, refs)
    ensures var found := Found(rows, work);
            && UsersKnown(found, users)
            && RowsStrictlySorted(found)
            && (forall row :: row in found <==> row in rows && row.key in Wanted(work))
            && (Emitted(found, users, Fetch(tags, ChildKey, Wanted(work)), Fetch(refs, ChildKey, Wanted(work)), |found|)
                == NestedLoop(found, users, tags, refs)
                <==> NoneBlocked(rows, tags, Wanted(work)) && NoneBlocked(rows, refs, Wanted(work)))
  {
    WorkListsDistinct(c, actions, limit, kind, work);
    hide ExactlyOnce.IsRun, ExactlyOnce.Run, Cycle.Init, ReadObjects, OfKind, Distinct, InsertedOnce, NoneBlocked,
         TableOk, Fetch, WithChangesets, Wanted, Emitted, NestedLoop;
    var objs := ReadObjects(ExactlyOnce.Run(c, actions).p.log.files, limit);
    UsersFound(rows, objs, kind, users);
    WantedPermutation(work, OfKind(objs, kind));
    WrittenExactly(rows, users, tags, refs, Wanted(work));
    forall row
      ensures row in Found(rows, work) <==> row in rows && row.key in Wanted(work)
    {
      FetchExactly(rows, RowKey, Wanted(work), row);
    }
  }

  /**
   The whole change file, for every reachable state of the cycle and every limit: with the keys of the
   database every changeset is found, and the file holds every wanted version that is not redacted with
   all its children if and only if no such version is blocked by a redacted one.
   */
  lemma {:induction false} DiffIsComplete(
      c: Cycle.CycleState, actions: seq<Cycle.CycleAction>, limit: nat, db: Database, users: map<nat, UserInfo>,
      nodes: seq<OsmObj>, ways: seq<OsmObj>, relations: seq<OsmObj>)
    requires Cycle.Init(c) && ExactlyOnce.IsRun(c, actions)
    requires InsertedOnce(ExactlyOnce.Run(c, actions).p.log.wal)
    requires var objs := ReadObjects(ExactlyOnce.Run(c, actions).p.log.files, limit);
             && Sorting.IsSortOf(nodes, OfKind(objs, Node), KeyOf) && Sorting.IsSortOf(ways, OfKind(objs, Way), KeyOf)
             && Sorting.IsSortOf(relations, OfKind(objs, Relation), KeyOf)
             && ChangesetsAgree(db.nodes, OfKind(objs, Node)) && ChangesetsAgree(db.ways, OfKind(objs, Way))
             && ChangesetsAgree(db.relations, OfKind(objs, Relation))
             && users.Keys == WithChangesets(map[], objs).Keys
    requires KeysHold(db)
    ensures AllUsersKnown(db, users, nodes, ways, relations)
    ensures WrittenChange(db, users, nodes, ways, relations) == CompleteChange(db, users, nodes, ways, relations)
            <==> NothingBlocked(db, nodes, ways, relations)
  {
    hide ExactlyOnce.IsRun, ExactlyOnce.Run, Cycle.Init, ReadObjects, OfKind, Distinct, InsertedOnce, NothingBlocked,
         KeysHold, Fetch, WithChangesets, Wanted, WrittenChange, CompleteChange, ChangesetsAgree, UsersKnown;
    var objs := ReadObjects(ExactlyOnce.Run(c, actions).p.log.files, limit);
    WorkListsDistinct(c, actions, limit, Node, nodes);
    WorkListsDistinct(c, actions, limit, Way, ways);
    WorkListsDistinct(c, actions, limit, Relation, relations);
    UsersFoundFor(db.nodes, objs, Node, nodes, users);
    UsersFoundFor(db.ways, objs, Way, ways, users);
    UsersFoundFor(db.relations, objs, Relation, relations, users);
    WrittenIsComplete(db, users, nodes, ways, relations);
  }

  lemma {:induction false} UsersFoundFor(
      rows: seq<Row>, objs: seq<OsmObj>, kind: ItemType, work: seq<OsmObj>, users: map<nat, UserInfo>)
    requires Sorting.IsSortOf(work, OfKind(objs, kind), KeyOf)
    requires ChangesetsAgree(rows, OfKind(objs, kind)) && users.Keys == WithChangesets(map[], objs).Keys
    ensures UsersKnown(Found(rows, work), users)
  {
    hide OfKind, WithChangesets, Fetch, Wanted, ChangesetsAgree, UsersKnown;
    UsersFound(rows, objs, kind, users);
    WantedPermutation(work, OfKind(objs, kind));
  }
}
