/**
 Repeated runs of osmdbt-create-diff with a limit, one after the other: they publish the log files in
 order under consecutive numbers, and use up all of them unless one cannot read `state.txt`.
 */
module RepeatedRuns {
  import opened Wrappers
  import opened Timestamps
  import LogDir
  import SequencePath
  import StateFile
  import Draining
  import opened Pipeline
  import opened Publish
  import EndToEnd

  function Flatten(lists: seq<seq<nat>>): seq<nat> {
    if lists == [] then [] else Flatten(lists[..|lists| - 1]) + lists[|lists| - 1]
  }

  lemma FlattenSnoc(lists: seq<seq<nat>>, last: seq<nat>)
    ensures Flatten(lists + [last]) == Flatten(lists) + last
  {
    assert (lists + [last])[..|lists|] == lists;
  }

  /** Marking a first part of the `.log` files leaves the others, in order. */
  lemma {:induction false} LogListAfterMarking(before: seq<LogDir.LogFile>, after: seq<LogDir.LogFile>, count: nat)
    requires count <= |LogList(before)| && Marked(before, after, LogList(before)[..count])
    ensures LogList(after) == LogList(before)[count..]
    decreases |before|
  {
    if before != [] {
      var n := |before| - 1;
      LogListInRange(before[..n]);
      var list := LogList(before[..n]);
      var rest := if count <= |list| then count else |list|;
      assert LogList(before)[..rest] == list[..rest];
      assert count > rest ==> LogList(before)[..count] == list[..rest] + [n];
      forall i: nat | i < n
        ensures i in LogList(before)[..count] <==> i in list[..rest]
      {
      }
      LogListAfterMarking(before[..n], after[..n], rest);
      assert n in LogList(before)[..count] <==> count > rest;
    }
  }

  lemma ObjectsKept(before: seq<LogDir.LogFile>, after: seq<LogDir.LogFile>, chosen: seq<nat>)
    requires Marked(before, after, chosen) && EndToEnd.FilesHaveObjects(before)
    ensures EndToEnd.FilesHaveObjects(after)
  {
    hide LogDir.HasActualData;
    assert forall i: nat :: i < |before| ==> after[i].data == before[i].data;
  }

  /** As long as there is a `.log` file, a run chooses some. */
  lemma SomethingSelected(files: seq<LogDir.LogFile>, limit: nat)
    requires EndToEnd.FilesHaveObjects(files)
    ensures LogList(files) != [] <==> Selected(files, limit) != []
    ensures Selected(files, limit) <= LogList(files)
  {
    EndToEnd.LastContentHasObject(files);
    hide LogList, ObjectsIn;
    if LogList(files) != [] {
      Draining.Progress(Contents(files, LogList(files)), limit);
    }
  }

  /** Nothing is lost: the files have what they had, and those that were log files still are. */
  ghost predicate FilesStay(before: seq<LogDir.LogFile>, after: seq<LogDir.LogFile>) {
    && |after| == |before|
    && forall i :: 0 <= i < |before| ==>
                     after[i].data == before[i].data && (before[i].seen.Live() ==> after[i].seen.Live())
  }

  lemma MarkedStay(before: seq<LogDir.LogFile>, after: seq<LogDir.LogFile>, chosen: seq<nat>)
    requires Marked(before, after, chosen)
    ensures FilesStay(before, after)
  {
    assert forall i: nat :: i < |before| ==> after[i].data == before[i].data;
  }

  /** Nothing but the contents of `state.txt` can keep a run from publishing. */
  predicate Ready(s: State, runs: nat) {
    && s.diff == NO_DIFF && !s.diffPid && !s.lock && s.tmp.state == None && s.tmp.copy == None
    && s.seen.top.Some? && s.seen.top.value.sequenceNumber + runs <= SequencePath.MAX_SEQUENCE
  }

  /**
   One run: the first of the `.log` files go into the next diff, or there is none; or `state.txt`
   cannot be read, and everything stays.
   */
  method OneRun(m: Machine, limit: nat, timestamp: Timestamp, ghost runs: nat) returns (chosen: seq<nat>, ok: bool)
    requires m.Valid() && runs > 0 && Ready(m.s, runs) && EndToEnd.FilesHaveObjects(m.s.log.files)
    modifies m
    ensures m.Valid() && Ready(m.s, runs - 1) && EndToEnd.FilesHaveObjects(m.s.log.files)
    ensures m.documented == old(m.documented)
    ensures ok <==> old(LogList(m.s.log.files)) == [] || Readable(old(m.s.seen.top))
    ensures old(LogList(m.s.log.files)) == chosen + LogList(m.s.log.files)
    ensures chosen == [] <==> old(LogList(m.s.log.files)) == [] || !ok
    ensures m.s.log == old(m.s.log).(files := m.s.log.files) && FilesStay(old(m.s.log.files), m.s.log.files)
    ensures var number := old(m.s.seen.top.value.sequenceNumber);
            if chosen == [] then m.s.seen == old(m.s.seen) && m.s.log == old(m.s.log)
            else m.s.seen.top.value == StateFile.State(number + 1, timestamp)
                 && m.s.seen.osc == old(m.s.seen.osc)[number + 1 := chosen]
  {
    hide IsRun, Run, Leads, Marked, Step, Enabled, Possible, Selected, LogList, EndToEnd.FilesHaveObjects;
    var files := m.s.log.files;
    chosen := Selected(files, limit);
    SomethingSelected(files, limit);
    var outcome := App(m, Options(limit, 0, false), timestamp);
    ok := outcome != StateFileUnreadable;
    if outcome == Complete {
      assert LogList(files)[..|chosen|] == chosen;
      LogListAfterMarking(files, m.s.log.files, |chosen|);
      ObjectsKept(files, m.s.log.files, chosen);
      MarkedStay(files, m.s.log.files, chosen);
    } else {
      chosen := [];
    }
  }

  /** The diffs with consecutive numbers are made from these lists of log files. */
  predicate NumberedFrom(osc: map<nat, seq<nat>>, first: nat, lists: seq<seq<nat>>) {
    forall k: nat :: k < |lists| ==> IsDiff(osc, first + k, lists[k])
  }

  predicate IsDiff(osc: map<nat, seq<nat>>, n: nat, list: seq<nat>) {
    n in osc && osc[n] == list
  }

  lemma NextNumbered(osc: map<nat, seq<nat>>, first: nat, lists: seq<seq<nat>>, last: seq<nat>)
    requires NumberedFrom(osc, first, lists)
    ensures NumberedFrom(osc[first + |lists| := last], first, lists + [last])
  {
    var osc', lists' := osc[first + |lists| := last], lists + [last];
    forall k: nat | k < |lists'|
      ensures IsDiff(osc', first + k, lists'[k])
    {
      if k < |lists| {
        assert IsDiff(osc, first + k, lists[k]);
      }
    }
  }

  /**
   Runs one after the other until one cannot read `state.txt`: the diffs published, under consecutive
   numbers, are the list of `.log` files cut into pieces. As many runs as there are `.log` files leave
   none if and only if they are not stopped, and only an epoch as the time stamp of a diff that is not
   the last one can stop them.
   */
  method Drain(m: Machine, limits: seq<nat>, timestamps: seq<Timestamp>)
    returns (published: seq<seq<nat>>, stopped: bool)
    requires m.Valid() && Ready(m.s, |limits|) && Readable(m.s.seen.top) && EndToEnd.FilesHaveObjects(m.s.log.files)
    requires |timestamps| == |limits|
    modifies m
    ensures m.Valid() && m.documented == old(m.documented) && m.s.diff == NO_DIFF && !m.s.lock
    ensures m.s.log == old(m.s.log).(files := m.s.log.files) && FilesStay(old(m.s.log.files), m.s.log.files)
    ensures old(LogList(m.s.log.files)) == Flatten(published) + LogList(m.s.log.files)
    ensures |limits| >= |old(LogList(m.s.log.files))| ==> (stopped <==> LogList(m.s.log.files) != [])
    ensures stopped ==> !Readable(m.s.seen.top)
    ensures (forall i :: 0 <= i < |timestamps| - 1 ==> timestamps[i] != EPOCH) ==> !stopped
    ensures m.s.seen.top.Some?
    ensures m.s.seen.top.value.sequenceNumber == old(m.s.seen.top.value.sequenceNumber) + |published|
    ensures NumberedFrom(m.s.seen.osc, old(m.s.seen.top.value.sequenceNumber) + 1, published)
  {
    hide LogList, EndToEnd.FilesHaveObjects, Leads, IsRun, Run, Flatten, NumberedFrom;
    ghost var list := LogList(m.s.log.files);
    ghost var number := m.s.seen.top.value.sequenceNumber;
    published, stopped := [], false;
    NothingFlattened();
    for i := 0 to |limits|
      invariant m.Valid() && m.documented == old(m.documented)
      invariant Ready(m.s, |limits| - i) && EndToEnd.FilesHaveObjects(m.s.log.files)
      invariant m.s.log == old(m.s.log).(files := m.s.log.files) && FilesStay(old(m.s.log.files), m.s.log.files)
      invariant !stopped && (Readable(m.s.seen.top) || exists k :: 0 <= k < i && timestamps[k] == EPOCH)
      invariant list == Flatten(published) + LogList(m.s.log.files)
      invariant LogList(m.s.log.files) == [] || i + |LogList(m.s.log.files)| <= |list|
      invariant m.s.seen.top.value.sequenceNumber == number + |published|
      invariant NumberedFrom(m.s.seen.osc, number + 1, published)
    {
      ghost var osc := m.s.seen.osc;
      var chosen, ok := OneRun(m, limits[i], timestamps[i], |limits| - i);
      if !ok {
        return published, true;
      }
      if chosen != [] {
        FlattenSnoc(published, chosen);
        NextNumbered(osc, number + 1, published, chosen);
        published := published + [chosen];
      }
    }
    assert LogList(m.s.log.files) == [] ==> Flatten(published) + [] == Flatten(published);
  }

  /** The same from any reachable state, where get-log has seen to it that every log file has an object. */
  method DrainReachable(
      m: Machine, limits: seq<nat>, timestamps: seq<Timestamp>, ghost first: State, ghost before: seq<Action>)
    returns (published: seq<seq<nat>>, stopped: bool)
    requires Pipeline.Init(first) && IsRun(first, before) && m.s == Run(first, before) && m.Valid()
    requires Ready(m.s, |limits|) && Readable(m.s.seen.top) && |limits| >= |LogList(m.s.log.files)|
    requires |timestamps| == |limits|
    modifies m
    ensures m.Valid() && (stopped <==> LogList(m.s.log.files) != [])
    ensures !stopped ==> Flatten(published) == old(LogList(m.s.log.files))
    ensures stopped ==> !Readable(m.s.seen.top)
    ensures (forall i :: 0 <= i < |timestamps| - 1 ==> timestamps[i] != EPOCH) ==> !stopped
    ensures NumberedFrom(m.s.seen.osc, old(m.s.seen.top.value.sequenceNumber) + 1, published)
  {
    hide LogList, EndToEnd.FilesHaveObjects, Leads, IsRun, Run, Flatten, NumberedFrom, Pipeline.Init, Inv;
    InitInv(first);
    RunKeeps(first, before);
    EndToEnd.InvHasObjects(m.s);
    published, stopped := Drain(m, limits, timestamps);
    assert !stopped ==> Flatten(published) + [] == Flatten(published);
  }

  lemma NothingFlattened()
    ensures Flatten([]) == []
    ensures forall osc: map<nat, seq<nat>>, first: nat :: NumberedFrom(osc, first, [])
  {
  }
}
