/**
 The loops of osmdbt-create-diff that put tags, way nodes and members onto objects by walking sorted
 lists side by side (src/osmdbt-create-diff.cpp), what they are meant to compute, and exactly what
 they compute when redacted rows own children or rows come twice.
 */
module MergeJoin {
  import opened Wrappers
  import opened Timestamps
  import opened OsmObjects

  /** What queries order by and children refer to: the id and version of an object. */
  datatype Key = Key(id: int, version: nat)

  predicate KeyLess(a: Key, b: Key) {
    a.id < b.id || (a.id == b.id && a.version < b.version)
  }

  predicate KeyUpTo(a: Key, b: Key) {
    KeyLess(a, b) || a == b
  }

  /** Keys are in order of id, then version; of two different keys one is less. */
  lemma KeyOrder(a: Key, b: Key, c: Key)
    ensures a.id < b.id ==> KeyLess(a, b)
    ensures a.id == b.id ==> (KeyLess(a, b) <==> a.version < b.version)
    ensures KeyLess(a, b) || a == b || KeyLess(b, a)
    ensures KeyLess(a, b) ==> a != b && !KeyLess(b, a)
    ensures KeyLess(a, b) && KeyLess(b, c) ==> KeyLess(a, c)
  {
  }

  /** A row of a child table: a tag, a way node or a relation member, and the object it belongs to. */
  datatype Child<+T> = Child(key: Key, value: T)

  datatype Tag = Tag(k: string, v: string)

  datatype Ref = NodeRef(id: int) | Member(kind: ItemType, id: int, role: string)

  datatype Location = NoLocation | Location(lon: int, lat: int)

  /** A row of an object table. */
  datatype Row = Row(key: Key, cid: nat, visible: bool, timestamp: Timestamp, redacted: bool, location: Location)

  /** An object as it is written to the change file. */
  datatype Object = Object(
    key: Key, cid: nat, user: UserInfo, visible: bool, timestamp: Timestamp, location: Location,
    tags: seq<Tag>, refs: seq<Ref>)

  function Values<T>(children: seq<Child<T>>): (values: seq<T>)
    ensures |values| == |children|
    ensures forall i :: 0 <= i < |children| ==> values[i] == children[i].value
  {
    seq(|children|, i requires 0 <= i < |children| => children[i].value)
  }

  // --- The cursors -------------------------------------------------------------------------------------

  /** The end of the run of children of one object that starts at `it`; `it` itself if there is none. */
  function RunEnd<T>(children: seq<Child<T>>, it: nat, key: Key): (end: nat)
    requires it <= |children|
    ensures it <= end <= |children|
    ensures forall k :: it <= k < end ==> children[k].key == key
    ensures end < |children| ==> children[end].key != key
    decreases |children| - it
  {
    if it < |children| && children[it].key == key then RunEnd(children, it + 1, key) else it
  }

  lemma {:induction false} RunEndIs<T>(children: seq<Child<T>>, it: nat, end: nat, key: Key)
    requires it <= end <= |children|
    requires forall k :: it <= k < end ==> children[k].key == key
    requires end < |children| ==> children[end].key != key
    ensures RunEnd(children, it, key) == end
    decreases end - it
  {
    if it < end {
      RunEndIs(children, it + 1, end, key);
    }
  }

  /** `add_tags`, `add_way_nodes`, `add_members`: the run at the cursor and the cursor behind it. */
  method AddChildren<T>(children: seq<Child<T>>, it: nat, key: Key) returns (next: nat, run: seq<T>)
    requires it <= |children|
    ensures next == RunEnd(children, it, key)
    ensures run == Values(children[it..next])
  {
    if it == |children| || children[it].key != key {
      return it, [];
    }
    next := it + 1;
    run := [children[it].value];
    while next != |children| && children[next].key == key
      invariant it < next <= |children|
      invariant forall k :: it <= k < next ==> children[k].key == key
      invariant |run| == next - it && forall k :: 0 <= k < next - it ==> run[k] == children[it + k].value
    {
      run := run + [children[next].value];
      next := next + 1;
    }
    RunEndIs(children, it, next, key);
  }

  /** Where the cursor stands before row `i`: redacted rows do not move it. */
  function Cursor<T>(rows: seq<Row>, children: seq<Child<T>>, i: nat): (it: nat)
    requires i <= |rows|
    ensures it <= |children|
  {
    if i == 0 then 0
    else
      var it := Cursor(rows, children, i - 1);
      if rows[i - 1].redacted then it else RunEnd(children, it, rows[i - 1].key)
  }

  /** The children that row `i` gets. */
  function Attached<T>(rows: seq<Row>, children: seq<Child<T>>, i: nat): seq<T>
    requires i < |rows|
  {
    var it := Cursor(rows, children, i);
    Values(children[it..RunEnd(children, it, rows[i].key)])
  }

  function MakeObject(row: Row, users: map<nat, UserInfo>, tags: seq<Tag>, refs: seq<Ref>): Object
    requires row.cid in users
  {
    Object(row.key, row.cid, users[row.cid], row.visible, row.timestamp, row.location, tags, refs)
  }

  /** `cucache.at` finds the changeset of every row that is written. */
  ghost predicate UsersKnown(rows: seq<Row>, users: map<nat, UserInfo>) {
    forall i :: 0 <= i < |rows| && !rows[i].redacted ==> rows[i].cid in users
  }

  /** The objects written for the first `n` rows. */
  function Emitted(
      rows: seq<Row>, users: map<nat, UserInfo>, tags: seq<Child<Tag>>, refs: seq<Child<Ref>>, n: nat): seq<Object>
    requires n <= |rows| && forall i :: 0 <= i < n && !rows[i].redacted ==> rows[i].cid in users
  {
    if n == 0 then []
    else
      var before := Emitted(rows, users, tags, refs, n - 1);
      if rows[n - 1].redacted then before
      else before + [MakeObject(rows[n - 1], users, Attached(rows, tags, n - 1), Attached(rows, refs, n - 1))]
  }

  /** How row `i` moves a cursor, what it gets, and what is written for it. */
  lemma CursorStep<T>(rows: seq<Row>, children: seq<Child<T>>, i: nat)
    requires i < |rows|
    ensures var it, end := Cursor(rows, children, i), RunEnd(children, Cursor(rows, children, i), rows[i].key);
            && Cursor(rows, children, i + 1) == (if rows[i].redacted then it else end)
            && Attached(rows, children, i) == Values(children[it..end])
  {
  }

  lemma EmittedStep(rows: seq<Row>, users: map<nat, UserInfo>, tags: seq<Child<Tag>>, refs: seq<Child<Ref>>, i: nat)
    requires i < |rows| && forall k :: 0 <= k <= i && !rows[k].redacted ==> rows[k].cid in users
    ensures Emitted(rows, users, tags, refs, i + 1)
            == if rows[i].redacted then Emitted(rows, users, tags, refs, i)
               else Emitted(rows, users, tags, refs, i)
                    + [MakeObject(rows[i], users, Attached(rows, tags, i), Attached(rows, refs, i))]
  {
  }

  lemma Starts<T>(
      rows: seq<Row>, users: map<nat, UserInfo>, tags: seq<Child<Tag>>, refs: seq<Child<Ref>>, children: seq<Child<T>>)
    ensures Emitted(rows, users, tags, refs, 0) == [] && Cursor(rows, children, 0) == 0
  {
  }

  // --- Which row each object belongs to --------------------------------------------------------------

  /** The object has the attributes of the row, and the user of its changeset. */
  predicate IsObjectOf(o: Object, row: Row, users: map<nat, UserInfo>) {
    && o.key == row.key && o.cid == row.cid && o.visible == row.visible && o.timestamp == row.timestamp
    && o.location == row.location && row.cid in users && o.user == users[row.cid]
  }

  /** The positions of the first `n` rows that are not redacted, in order. */
  ghost predicate Kept(rows: seq<Row>, n: nat, at: seq<nat>)
    requires n <= |rows|
  {
    && (forall k :: 0 <= k < |at| ==> at[k] < n)
    && (forall j, k :: 0 <= j < k < |at| ==> at[j] < at[k])
    && forall i: nat :: i < n ==> (i in at <==> !rows[i].redacted)
  }

  /** The object has the attributes of row `i` and the children attached to it. */
  ghost predicate WrittenAt(
      rows: seq<Row>, users: map<nat, UserInfo>, tags: seq<Child<Tag>>, refs: seq<Child<Ref>>, o: Object, i: nat)
    requires i < |rows|
  {
    IsObjectOf(o, rows[i], users) && o.tags == Attached(rows, tags, i) && o.refs == Attached(rows, refs, i)
  }

  /** One such object for each of these rows. */
  ghost predicate WrittenFor(
      rows: seq<Row>, users: map<nat, UserInfo>, tags: seq<Child<Tag>>, refs: seq<Child<Ref>>, objects: seq<Object>,
      at: seq<nat>)
  {
    && |objects| == |at|
    && forall k :: 0 <= k < |at| ==> at[k] < |rows| && WrittenAt(rows, users, tags, refs, objects[k], at[k])
  }

  lemma KeptNext(rows: seq<Row>, n: nat, at: seq<nat>)
    requires n < |rows| && Kept(rows, n, at)
    ensures Kept(rows, n + 1, if rows[n].redacted then at else at + [n])
  {
    var next := if rows[n].redacted then at else at + [n];
    forall i: nat | i < n + 1
      ensures i in next <==> !rows[i].redacted
    {
      assert i in at ==> i < n;
    }
  }

  lemma MadeFor(
      rows: seq<Row>, users: map<nat, UserInfo>, tags: seq<Child<Tag>>, refs: seq<Child<Ref>>, i: nat)
    requires i < |rows| && rows[i].cid in users
    ensures WrittenAt(rows, users, tags, refs,
                      MakeObject(rows[i], users, Attached(rows, tags, i), Attached(rows, refs, i)), i)
  {
    hide Attached;
  }

  lemma WrittenNext(
      rows: seq<Row>, users: map<nat, UserInfo>, tags: seq<Child<Tag>>, refs: seq<Child<Ref>>, objects: seq<Object>,
      at: seq<nat>, o: Object, i: nat)
    requires i < |rows|
    requires WrittenFor(rows, users, tags, refs, objects, at) && WrittenAt(rows, users, tags, refs, o, i)
    ensures WrittenFor(rows, users, tags, refs, objects + [o], at + [i])
  {
    hide WrittenAt;
  }

  lemma WrittenOne(
      rows: seq<Row>, users: map<nat, UserInfo>, tags: seq<Child<Tag>>, refs: seq<Child<Ref>>, n: nat, at: seq<nat>)
    requires n < |rows| && !rows[n].redacted
    requires forall i :: 0 <= i <= n && !rows[i].redacted ==> rows[i].cid in users
    requires WrittenFor(rows, users, tags, refs, Emitted(rows, users, tags, refs, n), at)
    ensures WrittenFor(rows, users, tags, refs, Emitted(rows, users, tags, refs, n + 1), at + [n])
  {
    hide Attached, WrittenAt, MakeObject, Emitted, WrittenFor;
    EmittedStep(rows, users, tags, refs, n);
    MadeFor(rows, users, tags, refs, n);
    WrittenNext(rows, users, tags, refs, Emitted(rows, users, tags, refs, n), at,
                MakeObject(rows[n], users, Attached(rows, tags, n), Attached(rows, refs, n)), n);
  }

  /** The k-th object written belongs to the k-th row that is not redacted. */
  lemma {:induction false} EmittedRows(
      rows: seq<Row>, users: map<nat, UserInfo>, tags: seq<Child<Tag>>, refs: seq<Child<Ref>>, n: nat)
    returns (at: seq<nat>)
    requires n <= |rows| && forall i :: 0 <= i < n && !rows[i].redacted ==> rows[i].cid in users
    ensures Kept(rows, n, at) && WrittenFor(rows, users, tags, refs, Emitted(rows, users, tags, refs, n), at)
  {
    hide Attached, MakeObject, Emitted, WrittenFor, Kept;
    if n == 0 {
      at := [];
      NoneEmitted(rows, users, tags, refs);
    } else {
      at := EmittedRows(rows, users, tags, refs, n - 1);
      KeptNext(rows, n - 1, at);
      if rows[n - 1].redacted {
        EmittedStep(rows, users, tags, refs, n - 1);
      } else {
        WrittenOne(rows, users, tags, refs, n - 1, at);
        at := at + [n - 1];
      }
    }
  }

  lemma NoneEmitted(rows: seq<Row>, users: map<nat, UserInfo>, tags: seq<Child<Tag>>, refs: seq<Child<Ref>>)
    ensures Kept(rows, 0, []) && WrittenFor(rows, users, tags, refs, Emitted(rows, users, tags, refs, 0), [])
  {
  }

  /** `max` is the latest of a time stamp and those of all rows. */
  ghost predicate IsLatest(start: Timestamp, rows: seq<Row>, max: Timestamp) {
    && !Later(start, max) && (forall i :: 0 <= i < |rows| ==> !Later(rows[i].timestamp, max))
    && (max == start || exists i :: 0 <= i < |rows| && max == rows[i].timestamp)
  }

  lemma {:induction false} NoRefs(rows: seq<Row>, i: nat)
    requires i <= |rows|
    ensures Cursor<Ref>(rows, [], i) == 0
    ensures i < |rows| ==> Attached<Ref>(rows, [], i) == []
  {
    if i > 0 {
      NoRefs(rows, i - 1);
    }
  }

  /** `process_nodes`; a changeset that is not in the cache ends it with an exception. */
  method ProcessNodes(rows: seq<Row>, users: map<nat, UserInfo>, tags: seq<Child<Tag>>, start: Timestamp)
    returns (objects: seq<Object>, max: Timestamp, missing: Option<nat>)
    ensures missing == None <==> UsersKnown(rows, users)
    ensures missing == None ==> objects == Emitted(rows, users, tags, [], |rows|)
    ensures missing == None ==> exists at :: Kept(rows, |rows|, at) && WrittenFor(rows, users, tags, [], objects, at)
    ensures missing == None ==> IsLatest(start, rows, max)
  {
    hide Cursor, Attached, Emitted, Values, RunEnd, Later, Kept, WrittenFor;
    Starts(rows, users, tags, [], tags);
    objects, max, missing := [], start, None;
    NoRowsLatest(start);
    var it := 0;
    for i := 0 to |rows|
      invariant forall k :: 0 <= k < i && !rows[k].redacted ==> rows[k].cid in users
      invariant objects == Emitted(rows, users, tags, [], i)
      invariant it == Cursor(rows, tags, i)
      invariant IsLatest(start, rows[..i], max)
    {
      ghost var before := max;
      if Later(rows[i].timestamp, max) {
        max := rows[i].timestamp;
      }
      NextLatest(start, rows, i, before, max);
      CursorStep(rows, tags, i);
      if rows[i].redacted {
        EmittedStep(rows, users, tags, [], i);
        continue;
      }
      if rows[i].cid !in users {
        return objects, max, Some(rows[i].cid);
      }
      var run;
      it, run := AddChildren(tags, it, rows[i].key);
      NoRefs(rows, i);
      EmittedStep(rows, users, tags, [], i);
      objects := objects + [MakeObject(rows[i], users, run, [])];
    }
    assert rows[..|rows|] == rows;
    ghost var at := EmittedRows(rows, users, tags, [], |rows|);
  }

  /** `process_ways` and `process_relations`, with way nodes or members as the second list. */
  method ProcessParents(
      rows: seq<Row>, users: map<nat, UserInfo>, tags: seq<Child<Tag>>, refs: seq<Child<Ref>>, start: Timestamp)
    returns (objects: seq<Object>, max: Timestamp, missing: Option<nat>)
    ensures missing == None <==> UsersKnown(rows, users)
    ensures missing == None ==> objects == Emitted(rows, users, tags, refs, |rows|)
    ensures missing == None ==> exists at :: Kept(rows, |rows|, at) && WrittenFor(rows, users, tags, refs, objects, at)
    ensures missing == None ==> IsLatest(start, rows, max)
  {
    hide Cursor, Attached, Emitted, Values, RunEnd, Later, Kept, WrittenFor;
    Starts(rows, users, tags, refs, tags);
    Starts(rows, users, tags, refs, refs);
    objects, max, missing := [], start, None;
    NoRowsLatest(start);
    var it := 0;
    var refIt := 0;
    for i := 0 to |rows|
      invariant forall k :: 0 <= k < i && !rows[k].redacted ==> rows[k].cid in users
      invariant objects == Emitted(rows, users, tags, refs, i)
      invariant it == Cursor(rows, tags, i)
      invariant refIt == Cursor(rows, refs, i)
      invariant IsLatest(start, rows[..i], max)
    {
      ghost var before := max;
      if Later(rows[i].timestamp, max) {
        max := rows[i].timestamp;
      }
      NextLatest(start, rows, i, before, max);
      CursorStep(rows, tags, i);
      CursorStep(rows, refs, i);
      if rows[i].redacted {
        EmittedStep(rows, users, tags, refs, i);
        continue;
      }
      if rows[i].cid !in users {
        return objects, max, Some(rows[i].cid);
      }
      var run, refRun;
      it, run := AddChildren(tags, it, rows[i].key);
      refIt, refRun := AddChildren(refs, refIt, rows[i].key);
      EmittedStep(rows, users, tags, refs, i);
      objects := objects + [MakeObject(rows[i], users, run, refRun)];
    }
    assert rows[..|rows|] == rows;
    ghost var at := EmittedRows(rows, users, tags, refs, |rows|);
  }

  lemma NoRowsLatest(start: Timestamp)
    ensures IsLatest(start, [], start)
  {
  }

  lemma NextLatest(start: Timestamp, rows: seq<Row>, i: nat, before: Timestamp, max: Timestamp)
    requires i < |rows|
    requires IsLatest(start, rows[..i], before) && max == Latest(rows[i].timestamp, before)
    ensures IsLatest(start, rows[..i + 1], max)
  {
    hide Ticks;
    assert rows[..i + 1] == rows[..i] + [rows[i]];
    AppendLatest(start, rows[..i], rows[i], before, max);
  }

  lemma AppendLatest(start: Timestamp, rows: seq<Row>, row: Row, before: Timestamp, max: Timestamp)
    requires IsLatest(start, rows, before) && max == Latest(row.timestamp, before)
    ensures IsLatest(start, rows + [row], max)
  {
    hide Ticks;
    var all := rows + [row];
    assert all[|rows|] == row;
    if max == before && before != start {
      var k :| 0 <= k < |rows| && before == rows[k].timestamp;
      assert all[k].timestamp == max;
    }
  }

  // --- What it is meant to compute -------------------------------------------------------------------------

  /** The children of one object, in their order: what a search through the whole list finds. */
  function Owned<T>(children: seq<Child<T>>, key: Key): seq<T> {
    if children == [] then []
    else if children[0].key == key then [children[0].value] + Owned(children[1..], key)
    else Owned(children[1..], key)
  }

  /** For each row that is not redacted, the object with all its own children. */
  function NestedLoop(
      rows: seq<Row>, users: map<nat, UserInfo>, tags: seq<Child<Tag>>, refs: seq<Child<Ref>>): seq<Object>
    requires UsersKnown(rows, users)
  {
    if rows == [] then []
    else
      var last := |rows| - 1;
      assert forall i :: 0 <= i < last ==> rows[..last][i] == rows[i];
      var before := NestedLoop(rows[..last], users, tags, refs);
      if rows[last].redacted then before
      else before + [MakeObject(rows[last], users, Owned(tags, rows[last].key), Owned(refs, rows[last].key))]
  }

  /** What the nested loop holds: for each row that is not redacted an object with all its children, and nothing else. */
  lemma {:induction false} NestedLoopHolds(
      rows: seq<Row>, users: map<nat, UserInfo>, tags: seq<Child<Tag>>, refs: seq<Child<Ref>>, o: Object)
    requires UsersKnown(rows, users)
    ensures o in NestedLoop(rows, users, tags, refs)
            <==> exists i :: 0 <= i < |rows| && !rows[i].redacted && IsObjectOf(o, rows[i], users)
                             && o.tags == Owned(tags, rows[i].key) && o.refs == Owned(refs, rows[i].key)
  {
    hide Owned;
    if rows != [] {
      var last := |rows| - 1;
      var rest := rows[..last];
      assert forall i :: 0 <= i < last ==> rest[i] == rows[i];
      NestedLoopHolds(rest, users, tags, refs, o);
      if o in NestedLoop(rest, users, tags, refs) {
        var i :| 0 <= i < |rest| && !rest[i].redacted && IsObjectOf(o, rest[i], users)
                 && o.tags == Owned(tags, rest[i].key) && o.refs == Owned(refs, rest[i].key);
        assert rows[i] == rest[i];
      }
    }
  }

  lemma Regroup<T>(a: seq<T>, b: seq<T>, c: seq<T>)
    ensures a + (b + c) == a + b + c
  {
  }

  lemma OwnedCons<T>(child: Child<T>, rest: seq<Child<T>>, key: Key)
    ensures Owned([child] + rest, key) == (if child.key == key then [child.value] else []) + Owned(rest, key)
  {
    assert ([child] + rest)[1..] == rest;
  }

  lemma {:induction false} OwnedConcat<T>(a: seq<Child<T>>, b: seq<Child<T>>, key: Key)
    ensures Owned(a + b, key) == Owned(a, key) + Owned(b, key)
  {
    if a == [] {
      assert a + b == b;
    } else {
      OwnedConcat(a[1..], b, key);
      OwnedCons(a[0], a[1..], key);
      OwnedCons(a[0], a[1..] + b, key);
      assert a == [a[0]] + a[1..] && a + b == [a[0]] + (a[1..] + b);
      Regroup(if a[0].key == key then [a[0].value] else [], Owned(a[1..], key), Owned(b, key));
    }
  }

  /** The children found are those with the key, in their order. */
  lemma {:induction false} OwnedExactly<T>(a: seq<Child<T>>, child: Child<T>, b: seq<Child<T>>, key: Key)
    ensures Owned(a + ([child] + b), key)
            == Owned(a, key) + ((if child.key == key then [child.value] else []) + Owned(b, key))
  {
    OwnedConcat(a, [child] + b, key);
    OwnedCons(child, b, key);
    hide Owned;
  }

  ghost predicate RowsSorted(rows: seq<Row>) {
    forall i, j :: 0 <= i < j < |rows| ==> KeyUpTo(rows[i].key, rows[j].key)
  }

  ghost predicate RowsStrictlySorted(rows: seq<Row>) {
    forall i, j :: 0 <= i < j < |rows| ==> KeyLess(rows[i].key, rows[j].key)
  }

  /** Equal keys are the same database row. */
  ghost predicate KeysDetermineRows(rows: seq<Row>) {
    forall i, j :: 0 <= i < j < |rows| && rows[i].key == rows[j].key ==> rows[i] == rows[j]
  }

  ghost predicate ChildrenSorted<T>(children: seq<Child<T>>) {
    forall i, j :: 0 <= i < j < |children| ==> KeyUpTo(children[i].key, children[j].key)
  }

  predicate HasRow(rows: seq<Row>, key: Key) {
    exists i :: 0 <= i < |rows| && rows[i].key == key
  }

  /** Every child belongs to one of the rows. */
  ghost predicate ChildrenHaveRows<T>(rows: seq<Row>, children: seq<Child<T>>) {
    forall c :: 0 <= c < |children| ==> HasRow(rows, children[c].key)
  }

  /** What the queries return, duplicate rows included. */
  ghost predicate JoinInput<T>(rows: seq<Row>, children: seq<Child<T>>) {
    RowsSorted(rows) && KeysDetermineRows(rows) && ChildrenSorted(children) && ChildrenHaveRows(rows, children)
  }

  ghost predicate Owns<T>(row: Row, children: seq<Child<T>>) {
    exists c :: 0 <= c < |children| && children[c].key == row.key
  }

  // --- Where the cursor is ----------------------------------------------------------------------------------

  /** Some redacted row before row `i` owns children. */
  ghost predicate StuckBefore<T>(rows: seq<Row>, children: seq<Child<T>>, i: nat)
    requires i <= |rows|
  {
    exists r :: 0 <= r < i && rows[r].redacted && Owns(rows[r], children)
  }

  /** All children up to the row before `i` are passed, and no other. */
  ghost predicate InStep<T>(rows: seq<Row>, children: seq<Child<T>>, i: nat, it: nat)
    requires i <= |rows| && it <= |children|
  {
    && (i == 0 ==> it == 0)
    && (i > 0 ==> forall c :: 0 <= c < it ==> KeyUpTo(children[c].key, rows[i - 1].key))
    && (i > 0 ==> forall c :: it <= c < |children| ==> KeyLess(rows[i - 1].key, children[c].key))
  }

  /** The cursor waits at a child of a redacted row. */
  ghost predicate Waiting<T>(rows: seq<Row>, children: seq<Child<T>>, i: nat, it: nat)
    requires i <= |rows| && it <= |children|
  {
    it < |children| && exists r :: 0 <= r < i && rows[r].redacted && rows[r].key == children[it].key
  }

  /** In step, all children left are at or behind the next row. */
  lemma NothingBetween<T>(rows: seq<Row>, children: seq<Child<T>>, i: nat, it: nat)
    requires JoinInput(rows, children) && i < |rows| && it <= |children| && InStep(rows, children, i, it)
    ensures forall c :: it <= c < |children| ==> KeyUpTo(rows[i].key, children[c].key)
  {
    forall c | it <= c < |children|
      ensures KeyUpTo(rows[i].key, children[c].key)
    {
      assert HasRow(rows, children[c].key);
      var j :| 0 <= j < |rows| && rows[j].key == children[c].key;
      if j < i {
        assert KeyUpTo(rows[j].key, rows[i - 1].key);
      }
    }
  }

  /** One row, in step: the run at the cursor takes the cursor past the row's children. */
  lemma StepInStep<T>(rows: seq<Row>, children: seq<Child<T>>, i: nat, it: nat)
    requires JoinInput(rows, children) && i < |rows| && it <= |children| && InStep(rows, children, i, it)
    ensures InStep(rows, children, i + 1, RunEnd(children, it, rows[i].key))
    ensures forall c :: 0 <= c < it && children[c].key == rows[i].key ==> i > 0 && rows[i - 1].key == rows[i].key
    ensures forall c :: RunEnd(children, it, rows[i].key) <= c < |children| ==> children[c].key != rows[i].key
  {
    NothingBetween(rows, children, i, it);
    var end := RunEnd(children, it, rows[i].key);
    assert i > 0 ==> KeyUpTo(rows[i - 1].key, rows[i].key);
    forall c | end <= c < |children|
      ensures KeyLess(rows[i].key, children[c].key)
    {
      assert KeyUpTo(children[end].key, children[c].key) || c == end;
    }
  }

  lemma {:induction false} CursorIs<T>(rows: seq<Row>, children: seq<Child<T>>, i: nat)
    requires JoinInput(rows, children) && i <= |rows|
    ensures var it := Cursor(rows, children, i);
            if StuckBefore(rows, children, i) then Waiting(rows, children, i, it) else InStep(rows, children, i, it)
  {
    hide JoinInput, InStep, Waiting, StuckBefore;
    if i == 0 {
      BeforeFirst(rows, children);
    } else {
      CursorIs(rows, children, i - 1);
      if StuckBefore(rows, children, i - 1) {
        StaysWaiting(rows, children, i - 1);
      } else {
        RowInStep(rows, children, i - 1);
      }
    }
  }

  lemma BeforeFirst<T>(rows: seq<Row>, children: seq<Child<T>>)
    ensures !StuckBefore(rows, children, 0) && InStep(rows, children, 0, 0)
  {
  }

  lemma RowInStep<T>(rows: seq<Row>, children: seq<Child<T>>, i: nat)
    requires JoinInput(rows, children) && i < |rows| && !StuckBefore(rows, children, i)
    requires InStep(rows, children, i, Cursor(rows, children, i))
    ensures var it := Cursor(rows, children, i + 1);
            if StuckBefore(rows, children, i + 1) then Waiting(rows, children, i + 1, it)
            else InStep(rows, children, i + 1, it)
  {
    var it := Cursor(rows, children, i);
    StepInStep(rows, children, i, it);
    hide JoinInput;
    if rows[i].redacted {
      if Owns(rows[i], children) {
        var c :| 0 <= c < |children| && children[c].key == rows[i].key;
        OwnRunIsAhead(rows, children, i, it, c);
      } else {
        assert RunEnd(children, it, rows[i].key) == it;
      }
    }
  }

  /** The first redacted row that owns children finds them at the cursor. */
  lemma OwnRunIsAhead<T>(rows: seq<Row>, children: seq<Child<T>>, i: nat, it: nat, c: nat)
    requires JoinInput(rows, children) && i < |rows| && it <= |children| && InStep(rows, children, i, it)
    requires rows[i].redacted && !StuckBefore(rows, children, i) && c < |children| && children[c].key == rows[i].key
    ensures it <= c && children[it].key == rows[i].key
  {
    StepInStep(rows, children, i, it);
    NothingBetween(rows, children, i, it);
    if c < it {
      assert rows[i - 1] == rows[i];
      assert Owns(rows[i - 1], children);
    }
    assert it < c ==> KeyUpTo(children[it].key, children[c].key);
  }

  lemma StaysWaiting<T>(rows: seq<Row>, children: seq<Child<T>>, i: nat)
    requires JoinInput(rows, children) && i < |rows| && Waiting(rows, children, i, Cursor(rows, children, i))
    ensures Waiting(rows, children, i + 1, Cursor(rows, children, i + 1))
    ensures StuckBefore(rows, children, i + 1)
    ensures !rows[i].redacted ==> Attached(rows, children, i) == []
  {
    var it := Cursor(rows, children, i);
    var r :| 0 <= r < i && rows[r].redacted && rows[r].key == children[it].key;
    assert Owns(rows[r], children);
    if !rows[i].redacted {
      assert rows[r].key != rows[i].key;
      assert RunEnd(children, it, rows[i].key) == it;
    }
  }

  // --- What a row gets, exactly ------------------------------------------------------------------------------

  lemma {:induction false} OwnedNone<T>(children: seq<Child<T>>, key: Key)
    requires forall c :: 0 <= c < |children| ==> children[c].key != key
    ensures Owned(children, key) == []
  {
    if children != [] {
      OwnedNone(children[1..], key);
    }
  }

  /** When an object's children are consecutive, the search finds that run. */
  lemma {:induction false} OwnedIsRun<T>(children: seq<Child<T>>, a: nat, b: nat, key: Key)
    requires a <= b <= |children|
    requires forall c :: 0 <= c < |children| ==> (children[c].key == key <==> a <= c < b)
    ensures Owned(children, key) == Values(children[a..b])
    decreases |children|
  {
    if a == b {
      OwnedNone(children, key);
    } else {
      var rest := children[1..];
      if a == 0 {
        OwnedIsRun(rest, 0, b - 1, key);
        assert children[0..b] == [children[0]] + rest[0..b - 1];
      } else {
        OwnedIsRun(rest, a - 1, b - 1, key);
        assert children[a..b] == rest[a - 1..b - 1];
      }
    }
  }

  /** A redacted row with children came before, or the children went to an earlier copy of the row. */
  ghost predicate Blocked<T>(rows: seq<Row>, children: seq<Child<T>>, i: nat)
    requires i < |rows|
  {
    exists j :: 0 <= j < i && Owns(rows[j], children) && (rows[j].redacted || rows[j].key == rows[i].key)
  }

  /** A row in step that is blocked is a copy of the row before it. */
  lemma BlockedIsCopy<T>(rows: seq<Row>, children: seq<Child<T>>, i: nat)
    requires JoinInput(rows, children) && i < |rows| && !StuckBefore(rows, children, i)
    ensures Blocked(rows, children, i) <==> i > 0 && rows[i - 1].key == rows[i].key && Owns(rows[i], children)
  {
    hide ChildrenHaveRows, ChildrenSorted;
    if Blocked(rows, children, i) {
      var j :| 0 <= j < i && Owns(rows[j], children) && (rows[j].redacted || rows[j].key == rows[i].key);
      assert !rows[j].redacted;
      assert j == i - 1 || KeyUpTo(rows[j].key, rows[i - 1].key);
      assert KeyUpTo(rows[i - 1].key, rows[i].key);
      assert rows[j] == rows[i - 1];
    }
  }

  lemma AttachedInStep<T>(rows: seq<Row>, children: seq<Child<T>>, i: nat)
    requires JoinInput(rows, children) && i < |rows| && !rows[i].redacted && !StuckBefore(rows, children, i)
    requires InStep(rows, children, i, Cursor(rows, children, i))
    ensures Attached(rows, children, i) == if Blocked(rows, children, i) then [] else Owned(children, rows[i].key)
  {
    BlockedIsCopy(rows, children, i);
    hide Blocked, StuckBefore, ChildrenHaveRows, Cursor, Owned;
    var it := Cursor(rows, children, i);
    var end := RunEnd(children, it, rows[i].key);
    StepInStep(rows, children, i, it);
    if Blocked(rows, children, i) {
      assert end == it;
    } else {
      assert forall c :: 0 <= c < |children| && children[c].key == rows[i].key ==> Owns(rows[i], children);
      OwnedIsRun(children, it, end, rows[i].key);
    }
  }

  /**
   Exactly what a row gets, for all sorted inputs: all of its own children, unless a redacted row
   with children came before or an earlier copy of the row took them; then nothing.
   */
  lemma {:induction false} AttachedExactly<T>(rows: seq<Row>, children: seq<Child<T>>, i: nat)
    requires JoinInput(rows, children) && i < |rows| && !rows[i].redacted
    ensures Attached(rows, children, i) == if Blocked(rows, children, i) then [] else Owned(children, rows[i].key)
  {
    hide JoinInput, Cursor, Attached, Owned;
    CursorIs(rows, children, i);
    if StuckBefore(rows, children, i) {
      StaysWaiting(rows, children, i);
      var r :| 0 <= r < i && rows[r].redacted && Owns(rows[r], children);
      assert Blocked(rows, children, i);
    } else {
      AttachedInStep(rows, children, i);
    }
  }

  /** No object ever carries another object's children, whatever the inputs are. */
  lemma OnlyOwnChildren<T>(rows: seq<Row>, children: seq<Child<T>>, i: nat, v: T)
    requires i < |rows| && v in Attached(rows, children, i)
    ensures Child(rows[i].key, v) in children
  {
    var it := Cursor(rows, children, i);
    var end := RunEnd(children, it, rows[i].key);
    var k :| 0 <= k < end - it && Attached(rows, children, i)[k] == v;
    assert children[it + k] == Child(rows[i].key, v);
  }

  lemma NoChildBehind<T>(rows: seq<Row>, children: seq<Child<T>>)
    requires JoinInput(rows, children) && rows != []
    ensures forall c :: 0 <= c < |children| ==> !KeyLess(rows[|rows| - 1].key, children[c].key)
  {
    forall c | 0 <= c < |children|
      ensures !KeyLess(rows[|rows| - 1].key, children[c].key)
    {
      assert HasRow(rows, children[c].key);
      var j :| 0 <= j < |rows| && rows[j].key == children[c].key;
      assert j < |rows| - 1 ==> KeyUpTo(rows[j].key, rows[|rows| - 1].key);
    }
  }

  /** The cursor reaches the end if and only if no redacted row owns children. */
  lemma {:induction false} CursorReachesEnd<T>(rows: seq<Row>, children: seq<Child<T>>)
    requires JoinInput(rows, children)
    ensures Cursor(rows, children, |rows|) == |children| <==> !StuckBefore(rows, children, |rows|)
  {
    hide Cursor;
    CursorIs(rows, children, |rows|);
    var it := Cursor(rows, children, |rows|);
    if children != [] {
      var child := children[if it < |children| then it else 0];
      assert HasRow(rows, child.key);
      NoChildBehind(rows, children);
    }
  }

  // --- The clean case: the fast form refines the nested loop ------------------------------------------------------

  /** Distinct rows, and no redacted row has children. */
  ghost predicate Clean<T>(rows: seq<Row>, children: seq<Child<T>>) {
    && RowsStrictlySorted(rows) && ChildrenSorted(children) && ChildrenHaveRows(rows, children)
    && forall i :: 0 <= i < |rows| && rows[i].redacted ==> !Owns(rows[i], children)
  }

  lemma CleanIsJoinInput<T>(rows: seq<Row>, children: seq<Child<T>>)
    requires Clean(rows, children)
    ensures JoinInput(rows, children)
    ensures forall i :: 0 <= i < |rows| && !rows[i].redacted ==> !Blocked(rows, children, i)
    ensures !StuckBefore(rows, children, |rows|)
  {
  }

  /** In the clean case every object that is written carries exactly its own children. */
  lemma AttachedClean<T>(rows: seq<Row>, children: seq<Child<T>>, i: nat)
    requires Clean(rows, children) && i < |rows| && !rows[i].redacted
    ensures Attached(rows, children, i) == Owned(children, rows[i].key)
  {
    hide Clean, JoinInput, Attached, Owned, Blocked;
    CleanIsJoinInput(rows, children);
    AttachedExactly(rows, children, i);
  }

  /** The row owns no children, or nothing keeps them from it. */
  ghost predicate Served<T>(rows: seq<Row>, children: seq<Child<T>>, i: nat)
    requires i < |rows|
  {
    Owns(rows[i], children) ==> !Blocked(rows, children, i)
  }

  lemma {:induction false} OwnedIffOwns<T>(children: seq<Child<T>>, row: Row)
    ensures Owned(children, row.key) != [] <==> Owns(row, children)
  {
    if Owns(row, children) {
      if children[0].key != row.key {
        OwnedIffOwns(children[1..], row);
        var c :| 0 <= c < |children| && children[c].key == row.key;
        assert children[1..][c - 1].key == row.key;
      }
    } else {
      OwnedNone(children, row.key);
    }
  }

  lemma {:induction false} AttachedIffServed<T>(rows: seq<Row>, children: seq<Child<T>>, i: nat)
    requires JoinInput(rows, children) && i < |rows| && !rows[i].redacted
    ensures Attached(rows, children, i) == Owned(children, rows[i].key) <==> Served(rows, children, i)
  {
    hide JoinInput, Attached, Owned, Blocked, Owns;
    AttachedExactly(rows, children, i);
    OwnedIffOwns(children, rows[i]);
  }

  lemma {:induction false} EmittedExactly(
      rows: seq<Row>, users: map<nat, UserInfo>, tags: seq<Child<Tag>>, refs: seq<Child<Ref>>, n: nat)
    requires JoinInput(rows, tags) && JoinInput(rows, refs) && UsersKnown(rows, users) && n <= |rows|
    ensures UsersKnown(rows[..n], users)
    ensures |Emitted(rows, users, tags, refs, n)| == |NestedLoop(rows[..n], users, tags, refs)|
    ensures Emitted(rows, users, tags, refs, n) == NestedLoop(rows[..n], users, tags, refs)
            <==> forall i :: 0 <= i < n && !rows[i].redacted ==> Served(rows, tags, i) && Served(rows, refs, i)
  {
    hide JoinInput, Attached, Owned, Served;
    if n > 0 {
      EmittedExactly(rows, users, tags, refs, n - 1);
      assert rows[..n][..n - 1] == rows[..n - 1];
      if !rows[n - 1].redacted {
        AttachedIffServed(rows, tags, n - 1);
        AttachedIffServed(rows, refs, n - 1);
        AppendEqual(Emitted(rows, users, tags, refs, n - 1), NestedLoop(rows[..n - 1], users, tags, refs),
                    MakeObject(rows[n - 1], users, Attached(rows, tags, n - 1), Attached(rows, refs, n - 1)),
                    MakeObject(rows[n - 1], users, Owned(tags, rows[n - 1].key), Owned(refs, rows[n - 1].key)));
      }
    }
  }

  lemma AppendEqual<T>(a: seq<T>, b: seq<T>, x: T, y: T)
    requires |a| == |b|
    ensures a + [x] == b + [y] <==> a == b && x == y
  {
    if a + [x] == b + [y] {
      assert a == (a + [x])[..|a|] == (b + [y])[..|a|] == b;
      assert (a + [x])[|a|] == (b + [y])[|a|];
    }
  }

  /**
   When the merge join is right, exactly: for all sorted inputs it equals the nested loop if and only
   if every row that is written and owns children is served, for both kinds of children.
   */
  lemma {:induction false} MergeJoinIsNestedLoopExactly(
      rows: seq<Row>, users: map<nat, UserInfo>, tags: seq<Child<Tag>>, refs: seq<Child<Ref>>)
    requires JoinInput(rows, tags) && JoinInput(rows, refs) && UsersKnown(rows, users)
    ensures Emitted(rows, users, tags, refs, |rows|) == NestedLoop(rows, users, tags, refs)
            <==> forall i :: 0 <= i < |rows| && !rows[i].redacted ==> Served(rows, tags, i) && Served(rows, refs, i)
  {
    hide JoinInput, Served;
    EmittedExactly(rows, users, tags, refs, |rows|);
    assert rows[..|rows|] == rows;
  }

  /** In the clean case the merge join refines the nested loop. */
  lemma {:induction false} MergeJoinIsNestedLoop(
      rows: seq<Row>, users: map<nat, UserInfo>, tags: seq<Child<Tag>>, refs: seq<Child<Ref>>)
    requires Clean(rows, tags) && Clean(rows, refs) && UsersKnown(rows, users)
    ensures Emitted(rows, users, tags, refs, |rows|) == NestedLoop(rows, users, tags, refs)
  {
    CleanIsJoinInput(rows, tags);
    CleanIsJoinInput(rows, refs);
    hide Clean, JoinInput, Blocked, Owns;
    MergeJoinIsNestedLoopExactly(rows, users, tags, refs);
  }

  /** What the rows that are written got, one after the other. */
  function AllAttached<T>(rows: seq<Row>, children: seq<Child<T>>, n: nat): seq<T>
    requires n <= |rows|
  {
    if n == 0 then []
    else AllAttached(rows, children, n - 1) + if rows[n - 1].redacted then [] else Attached(rows, children, n - 1)
  }

  lemma {:induction false} AllAttachedIs<T>(rows: seq<Row>, children: seq<Child<T>>, n: nat)
    requires n <= |rows|
    ensures AllAttached(rows, children, n) == Values(children[..Cursor(rows, children, n)])
  {
    hide Attached, RunEnd, Values, Cursor;
    Starts(rows, map[], [], [], children);
    if n > 0 {
      CursorStep(rows, children, n - 1);
      AllAttachedIs(rows, children, n - 1);
      Piece(children, Cursor(rows, children, n - 1), Cursor(rows, children, n));
    } else {
      assert children[..0] == [];
    }
  }

  lemma Piece<T>(children: seq<Child<T>>, from: nat, to: nat)
    requires from <= to <= |children|
    ensures Values(children[..to]) == Values(children[..from]) + Values(children[from..to])
  {
    hide Values;
    assert children[..to] == children[..from] + children[from..to];
    ValuesConcat(children[..from], children[from..to]);
  }

  lemma ValuesConcat<T>(a: seq<Child<T>>, b: seq<Child<T>>)
    ensures Values(a + b) == Values(a) + Values(b)
  {
  }

  /** In the clean case every child is written exactly once, in order. */
  lemma {:induction false} EveryChildOnce<T>(rows: seq<Row>, children: seq<Child<T>>)
    requires Clean(rows, children)
    ensures AllAttached(rows, children, |rows|) == Values(children)
  {
    hide Clean, JoinInput, Blocked, Cursor;
    CleanIsJoinInput(rows, children);
    CursorReachesEnd(rows, children);
    AllAttachedIs(rows, children, |rows|);
    assert children[..|children|] == children;
  }

  /**
   With distinct rows: objects before the first redacted row that owns children carry all of their
   own, every object behind it carries none, and the children of the redacted row are not written.
   */
  lemma {:induction false} AroundFirstRedaction<T>(rows: seq<Row>, children: seq<Child<T>>, r: nat, i: nat)
    requires RowsStrictlySorted(rows) && ChildrenSorted(children) && ChildrenHaveRows(rows, children)
    requires r < |rows| && rows[r].redacted && Owns(rows[r], children) && !StuckBefore(rows, children, r)
    requires i < |rows| && !rows[i].redacted
    ensures Attached(rows, children, i) == if i < r then Owned(children, rows[i].key) else []
  {
    hide Attached, Owned;
    assert JoinInput(rows, children);
    AttachedExactly(rows, children, i);
    hide Owns;
    if i < r {
      assert !Blocked(rows, children, i);
    } else {
      assert Blocked(rows, children, i);
    }
  }
}
