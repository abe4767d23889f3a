/**
 osmdbt-create-diff from the log files to the objects written (src/osmdbt-create-diff.cpp): which
 logs are read, what the queries return for the work lists, and the time stamp of the new state.
 */
module CreateDiff {
  import opened Wrappers
  import opened Text
  import opened Timestamps
  import opened OsmObjects
  import Sorting
  import opened MergeJoin
  import Draining

  // --- Reading the logs ----------------------------------------------------------------------------------

  /** A log file: its name and its text. */
  datatype LogText = LogText(name: string, text: string)

  function Parse(log: LogText): Result<seq<OsmObj>, LogError> {
    ParseLog(Lines(log.text))
  }

  function Contents(logs: seq<LogText>): (contents: seq<Draining.LogContent>)
    ensures |contents| == |logs|
    ensures forall i :: 0 <= i < |logs| ==> contents[i] == if Parse(logs[i]).Success? then Parse(logs[i]).value else []
  {
    seq(|logs|, i requires 0 <= i < |logs| => if Parse(logs[i]).Success? then Parse(logs[i]).value else [])
  }

  function Names(logs: seq<LogText>): (names: seq<string>)
    ensures |names| == |logs|
    ensures forall i :: 0 <= i < |logs| ==> names[i] == logs[i].name
  {
    seq(|logs|, i requires 0 <= i < |logs| => logs[i].name)
  }

  lemma {:induction false} KindsAddUp(objs: seq<OsmObj>)
    ensures |OfKind(objs, Node)| + |OfKind(objs, Way)| + |OfKind(objs, Relation)| == |objs|
  {
    if objs != [] {
      KindsAddUp(objs[1..]);
    }
  }

  lemma {:induction false} TakenSplit(files: seq<Draining.LogContent>, limit: nat, i: nat)
    requires i <= |files|
    requires forall k :: 0 < k <= i ==> |Draining.Flat(files[..k])| <= limit
    ensures Draining.Taken(files, limit) == i + Draining.TakenFrom(files[i..], limit, |Draining.Flat(files[..i])|)
  {
    if i == 0 {
      assert files[0..] == files && files[..0] == [];
    } else {
      TakenSplit(files, limit, i - 1);
      FlatSnoc(files, i - 1);
      assert files[i - 1..][0] == files[i - 1] && files[i - 1..][1..] == files[i..];
      assert |Draining.Flat(files[..i])| <= limit;
    }
  }

  lemma FlatSnoc(files: seq<Draining.LogContent>, i: nat)
    requires i < |files|
    ensures Draining.Flat(files[..i + 1]) == Draining.Flat(files[..i]) + files[i]
  {
    Draining.FlatConcat(files[..i], [files[i]]);
    assert files[..i + 1] == files[..i] + [files[i]];
    assert [files[i]][1..] == [] && Draining.Flat([files[i]]) == files[i] + [];
    assert files[i] + [] == files[i];
  }

  lemma TakenStops(files: seq<Draining.LogContent>, limit: nat, i: nat)
    requires 0 < i <= |files|
    requires forall k :: 0 < k < i ==> |Draining.Flat(files[..k])| <= limit
    requires i == |files| || |Draining.Flat(files[..i])| > limit
    ensures Draining.Taken(files, limit) == i
  {
    Draining.TakenIsUnique(files, limit, i);
  }

  /** Reading goes on behind a prefix that does not exceed the limit. */
  lemma TakenGoesOn(files: seq<Draining.LogContent>, limit: nat, i: nat)
    requires i < |files|
    requires forall k :: 0 < k <= i ==> |Draining.Flat(files[..k])| <= limit
    ensures Draining.Taken(files, limit) > i
  {
    TakenSplit(files, limit, i);
  }

  /**
   The loop over the sorted log names: logs are read until there are more objects than the limit
   allows; the first malformed log that is reached ends the program.
   */
  method ReadLogs(logs: seq<LogText>, limit: nat, todo: ObjectLists, cucache: ChangesetCache)
    returns (readFiles: seq<string>, error: Option<LogError>)
    requires todo.Empty() && cucache.users == map[]
    modifies todo, cucache
    ensures var n := Draining.Taken(Contents(logs), limit);
            && (error == None <==> forall i :: 0 <= i < n ==> Parse(logs[i]).Success?)
            && (error == None ==>
                  var objs := Draining.Flat(Contents(logs)[..n]);
                  && readFiles == Names(logs[..n])
                  && todo.nodes == OfKind(objs, Node) && todo.ways == OfKind(objs, Way)
                  && todo.relations == OfKind(objs, Relation)
                  && cucache.users == WithChangesets(map[], objs))
  {
    hide ParseLog, Lines, OfKind, WithChangesets, Draining.Taken;
    readFiles, error := [], None;
    ghost var contents := Contents(logs);
    ghost var objs: seq<OsmObj> := [];
    EmptyLists();
    WithNoChangesets(map[]);
    assert contents[..0] == [];
    for i := 0 to |logs|
      invariant error == None
      invariant objs == Draining.Flat(contents[..i])
      invariant forall k :: 0 < k <= i ==> |Draining.Flat(contents[..k])| <= limit
      invariant forall k :: 0 <= k < i ==> Parse(logs[k]).Success?
      invariant readFiles == Names(logs[..i])
      invariant todo.nodes == OfKind(objs, Node) && todo.ways == OfKind(objs, Way) && todo.relations == OfKind(objs, Relation)
      invariant cucache.users == WithChangesets(map[], objs)
    {
      TakenGoesOn(contents, limit, i);
      error := ReadLog(todo, logs[i].text, cucache);
      if error.Some? {
        return;
      }
      readFiles := readFiles + [logs[i].name];
      FlatSnoc(contents, i);
      ghost var more := contents[i];
      WithChangesetsConcat(map[], objs, more);
      OfKindConcat(objs, more, Node);
      OfKindConcat(objs, more, Way);
      OfKindConcat(objs, more, Relation);
      objs := objs + more;
      KindsAddUp(objs);
      assert readFiles == Names(logs[..i + 1]);
      if todo.Size() > limit {
        TakenStops(contents, limit, i + 1);
        return;
      }
    }
    assert logs[..|logs|] == logs;
    if logs != [] {
      TakenStops(contents, limit, |logs|);
    } else {
      NothingTaken(limit);
    }
  }

  lemma NothingTaken(limit: nat)
    ensures Draining.Taken([], limit) == 0
  {
  }

  // --- The queries ---------------------------------------------------------------------------------------

  /**
   The tables, in the order that the queries ask for: objects by id and version, tags by key,
   way nodes and members by sequence number within their object.
   */
  datatype Database = Database(
    nodes: seq<Row>, ways: seq<Row>, relations: seq<Row>,
    nodeTags: seq<Child<Tag>>, wayTags: seq<Child<Tag>>, relationTags: seq<Child<Tag>>,
    wayNodes: seq<Child<Ref>>, members: seq<Child<Ref>>)

  /** Primary keys on the object tables, and foreign keys from the child tables to them. */
  ghost predicate KeysHold(db: Database) {
    && RowsStrictlySorted(db.nodes) && RowsStrictlySorted(db.ways) && RowsStrictlySorted(db.relations)
    && TableOk(db.nodes, db.nodeTags) && TableOk(db.ways, db.wayTags) && TableOk(db.relations, db.relationTags)
    && TableOk(db.ways, db.wayNodes) && TableOk(db.relations, db.members)
  }

  ghost predicate TableOk<T>(rows: seq<Row>, children: seq<Child<T>>) {
    ChildrenSorted(children) && ChildrenHaveRows(rows, children)
  }

  /** The list of ids and versions in the `WITH` clause. */
  function WantedKeys(objs: seq<OsmObj>): (keys: seq<Key>)
    ensures |keys| == |objs|
    ensures forall i :: 0 <= i < |objs| ==> keys[i] == Key(objs[i].id, objs[i].version)
  {
    seq(|objs|, i requires 0 <= i < |objs| => Key(objs[i].id, objs[i].version))
  }

  function Copies<T>(x: T, n: nat): (copies: seq<T>)
    ensures |copies| == n && forall i :: 0 <= i < n ==> copies[i] == x
  {
    seq(n, _ => x)
  }

  function RowKey(row: Row): Key {
    row.key
  }

  function ChildKey<T>(child: Child<T>): Key {
    child.key
  }

  /** An inner join with the wanted keys: a key wanted twice finds its rows twice. */
  function Fetch<T>(table: seq<T>, keyOf: T -> Key, wanted: multiset<Key>): seq<T> {
    if table == [] then []
    else Copies(table[0], wanted[keyOf(table[0])]) + Fetch(table[1..], keyOf, wanted)
  }

  /** The rows found are those whose key is wanted. */
  lemma {:induction false} FetchExactly<T>(table: seq<T>, keyOf: T -> Key, wanted: multiset<Key>, x: T)
    ensures x in Fetch(table, keyOf, wanted) <==> x in table && keyOf(x) in wanted
  {
    if table != [] {
      FetchExactly(table[1..], keyOf, wanted, x);
      var copies := Copies(table[0], wanted[keyOf(table[0])]);
      assert keyOf(table[0]) in wanted ==> copies[0] == table[0];
      assert table == [table[0]] + table[1..];
    }
  }

  ghost predicate SortedBy<T>(xs: seq<T>, keyOf: T -> Key) {
    forall i, j :: 0 <= i < j < |xs| ==> KeyUpTo(keyOf(xs[i]), keyOf(xs[j]))
  }

  ghost predicate StrictlySortedBy<T>(xs: seq<T>, keyOf: T -> Key) {
    forall i, j :: 0 <= i < j < |xs| ==> KeyLess(keyOf(xs[i]), keyOf(xs[j]))
  }

  lemma {:induction false} FetchSorted<T>(table: seq<T>, keyOf: T -> Key, wanted: multiset<Key>)
    requires SortedBy(table, keyOf)
    ensures SortedBy(Fetch(table, keyOf, wanted), keyOf)
  {
    if table != [] {
      FetchSorted(table[1..], keyOf, wanted);
      var copies, rest := Copies(table[0], wanted[keyOf(table[0])]), Fetch(table[1..], keyOf, wanted);
      forall j | 0 <= j < |rest|
        ensures KeyUpTo(keyOf(table[0]), keyOf(rest[j]))
      {
        FetchExactly(table[1..], keyOf, wanted, rest[j]);
      }
    }
  }

  /** No key is wanted twice. */
  ghost predicate Distinct(wanted: multiset<Key>) {
    forall k :: wanted[k] <= 1
  }

  lemma {:induction false} FetchStrictlySorted<T>(table: seq<T>, keyOf: T -> Key, wanted: multiset<Key>)
    requires StrictlySortedBy(table, keyOf) && Distinct(wanted)
    ensures StrictlySortedBy(Fetch(table, keyOf, wanted), keyOf)
  {
    if table != [] {
      FetchStrictlySorted(table[1..], keyOf, wanted);
      var rest := Fetch(table[1..], keyOf, wanted);
      forall j | 0 <= j < |rest|
        ensures KeyLess(keyOf(table[0]), keyOf(rest[j]))
      {
        FetchExactly(table[1..], keyOf, wanted, rest[j]);
      }
    }
  }

  /** When no key is wanted twice, an object that is wanted finds exactly its children, in order. */
  lemma {:induction false} FetchOwned<T>(table: seq<Child<T>>, wanted: multiset<Key>, key: Key)
    requires Distinct(wanted) && key in wanted
    ensures Owned(Fetch(table, ChildKey, wanted), key) == Owned(table, key)
  {
    if table != [] {
      FetchOwned(table[1..], wanted, key);
      var rest := Fetch(table[1..], ChildKey, wanted);
      if wanted[table[0].key] == 0 {
        assert Fetch(table, ChildKey, wanted) == rest;
      } else {
        assert Fetch(table, ChildKey, wanted) == [table[0]] + rest;
      }
    }
  }

  /** Whatever is wanted: what the queries return is sorted input for the merge join. */
  lemma QueriesFeedJoin<T>(rows: seq<Row>, children: seq<Child<T>>, wanted: multiset<Key>)
    requires RowsStrictlySorted(rows) && TableOk(rows, children)
    ensures JoinInput(Fetch(rows, RowKey, wanted), Fetch(children, ChildKey, wanted))
  {
    FetchSorted(rows, RowKey, wanted);
    FetchSorted(children, ChildKey, wanted);
    ChildrenFindRows(rows, children, wanted);
    RowsDetermined(rows, wanted);
  }

  lemma RowsDetermined(rows: seq<Row>, wanted: multiset<Key>)
    requires RowsStrictlySorted(rows)
    ensures KeysDetermineRows(Fetch(rows, RowKey, wanted))
  {
    hide Fetch;
    var found := Fetch(rows, RowKey, wanted);
    forall i, j | 0 <= i < j < |found| && found[i].key == found[j].key
      ensures found[i] == found[j]
    {
      FetchExactly(rows, RowKey, wanted, found[i]);
      FetchExactly(rows, RowKey, wanted, found[j]);
    }
  }

  lemma ChildrenFindRows<T>(rows: seq<Row>, children: seq<Child<T>>, wanted: multiset<Key>)
    requires ChildrenHaveRows(rows, children)
    ensures ChildrenHaveRows(Fetch(rows, RowKey, wanted), Fetch(children, ChildKey, wanted))
  {
    hide Fetch;
    var found, foundRows := Fetch(children, ChildKey, wanted), Fetch(rows, RowKey, wanted);
    forall c | 0 <= c < |found|
      ensures HasRow(foundRows, found[c].key)
    {
      FetchExactly(children, ChildKey, wanted, found[c]);
      var d :| 0 <= d < |children| && children[d] == found[c];
      assert HasRow(rows, children[d].key);
      var i :| 0 <= i < |rows| && rows[i].key == children[d].key;
      FetchExactly(rows, RowKey, wanted, rows[i]);
      var j :| 0 <= j < |foundRows| && foundRows[j] == rows[i];
      assert foundRows[j].key == found[c].key;
    }
  }

  /** No object version that is wanted is redacted and still has children. */
  ghost predicate NoRedactedOwner<T>(rows: seq<Row>, children: seq<Child<T>>, wanted: multiset<Key>) {
    forall i :: 0 <= i < |rows| && rows[i].redacted && rows[i].key in wanted ==> !Owns(rows[i], children)
  }

  /** A wanted row finds children if and only if it has some in the table. */
  lemma OwnsFetched<T>(rows: seq<Row>, children: seq<Child<T>>, wanted: multiset<Key>, row: Row)
    requires row in Fetch(rows, RowKey, wanted)
    ensures row in rows && row.key in wanted
    ensures Owns(row, Fetch(children, ChildKey, wanted)) <==> Owns(row, children)
  {
    FetchExactly(rows, RowKey, wanted, row);
    hide Fetch;
    var found := Fetch(children, ChildKey, wanted);
    if Owns(row, found) {
      var c :| 0 <= c < |found| && found[c].key == row.key;
      FetchExactly(children, ChildKey, wanted, found[c]);
    }
    if Owns(row, children) {
      var c :| 0 <= c < |children| && children[c].key == row.key;
      FetchExactly(children, ChildKey, wanted, children[c]);
    }
  }

  /** The condition for the clean merge join, in terms of tables and work list. */
  lemma CleanQueries<T>(rows: seq<Row>, children: seq<Child<T>>, wanted: multiset<Key>)
    requires RowsStrictlySorted(rows) && TableOk(rows, children) && Distinct(wanted)
    ensures Clean(Fetch(rows, RowKey, wanted), Fetch(children, ChildKey, wanted))
            <==> NoRedactedOwner(rows, children, wanted)
  {
    FetchStrictlySorted(rows, RowKey, wanted);
    FetchSorted(children, ChildKey, wanted);
    ChildrenFindRows(rows, children, wanted);
    hide Fetch, ChildrenHaveRows;
    var found, foundRows := Fetch(children, ChildKey, wanted), Fetch(rows, RowKey, wanted);
    forall row | row in foundRows
      ensures Owns(row, found) <==> Owns(row, children)
    {
      OwnsFetched(rows, children, wanted, row);
    }
    if NoRedactedOwner(rows, children, wanted) {
      forall i | 0 <= i < |foundRows| && foundRows[i].redacted
        ensures !Owns(foundRows[i], found)
      {
        FetchExactly(rows, RowKey, wanted, foundRows[i]);
      }
    }
    if Clean(foundRows, found) {
      forall i | 0 <= i < |rows| && rows[i].redacted && rows[i].key in wanted
        ensures !Owns(rows[i], children)
      {
        FetchExactly(rows, RowKey, wanted, rows[i]);
      }
    }
  }

  /** A nested loop over the fetched children is one over the whole child tables. */
  lemma {:induction false} NestedLoopOnTables(
      rows: seq<Row>, users: map<nat, UserInfo>, tags: seq<Child<Tag>>, refs: seq<Child<Ref>>, wanted: multiset<Key>)
    requires UsersKnown(rows, users) && Distinct(wanted)
    requires forall i :: 0 <= i < |rows| ==> rows[i].key in wanted
    ensures NestedLoop(rows, users, Fetch(tags, ChildKey, wanted), Fetch(refs, ChildKey, wanted))
            == NestedLoop(rows, users, tags, refs)
  {
    hide Owned, Fetch, Distinct;
    if rows != [] {
      var last := |rows| - 1;
      assert forall i :: 0 <= i < last ==> rows[..last][i] == rows[i];
      NestedLoopOnTables(rows[..last], users, tags, refs, wanted);
      FetchOwned(tags, wanted, rows[last].key);
      FetchOwned(refs, wanted, rows[last].key);
    }
  }

  /** A wanted redacted row with children, and behind it a wanted row that should get children. */
  ghost predicate Blocks<T>(rows: seq<Row>, children: seq<Child<T>>, wanted: multiset<Key>, a: nat, b: nat) {
    && a < b < |rows| && rows[a].key in wanted && rows[b].key in wanted
    && rows[a].redacted && Owns(rows[a], children) && !rows[b].redacted && Owns(rows[b], children)
  }

  /** No wanted version with children has a key behind that of a wanted redacted version with children. */
  ghost predicate NoneBlocked<T>(rows: seq<Row>, children: seq<Child<T>>, wanted: multiset<Key>) {
    forall a: nat, b: nat :: !Blocks(rows, children, wanted, a, b)
  }

  lemma RowIndex(rows: seq<Row>, row: Row) returns (i: nat)
    requires row in rows
    ensures i < |rows| && rows[i] == row
  {
    i :| i < |rows| && rows[i] == row;
  }

  /** Behind a redacted row with children nothing is attached. */
  lemma BlockedRow<T>(rows: seq<Row>, children: seq<Child<T>>, wanted: multiset<Key>, a: nat, b: nat) returns (i: nat)
    requires RowsStrictlySorted(rows) && Distinct(wanted) && Blocks(rows, children, wanted, a, b)
    ensures var found := Fetch(rows, RowKey, wanted);
            i < |found| && !found[i].redacted && !Served(found, Fetch(children, ChildKey, wanted), i)
  {
    FetchExactly(rows, RowKey, wanted, rows[a]);
    FetchExactly(rows, RowKey, wanted, rows[b]);
    FetchStrictlySorted(rows, RowKey, wanted);
    hide Fetch, Distinct;
    var found := Fetch(rows, RowKey, wanted);
    OwnsFetched(rows, children, wanted, rows[a]);
    OwnsFetched(rows, children, wanted, rows[b]);
    var j := RowIndex(found, rows[a]);
    i := RowIndex(found, rows[b]);
    assert KeyLess(found[j].key, found[i].key);
    hide Owns;
    assert j < i;
  }

  /** And that is the only reason. */
  lemma UnservedRow<T>(rows: seq<Row>, children: seq<Child<T>>, wanted: multiset<Key>, i: nat) returns (a: nat, b: nat)
    requires RowsStrictlySorted(rows) && Distinct(wanted)
    requires i < |Fetch(rows, RowKey, wanted)| && !Fetch(rows, RowKey, wanted)[i].redacted
    requires !Served(Fetch(rows, RowKey, wanted), Fetch(children, ChildKey, wanted), i)
    ensures Blocks(rows, children, wanted, a, b)
  {
    FetchStrictlySorted(rows, RowKey, wanted);
    hide Fetch, Distinct;
    var found, fetched := Fetch(rows, RowKey, wanted), Fetch(children, ChildKey, wanted);
    var j: nat :| j < i && Owns(found[j], fetched) && (found[j].redacted || found[j].key == found[i].key);
    OwnsFetched(rows, children, wanted, found[i]);
    OwnsFetched(rows, children, wanted, found[j]);
    a := RowIndex(rows, found[j]);
    b := RowIndex(rows, found[i]);
    assert KeyLess(rows[a].key, rows[b].key);
    hide Owns;
    assert a < b;
  }

  /** When all rows found get what they own, in terms of tables and work list. */
  lemma AllServedExactly<T>(rows: seq<Row>, children: seq<Child<T>>, wanted: multiset<Key>)
    requires RowsStrictlySorted(rows) && Distinct(wanted)
    ensures var found := Fetch(rows, RowKey, wanted);
            (forall i :: 0 <= i < |found| && !found[i].redacted ==> Served(found, Fetch(children, ChildKey, wanted), i))
            <==> NoneBlocked(rows, children, wanted)
  {
    hide Fetch, Distinct, Served, RowsStrictlySorted, Blocks;
    var found := Fetch(rows, RowKey, wanted);
    if NoneBlocked(rows, children, wanted) {
      forall i: nat | i < |found| && !found[i].redacted
        ensures Served(found, Fetch(children, ChildKey, wanted), i)
      {
        if !Served(found, Fetch(children, ChildKey, wanted), i) {
          var a, b := UnservedRow(rows, children, wanted, i);
        }
      }
    } else {
      var a: nat, b: nat :| Blocks(rows, children, wanted, a, b);
      var i := BlockedRow(rows, children, wanted, a, b);
    }
  }

  /**
   When no key is wanted twice: the objects written are the wanted ones that are not redacted, each with
   all its children in the tables, if and only if no wanted redacted version with tags has a wanted
   version with tags behind it, and the same for way nodes or members.
   */
  lemma WrittenExactly(
      rows: seq<Row>, users: map<nat, UserInfo>, tags: seq<Child<Tag>>, refs: seq<Child<Ref>>, wanted: multiset<Key>)
    requires RowsStrictlySorted(rows) && TableOk(rows, tags) && TableOk(rows, refs) && Distinct(wanted)
    requires UsersKnown(Fetch(rows, RowKey, wanted), users)
    ensures var found := Fetch(rows, RowKey, wanted);
            && RowsStrictlySorted(found)
            && (Emitted(found, users, Fetch(tags, ChildKey, wanted), Fetch(refs, ChildKey, wanted), |found|)
                == NestedLoop(found, users, tags, refs)
                <==> NoneBlocked(rows, tags, wanted) && NoneBlocked(rows, refs, wanted))
  {
    var found := Fetch(rows, RowKey, wanted);
    FetchStrictlySorted(rows, RowKey, wanted);
    hide Fetch, Distinct, NoneBlocked, TableOk, Emitted, NestedLoop, Served, JoinInput;
    QueriesFeedJoin(rows, tags, wanted);
    QueriesFeedJoin(rows, refs, wanted);
    MergeJoinIsNestedLoopExactly(found, users, Fetch(tags, ChildKey, wanted), Fetch(refs, ChildKey, wanted));
    AllServedExactly(rows, tags, wanted);
    AllServedExactly(rows, refs, wanted);
    forall i | 0 <= i < |found|
      ensures found[i].key in wanted
    {
      FetchExactly(rows, RowKey, wanted, found[i]);
    }
    NestedLoopOnTables(found, users, tags, refs, wanted);
  }

  lemma FetchCons<T>(x: T, rest: seq<T>, keyOf: T -> Key, wanted: multiset<Key>)
    ensures Fetch([x] + rest, keyOf, wanted) == Copies(x, wanted[keyOf(x)]) + Fetch(rest, keyOf, wanted)
  {
    assert ([x] + rest)[1..] == rest;
  }

  /** The work lists are in the order of the queries. */
  lemma WorkListInKeyOrder(objs: seq<OsmObj>, todo: seq<OsmObj>, kind: ItemType)
    requires Sorting.IsSortOf(todo, OfKind(objs, kind), KeyOf)
    ensures SortedBy(WantedKeys(todo), k => k)
  {
    forall i, j | 0 <= i < j < |todo|
      ensures KeyUpTo(WantedKeys(todo)[i], WantedKeys(todo)[j])
    {
      InKind(objs, kind, todo[i]);
      InKind(objs, kind, todo[j]);
      assert todo[i] in multiset(todo) && todo[j] in multiset(todo);
      assert !Sorting.Before(Sorting.Keys(todo, KeyOf)[j], Sorting.Keys(todo, KeyOf)[i]);
    }
  }

  /** Whatever is wanted: each row of the table, in order, as often as its key is wanted. */
  lemma {:induction false} FetchPiece<T>(a: seq<T>, x: T, b: seq<T>, keyOf: T -> Key, wanted: multiset<Key>)
    ensures Fetch(a + ([x] + b), keyOf, wanted)
            == Fetch(a, keyOf, wanted) + (Copies(x, wanted[keyOf(x)]) + Fetch(b, keyOf, wanted))
  {
    hide Copies;
    FetchCons(x, b, keyOf, wanted);
    if a == [] {
      assert a + ([x] + b) == [x] + b;
    } else {
      FetchPiece(a[1..], x, b, keyOf, wanted);
      FetchCons(a[0], a[1..], keyOf, wanted);
      FetchCons(a[0], a[1..] + ([x] + b), keyOf, wanted);
      assert a == [a[0]] + a[1..] && a + ([x] + b) == [a[0]] + (a[1..] + ([x] + b));
      Regroup(Copies(a[0], wanted[keyOf(a[0])]), Fetch(a[1..], keyOf, wanted),
              Copies(x, wanted[keyOf(x)]) + Fetch(b, keyOf, wanted));
    }
  }

  /** The objects of one type that a diff is meant to hold, in terms of the tables. */
  lemma {:induction false} MeantToHold(
      table: seq<Row>, users: map<nat, UserInfo>, tags: seq<Child<Tag>>, refs: seq<Child<Ref>>, objs: seq<OsmObj>,
      o: Object)
    requires UsersKnown(Found(table, objs), users)
    ensures o in NestedLoop(Found(table, objs), users, tags, refs)
            <==> exists row :: && row in table && row.key in Wanted(objs) && !row.redacted && IsObjectOf(o, row, users)
                               && o.tags == Owned(tags, row.key) && o.refs == Owned(refs, row.key)
  {
    hide Fetch, Wanted, Owned, IsObjectOf, NestedLoop, UsersKnown;
    var found := Found(table, objs);
    NestedLoopHolds(found, users, tags, refs, o);
    forall row
      ensures row in found <==> row in table && row.key in Wanted(objs)
    {
      FetchExactly(table, RowKey, Wanted(objs), row);
    }
    if o in NestedLoop(found, users, tags, refs) {
      var i :| 0 <= i < |found| && !found[i].redacted && IsObjectOf(o, found[i], users)
               && o.tags == Owned(tags, found[i].key) && o.refs == Owned(refs, found[i].key);
      assert found[i] in found;
    }
    if row :| && row in table && row.key in Wanted(objs) && !row.redacted && IsObjectOf(o, row, users)
              && o.tags == Owned(tags, row.key) && o.refs == Owned(refs, row.key) {
      var i :| 0 <= i < |found| && found[i] == row;
    }
  }

  // --- The three loops -------------------------------------------------------------------------------------

  /** The change file: its nodes, ways and relations. */
  datatype Change = Change(nodes: seq<Object>, ways: seq<Object>, relations: seq<Object>)

  /** What the merge joins make of the queries for the three work lists. */
  function WrittenChange(
      db: Database, users: map<nat, UserInfo>, nodes: seq<OsmObj>, ways: seq<OsmObj>, relations: seq<OsmObj>): Change
    requires AllUsersKnown(db, users, nodes, ways, relations)
  {
    Change(Emitted(Found(db.nodes, nodes), users, Fetch(db.nodeTags, ChildKey, Wanted(nodes)), [],
                   |Found(db.nodes, nodes)|),
           Emitted(Found(db.ways, ways), users, Fetch(db.wayTags, ChildKey, Wanted(ways)),
                   Fetch(db.wayNodes, ChildKey, Wanted(ways)), |Found(db.ways, ways)|),
           Emitted(Found(db.relations, relations), users, Fetch(db.relationTags, ChildKey, Wanted(relations)),
                   Fetch(db.members, ChildKey, Wanted(relations)), |Found(db.relations, relations)|))
  }

  ghost predicate AllUsersKnown(
      db: Database, users: map<nat, UserInfo>, nodes: seq<OsmObj>, ways: seq<OsmObj>, relations: seq<OsmObj>)
  {
    && UsersKnown(Found(db.nodes, nodes), users) && UsersKnown(Found(db.ways, ways), users)
    && UsersKnown(Found(db.relations, relations), users)
  }

  /** What a diff is meant to hold: each row found, unless redacted, with all its children in the tables. */
  function CompleteChange(
      db: Database, users: map<nat, UserInfo>, nodes: seq<OsmObj>, ways: seq<OsmObj>, relations: seq<OsmObj>): Change
    requires AllUsersKnown(db, users, nodes, ways, relations)
  {
    Change(NestedLoop(Found(db.nodes, nodes), users, db.nodeTags, []),
           NestedLoop(Found(db.ways, ways), users, db.wayTags, db.wayNodes),
           NestedLoop(Found(db.relations, relations), users, db.relationTags, db.members))
  }

  /** The same for the three work lists and all five child tables. */
  ghost predicate NothingBlocked(db: Database, nodes: seq<OsmObj>, ways: seq<OsmObj>, relations: seq<OsmObj>) {
    && NoneBlocked(db.nodes, db.nodeTags, Wanted(nodes))
    && NoneBlocked(db.ways, db.wayTags, Wanted(ways)) && NoneBlocked(db.ways, db.wayNodes, Wanted(ways))
    && NoneBlocked(db.relations, db.relationTags, Wanted(relations))
    && NoneBlocked(db.relations, db.members, Wanted(relations))
  }

  /**
   With the primary and foreign keys of the database and distinct wanted keys, the three merge joins
   write the complete change file if and only if no wanted redacted version with children has a wanted
   version with children of that kind behind it.
   */
  lemma WrittenIsComplete(
      db: Database, users: map<nat, UserInfo>, nodes: seq<OsmObj>, ways: seq<OsmObj>, relations: seq<OsmObj>)
    requires KeysHold(db) && AllUsersKnown(db, users, nodes, ways, relations)
    requires Distinct(Wanted(nodes)) && Distinct(Wanted(ways)) && Distinct(Wanted(relations))
    ensures WrittenChange(db, users, nodes, ways, relations) == CompleteChange(db, users, nodes, ways, relations)
            <==> NothingBlocked(db, nodes, ways, relations)
  {
    hide Fetch, Wanted, Distinct, NoneBlocked, TableOk, UsersKnown, Emitted, NestedLoop, RowsStrictlySorted;
    NodesHaveNoRefs(db.nodes, Wanted(nodes));
    NothingFetched(nodes);
    WrittenExactly(db.nodes, users, db.nodeTags, [], Wanted(nodes));
    WrittenExactly(db.ways, users, db.wayTags, db.wayNodes, Wanted(ways));
    WrittenExactly(db.relations, users, db.relationTags, db.members, Wanted(relations));
  }

  lemma NodesHaveNoRefs(rows: seq<Row>, wanted: multiset<Key>)
    ensures TableOk<Ref>(rows, []) && NoneBlocked<Ref>(rows, [], wanted)
  {
  }

  function Wanted(objs: seq<OsmObj>): multiset<Key> {
    multiset(WantedKeys(objs))
  }

  function Found(table: seq<Row>, objs: seq<OsmObj>): seq<Row> {
    Fetch(table, RowKey, Wanted(objs))
  }

  lemma {:induction false} NothingWanted<T>(table: seq<T>, keyOf: T -> Key)
    ensures Fetch(table, keyOf, multiset{}) == []
  {
    if table != [] {
      NothingWanted(table[1..], keyOf);
    }
  }

  lemma NoObjects(
      table: seq<Row>, users: map<nat, UserInfo>, tags: seq<Child<Tag>>, refs: seq<Child<Ref>>, start: Timestamp)
    ensures Found(table, []) == [] && UsersKnown([], users) && IsLatest(start, [], start)
    ensures Emitted([], users, Fetch(tags, ChildKey, Wanted([])), Fetch(refs, ChildKey, Wanted([])), 0) == []
  {
    assert WantedKeys([]) == [];
    assert Wanted([]) == multiset{};
    NothingWanted(table, RowKey);
    NothingWanted(tags, ChildKey);
    NothingWanted(refs, ChildKey);
  }

  /** Taking the maximum over one list and then over the next is taking it over both. */
  lemma LatestConcat(start: Timestamp, a: seq<Row>, mid: Timestamp, b: seq<Row>, end: Timestamp)
    requires IsLatest(start, a, mid) && IsLatest(mid, b, end)
    ensures IsLatest(start, a + b, end)
  {
    hide Ticks;
    assert forall i :: 0 <= i < |b| ==> (a + b)[|a| + i] == b[i];
    assert forall i :: 0 <= i < |a| ==> (a + b)[i] == a[i];
  }

  /** The latest time stamp is the one it started from if and only if no row is later. */
  lemma LatestIsStartExactly(start: Timestamp, rows: seq<Row>, max: Timestamp)
    requires IsLatest(start, rows, max)
    ensures max != start <==> exists i :: 0 <= i < |rows| && Later(rows[i].timestamp, start)
  {
    hide Ticks;
    if max != start && forall i :: 0 <= i < |rows| ==> !Later(rows[i].timestamp, start) {
      TicksInjective(max, start);
    }
  }

  /** The latest time stamp does not depend on the order of the rows. */
  lemma LatestOrderIndependent(start: Timestamp, rows: seq<Row>, others: seq<Row>, a: Timestamp, b: Timestamp)
    requires multiset(rows) == multiset(others) && IsLatest(start, rows, a) && IsLatest(start, others, b)
    ensures a == b
  {
    hide Ticks;
    forall i | 0 <= i < |rows|
      ensures !Later(rows[i].timestamp, b)
    {
      assert rows[i] in multiset(others);
    }
    forall i | 0 <= i < |others|
      ensures !Later(others[i].timestamp, a)
    {
      assert others[i] in multiset(rows);
    }
    assert Ticks(a) == Ticks(b);
    TicksInjective(a, b);
  }

  /**
   The part of `app` that makes the change file. Its time stamp is the latest of all rows fetched,
   those of redacted versions included; a type without wanted objects is not asked for.
   */
  method WriteChange(
      db: Database, users: map<nat, UserInfo>, nodes: seq<OsmObj>, ways: seq<OsmObj>, relations: seq<OsmObj>)
    returns (change: Change, max: Timestamp, missing: Option<nat>)
    ensures missing == None <==> AllUsersKnown(db, users, nodes, ways, relations)
    ensures missing == None ==>
              IsLatest(EPOCH, Found(db.nodes, nodes) + Found(db.ways, ways) + Found(db.relations, relations), max)
    ensures missing == None ==> change == WrittenChange(db, users, nodes, ways, relations)
  {
    hide Fetch, Wanted, Emitted, IsLatest, UsersKnown;
    change, max, missing := Change([], [], []), EPOCH, None;
    var objects: seq<Object>;
    NoObjects(db.nodes, users, db.nodeTags, [], EPOCH);
    NothingFetched(nodes);
    if nodes != [] {
      objects, max, missing := ProcessNodes(Found(db.nodes, nodes), users, Fetch(db.nodeTags, ChildKey, Wanted(nodes)), max);
      if missing.Some? {
        return;
      }
      change := change.(nodes := objects);
    }
    ghost var afterNodes := max;
    NoObjects(db.ways, users, db.wayTags, db.wayNodes, max);
    if ways != [] {
      objects, max, missing := ProcessParents(Found(db.ways, ways), users, Fetch(db.wayTags, ChildKey, Wanted(ways)),
                                              Fetch(db.wayNodes, ChildKey, Wanted(ways)), max);
      if missing.Some? {
        return;
      }
      change := change.(ways := objects);
    }
    LatestConcat(EPOCH, Found(db.nodes, nodes), afterNodes, Found(db.ways, ways), max);
    ghost var afterWays := max;
    NoObjects(db.relations, users, db.relationTags, db.members, max);
    if relations != [] {
      objects, max, missing := ProcessParents(Found(db.relations, relations), users,
                                              Fetch(db.relationTags, ChildKey, Wanted(relations)),
                                              Fetch(db.members, ChildKey, Wanted(relations)), max);
      if missing.Some? {
        return;
      }
      change := change.(relations := objects);
    }
    LatestConcat(EPOCH, Found(db.nodes, nodes) + Found(db.ways, ways), afterWays, Found(db.relations, relations), max);
  }

  /** A wanted version is in the table, and its time stamp is later than the epoch. */
  ghost predicate FindsLater(table: seq<Row>, objs: seq<OsmObj>) {
    exists row :: row in table && row.key in Wanted(objs) && Later(row.timestamp, EPOCH)
  }

  lemma FoundLater(table: seq<Row>, objs: seq<OsmObj>)
    ensures FindsLater(table, objs) <==> exists row :: row in Found(table, objs) && Later(row.timestamp, EPOCH)
  {
    hide Fetch, Wanted;
    forall row
      ensures row in Found(table, objs) <==> row in table && row.key in Wanted(objs)
    {
      FetchExactly(table, RowKey, Wanted(objs), row);
    }
  }

  /** The time stamp that `WriteChange` finds is not the epoch if and only if some wanted version is later than that. */
  lemma TimestampSetExactly(
      db: Database, nodes: seq<OsmObj>, ways: seq<OsmObj>, relations: seq<OsmObj>, max: Timestamp)
    requires IsLatest(EPOCH, Found(db.nodes, nodes) + Found(db.ways, ways) + Found(db.relations, relations), max)
    ensures max != EPOCH
            <==> FindsLater(db.nodes, nodes) || FindsLater(db.ways, ways) || FindsLater(db.relations, relations)
  {
    FoundLater(db.nodes, nodes);
    FoundLater(db.ways, ways);
    FoundLater(db.relations, relations);
    hide Fetch, Wanted, FindsLater, Later, IsLatest;
    var rows := Found(db.nodes, nodes) + Found(db.ways, ways) + Found(db.relations, relations);
    LatestIsStartExactly(EPOCH, rows, max);
    assert forall row :: row in rows <==>
                           || row in Found(db.nodes, nodes) || row in Found(db.ways, ways)
                           || row in Found(db.relations, relations);
    assert (exists i :: 0 <= i < |rows| && Later(rows[i].timestamp, EPOCH))
           <==> exists row :: row in rows && Later(row.timestamp, EPOCH);
  }

  lemma NothingFetched(objs: seq<OsmObj>)
    ensures Fetch<Child<Ref>>([], ChildKey, Wanted(objs)) == []
  {
  }
}
