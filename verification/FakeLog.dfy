/**
 osmdbt-fake-log (src/osmdbt-fake-log.cpp): one log file per minute from the object tables, leaving
 out what is in the log files named on the command line.
 */
module FakeLog {
  import opened Wrappers
  import opened Text
  import opened Numbers
  import opened Sorting
  import opened OsmObjects
  import opened RoundTrip

  type Uint32 = n: nat | n < TWO_32

  /** A row of one of the three queries; `time` is the minute, in seconds since the epoch. */
  datatype DbRow = DbRow(time: int, id: Int64, version: Uint32, cid: Uint32)

  /** `log_entry` */
  datatype Entry = Entry(time: int, kind: ItemType, id: Int64, version: Uint32, cid: Uint32)

  function EntryLine(e: Entry): string {
    "0/0 0 N " + [TypeChar(e.kind)] + PrintSigned(e.id) + " v" + Print(e.version, 10) + " c" + Print(e.cid, 10)
  }

  function EntryLines(entries: seq<Entry>): (lines: seq<string>)
    ensures |lines| == |entries|
    ensures forall i :: 0 <= i < |entries| ==> lines[i] == EntryLine(entries[i])
  {
    seq(|entries|, i requires 0 <= i < |entries| => EntryLine(entries[i]))
  }

  /** The key that `operator<` compares. */
  function EntryKey(e: Entry): SortKey {
    SortKey(e.time, match e.kind case Node => 1 case Way => 2 case Relation => 3, e.id, e.version)
  }

  // --- What is done already ------------------------------------------------------------------------------

  /** `objects_done`: ids and versions by type. */
  datatype Done = Done(nodes: set<(int, nat)>, ways: set<(int, nat)>, relations: set<(int, nat)>) {
    function Of(kind: ItemType): set<(int, nat)> {
      match kind
      case Node => nodes
      case Way => ways
      case Relation => relations
    }
  }

  function KeysOf(objs: seq<OsmObj>, kind: ItemType): set<(int, nat)> {
    set o | o in objs && o.kind == kind :: (o.id, o.version)
  }

  /** All objects in a list of logs, up to the first one that cannot be read. */
  function ParseAll(texts: seq<string>): Result<seq<OsmObj>, LogError> {
    if texts == [] then Success([])
    else
      match ParseLog(Lines(texts[0]))
      case Failure(e) => Failure(e)
      case Success(first) =>
        match ParseAll(texts[1..])
        case Failure(e) => Failure(e)
        case Success(rest) => Success(first + rest)
  }

  lemma {:induction false} ParseAllConcat(a: seq<string>, b: seq<string>)
    ensures ParseAll(a).Success? && ParseAll(b).Success? ==> ParseAll(a + b) == Success(ParseAll(a).value + ParseAll(b).value)
    ensures ParseAll(a).Failure? ==> ParseAll(a + b) == ParseAll(a)
    ensures ParseAll(a).Success? && ParseAll(b).Failure? ==> ParseAll(a + b) == ParseAll(b)
  {
    hide ParseLog, Lines;
    if a == [] {
      assert a + b == b;
      if ParseAll(b).Success? {
        assert [] + ParseAll(b).value == ParseAll(b).value;
      }
    } else {
      ParseAllConcat(a[1..], b);
      assert (a + b)[0] == a[0] && (a + b)[1..] == a[1..] + b;
      if ParseAll(a).Success? && ParseAll(b).Success? {
        var first, rest := ParseLog(Lines(a[0])).value, ParseAll(a[1..]).value;
        assert first + (rest + ParseAll(b).value) == first + rest + ParseAll(b).value;
      }
    }
  }

  lemma ParseOneText(text: string)
    ensures ParseAll([text]) == ParseLog(Lines(text))
  {
    hide ParseLog, Lines;
    assert [text][1..] == [];
    if ParseLog(Lines(text)).Success? {
      assert ParseLog(Lines(text)).value + [] == ParseLog(Lines(text)).value;
    }
  }

  lemma KindIsIn(objs: seq<OsmObj>, kind: ItemType)
    ensures (set o | o in OfKind(objs, kind) :: (o.id, o.version)) == KeysOf(objs, kind)
  {
    forall o
      ensures o in OfKind(objs, kind) <==> o in objs && o.kind == kind
    {
      InKind(objs, kind, o);
    }
  }

  ghost predicate DoneIs(done: Done, objs: seq<OsmObj>) {
    forall kind :: done.Of(kind) == KeysOf(objs, kind)
  }

  /** The keys in one of the lists that `read_log` fills. */
  function ListKeys(objs: seq<OsmObj>): set<(int, nat)> {
    set o | o in objs :: (o.id, o.version)
  }

  lemma MoreKeys(objs: seq<OsmObj>, more: seq<OsmObj>, kind: ItemType)
    ensures KeysOf(objs + more, kind) == KeysOf(objs, kind) + ListKeys(OfKind(more, kind))
  {
    hide OfKind;
    KindIsIn(more, kind);
    assert KeysOf(objs + more, kind) == KeysOf(objs, kind) + KeysOf(more, kind);
  }

  lemma MoreDone(
      done: Done, objs: seq<OsmObj>, more: seq<OsmObj>, nodes: seq<OsmObj>, ways: seq<OsmObj>, relations: seq<OsmObj>)
    requires DoneIs(done, objs)
    requires nodes == OfKind(more, Node) && ways == OfKind(more, Way) && relations == OfKind(more, Relation)
    ensures DoneIs(Done(done.nodes + ListKeys(nodes), done.ways + ListKeys(ways), done.relations + ListKeys(relations)),
                   objs + more)
  {
    hide OfKind, KeysOf, ListKeys;
    MoreKeys(objs, more, Node);
    MoreKeys(objs, more, Way);
    MoreKeys(objs, more, Relation);
    assert done.Of(Node) == KeysOf(objs, Node) && done.Of(Way) == KeysOf(objs, Way)
        && done.Of(Relation) == KeysOf(objs, Relation);
  }

  /** `read_log_files` */
  method ReadLogFiles(texts: seq<string>) returns (done: Done, error: Option<LogError>)
    ensures match ParseAll(texts)
            case Success(objs) => error == None && DoneIs(done, objs)
            case Failure(e) => error == Some(e)
  {
    hide ParseLog, Lines, OfKind, ParseAll, DoneIs, ListKeys;
    done := Done({}, {}, {});
    ghost var objs: seq<OsmObj> := [];
    NothingParsed();
    for i := 0 to |texts|
      invariant ParseAll(texts[..i]) == Success(objs)
      invariant DoneIs(done, objs)
    {
      var objects := new ObjectLists();
      error := ReadLog(objects, texts[i], null);
      ParseOneText(texts[i]);
      ParseAllConcat(texts[..i], [texts[i]]);
      assert texts[..i + 1] == texts[..i] + [texts[i]];
      if error.Some? {
        ParseAllConcat(texts[..i + 1], texts[i + 1..]);
        assert texts == texts[..i + 1] + texts[i + 1..];
        return;
      }
      ghost var more := ParseLog(Lines(texts[i])).value;
      assert [] + OfKind(more, Node) == OfKind(more, Node) && [] + OfKind(more, Way) == OfKind(more, Way)
          && [] + OfKind(more, Relation) == OfKind(more, Relation);
      MoreDone(done, objs, more, objects.nodes, objects.ways, objects.relations);
      done := Done(done.nodes + ListKeys(objects.nodes), done.ways + ListKeys(objects.ways),
                   done.relations + ListKeys(objects.relations));
      objs := objs + more;
    }
    assert texts[..|texts|] == texts;
    return done, None;
  }

  lemma NothingParsed()
    ensures ParseAll([]) == Success([]) && DoneIs(Done({}, {}, {}), [])
  {
  }

  // --- The entries to write -------------------------------------------------------------------------------

  function EntryOf(row: DbRow, kind: ItemType): Entry {
    Entry(row.time, kind, row.id, row.version, row.cid)
  }

  /** The rows that are not done yet. */
  function Fresh(rows: seq<DbRow>, kind: ItemType, done: set<(int, nat)>): seq<Entry> {
    if rows == [] then []
    else if (rows[0].id as int, rows[0].version as nat) in done then Fresh(rows[1..], kind, done)
    else [EntryOf(rows[0], kind)] + Fresh(rows[1..], kind, done)
  }

  lemma {:induction false} FreshConcat(a: seq<DbRow>, b: seq<DbRow>, kind: ItemType, done: set<(int, nat)>)
    ensures Fresh(a + b, kind, done) == Fresh(a, kind, done) + Fresh(b, kind, done)
  {
    if a == [] {
      assert a + b == b;
    } else {
      assert (a + b)[1..] == a[1..] + b;
      FreshConcat(a[1..], b, kind, done);
    }
  }

  /** The entry says what the row says. */
  predicate IsEntryOf(e: Entry, row: DbRow, kind: ItemType) {
    e.time == row.time && e.kind == kind && e.id == row.id && e.version == row.version && e.cid == row.cid
  }

  predicate IsDone(row: DbRow, done: set<(int, nat)>) {
    (row.id as int, row.version as nat) in done
  }

  /** The positions of the first `n` rows that are not done, in order. */
  ghost predicate NotDone(rows: seq<DbRow>, done: set<(int, nat)>, n: nat, at: seq<nat>)
    requires n <= |rows|
  {
    && (forall k :: 0 <= k < |at| ==> at[k] < n)
    && (forall j, k :: 0 <= j < k < |at| ==> at[j] < at[k])
    && forall i: nat :: i < n ==> (i in at <==> !IsDone(rows[i], done))
  }

  /** One entry for each of these rows. */
  ghost predicate EntriesFor(rows: seq<DbRow>, kind: ItemType, entries: seq<Entry>, at: seq<nat>) {
    && |entries| == |at|
    && forall k :: 0 <= k < |at| ==> at[k] < |rows| && IsEntryOf(entries[k], rows[at[k]], kind)
  }

  lemma NotDoneNext(rows: seq<DbRow>, done: set<(int, nat)>, n: nat, at: seq<nat>)
    requires n < |rows| && NotDone(rows, done, n, at)
    ensures NotDone(rows, done, n + 1, if IsDone(rows[n], done) then at else at + [n])
  {
    hide IsDone;
    var next := if IsDone(rows[n], done) then at else at + [n];
    forall i: nat | i < n + 1
      ensures i in next <==> !IsDone(rows[i], done)
    {
      assert i in at ==> i < n;
    }
  }

  lemma FreshNext(rows: seq<DbRow>, kind: ItemType, done: set<(int, nat)>, n: nat)
    requires n < |rows|
    ensures Fresh(rows[..n + 1], kind, done)
            == Fresh(rows[..n], kind, done) + if IsDone(rows[n], done) then [] else [EntryOf(rows[n], kind)]
  {
    assert rows[..n + 1] == rows[..n] + [rows[n]];
    FreshConcat(rows[..n], [rows[n]], kind, done);
    assert [rows[n]][1..] == [];
  }

  lemma EntriesNext(rows: seq<DbRow>, kind: ItemType, entries: seq<Entry>, at: seq<nat>, n: nat)
    requires n < |rows| && EntriesFor(rows, kind, entries, at)
    ensures EntriesFor(rows, kind, entries + [EntryOf(rows[n], kind)], at + [n])
  {
    assert IsEntryOf(EntryOf(rows[n], kind), rows[n], kind);
    hide IsEntryOf, EntryOf;
  }

  /** The k-th entry belongs to the k-th row that is not done. */
  lemma {:induction false} FreshRows(rows: seq<DbRow>, kind: ItemType, done: set<(int, nat)>, n: nat)
    returns (at: seq<nat>)
    requires n <= |rows|
    ensures NotDone(rows, done, n, at) && EntriesFor(rows, kind, Fresh(rows[..n], kind, done), at)
  {
    hide Fresh, NotDone, IsDone, EntriesFor, EntryOf;
    if n == 0 {
      at := [];
      NoRowsYet(rows, kind, done);
    } else {
      at := FreshRows(rows, kind, done, n - 1);
      NotDoneNext(rows, done, n - 1, at);
      FreshNext(rows, kind, done, n - 1);
      if IsDone(rows[n - 1], done) {
        assert Fresh(rows[..n], kind, done) == Fresh(rows[..n - 1], kind, done);
      } else {
        EntriesNext(rows, kind, Fresh(rows[..n - 1], kind, done), at, n - 1);
        at := at + [n - 1];
      }
    }
  }

  lemma NoRowsYet(rows: seq<DbRow>, kind: ItemType, done: set<(int, nat)>)
    ensures NotDone(rows, done, 0, []) && EntriesFor(rows, kind, Fresh(rows[..0], kind, done), [])
  {
  }

  /** `read_objects` */
  method ReadObjects(entries: seq<Entry>, rows: seq<DbRow>, kind: ItemType, done: set<(int, nat)>)
    returns (more: seq<Entry>)
    ensures more == entries + Fresh(rows, kind, done)
    ensures |more| >= |entries| && more[..|entries|] == entries
    ensures exists at :: NotDone(rows, done, |rows|, at) && EntriesFor(rows, kind, more[|entries|..], at)
  {
    hide Fresh, EntryOf, NotDone, EntriesFor;
    more := entries;
    NoneFresh(kind, done);
    assert rows[..0] == [];
    for i := 0 to |rows|
      invariant more == entries + Fresh(rows[..i], kind, done)
    {
      FreshNext(rows, kind, done, i);
      if (rows[i].id as int, rows[i].version as nat) !in done {
        more := more + [EntryOf(rows[i], kind)];
      }
    }
    assert rows[..|rows|] == rows;
    ghost var at := FreshRows(rows, kind, done, |rows|);
    assert more[|entries|..] == Fresh(rows, kind, done);
  }

  lemma NoneFresh(kind: ItemType, done: set<(int, nat)>)
    ensures Fresh([], kind, done) == []
  {
  }

  /** The tables, from the given time on. */
  datatype Tables = Tables(nodes: seq<DbRow>, ways: seq<DbRow>, relations: seq<DbRow>) {
    function Of(kind: ItemType): seq<DbRow> {
      match kind
      case Node => nodes
      case Way => ways
      case Relation => relations
    }
  }

  function AllFresh(tables: Tables, done: Done): seq<Entry> {
    Fresh(tables.nodes, Node, done.nodes) + Fresh(tables.ways, Way, done.ways)
    + Fresh(tables.relations, Relation, done.relations)
  }

  /** The object version of the row is named in the logs. */
  predicate IsLogged(objs: seq<OsmObj>, row: DbRow, kind: ItemType) {
    exists i :: 0 <= i < |objs| && objs[i].kind == kind && objs[i].id == row.id && objs[i].version == row.version
  }

  /** One entry for each row that is not named in the logs, in order. */
  ghost predicate NewEntries(rows: seq<DbRow>, kind: ItemType, objs: seq<OsmObj>, entries: seq<Entry>, at: seq<nat>) {
    && (forall j, k :: 0 <= j < k < |at| ==> at[j] < at[k])
    && EntriesFor(rows, kind, entries, at)
    && forall i: nat :: i < |rows| ==> (i in at <==> !IsLogged(objs, rows[i], kind))
  }

  ghost predicate HasNewEntries(rows: seq<DbRow>, kind: ItemType, objs: seq<OsmObj>, entries: seq<Entry>) {
    exists at :: NewEntries(rows, kind, objs, entries, at)
  }

  lemma DoneIsLogged(done: Done, objs: seq<OsmObj>, row: DbRow, kind: ItemType)
    requires DoneIs(done, objs)
    ensures IsDone(row, done.Of(kind)) <==> IsLogged(objs, row, kind)
  {
    assert done.Of(kind) == KeysOf(objs, kind);
    if IsLogged(objs, row, kind) {
      var i :| 0 <= i < |objs| && objs[i].kind == kind && objs[i].id == row.id && objs[i].version == row.version;
      assert objs[i] in objs;
    }
    if IsDone(row, done.Of(kind)) {
      var o :| o in objs && o.kind == kind && o.id == row.id && o.version == row.version;
      var i :| 0 <= i < |objs| && objs[i] == o;
    }
  }

  lemma FreshIsNew(tables: Tables, kind: ItemType, done: Done, objs: seq<OsmObj>)
    requires DoneIs(done, objs)
    ensures HasNewEntries(tables.Of(kind), kind, objs, Fresh(tables.Of(kind), kind, done.Of(kind)))
  {
    var rows := tables.Of(kind);
    var at := FreshRows(rows, kind, done.Of(kind), |rows|);
    assert rows[..|rows|] == rows;
    hide Fresh, DoneIs, IsLogged, IsDone, EntriesFor;
    forall i: nat | i < |rows|
      ensures i in at <==> !IsLogged(objs, rows[i], kind)
    {
      DoneIsLogged(done, objs, rows[i], kind);
    }
    assert NewEntries(rows, kind, objs, Fresh(rows, kind, done.Of(kind)), at);
  }

  /** Before in time, then by type in the order node, way, relation, then by id, then by version. */
  predicate EntryBefore(a: Entry, b: Entry) {
    || a.time < b.time
    || (a.time == b.time && ((a.kind == Node && b.kind != Node) || (a.kind == Way && b.kind == Relation)))
    || (a.time == b.time && a.kind == b.kind && (a.id < b.id || (a.id == b.id && a.version < b.version)))
  }

  lemma EntryOrder(a: Entry, b: Entry)
    ensures EntryBefore(a, b) <==> Before(EntryKey(a), EntryKey(b))
  {
  }

  /** The new entries of the three tables, in order. */
  ghost predicate SortsNew(sorted: seq<Entry>, tables: Tables, objs: seq<OsmObj>) {
    && (exists nodes, ways, relations ::
          && HasNewEntries(tables.nodes, Node, objs, nodes) && HasNewEntries(tables.ways, Way, objs, ways)
          && HasNewEntries(tables.relations, Relation, objs, relations)
          && multiset(sorted) == multiset(nodes + ways + relations))
    && forall i, j :: 0 <= i < j < |sorted| ==> !EntryBefore(sorted[j], sorted[i])
  }

  lemma SortOfFresh(sorted: seq<Entry>, tables: Tables, done: Done, objs: seq<OsmObj>)
    requires DoneIs(done, objs) && IsSortOf(sorted, AllFresh(tables, done), EntryKey)
    ensures SortsNew(sorted, tables, objs)
  {
    hide Fresh, DoneIs, HasNewEntries, EntryBefore, Before;
    FreshIsNew(tables, Node, done, objs);
    FreshIsNew(tables, Way, done, objs);
    FreshIsNew(tables, Relation, done, objs);
    var nodes, ways, relations :=
      Fresh(tables.nodes, Node, done.nodes), Fresh(tables.ways, Way, done.ways),
      Fresh(tables.relations, Relation, done.relations);
    assert multiset(sorted) == multiset(nodes + ways + relations);
    forall i, j | 0 <= i < j < |sorted|
      ensures !EntryBefore(sorted[j], sorted[i])
    {
      assert !Before(Keys(sorted, EntryKey)[j], Keys(sorted, EntryKey)[i]);
      EntryOrder(sorted[j], sorted[i]);
    }
  }

  // --- One file per minute -----------------------------------------------------------------------------------

  /** A log file written: its name and its entries; the text is one line for each. */
  datatype File = File(name: string, entries: seq<Entry>) {
    function Data(): string {
      Unlines(EntryLines(entries))
    }
  }

  /** The local variables of the loop: `last`, `file_name`, `data`, and the files written so far. */
  datatype Writing = Writing(last: int, name: string, chunk: seq<Entry>, files: seq<File>)

  const NOTHING := Writing(0, "", [], [])

  function WriteEntry(w: Writing, e: Entry, nameOf: int -> string): Writing {
    if w.last == e.time then w.(chunk := w.chunk + [e])
    else if w.last != 0 then Writing(e.time, nameOf(e.time), [e], w.files + [File(w.name, w.chunk)])
    else Writing(e.time, nameOf(e.time), w.chunk + [e], w.files)
  }

  function WriteEntries(w: Writing, entries: seq<Entry>, nameOf: int -> string): Writing
    decreases |entries|
  {
    if entries == [] then w else WriteEntries(WriteEntry(w, entries[0], nameOf), entries[1..], nameOf)
  }

  function Finish(w: Writing): seq<File> {
    w.files + [File(w.name, w.chunk)]
  }

  /** The files that the loop leaves for a sorted list of entries. */
  function Written(entries: seq<Entry>, nameOf: int -> string): seq<File> {
    Finish(WriteEntries(NOTHING, entries, nameOf))
  }

  /** A file as a directory shows it. */
  datatype TextFile = TextFile(name: string, text: string)

  function Texts(files: seq<File>): (texts: seq<TextFile>)
    ensures |texts| == |files|
    ensures forall i :: 0 <= i < |files| ==> texts[i] == TextFile(files[i].name, files[i].Data())
  {
    seq(|files|, i requires 0 <= i < |files| => TextFile(files[i].name, files[i].Data()))
  }

  lemma AppendedLine(entries: seq<Entry>, e: Entry)
    ensures Unlines(EntryLines(entries + [e])) == Unlines(EntryLines(entries)) + (EntryLine(e) + "\n")
  {
    hide EntryLine;
    var line := [EntryLine(e)];
    assert EntryLines(entries + [e]) == EntryLines(entries) + line;
    UnlinesConcat(EntryLines(entries), line);
    assert line[1..] == [];
    assert Unlines(line) == EntryLine(e) + "\n" + "";
  }

  lemma NoLines()
    ensures Unlines(EntryLines([])) == ""
  {
  }

  /** The grouping loop and the last write. */
  method WriteLogs(entries: seq<Entry>, nameOf: int -> string) returns (files: seq<TextFile>)
    ensures files == Texts(Written(entries, nameOf))
  {
    hide EntryLine, EntryLines, Unlines;
    files := [];
    NoLines();
    var last := 0;
    var name, data := "", "";
    ghost var w := NOTHING;
    for i := 0 to |entries|
      invariant WriteEntries(NOTHING, entries, nameOf) == WriteEntries(w, entries[i..], nameOf)
      invariant last == w.last && name == w.name && data == Unlines(EntryLines(w.chunk)) && files == Texts(w.files)
    {
      var e := entries[i];
      ghost var before := w;
      w := WriteEntry(w, e, nameOf);
      AppendedLine(before.chunk, e);
      AppendedLine([], e);
      assert [] + [e] == [e];
      if last != e.time {
        if last != 0 {
          files := files + [TextFile(name, data)];
          data := "";
        }
        name := nameOf(e.time);
        last := e.time;
      }
      data := data + (EntryLine(e) + "\n");
    }
    files := files + [TextFile(name, data)];
  }

  lemma SortedEmpty(entries: seq<Entry>)
    ensures Sorted(entries, EntryKey) == [] <==> entries == []
  {
    SortedIsSort(entries, EntryKey);
    assert |multiset(entries)| == |entries|;
    assert |multiset(Sorted(entries, EntryKey))| == |Sorted(entries, EntryKey)|;
  }

  // --- Runs of entries of the same minute -------------------------------------------------------------------

  function RunLength(entries: seq<Entry>, time: int): (n: nat)
    ensures n <= |entries|
    ensures forall i :: 0 <= i < n ==> entries[i].time == time
    ensures n < |entries| ==> entries[n].time != time
  {
    if entries != [] && entries[0].time == time then 1 + RunLength(entries[1..], time) else 0
  }

  /** The entries of one minute. */
  datatype Minute = Minute(time: int, entries: seq<Entry>)

  function Minutes(entries: seq<Entry>): (minutes: seq<Minute>)
    decreases |entries|
  {
    if entries == [] then []
    else
      var n := RunLength(entries, entries[0].time);
      [Minute(entries[0].time, entries[..n])] + Minutes(entries[n..])
  }

  function Flatten(minutes: seq<Minute>): seq<Entry> {
    if minutes == [] then [] else minutes[0].entries + Flatten(minutes[1..])
  }

  ghost predicate SortedByTime(entries: seq<Entry>) {
    forall i, j :: 0 <= i < j < |entries| ==> entries[i].time <= entries[j].time
  }

  predicate IsMinute(m: Minute) {
    m.entries != [] && forall e :: e in m.entries ==> e.time == m.time
  }

  /** Each minute once, in increasing order, with at least one entry of its own and no other entry. */
  ghost predicate IncreasingMinutes(minutes: seq<Minute>) {
    && (forall k :: 0 <= k < |minutes| ==> IsMinute(minutes[k]))
    && forall j, k :: 0 <= j < k < |minutes| ==> minutes[j].time < minutes[k].time
  }

  /** The minutes partition the entries: nothing is lost, repeated or reordered. */
  lemma {:induction false} MinutesPartition(entries: seq<Entry>)
    requires SortedByTime(entries)
    ensures Flatten(Minutes(entries)) == entries && IncreasingMinutes(Minutes(entries))
    decreases |entries|
  {
    hide SortedByTime, RunLength, IncreasingMinutes, IsMinute, Flatten;
    if entries == [] {
      NothingToPartition();
    } else {
      FirstRun(entries);
      var n := RunLength(entries, entries[0].time);
      MinutesPartition(entries[n..]);
      OneMoreMinute(entries, n, Minutes(entries[n..]));
    }
  }

  lemma NothingToPartition()
    ensures Flatten([]) == [] && IncreasingMinutes([])
  {
  }

  lemma OneMoreMinute(entries: seq<Entry>, n: nat, later: seq<Minute>)
    requires entries != [] && n <= |entries| && IsMinute(Minute(entries[0].time, entries[..n]))
    requires forall i :: 0 <= i < |entries[n..]| ==> entries[n..][i].time > entries[0].time
    requires Flatten(later) == entries[n..] && IncreasingMinutes(later)
    ensures var minutes := [Minute(entries[0].time, entries[..n])] + later;
            Flatten(minutes) == entries && IncreasingMinutes(minutes)
  {
    LaterMinutes(later, entries[n..], entries[0].time);
    FirstMinute(Minute(entries[0].time, entries[..n]), later);
    hide IsMinute, IncreasingMinutes, Flatten;
    assert entries == entries[..n] + entries[n..];
  }

  /** The first run of equal times is a minute, and the entries behind it are later. */
  lemma {:induction false} FirstRun(entries: seq<Entry>)
    requires SortedByTime(entries) && entries != []
    ensures var n := RunLength(entries, entries[0].time);
            && n > 0 && IsMinute(Minute(entries[0].time, entries[..n])) && SortedByTime(entries[n..])
            && forall i :: 0 <= i < |entries[n..]| ==> entries[n..][i].time > entries[0].time
  {
    var n := RunLength(entries, entries[0].time);
    if n < |entries| {
      assert entries[n].time > entries[0].time;
    }
  }

  lemma {:induction false} FirstMinute(first: Minute, rest: seq<Minute>)
    requires IsMinute(first) && IncreasingMinutes(rest)
    requires forall k :: 0 <= k < |rest| ==> rest[k].time > first.time
    ensures IncreasingMinutes([first] + rest) && Flatten([first] + rest) == first.entries + Flatten(rest)
  {
    hide IsMinute;
    assert ([first] + rest)[1..] == rest;
  }

  lemma {:induction false} LaterMinutes(minutes: seq<Minute>, entries: seq<Entry>, time: int)
    requires Flatten(minutes) == entries && IncreasingMinutes(minutes)
    requires forall i :: 0 <= i < |entries| ==> entries[i].time > time
    ensures forall k :: 0 <= k < |minutes| ==> minutes[k].time > time
  {
    forall k | 0 <= k < |minutes|
      ensures minutes[k].time > time
    {
      assert IsMinute(minutes[k]);
      InFlatten(minutes, k, minutes[k].entries[0]);
    }
  }

  /** Each entry is in the minute of its time. */
  lemma {:induction false} EntryInMinute(minutes: seq<Minute>, e: Entry) returns (k: nat)
    requires IncreasingMinutes(minutes) && e in Flatten(minutes)
    ensures k < |minutes| && e in minutes[k].entries && minutes[k].time == e.time
  {
    if e in minutes[0].entries {
      k := 0;
    } else {
      k := EntryInMinute(minutes[1..], e);
      k := k + 1;
    }
    assert IsMinute(minutes[k]);
  }

  lemma {:induction false} InFlatten(minutes: seq<Minute>, k: nat, e: Entry)
    requires k < |minutes| && e in minutes[k].entries
    ensures e in Flatten(minutes)
  {
    if k > 0 {
      InFlatten(minutes[1..], k - 1, e);
    }
  }

  // --- The loop, minute by minute ------------------------------------------------------------------------------

  lemma {:induction false} SameMinute(w: Writing, run: seq<Entry>, rest: seq<Entry>, nameOf: int -> string)
    requires forall e :: e in run ==> e.time == w.last
    ensures WriteEntries(w, run + rest, nameOf) == WriteEntries(w.(chunk := w.chunk + run), rest, nameOf)
    decreases |run|
  {
    if run == [] {
      assert run + rest == rest && w.chunk + run == w.chunk;
    } else {
      assert (run + rest)[0] == run[0] && (run + rest)[1..] == run[1..] + rest;
      var w' := WriteEntry(w, run[0], nameOf);
      SameMinute(w', run[1..], rest, nameOf);
      assert w.chunk + [run[0]] + run[1..] == w.chunk + run;
    }
  }

  /** What the loop does with all entries of a minute it is not at yet. */
  function WriteMinute(w: Writing, m: Minute, nameOf: int -> string): Writing {
    if w.last != 0 then Writing(m.time, nameOf(m.time), m.entries, w.files + [File(w.name, w.chunk)])
    else Writing(m.time, nameOf(m.time), w.chunk + m.entries, w.files)
  }

  lemma NewMinute(w: Writing, m: Minute, rest: seq<Entry>, nameOf: int -> string)
    requires IsMinute(m) && m.time != w.last
    ensures WriteEntries(w, m.entries + rest, nameOf) == WriteEntries(WriteMinute(w, m, nameOf), rest, nameOf)
  {
    var first, others := m.entries[0], m.entries[1..];
    assert m.entries == [first] + others;
    assert (m.entries + rest)[0] == first && (m.entries + rest)[1..] == others + rest;
    var w' := WriteEntry(w, first, nameOf);
    SameMinute(w', others, rest, nameOf);
    assert w.chunk + [first] + others == w.chunk + m.entries;
  }

  function WriteMinutes(w: Writing, minutes: seq<Minute>, nameOf: int -> string): Writing
    decreases |minutes|
  {
    if minutes == [] then w else WriteMinutes(WriteMinute(w, minutes[0], nameOf), minutes[1..], nameOf)
  }

  predicate ConsecutiveMinutes(last: int, minutes: seq<Minute>) {
    && (forall k :: 0 <= k < |minutes| ==> IsMinute(minutes[k]))
    && (minutes != [] ==> minutes[0].time != last)
    && (forall k :: 0 <= k < |minutes| - 1 ==> minutes[k].time != minutes[k + 1].time)
  }

  lemma {:induction false} MinuteByMinute(w: Writing, minutes: seq<Minute>, nameOf: int -> string)
    requires ConsecutiveMinutes(w.last, minutes)
    ensures WriteEntries(w, Flatten(minutes), nameOf) == WriteMinutes(w, minutes, nameOf)
    decreases |minutes|
  {
    hide WriteEntries, WriteMinute;
    if minutes == [] {
      NoEntries(w, nameOf);
    } else {
      NewMinute(w, minutes[0], Flatten(minutes[1..]), nameOf);
      LastOfMinute(w, minutes[0], nameOf);
      MinuteByMinute(WriteMinute(w, minutes[0], nameOf), minutes[1..], nameOf);
    }
  }

  lemma NoEntries(w: Writing, nameOf: int -> string)
    ensures WriteEntries(w, [], nameOf) == w
  {
  }

  lemma LastOfMinute(w: Writing, m: Minute, nameOf: int -> string)
    ensures WriteMinute(w, m, nameOf).last == m.time
  {
  }

  /** The intended result: one file per minute, named after it, with its entries. */
  function FilePerMinute(minutes: seq<Minute>, nameOf: int -> string): (files: seq<File>)
    ensures |files| == |minutes|
    ensures forall k :: 0 <= k < |minutes| ==> files[k] == File(nameOf(minutes[k].time), minutes[k].entries)
  {
    seq(|minutes|, k requires 0 <= k < |minutes| => File(nameOf(minutes[k].time), minutes[k].entries))
  }

  /** No minute but the last is time 0, the value that the loop starts with. */
  predicate ZeroOnlyLast(minutes: seq<Minute>) {
    forall k :: 0 <= k < |minutes| - 1 ==> minutes[k].time != 0
  }

  lemma NoMinutes(nameOf: int -> string)
    ensures FilePerMinute([], nameOf) == []
  {
  }

  lemma FilePerMinuteCons(minutes: seq<Minute>, nameOf: int -> string)
    requires minutes != []
    ensures FilePerMinute(minutes, nameOf)
            == [File(nameOf(minutes[0].time), minutes[0].entries)] + FilePerMinute(minutes[1..], nameOf)
  {
  }

  lemma {:induction false} FilesOfMinutes(w: Writing, minutes: seq<Minute>, nameOf: int -> string)
    requires w.last != 0 && ZeroOnlyLast(minutes)
    ensures Finish(WriteMinutes(w, minutes, nameOf))
            == w.files + [File(w.name, w.chunk)] + FilePerMinute(minutes, nameOf)
    decreases |minutes|
  {
    hide FilePerMinute;
    NoMinutes(nameOf);
    if minutes == [] {
      assert Finish(w) + [] == Finish(w);
    } else {
      var w' := WriteMinute(w, minutes[0], nameOf);
      var rest := FilePerMinute(minutes[1..], nameOf);
      FilePerMinuteCons(minutes, nameOf);
      RestOfMinutes(w', minutes, nameOf);
      assert Finish(w) + [File(w'.name, w'.chunk)] + rest == Finish(w) + ([File(w'.name, w'.chunk)] + rest);
    }
  }

  lemma {:induction false} RestOfMinutes(w: Writing, minutes: seq<Minute>, nameOf: int -> string)
    requires minutes != [] && w.last == minutes[0].time && ZeroOnlyLast(minutes)
    ensures Finish(WriteMinutes(w, minutes[1..], nameOf)) == Finish(w) + FilePerMinute(minutes[1..], nameOf)
    decreases |minutes|, 0
  {
    hide FilePerMinute, WriteMinutes, Finish;
    NoMinutes(nameOf);
    if minutes[0].time != 0 {
      FilesOfMinutes(w, minutes[1..], nameOf);
      FinishIs(w);
    } else {
      assert minutes[1..] == [];
      NoMoreMinutes(w, nameOf);
      assert Finish(w) + [] == Finish(w);
    }
  }

  lemma FinishIs(w: Writing)
    ensures Finish(w) == w.files + [File(w.name, w.chunk)]
  {
  }

  lemma NoMoreMinutes(w: Writing, nameOf: int -> string)
    ensures WriteMinutes(w, [], nameOf) == w
  {
  }

  /** A minute at time 0 that is not the last one costs a file. */
  lemma {:induction false} ZeroCostsFile(w: Writing, minutes: seq<Minute>, nameOf: int -> string)
    ensures var n := |Finish(WriteMinutes(w, minutes, nameOf))|;
            && n <= |w.files| + 1 + |minutes|
            && ((w.last == 0 && minutes != []) || !ZeroOnlyLast(minutes) ==> n <= |w.files| + |minutes|)
            && (w.last == 0 && minutes != [] && !ZeroOnlyLast(minutes) ==> n < |w.files| + |minutes|)
    decreases |minutes|
  {
    if minutes != [] {
      var w' := WriteMinute(w, minutes[0], nameOf);
      ZeroCostsFile(w', minutes[1..], nameOf);
      if !ZeroOnlyLast(minutes) && minutes[0].time != 0 {
        var k :| 0 <= k < |minutes| - 1 && minutes[k].time == 0;
        assert minutes[1..][k - 1].time == 0;
      }
    }
  }

  /** There is no entry at time 0, or there are older entries and no newer ones. */
  predicate ZeroIsHarmless(entries: seq<Entry>) {
    || (forall i :: 0 <= i < |entries| ==> entries[i].time != 0)
    || (entries != [] && entries[0].time < 0 && entries[|entries| - 1].time == 0)
  }

  /**
   Exactly when the loop writes one file per distinct minute, with a name, holding the entries of
   that minute: if and only if time 0 does not get in the way of the initial value of `last`.
   */
  lemma {:induction false} OneFilePerMinuteExactly(entries: seq<Entry>, nameOf: int -> string)
    requires SortedByTime(entries) && entries != [] && forall t :: nameOf(t) != ""
    ensures Written(entries, nameOf) == FilePerMinute(Minutes(entries), nameOf) <==> ZeroIsHarmless(entries)
    ensures Texts(Written(entries, nameOf)) == Texts(FilePerMinute(Minutes(entries), nameOf)) <==> ZeroIsHarmless(entries)
  {
    hide Minutes, Written, Flatten, ZeroIsHarmless, ZeroOnlyLast, Texts;
    MinutesPartition(entries);
    var minutes := Minutes(entries);
    ZeroInMinutes(entries, minutes);
    if minutes[0].time != 0 {
      ZeroNotFirst(minutes, nameOf);
    } else {
      ZeroFirst(minutes, nameOf);
    }
  }

  lemma {:induction false} ZeroInMinutes(entries: seq<Entry>, minutes: seq<Minute>)
    requires SortedByTime(entries) && entries != [] && Flatten(minutes) == entries && IncreasingMinutes(minutes)
    ensures minutes != []
    ensures ZeroIsHarmless(entries) <==> minutes[0].time != 0 && ZeroOnlyLast(minutes)
  {
    assert minutes != [];
    assert IsMinute(minutes[0]);
    assert entries[0] == minutes[0].entries[0] && entries[0] in minutes[0].entries;
    LastEntry(minutes);
    if exists i :: 0 <= i < |entries| && entries[i].time == 0 {
      var i :| 0 <= i < |entries| && entries[i].time == 0;
      var k := EntryInMinute(minutes, entries[i]);
      assert k == |minutes| - 1 || minutes[k].time < minutes[|minutes| - 1].time;
    } else {
      forall k | 0 <= k < |minutes|
        ensures minutes[k].time != 0
      {
        assert IsMinute(minutes[k]);
        InFlatten(minutes, k, minutes[k].entries[0]);
      }
    }
  }

  lemma {:induction false} LastEntry(minutes: seq<Minute>)
    requires minutes != [] && forall k :: 0 <= k < |minutes| ==> IsMinute(minutes[k])
    ensures Flatten(minutes) != [] && Flatten(minutes)[|Flatten(minutes)| - 1].time == minutes[|minutes| - 1].time
  {
    if |minutes| > 1 {
      LastEntry(minutes[1..]);
    } else {
      assert IsMinute(minutes[0]);
      assert minutes[1..] == [];
      assert Flatten(minutes) == minutes[0].entries;
      assert minutes[0].entries[|minutes[0].entries| - 1] in minutes[0].entries;
    }
  }

  lemma {:induction false} ZeroNotFirst(minutes: seq<Minute>, nameOf: int -> string)
    requires IncreasingMinutes(minutes) && minutes != [] && minutes[0].time != 0
    ensures Written(Flatten(minutes), nameOf) == FilePerMinute(minutes, nameOf) <==> ZeroOnlyLast(minutes)
    ensures Texts(Written(Flatten(minutes), nameOf)) == Texts(FilePerMinute(minutes, nameOf)) <==> ZeroOnlyLast(minutes)
  {
    hide Flatten, WriteEntries;
    MinuteByMinute(NOTHING, minutes, nameOf);
    var w := WriteMinute(NOTHING, minutes[0], nameOf);
    assert [] + minutes[0].entries == minutes[0].entries;
    if ZeroOnlyLast(minutes) {
      FilesOfMinutes(w, minutes[1..], nameOf);
      FilePerMinuteCons(minutes, nameOf);
    } else {
      ZeroCostsFile(NOTHING, minutes, nameOf);
    }
  }

  /** Entries at time 0 in front: the first file has no name, or its entries end up in the next one. */
  lemma {:induction false} ZeroFirst(minutes: seq<Minute>, nameOf: int -> string)
    requires IncreasingMinutes(minutes) && minutes != [] && minutes[0].time == 0
    requires forall t :: nameOf(t) != ""
    ensures Texts(Written(Flatten(minutes), nameOf)) != Texts(FilePerMinute(minutes, nameOf))
  {
    hide WriteEntries;
    var w := NOTHING.(chunk := minutes[0].entries);
    assert IsMinute(minutes[0]);
    SameMinute(NOTHING, minutes[0].entries, Flatten(minutes[1..]), nameOf);
    assert [] + minutes[0].entries == minutes[0].entries;
    MinuteByMinute(w, minutes[1..], nameOf);
    if |minutes| > 1 {
      ZeroCostsFile(w, minutes[1..], nameOf);
    } else {
      assert minutes[1..] == [];
      assert Written(Flatten(minutes), nameOf)[0].name == "";
    }
  }

  /** `std::sort` puts the minutes in order. */
  lemma {:induction false} SortedEntries(sorted: seq<Entry>, entries: seq<Entry>)
    requires IsSortOf(sorted, entries, EntryKey)
    ensures SortedByTime(sorted)
  {
    var keys := Keys(sorted, EntryKey);
    forall i, j | 0 <= i < j < |sorted|
      ensures sorted[i].time <= sorted[j].time
    {
      assert !Before(keys[j], keys[i]);
    }
  }

  lemma AllFreshIs(entries: seq<Entry>, tables: Tables, done: Done)
    requires entries == [] + Fresh(tables.nodes, Node, done.Of(Node)) + Fresh(tables.ways, Way, done.Of(Way))
                        + Fresh(tables.relations, Relation, done.Of(Relation))
    ensures entries == AllFresh(tables, done)
  {
    hide Fresh;
  }

  lemma NothingToWrite(nameOf: int -> string)
    ensures Minutes([]) == [] && FilePerMinute([], nameOf) == [] && Texts([]) == [] && ZeroIsHarmless([])
  {
  }

  /**
   `app`: `nameOf` gives the log name for a minute. The rows that are not in the given logs, sorted,
   are partitioned into increasing minutes; the files are one for each minute, with its name and its
   entries, if and only if time 0 does not get in the way. Nothing is written when nothing is new.
   */
  method App(tables: Tables, logs: seq<string>, nameOf: int -> string)
    returns (files: seq<TextFile>, sorted: seq<Entry>, error: Option<LogError>)
    ensures error == None <==> ParseAll(logs).Success?
    ensures error == None ==>
              exists done: Done :: DoneIs(done, ParseAll(logs).value) && IsSortOf(sorted, AllFresh(tables, done), EntryKey)
    ensures error == None ==> SortsNew(sorted, tables, ParseAll(logs).value)
    ensures error == None ==> files == if sorted == [] then [] else Texts(Written(sorted, nameOf))
    ensures error == None ==> Flatten(Minutes(sorted)) == sorted && IncreasingMinutes(Minutes(sorted))
    ensures error == None && (forall t :: nameOf(t) != "") ==>
              (files == Texts(FilePerMinute(Minutes(sorted), nameOf)) <==> ZeroIsHarmless(sorted))
  {
    hide ParseAll, Fresh, Written, Texts, IsSortOf, Flatten, Minutes, IncreasingMinutes, ZeroIsHarmless, FilePerMinute,
         SortedByTime, AllFresh, DoneIs, SortsNew;
    files, sorted := [], [];
    var done;
    done, error := ReadLogFiles(logs);
    if error.Some? {
      return;
    }
    var entries := ReadObjects([], tables.nodes, Node, done.Of(Node));
    entries := ReadObjects(entries, tables.ways, Way, done.Of(Way));
    entries := ReadObjects(entries, tables.relations, Relation, done.Of(Relation));
    AllFreshIs(entries, tables, done);
    SortedIsSort(entries, EntryKey);
    sorted := Sorted(entries, EntryKey);
    SortedEmpty(entries);
    SortedEntries(sorted, entries);
    SortOfFresh(sorted, tables, done, ParseAll(logs).value);
    MinutesPartition(sorted);
    if entries == [] {
      NothingToWrite(nameOf);
      return;
    }
    files := WriteLogs(sorted, nameOf);
    if forall t :: nameOf(t) != "" {
      OneFilePerMinuteExactly(sorted, nameOf);
    }
  }

  // --- Nothing is left out, and a second run finds nothing ------------------------------------------------------

  function EntriesIn(files: seq<File>): seq<Entry> {
    if files == [] then [] else files[0].entries + EntriesIn(files[1..])
  }

  lemma {:induction false} EntriesInSnoc(files: seq<File>, f: File)
    ensures EntriesIn(files + [f]) == EntriesIn(files) + f.entries
  {
    if files == [] {
      assert files + [f] == [f] && [f][1..] == [];
      assert [] + f.entries == f.entries == f.entries + [];
    } else {
      EntriesInSnoc(files[1..], f);
      assert (files + [f])[0] == files[0] && (files + [f])[1..] == files[1..] + [f];
      assert files[0].entries + (EntriesIn(files[1..]) + f.entries) == EntriesIn(files) + f.entries;
    }
  }

  lemma {:induction false} EntriesKept(w: Writing, entries: seq<Entry>, nameOf: int -> string)
    ensures EntriesIn(Finish(WriteEntries(w, entries, nameOf))) == EntriesIn(w.files) + w.chunk + entries
    decreases |entries|
  {
    EntriesInSnoc(w.files, File(w.name, w.chunk));
    hide EntriesIn;
    if entries != [] {
      var w' := WriteEntry(w, entries[0], nameOf);
      EntriesKept(w', entries[1..], nameOf);
      assert EntriesIn(w'.files) + w'.chunk == EntriesIn(w.files) + w.chunk + [entries[0]];
      assert EntriesIn(w.files) + w.chunk + [entries[0]] + entries[1..] == EntriesIn(w.files) + w.chunk + entries;
    }
  }

  /** Whatever the times are: the files hold all entries, each once, in order. */
  lemma {:induction false} AllEntriesWritten(entries: seq<Entry>, nameOf: int -> string)
    ensures EntriesIn(Written(entries, nameOf)) == entries
  {
    hide WriteEntries;
    EntriesKept(NOTHING, entries, nameOf);
    assert EntriesIn([]) + [] + entries == entries;
  }

  function ObjectOf(e: Entry): OsmObj {
    OsmObj(e.kind, e.id, e.version, e.cid)
  }

  function ObjectsOf(entries: seq<Entry>): (objs: seq<OsmObj>)
    ensures |objs| == |entries|
    ensures forall i :: 0 <= i < |entries| ==> objs[i] == ObjectOf(entries[i])
  {
    seq(|entries|, i requires 0 <= i < |entries| => ObjectOf(entries[i]))
  }

  lemma SignedField(letter: char, n: Int64)
    requires letter != ' ' && letter != '\n'
    ensures var field := [letter] + PrintSigned(n); |field| >= 2 && FieldNumber(field) == n && Plain(field)
  {
    hide StrToLL, Print, Plain;
    StrToLLOfSigned([letter], n);
    SignedIsPlain(n);
    PlainCons(letter, PrintSigned(n));
  }

  lemma SignedIsPlain(n: int)
    ensures Plain(PrintSigned(n)) && PrintSigned(n) != ""
  {
    PrintIsPlain(if n < 0 then 0 - n else n, 10);
    hide Print;
  }

  /** An entry's line is read back as the entry's object version, negative ids included. */
  lemma EntryLineRead(e: Entry)
    ensures ParseLogLine(EntryLine(e)) == Success([ObjectOf(e)])
    ensures '\n' !in EntryLine(e)
  {
    hide ParseLogLine, PrintSigned, FieldNumber, Print;
    var obj, v, c := [TypeChar(e.kind)] + PrintSigned(e.id), "v" + PrintSigned(e.version), "c" + PrintSigned(e.cid);
    SignedField(TypeChar(e.kind), e.id);
    SignedField('v', e.version);
    SignedField('c', e.cid);
    EntryLineIs(e);
    assert "0/0" + " " + "0" + " " + ("N " + obj + " " + v + " " + c) == "0/0 0 N " + obj + " " + v + " " + c;
    hide EntryLine;
    NewLine("0/0", "0", obj, v, c);
  }

  lemma EntryLineIs(e: Entry)
    ensures EntryLine(e) == "0/0 0 N " + ([TypeChar(e.kind)] + PrintSigned(e.id)) + " " + ("v" + PrintSigned(e.version))
                            + " " + ("c" + PrintSigned(e.cid))
  {
    hide Print;
    assert " v" == " " + "v" && " c" == " " + "c";
  }

  lemma {:induction false} EntriesRead(entries: seq<Entry>)
    ensures ParseLog(EntryLines(entries)) == Success(ObjectsOf(entries))
    decreases |entries|
  {
    hide ParseLogLine, EntryLine;
    if entries != [] {
      EntryLineRead(entries[0]);
      EntriesRead(entries[1..]);
      assert EntryLines(entries)[1..] == EntryLines(entries[1..]);
      assert ObjectsOf(entries) == [ObjectOf(entries[0])] + ObjectsOf(entries[1..]);
    }
  }

  /** A file that was written is read back as its entries. */
  lemma FileRead(f: File)
    ensures ParseLog(Lines(f.Data())) == Success(ObjectsOf(f.entries))
  {
    hide ParseLog, Lines, EntryLine;
    forall l | l in EntryLines(f.entries)
      ensures '\n' !in l
    {
      var i :| 0 <= i < |f.entries| && EntryLines(f.entries)[i] == l;
      EntryLineRead(f.entries[i]);
    }
    LinesOfUnlines(EntryLines(f.entries));
    EntriesRead(f.entries);
  }

  function DataOf(files: seq<File>): (texts: seq<string>)
    ensures |texts| == |files|
    ensures forall i :: 0 <= i < |files| ==> texts[i] == files[i].Data()
  {
    seq(|files|, i requires 0 <= i < |files| => files[i].Data())
  }

  lemma ObjectsOfConcat(a: seq<Entry>, b: seq<Entry>)
    ensures ObjectsOf(a + b) == ObjectsOf(a) + ObjectsOf(b)
  {
    hide ObjectOf;
  }

  lemma {:induction false} FilesRead(files: seq<File>)
    ensures ParseAll(DataOf(files)) == Success(ObjectsOf(EntriesIn(files)))
    decreases |files|
  {
    hide ParseLog, Lines, Unlines, EntryLines, ObjectsOf;
    if files != [] {
      FileRead(files[0]);
      FilesRead(files[1..]);
      assert DataOf(files)[1..] == DataOf(files[1..]);
      ObjectsOfConcat(files[0].entries, EntriesIn(files[1..]));
    } else {
      assert ObjectsOf([]) == [];
    }
  }

  lemma {:induction false} FreshExactly(rows: seq<DbRow>, kind: ItemType, done: set<(int, nat)>)
    ensures forall row :: row in rows ==>
              (row.id as int, row.version as nat) in done || EntryOf(row, kind) in Fresh(rows, kind, done)
    ensures (forall row :: row in rows ==> (row.id as int, row.version as nat) in done) ==> Fresh(rows, kind, done) == []
  {
    if rows != [] {
      FreshExactly(rows[1..], kind, done);
      assert rows == [rows[0]] + rows[1..];
    }
  }

  /**
   A second run over the same rows that is also given the files of the first one finds nothing new,
   whatever the logs of the first run held.
   */
  lemma {:induction false} SecondRunFindsNothing(
      tables: Tables, logs: seq<string>, done: Done, sorted: seq<Entry>, nameOf: int -> string, again: Done)
    requires ParseAll(logs).Success? && DoneIs(done, ParseAll(logs).value)
    requires IsSortOf(sorted, AllFresh(tables, done), EntryKey)
    requires var all := logs + DataOf(Written(sorted, nameOf));
             ParseAll(all).Success? ==> DoneIs(again, ParseAll(all).value)
    ensures ParseAll(logs + DataOf(Written(sorted, nameOf))).Success?
    ensures AllFresh(tables, again) == []
  {
    hide ParseAll, Written, EntriesIn, Fresh;
    var files := Written(sorted, nameOf);
    FilesRead(files);
    AllEntriesWritten(sorted, nameOf);
    ParseAllConcat(logs, DataOf(files));
    var before, objs := ParseAll(logs).value, ObjectsOf(sorted);
    NothingFresh(tables, before, done, sorted, again, Node);
    NothingFresh(tables, before, done, sorted, again, Way);
    NothingFresh(tables, before, done, sorted, again, Relation);
  }

  lemma {:induction false} NothingFresh(
      tables: Tables, before: seq<OsmObj>, done: Done, sorted: seq<Entry>, again: Done, kind: ItemType)
    requires DoneIs(done, before) && DoneIs(again, before + ObjectsOf(sorted))
    requires IsSortOf(sorted, AllFresh(tables, done), EntryKey)
    ensures Fresh(tables.Of(kind), kind, again.Of(kind)) == []
  {
    hide Fresh, Keys;
    FreshExactly(tables.Of(kind), kind, done.Of(kind));
    FreshExactly(tables.Of(kind), kind, again.Of(kind));
    var rows, objs := tables.Of(kind), ObjectsOf(sorted);
    forall row | row in rows
      ensures (row.id as int, row.version as nat) in again.Of(kind)
    {
      if (row.id as int, row.version as nat) in done.Of(kind) {
        var o :| o in before && o.kind == kind && o.id == row.id && o.version == row.version;
        assert o in before + objs;
      } else {
        var e := EntryOf(row, kind);
        assert e in AllFresh(tables, done);
        assert e in multiset(sorted);
        var i :| 0 <= i < |sorted| && sorted[i] == e;
        assert objs[i] == ObjectOf(e);
        assert objs[i] in before + objs;
      }
    }
  }
}
