/**
 Object versions named in a log, and reading them from a log file (src/osmobj.cpp, src/osmobj.hpp).
 */
module OsmObjects {
  import opened Wrappers
  import opened Text
  import opened Numbers
  import opened Sorting

  datatype ItemType = Node | Way | Relation

  /** One version of one object: a 64-bit id, a 32-bit version, and a 32-bit changeset id. */
  datatype OsmObj = OsmObj(kind: ItemType, id: int, version: nat, cid: nat)

  datatype LogError = EntryTooShort | BadType | ExpectedVersion | ExpectedChangeset

  function TypeChar(kind: ItemType): char {
    match kind
    case Node => 'n'
    case Way => 'w'
    case Relation => 'r'
  }

  function CharToItemType(c: char): Option<ItemType> {
    if c == 'n' then Some(Node) else if c == 'w' then Some(Way) else if c == 'r' then Some(Relation) else None
  }

  /** The number behind the first character of a field. */
  function FieldNumber(field: string): int
    requires |field| >= 2
  {
    StrToLL(field, 1, 10).value
  }

  /** The `osmobj` constructor; `%` is the conversion to the 32-bit unsigned members. */
  function ParseObj(obj: string, version: string, changeset: string): Result<OsmObj, LogError> {
    if |obj| < 2 || |version| < 2 || |changeset| < 2 then Failure(EntryTooShort)
    else if CharToItemType(obj[0]) == None then Failure(BadType)
    else if version[0] != 'v' then Failure(ExpectedVersion)
    else if changeset[0] != 'c' then Failure(ExpectedChangeset)
    else
      Success(OsmObj(CharToItemType(obj[0]).value, FieldNumber(obj),
                     FieldNumber(version) % TWO_32, FieldNumber(changeset) % TWO_32))
  }

  /** What one line of a log file adds: nothing, one object, or an exception. */
  function ParseLogLine(line: string): Result<seq<OsmObj>, LogError> {
    var parts := SplitString(line, ' ');
    if |parts| < 3 || parts[2] != "N" || |parts| != 6 then Success([])
    else
      match ParseObj(parts[3], parts[4], parts[5])
      case Failure(e) => Failure(e)
      case Success(o) => Success([o])
  }

  function ParseLog(lines: seq<string>): Result<seq<OsmObj>, LogError>
    decreases |lines|
  {
    if lines == [] then Success([])
    else
      match ParseLogLine(lines[0])
      case Failure(e) => Failure(e)
      case Success(first) =>
        match ParseLog(lines[1..])
        case Failure(e) => Failure(e)
        case Success(rest) => Success(first + rest)
  }

  function OfKind(objs: seq<OsmObj>, kind: ItemType): seq<OsmObj> {
    if objs == [] then []
    else if objs[0].kind == kind then [objs[0]] + OfKind(objs[1..], kind)
    else OfKind(objs[1..], kind)
  }

  datatype UserInfo = UserInfo(id: nat, username: string)

  const NO_USER := UserInfo(0, "")

  function WithChangesets(users: map<nat, UserInfo>, objs: seq<OsmObj>): map<nat, UserInfo>
    decreases |objs|
  {
    if objs == [] then users else WithChangesets(users[objs[0].cid := NO_USER], objs[1..])
  }

  /** `changeset_user_lookup`, filled while logs are read and completed from the database afterwards. */
  class ChangesetCache {
    var users: map<nat, UserInfo>

    constructor ()
      ensures users == map[]
    {
      users := map[];
    }
  }

  /** The key that `operator<` compares; the changeset is no part of it. */
  function KeyOf(o: OsmObj): SortKey {
    SortKey(0, match o.kind case Node => 0 case Way => 1 case Relation => 2, o.id, o.version)
  }

  /** `osmobjects`: the object versions to be written, by type. */
  class ObjectLists {
    var nodes: seq<OsmObj>
    var ways: seq<OsmObj>
    var relations: seq<OsmObj>

    constructor ()
      ensures nodes == [] && ways == [] && relations == []
    {
      nodes, ways, relations := [], [], [];
    }

    function Size(): nat
      reads this
    {
      |nodes| + |ways| + |relations|
    }

    predicate Empty()
      reads this
    {
      nodes == [] && ways == [] && relations == []
    }

    /** The three lists are the lists before, followed by the given objects sorted by type. */
    twostate predicate Appended(objs: seq<OsmObj>)
      reads this
    {
      && nodes == old(nodes) + OfKind(objs, Node)
      && ways == old(ways) + OfKind(objs, Way)
      && relations == old(relations) + OfKind(objs, Relation)
    }

    method Add(obj: string, version: string, changeset: string, cucache: ChangesetCache?)
      returns (error: Option<LogError>)
      modifies this, cucache
      ensures match ParseObj(obj, version, changeset)
              case Success(o) =>
                error == None && Appended([o]) && (cucache != null ==> cucache.users == old(cucache.users)[o.cid := NO_USER])
              case Failure(e) =>
                error == Some(e) && unchanged(this) && (cucache != null ==> unchanged(cucache))
    {
      match ParseObj(obj, version, changeset)
      case Failure(e) =>
        return Some(e);
      case Success(o) =>
        if cucache != null {
          cucache.users := cucache.users[o.cid := NO_USER];
        }
        match o.kind {
          case Node => nodes := nodes + [o];
          case Way => ways := ways + [o];
          case Relation => relations := relations + [o];
        }
        assert forall kind :: OfKind([o], kind) == if o.kind == kind then [o] else [] by {
          assert [o][1..] == [];
        }
        return None;
    }

    /** `osmobjects::sort`: each list becomes some sorted permutation of itself. */
    method Sort()
      modifies this
      ensures IsSortOf(nodes, old(nodes), KeyOf)
      ensures IsSortOf(ways, old(ways), KeyOf)
      ensures IsSortOf(relations, old(relations), KeyOf)
    {
      SortedIsSort(nodes, KeyOf);
      SortedIsSort(ways, KeyOf);
      SortedIsSort(relations, KeyOf);
      nodes := Sorted(nodes, KeyOf);
      ways := Sorted(ways, KeyOf);
      relations := Sorted(relations, KeyOf);
    }
  }

  lemma {:induction false} OfKindConcat(a: seq<OsmObj>, b: seq<OsmObj>, kind: ItemType)
    ensures OfKind(a + b, kind) == OfKind(a, kind) + OfKind(b, kind)
  {
    if a == [] {
      assert a + b == b;
    } else {
      OfKindConcat(a[1..], b, kind);
      assert (a + b)[0] == a[0] && (a + b)[1..] == a[1..] + b;
      if a[0].kind == kind {
        assert [a[0]] + (OfKind(a[1..], kind) + OfKind(b, kind)) == [a[0]] + OfKind(a[1..], kind) + OfKind(b, kind);
      }
    }
  }

  lemma {:induction false} InKind(objs: seq<OsmObj>, kind: ItemType, o: OsmObj)
    ensures o in OfKind(objs, kind) <==> o in objs && o.kind == kind
  {
    if objs != [] {
      InKind(objs[1..], kind, o);
      assert objs == [objs[0]] + objs[1..];
    }
  }

  lemma {:induction false} WithChangesetsConcat(users: map<nat, UserInfo>, a: seq<OsmObj>, b: seq<OsmObj>)
    ensures WithChangesets(users, a + b) == WithChangesets(WithChangesets(users, a), b)
    decreases |a|
  {
    if a == [] {
      assert a + b == b;
    } else {
      WithChangesetsConcat(users[a[0].cid := NO_USER], a[1..], b);
      assert (a + b)[1..] == a[1..] + b;
    }
  }

  /** After reading, every changeset that an object names can be looked up, and nothing else was added. */
  lemma {:induction false} ChangesetsKnown(users: map<nat, UserInfo>, objs: seq<OsmObj>)
    ensures WithChangesets(users, objs).Keys == users.Keys + set o | o in objs :: o.cid
    decreases |objs|
  {
    if objs != [] {
      ChangesetsKnown(users[objs[0].cid := NO_USER], objs[1..]);
      assert objs == [objs[0]] + objs[1..];
    }
  }

  /** Changesets that the objects name have no user yet, also when they had one; others keep theirs. */
  lemma {:induction false} NoUserYet(users: map<nat, UserInfo>, objs: seq<OsmObj>, cid: nat)
    ensures (exists o :: o in objs && o.cid == cid) ==>
              cid in WithChangesets(users, objs) && WithChangesets(users, objs)[cid] == UserInfo(0, "")
    ensures (forall o :: o in objs ==> o.cid != cid) && cid in users ==>
              cid in WithChangesets(users, objs) && WithChangesets(users, objs)[cid] == users[cid]
    decreases |objs|
  {
    if objs != [] {
      var next := users[objs[0].cid := NO_USER];
      NoUserYet(next, objs[1..], cid);
      assert objs == [objs[0]] + objs[1..];
      if objs[0].cid == cid && forall o :: o in objs[1..] ==> o.cid != cid {
        assert WithChangesets(next, objs[1..])[cid] == next[cid];
      }
    }
  }

  lemma {:induction false} ParseLogConcat(a: seq<string>, b: seq<string>)
    requires ParseLog(a).Success?
    ensures ParseLog(b).Success? ==> ParseLog(a + b) == Success(ParseLog(a).value + ParseLog(b).value)
    ensures ParseLog(b).Failure? ==> ParseLog(a + b) == ParseLog(b)
    decreases |a|
  {
    hide ParseLogLine;
    if a == [] {
      assert a + b == b;
      if ParseLog(b).Success? {
        assert [] + ParseLog(b).value == ParseLog(b).value;
      }
    } else {
      ParseLogConcat(a[1..], b);
      assert (a + b)[1..] == a[1..] + b;
      if ParseLog(b).Success? {
        var first, rest := ParseLogLine(a[0]).value, ParseLog(a[1..]).value;
        assert ParseLog(a + b) == Success(first + (rest + ParseLog(b).value));
        assert first + (rest + ParseLog(b).value) == first + rest + ParseLog(b).value;
      }
    }
  }

  lemma ParseOneLine(line: string)
    ensures ParseLog([line]) == ParseLogLine(line)
  {
    hide ParseLogLine;
    assert [line][1..] == [];
    if ParseLogLine(line).Success? {
      assert ParseLogLine(line).value + [] == ParseLogLine(line).value;
    }
  }

  lemma {:induction false} ParseLogPrefixFails(a: seq<string>, b: seq<string>)
    requires ParseLog(a).Failure?
    ensures ParseLog(a + b) == Failure(ParseLog(a).error)
    decreases |a|
  {
    hide ParseLogLine;
    if a != [] {
      assert (a + b)[1..] == a[1..] + b;
      if ParseLogLine(a[0]).Success? {
        ParseLogPrefixFails(a[1..], b);
      }
    }
  }

  /**
   `read_log`: the objects of all lines are appended to the lists by type and their changesets
   are entered into the cache; the first malformed entry ends it with an exception.
   */
  method ReadLog(todo: ObjectLists, text: string, cucache: ChangesetCache?) returns (error: Option<LogError>)
    modifies todo, cucache
    ensures match ParseLog(Lines(text))
            case Success(objs) =>
              && error == None && todo.Appended(objs)
              && (cucache != null ==> cucache.users == WithChangesets(old(cucache.users), objs))
            case Failure(e) => error == Some(e)
  {
    hide ParseObj, Split, OfKind, WithChangesets;
    var lines := Lines(text);
    ghost var objs: seq<OsmObj> := [];
    EmptyLists();
    if cucache != null {
      WithNoChangesets(cucache.users);
    }
    for i := 0 to |lines|
      invariant ParseLog(lines[..i]) == Success(objs)
      invariant todo.Appended(objs)
      invariant cucache != null ==> cucache.users == WithChangesets(old(cucache.users), objs)
    {
      assert lines[..i + 1] == lines[..i] + [lines[i]];
      ParseOneLine(lines[i]);
      ParseLogConcat(lines[..i], [lines[i]]);
      assert lines == lines[..i + 1] + lines[i + 1..];
      var parts := SplitString(lines[i], ' ');
      if |parts| < 3 || parts[2] != "N" || |parts| != 6 {
        assert objs + [] == objs;
        continue;
      }
      label beforeAdd:
      error := todo.Add(parts[3], parts[4], parts[5], cucache);
      if error.Some? {
        ParseLogPrefixFails(lines[..i + 1], lines[i + 1..]);
        return;
      }
      ghost var o := ParseObj(parts[3], parts[4], parts[5]).value;
      OfKindConcat(objs, [o], Node);
      OfKindConcat(objs, [o], Way);
      OfKindConcat(objs, [o], Relation);
      if cucache != null {
        WithChangesetsConcat(old(cucache.users), objs, [o]);
        WithOneChangeset(WithChangesets(old(cucache.users), objs), o);
      }
      objs := objs + [o];
    }
    assert lines[..|lines|] == lines;
    return None;
  }

  lemma EmptyLists()
    ensures forall kind :: OfKind([], kind) == []
  {
  }

  lemma WithNoChangesets(users: map<nat, UserInfo>)
    ensures WithChangesets(users, []) == users
  {
  }

  lemma WithOneChangeset(users: map<nat, UserInfo>, o: OsmObj)
    ensures WithChangesets(users, [o]) == users[o.cid := NO_USER]
  {
    assert [o][1..] == [];
  }

  // --- The ordering ------------------------------------------------------------------------------

  predicate Less(a: OsmObj, b: OsmObj) {
    Before(KeyOf(a), KeyOf(b))
  }

  /**
   `operator<` is a strict weak order whose equivalence classes are the objects with equal type,
   id and version, although `operator==` also compares the changeset.
   */
  lemma StrictWeakOrder(a: OsmObj, b: OsmObj, c: OsmObj)
    ensures !Less(a, a)
    ensures Less(a, b) ==> !Less(b, a)
    ensures Less(a, b) && Less(b, c) ==> Less(a, c)
    ensures Less(a, b) ==> Less(a, c) || Less(c, b)
    ensures !Less(a, b) && !Less(b, a) <==> a.kind == b.kind && a.id == b.id && a.version == b.version
  {
  }

  /**
   The work lists do not depend on the order of lines and of log files: their keys never do, and
   the lists themselves do not when no object version is named with two different changesets.
   */
  lemma WorkListOrderIndependent(a: seq<OsmObj>, b: seq<OsmObj>, sortedA: seq<OsmObj>, sortedB: seq<OsmObj>)
    requires multiset(a) == multiset(b)
    requires IsSortOf(sortedA, a, KeyOf) && IsSortOf(sortedB, b, KeyOf)
    ensures Keys(sortedA, KeyOf) == Keys(sortedB, KeyOf)
    ensures KeyDetermines(a, KeyOf) ==> sortedA == sortedB
    ensures DistinctKeys(a, KeyOf) ==> StrictlyInOrder(Keys(sortedA, KeyOf))
  {
    SortedKeysOrderIndependent(a, b, sortedA, sortedB, KeyOf);
    if KeyDetermines(a, KeyOf) {
      SortedOrderIndependent(a, b, sortedA, sortedB, KeyOf);
    }
    if DistinctKeys(a, KeyOf) {
      SortedDistinct(sortedA, a, KeyOf);
    }
  }

  /** That condition is exact: an object version with two changesets allows two different work lists. */
  lemma WorkListAmbiguous(objs: seq<OsmObj>) returns (one: seq<OsmObj>, other: seq<OsmObj>)
    requires !KeyDetermines(objs, KeyOf)
    ensures IsSortOf(one, objs, KeyOf) && IsSortOf(other, objs, KeyOf) && one != other
  {
    var x, y :| x in multiset(objs) && y in multiset(objs) && KeyOf(x) == KeyOf(y) && x != y;
    one, other := AmbiguousSort(objs, x, y, KeyOf);
  }

  /** Type in the order node, way, relation, then id, then version. */
  lemma LessExactly(a: OsmObj, b: OsmObj)
    ensures Less(a, b) <==>
              || (a.kind == Node && b.kind != Node) || (a.kind == Way && b.kind == Relation)
              || (a.kind == b.kind && a.id < b.id)
              || (a.kind == b.kind && a.id == b.id && a.version < b.version)
  {
  }

  // --- What a line has to look like ---------------------------------------------------------------

  /** The letters, and the conversion to 32 bits; the first thing that is wrong is reported. */
  lemma ParseObjExactly(obj: string, version: string, changeset: string)
    ensures match ParseObj(obj, version, changeset)
            case Success(o) =>
              && |obj| >= 2 && |version| >= 2 && |changeset| >= 2 && version[0] == 'v' && changeset[0] == 'c'
              && obj[0] == (match o.kind case Node => 'n' case Way => 'w' case Relation => 'r')
              && o.id == StrToLL(obj, 1, 10).value
              && o.version < 0x1_0000_0000 && o.cid < 0x1_0000_0000
              && (StrToLL(version, 1, 10).value - o.version) % 0x1_0000_0000 == 0
              && (StrToLL(changeset, 1, 10).value - o.cid) % 0x1_0000_0000 == 0
            case Failure(EntryTooShort) => |obj| < 2 || |version| < 2 || |changeset| < 2
            case Failure(e) =>
              && |obj| >= 2 && |version| >= 2 && |changeset| >= 2
              && (e == BadType <==> obj[0] !in "nwr")
              && (e == ExpectedVersion <==> obj[0] in "nwr" && version[0] != 'v')
              && (e == ExpectedChangeset <==> obj[0] in "nwr" && version[0] == 'v' && changeset[0] != 'c')
  {
    hide StrToLL;
    assert "nwr"[0] == 'n' && "nwr"[1] == 'w' && "nwr"[2] == 'r';
  }

  /** A line names an object version if and only if it has six fields and the third one is "N". */
  lemma LogLineExactly(fields: seq<string>)
    requires fields != [] && forall f :: f in fields ==> ' ' !in f
    requires Join(fields, ' ') != ""
    ensures ParseLogLine(Join(fields, ' '))
            == if |fields| == 6 && fields[2] == "N" then
                 match ParseObj(fields[3], fields[4], fields[5])
                 case Failure(e) => Failure(e)
                 case Success(o) => Success([o])
               else Success([])
  {
    hide ParseObj, Split, Join;
    SplitOfJoin(fields, ' ');
  }

  lemma EmptyLineExactly()
    ensures ParseLogLine("") == Success([])
  {
  }
}
