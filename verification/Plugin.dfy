/**
 The logical decoding output plugin (postgresql-plugin/osm-logical.c): which messages the changes of
 a transaction become, and the flag that makes a commit message follow exactly when one is needed.
 */
module Plugin {
  import opened Wrappers
  import opened Numbers

  datatype Operation = Insert | Update | Delete

  /** A column of a tuple; the value is absent when it is NULL. */
  datatype Attribute = Attribute(name: string, value: Option<Int64>)

  /** A row change as the change callback gets it. */
  datatype Change = Change(table: string, op: Operation, newTuple: Option<seq<Attribute>>)

  const NULL_TUPLE := "X newtuple is NULL"
  const NULL_KEY := "X NULL id or version"
  const NULL_REDACTION := "UPDATE" + " " + "with redaction_id set to NULL for "
  const COMMIT := "C"

  datatype ObjectTable = ObjectTable(letter: char, idName: string)

  function FindTable(name: string): Option<ObjectTable> {
    if name == "nodes" then Some(ObjectTable('n', "node_id"))
    else if name == "ways" then Some(ObjectTable('w', "way_id"))
    else if name == "relations" then Some(ObjectTable('r', "relation_id"))
    else None
  }

  /** "%" PRIu64 of a signed 64-bit value. */
  function PrintBigint(n: Int64): string {
    Print(if n < 0 then n + ULLONG_MAX + 1 else n, 10)
  }

  /** The value of the first attribute with a name; absent if there is none. */
  function FindAttribute(tuple: seq<Attribute>, name: string): Option<Int64> {
    if tuple == [] then None
    else if tuple[0].name == name then tuple[0].value
    else FindAttribute(tuple[1..], name)
  }

  lemma {:induction false} FindAttributeAt(tuple: seq<Attribute>, name: string, i: nat)
    requires i <= |tuple| && forall j :: 0 <= j < i ==> tuple[j].name != name
    ensures FindAttribute(tuple, name)
            == if i < |tuple| && tuple[i].name == name then tuple[i].value else FindAttribute(tuple[i..], name)
  {
    if i == 0 {
      assert tuple[0..] == tuple;
    } else {
      FindAttributeAt(tuple[1..], name, i - 1);
      assert tuple[1..][i - 1..] == tuple[i..];
    }
  }

  /** `get_attribute_by_name` */
  method GetAttributeByName(tuple: seq<Attribute>, name: string) returns (value: Option<Int64>)
    ensures (exists i :: && 0 <= i < |tuple| && tuple[i].name == name && value == tuple[i].value
                         && forall j :: 0 <= j < i ==> tuple[j].name != name)
            || (value == None && forall j :: 0 <= j < |tuple| ==> tuple[j].name != name)
    ensures value == FindAttribute(tuple, name)
  {
    for i := 0 to |tuple|
      invariant forall j :: 0 <= j < i ==> tuple[j].name != name
    {
      if tuple[i].name == name {
        FindAttributeAt(tuple, name, i);
        return tuple[i].value;
      }
    }
    FindAttributeAt(tuple, name, |tuple|);
    return None;
  }

  /** Type letter, id, version and changeset, as all messages about a row name them. */
  function ObjectText(letter: char, id: Int64, version: Int64, cid: Int64): string {
    [letter] + PrintBigint(id) + " v" + PrintBigint(version) + " c" + PrintBigint(cid)
  }

  /** The message for a new tuple of an object table; deletions have none. */
  function TupleMessage(table: ObjectTable, op: Operation, tuple: seq<Attribute>): Option<string> {
    match (FindAttribute(tuple, table.idName), FindAttribute(tuple, "version"), FindAttribute(tuple, "changeset_id"))
    case (Some(id), Some(version), Some(cid)) =>
      var text := ObjectText(table.letter, id, version, cid);
      (match op
       case Insert => Some("N " + text)
       case Update =>
         (match FindAttribute(tuple, "redaction_id")
          case None => Some(NULL_REDACTION + text)
          case Some(redaction) => Some("R " + text + " " + PrintBigint(redaction)))
       case Delete => None)
    case (_, _, _) => Some(NULL_KEY)
  }

  /** The message that a change becomes, if any. */
  function Message(change: Change): Option<string> {
    match FindTable(change.table)
    case None => None
    case Some(table) =>
      match change.newTuple
      case None => Some(NULL_TUPLE)
      case Some(tuple) => TupleMessage(table, change.op, tuple)
  }

  predicate Touches(change: Change) {
    FindTable(change.table).Some?
  }

  /** `LogicalDecodingContext`, as far as the plugin uses it: the private flag and the output. */
  class DecodingContext {
    var pending: bool
    var out: seq<string>

    /** `pg_osmlogical_startup` */
    constructor ()
      ensures !pending && out == []
    {
      pending, out := false, [];
    }

    /** `pg_osmlogical_begin` does nothing. */
    method OnBegin()
      ensures pending == old(pending) && out == old(out)
    {
    }

    method Write(message: string)
      modifies this`out
      ensures out == old(out) + [message]
    {
      out := out + [message];
    }

    /** `pg_osmlogical_change` */
    method OnChange(change: Change)
      modifies this
      ensures pending == (old(pending) || Touches(change))
      ensures out == old(out) + if Message(change).Some? then [Message(change).value] else []
    {
      var found := FindTable(change.table);
      if found == None {
        return;
      }
      var table := found.value;
      pending := true;
      if change.newTuple == None {
        Write(NULL_TUPLE);
        return;
      }
      var tuple := change.newTuple.value;
      var id := GetAttributeByName(tuple, table.idName);
      var version := GetAttributeByName(tuple, "version");
      var cid := GetAttributeByName(tuple, "changeset_id");
      if id == None || version == None || cid == None {
        Write(NULL_KEY);
        return;
      }
      if change.op == Insert {
        Write("N " + ObjectText(table.letter, id.value, version.value, cid.value));
        return;
      }
      if change.op == Update {
        var redaction := GetAttributeByName(tuple, "redaction_id");
        if redaction == None {
          Write(NULL_REDACTION + ObjectText(table.letter, id.value, version.value, cid.value));
          return;
        }
        Write("R " + ObjectText(table.letter, id.value, version.value, cid.value) + " " + PrintBigint(redaction.value));
      }
    }

    /** `pg_osmlogical_commit` */
    method OnCommit()
      modifies this
      ensures !pending
      ensures out == old(out) + if old(pending) then [COMMIT] else []
    {
      if pending {
        Write(COMMIT);
        pending := false;
      }
    }
  }

  // --- Any sequence of callbacks -----------------------------------------------------------------------

  datatype Callback = BeginCall | ChangeCall(change: Change) | CommitCall

  datatype Context = Context(pending: bool, out: seq<string>)

  function MessagesOf(change: Change): seq<string> {
    if Message(change).Some? then [Message(change).value] else []
  }

  /** What the methods of the context do, one callback after the other. */
  function After(context: Context, calls: seq<Callback>): Context
    decreases |calls|
  {
    if calls == [] then context
    else
      var next :=
        match calls[0]
        case BeginCall => context
        case ChangeCall(change) => Context(context.pending || Touches(change), context.out + MessagesOf(change))
        case CommitCall => Context(false, context.out + if context.pending then [COMMIT] else []);
      After(next, calls[1..])
  }

  /** The callbacks that PostgreSQL makes, one by one. */
  method Decode(context: DecodingContext, calls: seq<Callback>)
    modifies context
    ensures Context(context.pending, context.out) == After(Context(old(context.pending), old(context.out)), calls)
  {
    ghost var start := Context(context.pending, context.out);
    for i := 0 to |calls|
      invariant After(start, calls) == After(Context(context.pending, context.out), calls[i..])
    {
      match calls[i]
      case BeginCall => context.OnBegin();
      case ChangeCall(change) => context.OnChange(change);
      case CommitCall => context.OnCommit();
    }
  }

  /** PostgreSQL hands over no new tuple for a deletion. */
  predicate DeletesAreBare(calls: seq<Callback>) {
    forall i :: 0 <= i < |calls| && calls[i].ChangeCall? && calls[i].change.op == Delete ==> calls[i].change.newTuple == None
  }

  /** Each commit message closes a block of at least one change message. */
  predicate Blocks(messages: seq<string>) {
    forall i :: 0 <= i < |messages| && messages[i] == COMMIT ==> i > 0 && messages[i - 1] != COMMIT
  }

  predicate ContextOk(context: Context) {
    Blocks(context.out) && (context.pending <==> context.out != [] && context.out[|context.out| - 1] != COMMIT)
  }

  /** A change message starts with its own letter: it is no commit message, and 'N' stands for inserts only. */
  lemma MessageLetter(change: Change)
    requires Message(change).Some?
    ensures var m := Message(change).value; m != "" && m[0] != 'C' && (m[0] == 'N' ==> change.op == Insert)
  {
    hide PrintBigint, FindAttribute, ObjectText;
    if change.newTuple.Some? {
      TupleMessageLetter(FindTable(change.table).value, change.op, change.newTuple.value);
    } else {
      assert NULL_TUPLE[0] == 'X';
    }
  }

  lemma TupleMessageLetter(table: ObjectTable, op: Operation, tuple: seq<Attribute>)
    requires TupleMessage(table, op, tuple).Some?
    ensures var m := TupleMessage(table, op, tuple).value; m != "" && m[0] != 'C' && (m[0] == 'N' ==> op == Insert)
  {
    hide PrintBigint, FindAttribute, ObjectText;
    match (FindAttribute(tuple, table.idName), FindAttribute(tuple, "version"), FindAttribute(tuple, "changeset_id"))
    case (Some(id), Some(version), Some(cid)) =>
      var text := ObjectText(table.letter, id, version, cid);
      assert ("N " + text)[0] == 'N' && ("R " + text)[0] == 'R';
      assert (NULL_REDACTION + text)[0] == 'U';
    case (_, _, _) =>
      assert NULL_KEY[0] == 'X';
  }

  lemma ChangeKeeps(context: Context, change: Change)
    requires ContextOk(context) && (change.op == Delete ==> change.newTuple == None)
    ensures ContextOk(Context(context.pending || Touches(change), context.out + MessagesOf(change)))
  {
    if Message(change).Some? {
      MessageLetter(change);
      assert Message(change).value[0] != COMMIT[0];
    }
    hide PrintBigint, FindAttribute;
  }

  /**
   For every sequence of callbacks, however begin, change and commit follow each other: the output
   consists of blocks of at least one change message and exactly one "C"; the last block is open
   exactly while the flag is set.
   */
  lemma {:induction false} OutputIsBlocks(context: Context, calls: seq<Callback>)
    requires ContextOk(context) && DeletesAreBare(calls)
    ensures ContextOk(After(context, calls))
    decreases |calls|
  {
    hide Message, Touches, MessagesOf;
    if calls != [] {
      match calls[0]
      case BeginCall =>
        OutputIsBlocks(context, calls[1..]);
      case ChangeCall(change) =>
        ChangeKeeps(context, change);
        OutputIsBlocks(Context(context.pending || Touches(change), context.out + MessagesOf(change)), calls[1..]);
      case CommitCall =>
        OutputIsBlocks(Context(false, context.out + if context.pending then [COMMIT] else []), calls[1..]);
    }
  }

  /** The condition is needed: a deletion with a new tuple would be committed without any message. */
  lemma {:induction false} DeleteWithTuple(tuple: seq<Attribute>)
    requires FindAttribute(tuple, "node_id").Some? && FindAttribute(tuple, "version").Some?
    requires FindAttribute(tuple, "changeset_id").Some?
    ensures After(Context(false, []), [ChangeCall(Change("nodes", Delete, Some(tuple))), CommitCall]).out == [COMMIT]
  {
    var change := Change("nodes", Delete, Some(tuple));
    var calls := [ChangeCall(change), CommitCall];
    assert calls[1..] == [CommitCall] && [CommitCall][1..] == [];
    assert MessagesOf(change) == [];
  }

  // --- Whole transactions ---------------------------------------------------------------------------------

  type Txn = seq<Change>

  function Calls(txn: Txn): seq<Callback> {
    [BeginCall] + seq(|txn|, i requires 0 <= i < |txn| => ChangeCall(txn[i])) + [CommitCall]
  }

  predicate TouchesObjects(txn: Txn) {
    exists i :: 0 <= i < |txn| && Touches(txn[i])
  }

  function ChangeMessages(txn: Txn): seq<string> {
    if txn == [] then [] else MessagesOf(txn[0]) + ChangeMessages(txn[1..])
  }

  /** Nothing for a transaction that touches no object table, otherwise its messages and one commit message. */
  function TxnMessages(txn: Txn): seq<string> {
    ChangeMessages(txn) + if TouchesObjects(txn) then [COMMIT] else []
  }

  lemma {:induction false} AfterConcat(context: Context, a: seq<Callback>, b: seq<Callback>)
    ensures After(context, a + b) == After(After(context, a), b)
    decreases |a|
  {
    hide Message, Touches, MessagesOf;
    if a == [] {
      assert a + b == b;
    } else {
      assert (a + b)[0] == a[0] && (a + b)[1..] == a[1..] + b;
      match a[0]
      case BeginCall => AfterConcat(context, a[1..], b);
      case ChangeCall(change) =>
        AfterConcat(Context(context.pending || Touches(change), context.out + MessagesOf(change)), a[1..], b);
      case CommitCall =>
        AfterConcat(Context(false, context.out + if context.pending then [COMMIT] else []), a[1..], b);
    }
  }

  lemma {:induction false} AfterChanges(context: Context, txn: Txn)
    ensures var calls := seq(|txn|, i requires 0 <= i < |txn| => ChangeCall(txn[i])) + [CommitCall];
            After(context, calls)
            == Context(false, context.out + ChangeMessages(txn)
                              + if context.pending || TouchesObjects(txn) then [COMMIT] else [])
    decreases |txn|
  {
    hide Message, Touches, MessagesOf;
    var changes := seq(|txn|, i requires 0 <= i < |txn| => ChangeCall(txn[i]));
    var calls := changes + [CommitCall];
    if txn == [] {
      assert calls == [CommitCall] && calls[1..] == [];
      assert context.out + [] == context.out;
    } else {
      var rest := txn[1..];
      assert calls[0] == ChangeCall(txn[0]);
      assert calls[1..] == seq(|rest|, i requires 0 <= i < |rest| => ChangeCall(rest[i])) + [CommitCall];
      var next := Context(context.pending || Touches(txn[0]), context.out + MessagesOf(txn[0]));
      AfterChanges(next, rest);
      TouchesFirst(txn);
      assert context.out + ChangeMessages(txn) == next.out + ChangeMessages(rest);
    }
  }

  lemma TouchesFirst(txn: Txn)
    requires txn != []
    ensures TouchesObjects(txn) <==> Touches(txn[0]) || TouchesObjects(txn[1..])
  {
    hide Touches;
    if TouchesObjects(txn) && !Touches(txn[0]) {
      var i :| 0 <= i < |txn| && Touches(txn[i]);
      assert txn[1..][i - 1] == txn[i];
    }
    if TouchesObjects(txn[1..]) {
      var i :| 0 <= i < |txn[1..]| && Touches(txn[1..][i]);
      assert txn[1..][i] == txn[i + 1];
    }
  }

  /** One whole transaction, wherever it stands in the stream. */
  lemma TransactionOutput(out: seq<string>, txn: Txn)
    ensures After(Context(false, out), Calls(txn)) == Context(false, out + TxnMessages(txn))
  {
    hide TouchesObjects, ChangeMessages;
    var changes := seq(|txn|, i requires 0 <= i < |txn| => ChangeCall(txn[i])) + [CommitCall];
    assert Calls(txn)[0] == BeginCall && Calls(txn)[1..] == changes;
    AfterChanges(Context(false, out), txn);
    assert out + ChangeMessages(txn) + [COMMIT] == out + (ChangeMessages(txn) + [COMMIT]);
  }

  function AllCalls(txns: seq<Txn>): seq<Callback> {
    if txns == [] then [] else Calls(txns[0]) + AllCalls(txns[1..])
  }

  function AllMessages(txns: seq<Txn>): seq<string> {
    if txns == [] then [] else TxnMessages(txns[0]) + AllMessages(txns[1..])
  }

  lemma NoCalls(context: Context)
    ensures After(context, []) == context
  {
  }

  /** A peek that returns whole transactions prints them one after the other, leaving no commit pending. */
  lemma {:induction false} StreamOutput(out: seq<string>, txns: seq<Txn>)
    ensures After(Context(false, out), AllCalls(txns)) == Context(false, out + AllMessages(txns))
    decreases |txns|
  {
    hide Calls, TxnMessages, After;
    NoCalls(Context(false, out));
    if txns == [] {
      assert out + [] == out;
    } else {
      AfterConcat(Context(false, out), Calls(txns[0]), AllCalls(txns[1..]));
      TransactionOutput(out, txns[0]);
      StreamOutput(out + TxnMessages(txns[0]), txns[1..]);
      assert out + TxnMessages(txns[0]) + AllMessages(txns[1..]) == out + AllMessages(txns);
    }
  }

  // --- The messages, word by word ----------------------------------------------------------------------------

  /** The three tables, their letters and the names of their id columns. */
  predicate IsObjectTable(table: string, letter: char, idName: string) {
    || (table == "nodes" && letter == 'n' && idName == "node_id")
    || (table == "ways" && letter == 'w' && idName == "way_id")
    || (table == "relations" && letter == 'r' && idName == "relation_id")
  }

  /** The first attribute with the name has this value; NULL counts as no value, as does no such attribute. */
  ghost predicate IsFirstValue(tuple: seq<Attribute>, name: string, value: Option<Int64>) {
    || (exists i :: && 0 <= i < |tuple| && tuple[i].name == name && value == tuple[i].value
                    && forall j :: 0 <= j < i ==> tuple[j].name != name)
    || (value == None && forall j :: 0 <= j < |tuple| ==> tuple[j].name != name)
  }

  lemma FirstValue(tuple: seq<Attribute>, name: string, value: Option<Int64>)
    requires IsFirstValue(tuple, name, value)
    ensures FindAttribute(tuple, name) == value
  {
    if i :| && 0 <= i < |tuple| && tuple[i].name == name && value == tuple[i].value
            && forall j :: 0 <= j < i ==> tuple[j].name != name {
      FindAttributeAt(tuple, name, i);
    } else {
      FindAttributeAt(tuple, name, |tuple|);
    }
  }

  /** A number is printed in decimal without superfluous zeros; a negative one modulo 2^64. */
  lemma BigintExactly(n: Int64)
    ensures AllDigits(PrintBigint(n), 10)
    ensures Value(PrintBigint(n), 10) == if n >= 0 then n else n + 0x1_0000_0000_0000_0000
    ensures n == 0 ==> PrintBigint(n) == "0"
    ensures n != 0 ==> PrintBigint(n) != "" && PrintBigint(n)[0] != '0'
  {
    var m := if n < 0 then n + ULLONG_MAX + 1 else n;
    ValueOfPrint(m, 10);
    PrintIsShortest(m, 10);
    hide Print, Value;
  }

  /** Changes of other tables are ignored. */
  lemma OtherTable(change: Change)
    requires change.table != "nodes" && change.table != "ways" && change.table != "relations"
    ensures Message(change) == None && !Touches(change)
  {
  }

  /** A change without new tuple, or without complete key. */
  lemma DamagedChange(change: Change, letter: char, idName: string)
    requires IsObjectTable(change.table, letter, idName)
    ensures Touches(change)
    ensures change.newTuple == None ==> Message(change) == Some("X newtuple is NULL")
    ensures change.newTuple.Some?
            && (IsFirstValue(change.newTuple.value, idName, None) || IsFirstValue(change.newTuple.value, "version", None)
                || IsFirstValue(change.newTuple.value, "changeset_id", None))
            ==> Message(change) == Some("X NULL id or version")
  {
    TableIs(change.table, letter, idName);
    hide IsFirstValue, FindAttribute, FindTable, IsObjectTable;
    if change.newTuple.Some? {
      var tuple := change.newTuple.value;
      if IsFirstValue(tuple, idName, None) {
        FirstValue(tuple, idName, None);
      } else if IsFirstValue(tuple, "version", None) {
        FirstValue(tuple, "version", None);
      } else if IsFirstValue(tuple, "changeset_id", None) {
        FirstValue(tuple, "changeset_id", None);
      }
    }
  }

  lemma TableIs(table: string, letter: char, idName: string)
    requires IsObjectTable(table, letter, idName)
    ensures FindTable(table) == Some(ObjectTable(letter, idName))
  {
  }

  /** The message about a row: what happened, type letter, id, version and changeset, and the redaction. */
  lemma MessageExactly(
      change: Change, letter: char, idName: string, id: Int64, version: Int64, cid: Int64, redaction: Option<Int64>)
    requires IsObjectTable(change.table, letter, idName) && change.newTuple.Some?
    requires IsFirstValue(change.newTuple.value, idName, Some(id))
    requires IsFirstValue(change.newTuple.value, "version", Some(version))
    requires IsFirstValue(change.newTuple.value, "changeset_id", Some(cid))
    requires IsFirstValue(change.newTuple.value, "redaction_id", redaction)
    ensures var text := [letter] + PrintBigint(id) + " v" + PrintBigint(version) + " c" + PrintBigint(cid);
            Message(change)
            == match change.op
               case Insert => Some("N " + text)
               case Update =>
                 if redaction == None then Some("UPDATE" + " " + "with redaction_id set to NULL for " + text)
                 else Some("R " + text + " " + PrintBigint(redaction.value))
               case Delete => None
  {
    TableIs(change.table, letter, idName);
    FirstValue(change.newTuple.value, idName, Some(id));
    FirstValue(change.newTuple.value, "version", Some(version));
    FirstValue(change.newTuple.value, "changeset_id", Some(cid));
    FirstValue(change.newTuple.value, "redaction_id", redaction);
    hide IsFirstValue, FindAttribute, PrintBigint, FindTable, IsObjectTable;
  }
}
