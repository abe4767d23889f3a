/**
 From committed transactions through the plugin, get-log and the log file to the objects that
 `read_log` finds: exactly the inserted object versions come back, in order.
 */
module RoundTrip {
  import opened Wrappers
  import opened Text
  import opened Numbers
  import opened Lsn
  import opened OsmObjects
  import opened Plugin
  import opened GetLog
  import LogNames
  import Timestamps

  // --- Fields of a line ---------------------------------------------------------------------------------

  /** A text that is one field of one line. */
  predicate Plain(text: string) {
    ' ' !in text && '\n' !in text
  }

  lemma DigitsArePlain(text: string, base: Base)
    requires AllDigits(text, base)
    ensures Plain(text)
  {
  }

  lemma PrintIsPlain(n: nat, base: Base)
    ensures Plain(Print(n, base))
  {
    ValueOfPrint(n, base);
    DigitsArePlain(Print(n, base), base);
  }

  /** A line whose message starts with any word but "N" adds nothing. */
  lemma OtherLine(a: string, b: string, word: string, rest: string)
    requires Plain(a) && Plain(b) && Plain(word) && word != "N"
    ensures ParseLogLine(a + " " + b + " " + (word + " " + rest)) == Success([])
    ensures ParseLogLine(a + " " + b + " " + word) == Success([])
  {
    hide ParseObj;
    SplitFirstField(word, ' ', rest);
    SplitSingle(word, ' ');
    ThreeFields(a, b, word + " " + rest);
    ThreeFields(a, b, word);
  }

  lemma ThreeFields(a: string, b: string, message: string)
    requires Plain(a) && Plain(b)
    ensures SplitString(a + " " + b + " " + message, ' ') == [a, b] + Split(message, ' ')
  {
    hide Split;
    SplitFirstField(b, ' ', message);
    SplitFirstField(a, ' ', b + " " + message);
    assert a + " " + (b + " " + message) == a + " " + b + " " + message;
    assert [a] + ([b] + Split(message, ' ')) == [a, b] + Split(message, ' ');
  }

  /** A line "a b N obj version changeset" is handed to the object constructor. */
  lemma NewLine(a: string, b: string, obj: string, version: string, changeset: string)
    requires Plain(a) && Plain(b) && Plain(obj) && Plain(version) && Plain(changeset)
    ensures ParseLogLine(a + " " + b + " " + ("N " + obj + " " + version + " " + changeset))
            == match ParseObj(obj, version, changeset)
               case Failure(e) => Failure(e)
               case Success(o) => Success([o])
  {
    hide ParseObj, Split, Join;
    var message := "N " + obj + " " + version + " " + changeset;
    ThreeFields(a, b, message);
    var fields := ["N", obj, version, changeset];
    JoinFour("N", obj, version, changeset);
    assert "N" + " " + obj == "N " + obj;
    SplitOfJoin(fields, ' ');
    assert [a, b] + fields == [a, b, "N", obj, version, changeset];
    assert SplitString(a + " " + b + " " + message, ' ') == [a, b, "N", obj, version, changeset];
  }

  lemma JoinFour(a: string, b: string, c: string, d: string)
    ensures Join([a, b, c, d], ' ') == a + " " + b + " " + c + " " + d
  {
    assert [a, b, c, d][1..] == [b, c, d] && [b, c, d][1..] == [c, d] && [c, d][1..] == [d];
    assert Join([c, d], ' ') == c + " " + d;
    assert Join([b, c, d], ' ') == b + " " + c + " " + d;
  }

  // --- Values that come back --------------------------------------------------------------------------

  /** What `strtoll` makes of a printed unsigned 64-bit value: negative values come back as the maximum. */
  function ReadBack(n: Int64): int {
    if n >= 0 then n else LLONG_MAX
  }

  lemma ReadBackOfPrint(letter: char, n: Int64)
    ensures var field := [letter] + PrintBigint(n);
            |field| >= 2 && FieldNumber(field) == ReadBack(n) && (letter != ' ' && letter != '\n' ==> Plain(field))
  {
    hide Print, Value, StrToLL, AllDigits, Plain;
    var m := if n < 0 then n + ULLONG_MAX + 1 else n;
    ValueOfPrint(m, 10);
    StrToLLOfDigits([letter], false, Print(m, 10));
    PrintIsPlain(m, 10);
    PlainCons(letter, PrintBigint(n));
  }

  lemma PlainCons(letter: char, text: string)
    requires Plain(text)
    ensures letter != ' ' && letter != '\n' ==> Plain([letter] + text)
  {
  }

  /** The object version that a line about these values is read as. */
  function ObjectRead(kind: ItemType, id: Int64, version: Int64, cid: Int64): OsmObj {
    OsmObj(kind, ReadBack(id), ReadBack(version) % TWO_32, ReadBack(cid) % TWO_32)
  }

  /** It is the right one if and only if no value is negative and version and changeset fit into 32 bits. */
  lemma ObjectReadExactly(kind: ItemType, id: Int64, version: Int64, cid: Int64)
    ensures var o := ObjectRead(kind, id, version, cid);
            o.id == id && o.version == version && o.cid == cid
            <==> 0 <= id && 0 <= version < 0x1_0000_0000 && 0 <= cid < 0x1_0000_0000
  {
  }

  lemma ParseObjOfText(kind: ItemType, id: Int64, version: Int64, cid: Int64)
    ensures ParseObj([TypeChar(kind)] + PrintBigint(id), "v" + PrintBigint(version), "c" + PrintBigint(cid))
            == Success(ObjectRead(kind, id, version, cid))
  {
    hide PrintBigint, FieldNumber, ReadBack, Plain;
    ReadBackOfPrint(TypeChar(kind), id);
    ReadBackOfPrint('v', version);
    ReadBackOfPrint('c', cid);
  }

  // --- One change ---------------------------------------------------------------------------------------

  /** The object version that an inserted row of this table stands for, if it has a complete key. */
  function ObjectInserted(kind: ItemType, idName: string, tuple: seq<Attribute>): seq<OsmObj> {
    match (FindAttribute(tuple, idName), FindAttribute(tuple, "version"), FindAttribute(tuple, "changeset_id"))
    case (Some(id), Some(version), Some(cid)) => [ObjectRead(kind, id, version, cid)]
    case (_, _, _) => []
  }

  /** The inserted object version; other changes, and those of other tables, have none. */
  function Inserted(change: Change): seq<OsmObj> {
    if change.op != Insert || change.newTuple == None then []
    else if change.table == "nodes" then ObjectInserted(Node, "node_id", change.newTuple.value)
    else if change.table == "ways" then ObjectInserted(Way, "way_id", change.newTuple.value)
    else if change.table == "relations" then ObjectInserted(Relation, "relation_id", change.newTuple.value)
    else []
  }

  /** The plugin and the reader of its lines agree on the tables and letters. */
  lemma InsertedByTable(change: Change)
    ensures FindTable(change.table) == None ==> Inserted(change) == []
    ensures FindTable(change.table).Some? ==>
              var table := FindTable(change.table).value;
              && CharToItemType(table.letter).Some?
              && Inserted(change) == if change.op != Insert || change.newTuple == None then []
                                     else ObjectInserted(CharToItemType(table.letter).value, table.idName, change.newTuple.value)
  {
    hide ObjectInserted;
  }

  lemma InsertLine(a: string, b: string, kind: ItemType, id: Int64, version: Int64, cid: Int64)
    requires Plain(a) && Plain(b)
    ensures ParseLogLine(a + " " + b + " " + ("N " + ObjectText(TypeChar(kind), id, version, cid)))
            == Success([ObjectRead(kind, id, version, cid)])
  {
    hide Plain, ParseLogLine, ParseObj, PrintBigint, FieldNumber, ObjectRead;
    var obj, v, c := [TypeChar(kind)] + PrintBigint(id), "v" + PrintBigint(version), "c" + PrintBigint(cid);
    ReadBackOfPrint(TypeChar(kind), id);
    ReadBackOfPrint('v', version);
    ReadBackOfPrint('c', cid);
    NewLine(a, b, obj, v, c);
    ParseObjOfText(kind, id, version, cid);
    assert "N " + ObjectText(TypeChar(kind), id, version, cid) == "N " + obj + " " + v + " " + c;
  }

  lemma WordsArePlain()
    ensures Plain("X") && Plain("UPDATE") && Plain("R") && Plain("C")
  {
  }

  /** The line made from a change's message is read as the object version inserted, if there is one. */
  lemma ChangeLine(a: string, b: string, change: Change)
    requires Plain(a) && Plain(b) && Message(change).Some?
    ensures ParseLogLine(a + " " + b + " " + Message(change).value) == Success(Inserted(change))
  {
    hide Plain, ParseLogLine, PrintBigint, FindAttribute, ObjectRead, ObjectText;
    WordsArePlain();
    InsertedByTable(change);
    match change.newTuple
    case None =>
      OtherLine(a, b, "X", "newtuple is NULL");
      assert NULL_TUPLE == "X" + " " + "newtuple is NULL";
    case Some(tuple) =>
      TupleLine(a, b, FindTable(change.table).value, change.op, tuple);
  }

  lemma UpdateLine(a: string, b: string, text: string)
    requires Plain(a) && Plain(b)
    ensures ParseLogLine(a + " " + b + " " + (NULL_REDACTION + text)) == Success([])
  {
    hide Plain, ParseLogLine;
    WordsArePlain();
    OtherLine(a, b, "UPDATE", "with redaction_id set to NULL for " + text);
    assert "UPDATE" + " " + ("with redaction_id set to NULL for " + text) == NULL_REDACTION + text;
  }

  lemma RedactLine(a: string, b: string, text: string, redaction: string)
    requires Plain(a) && Plain(b)
    ensures ParseLogLine(a + " " + b + " " + ("R " + text + " " + redaction)) == Success([])
  {
    hide Plain, ParseLogLine;
    WordsArePlain();
    OtherLine(a, b, "R", text + " " + redaction);
    assert "R" + " " + (text + " " + redaction) == "R " + text + " " + redaction;
  }

  lemma TupleLine(a: string, b: string, table: ObjectTable, op: Operation, tuple: seq<Attribute>)
    requires Plain(a) && Plain(b) && CharToItemType(table.letter).Some? && TupleMessage(table, op, tuple).Some?
    ensures ParseLogLine(a + " " + b + " " + TupleMessage(table, op, tuple).value)
            == Success(
                 match (op, FindAttribute(tuple, table.idName), FindAttribute(tuple, "version"),
                        FindAttribute(tuple, "changeset_id"))
                 case (Insert, Some(id), Some(version), Some(cid)) =>
                   [ObjectRead(CharToItemType(table.letter).value, id, version, cid)]
                 case (_, _, _, _) => [])
  {
    hide Plain, ParseLogLine, PrintBigint, FindAttribute, ObjectRead, ObjectText;
    WordsArePlain();
    match (FindAttribute(tuple, table.idName), FindAttribute(tuple, "version"), FindAttribute(tuple, "changeset_id"))
    case (Some(id), Some(version), Some(cid)) =>
      var text := ObjectText(table.letter, id, version, cid);
      match op {
        case Insert =>
          InsertLine(a, b, CharToItemType(table.letter).value, id, version, cid);
        case Update =>
          UpdateLine(a, b, text);
          if FindAttribute(tuple, "redaction_id").Some? {
            RedactLine(a, b, text, PrintBigint(FindAttribute(tuple, "redaction_id").value));
          }
        case Delete =>
      }
    case (_, _, _) =>
      OtherLine(a, b, "X", "NULL id or version");
      assert NULL_KEY == "X" + " " + "NULL id or version";
  }

  // --- Whole transactions ----------------------------------------------------------------------------------

  /** A change and the LSN that its row carries. */
  datatype Located = Located(lsn: LsnValue, change: Change)

  /** A committed transaction: its id, its changes, and the LSN of the commit row. */
  datatype Transaction = Transaction(xid: nat, changes: seq<Located>, end: LsnValue)

  function Changes(changes: seq<Located>): (r: seq<Change>)
    ensures |r| == |changes|
  {
    seq(|changes|, i requires 0 <= i < |changes| => changes[i].change)
  }

  function ChangeRows(xid: nat, changes: seq<Located>): seq<Row>
    decreases |changes|
  {
    if changes == [] then []
    else
      var rest := ChangeRows(xid, changes[1..]);
      if Message(changes[0].change).Some?
      then [Row(Str(changes[0].lsn), Print(xid, 10), Message(changes[0].change).value)] + rest
      else rest
  }

  /** The rows that a peek shows for a transaction. */
  function TxnRows(t: Transaction): seq<Row> {
    ChangeRows(t.xid, t.changes)
    + if TouchesObjects(Changes(t.changes)) then [Row(Str(t.end), Print(t.xid, 10), COMMIT)] else []
  }

  function AllRows(ts: seq<Transaction>): seq<Row> {
    if ts == [] then [] else TxnRows(ts[0]) + AllRows(ts[1..])
  }

  function MessagesIn(rows: seq<Row>): seq<string> {
    if rows == [] then [] else [rows[0].message] + MessagesIn(rows[1..])
  }

  lemma {:induction false} MessagesConcat(a: seq<Row>, b: seq<Row>)
    ensures MessagesIn(a + b) == MessagesIn(a) + MessagesIn(b)
  {
    if a == [] {
      assert a + b == b;
    } else {
      assert (a + b)[1..] == a[1..] + b;
      MessagesConcat(a[1..], b);
    }
  }

  lemma {:induction false} ChangeRowMessages(xid: nat, changes: seq<Located>)
    ensures MessagesIn(ChangeRows(xid, changes)) == ChangeMessages(Changes(changes))
    decreases |changes|
  {
    hide Message, Print, Str;
    if changes != [] {
      ChangeRowMessages(xid, changes[1..]);
      assert Changes(changes)[1..] == Changes(changes[1..]);
      var rest := ChangeRows(xid, changes[1..]);
      if Message(changes[0].change).Some? {
        var row := Row(Str(changes[0].lsn), Print(xid, 10), Message(changes[0].change).value);
        assert ([row] + rest)[1..] == rest;
      }
    }
  }

  /** The rows carry exactly the messages that the plugin writes. */
  lemma TxnRowMessages(t: Transaction)
    ensures MessagesIn(TxnRows(t)) == TxnMessages(Changes(t.changes))
  {
    hide ChangeRows, ChangeMessages, Print, Str, TouchesObjects;
    ChangeRowMessages(t.xid, t.changes);
    if TouchesObjects(Changes(t.changes)) {
      var commit := [Row(Str(t.end), Print(t.xid, 10), COMMIT)];
      MessagesConcat(ChangeRows(t.xid, t.changes), commit);
      assert commit[1..] == [];
      assert MessagesIn(commit) == [COMMIT];
    } else {
      assert ChangeRows(t.xid, t.changes) + [] == ChangeRows(t.xid, t.changes);
      assert ChangeMessages(Changes(t.changes)) + [] == ChangeMessages(Changes(t.changes));
    }
  }

  // --- Reading the log file back -----------------------------------------------------------------------------

  function InsertedBy(changes: seq<Located>): seq<OsmObj>
    decreases |changes|
  {
    if changes == [] then [] else Inserted(changes[0].change) + InsertedBy(changes[1..])
  }

  function InsertedByAll(ts: seq<Transaction>): seq<OsmObj> {
    if ts == [] then [] else InsertedBy(ts[0].changes) + InsertedByAll(ts[1..])
  }

  predicate RowFieldsPlain(row: Row) {
    Plain(row.lsn) && Plain(row.xid)
  }

  /** The state in front of the message: the row's own, or "0/0 0". */
  lemma LineState(row: Row, realState: bool) returns (a: string, b: string)
    requires RowFieldsPlain(row)
    ensures Plain(a) && Plain(b) && RowLine(row, realState) == a + " " + b + " " + row.message
  {
    if realState {
      a, b := row.lsn, row.xid;
    } else {
      a, b := "0/0", "0";
      assert "0/0" + " " + "0" == "0/0 0";
    }
  }

  /** With `--real-state` the first two fields of a line are the row's LSN and transaction id, else fixed ones. */
  lemma LineStateFields(row: Row, realState: bool)
    requires RowFieldsPlain(row)
    ensures SplitString(RowLine(row, realState), ' ')
            == (if realState then [row.lsn, row.xid] else ["0/0", "0"]) + Split(row.message, ' ')
  {
    hide Split;
    if realState {
      ThreeFields(row.lsn, row.xid, row.message);
    } else {
      ThreeFields("0/0", "0", row.message);
      assert "0/0" + " " + "0" == "0/0 0";
    }
  }

  lemma StrIsPlain(l: LsnValue)
    ensures Plain(Str(l))
  {
    PrintIsPlain(Upper(l), 16);
    PrintIsPlain(Lower(l), 16);
    hide Print, Upper, Lower;
  }

  lemma NoMessageNoInsert(change: Change)
    requires Message(change) == None
    ensures Inserted(change) == []
  {
    InsertedByTable(change);
    hide PrintBigint, FindAttribute, ObjectRead, ObjectText, Inserted;
  }

  lemma NothingRead()
    ensures ParseLog([]) == Success([])
  {
  }

  lemma {:induction false} ChangeRowsRead(xid: nat, changes: seq<Located>, realState: bool)
    ensures ParseLog(RowLines(ChangeRows(xid, changes), realState)) == Success(InsertedBy(changes))
    decreases |changes|
  {
    hide Message, Print, Str, ParseLogLine, Inserted, Plain, ParseLog;
    NothingRead();
    if changes == [] {
      assert RowLines([], realState) == [];
    } else {
      var rest := ChangeRows(xid, changes[1..]);
      ChangeRowsRead(xid, changes[1..], realState);
      if Message(changes[0].change).Some? {
        var row := Row(Str(changes[0].lsn), Print(xid, 10), Message(changes[0].change).value);
        StrIsPlain(changes[0].lsn);
        PrintIsPlain(xid, 10);
        var a, b := LineState(row, realState);
        ChangeLine(a, b, changes[0].change);
        ParseOneLine(RowLine(row, realState));
        ParseLogConcat([RowLine(row, realState)], RowLines(rest, realState));
        assert RowLines([row] + rest, realState) == [RowLine(row, realState)] + RowLines(rest, realState);
      } else {
        NoMessageNoInsert(changes[0].change);
        assert [] + InsertedBy(changes[1..]) == InsertedBy(changes[1..]);
      }
    }
  }

  lemma CommitRowRead(t: Transaction, realState: bool)
    ensures ParseLog([RowLine(Row(Str(t.end), Print(t.xid, 10), COMMIT), realState)]) == Success([])
  {
    hide Print, Str, ParseLogLine, Plain;
    var row := Row(Str(t.end), Print(t.xid, 10), COMMIT);
    StrIsPlain(t.end);
    PrintIsPlain(t.xid, 10);
    WordsArePlain();
    var a, b := LineState(row, realState);
    OtherLine(a, b, "C", "");
    ParseOneLine(RowLine(row, realState));
  }

  lemma RowLinesConcat(a: seq<Row>, b: seq<Row>, realState: bool)
    ensures RowLines(a + b, realState) == RowLines(a, realState) + RowLines(b, realState)
  {
    hide RowLine;
  }

  lemma TxnRowsRead(t: Transaction, realState: bool)
    ensures ParseLog(RowLines(TxnRows(t), realState)) == Success(InsertedBy(t.changes))
  {
    hide Print, Str, ParseLogLine, Plain, ParseLog, ChangeRows, InsertedBy, TouchesObjects, RowLine;
    ChangeRowsRead(t.xid, t.changes, realState);
    if TouchesObjects(Changes(t.changes)) {
      var row := Row(Str(t.end), Print(t.xid, 10), COMMIT);
      CommitRowRead(t, realState);
      RowLinesConcat(ChangeRows(t.xid, t.changes), [row], realState);
      assert RowLines([row], realState) == [RowLine(row, realState)];
      ParseLogConcat(RowLines(ChangeRows(t.xid, t.changes), realState), [RowLine(row, realState)]);
      assert InsertedBy(t.changes) + [] == InsertedBy(t.changes);
    } else {
      assert ChangeRows(t.xid, t.changes) + [] == ChangeRows(t.xid, t.changes);
    }
  }

  lemma {:induction false} AllRowsRead(ts: seq<Transaction>, realState: bool)
    ensures ParseLog(RowLines(AllRows(ts), realState)) == Success(InsertedByAll(ts))
    decreases |ts|
  {
    hide TxnRows, ParseLog, InsertedBy, RowLine;
    NothingRead();
    if ts == [] {
      assert RowLines([], realState) == [];
    } else {
      TxnRowsRead(ts[0], realState);
      AllRowsRead(ts[1..], realState);
      RowLinesConcat(TxnRows(ts[0]), AllRows(ts[1..]), realState);
      ParseLogConcat(RowLines(TxnRows(ts[0]), realState), RowLines(AllRows(ts[1..]), realState));
    }
  }

  // --- The text of the log file ---------------------------------------------------------------------------------

  predicate OneLine(text: string) {
    '\n' !in text
  }

  lemma ObjectTextIsOneLine(letter: char, id: Int64, version: Int64, cid: Int64)
    requires letter != '\n'
    ensures OneLine(ObjectText(letter, id, version, cid))
  {
    hide Print;
    forall n: Int64
      ensures OneLine(PrintBigint(n))
    {
      PrintIsPlain(if n < 0 then n + ULLONG_MAX + 1 else n, 10);
    }
  }

  lemma BigintIsOneLine(n: Int64)
    ensures OneLine(PrintBigint(n))
  {
    PrintIsPlain(if n < 0 then n + ULLONG_MAX + 1 else n, 10);
  }

  lemma MessageIsOneLine(change: Change)
    requires Message(change).Some?
    ensures OneLine(Message(change).value)
  {
    hide PrintBigint, FindAttribute, ObjectText;
    if change.newTuple.Some? {
      var table, tuple := FindTable(change.table).value, change.newTuple.value;
      match (FindAttribute(tuple, table.idName), FindAttribute(tuple, "version"), FindAttribute(tuple, "changeset_id"))
      case (Some(id), Some(version), Some(cid)) =>
        ObjectTextIsOneLine(table.letter, id, version, cid);
        if FindAttribute(tuple, "redaction_id").Some? {
          BigintIsOneLine(FindAttribute(tuple, "redaction_id").value);
        }
      case (_, _, _) =>
    }
  }

  predicate RowIsOneLine(row: Row) {
    OneLine(row.lsn) && OneLine(row.xid) && OneLine(row.message)
  }

  lemma {:induction false} ChangeRowsAreLines(xid: nat, changes: seq<Located>)
    ensures forall r :: r in ChangeRows(xid, changes) ==> RowIsOneLine(r)
    decreases |changes|
  {
    hide Print, Str, Message;
    if changes != [] {
      ChangeRowsAreLines(xid, changes[1..]);
      StrIsPlain(changes[0].lsn);
      PrintIsPlain(xid, 10);
      if Message(changes[0].change).Some? {
        MessageIsOneLine(changes[0].change);
      }
    }
  }

  lemma {:induction false} RowsAreLines(ts: seq<Transaction>)
    ensures forall r :: r in AllRows(ts) ==> RowIsOneLine(r)
  {
    hide Print, Str, ChangeRows;
    if ts != [] {
      ChangeRowsAreLines(ts[0].xid, ts[0].changes);
      StrIsPlain(ts[0].end);
      PrintIsPlain(ts[0].xid, 10);
      RowsAreLines(ts[1..]);
    }
  }

  /**
   The round trip: for all transactions, the log file that get-log writes, with the real state or
   with "0/0 0", is read as exactly the inserted object versions, in order. Updates, redactions,
   commits and malformed rows contribute nothing.
   */
  lemma {:induction false} LogRoundTrip(ts: seq<Transaction>, realState: bool)
    ensures ParseLog(Lines(Unlines(RowLines(AllRows(ts), realState)))) == Success(InsertedByAll(ts))
  {
    hide ParseLog, AllRows, InsertedByAll, Lines;
    var rows := AllRows(ts);
    RowsAreLines(ts);
    forall l | l in RowLines(rows, realState)
      ensures '\n' !in l
    {
      var i :| 0 <= i < |rows| && RowLines(rows, realState)[i] == l;
      assert RowIsOneLine(rows[i]);
    }
    LinesOfUnlines(RowLines(rows, realState));
    AllRowsRead(ts, realState);
  }

  // --- Is there anything to write, and up to which LSN ------------------------------------------------------------

  lemma InsertedIffNew(change: Change)
    requires Message(change).Some?
    ensures CharAt(Message(change).value, 0) == 'N' <==> Inserted(change) != []
  {
    InsertedByTable(change);
    hide PrintBigint, FindAttribute, ObjectRead, ObjectText, Inserted;
    if change.newTuple == None {
      assert NULL_TUPLE[0] == 'X';
    } else {
      var table, tuple := FindTable(change.table).value, change.newTuple.value;
      match (FindAttribute(tuple, table.idName), FindAttribute(tuple, "version"), FindAttribute(tuple, "changeset_id"))
      case (Some(id), Some(version), Some(cid)) =>
        var text := ObjectText(table.letter, id, version, cid);
        assert ("N " + text)[0] == 'N' && ("R " + text)[0] == 'R' && (NULL_REDACTION + text)[0] == 'U';
      case (_, _, _) =>
        assert NULL_KEY[0] == 'X';
    }
  }

  lemma HasNewConcat(a: seq<Row>, b: seq<Row>)
    ensures HasNewRow(a + b) <==> HasNewRow(a) || HasNewRow(b)
  {
    hide IsNewRow;
    if HasNewRow(a) {
      var i :| 0 <= i < |a| && IsNewRow(a[i]);
      assert (a + b)[i] == a[i];
    }
    if HasNewRow(b) {
      var i :| 0 <= i < |b| && IsNewRow(b[i]);
      assert (a + b)[|a| + i] == b[i];
    }
  }

  lemma {:induction false} ChangeRowsNew(xid: nat, changes: seq<Located>)
    ensures HasNewRow(ChangeRows(xid, changes)) <==> InsertedBy(changes) != []
    decreases |changes|
  {
    hide Message, Print, Str, Inserted;
    if changes != [] {
      ChangeRowsNew(xid, changes[1..]);
      var change := changes[0].change;
      if Message(change).Some? {
        var row := Row(Str(changes[0].lsn), Print(xid, 10), Message(change).value);
        InsertedIffNew(change);
        HasNewConcat([row], ChangeRows(xid, changes[1..]));
        assert HasNewRow([row]) <==> IsNewRow(row) by {
          assert [row][0] == row;
        }
      } else {
        NoMessageNoInsert(change);
      }
    }
  }

  /** get-log writes a file if and only if reading it will yield an object. */
  lemma {:induction false} ActualDataExactly(ts: seq<Transaction>)
    ensures HasNewRow(AllRows(ts)) <==> InsertedByAll(ts) != []
  {
    hide ChangeRows, InsertedBy, Str, Print, TouchesObjects, HasNewRow;
    NoNewRow();
    if ts != [] {
      var t := ts[0];
      ChangeRowsNew(t.xid, t.changes);
      ActualDataExactly(ts[1..]);
      HasNewConcat(TxnRows(t), AllRows(ts[1..]));
      CommitIsNotNew(Row(Str(t.end), Print(t.xid, 10), COMMIT));
      HasNewConcat(ChangeRows(t.xid, t.changes), [Row(Str(t.end), Print(t.xid, 10), COMMIT)]);
      assert ChangeRows(t.xid, t.changes) + [] == ChangeRows(t.xid, t.changes);
    }
  }

  lemma NoNewRow()
    ensures !HasNewRow([])
  {
  }

  lemma CommitIsNotNew(row: Row)
    requires row.message == COMMIT
    ensures !HasNewRow([row]) && IsCommitRow(row)
  {
    assert COMMIT[0] == 'C';
  }

  /** The LSN of the last transaction that left any row. */
  function LastEnd(ts: seq<Transaction>): LsnValue {
    if ts == [] then 0
    else if TouchesObjects(Changes(ts[|ts| - 1].changes)) then ts[|ts| - 1].end
    else LastEnd(ts[..|ts| - 1])
  }

  lemma {:induction false} ChangeRowsDoNotCommit(xid: nat, changes: seq<Located>)
    ensures forall i :: 0 <= i < |ChangeRows(xid, changes)| ==> !IsCommitRow(ChangeRows(xid, changes)[i])
    decreases |changes|
  {
    hide Message, Print, Str;
    if changes != [] {
      ChangeRowsDoNotCommit(xid, changes[1..]);
      if Message(changes[0].change).Some? {
        MessageLetter(changes[0].change);
      }
    }
  }

  lemma {:induction false} NoTouchNoRows(xid: nat, changes: seq<Located>)
    requires !TouchesObjects(Changes(changes))
    ensures ChangeRows(xid, changes) == []
    decreases |changes|
  {
    hide Print, Str;
    if changes != [] {
      assert Changes(changes)[0] == changes[0].change && !Touches(changes[0].change);
      assert Changes(changes)[1..] == Changes(changes[1..]);
      TouchesFirst(Changes(changes));
      NoTouchNoRows(xid, changes[1..]);
    }
  }

  lemma {:induction false} AllRowsSnoc(ts: seq<Transaction>, t: Transaction)
    ensures AllRows(ts + [t]) == AllRows(ts) + TxnRows(t)
  {
    hide TxnRows;
    if ts == [] {
      assert ts + [t] == [t] && [t][1..] == [];
      assert TxnRows(t) + [] == TxnRows(t) == [] + TxnRows(t);
    } else {
      assert (ts + [t])[1..] == ts[1..] + [t];
      AllRowsSnoc(ts[1..], t);
      assert TxnRows(ts[0]) + (AllRows(ts[1..]) + TxnRows(t)) == TxnRows(ts[0]) + AllRows(ts[1..]) + TxnRows(t);
    }
  }

  /** Whatever a peek of whole transactions shows, the last commit LSN is that of the last transaction seen. */
  lemma {:induction false} LastCommitIsLastEnd(ts: seq<Transaction>)
    ensures var rows := AllRows(ts); IsLastCommitLsn(rows, if rows == [] then "" else Str(LastEnd(ts)))
  {
    hide ChangeRows, Str, Print, TouchesObjects, IsCommitRow, AllRows;
    NoRows();
    if ts != [] {
      var rest, t := ts[..|ts| - 1], ts[|ts| - 1];
      assert ts == rest + [t];
      AllRowsSnoc(rest, t);
      LastCommitIsLastEnd(rest);
      ChangeRowsDoNotCommit(t.xid, t.changes);
      if TouchesObjects(Changes(t.changes)) {
        var commit := Row(Str(t.end), Print(t.xid, 10), COMMIT);
        CommitIsNotNew(commit);
        assert AllRows(ts)[|AllRows(ts)| - 1] == commit;
      } else {
        NoTouchNoRows(t.xid, t.changes);
        assert AllRows(rest) + ([] + []) == AllRows(rest);
      }
    }
  }

  lemma NoRows()
    ensures AllRows([]) == []
  {
  }

  /**
   For a non-empty peek the LSN that get-log ends with is never empty, `lsn_type` accepts it, and
   from the name of the log file catchup gets the end of the last transaction in it.
   */
  lemma {:induction false} FileNamedAfterLastTransaction(ts: seq<Transaction>, lsn: string, now: string)
    requires AllRows(ts) != [] && IsLastCommitLsn(AllRows(ts), lsn) && Timestamps.IsIso(now)
    ensures lsn == Str(LastEnd(ts)) && lsn != "" && ParseLsn(lsn) == Success(LastEnd(ts))
    ensures var name := LogNames.CreateReplicationLogName(LogNames.LSN_PREFIX + Dashed(lsn), now);
            LogNames.IsLog(name) && LogNames.LogLsn(name) == Success(LastEnd(ts))
  {
    hide AllRows, LastEnd, ParseLsn, Dashed, LogNames.LogLsn, LogNames.Extension, IsLastCommitLsn, Print;
    LastCommitIsLastEnd(ts);
    LastCommitLsnUnique(AllRows(ts), lsn, Str(LastEnd(ts)));
    ParseOfStr(LastEnd(ts));
    LogNames.NameRoundTrip(LastEnd(ts), now);
  }
}
