/**
 osmdbt-get-log (src/osmdbt-get-log.cpp): the rows of a peek become the lines of a log file, named
 after the last commit LSN; then, if asked for, the slot is advanced to that LSN.
 */
module GetLog {
  import opened Wrappers
  import opened Text
  import opened Lsn
  import LogNames

  /** A row of `pg_logical_slot_peek_changes`. */
  datatype Row = Row(lsn: string, xid: string, message: string)

  function RowLine(row: Row, realState: bool): string {
    (if realState then row.lsn + " " + row.xid else "0/0 0") + " " + row.message
  }

  function RowLines(rows: seq<Row>, realState: bool): (lines: seq<string>)
    ensures |lines| == |rows|
    ensures forall i :: 0 <= i < |rows| ==> lines[i] == RowLine(rows[i], realState)
  {
    seq(|rows|, i requires 0 <= i < |rows| => RowLine(rows[i], realState))
  }

  predicate IsCommitRow(row: Row) {
    CharAt(row.message, 0) == 'C'
  }

  predicate IsNewRow(row: Row) {
    CharAt(row.message, 0) == 'N'
  }

  /** The LSN of the last commit row is `lsn`; without one, `lsn` is empty. */
  ghost predicate IsLastCommitLsn(rows: seq<Row>, lsn: string) {
    || (lsn == "" && forall i :: 0 <= i < |rows| ==> !IsCommitRow(rows[i]))
    || exists i :: && 0 <= i < |rows| && IsCommitRow(rows[i]) && rows[i].lsn == lsn
                   && forall j :: i < j < |rows| ==> !IsCommitRow(rows[j])
  }

  predicate HasNewRow(rows: seq<Row>) {
    exists i :: 0 <= i < |rows| && IsNewRow(rows[i])
  }

  lemma LastCommitLsnUnique(rows: seq<Row>, a: string, b: string)
    requires IsLastCommitLsn(rows, a) && IsLastCommitLsn(rows, b)
    ensures a == b
  {
  }

  /** The loop over the rows. */
  method BuildLog(rows: seq<Row>, realState: bool) returns (data: string, lsn: string, hasActualData: bool)
    ensures data == Unlines(RowLines(rows, realState))
    ensures IsLastCommitLsn(rows, lsn)
    ensures hasActualData <==> HasNewRow(rows)
  {
    hide Unlines, IsLastCommitLsn, HasNewRow, RowLine;
    data, lsn, hasActualData := "", "", false;
    NoRowsYet(realState);
    for i := 0 to |rows|
      invariant data == Unlines(RowLines(rows[..i], realState))
      invariant IsLastCommitLsn(rows[..i], lsn)
      invariant hasActualData <==> HasNewRow(rows[..i])
    {
      var row := rows[i];
      NextRow(rows, i, lsn);
      NextLine(rows, i, realState);
      LineIs(row, realState);
      if realState {
        data := data + (row.lsn + " " + row.xid + " ");
      } else {
        data := data + "0/0 0 ";
      }
      data := data + (row.message + "\n");
      if CharAt(row.message, 0) == 'C' {
        lsn := row.lsn;
      } else if CharAt(row.message, 0) == 'N' {
        hasActualData := true;
      }
    }
    assert rows[..|rows|] == rows;
  }

  lemma NoRowsYet(realState: bool)
    ensures Unlines(RowLines([], realState)) == "" && IsLastCommitLsn([], "") && !HasNewRow([])
  {
  }

  lemma NextLine(rows: seq<Row>, i: nat, realState: bool)
    requires i < |rows|
    ensures Unlines(RowLines(rows[..i + 1], realState))
            == Unlines(RowLines(rows[..i], realState)) + (RowLine(rows[i], realState) + "\n")
  {
    hide RowLine, Unlines;
    var lines := RowLines(rows[..i], realState);
    assert RowLines(rows[..i + 1], realState) == lines + [RowLine(rows[i], realState)];
    UnlinesSnoc(lines, RowLine(rows[i], realState));
  }

  lemma LineIs(row: Row, realState: bool)
    ensures RowLine(row, realState) + "\n"
            == (if realState then row.lsn + " " + row.xid + " " else "0/0 0 ") + (row.message + "\n")
  {
  }

  lemma UnlinesSnoc(lines: seq<string>, line: string)
    ensures Unlines(lines + [line]) == Unlines(lines) + (line + "\n")
  {
    UnlinesConcat(lines, [line]);
    assert [line][1..] == [];
    assert Unlines([line]) == line + "\n";
  }

  lemma NextRow(rows: seq<Row>, i: nat, lsn: string)
    requires i < |rows| && IsLastCommitLsn(rows[..i], lsn)
    ensures IsLastCommitLsn(rows[..i + 1], if IsCommitRow(rows[i]) then rows[i].lsn else lsn)
    ensures HasNewRow(rows[..i + 1]) <==> HasNewRow(rows[..i]) || IsNewRow(rows[i])
  {
    hide IsLastCommitLsn, HasNewRow, IsCommitRow, IsNewRow;
    assert rows[..i + 1] == rows[..i] + [rows[i]];
    NextCommit(rows[..i], rows[i], lsn);
    NextNew(rows[..i], rows[i]);
  }

  lemma NextNew(rows: seq<Row>, row: Row)
    ensures HasNewRow(rows + [row]) <==> HasNewRow(rows) || IsNewRow(row)
  {
    hide IsNewRow;
    assert (rows + [row])[|rows|] == row;
    if HasNewRow(rows) {
      var k :| 0 <= k < |rows| && IsNewRow(rows[k]);
      assert IsNewRow((rows + [row])[k]);
    }
  }

  lemma NextCommit(rows: seq<Row>, row: Row, lsn: string)
    requires IsLastCommitLsn(rows, lsn)
    ensures IsLastCommitLsn(rows + [row], if IsCommitRow(row) then row.lsn else lsn)
  {
    hide IsCommitRow;
    var all := rows + [row];
    assert all[|rows|] == row;
    if !IsCommitRow(row) && exists k :: && 0 <= k < |rows| && IsCommitRow(rows[k]) && rows[k].lsn == lsn
                                        && forall j :: k < j < |rows| ==> !IsCommitRow(rows[j]) {
      var k :| && 0 <= k < |rows| && IsCommitRow(rows[k]) && rows[k].lsn == lsn
               && forall j :: k < j < |rows| ==> !IsCommitRow(rows[j]);
      assert all[k] == rows[k];
      assert forall j :: k < j < |all| ==> !IsCommitRow(all[j]);
    }
  }

  // --- The effects ----------------------------------------------------------------------------------------

  datatype Effect = WriteFile(name: string, data: string) | AdvanceSlot(lsn: string)

  datatype GetLogError = WriteError | BadLsn(error: LsnError)

  datatype Options = Options(realState: bool, catchup: bool)

  /**
   `app` behind the query. A file is written if and only if there is a new object version; the slot
   is only advanced when asked for, and never before the file is written and synced.
   `writeOk` says whether writing succeeds, `now` is the clock reading.
   */
  method App(rows: seq<Row>, options: Options, now: string, writeOk: bool)
    returns (effects: seq<Effect>, lsn: string, error: Option<GetLogError>)
    ensures IsLastCommitLsn(rows, lsn)
    ensures error == Some(WriteError) <==> HasNewRow(rows) && !writeOk
    ensures HasNewRow(rows) && writeOk ==>
              effects != [] && effects[0] == WriteFile(LogNames.CreateReplicationLogName(LogNames.LSN_PREFIX + Dashed(lsn), now),
                                                       Unlines(RowLines(rows, options.realState)))
    ensures forall i :: 0 <= i < |effects| && effects[i].WriteFile? ==> i == 0 && HasNewRow(rows) && writeOk
    ensures forall i :: 0 <= i < |effects| && effects[i].AdvanceSlot? ==>
                          && options.catchup && i == |effects| - 1 && (HasNewRow(rows) ==> i == 1)
                          && ParseLsn(lsn).Success? && effects[i].lsn == Str(ParseLsn(lsn).value)
    ensures rows != [] && options.catchup && error == None ==> effects != [] && effects[|effects| - 1].AdvanceSlot?
    ensures error.Some? && error.value.BadLsn? ==> rows != [] && options.catchup && ParseLsn(lsn).Failure?
    ensures |effects| == (if HasNewRow(rows) && writeOk then 1 else 0)
                         + (if rows != [] && options.catchup && error == None then 1 else 0)
  {
    hide ParseLsn, Str, Dashed, RowLine, IsLastCommitLsn;
    NoRowsYet(options.realState);
    effects := [];
    var data, hasActualData;
    data, lsn, hasActualData := BuildLog(rows, options.realState);
    if rows == [] {
      return effects, lsn, None;
    }
    if hasActualData {
      if !writeOk {
        return effects, lsn, Some(WriteError);
      }
      effects := effects + [WriteFile(LogNames.CreateReplicationLogName(LogNames.LSN_PREFIX + Dashed(lsn), now), data)];
    }
    if options.catchup {
      match ParseLsn(lsn)
      case Failure(e) =>
        return effects, lsn, Some(BadLsn(e));
      case Success(l) =>
        effects := effects + [AdvanceSlot(Str(l))];
    }
    return effects, lsn, None;
  }

  /** `lsn_type("")` throws: rows without a commit row would make `--catchup` fail. */
  lemma NoCommitNoLsn()
    ensures ParseLsn("").Failure?
  {
  }
}
