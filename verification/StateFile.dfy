/** State files: how `state.txt` is written and read (src/state.cpp). */
module StateFile {
  import opened Wrappers
  import opened Text
  import opened Numbers
  import opened Timestamps

  datatype State = State(sequenceNumber: nat, timestamp: Timestamp)

  datatype StateError = InvalidSequenceNumber | InvalidTimestamp | MissingSequenceNumber | MissingTimestamp

  const SEQUENCE_KEY := "sequenceNumber"
  const TIMESTAMP_KEY := "timestamp"

  // --- Writing ---------------------------------------------------------------------------------

  function Escaped(text: string): string {
    if text == "" then "" else (if text[0] == ':' then "\\:" else [text[0]]) + Escaped(text[1..])
  }

  /** A comment line as `strftime` makes it: the calendar text is a parameter. */
  predicate IsComment(line: string) {
    line != "" && line[0] == '#' && '\n' !in line
  }

  function StateLines(state: State): seq<string> {
    [SEQUENCE_KEY + "=" + Print(state.sequenceNumber, 10), TIMESTAMP_KEY + "=" + Escaped(Iso(state.timestamp))]
  }

  function ToText(state: State, comment: Option<string>): string {
    Unlines((if comment.Some? then [comment.value] else []) + StateLines(state))
  }

  /** `State::to_string`, with its loop over the characters of the time stamp. */
  method ToString(state: State, comment: Option<string>) returns (str: string)
    ensures str == ToText(state, comment)
  {
    hide Print, Iso, Unlines, StateLines;
    LinesToText(state, comment);
    str := "";
    if comment.Some? {
      str := comment.value + "\n";
    }
    str := str + SEQUENCE_KEY + "=";
    str := str + Print(state.sequenceNumber, 10);
    str := str + "\n" + TIMESTAMP_KEY + "=";
    ghost var head := str;
    var iso := Iso(state.timestamp);
    for i := 0 to |iso|
      invariant str + Escaped(iso[i..]) == head + Escaped(iso)
    {
      ghost var before := str;
      assert iso[i..][1..] == iso[i + 1..];
      if iso[i] == ':' {
        str := str + "\\";
      }
      str := str + [iso[i]];
      assert str == before + if iso[i] == ':' then "\\:" else [iso[i]];
    }
    str := str + "\n";
    assert str == head + Escaped(iso) + "\n";
  }

  lemma LinesToText(state: State, comment: Option<string>)
    ensures ToText(state, comment)
            == (if comment.Some? then comment.value + "\n" else "")
               + SEQUENCE_KEY + "=" + Print(state.sequenceNumber, 10) + "\n" + TIMESTAMP_KEY + "="
               + Escaped(Iso(state.timestamp)) + "\n"
  {
    hide Print, Iso, Escaped;
    var lines := StateLines(state);
    assert lines[1..][1..] == [] && lines[1..][0] == lines[1];
    assert Unlines(lines[1..]) == lines[1] + "\n" + "";
    assert Unlines(lines) == lines[0] + "\n" + (lines[1] + "\n");
    if comment.Some? {
      assert ([comment.value] + lines)[1..] == lines;
    } else {
      assert [] + lines == lines;
    }
  }

  // --- Reading ---------------------------------------------------------------------------------

  function RemoveBackslash(text: string): string {
    if text == "" then "" else (if text[0] == '\\' then "" else [text[0]]) + RemoveBackslash(text[1..])
  }

  /** The fields before any line was read: both "not set". */
  const UNSET := State(0, EPOCH)

  function ParseLine(state: State, line: string): Result<State, StateError> {
    if line == "" || line[0] == '\0' || line[0] == '#' then Success(state)
    else
      var parts := SplitString(line, '=');
      if |parts| != 2 then Success(state)
      else if parts[0] == SEQUENCE_KEY then
        var number := StrToULL(parts[1], 0, 10);
        if number.end != |parts[1]| then Failure(InvalidSequenceNumber)
        else Success(state.(sequenceNumber := number.value))
      else if parts[0] == TIMESTAMP_KEY then
        match ParseIso(RemoveBackslash(parts[1]))
        case None => Failure(InvalidTimestamp)
        case Some(t) => Success(state.(timestamp := t))
      else Success(state)
  }

  function ParseLines(state: State, lines: seq<string>): Result<State, StateError>
    decreases |lines|
  {
    if lines == [] then Success(state)
    else
      match ParseLine(state, lines[0])
      case Failure(e) => Failure(e)
      case Success(next) => ParseLines(next, lines[1..])
  }

  function CheckComplete(state: State): Result<State, StateError> {
    if state.sequenceNumber == 0 then Failure(MissingSequenceNumber)
    else if state.timestamp == EPOCH then Failure(MissingTimestamp)
    else Success(state)
  }

  function ParseState(text: string): Result<State, StateError> {
    match ParseLines(UNSET, Lines(text))
    case Failure(e) => Failure(e)
    case Success(state) => CheckComplete(state)
  }

  /** The `State` constructor: the line loop updates the two fields, then both must have been set. */
  method ReadState(text: string) returns (r: Result<State, StateError>)
    ensures r == ParseState(text)
  {
    hide ParseLine;
    var lines := Lines(text);
    var state := UNSET;
    for i := 0 to |lines|
      invariant ParseLines(UNSET, lines) == ParseLines(state, lines[i..])
    {
      assert lines[i..][0] == lines[i] && lines[i..][1..] == lines[i + 1..];
      var next := ParseLine(state, lines[i]);
      if next.Failure? {
        return Failure(next.error);
      }
      state := next.value;
    }
    return CheckComplete(state);
  }

  // --- The two directions undo each other ---------------------------------------------------------

  lemma {:induction false} RemoveBackslashOfEscaped(text: string)
    ensures RemoveBackslash(Escaped(text)) == RemoveBackslash(text)
  {
    if text != "" {
      RemoveBackslashOfEscaped(text[1..]);
      var e := Escaped(text);
      if text[0] == ':' {
        assert e == "\\:" + Escaped(text[1..]);
        assert e[1..] == ":" + Escaped(text[1..]);
        assert e[1..][1..] == Escaped(text[1..]);
      } else {
        assert e[1..] == Escaped(text[1..]);
      }
    }
  }

  lemma {:induction false} RemoveBackslashKeeps(text: string)
    requires '\\' !in text
    ensures RemoveBackslash(text) == text
  {
    if text != "" {
      RemoveBackslashKeeps(text[1..]);
    }
  }

  lemma {:induction false} EscapedKeepsOut(text: string, c: char)
    requires c !in text && c != '\\' && c != ':'
    ensures c !in Escaped(text)
  {
    if text != "" {
      EscapedKeepsOut(text[1..], c);
    }
  }

  lemma SequenceLine(state: State, n: nat)
    requires n <= ULLONG_MAX
    ensures '\n' !in SEQUENCE_KEY + "=" + Print(n, 10)
    ensures ParseLine(state, SEQUENCE_KEY + "=" + Print(n, 10)) == Success(state.(sequenceNumber := n))
  {
    hide Print, Value, StrToULL, IsDigit, Split;
    var digits := Print(n, 10);
    ValueOfPrint(n, 10);
    assert forall i :: 0 <= i < |digits| ==> digits[i] != '=' && digits[i] != '\n' by {
      assert forall i :: 0 <= i < |digits| ==> IsDigit(digits[i], 10);
      assert !IsDigit('=', 10) && !IsDigit('\n', 10) by {
        NotDigits();
      }
    }
    SplitFirstField(SEQUENCE_KEY, '=', digits);
    SplitSingle(digits, '=');
    StrToULLOfDigits("", digits, "", 10);
    assert "" + digits + "" == digits && |"" + digits| == |digits|;
  }

  lemma NotDigits()
    ensures !IsDigit('=', 10) && !IsDigit('\n', 10) && !IsDigit(' ', 10)
  {
  }

  lemma TimestampLine(state: State, t: Timestamp, value: string)
    requires value == Iso(t) || value == Escaped(Iso(t))
    ensures '\n' !in TIMESTAMP_KEY + "=" + value
    ensures ParseLine(state, TIMESTAMP_KEY + "=" + value) == Success(state.(timestamp := t))
  {
    hide Iso, ParseIso, Escaped, RemoveBackslash, Split;
    var iso := Iso(t);
    ParseOfIso(t);
    assert forall c :: c in iso ==> c != '\\' && c != '\n' && c != '=';
    EscapedKeepsOut(iso, '\n');
    EscapedKeepsOut(iso, '=');
    SplitFirstField(TIMESTAMP_KEY, '=', value);
    SplitSingle(value, '=');
    RemoveBackslashOfEscaped(iso);
    RemoveBackslashKeeps(iso);
  }

  lemma ParseTwoLines(state: State, value: string)
    requires state.sequenceNumber <= ULLONG_MAX
    requires value == Iso(state.timestamp) || value == Escaped(Iso(state.timestamp))
    ensures ParseLines(UNSET, [SEQUENCE_KEY + "=" + Print(state.sequenceNumber, 10), TIMESTAMP_KEY + "=" + value])
            == Success(state)
  {
    hide ParseLine, Print, Iso, Escaped;
    var first, second := SEQUENCE_KEY + "=" + Print(state.sequenceNumber, 10), TIMESTAMP_KEY + "=" + value;
    SequenceLine(UNSET, state.sequenceNumber);
    var next := UNSET.(sequenceNumber := state.sequenceNumber);
    TimestampLine(next, state.timestamp, value);
    assert [first, second][1..] == [second] && [second][1..] == [];
    assert ParseLines(next, [second]) == ParseLines(state, []);
  }

  /**
   Reading a written state file gives the same state, with or without the comment line, exactly
   when both properties count as set; otherwise reading fails.
   */
  lemma StateRoundTrip(state: State, comment: Option<string>)
    requires state.sequenceNumber <= ULLONG_MAX
    requires comment.Some? ==> IsComment(comment.value)
    ensures ParseState(ToText(state, comment)) == CheckComplete(state)
    ensures ParseState(ToText(state, comment)) == Success(state)
            <==> state.sequenceNumber != 0 && state.timestamp != EPOCH
    ensures state.sequenceNumber == 0 ==> ParseState(ToText(state, comment)) == Failure(MissingSequenceNumber)
    ensures state.sequenceNumber != 0 && state.timestamp == EPOCH ==>
              ParseState(ToText(state, comment)) == Failure(MissingTimestamp)
  {
    hide Print, Iso, Escaped, Lines, Unlines;
    var lines := StateLines(state);
    SequenceLine(UNSET, state.sequenceNumber);
    TimestampLine(UNSET, state.timestamp, Escaped(Iso(state.timestamp)));
    ParseTwoLines(state, Escaped(Iso(state.timestamp)));
    if comment.Some? {
      LinesOfUnlines([comment.value] + lines);
      assert ParseLine(UNSET, comment.value) == Success(UNSET);
      assert ([comment.value] + lines)[1..] == lines;
    } else {
      assert [] + lines == lines;
      LinesOfUnlines(lines);
    }
  }

  /** Readers understand the time stamp with and without backslashes. */
  lemma UnescapedStateIsRead(state: State)
    requires state.sequenceNumber <= ULLONG_MAX
    ensures ParseState(Unlines([SEQUENCE_KEY + "=" + Print(state.sequenceNumber, 10),
                                TIMESTAMP_KEY + "=" + Iso(state.timestamp)]))
            == CheckComplete(state)
  {
    hide Print, Iso, Escaped, Lines, Unlines;
    SequenceLine(UNSET, state.sequenceNumber);
    TimestampLine(UNSET, state.timestamp, Iso(state.timestamp));
    ParseTwoLines(state, Iso(state.timestamp));
    LinesOfUnlines([SEQUENCE_KEY + "=" + Print(state.sequenceNumber, 10), TIMESTAMP_KEY + "=" + Iso(state.timestamp)]);
  }

  /** Empty lines, comments, lines that are not KEY=VALUE, and lines with an unknown key. */
  predicate IgnoredLine(line: string) {
    || line == "" || line[0] == '\0' || line[0] == '#'
    || |SplitString(line, '=')| != 2
    || (SplitString(line, '=')[0] != SEQUENCE_KEY && SplitString(line, '=')[0] != TIMESTAMP_KEY)
  }

  lemma {:induction false} IgnoredAmongLines(state: State, before: seq<string>, line: string, after: seq<string>)
    requires IgnoredLine(line)
    ensures ParseLines(state, before + [line] + after) == ParseLines(state, before + after)
    decreases |before|
  {
    if before == [] {
      assert [] + [line] + after == [line] + after && ([line] + after)[1..] == after && [] + after == after;
      assert ParseLine(state, line) == Success(state);
    } else {
      hide ParseLine;
      assert (before + [line] + after)[1..] == before[1..] + [line] + after;
      assert (before + after)[1..] == before[1..] + after;
      var next := ParseLine(state, before[0]);
      if next.Success? {
        IgnoredAmongLines(next.value, before[1..], line, after);
      }
    }
  }

  lemma {:induction false} LinesAfterWholeLines(before: seq<string>, text: string)
    requires forall l :: l in before ==> '\n' !in l
    ensures Lines(Unlines(before) + text) == before + Lines(text)
  {
    hide Lines;
    if before == [] {
      assert Unlines(before) + text == text;
    } else {
      LinesAfterWholeLines(before[1..], text);
      LinesCons(before[0], Unlines(before[1..]) + text);
      assert Unlines(before) + text == before[0] + "\n" + (Unlines(before[1..]) + text);
      assert [before[0]] + (before[1..] + Lines(text)) == before + Lines(text);
    }
  }

  /** Inserting an ignored line in front of any line of any text does not change what is read. */
  lemma IgnoredLinesDoNotMatter(before: seq<string>, line: string, rest: string)
    requires forall l :: l in before ==> '\n' !in l
    requires '\n' !in line && IgnoredLine(line)
    ensures ParseState(Unlines(before) + line + "\n" + rest) == ParseState(Unlines(before) + rest)
  {
    hide Lines, Unlines, ParseLines, IgnoredLine;
    LinesAfterWholeLines(before, rest);
    LinesAfterWholeLines(before, line + "\n" + rest);
    LinesCons(line, rest);
    assert Unlines(before) + line + "\n" + rest == Unlines(before) + (line + "\n" + rest);
    assert before + ([line] + Lines(rest)) == before + [line] + Lines(rest);
    IgnoredAmongLines(UNSET, before, line, Lines(rest));
  }

  // --- The text itself --------------------------------------------------------------------------

  lemma Regroup(a: string, b: string, c: string)
    ensures a + (b + c) == a + b + c
  {
  }

  lemma EscapedCons(c: char, text: string)
    ensures Escaped([c] + text) == (if c == ':' then "\\:" else [c]) + Escaped(text)
  {
    assert ([c] + text)[1..] == text;
  }

  lemma {:induction false} EscapedConcat(a: string, b: string)
    ensures Escaped(a + b) == Escaped(a) + Escaped(b)
  {
    if a == "" {
      assert a + b == b;
    } else {
      EscapedConcat(a[1..], b);
      EscapedCons(a[0], a[1..] + b);
      assert a + b == [a[0]] + (a[1..] + b);
      Regroup(if a[0] == ':' then "\\:" else [a[0]], Escaped(a[1..]), Escaped(b));
    }
  }

  lemma {:induction false} EscapedPlain(a: string)
    requires ':' !in a
    ensures Escaped(a) == a
  {
    if a != "" {
      EscapedPlain(a[1..]);
    }
  }

  lemma EscapedColon(a: string, b: string)
    requires ':' !in a
    ensures Escaped(a + ":" + b) == a + "\\:" + Escaped(b)
  {
    EscapedPlain(a);
    EscapedConcat(a, ":" + b);
    assert a + ":" + b == a + (":" + b) && (":" + b)[1..] == b;
  }

  lemma {:induction false} EscapedIso(t: Timestamp)
    ensures |Iso(t)| == 20
    ensures Escaped(Iso(t)) == Iso(t)[..13] + "\\:" + (Iso(t)[14..16] + "\\:" + Iso(t)[17..])
  {
    ParseOfIso(t);
    IsoParts(t);
    hide Iso, Escaped;
    var iso := Iso(t);
    NoColons(iso);
    assert iso == iso[..13] + ":" + (iso[14..16] + ":" + iso[17..]);
    EscapedColon(iso[..13], iso[14..16] + ":" + iso[17..]);
    EscapedColon(iso[14..16], iso[17..]);
    EscapedPlain(iso[17..]);
  }

  /** The two lines of a state file; the colons of the time stamp come with a backslash. */
  lemma {:induction false} StateTextExactly(state: State, comment: Option<string>)
    ensures var iso := Iso(state.timestamp);
            && |iso| == 20
            && ToText(state, comment)
               == (if comment.Some? then comment.value + "\n" else "")
                  + "sequenceNumber=" + Print(state.sequenceNumber, 10) + "\n" + "timestamp="
                  + (iso[..13] + "\\:" + (iso[14..16] + "\\:" + iso[17..])) + "\n"
  {
    hide Print, Iso, Escaped, Unlines, StateLines, ToText;
    EscapedIso(state.timestamp);
    LinesToText(state, comment);
  }

  lemma NoColons(iso: string)
    requires IsIso(iso)
    ensures |iso| == 20 && ':' !in iso[..13] && ':' !in iso[14..16] && ':' !in iso[17..]
  {
    IsoShapeExactly(iso);
    hide IsIso;
  }

  lemma RemoveBackslashCons(c: char, text: string)
    ensures RemoveBackslash([c] + text) == (if c == '\\' then "" else [c]) + RemoveBackslash(text)
  {
    assert ([c] + text)[1..] == text;
  }

  /** Exactly the backslashes are removed. */
  lemma {:induction false} RemoveBackslashConcat(a: string, b: string)
    ensures RemoveBackslash(a + "\\" + b) == RemoveBackslash(a) + RemoveBackslash(b)
  {
    if a == "" {
      RemoveBackslashCons('\\', b);
      assert "" + "\\" + b == ['\\'] + b;
    } else {
      RemoveBackslashConcat(a[1..], b);
      RemoveBackslashCons(a[0], a[1..] + "\\" + b);
      assert a + "\\" + b == [a[0]] + (a[1..] + "\\" + b);
      Regroup(if a[0] == '\\' then "" else [a[0]], RemoveBackslash(a[1..]), RemoveBackslash(b));
    }
  }

  /** A line with a key and a value: what each key does, and what values it does not accept. */
  lemma KeyValueLine(state: State, key: string, value: string)
    requires key != "" && key[0] != '#' && key[0] != '\0' && '=' !in key && '=' !in value
    ensures var r := ParseLine(state, key + "=" + value);
            if key == "sequenceNumber" then
              var n := StrToULL(value, 0, 10);
              r == if n.end == |value| then Success(state.(sequenceNumber := n.value)) else Failure(InvalidSequenceNumber)
            else if key == "timestamp" then
              var text := RemoveBackslash(value);
              if IsIso(text) then r == Success(state.(timestamp := ParseIso(text).value))
              else r == Failure(InvalidTimestamp)
            else r == Success(state)
  {
    hide StrToULL, ParseIso, IsIso, RemoveBackslash, Split;
    SplitFirstField(key, '=', value);
    SplitSingle(value, '=');
    TimestampOrNone(RemoveBackslash(value));
  }

  lemma TimestampOrNone(text: string)
    ensures ParseIso(text).Some? <==> IsIso(text)
  {
    hide IsIso, Value;
  }

  /** A number that something else follows is an error. */
  lemma {:induction false} JunkBehindNumber(state: State, digits: string, junk: string)
    requires digits != "" && AllDigits(digits, 10)
    requires junk != "" && !IsDigit(junk[0], 10) && junk[0] != 'x' && junk[0] != 'X'
    requires '=' !in digits && '=' !in junk
    ensures ParseLine(state, "sequenceNumber=" + digits + junk) == Failure(InvalidSequenceNumber)
  {
    hide StrToULL, Value, IsDigit, ParseLine;
    StrToULLOfDigits("", digits, junk, 10);
    assert "" + digits + junk == digits + junk && |"" + digits| == |digits|;
    assert "sequenceNumber" + "=" + (digits + junk) == "sequenceNumber=" + digits + junk;
    KeyValueLine(state, "sequenceNumber", digits + junk);
  }

  lemma {:induction false} ParseLinesConcat(state: State, a: seq<string>, mid: State, b: seq<string>)
    requires ParseLines(state, a) == Success(mid)
    ensures ParseLines(state, a + b) == ParseLines(mid, b)
    decreases |a|
  {
    hide ParseLine;
    if a == [] {
      assert a + b == b;
    } else {
      assert (a + b)[0] == a[0] && (a + b)[1..] == a[1..] + b;
      ParseLinesConcat(ParseLine(state, a[0]).value, a[1..], mid, b);
    }
  }

  /** When a property is given twice, the last one counts. */
  lemma LastLineWins(first: State, second: State)
    requires first.sequenceNumber <= ULLONG_MAX && second.sequenceNumber <= ULLONG_MAX
    ensures ParseLines(UNSET, StateLines(first) + StateLines(second)) == Success(second)
  {
    hide ParseLine, Print, Iso, Escaped;
    ParseTwoLines(first, Escaped(Iso(first.timestamp)));
    ParseLinesConcat(UNSET, StateLines(first), first, StateLines(second));
    SequenceLine(first, second.sequenceNumber);
    TimestampLine(first.(sequenceNumber := second.sequenceNumber), second.timestamp, Escaped(Iso(second.timestamp)));
    var lines := StateLines(second);
    assert lines[1..][0] == lines[1] && lines[1..][1..] == [];
    assert ParseLines(second, []) == Success(second);
  }

  lemma KeyInFront(state: State, line: string)
    requires ParseLine(state, line).Success?
    ensures !("sequenceNumber=" <= line) ==> ParseLine(state, line).value.sequenceNumber == state.sequenceNumber
    ensures !("timestamp=" <= line) ==> ParseLine(state, line).value.timestamp == state.timestamp
  {
    hide StrToULL, ParseIso, RemoveBackslash, Split;
    var parts := SplitString(line, '=');
    if |parts| == 2 {
      FirstField(line, '=');
      assert line[..|parts[0]| + 1] == parts[0] + "=";
    }
  }

  lemma {:induction false} KeysInFront(state: State, lines: seq<string>)
    requires ParseLines(state, lines).Success?
    ensures (forall l :: l in lines ==> !("sequenceNumber=" <= l)) ==>
              ParseLines(state, lines).value.sequenceNumber == state.sequenceNumber
    ensures (forall l :: l in lines ==> !("timestamp=" <= l)) ==>
              ParseLines(state, lines).value.timestamp == state.timestamp
    decreases |lines|
  {
    hide ParseLine;
    if lines != [] {
      KeyInFront(state, lines[0]);
      KeysInFront(ParseLine(state, lines[0]).value, lines[1..]);
      assert lines[0] in lines && forall l :: l in lines[1..] ==> l in lines;
    }
  }

  /** A text without one of the two lines is refused, whatever else is in it. */
  lemma MissingLine(text: string)
    ensures (forall l :: l in Lines(text) ==> !("sequenceNumber=" <= l)) ==>
              ParseState(text).Failure? && (ParseLines(UNSET, Lines(text)).Success? ==>
                                              ParseState(text) == Failure(MissingSequenceNumber))
    ensures (forall l :: l in Lines(text) ==> !("timestamp=" <= l)) ==>
              ParseState(text).Failure?
  {
    hide ParseLines, Lines;
    if ParseLines(UNSET, Lines(text)).Success? {
      KeysInFront(UNSET, Lines(text));
    }
  }
}
