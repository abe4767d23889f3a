/**
 Lines and fields: the text primitives that the log format and the state file format share.

 `SplitString` is libosmium's `split_string` (an empty text has no field at all), `Lines` is
 what repeated calls of `std::getline` return (a final newline does not start another line).
 */
module Text {

  function Split(s: string, sep: char): (parts: seq<string>)
    ensures |parts| >= 1
  {
    if s == "" then
      [""]
    else
      var rest := Split(s[1..], sep);
      if s[0] == sep then [""] + rest else [[s[0]] + rest[0]] + rest[1..]
  }

  function SplitString(s: string, sep: char): seq<string> {
    if s == "" then [] else Split(s, sep)
  }

  function Join(parts: seq<string>, sep: char): string
    requires parts != []
  {
    if |parts| == 1 then parts[0] else parts[0] + [sep] + Join(parts[1..], sep)
  }

  function Lines(text: string): seq<string> {
    var parts := Split(text, '\n');
    if parts[|parts| - 1] == "" then parts[..|parts| - 1] else parts
  }

  function Unlines(lines: seq<string>): string {
    if lines == [] then "" else lines[0] + "\n" + Unlines(lines[1..])
  }

  /** What `text[i]` reads in a NUL-terminated C string. */
  function CharAt(text: string, i: nat): char {
    if i < |text| then text[i] else '\0'
  }

  lemma {:induction false} SplitFirstField(a: string, sep: char, b: string)
    requires sep !in a
    ensures Split(a + [sep] + b, sep) == [a] + Split(b, sep)
  {
    if a == "" {
      assert (a + [sep] + b)[1..] == b;
    } else {
      assert (a + [sep] + b)[1..] == a[1..] + [sep] + b;
      SplitFirstField(a[1..], sep, b);
      var rest := Split(a[1..] + [sep] + b, sep);
      assert rest[0] == a[1..] && rest[1..] == Split(b, sep);
      assert [a[0]] + a[1..] == a;
    }
  }

  /** The first field is what stands in front of the first separator. */
  lemma {:induction false} FirstField(s: string, sep: char)
    ensures var first := Split(s, sep)[0];
            && sep !in first && first <= s && (|first| < |s| ==> s[|first|] == sep)
    ensures |Split(s, sep)| > 1 <==> |Split(s, sep)[0]| < |s|
  {
    if s != "" {
      FirstField(s[1..], sep);
    }
  }

  lemma {:induction false} SplitSingle(a: string, sep: char)
    requires sep !in a
    ensures Split(a, sep) == [a]
  {
    if a != "" {
      SplitSingle(a[1..], sep);
      assert [a[0]] + a[1..] == a;
    }
  }

  /** Splitting undoes joining, when no field contains the separator. */
  lemma {:induction false} SplitOfJoin(parts: seq<string>, sep: char)
    requires parts != []
    requires forall p :: p in parts ==> sep !in p
    ensures Split(Join(parts, sep), sep) == parts
  {
    if |parts| == 1 {
      SplitSingle(parts[0], sep);
    } else {
      SplitFirstField(parts[0], sep, Join(parts[1..], sep));
      SplitOfJoin(parts[1..], sep);
      assert [parts[0]] + parts[1..] == parts;
    }
  }

  lemma LinesCons(line: string, text: string)
    requires '\n' !in line
    ensures Lines(line + "\n" + text) == [line] + Lines(text)
  {
    SplitFirstField(line, '\n', text);
    var parts := Split(text, '\n');
    assert ([line] + parts)[..|parts|] == [line] + parts[..|parts| - 1];
  }

  /** `std::getline` gets back the lines a tool wrote, when no line contains a newline. */
  lemma {:induction false} LinesOfUnlines(lines: seq<string>)
    requires forall l :: l in lines ==> '\n' !in l
    ensures Lines(Unlines(lines)) == lines
  {
    if lines != [] {
      LinesOfUnlines(lines[1..]);
      LinesCons(lines[0], Unlines(lines[1..]));
      assert [lines[0]] + lines[1..] == lines;
    }
  }

  lemma {:induction false} UnlinesConcat(a: seq<string>, b: seq<string>)
    ensures Unlines(a + b) == Unlines(a) + Unlines(b)
  {
    if a == [] {
      assert a + b == b;
    } else {
      UnlinesConcat(a[1..], b);
      assert (a + b)[1..] == a[1..] + b;
    }
  }

  /** A last line without newline is a line, too. */
  lemma {:induction false} LinesOfPartial(lines: seq<string>, last: string)
    requires forall l :: l in lines ==> '\n' !in l
    requires '\n' !in last && last != ""
    ensures Lines(Unlines(lines) + last) == lines + [last]
  {
    if lines == [] {
      SplitSingle(last, '\n');
      assert Unlines(lines) + last == last;
    } else {
      LinesOfPartial(lines[1..], last);
      LinesCons(lines[0], Unlines(lines[1..]) + last);
      assert Unlines(lines) + last == lines[0] + "\n" + (Unlines(lines[1..]) + last);
      assert [lines[0]] + (lines[1..] + [last]) == lines + [last];
    }
  }
}
