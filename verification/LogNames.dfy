/**
 Names of log files, and how osmdbt-catchup finds the newest LSN among them
 (src/util.cpp, src/osmdbt-catchup.cpp).
 */
module LogNames {
  import opened Wrappers
  import opened Text
  import opened Numbers
  import opened Timestamps
  import opened Lsn
  import SequencePath

  const PREFIX := "osm-repl-"
  const LSN_PREFIX := "lsn-"
  const SUFFIX := ".log"

  /** `create_replication_log_name`; the clock reading is the parameter `now`. */
  function CreateReplicationLogName(name: string, now: string): string {
    PREFIX + now + "-" + name + SUFFIX
  }

  /** The index of the last dot, or -1. */
  function LastDot(name: string): (i: int)
    ensures -1 <= i < |name|
    ensures i >= 0 ==> name[i] == '.'
    ensures forall k :: i < k < |name| ==> name[k] != '.'
  {
    if name == "" then -1
    else if name[|name| - 1] == '.' then |name| - 1
    else LastDot(name[..|name| - 1])
  }

  /** `std::filesystem::path::extension` of a plain file name. */
  function Extension(name: string): string {
    if name == "." || name == ".." || LastDot(name) <= 0 then "" else name[LastDot(name)..]
  }

  /** One upper-case hexadecimal digit, as in the class [0-9A-F]. */
  predicate IsUpperHex(c: char) {
    '0' <= c <= '9' || 'A' <= c <= 'F'
  }

  predicate IsUpperHexText(text: string) {
    text != "" && forall i :: 0 <= i < |text| ==> IsUpperHex(text[i])
  }

  /** What the regular expression in osmdbt-catchup says a log file name is. */
  ghost predicate MatchesPattern(fileName: string, iso: string, upper: string, lower: string) {
    && IsIso(iso) && IsHexRun(upper) && IsHexRun(lower)
    && fileName == "osm-repl-" + iso + "-lsn-" + upper + "-" + lower + ".log"
  }

  /** The class `[0-9A-F]+`. */
  predicate IsHexRun(text: string) {
    text != "" && forall i :: 0 <= i < |text| ==> text[i] in "0123456789ABCDEF"
  }

  lemma HexRunExactly(text: string)
    ensures IsUpperHexText(text) <==> IsHexRun(text)
  {
    var all := "0123456789ABCDEF";
    forall c: char
      ensures IsUpperHex(c) <==> c in all
    {
      if IsUpperHex(c) {
        assert all[if c <= '9' then c as int - 48 else c as int - 55] == c;
      }
    }
  }

  /** The length of the leading run of upper-case hexadecimal digits. */
  function HexRun(text: string): (n: nat)
    ensures n <= |text|
    ensures forall i :: 0 <= i < n ==> IsUpperHex(text[i])
    ensures n < |text| ==> !IsUpperHex(text[n])
  {
    if text != "" && IsUpperHex(text[0]) then 1 + HexRun(text[1..]) else 0
  }

  const LSN_START := |PREFIX| + ISO_LENGTH + 1 + |LSN_PREFIX|

  /** The captured group of the regular expression match, if the whole name matches. */
  function MatchLogName(fileName: string): Option<string> {
    if |fileName| < LSN_START + |SUFFIX| then None
    else
      var text := fileName[LSN_START..|fileName| - |SUFFIX|];
      var run := HexRun(text);
      if && fileName[..|PREFIX|] == PREFIX
         && IsIso(fileName[|PREFIX|..|PREFIX| + ISO_LENGTH])
         && fileName[|PREFIX| + ISO_LENGTH..LSN_START] == "-" + LSN_PREFIX
         && fileName[|fileName| - |SUFFIX|..] == SUFFIX
         && 0 < run < |text| - 1 && text[run] == '-' && IsUpperHexText(text[run + 1..])
      then Some(text) else None
  }

  lemma Pieces(a: string, b: string, c: string, d: string, e: string)
    ensures var s := a + b + c + d + e;
            && s[..|a|] == a && s[|a|..|a| + |b|] == b && s[|a| + |b|..|a| + |b| + |c|] == c
            && s[|a| + |b| + |c|..|s| - |e|] == d && s[|s| - |e|..] == e
  {
  }

  lemma RunOfPair(upper: string, lower: string)
    requires IsUpperHexText(upper) && IsUpperHexText(lower)
    ensures var text := upper + "-" + lower;
            HexRun(text) == |upper| && 0 < |upper| < |text| - 1 && text[|upper|] == '-' && text[|upper| + 1..] == lower
  {
    var text := upper + "-" + lower;
    assert text[|upper|] == '-' && !IsUpperHex('-');
    assert forall i :: 0 <= i < |upper| ==> text[i] == upper[i];
    assert text[|upper| + 1..] == lower;
  }

  /** The matcher accepts exactly the names that the pattern describes, and captures the LSN text. */
  lemma MatchLogNameComplete(fileName: string, iso: string, upper: string, lower: string)
    requires MatchesPattern(fileName, iso, upper, lower)
    ensures MatchLogName(fileName) == Some(upper + "-" + lower)
  {
    HexRunExactly(upper);
    HexRunExactly(lower);
    RunOfPair(upper, lower);
    hide IsHexRun, IsUpperHexText, IsIso, HexRun;
    var text := upper + "-" + lower;
    assert |iso| == ISO_LENGTH by {
      IsoShapeExactly(iso);
    }
    assert fileName == PREFIX + iso + ("-" + LSN_PREFIX) + text + SUFFIX;
    Pieces(PREFIX, iso, "-" + LSN_PREFIX, text, SUFFIX);
  }

  lemma MatchedParts(fileName: string) returns (iso: string, upper: string, lower: string)
    requires MatchLogName(fileName).Some?
    ensures IsIso(iso) && IsUpperHexText(upper) && IsUpperHexText(lower)
    ensures fileName == PREFIX + iso + ("-" + LSN_PREFIX) + (upper + "-" + lower) + SUFFIX
    ensures MatchLogName(fileName).value == upper + "-" + lower
  {
    hide IsIso;
    var text := fileName[LSN_START..|fileName| - |SUFFIX|];
    var run := HexRun(text);
    iso, upper, lower := fileName[|PREFIX|..|PREFIX| + ISO_LENGTH], text[..run], text[run + 1..];
    assert text == upper + "-" + lower;
    assert fileName == fileName[..|PREFIX|] + iso + fileName[|PREFIX| + ISO_LENGTH..LSN_START] + text
                       + fileName[|fileName| - |SUFFIX|..];
  }

  lemma MatchLogNameSound(fileName: string) returns (iso: string, upper: string, lower: string)
    requires MatchLogName(fileName).Some?
    ensures MatchesPattern(fileName, iso, upper, lower)
    ensures MatchLogName(fileName).value == upper + "-" + lower
  {
    hide IsIso, IsUpperHexText, IsHexRun, MatchLogName;
    iso, upper, lower := MatchedParts(fileName);
    HexRunExactly(upper);
    HexRunExactly(lower);
    assert "-" + LSN_PREFIX == "-lsn-";
  }

  lemma UpperHexIsHex(text: string)
    requires IsUpperHexText(text)
    ensures AllDigits(text, 16)
  {
  }

  lemma {:induction false} PrintIsUpperHex(n: nat)
    ensures IsUpperHexText(Print(n, 16))
    decreases n
  {
    if n >= 16 {
      PrintIsUpperHex(n / 16);
    }
  }

  /** The LSN of a log file, as osmdbt-catchup determines it: a name may not match, and parsing may fail. */
  datatype CatchupError = InvalidLogFileFormat(fileName: string) | BadLsn(error: LsnError)

  function LogLsn(fileName: string): Result<LsnValue, CatchupError> {
    match MatchLogName(fileName)
    case None => Failure(InvalidLogFileFormat(fileName))
    case Some(text) =>
      match ParseLsn(text)
      case Failure(e) => Failure(BadLsn(e))
      case Success(l) => Success(l)
  }

  /** A name that matches the pattern always holds an LSN: `lsn_type` cannot throw inside `get_lsn`. */
  lemma MatchedNameParses(fileName: string)
    ensures LogLsn(fileName).Success? <==> MatchLogName(fileName).Some?
  {
    if MatchLogName(fileName).Some? {
      var _, upper, lower := MatchLogNameSound(fileName);
      HexRunExactly(upper);
      HexRunExactly(lower);
      UpperHexIsHex(upper);
      UpperHexIsHex(lower);
      ParseOfHexPair(upper, '-', lower);
    }
  }

  lemma NameMatches(upper: string, lower: string, now: string)
    requires IsIso(now) && IsUpperHexText(upper) && IsUpperHexText(lower)
    ensures MatchLogName(CreateReplicationLogName(LSN_PREFIX + (upper + "-" + lower), now)) == Some(upper + "-" + lower)
  {
    hide MatchLogName, IsIso, IsUpperHexText, IsHexRun;
    var fileName := CreateReplicationLogName(LSN_PREFIX + (upper + "-" + lower), now);
    HexRunExactly(upper);
    HexRunExactly(lower);
    assert fileName == PREFIX + now + "-" + LSN_PREFIX + upper + "-" + lower + SUFFIX;
    MatchLogNameComplete(fileName, now, upper, lower);
  }

  lemma NameExtension(name: string, now: string)
    ensures Extension(CreateReplicationLogName(name, now)) == ".log"
  {
    hide Extension;
    var fileName := CreateReplicationLogName(name, now);
    var stem := fileName[..|fileName| - 4];
    assert fileName == stem + ".log";
    LogExtension(stem, ".log");
  }

  /** LSN, to text, to file name, through the pattern and back: the same LSN for all 64-bit values. */
  lemma {:induction false} NameRoundTrip(l: LsnValue, now: string)
    requires IsIso(now)
    ensures var fileName := CreateReplicationLogName(LSN_PREFIX + Dashed(Str(l)), now);
            Extension(fileName) == ".log" && LogLsn(fileName) == Success(l)
  {
    hide Print, MatchLogName, ParseLsn, Extension, Upper, Lower, IsIso, IsUpperHexText, CreateReplicationLogName;
    DashedStr(l);
    PrintIsUpperHex(Upper(l));
    PrintIsUpperHex(Lower(l));
    NameMatches(Print(Upper(l), 16), Print(Lower(l), 16), now);
    ParseOfDashedStr(l);
    NameExtension(LSN_PREFIX + Dashed(Str(l)), now);
  }

  lemma LogExtension(stem: string, extension: string)
    requires stem != "" && extension != "" && extension[0] == '.' && '.' !in extension[1..]
    ensures Extension(stem + extension) == extension || stem + extension == ".."
  {
    var name := stem + extension;
    var i := LastDot(name);
    assert name[|stem|] == '.';
    assert forall k :: |stem| < k < |name| ==> name[k] == extension[1..][k - |stem| - 1];
    assert i == |stem|;
    assert name[i..] == extension;
  }

  /** A log is a file whose name ends with ".log" and does not consist of that alone. */
  lemma IsLogExactly(name: string)
    ensures IsLog(name) <==> |name| > 4 && name[|name| - 4..] == ".log"
  {
    if |name| > 4 && name[|name| - 4..] == ".log" {
      LogExtension(name[..|name| - 4], ".log");
      assert name[..|name| - 4] + ".log" == name;
      assert name[|name| - 1] == 'g';
    }
  }

  /** The name tells the clock reading and what the file is named after: two names are equal only if both are. */
  lemma LogNameInjective(a: string, nowA: string, b: string, nowB: string)
    requires IsIso(nowA) && IsIso(nowB)
    ensures CreateReplicationLogName(a, nowA) == CreateReplicationLogName(b, nowB) <==> nowA == nowB && a == b
  {
    hide IsIso;
    var x, y := CreateReplicationLogName(a, nowA), CreateReplicationLogName(b, nowB);
    assert |nowA| == |nowB| == ISO_LENGTH by {
      IsoLength(nowA);
      IsoLength(nowB);
    }
    assert x[|PREFIX|..|PREFIX| + ISO_LENGTH] == nowA && y[|PREFIX|..|PREFIX| + ISO_LENGTH] == nowB;
    assert x[|PREFIX| + ISO_LENGTH + 1..|x| - 4] == a && y[|PREFIX| + ISO_LENGTH + 1..|y| - 4] == b;
  }

  lemma IsoLength(text: string)
    requires IsIso(text)
    ensures |text| == ISO_LENGTH
  {
  }

  /** What get-log calls a log file that ends with this LSN. */
  lemma LogNameExactly(l: LsnValue, now: string) returns (upper: string, lower: string)
    ensures CreateReplicationLogName(LSN_PREFIX + Dashed(Str(l)), now)
            == "osm-repl-" + now + "-lsn-" + upper + "-" + lower + ".log"
    ensures IsHexNumber(upper, l / 0x1_0000_0000) && IsHexNumber(lower, l % 0x1_0000_0000)
  {
    hide Str, Dashed, IsHexNumber;
    upper, lower := StrExactly(l);
    assert "-" + (LSN_PREFIX + (upper + "-" + lower)) == "-lsn-" + upper + "-" + lower;
  }

  /** Log files being written and log files already used up are not seen by catchup and create-diff. */
  lemma NewAndDoneAreIgnored(stem: string)
    ensures Extension(stem + ".log" + ".new") == ".new"
    ensures Extension(stem + ".log" + ".done") == ".done"
  {
    LogExtension(stem + ".log", ".new");
    LogExtension(stem + ".log", ".done");
  }

  /** A file written by osmdbt-fake-log carries a time instead of an LSN; catchup refuses to go on. */
  lemma FakeLogNameIsRefused(now: string, minute: string)
    requires IsIso(now) && IsIso(minute)
    ensures LogLsn(CreateReplicationLogName(minute, now)).Failure?
    ensures Extension(CreateReplicationLogName(minute, now)) == ".log"
  {
    var fileName := CreateReplicationLogName(minute, now);
    assert fileName[|PREFIX| + ISO_LENGTH + 1] == minute[0];
    assert ISO_SHAPE[0] == 'd' && '0' <= minute[0] <= '9';
    assert fileName[|PREFIX| + ISO_LENGTH..LSN_START][1] == minute[0] != ("-" + LSN_PREFIX)[1];
    LogExtension(fileName[..|fileName| - 4], ".log");
    assert fileName[..|fileName| - 4] + ".log" == fileName;
  }

  // --- get_lsn ---------------------------------------------------------------------------------

  predicate IsLog(fileName: string) {
    Extension(fileName) == SUFFIX
  }

  /** What `get_lsn` has to return for a set of directory entries, in whatever order they come. */
  ghost predicate IsNewestLsn(entries: seq<string>, r: Result<LsnValue, CatchupError>) {
    match r
    case Success(newest) =>
      && (forall e :: e in entries && IsLog(e) ==> LogLsn(e).Success? && LogLsn(e).value <= newest)
      && (newest == 0 || exists e :: e in entries && IsLog(e) && LogLsn(e) == Success(newest))
    case Failure(error) =>
      exists e :: e in entries && IsLog(e) && LogLsn(e) == Failure(error)
  }

  /** The directory loop of osmdbt-catchup. */
  method GetLsn(entries: seq<string>) returns (r: Result<LsnValue, CatchupError>)
    ensures IsNewestLsn(entries, r)
    ensures r.Success? <==> forall e :: e in entries && IsLog(e) ==> MatchLogName(e).Some?
  {
    hide Extension, LogLsn, MatchLogName;
    var newest: LsnValue := 0;
    for i := 0 to |entries|
      invariant IsNewestLsn(entries[..i], Success(newest))
      invariant forall e :: e in entries[..i] && IsLog(e) ==> MatchLogName(e).Some?
    {
      assert entries[..i + 1] == entries[..i] + [entries[i]];
      if IsLog(entries[i]) {
        MatchedNameParses(entries[i]);
        var lsn := LogLsn(entries[i]);
        if lsn.Failure? {
          return lsn;
        }
        if lsn.value > newest {
          newest := lsn.value;
        }
      }
    }
    assert entries[..|entries|] == entries;
    return Success(newest);
  }

  /**
   `app` of osmdbt-catchup up to the slot: the LSN it asks PostgreSQL to advance to, if any. The
   `--lsn` option, when it is not 0, takes the place of the directory.
   */
  method Catchup(option: LsnValue, entries: seq<string>) returns (r: Result<Option<string>, CatchupError>)
    ensures option != 0 ==> r == Success(Some(Str(option)))
    ensures option == 0 && r.Success? && r.value == None ==> IsNewestLsn(entries, Success(0))
    ensures option == 0 && r.Success? && r.value.Some? ==>
              ParseLsn(r.value.value).Success? && ParseLsn(r.value.value).value != 0
              && IsNewestLsn(entries, Success(ParseLsn(r.value.value).value))
    ensures option == 0 && r.Failure? ==> IsNewestLsn(entries, Failure(r.error))
  {
    hide IsNewestLsn, Str, ParseLsn;
    var lsn := option;
    if lsn == 0 {
      var newest := GetLsn(entries);
      if newest.Failure? {
        return Failure(newest.error);
      }
      lsn := newest.value;
    }
    if lsn == 0 {
      return Success(None);
    }
    ParseOfStr(lsn);
    return Success(Some(Str(lsn)));
  }

  /** The newest LSN does not depend on the order in which the directory is read. */
  lemma {:induction false} NewestLsnOrderIndependent(
      a: seq<string>, b: seq<string>, ra: Result<LsnValue, CatchupError>, rb: Result<LsnValue, CatchupError>)
    requires multiset(a) == multiset(b)
    requires IsNewestLsn(a, ra) && IsNewestLsn(b, rb)
    ensures ra.Success? == rb.Success?
    ensures ra.Success? ==> ra.value == rb.value
  {
    forall e
      ensures e in a <==> e in b
    {
      assert e in a <==> e in multiset(a);
      assert e in b <==> e in multiset(b);
    }
  }


  /** Sorting log names puts them in the order of the clock readings at which they were written. */
  lemma NamesSortByTime(a: string, timeA: Timestamp, b: string, timeB: Timestamp)
    requires Later(timeB, timeA)
    ensures SequencePath.LexLess(CreateReplicationLogName(a, Iso(timeA)), CreateReplicationLogName(b, Iso(timeB)))
  {
    hide SequencePath.LexLess, Iso;
    var restA, restB := "-" + a + SUFFIX, "-" + b + SUFFIX;
    SequencePath.IsoOrder(timeA, restA, timeB, restB);
    SequencePath.SeparatorFirst(PREFIX, Iso(timeA) + restA, Iso(timeB) + restB);
    assert PREFIX + (Iso(timeA) + restA) == CreateReplicationLogName(a, Iso(timeA));
    assert PREFIX + (Iso(timeB) + restB) == CreateReplicationLogName(b, Iso(timeB));
  }
}
