/** PostgreSQL log sequence numbers: 64-bit positions, printed as two hexadecimal halves. */
module Lsn {
  import opened Wrappers
  import opened Text
  import opened Numbers

  type LsnValue = v: nat | v < TWO_64

  datatype LsnError = ErrorParsingLsn(text: string)

  function Upper(l: LsnValue): nat { l / TWO_32 }

  function Lower(l: LsnValue): nat { l % TWO_32 }

  /** `lsn_type::str`: what "%lX/%lX" prints. */
  function Str(l: LsnValue): string {
    Print(Upper(l), 16) + "/" + Print(Lower(l), 16)
  }

  /** The form used in file names, where '/' would start a directory. */
  function Dashed(text: string): (dashed: string)
    ensures |dashed| == |text|
    ensures forall i :: 0 <= i < |text| ==> dashed[i] == if text[i] == '/' then '-' else text[i]
  {
    if text == "" then "" else [if text[0] == '/' then '-' else text[0]] + Dashed(text[1..])
  }

  /** The `lsn_type` constructor: two `strtoull` calls and 64-bit wrap-around arithmetic. */
  function ParseLsn(text: string): Result<LsnValue, LsnError> {
    var upper := StrToULL(text, 0, 16);
    if CharAt(text, upper.end) != '-' && CharAt(text, upper.end) != '/' then
      Failure(ErrorParsingLsn(text))
    else
      var lower := StrToULL(text, upper.end + 1, 16);
      if CharAt(text, lower.end) != '\0' then
        Failure(ErrorParsingLsn(text))
      else
        Success(Combine(upper.value, lower.value))
  }

  /** `(upper << 32) + lower` in 64-bit unsigned arithmetic. */
  function Combine(upper: nat, lower: nat): LsnValue {
    (upper * TWO_32 % TWO_64 + lower) % TWO_64
  }

  function Saturated(n: nat): nat {
    if n > ULLONG_MAX then ULLONG_MAX else n
  }

  /**
   Any two non-empty hexadecimal numbers around a '/' or '-' are an LSN: the constructor cannot
   throw on what the file name pattern of osmdbt-catchup lets through, however long it is.
   */
  lemma {:induction false} ParseOfHexPair(upper: string, sep: char, lower: string)
    requires upper != "" && AllDigits(upper, 16)
    requires lower != "" && AllDigits(lower, 16)
    requires sep == '-' || sep == '/'
    ensures ParseLsn(upper + [sep] + lower)
            == Success(Combine(Saturated(Value(upper, 16)), Saturated(Value(lower, 16))))
  {
    hide Value, Combine, StrToULL;
    var text := upper + [sep] + lower;
    StrToULLOfDigits("", upper, [sep] + lower, 16);
    assert "" + upper + ([sep] + lower) == text;
    assert text[|upper|] == sep;
    StrToULLOfDigits(upper + [sep], lower, "", 16);
    assert upper + [sep] + lower + "" == text;
  }

  lemma CombineHalves(l: LsnValue)
    ensures Saturated(Upper(l)) == Upper(l) && Saturated(Lower(l)) == Lower(l)
    ensures Combine(Upper(l), Lower(l)) == l
  {
  }

  lemma HalvesAreHex(l: LsnValue)
    ensures AllDigits(Print(Upper(l), 16), 16) && AllDigits(Print(Lower(l), 16), 16)
    ensures Value(Print(Upper(l), 16), 16) == Upper(l) && Value(Print(Lower(l), 16), 16) == Lower(l)
  {
    ValueOfPrint(Upper(l), 16);
    ValueOfPrint(Lower(l), 16);
  }

  /** Reading back a printed LSN gives the same LSN, for every 64-bit value. */
  lemma ParseOfStr(l: LsnValue)
    ensures ParseLsn(Str(l)) == Success(l)
  {
    hide Print, Value, Combine, Upper, Lower, ParseLsn;
    HalvesAreHex(l);
    CombineHalves(l);
    ParseOfHexPair(Print(Upper(l), 16), '/', Print(Lower(l), 16));
  }

  lemma DashedStr(l: LsnValue)
    ensures Dashed(Str(l)) == Print(Upper(l), 16) + "-" + Print(Lower(l), 16)
  {
    hide Print, Value, Combine, Upper, Lower, ParseLsn;
    HalvesAreHex(l);
    var upper, lower := Print(Upper(l), 16), Print(Lower(l), 16);
    var expected := upper + "-" + lower;
    forall i | 0 <= i < |Str(l)|
      ensures Dashed(Str(l))[i] == expected[i]
    {
      if i < |upper| {
        assert IsDigit(upper[i], 16);
      } else if i > |upper| {
        assert IsDigit(lower[i - |upper| - 1], 16);
      }
    }
  }

  /** The same for the form with a dash, which is what get-log puts into a file name. */
  lemma ParseOfDashedStr(l: LsnValue)
    ensures ParseLsn(Dashed(Str(l))) == Success(l)
  {
    hide Print, Value, Combine, Upper, Lower, ParseLsn;
    HalvesAreHex(l);
    CombineHalves(l);
    DashedStr(l);
    ParseOfHexPair(Print(Upper(l), 16), '-', Print(Lower(l), 16));
  }

  /** At most 17 characters are printed: the buffer of 20 in `lsn_type::str` never truncates. */
  lemma StrLength(l: LsnValue)
    ensures 3 <= |Str(l)| <= 17
  {
    assert Pow(16, 8) == TWO_32 by {
      assert Pow(16, 4) == 0x1_0000;
      assert Pow(16, 8) == 16 * (16 * (16 * (16 * Pow(16, 4))));
    }
    PrintLength(Upper(l), 16, 8);
    PrintLength(Lower(l), 16, 8);
  }


  // --- The texts themselves --------------------------------------------------------------------

  /** An upper-case hexadecimal number without superfluous zeros. */
  predicate IsHexNumber(text: string, n: nat) {
    && text != "" && (forall c :: c in text ==> c in "0123456789ABCDEF") && AllDigits(text, 16)
    && Value(text, 16) == n && (if n == 0 then text == "0" else text[0] != '0')
  }

  /** The two halves around a slash, as PostgreSQL prints its LSNs. */
  lemma StrExactly(l: LsnValue) returns (upper: string, lower: string)
    ensures Str(l) == upper + "/" + lower && Dashed(Str(l)) == upper + "-" + lower
    ensures IsHexNumber(upper, l / 0x1_0000_0000) && IsHexNumber(lower, l % 0x1_0000_0000)
  {
    upper, lower := Print(Upper(l), 16), Print(Lower(l), 16);
    HalvesAreHex(l);
    PrintIsShortest(Upper(l), 16);
    PrintIsShortest(Lower(l), 16);
    DashedStr(l);
    hide Print, Value, Dashed;
  }

  /** Only a slash or a dash separates the halves, and nothing may follow them. */
  lemma {:induction false} ParseOfHexPairExactly(upper: string, sep: char, lower: string, after: string)
    requires upper != "" && AllDigits(upper, 16) && lower != "" && AllDigits(lower, 16)
    requires !IsDigit(sep, 16) && sep != 'x' && sep != 'X'
    requires after != "" ==> !IsDigit(after[0], 16) && after[0] != 'x' && after[0] != 'X' && after[0] != '\0'
    ensures ParseLsn(upper + [sep] + lower + after).Success? <==> (sep == '-' || sep == '/') && after == ""
  {
    hide Value, Combine, StrToULL, IsDigit;
    var text := upper + [sep] + lower + after;
    StrToULLOfDigits("", upper, [sep] + lower + after, 16);
    assert "" + upper + ([sep] + lower + after) == text;
    assert text[|upper|] == sep;
    StrToULLOfDigits(upper + [sep], lower, after, 16);
    assert upper + [sep] + lower + after == text;
    assert after != "" ==> text[|upper + [sep] + lower|] == after[0];
  }
}
