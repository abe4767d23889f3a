/**
 Numbers as text: printing in base 10 and 16, and the C conversions `strtoull` and `strtoll`
 of section 7.22.1.4 of ISO/IEC 9899:2011 (white space, sign, "0x", saturation, end position).
 */
module Numbers {

  const ULLONG_MAX: nat := 0xFFFF_FFFF_FFFF_FFFF
  const LLONG_MAX: int := 0x7FFF_FFFF_FFFF_FFFF
  const LLONG_MIN: int := -0x8000_0000_0000_0000
  const TWO_32: nat := 0x1_0000_0000
  const TWO_64: nat := 0x1_0000_0000_0000_0000

  type Int64 = n: int | LLONG_MIN <= n <= LLONG_MAX

  type Base = b: nat | b == 10 || b == 16 witness 10

  function Pow(b: nat, k: nat): (p: nat)
    ensures b > 0 ==> p > 0
  {
    if k == 0 then 1 else b * Pow(b, k - 1)
  }

  function DigitChar(d: nat): char
    requires d < 16
  {
    "0123456789ABCDEF"[d]
  }

  /** The value of a digit of either case; 16 for every other character. */
  function DigitValue(c: char): nat {
    if '0' <= c <= '9' then (c as int) - ('0' as int)
    else if 'A' <= c <= 'F' then (c as int) - ('A' as int) + 10
    else if 'a' <= c <= 'f' then (c as int) - ('a' as int) + 10
    else 16
  }

  predicate IsDigit(c: char, base: Base) {
    DigitValue(c) < base
  }

  predicate AllDigits(s: string, base: Base) {
    forall i :: 0 <= i < |s| ==> IsDigit(s[i], base)
  }

  function Value(s: string, base: Base): nat {
    if s == "" then 0 else Value(s[..|s| - 1], base) * base + DigitValue(s[|s| - 1])
  }

  function Print(n: nat, base: Base): (s: string)
    ensures s != ""
    decreases n
  {
    if n < base then [DigitChar(n)] else Print(n / base, base) + [DigitChar(n % base)]
  }

  /** `std::to_string` and `%ld` on a signed number. */
  function PrintSigned(n: int): string {
    if n < 0 then "-" + Print(-n, 10) else Print(n, 10)
  }

  function Padded(n: nat, width: nat): (s: string)
    ensures |s| == width
  {
    if width == 0 then "" else Padded(n / 10, width - 1) + [DigitChar(n % 10)]
  }

  // --- strtoull and strtoll ------------------------------------------------------------

  predicate IsSpace(c: char) {
    c == ' ' || '\t' <= c <= '\r'
  }

  function SkipSpace(s: string, i: nat): (j: nat)
    requires i <= |s|
    ensures i <= j <= |s|
    decreases |s| - i
  {
    if i < |s| && IsSpace(s[i]) then SkipSpace(s, i + 1) else i
  }

  function SkipDigits(s: string, i: nat, base: Base): (j: nat)
    requires i <= |s|
    ensures i <= j <= |s|
    decreases |s| - i
  {
    if i < |s| && IsDigit(s[i], base) then SkipDigits(s, i + 1, base) else i
  }

  /** The subject sequence: sign, magnitude and end, or no conversion at all. */
  datatype Subject = NoSubject | Subject(negative: bool, magnitude: nat, end: nat)

  function FindSubject(s: string, start: nat, base: Base): (r: Subject)
    requires start <= |s|
    ensures r.Subject? ==> start < r.end <= |s|
  {
    var i := SkipSpace(s, start);
    var negative := i < |s| && s[i] == '-';
    var j := if i < |s| && (s[i] == '-' || s[i] == '+') then i + 1 else i;
    var prefixed := base == 16 && j + 2 < |s| && s[j] == '0' && (s[j + 1] == 'x' || s[j + 1] == 'X')
                    && IsDigit(s[j + 2], 16);
    var k := if prefixed then j + 2 else j;
    var end := SkipDigits(s, k, base);
    if end == k then NoSubject else Subject(negative, Value(s[k..end], base), end)
  }

  /** The converted value and the index that `*endptr` is set to. */
  datatype Converted = Converted(value: int, end: nat)

  function StrToULL(s: string, start: nat, base: Base): (r: Converted)
    requires start <= |s|
    ensures 0 <= r.value <= ULLONG_MAX && start <= r.end <= |s|
  {
    match FindSubject(s, start, base)
    case NoSubject => Converted(0, start)
    case Subject(negative, magnitude, end) =>
      if magnitude > ULLONG_MAX then Converted(ULLONG_MAX, end)
      else if negative && magnitude > 0 then Converted(ULLONG_MAX + 1 - magnitude, end)
      else Converted(magnitude, end)
  }

  function Clamp(n: int): int {
    if n > LLONG_MAX then LLONG_MAX else if n < LLONG_MIN then LLONG_MIN else n
  }

  function StrToLL(s: string, start: nat, base: Base): (r: Converted)
    requires start <= |s|
    ensures LLONG_MIN <= r.value <= LLONG_MAX && start <= r.end <= |s|
  {
    match FindSubject(s, start, base)
    case NoSubject => Converted(0, start)
    case Subject(negative, magnitude, end) => Converted(Clamp(if negative then 0 - magnitude else magnitude), end)
  }

  // --- Printing and reading back ----------------------------------------------------------

  lemma DigitCharValue(d: nat)
    requires d < 16
    ensures DigitValue(DigitChar(d)) == d
  {
  }

  /** Printing is undone by `Value`, and yields digits only. */
  lemma {:induction false} ValueOfPrint(n: nat, base: Base)
    ensures AllDigits(Print(n, base), base)
    ensures Value(Print(n, base), base) == n
    decreases n
  {
    DigitCharValue(n % base);
    if n < base {
      DigitCharValue(n);
      assert Value([DigitChar(n)][..0], base) == 0;
    } else {
      ValueOfPrint(n / base, base);
      var s := Print(n, base);
      assert s[..|s| - 1] == Print(n / base, base);
    }
  }

  lemma {:induction false} PrintLength(n: nat, base: Base, k: nat)
    requires k >= 1 && n < Pow(base, k)
    ensures |Print(n, base)| <= k
    decreases n
  {
    if n >= base {
      assert k >= 2;
      assert n / base < Pow(base, k - 1);
      PrintLength(n / base, base, k - 1);
    }
  }

  lemma {:induction false} ValueOfPadded(n: nat, width: nat)
    requires n < Pow(10, width)
    ensures AllDigits(Padded(n, width), 10)
    ensures Value(Padded(n, width), 10) == n
  {
    if width > 0 {
      DigitCharValue(n % 10);
      ValueOfPadded(n / 10, width - 1);
      var s := Padded(n, width);
      assert s[..|s| - 1] == Padded(n / 10, width - 1);
    }
  }

  lemma {:induction false} SkipDigitsExact(s: string, i: nat, end: nat, base: Base)
    requires i <= end <= |s|
    requires forall k :: i <= k < end ==> IsDigit(s[k], base)
    requires end < |s| ==> !IsDigit(s[end], base)
    ensures SkipDigits(s, i, base) == end
    decreases end - i
  {
    if i < end {
      SkipDigitsExact(s, i + 1, end, base);
    }
  }

  /** A digit string, optionally signed, inside a longer text is found as the subject sequence. */
  lemma SubjectOfDigits(s: string, start: nat, negative: bool, end: nat, base: Base)
    requires start <= |s| && (if negative then start + 1 else start) < end <= |s|
    requires negative ==> s[start] == '-'
    requires forall k :: (if negative then start + 1 else start) <= k < end ==> IsDigit(s[k], base)
    requires end < |s| ==> !IsDigit(s[end], base) && s[end] != 'x' && s[end] != 'X'
    ensures FindSubject(s, start, base)
            == Subject(negative, Value(s[(if negative then start + 1 else start)..end], base), end)
  {
    var j := if negative then start + 1 else start;
    assert IsDigit(s[j], base);
    assert SkipSpace(s, start) == start;
    assert j + 1 < |s| ==> s[j + 1] != 'x' && s[j + 1] != 'X' by {
      if j + 1 < end {
        assert IsDigit(s[j + 1], base);
      }
    }
    SkipDigitsExact(s, j, end, base);
  }

  /** `strtoull` reads an unsigned digit string, saturating, and stops right behind it. */
  lemma StrToULLOfDigits(before: string, digits: string, after: string, base: Base)
    requires digits != "" && AllDigits(digits, base)
    requires after != "" ==> !IsDigit(after[0], base) && after[0] != 'x' && after[0] != 'X'
    ensures StrToULL(before + digits + after, |before|, base)
            == Converted(if Value(digits, base) > ULLONG_MAX then ULLONG_MAX else Value(digits, base), |before + digits|)
  {
    hide Value, FindSubject, DigitValue;
    var s := before + digits + after;
    var end := |before + digits|;
    assert forall k :: |before| <= k < end ==> s[k] == digits[k - |before|];
    assert end < |s| ==> s[end] == after[0];
    SubjectOfDigits(s, |before|, false, end, base);
    assert s[|before|..end] == digits;
  }

  lemma StrToLLOfDigits(before: string, negative: bool, digits: string)
    requires digits != "" && AllDigits(digits, 10)
    ensures var s := if negative then before + "-" + digits else before + digits;
            StrToLL(s, |before|, 10)
            == Converted(Clamp(if negative then 0 - Value(digits, 10) else Value(digits, 10)), |s|)
  {
    hide Value, FindSubject, IsDigit;
    if negative {
      var s := before + "-" + digits;
      assert s[|before|] == '-' && s[|before| + 1..|s|] == digits;
      assert forall k :: |before| + 1 <= k < |s| ==> s[k] == digits[k - |before| - 1];
      SubjectOfDigits(s, |before|, true, |s|, 10);
    } else {
      var s := before + digits;
      assert s[|before|..|s|] == digits;
      assert forall k :: |before| <= k < |s| ==> s[k] == digits[k - |before|];
      SubjectOfDigits(s, |before|, false, |s|, 10);
    }
  }

  /** `strtoll` reads back any printed number, clamped to the range of `long long`. */
  lemma StrToLLOfSigned(before: string, n: int)
    ensures StrToLL(before + PrintSigned(n), |before|, 10) == Converted(Clamp(n), |before + PrintSigned(n)|)
  {
    hide Print, Value, StrToLL, AllDigits;
    var m := if n < 0 then 0 - n else n;
    ValueOfPrint(m, 10);
    StrToLLOfDigits(before, n < 0, Print(m, 10));
    if n < 0 {
      assert before + "-" + Print(m, 10) == before + PrintSigned(n);
    }
  }

  // --- What the conversions accept -----------------------------------------------------------

  /** Digits of both cases, and nothing else. */
  lemma DigitsExactly(c: char)
    ensures forall d :: 0 <= d < 16 ==> DigitValue("0123456789ABCDEF"[d]) == d && DigitValue("0123456789abcdef"[d]) == d
    ensures c !in "0123456789ABCDEFabcdef" ==> DigitValue(c) == 16
  {
    assert forall d :: 0 <= d < 16 ==> "0123456789ABCDEF"[d] == DigitChar(d);
    var all := "0123456789ABCDEFabcdef";
    if DigitValue(c) != 16 {
      var i := if DigitValue(c) < 10 || c <= 'F' then DigitValue(c) else DigitValue(c) + 6;
      assert all[i] == c;
    }
  }

  /** White space in the "C" locale. */
  lemma SpaceExactly(c: char)
    ensures IsSpace(c) <==> c in " \t\n\U{000B}\U{000C}\r"
  {
    var all := " \t\n\U{000B}\U{000C}\r";
    if IsSpace(c) {
      assert c == all[if c == ' ' then 0 else c as int - 8];
    }
  }

  /** White space, sign, prefix and digits, the digits not going on behind them. */
  predicate IsNumber(space: string, sign: string, prefix: string, digits: string, after: string, base: Base) {
    && (forall i :: 0 <= i < |space| ==> IsSpace(space[i]))
    && (sign == "" || sign == "+" || sign == "-")
    && (prefix == "" || (base == 16 && (prefix == "0x" || prefix == "0X")))
    && digits != "" && AllDigits(digits, base)
    && (after != "" ==> !IsDigit(after[0], base))
      // "0x1F" is no zero
    && (base == 16 && prefix == "" && digits == "0" && |after| >= 2 && (after[0] == 'x' || after[0] == 'X') ==>
          !IsDigit(after[1], 16))
  }

  lemma {:induction false} SkipSpaceExact(s: string, i: nat, end: nat)
    requires i <= end <= |s|
    requires forall k :: i <= k < end ==> IsSpace(s[k])
    requires end < |s| ==> !IsSpace(s[end])
    ensures SkipSpace(s, i) == end
    decreases end - i
  {
    if i < end {
      SkipSpaceExact(s, i + 1, end);
    }
  }

  /** The positions of white space, sign, prefix and digits in a text that has a number at `start`. */
  predicate NumberAt(s: string, start: nat, i: nat, j: nat, k: nat, end: nat, base: Base) {
    && start <= i <= j <= k < end <= |s|
    && (forall x :: start <= x < i ==> IsSpace(s[x]))
    && (j == i || (j == i + 1 && (s[i] == '+' || s[i] == '-')))
    && (k == j || (base == 16 && k == j + 2 && s[j] == '0' && (s[j + 1] == 'x' || s[j + 1] == 'X')))
    && AllDigits(s[k..end], base) && (end < |s| ==> !IsDigit(s[end], base))
    && (k == j && base == 16 && end == j + 1 && s[j] == '0' && j + 2 < |s| && (s[j + 1] == 'x' || s[j + 1] == 'X') ==>
          !IsDigit(s[j + 2], 16))
  }

  lemma DigitsAreNoSpace(c: char, base: Base)
    requires IsDigit(c, base) || c == '+' || c == '-'
    ensures !IsSpace(c) && (IsDigit(c, base) ==> c != '+' && c != '-')
    ensures base == 10 ==> c != 'x' && c != 'X'
    ensures IsDigit('0', base) && !IsDigit('x', base) && !IsDigit('X', base)
  {
  }

  lemma {:induction false} SkipsAt(s: string, start: nat, i: nat, j: nat, k: nat, end: nat, base: Base)
    requires NumberAt(s, start, i, j, k, end, base)
    ensures SkipSpace(s, start) == i && SkipDigits(s, k, base) == end
    ensures j == i + 1 || (s[i] != '+' && s[i] != '-')
  {
    assert forall x :: k <= x < end ==> s[x] == s[k..end][x - k];
    assert IsDigit(s[k], base);
    DigitsAreNoSpace(s[k], base);
    DigitsAreNoSpace(s[j], base);
    DigitsAreNoSpace(s[i], base);
    hide IsDigit, IsSpace;
    SkipSpaceExact(s, start, i);
    SkipDigitsExact(s, k, end, base);
  }

  /** The prefix is skipped if and only if a hexadecimal digit follows. */
  lemma {:induction false} PrefixAt(s: string, start: nat, i: nat, j: nat, k: nat, end: nat, base: Base)
    requires NumberAt(s, start, i, j, k, end, base)
    ensures k == (if base == 16 && j + 2 < |s| && s[j] == '0' && (s[j + 1] == 'x' || s[j + 1] == 'X')
                     && IsDigit(s[j + 2], 16) then j + 2 else j)
  {
    assert forall x :: k <= x < end ==> s[x] == s[k..end][x - k];
    assert IsDigit(s[k], base);
    if k + 1 < end {
      DigitsAreNoSpace(s[k + 1], base);
    }
    hide IsDigit, IsSpace;
  }

  lemma {:induction false} SubjectAt(s: string, start: nat, i: nat, j: nat, k: nat, end: nat, base: Base)
    requires NumberAt(s, start, i, j, k, end, base)
    ensures FindSubject(s, start, base) == Subject(j == i + 1 && s[i] == '-', Value(s[k..end], base), end)
  {
    SkipsAt(s, start, i, j, k, end, base);
    PrefixAt(s, start, i, j, k, end, base);
    hide Value, IsDigit, IsSpace, AllDigits, SkipSpace, SkipDigits;
  }

  lemma {:induction false} AtNumber(
      before: string, space: string, sign: string, prefix: string, digits: string, after: string, base: Base)
    requires IsNumber(space, sign, prefix, digits, after, base)
    ensures var s := before + space + sign + prefix + digits + after;
            var i := |before| + |space|;
            var j := i + |sign|;
            var k := j + |prefix|;
            && NumberAt(s, |before|, i, j, k, k + |digits|, base) && s[k..k + |digits|] == digits
            && (j == i + 1 && s[i] == '-' <==> sign == "-")
  {
    hide IsDigit, IsSpace;
    var s := before + space + sign + prefix + digits + after;
    var i := |before| + |space|;
    var j := i + |sign|;
    var k := j + |prefix|;
    var end := k + |digits|;
    assert s[|before|..i] == space && s[i..j] == sign && s[j..k] == prefix && s[k..end] == digits && s[end..] == after;
    assert forall x :: |before| <= x < i ==> s[x] == space[x - |before|];
    assert sign != "" ==> s[i] == sign[0];
    assert prefix != "" ==> s[j] == prefix[0] && s[j + 1] == prefix[1];
    assert end < |s| ==> s[end] == after[0];
    assert end + 1 < |s| ==> s[end + 1] == after[1];
    assert |digits| == 1 ==> digits == [s[k]];
  }

  /** The subject sequence is found, with its sign, its value and its end. */
  lemma {:induction false} SubjectOfNumber(
      before: string, space: string, sign: string, prefix: string, digits: string, after: string, base: Base)
    requires IsNumber(space, sign, prefix, digits, after, base)
    ensures FindSubject(before + space + sign + prefix + digits + after, |before|, base)
            == Subject(sign == "-", Value(digits, base), |before + space + sign + prefix + digits|)
  {
    AtNumber(before, space, sign, prefix, digits, after, base);
    hide IsNumber, NumberAt, FindSubject, Value;
    var i := |before| + |space|;
    var j := i + |sign|;
    var k := j + |prefix|;
    SubjectAt(before + space + sign + prefix + digits + after, |before|, i, j, k, k + |digits|, base);
  }

  /** Only such texts have a subject sequence. */
  lemma {:induction false} SubjectIsAt(s: string, start: nat, base: Base) returns (i: nat, j: nat, k: nat, end: nat)
    requires start <= |s| && FindSubject(s, start, base).Subject?
    ensures NumberAt(s, start, i, j, k, end, base)
  {
    hide IsDigit, IsSpace, Value;
    i := SkipSpace(s, start);
    SkippedIsSpace(s, start);
    j := if i < |s| && (s[i] == '-' || s[i] == '+') then i + 1 else i;
    k := if base == 16 && j + 2 < |s| && s[j] == '0' && (s[j + 1] == 'x' || s[j + 1] == 'X') && IsDigit(s[j + 2], 16)
    then j + 2 else j;
    end := SkipDigits(s, k, base);
    SkippedAreDigits(s, k, base);
    assert forall x :: 0 <= x < end - k ==> s[k..end][x] == s[k + x];
  }

  lemma {:induction false} SkippedIsSpace(s: string, i: nat)
    requires i <= |s|
    ensures forall k :: i <= k < SkipSpace(s, i) ==> IsSpace(s[k])
    ensures SkipSpace(s, i) < |s| ==> !IsSpace(s[SkipSpace(s, i)])
    decreases |s| - i
  {
    if i < |s| && IsSpace(s[i]) {
      SkippedIsSpace(s, i + 1);
    }
  }

  lemma {:induction false} SkippedAreDigits(s: string, i: nat, base: Base)
    requires i <= |s|
    ensures forall k :: i <= k < SkipDigits(s, i, base) ==> IsDigit(s[k], base)
    ensures SkipDigits(s, i, base) < |s| ==> !IsDigit(s[SkipDigits(s, i, base)], base)
    decreases |s| - i
  {
    if i < |s| && IsDigit(s[i], base) {
      SkippedAreDigits(s, i + 1, base);
    }
  }

  /**
   Both conversions on any text: `strtoull` negates modulo 2^64 and saturates, `strtoll` gives the
   number or the nearest one in range; without a number both give 0 and stop where they began.
   */
  lemma ConvertedExactly(s: string, start: nat, base: Base)
    requires start <= |s|
    ensures match FindSubject(s, start, base)
            case NoSubject => StrToULL(s, start, base) == StrToLL(s, start, base) == Converted(0, start)
            case Subject(negative, magnitude, end) =>
              var n: int := if negative then 0 - magnitude else magnitude;
              var u, l := StrToULL(s, start, base).value, StrToLL(s, start, base).value;
              && StrToULL(s, start, base).end == StrToLL(s, start, base).end == end
              && (if magnitude < TWO_64 then u == n || u == n + TWO_64 else u == TWO_64 - 1)
              && (LLONG_MIN <= n <= LLONG_MAX ==> l == n)
              && (n > LLONG_MAX ==> l == LLONG_MAX) && (n < LLONG_MIN ==> l == LLONG_MIN)
  {
    hide FindSubject;
  }

  /** No superfluous zeros are printed, and hexadecimal digits are printed in upper case. */
  lemma {:induction false} PrintIsShortest(n: nat, base: Base)
    ensures n == 0 ==> Print(n, base) == "0"
    ensures n > 0 ==> Print(n, base)[0] != '0'
    ensures forall c :: c in Print(n, base) ==> c in "0123456789ABCDEF"
    decreases n
  {
    assert forall d :: 0 <= d < 16 ==> DigitChar(d) == "0123456789ABCDEF"[d] && DigitChar(d) in "0123456789ABCDEF";
    if n >= base {
      PrintIsShortest(n / base, base);
    }
  }
}
