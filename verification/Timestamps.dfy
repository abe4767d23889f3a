/**
 Points in time as they appear in the texts of the pipeline: the fields of an ISO time stamp.

 The calendar arithmetic of `osmium::Timestamp` is not part of this model. Comparing the fields
 from the year down to the second is the same as comparing the seconds since the epoch.
 */
module Timestamps {
  import opened Wrappers
  import opened Numbers

  datatype Fields = Fields(year: nat, month: nat, day: nat, hour: nat, minute: nat, second: nat)

  type Timestamp = t: Fields |
      t.year < 10000 && t.month < 100 && t.day < 100 && t.hour < 100 && t.minute < 100 && t.second < 100
    witness EPOCH

  /** The default-constructed time stamp, which the source takes for "not set". */
  const EPOCH := Fields(1970, 1, 1, 0, 0, 0)

  /** A number that orders time stamps. */
  function Ticks(t: Timestamp): nat {
    ((((t.year * 100 + t.month) * 100 + t.day) * 100 + t.hour) * 100 + t.minute) * 100 + t.second
  }

  predicate Later(a: Timestamp, b: Timestamp) {
    Ticks(a) > Ticks(b)
  }

  function Latest(a: Timestamp, b: Timestamp): Timestamp {
    if Later(a, b) then a else b
  }

  /** Two digits in base 100 can be told apart again. */
  lemma SameDigits(x: nat, y: nat, u: nat, v: nat)
    requires y < 100 && v < 100 && x * 100 + y == u * 100 + v
    ensures x == u && y == v
  {
  }

  lemma {:induction false} TicksInjective(a: Timestamp, b: Timestamp)
    requires Ticks(a) == Ticks(b)
    ensures a == b
  {
    var a2, b2 := a.year * 100 + a.month, b.year * 100 + b.month;
    var a3, b3 := a2 * 100 + a.day, b2 * 100 + b.day;
    var a4, b4 := a3 * 100 + a.hour, b3 * 100 + b.hour;
    SameDigits(a4 * 100 + a.minute, a.second, b4 * 100 + b.minute, b.second);
    SameDigits(a4, a.minute, b4, b.minute);
    SameDigits(a3, a.hour, b3, b.hour);
    SameDigits(a2, a.day, b2, b.day);
    SameDigits(a.year, a.month, b.year, b.month);
  }

  /** Later means later in the first field that differs, from the year down to the second. */
  lemma LaterExactly(a: Timestamp, b: Timestamp)
    ensures Later(a, b) <==>
              || a.year > b.year
              || (a.year == b.year && a.month > b.month)
              || (a.year == b.year && a.month == b.month && a.day > b.day)
              || (a.year == b.year && a.month == b.month && a.day == b.day && a.hour > b.hour)
              || (a.year == b.year && a.month == b.month && a.day == b.day && a.hour == b.hour && a.minute > b.minute)
              || (a.year == b.year && a.month == b.month && a.day == b.day && a.hour == b.hour && a.minute == b.minute
                  && a.second > b.second)
  {
  }

  const ISO_LENGTH := 20

  /** The shape of `to_iso_all()`; a 'd' stands for a digit. */
  const ISO_SHAPE := "dddd-dd-ddTdd:dd:ddZ"

  predicate IsIso(text: string) {
    && |text| == ISO_LENGTH
    && forall i :: 0 <= i < ISO_LENGTH ==> if ISO_SHAPE[i] == 'd' then '0' <= text[i] <= '9' else text[i] == ISO_SHAPE[i]
  }

  function Iso(t: Timestamp): string {
    Padded(t.year, 4) + "-" + Padded(t.month, 2) + "-" + Padded(t.day, 2) + "T"
    + Padded(t.hour, 2) + ":" + Padded(t.minute, 2) + ":" + Padded(t.second, 2) + "Z"
  }

  /** The fields of a text of the right shape; libosmium's range checks on the fields are not modelled. */
  function ParseIso(text: string): Option<Timestamp> {
    if !IsIso(text) then None
    else
      DigitsBelow(text[0..4]);
      DigitsBelow(text[5..7]);
      DigitsBelow(text[8..10]);
      DigitsBelow(text[11..13]);
      DigitsBelow(text[14..16]);
      DigitsBelow(text[17..19]);
      assert Pow(10, 4) == 10000 && Pow(10, 2) == 100;
      Some(Fields(Value(text[0..4], 10), Value(text[5..7], 10), Value(text[8..10], 10),
                  Value(text[11..13], 10), Value(text[14..16], 10), Value(text[17..19], 10)))
  }

  lemma {:induction false} DigitsBelow(s: string)
    requires forall i :: 0 <= i < |s| ==> '0' <= s[i] <= '9'
    ensures Value(s, 10) < Pow(10, |s|)
  {
    if s != "" {
      DigitsBelow(s[..|s| - 1]);
    }
  }

  lemma PaddedDigits(n: nat, width: nat)
    requires n < Pow(10, width)
    ensures forall i :: 0 <= i < width ==> '0' <= Padded(n, width)[i] <= '9'
    ensures Value(Padded(n, width), 10) == n
  {
    ValueOfPadded(n, width);
    forall i | 0 <= i < width
      ensures '0' <= Padded(n, width)[i] <= '9'
    {
      assert IsDigit(Padded(n, width)[i], 10);
    }
  }

  lemma {:induction false} IsoParts(t: Timestamp)
    ensures var text := Iso(t);
            && |text| == ISO_LENGTH
            && text[0..4] == Padded(t.year, 4) && text[5..7] == Padded(t.month, 2) && text[8..10] == Padded(t.day, 2)
            && text[11..13] == Padded(t.hour, 2) && text[14..16] == Padded(t.minute, 2)
            && text[17..19] == Padded(t.second, 2)
            && text[4] == '-' && text[7] == '-' && text[10] == 'T' && text[13] == ':' && text[16] == ':' && text[19] == 'Z'
  {
    hide Padded;
  }

  /** Reading back a printed time stamp gives the same time stamp. */
  lemma ParseOfIso(t: Timestamp)
    ensures IsIso(Iso(t))
    ensures ParseIso(Iso(t)) == Some(t)
  {
    hide Padded, Value, Iso;
    var text := Iso(t);
    IsoParts(t);
    assert Pow(10, 4) == 10000 && Pow(10, 2) == 100;
    PaddedDigits(t.year, 4);
    PaddedDigits(t.month, 2);
    PaddedDigits(t.day, 2);
    PaddedDigits(t.hour, 2);
    PaddedDigits(t.minute, 2);
    PaddedDigits(t.second, 2);
    forall i | 0 <= i < ISO_LENGTH
      ensures if ISO_SHAPE[i] == 'd' then '0' <= text[i] <= '9' else text[i] == ISO_SHAPE[i]
    {
      assert i < 4 ==> text[i] == text[0..4][i];
      assert 5 <= i < 7 ==> text[i] == text[5..7][i - 5];
      assert 8 <= i < 10 ==> text[i] == text[8..10][i - 8];
      assert 11 <= i < 13 ==> text[i] == text[11..13][i - 11];
      assert 14 <= i < 16 ==> text[i] == text[14..16][i - 14];
      assert 17 <= i < 19 ==> text[i] == text[17..19][i - 17];
    }
  }

  predicate IsDecimal(c: char) {
    c in "0123456789"
  }

  lemma DecimalExactly(c: char)
    ensures '0' <= c <= '9' <==> IsDecimal(c)
  {
    if '0' <= c <= '9' {
      assert "0123456789"[c as int - 48] == c;
    }
  }

  /** What stands at a place of a time stamp. */
  predicate IsIsoChar(i: nat, c: char) {
    if i == 4 || i == 7 then c == '-'
    else if i == 10 then c == 'T'
    else if i == 13 || i == 16 then c == ':'
    else if i == 19 then c == 'Z'
    else IsDecimal(c)
  }

  lemma IsoCharExactly(i: nat, c: char)
    requires i < ISO_LENGTH
    ensures IsIsoChar(i, c) <==> if ISO_SHAPE[i] == 'd' then '0' <= c <= '9' else c == ISO_SHAPE[i]
  {
    DecimalExactly(c);
  }

  /** The shape of a time stamp, place by place. */
  lemma IsoShapeExactly(text: string)
    ensures IsIso(text) <==> |text| == 20 && forall i :: 0 <= i < 20 ==> IsIsoChar(i, text[i])
  {
    if |text| == 20 {
      forall i | 0 <= i < 20
        ensures IsIsoChar(i, text[i]) <==> if ISO_SHAPE[i] == 'd' then '0' <= text[i] <= '9' else text[i] == ISO_SHAPE[i]
      {
        IsoCharExactly(i, text[i]);
      }
      hide IsIsoChar;
    }
  }

  /** The time stamp that counts as not set is the beginning of 1970. */
  lemma EpochText()
    ensures Iso(EPOCH) == "1970-01-01T00:00:00Z"
  {
    EpochFields();
    hide Padded;
    var date := "1970" + "-" + "01" + "-" + "01" + "T";
    assert date == "1970-01-01T";
    assert date + "00" + ":" + "00" + ":" + "00" + "Z" == "1970-01-01T00:00:00Z";
  }

  lemma PaddedStep(n: nat, width: nat, c: char)
    requires width > 0 && c == DigitChar(n % 10)
    ensures Padded(n, width) == Padded(n / 10, width - 1) + [c]
  {
  }

  lemma EpochFields()
    ensures Padded(1970, 4) == "1970" && Padded(1, 2) == "01" && Padded(0, 2) == "00"
  {
    assert Padded(1, 0) == Padded(0, 0) == "";
    PaddedStep(1, 1, '1');
    PaddedStep(0, 1, '0');
    hide Padded;
    PaddedStep(1970, 4, '0');
    PaddedStep(197, 3, '7');
    PaddedStep(19, 2, '9');
    PaddedStep(1, 2, '1');
    PaddedStep(0, 2, '0');
  }
}
