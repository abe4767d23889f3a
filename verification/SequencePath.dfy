/**
 Where the files of a sequence number live: `nnn/nnn/nnn` (src/state.cpp, src/state.hpp).
 */
module SequencePath {
  import opened Numbers
  import opened Timestamps
  import opened StateFile

  /** `State::path` asserts that nine digits are enough. */
  const MAX_SEQUENCE: nat := 999999999

  /** A first-level directory has the files of a million numbers. */
  const PER_DIR1: nat := 1000000

  /** "%09zu", then a slash inserted at index 6 and another one at index 3. */
  function Path(n: nat): (path: string)
    requires n <= MAX_SEQUENCE
    ensures |path| == 11
  {
    var digits := Padded(n, 9);
    var once := digits[..6] + "/" + digits[6..];
    once[..3] + "/" + once[3..]
  }

  function StatePath(n: nat): string
    requires n <= MAX_SEQUENCE
  {
    Path(n) + ".state.txt"
  }

  function OscPath(n: nat): string
    requires n <= MAX_SEQUENCE
  {
    Path(n) + ".osc"
  }

  function Dir1Path(n: nat): string
    requires n <= MAX_SEQUENCE
  {
    Path(n)[..3]
  }

  function Dir2Path(n: nat): string
    requires n <= MAX_SEQUENCE
  {
    Path(n)[..|Path(n)| - 4]
  }

  /** `State::next` asserts that the number is below the bound. */
  function Next(state: State, timestamp: Timestamp): State
    requires state.sequenceNumber < MAX_SEQUENCE
  {
    State(state.sequenceNumber + 1, timestamp)
  }

  /** Reading the number back: the digits around the two slashes. */
  function NumberOf(path: string): nat
    requires |path| == 11
  {
    Value(path[..3] + path[4..7] + path[8..], 10)
  }

  /** The order in which a directory listing shows names. */
  predicate LexLess(a: string, b: string) {
    if b == "" then false
    else if a == "" then true
    else a[0] < b[0] || (a[0] == b[0] && LexLess(a[1..], b[1..]))
  }

  lemma PathParts(n: nat)
    requires n <= MAX_SEQUENCE
    ensures Path(n) == Padded(n, 9)[..3] + "/" + Padded(n, 9)[3..6] + "/" + Padded(n, 9)[6..]
  {
    hide Padded;
  }

  lemma PathNumber(n: nat)
    requires n <= MAX_SEQUENCE
    ensures NumberOf(Path(n)) == n
  {
    hide Padded, Value;
    PathParts(n);
    var digits := Padded(n, 9);
    var path := Path(n);
    assert path[..3] == digits[..3] && path[4..7] == digits[3..6] && path[8..] == digits[6..];
    assert digits[..3] + digits[3..6] + digits[6..] == digits;
    assert Pow(10, 9) == MAX_SEQUENCE + 1 by {
      assert Pow(10, 5) == 100000;
    }
    ValueOfPadded(n, 9);
  }

  lemma {:induction false} LexLessLast(a: string, x: char, b: string, y: char)
    requires |a| == |b|
    ensures LexLess(a + [x], b + [y]) <==> LexLess(a, b) || (a == b && x < y)
  {
    if a == "" {
      assert LexLess([x][1..], [y][1..]) == false;
    } else {
      assert (a + [x])[1..] == a[1..] + [x] && (b + [y])[1..] == b[1..] + [y];
      LexLessLast(a[1..], x, b[1..], y);
      assert a == b <==> a[0] == b[0] && a[1..] == b[1..] by {
        assert a == [a[0]] + a[1..] && b == [b[0]] + b[1..];
      }
    }
  }

  /** Inserting the same character at the same index on both sides does not change the order. */
  lemma {:induction false} LexLessInsert(a1: string, a2: string, c: char, b1: string, b2: string)
    requires |a1| == |b1|
    ensures LexLess(a1 + [c] + a2, b1 + [c] + b2) <==> LexLess(a1 + a2, b1 + b2)
  {
    if a1 == "" {
      assert a1 + a2 == a2 && b1 + b2 == b2;
      assert (a1 + [c] + a2)[1..] == a2 && (b1 + [c] + b2)[1..] == b2;
    } else {
      LexLessInsert(a1[1..], a2, c, b1[1..], b2);
      assert (a1 + [c] + a2)[1..] == a1[1..] + [c] + a2 && (b1 + [c] + b2)[1..] == b1[1..] + [c] + b2;
      assert (a1 + a2)[1..] == a1[1..] + a2 && (b1 + b2)[1..] == b1[1..] + b2;
    }
  }

  lemma DigitOrder(x: nat, y: nat)
    requires x < 10 && y < 10
    ensures DigitChar(x) < DigitChar(y) <==> x < y
    ensures DigitChar(x) == DigitChar(y) <==> x == y
  {
  }

  lemma {:induction false} PaddedOrder(m: nat, n: nat, width: nat)
    requires m < Pow(10, width) && n < Pow(10, width)
    ensures LexLess(Padded(m, width), Padded(n, width)) <==> m < n
    ensures Padded(m, width) == Padded(n, width) <==> m == n
  {
    if width > 0 {
      PaddedOrder(m / 10, n / 10, width - 1);
      DigitOrder(m % 10, n % 10);
      var a, b := Padded(m / 10, width - 1), Padded(n / 10, width - 1);
      LexLessLast(a, DigitChar(m % 10), b, DigitChar(n % 10));
      if Padded(m, width) == Padded(n, width) {
        assert a == Padded(m, width)[..width - 1] && b == Padded(n, width)[..width - 1];
        assert DigitChar(m % 10) == Padded(m, width)[width - 1];
        assert DigitChar(n % 10) == Padded(n, width)[width - 1];
      }
    }
  }

  /** The two slashes do not change the order of the digits. */
  lemma PathOrderIsDigitOrder(m: nat, n: nat)
    requires m <= MAX_SEQUENCE && n <= MAX_SEQUENCE
    ensures LexLess(Path(m), Path(n)) <==> LexLess(Padded(m, 9), Padded(n, 9))
  {
    hide Padded, LexLess, Path;
    PathParts(m);
    PathParts(n);
    var a, b := Padded(m, 9), Padded(n, 9);
    var a2, b2 := a[3..6] + "/" + a[6..], b[3..6] + "/" + b[6..];
    LexLessInsert(a[..3], a2, '/', b[..3], b2);
    assert Path(m) == a[..3] + "/" + a2 && Path(n) == b[..3] + "/" + b2;
    LexLessInsert(a[..6], a[6..], '/', b[..6], b[6..]);
    assert a[..3] + a2 == a[..6] + "/" + a[6..] && b[..3] + b2 == b[..6] + "/" + b[6..];
    assert a[..6] + a[6..] == a && b[..6] + b[6..] == b;
  }

  /** Later diffs have later names: listing order is numeric order on the whole range. */
  lemma PathOrder(m: nat, n: nat)
    requires m <= MAX_SEQUENCE && n <= MAX_SEQUENCE
    ensures LexLess(Path(m), Path(n)) <==> m < n
    ensures Path(m) == Path(n) <==> m == n
  {
    hide Padded, LexLess, Path, NumberOf;
    PathNumber(m);
    PathNumber(n);
    PathOrderIsDigitOrder(m, n);
    assert Pow(10, 9) == MAX_SEQUENCE + 1 by {
      assert Pow(10, 5) == 100000;
    }
    PaddedOrder(m, n, 9);
  }

  /** The directories that create-diff makes and syncs are the ancestors of the two files. */
  lemma DirectoriesArePrefixes(n: nat)
    requires n <= MAX_SEQUENCE
    ensures Dir1Path(n) + "/" <= Dir2Path(n) && Dir2Path(n) + "/" <= OscPath(n) && Dir2Path(n) + "/" <= StatePath(n)
    ensures |Dir1Path(n)| == 3 && |Dir2Path(n)| == 7
    ensures '/' !in OscPath(n)[8..] && '/' !in StatePath(n)[8..]
  {
    hide Padded;
    PathParts(n);
    var digits := Padded(n, 9);
    assert AllDigits(digits, 10) by {
      assert Pow(10, 9) == MAX_SEQUENCE + 1 by {
        assert Pow(10, 5) == 100000;
      }
      ValueOfPadded(n, 9);
    }
    assert forall i :: 0 <= i < 9 ==> IsDigit(digits[i], 10);
    assert Path(n)[8..] == digits[6..];
    assert OscPath(n)[8..] == digits[6..] + ".osc" && StatePath(n)[8..] == digits[6..] + ".state.txt";
    assert Path(n)[..7] == Path(n)[..3] + "/" + digits[3..6];
  }

  /** Two numbers have the same first-level directory exactly when they agree in the millions. */
  lemma Dir1IsMillions(m: nat, n: nat)
    requires m <= MAX_SEQUENCE && n <= MAX_SEQUENCE
    ensures Dir1Path(m) == Dir1Path(n) <==> m / PER_DIR1 == n / PER_DIR1
  {
    hide Padded, Path;
    Dir1IsPadded(m);
    Dir1IsPadded(n);
    assert Pow(10, 3) == 1000;
    ValueOfPadded(m / PER_DIR1, 3);
    ValueOfPadded(n / PER_DIR1, 3);
  }

  lemma Dir1IsPadded(n: nat)
    requires n <= MAX_SEQUENCE
    ensures Dir1Path(n) == Padded(n / PER_DIR1, 3)
  {
    hide Padded;
    PathParts(n);
    assert Dir1Path(n) == Padded(n, 9)[..3];
    PaddedTail(n, 9, 6);
    assert Pow(10, 6) == PER_DIR1;
  }

  /** The leading digits are those of the number without its last ones. */
  lemma {:induction false} PaddedTail(n: nat, width: nat, k: nat)
    requires k <= width
    ensures Padded(n, width)[..width - k] == Padded(n / Pow(10, k), width - k)
    decreases k
  {
    if k > 0 {
      PaddedTail(n / 10, width - 1, k - 1);
      assert Padded(n, width)[..width - k] == Padded(n / 10, width - 1)[..width - k];
      DivideTwice(n, Pow(10, k - 1));
    }
  }

  lemma DivideTwice(n: nat, d: nat)
    requires d > 0
    ensures n / 10 / d == n / (10 * d)
  {
    var q := n / (10 * d);
    var r := n % (10 * d);
    assert n == 10 * d * q + r;
    assert n / 10 == d * q + r / 10 by {
      assert n == 10 * (d * q) + r;
    }
    assert 0 <= r / 10 < d;
    assert (d * q + r / 10) / d == q by {
      DivideMultiple(d, q, r / 10);
    }
  }

  lemma DivideMultiple(d: nat, q: nat, r: nat)
    requires r < d
    ensures (d * q + r) / d == q
  {
    var x := d * q + r;
    var p := x / d;
    assert x == d * p + x % d;
    Multiply(d, p + 1, q);
    Multiply(d, q + 1, p);
  }

  lemma Multiply(d: nat, a: nat, b: nat)
    ensures a <= b ==> d * a <= d * b
  {
  }

  /** Taking the next number stays inside the range in which every path has its eleven characters. */
  lemma NextStaysInRange(state: State, timestamp: Timestamp)
    requires state.sequenceNumber < MAX_SEQUENCE
    ensures var next := Next(state, timestamp);
            && 1 <= next.sequenceNumber <= MAX_SEQUENCE && next.timestamp == timestamp
            && LexLess(Path(state.sequenceNumber), Path(next.sequenceNumber))
            && !exists k: nat :: k <= MAX_SEQUENCE && LexLess(Path(state.sequenceNumber), Path(k))
                                 && LexLess(Path(k), Path(next.sequenceNumber))
  {
    hide Path, LexLess;
    PathOrder(state.sequenceNumber, state.sequenceNumber + 1);
    forall k: nat | k <= MAX_SEQUENCE && LexLess(Path(state.sequenceNumber), Path(k))
      ensures !LexLess(Path(k), Path(state.sequenceNumber + 1))
    {
      PathOrder(state.sequenceNumber, k);
      PathOrder(k, state.sequenceNumber + 1);
    }
  }


  /** The two files of a number, and those of different numbers, have different names. */
  lemma FilesDiffer(m: nat, n: nat)
    requires m <= MAX_SEQUENCE && n <= MAX_SEQUENCE
    ensures OscPath(m) == Path(m) + ".osc" && StatePath(m) == Path(m) + ".state.txt"
    ensures OscPath(m) != StatePath(n)
    ensures OscPath(m) == OscPath(n) <==> m == n
    ensures StatePath(m) == StatePath(n) <==> m == n
  {
    PathOrder(m, n);
    hide Path, LexLess;
    assert OscPath(m)[..11] == Path(m) && OscPath(n)[..11] == Path(n);
    assert StatePath(m)[..11] == Path(m) && StatePath(n)[..11] == Path(n);
    assert |OscPath(m)| == 15 && |StatePath(n)| == 21;
  }

  // --- Names that start with a time ------------------------------------------------------------

  lemma {:induction false} LexLessConcat(a1: string, a2: string, b1: string, b2: string)
    requires |a1| == |b1|
    ensures LexLess(a1 + a2, b1 + b2) <==> LexLess(a1, b1) || (a1 == b1 && LexLess(a2, b2))
  {
    if a1 == "" {
      assert a1 + a2 == a2 && b1 + b2 == b2;
    } else {
      assert (a1 + a2)[1..] == a1[1..] + a2 && (b1 + b2)[1..] == b1[1..] + b2;
      LexLessConcat(a1[1..], a2, b1[1..], b2);
      assert a1 == [a1[0]] + a1[1..] && b1 == [b1[0]] + b1[1..];
    }
  }

  lemma {:induction false} LexLessIrreflexive(a: string)
    ensures !LexLess(a, a)
  {
    if a != "" {
      LexLessIrreflexive(a[1..]);
    }
  }

  /** A number with a fixed width, and what follows it. */
  lemma NumberFirst(m: nat, n: nat, width: nat, a: string, b: string)
    requires m < Pow(10, width) && n < Pow(10, width)
    ensures LexLess(Padded(m, width) + a, Padded(n, width) + b) <==> m < n || (m == n && LexLess(a, b))
  {
    hide Padded, LexLess;
    PaddedOrder(m, n, width);
    LexLessConcat(Padded(m, width), a, Padded(n, width), b);
  }

  lemma SeparatorFirst(c: string, a: string, b: string)
    ensures LexLess(c + a, c + b) <==> LexLess(a, b)
  {
    hide LexLess;
    LexLessConcat(c, a, c, b);
    LexLessIrreflexive(c);
  }

  /** Printed time stamps, and texts that start with them, sort by time. */
  lemma {:induction false} IsoOrder(a: Timestamp, restA: string, b: Timestamp, restB: string)
    ensures LexLess(Iso(a) + restA, Iso(b) + restB) <==> Later(b, a) || (a == b && LexLess(restA, restB))
  {
    hide Padded, LexLess, Later, Pow;
    assert Pow(10, 4) == 10000 && Pow(10, 2) == 100 by {
      TenPowers();
    }
    var a6, b6 := "Z" + restA, "Z" + restB;
    var a5, b5 := Padded(a.second, 2) + a6, Padded(b.second, 2) + b6;
    var a4, b4 := Padded(a.minute, 2) + (":" + a5), Padded(b.minute, 2) + (":" + b5);
    var a3, b3 := Padded(a.hour, 2) + (":" + a4), Padded(b.hour, 2) + (":" + b4);
    var a2, b2 := Padded(a.day, 2) + ("T" + a3), Padded(b.day, 2) + ("T" + b3);
    var a1, b1 := Padded(a.month, 2) + ("-" + a2), Padded(b.month, 2) + ("-" + b2);
    assert Iso(a) + restA == Padded(a.year, 4) + ("-" + a1);
    assert Iso(b) + restB == Padded(b.year, 4) + ("-" + b1);
    hide Iso;
    NumberFirst(a.year, b.year, 4, "-" + a1, "-" + b1);
    SeparatorFirst("-", a1, b1);
    NumberFirst(a.month, b.month, 2, "-" + a2, "-" + b2);
    SeparatorFirst("-", a2, b2);
    NumberFirst(a.day, b.day, 2, "T" + a3, "T" + b3);
    SeparatorFirst("T", a3, b3);
    NumberFirst(a.hour, b.hour, 2, ":" + a4, ":" + b4);
    SeparatorFirst(":", a4, b4);
    NumberFirst(a.minute, b.minute, 2, ":" + a5, ":" + b5);
    SeparatorFirst(":", a5, b5);
    NumberFirst(a.second, b.second, 2, a6, b6);
    SeparatorFirst("Z", restA, restB);
    LaterExactly(b, a);
  }

  lemma TenPowers()
    ensures Pow(10, 4) == 10000 && Pow(10, 2) == 100
  {
  }
}
