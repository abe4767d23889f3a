/**
 How many log files one run of osmdbt-create-diff takes, and whether repeated runs use up all of
 them (src/osmdbt-create-diff.cpp). A log file stands for the objects that reading it yields.
 */
module Draining {
  import opened OsmObjects

  type LogContent = seq<OsmObj>

  function Flat(files: seq<LogContent>): LogContent {
    if files == [] then [] else files[0] + Flat(files[1..])
  }

  /** The number of files read when `sofar` objects are there already. */
  function TakenFrom(files: seq<LogContent>, limit: nat, sofar: nat): (n: nat)
    ensures n <= |files|
    ensures files != [] ==> n > 0
    decreases |files|
  {
    if files == [] then 0
    else if sofar + |files[0]| > limit then 1
    else 1 + TakenFrom(files[1..], limit, sofar + |files[0]|)
  }

  function Taken(files: seq<LogContent>, limit: nat): (n: nat)
    ensures n <= |files|
    ensures files != [] ==> n > 0
  {
    TakenFrom(files, limit, 0)
  }

  lemma {:induction false} FlatConcat(a: seq<LogContent>, b: seq<LogContent>)
    ensures Flat(a + b) == Flat(a) + Flat(b)
  {
    if a == [] {
      assert a + b == b;
    } else {
      FlatConcat(a[1..], b);
      assert (a + b)[1..] == a[1..] + b;
      assert a[0] + (Flat(a[1..]) + Flat(b)) == a[0] + Flat(a[1..]) + Flat(b);
    }
  }

  lemma {:induction false} TakenFromIsShortest(files: seq<LogContent>, limit: nat, sofar: nat)
    ensures var n := TakenFrom(files, limit, sofar);
            && (n < |files| ==> sofar + |Flat(files[..n])| > limit)
            && forall k :: 0 < k < n ==> sofar + |Flat(files[..k])| <= limit
    decreases |files|
  {
    var n := TakenFrom(files, limit, sofar);
    if files != [] {
      assert forall k :: 0 < k <= |files| ==> files[..k][0] == files[0] && files[..k][1..] == files[1..][..k - 1];
      assert files[1..][..0] == [] && Flat([]) == [];
      assert |Flat(files[..1])| == |files[0]|;
      if sofar + |files[0]| <= limit {
        TakenFromIsShortest(files[1..], limit, sofar + |files[0]|);
        forall k | 0 < k < n
          ensures sofar + |Flat(files[..k])| <= limit
        {
          assert |Flat(files[..k])| == |files[0]| + |Flat(files[1..][..k - 1])|;
        }
        assert |Flat(files[..n])| == |files[0]| + |Flat(files[1..][..n - 1])|;
      }
    }
  }

  /** A run reads the shortest non-empty prefix that exceeds the limit, or everything. */
  lemma TakenIsShortest(files: seq<LogContent>, limit: nat)
    ensures var n := Taken(files, limit);
            && (n < |files| ==> |Flat(files[..n])| > limit)
            && forall k :: 0 < k < n ==> |Flat(files[..k])| <= limit
  {
    TakenFromIsShortest(files, limit, 0);
  }

  /** And it is the only number of files with this property. */
  lemma TakenIsUnique(files: seq<LogContent>, limit: nat, n: nat)
    requires files != [] && 0 < n <= |files|
    requires n < |files| ==> |Flat(files[..n])| > limit
    requires forall k :: 0 < k < n ==> |Flat(files[..k])| <= limit
    ensures n == Taken(files, limit)
  {
    TakenIsShortest(files, limit);
  }

  /** One run: the files it marks as done. It marks none when there is no object in what it read. */
  function Batch(files: seq<LogContent>, limit: nat): (batch: seq<LogContent>)
    ensures batch <= files
  {
    var read := files[..Taken(files, limit)];
    if Flat(read) == [] then [] else read
  }

  /** Repeated runs, each with its own limit: the batches in order. */
  function Batches(files: seq<LogContent>, limits: seq<nat>): seq<seq<LogContent>>
    decreases |limits|
  {
    if limits == [] then []
    else
      var batch := Batch(files, limits[0]);
      [batch] + Batches(files[|batch|..], limits[1..])
  }

  function Concat(batches: seq<seq<LogContent>>): seq<LogContent> {
    if batches == [] then [] else batches[0] + Concat(batches[1..])
  }

  lemma FirstBatch(files: seq<LogContent>, limits: seq<nat>)
    requires limits != []
    ensures var batch := Batch(files, limits[0]);
            Concat(Batches(files, limits)) == batch + Concat(Batches(files[|batch|..], limits[1..]))
  {
    hide Batch;
    var batch := Batch(files, limits[0]);
    var batches := Batches(files, limits);
    assert batches[0] == batch && batches[1..] == Batches(files[|batch|..], limits[1..]);
  }

  /** The batches are consecutive pieces of the sorted list: nothing is skipped, repeated or reordered. */
  lemma {:induction false} BatchesArePrefix(files: seq<LogContent>, limits: seq<nat>)
    ensures Concat(Batches(files, limits)) <= files
    decreases |limits|
  {
    if limits != [] {
      hide Batch, Batches;
      FirstBatch(files, limits);
      var rest := files[|Batch(files, limits[0])|..];
      BatchesArePrefix(rest, limits[1..]);
      assert files == Batch(files, limits[0]) + rest;
    }
  }

  lemma {:induction false} FlatOfLast(files: seq<LogContent>)
    requires files != [] && files[|files| - 1] != []
    ensures Flat(files) != []
  {
    if |files| > 1 {
      assert files[1..][|files| - 2] == files[|files| - 1];
      FlatOfLast(files[1..]);
    }
  }

  /** As long as the last file has an object, a run always makes progress. */
  lemma Progress(files: seq<LogContent>, limit: nat)
    requires files != [] && files[|files| - 1] != []
    ensures Batch(files, limit) != []
  {
    TakenIsShortest(files, limit);
    var n := Taken(files, limit);
    if n == |files| {
      assert files[..n] == files;
      FlatOfLast(files);
    }
  }

  /**
   When the last log file holds an object, as every file written by get-log does, at most as many
   runs as there are files use up all files, in order, whatever the limits.
   */
  lemma {:induction false} Drained(files: seq<LogContent>, limits: seq<nat>)
    requires files != [] ==> files[|files| - 1] != []
    requires |limits| >= |files|
    ensures Concat(Batches(files, limits)) == files
    decreases |limits|
  {
    if limits != [] {
      hide Batch, Batches, Concat;
      FirstBatch(files, limits);
      var batch := Batch(files, limits[0]);
      var rest := files[|batch|..];
      if files != [] {
        Progress(files, limits[0]);
        assert |rest| < |files|;
      }
      if rest != [] {
        assert rest[|rest| - 1] == files[|files| - 1];
      }
      Drained(rest, limits[1..]);
      assert files == batch + rest;
    }
  }

  lemma LastIsLeft(files: seq<LogContent>)
    requires files != [] && files[|files| - 1] == []
    ensures Batch(files, 0) != files
  {
    TakenIsShortest(files, 0);
    var m := |files| - 1;
    FlatConcat(files[..m], [files[m]]);
    assert files[..m] + [files[m]] == files;
    assert Flat([files[m]]) == files[m] + Flat([files[m]][1..]) == [];
    assert m == 0 ==> files[..m] == [];
    assert Taken(files, 0) == |files| ==> |Flat(files[..m])| == 0;
    assert files[..|files|] == files;
  }

  /**
   The condition is exact: when the last log file has no object, runs with the smallest limit
   never get past it, however often they are repeated.
   */
  lemma {:induction false} NeverDrained(files: seq<LogContent>, limits: seq<nat>)
    requires files != [] && files[|files| - 1] == []
    requires forall i :: 0 <= i < |limits| ==> limits[i] == 0
    ensures |Concat(Batches(files, limits))| < |files|
    decreases |limits|
  {
    if limits != [] {
      LastIsLeft(files);
      hide Batch, Batches;
      FirstBatch(files, limits);
      var rest := files[|Batch(files, 0)|..];
      assert rest != [] && rest[|rest| - 1] == files[|files| - 1];
      NeverDrained(rest, limits[1..]);
    }
  }
}
