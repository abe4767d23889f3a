/**
 PID files (src/io.cpp): taking and giving back one, what a failed attempt leaves behind, and mutual
 exclusion for any number of processes in any interleaving. get-log, catchup and fake-log all use
 the name "osmdbt-log".
 */
module PidLock {
  import opened Wrappers

  datatype PidError = AlreadyExists(path: string) | CannotCreate(path: string) | CannotWrite(path: string)

  /** The run directory: the files in it. */
  class RunDir {
    var files: set<string>

    constructor ()
      ensures files == {}
    {
      files := {};
    }

    /** `excl_write_open`: creates a file that does not exist yet; `permitted` stands for all other errors. */
    method ExclWriteOpen(path: string, permitted: bool) returns (ok: bool)
      modifies this
      ensures ok <==> permitted && path !in old(files)
      ensures files == if ok then old(files) + {path} else old(files)
    {
      ok := permitted && path !in files;
      if ok {
        files := files + {path};
      }
    }

    method Unlink(path: string)
      modifies this
      ensures files == old(files) - {path}
    {
      files := files - {path};
    }
  }

  function PidPath(dir: string, name: string): string {
    dir + name + ".pid"
  }

  /** `PIDFile`: an empty path means that there is nothing to remove. */
  class PidFile {
    const path: string

    constructor (path: string)
      ensures this.path == path
    {
      this.path := path;
    }

    /**
     The constructor of the source, which may throw; then there is no object and no destructor runs.
     Without a run directory no file is used. When writing the process id fails, the file stays.
     */
    static method Acquire(runDir: RunDir, dir: string, name: string, permitted: bool, writeOk: bool)
      returns (r: Result<PidFile, PidError>)
      modifies runDir
      ensures dir == "" ==> r.Success? && r.value.path == "" && runDir.files == old(runDir.files)
      ensures dir != "" ==> (r.Success? <==> permitted && writeOk && PidPath(dir, name) !in old(runDir.files))
      ensures dir != "" && r.Success? ==>
                r.value.path == PidPath(dir, name) && runDir.files == old(runDir.files) + {r.value.path}
      ensures r.Failure? && r.error.CannotWrite? ==> runDir.files == old(runDir.files) + {PidPath(dir, name)}
      ensures r.Failure? && !r.error.CannotWrite? ==> runDir.files == old(runDir.files)
      ensures dir != "" && PidPath(dir, name) in old(runDir.files) ==> r.Failure? && !r.error.CannotWrite?
      ensures r.Success? ==> fresh(r.value)
    {
      if dir == "" {
        var none := new PidFile("");
        return Success(none);
      }
      var path := PidPath(dir, name);
      var present := path in runDir.files;
      var ok := runDir.ExclWriteOpen(path, permitted);
      if !ok {
        return Failure(if present then AlreadyExists(path) else CannotCreate(path));
      }
      if !writeOk {
        return Failure(CannotWrite(path));
      }
      var pidFile := new PidFile(path);
      return Success(pidFile);
    }

    /** The destructor. */
    method Release(runDir: RunDir)
      modifies runDir
      ensures runDir.files == if path != "" then old(runDir.files) - {path} else old(runDir.files)
    {
      if path != "" {
        runDir.Unlink(path);
      }
    }
  }

  /** Taking a PID file and giving it back leaves the directory as it was; a second taker in between fails. */
  method AcquireAndRelease(runDir: RunDir, dir: string, name: string)
    returns (first: Result<PidFile, PidError>, second: Result<PidFile, PidError>)
    requires dir != "" && PidPath(dir, name) !in runDir.files
    modifies runDir
    ensures first.Success? && second.Failure?
    ensures runDir.files == old(runDir.files)
  {
    first := PidFile.Acquire(runDir, dir, name, true, true);
    second := PidFile.Acquire(runDir, dir, name, true, true);
    first.value.Release(runDir);
  }

  // --- Any number of processes -----------------------------------------------------------------------------

  /** One PID file, the processes that have created it but not written it yet, and those that hold it. */
  datatype Lock = Lock(useRunDir: bool, file: bool, writing: set<nat>, inside: set<nat>)

  datatype Step =
    | Open(p: nat)          // the exclusive open succeeds
    | OpenFails(p: nat)     // it does not: the process ends
    | Enter(p: nat)         // the process id is written
    | WriteFails(p: nat)    // it is not: the process ends without removing the file
    | Leave(p: nat)         // the destructor
    | Killed(p: nat)        // the process dies, the file stays

  predicate Enabled(l: Lock, s: Step) {
    match s
    case Open(p) => p !in l.writing && p !in l.inside && (l.useRunDir ==> !l.file)
    case OpenFails(p) => p !in l.writing && p !in l.inside && l.useRunDir
    case Enter(p) => p in l.writing
    case WriteFails(p) => p in l.writing && l.useRunDir
    case Leave(p) => p in l.inside
    case Killed(p) => p in l.writing || p in l.inside
  }

  function Next(l: Lock, s: Step): Lock
    requires Enabled(l, s)
  {
    match s
    case Open(p) => l.(file := l.file || l.useRunDir, writing := l.writing + {p})
    case OpenFails(p) => l
    case Enter(p) => l.(writing := l.writing - {p}, inside := l.inside + {p})
    case WriteFails(p) => l.(writing := l.writing - {p})
    case Leave(p) => l.(file := if l.useRunDir then false else l.file, inside := l.inside - {p})
    case Killed(p) => l.(writing := l.writing - {p}, inside := l.inside - {p})
  }

  predicate IsRun(l: Lock, steps: seq<Step>)
    decreases |steps|
  {
    steps == [] || (Enabled(l, steps[0]) && IsRun(Next(l, steps[0]), steps[1..]))
  }

  function Run(l: Lock, steps: seq<Step>): Lock
    requires IsRun(l, steps)
    decreases |steps|
  {
    if steps == [] then l else Run(Next(l, steps[0]), steps[1..])
  }

  predicate IsBy(s: Step, p: nat) {
    s in {Open(p), OpenFails(p), Enter(p), WriteFails(p), Leave(p), Killed(p)}
  }

  /**
   Each process opens, writes and leaves in this order, may die in between, and fails only with a run directory;
   for the others nothing but the file changes.
   */
  lemma StepsOfProcess(l: Lock, s: Step, p: nat)
    requires l.writing !! l.inside && Enabled(l, s) && IsBy(s, p)
    ensures p in l.writing ==> s in {Enter(p), WriteFails(p), Killed(p)} && Enabled(l, Killed(p))
    ensures p in l.inside ==> s in {Leave(p), Killed(p)} && Enabled(l, Killed(p))
    ensures p !in l.writing && p !in l.inside ==> s in {Open(p), OpenFails(p)}
    ensures s.OpenFails? || s.WriteFails? ==> l.useRunDir
    ensures s == Open(p) ==> p in Next(l, s).writing
    ensures s == Enter(p) ==> p in Next(l, s).inside
    ensures s in {WriteFails(p), Leave(p), Killed(p)} ==> p !in Next(l, s).writing && p !in Next(l, s).inside
    ensures forall q :: q != p ==>
                          (q in Next(l, s).writing <==> q in l.writing) && (q in Next(l, s).inside <==> q in l.inside)
  {
  }

  /** At most one process is past the open, and then the file exists. */
  predicate Exclusive(l: Lock) {
    && (forall p, q :: p in l.writing + l.inside && q in l.writing + l.inside ==> p == q)
    && l.writing !! l.inside
    && (l.writing + l.inside != {} ==> l.file)
  }

  /** With a run directory: mutual exclusion in every interleaving, whoever fails or is killed. */
  lemma {:induction false} LockExclusion(l: Lock, steps: seq<Step>)
    requires l.useRunDir && Exclusive(l) && IsRun(l, steps)
    ensures var end := Run(l, steps); end.useRunDir && Exclusive(end)
    decreases |steps|
  {
    if steps != [] {
      var l' := Next(l, steps[0]);
      assert forall p :: p in l'.writing + l'.inside ==> p in l.writing + l.inside || steps[0] == Open(p);
      LockExclusion(l', steps[1..]);
    }
  }

  predicate AllowedWhileHeld(steps: seq<Step>, p: nat) {
    forall i :: 0 <= i < |steps| ==> steps[i] != Leave(p) && steps[i] != Killed(p)
  }

  /** While a process holds the lock, whatever the others try fails, and its PID file is not removed. */
  lemma {:induction false} HolderKeepsFile(l: Lock, steps: seq<Step>, p: nat)
    requires l.useRunDir && Exclusive(l) && p in l.inside && IsRun(l, steps) && AllowedWhileHeld(steps, p)
    ensures Run(l, steps) == l && l.file
    ensures forall i :: 0 <= i < |steps| ==> steps[i].OpenFails?
    decreases |steps|
  {
    if steps != [] {
      var s := steps[0];
      assert s != Leave(p) && s != Killed(p);
      assert forall q :: q in l.writing + l.inside ==> q == p;
      assert Next(l, s) == l;
      HolderKeepsFile(l, steps[1..], p);
    }
  }

  /** When a holder is killed or cannot write, nobody gets the lock any more until somebody removes the file. */
  lemma {:induction false} StaleFileBlocks(l: Lock, steps: seq<Step>)
    requires l.useRunDir && l.file && l.writing == {} && l.inside == {} && IsRun(l, steps)
    ensures Run(l, steps) == l
    decreases |steps|
  {
    if steps != [] {
      StaleFileBlocks(l, steps[1..]);
    }
  }

  lemma RunCons(l: Lock, s: Step, rest: seq<Step>)
    requires Enabled(l, s) && IsRun(Next(l, s), rest)
    ensures IsRun(l, [s] + rest) && Run(l, [s] + rest) == Run(Next(l, s), rest)
  {
    hide Enabled, Next;
    assert ([s] + rest)[1..] == rest;
  }

  /** The run directory is needed: without one, any two processes can be inside together. */
  lemma NoRunDirNoExclusion(p: nat, q: nat) returns (steps: seq<Step>)
    requires p != q
    ensures IsRun(Lock(false, false, {}, {}), steps)
    ensures Run(Lock(false, false, {}, {}), steps).inside == {p, q}
  {
    steps := [Open(p), Enter(p), Open(q), Enter(q)];
    var l0 := Lock(false, false, {}, {});
    var l1 := Next(l0, Open(p));
    var l2 := Next(l1, Enter(p));
    var l3 := Next(l2, Open(q));
    var l4 := Next(l3, Enter(q));
    RunCons(l3, Enter(q), []);
    RunCons(l2, Open(q), [Enter(q)]);
    RunCons(l1, Enter(p), [Open(q), Enter(q)]);
    RunCons(l0, Open(p), [Enter(p), Open(q), Enter(q)]);
    assert [Enter(q)] + [] == [Enter(q)] && [Open(q)] + [Enter(q)] == [Open(q), Enter(q)];
    assert [Enter(p)] + [Open(q), Enter(q)] == [Enter(p), Open(q), Enter(q)];
    assert [Open(p)] + [Enter(p), Open(q), Enter(q)] == steps;
  }

  // --- The machine is what the class does ------------------------------------------------------------------

  /** The machine's file is the PID file in the run directory, if there is one. */
  ghost predicate Represents(l: Lock, files: set<string>, dir: string, name: string) {
    l.useRunDir == (dir != "") && (l.file <==> dir != "" && PidPath(dir, name) in files)
  }

  /** Taking a PID file is a run of the machine, after which the process is inside if and only if it succeeded. */
  method AcquireIsRun(
      runDir: RunDir, dir: string, name: string, permitted: bool, writeOk: bool, ghost l: Lock, ghost p: nat)
    returns (r: Result<PidFile, PidError>, ghost steps: seq<Step>)
    requires Represents(l, runDir.files, dir, name) && p !in l.writing && p !in l.inside
    modifies runDir
    ensures IsRun(l, steps) && Represents(Run(l, steps), runDir.files, dir, name)
    ensures p in Run(l, steps).inside <==> r.Success?
    ensures p !in Run(l, steps).writing
    ensures r.Success? ==> r.value.path == if dir == "" then "" else PidPath(dir, name)
  {
    r := PidFile.Acquire(runDir, dir, name, permitted, writeOk);
    match r {
      case Success(_) => steps := [Open(p), Enter(p)];
      case Failure(CannotWrite(_)) => steps := [Open(p), WriteFails(p)];
      case Failure(_) => steps := [OpenFails(p)];
    }
    if |steps| == 1 {
      OneStep(l, steps[0]);
    } else {
      OneStep(Next(l, steps[0]), steps[1]);
      RunCons(l, steps[0], [steps[1]]);
      assert [steps[0]] + [steps[1]] == steps;
    }
  }

  /** Giving it back is the step with which the process leaves. */
  method ReleaseIsStep(runDir: RunDir, dir: string, name: string, pidFile: PidFile, ghost l: Lock, ghost p: nat)
    requires Represents(l, runDir.files, dir, name) && p in l.inside
    requires pidFile.path == if dir == "" then "" else PidPath(dir, name)
    modifies runDir
    ensures Enabled(l, Leave(p)) && Represents(Next(l, Leave(p)), runDir.files, dir, name)
  {
    assert |PidPath(dir, name)| >= 4;
    pidFile.Release(runDir);
  }

  lemma OneStep(l: Lock, s: Step)
    requires Enabled(l, s)
    ensures IsRun(l, [s]) && Run(l, [s]) == Next(l, s)
  {
    hide Enabled, Next;
    assert [s][1..] == [];
  }


  /** Programs that give different names have different PID files, and nobody else's. */
  lemma PidPathExactly(dir: string, a: string, b: string)
    ensures PidPath(dir, a) == PidPath(dir, b) <==> a == b
    ensures PidPath(dir, "osmdbt-log") == dir + "osmdbt-log.pid"
    ensures PidPath(dir, "osmdbt-create-diff") == dir + "osmdbt-create-diff.pid"
  {
    assert PidPath(dir, a)[|dir|..|PidPath(dir, a)| - 4] == a;
    assert PidPath(dir, b)[|dir|..|PidPath(dir, b)| - 4] == b;
    assert dir + "osmdbt-log" + ".pid" == dir + "osmdbt-log.pid";
    assert dir + "osmdbt-create-diff" + ".pid" == dir + "osmdbt-create-diff.pid";
  }

  /** When the process that has the lock is killed or cannot write its id, everybody else fails from then on. */
  lemma {:induction false} DeathBlocks(l: Lock, p: nat, s: Step, steps: seq<Step>)
    requires l.useRunDir && Exclusive(l) && Enabled(l, s)
    requires (s == Killed(p) && (p in l.writing || p in l.inside)) || (s == WriteFails(p) && p in l.writing)
    requires IsRun(Next(l, s), steps)
    ensures var end := Run(Next(l, s), steps); end.file && end.writing == {} && end.inside == {}
    ensures forall i :: 0 <= i < |steps| ==> steps[i].OpenFails?
  {
    var dead := Next(l, s);
    assert forall q :: q in l.writing + l.inside ==> q == p;
    assert dead.file && dead.writing == {} && dead.inside == {};
    StaleFileBlocks(dead, steps);
    OnlyFailures(dead, steps);
  }

  lemma {:induction false} OnlyFailures(l: Lock, steps: seq<Step>)
    requires l.useRunDir && l.file && l.writing == {} && l.inside == {} && IsRun(l, steps)
    ensures forall i :: 0 <= i < |steps| ==> steps[i].OpenFails?
    decreases |steps|
  {
    if steps != [] {
      assert Next(l, steps[0]) == l;
      OnlyFailures(l, steps[1..]);
    }
  }

  /** Without a death the next process can have the lock as soon as the holder has left. */
  lemma LeavingFrees(l: Lock, p: nat, q: nat)
    requires l.useRunDir && Exclusive(l) && p in l.inside && q != p
    ensures Enabled(l, Leave(p)) && Enabled(Next(l, Leave(p)), Open(q))
    ensures Enabled(Next(Next(l, Leave(p)), Open(q)), Enter(q))
    ensures Next(Next(Next(l, Leave(p)), Open(q)), Enter(q)).inside == {q}
  {
    assert forall r :: r in l.writing + l.inside ==> r == p;
  }
}
