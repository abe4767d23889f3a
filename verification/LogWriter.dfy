/**
 Writing a log file (src/util.cpp, src/io.cpp): exclusive create under a temporary name, write, sync
 the file, rename, sync the directory. Each effect may fail, and the host may crash after each one.
 */
module LogWriter {

  /** A file's contents, and whether they are safe on disk. */
  datatype Inode = Inode(data: string, synced: bool)

  /** What a directory listing shows, and what of the directory is safe on disk. */
  datatype Snapshot = Snapshot(visible: map<string, Inode>, durable: map<string, Inode>)

  /** A file that was not synced may come out of a crash truncated. */
  predicate Survives(inode: Inode, text: string) {
    if inode.synced then text == inode.data else text <= inode.data
  }

  /** What may be found after a crash: each name as it was on disk or as it was last seen. */
  ghost predicate CrashOutcome(s: Snapshot, after: map<string, string>) {
    && (forall n :: n in after ==>
                      || (n in s.visible && Survives(s.visible[n], after[n]))
                      || (n in s.durable && Survives(s.durable[n], after[n])))
    && (forall n :: n in s.visible && n in s.durable ==> n in after)
  }

  class Directory {
    var visible: map<string, Inode>
    var durable: map<string, Inode>

    function Now(): Snapshot
      reads this
    {
      Snapshot(visible, durable)
    }

    method ExclWriteOpen(name: string, permitted: bool) returns (ok: bool)
      modifies this`visible
      ensures ok <==> permitted && name !in old(visible)
      ensures visible == if ok then old(visible)[name := Inode("", false)] else old(visible)
    {
      ok := permitted && name !in visible;
      if ok {
        visible := visible[name := Inode("", false)];
      }
    }

    /** `reliable_write`; when it fails, some first part of the data may be there. */
    method Write(name: string, data: string, written: nat) returns (ok: bool)
      requires name in visible
      modifies this`visible
      ensures ok <==> written >= |data|
      ensures visible == old(visible)[name := Inode(if ok then data else data[..written], false)]
    {
      ok := written >= |data|;
      visible := visible[name := Inode(if ok then data else data[..written], false)];
    }

    method Fsync(name: string)
      requires name in visible
      modifies this`visible
      ensures visible == old(visible)[name := Inode(old(visible[name].data), true)]
    {
      visible := visible[name := visible[name].(synced := true)];
    }

    /** `rename_file`, which replaces a file of the new name; when it fails nothing changes. */
    method Rename(from: string, to: string, permitted: bool) returns (ok: bool)
      requires from in visible && from != to
      modifies this`visible
      ensures ok <==> permitted
      ensures visible == if ok then (old(visible) - {from})[to := old(visible)[from]] else old(visible)
    {
      ok := permitted;
      if ok {
        visible := (visible - {from})[to := visible[from]];
      }
    }

    method SyncDir()
      modifies this`durable
      ensures durable == visible
    {
      durable := visible;
    }
  }

  /** Which effects succeed; `written` is how much of the data gets written. */
  datatype Faults = Faults(openOk: bool, written: nat, fsyncOk: bool, renameOk: bool, syncOk: bool)

  /** The name has what it had before, or all of the data, safe on disk. */
  predicate OldOrWhole(before: Snapshot, s: Snapshot, name: string, data: string) {
    && (name in s.visible ==> (name in before.visible && s.visible[name] == before.visible[name])
                              || s.visible[name] == Inode(data, true))
    && (name in s.durable ==> (name in before.durable && s.durable[name] == before.durable[name])
                              || s.durable[name] == Inode(data, true))
  }

  /** No other file is touched. */
  ghost predicate OthersKept(before: Snapshot, s: Snapshot, name: string) {
    forall n :: n != name && n != name + ".new" ==>
                  (n in s.visible <==> n in before.visible) && (n in before.visible ==> s.visible[n] == before.visible[n])
  }

  ghost predicate StateOk(before: Snapshot, s: Snapshot, name: string, data: string) {
    OldOrWhole(before, s, name, data) && OthersKept(before, s, name)
  }

  /** While only the temporary file is there. */
  lemma TemporaryOk(before: Snapshot, s: Snapshot, name: string, data: string, inode: Inode)
    requires s == before || s == before.(visible := before.visible[name + ".new" := inode])
    ensures StateOk(before, s, name, data)
  {
    assert |name + ".new"| > |name|;
  }

  /** After the rename, before and after the directory is synced. */
  lemma RenamedOk(before: Snapshot, s: Snapshot, name: string, data: string)
    requires s.visible == (before.visible - {name + ".new"})[name := Inode(data, true)]
    requires s.durable == before.durable || s.durable == s.visible
    ensures StateOk(before, s, name, data)
  {
  }

  /**
   `write_data_to_file`. `states` are the states of the directory after each effect: at all times the
   file has its old contents or the whole data, safe on disk; it succeeds only with everything synced.
   */
  method WriteDataToFile(dir: Directory, data: string, name: string, faults: Faults)
    returns (ok: bool, ghost states: seq<Snapshot>)
    modifies dir
    ensures ok <==> name + ".new" !in old(dir.visible) && faults.openOk && faults.written >= |data|
                    && faults.fsyncOk && faults.renameOk && faults.syncOk
    ensures ok ==> dir.visible == (old(dir.visible) - {name + ".new"})[name := Inode(data, true)]
    ensures ok ==> dir.durable == dir.visible
    ensures name + ".new" in old(dir.visible) ==> dir.Now() == old(dir.Now())
    ensures states != [] && states[|states| - 1] == dir.Now()
    ensures forall s :: s in states ==> StateOk(old(dir.Now()), s, name, data)
    ensures !ok && dir.Now() != old(dir.Now()) ==>
              (name + ".new" in dir.visible && dir.durable == old(dir.durable))
              || (name in dir.visible && dir.visible[name] == Inode(data, true) && dir.durable == old(dir.durable))
  {
    hide StateOk;
    var temporary := name + ".new";
    assert |temporary| > |name|;
    ghost var before := dir.Now();
    states := [before];
    TemporaryOk(before, before, name, data, Inode("", false));
    ok := dir.ExclWriteOpen(temporary, faults.openOk);
    if !ok {
      return;
    }
    TemporaryOk(before, dir.Now(), name, data, Inode("", false));
    states := states + [dir.Now()];
    ok := dir.Write(temporary, data, faults.written);
    TemporaryOk(before, dir.Now(), name, data, dir.visible[temporary]);
    states := states + [dir.Now()];
    if !ok {
      return;
    }
    if !faults.fsyncOk {
      return false, states;
    }
    dir.Fsync(temporary);
    TemporaryOk(before, dir.Now(), name, data, dir.visible[temporary]);
    states := states + [dir.Now()];
    ok := dir.Rename(temporary, name, faults.renameOk);
    if !ok {
      return;
    }
    assert dir.visible == (before.visible - {temporary})[name := Inode(data, true)];
    RenamedOk(before, dir.Now(), name, data);
    states := states + [dir.Now()];
    if !faults.syncOk {
      return false, states;
    }
    dir.SyncDir();
    RenamedOk(before, dir.Now(), name, data);
    states := states + [dir.Now()];
  }

  /** A crash at any moment never leaves a partly written file under the final name. */
  lemma NeverHalfWritten(before: Snapshot, s: Snapshot, name: string, data: string, after: map<string, string>)
    requires name !in before.visible && name !in before.durable
    requires OldOrWhole(before, s, name, data) && CrashOutcome(s, after)
    ensures name in after ==> after[name] == data
  {
  }

  /** Once the directory is synced, a crash cannot take the file away. */
  lemma SyncedSurvives(s: Snapshot, name: string, data: string, after: map<string, string>)
    requires s.durable == s.visible && name in s.visible && s.visible[name] == Inode(data, true)
    requires CrashOutcome(s, after)
    ensures name in after && after[name] == data
  {
  }

  /** Without the sync of the file, a crash after the rename could leave it empty. */
  lemma UnsyncedFileCanBeEmpty(before: Snapshot, name: string, data: string)
    ensures var s := Snapshot(before.visible[name := Inode(data, false)], before.visible[name := Inode(data, false)]);
            exists after :: CrashOutcome(s, after) && name in after && after[name] == ""
  {
    var s := Snapshot(before.visible[name := Inode(data, false)], before.visible[name := Inode(data, false)]);
    var after := map n | n in s.visible :: if n == name then "" else s.visible[n].data;
    assert CrashOutcome(s, after) && name in after && after[name] == "";
  }

  /** Before the directory sync a new name may be lost in a crash, and a removed one may be back, or not. */
  lemma UnsyncedNameEitherWay(s: Snapshot, name: string) returns (kept: map<string, string>, lost: map<string, string>)
    requires (name in s.visible) != (name in s.durable)
    ensures CrashOutcome(s, kept) && name in kept
    ensures CrashOutcome(s, lost) && name !in lost
  {
    lost := map n | n in s.visible && n in s.durable :: s.visible[n].data;
    kept := lost[name := if name in s.visible then s.visible[name].data else s.durable[name].data];
  }
}
