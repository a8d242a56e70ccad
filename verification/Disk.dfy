/** The three files of ~/.deploy the agent's renewal touches, with every file operation free
    to fail, and the crash-atomic replacement of internal/certrenew. Written bytes are on
    stable storage only after a sync: until then a power loss leaves any contents behind. */
module Disk {
  import opened Bytes

  /** What is on disk: agent.crt, agent.crt.tmp and agent.key; None is a missing file. */
  datatype Files = Files(crt: Option<bytes>, tmp: Option<bytes>, key: Option<bytes>)

  const RENAME_ATTEMPTS := 5

  /** The file system. The log records every state the disk passes through, including those
      inside a partial write, and with each what a power loss at that point could leave: the
      process dies or the power fails in one of them. */
  class FileSystem {
    var crt: Option<bytes>
    var tmp: Option<bytes>
    var key: Option<bytes>
    ghost var synced: bool          // tmp's contents are on stable storage
    ghost var log: seq<Files>
    ghost var failures: nat
    ghost var failedRenames: nat
    ghost var failedRemovals: nat

    ghost function State(): Files
      reads this
    {
      Files(crt, tmp, key)
    }

    ghost predicate Valid()
      reads this
    {
      |log| > 0 && log[|log| - 1] == State()
    }

    constructor (crt: Option<bytes>, tmp: Option<bytes>, key: Option<bytes>)
      ensures Valid() && State() == Files(crt, tmp, key) && log == [State()]
      ensures failures == 0 && failedRenames == 0
    {
      this.crt, this.tmp, this.key := crt, tmp, key;
      synced := false;
      log := [Files(crt, tmp, key)];
      failures, failedRenames, failedRemovals := 0, 0, 0;
    }

    /** Records what a power loss now would leave, and then the state itself. */
    ghost method Record()
      modifies this`log
      ensures Valid() && old(log) <= log
      ensures forall i :: |old(log)| <= i < |log| ==> log[i].crt == crt && log[i].key == key
    {
      var torn: Option<bytes> := *;
      log := log + [Files(crt, if synced then tmp else torn, key), State()];
    }

    /** OpenFile(tmp, O_WRONLY|O_CREATE|O_TRUNC): stale contents are dropped. */
    method OpenTrunc() returns (ok: bool)
      requires Valid()
      modifies this`tmp, this`synced, this`log, this`failures
      ensures Valid() && old(log) <= log
      ensures failures == old(failures) + if ok then 0 else 1
      ensures tmp == if ok then Some([]) else old(tmp)
      ensures forall i :: |old(log)| <= i < |log| ==> log[i].crt == crt && log[i].key == key
    {
      ok := *;
      if ok {
        tmp := Some([]);
      } else {
        failures := failures + 1;
      }
      synced := false;
      Record();
    }

    /** Writes data piece by piece; it may stop with an error after any piece. */
    method Write(data: bytes) returns (ok: bool)
      requires Valid() && tmp == Some([])
      modifies this`tmp, this`synced, this`log, this`failures
      ensures Valid() && old(log) <= log
      ensures failures == old(failures) + if ok then 0 else 1
      ensures tmp.Some? && tmp.value <= data && (ok ==> tmp.value == data)
      ensures forall i :: |old(log)| <= i < |log| ==> log[i].crt == crt && log[i].key == key
    {
      var done := 0;
      synced := false;
      while done < |data|
        invariant done <= |data| && tmp == Some(data[..done])
        invariant Valid() && old(log) <= log && failures == old(failures)
        invariant forall i :: |old(log)| <= i < |log| ==> log[i].crt == crt && log[i].key == key
      {
        var more: bool := *;
        if !more {
          failures := failures + 1;
          return false;
        }
        var n: nat :| done < n <= |data|;
        done := n;
        tmp := Some(data[..done]);
        Record();
      }
      assert data[..done] == data;
      return true;
    }

    /** Sync: afterwards what was written survives a power loss; or an error. */
    method Sync() returns (ok: bool)
      requires Valid()
      modifies this`synced, this`failures
      ensures failures == old(failures) + if ok then 0 else 1
      ensures ok ==> synced
    {
      ok := *;
      if ok {
        synced := true;
      } else {
        failures := failures + 1;
      }
    }

    /** Close: no change of contents; it may fail. */
    method Close() returns (ok: bool)
      requires Valid()
      modifies this`failures
      ensures failures == old(failures) + if ok then 0 else 1
    {
      ok := *;
      if !ok {
        failures := failures + 1;
      }
    }

    /** Remove(tmp), its error ignored. */
    method RemoveTmp()
      requires Valid()
      modifies this`tmp, this`log, this`failedRemovals
      ensures Valid() && old(log) <= log
      ensures tmp == None || (tmp == old(tmp) && failedRemovals == old(failedRemovals) + 1)
      ensures forall i :: |old(log)| <= i < |log| ==> log[i].crt == crt && log[i].key == key
    {
      var ok: bool := *;
      if ok {
        tmp := None;
      } else {
        failedRemovals := failedRemovals + 1;
      }
      Record();
    }

    /** Rename(tmp, crt): a single atomic step, or an error that changes nothing. The name
        changes whether or not the contents are stable: a power loss after it leaves the whole
        contents under the new name only if they were synced. */
    method Rename() returns (ok: bool)
      requires Valid()
      modifies this`crt, this`tmp, this`log, this`failures, this`failedRenames
      ensures Valid() && old(log) <= log
      ensures ok ==> old(tmp).Some? && crt == old(tmp) && tmp == None
      ensures !ok ==> crt == old(crt) && tmp == old(tmp)
      ensures failures == old(failures) + if ok then 0 else 1
      ensures failedRenames == old(failedRenames) + if ok then 0 else 1
      ensures forall i :: |old(log)| <= i < |log| ==> log[i].key == key
      ensures synced ==> forall i :: |old(log)| <= i < |log| ==> log[i].crt == crt
    {
      ok := *;
      ok := ok && tmp.Some?;
      if ok {
        crt, tmp := tmp, None;
        ghost var torn: Option<bytes> := *;
        log := log + [Files(if synced then crt else torn, None, key), State()];
      } else {
        failures, failedRenames := failures + 1, failedRenames + 1;
        Record();
      }
    }
  }

  /** A state passed through while data replaces the file: old bytes, or exactly the new. */
  ghost predicate OldOrNew(was: Files, data: bytes, now: Files) {
    now.key == was.key && (now.crt == was.crt || now.crt == Some(data))
  }

  /** Every state recorded since, from index start, is old or new. */
  ghost predicate Atomic(log: seq<Files>, start: nat, was: Files, data: bytes) {
    start <= |log| && forall i :: start <= i < |log| ==> OldOrNew(was, data, log[i])
  }

  /** renameWithRetry: fails only after five failed renames. */
  method RenameWithRetry(fs: FileSystem, ghost data: bytes) returns (ok: bool)
    requires fs.Valid() && fs.tmp == Some(data) && fs.synced
    modifies fs`crt, fs`tmp, fs`log, fs`failures, fs`failedRenames
    ensures fs.Valid() && old(fs.log) <= fs.log
    ensures Atomic(fs.log, |old(fs.log)|, old(fs.State()), data)
    ensures ok ==> fs.crt == Some(data) && fs.tmp == None
    ensures !ok ==> fs.crt == old(fs.crt) && fs.tmp == old(fs.tmp)
    ensures ok <==> fs.failedRenames < old(fs.failedRenames) + RENAME_ATTEMPTS
    ensures !ok ==> fs.failedRenames == old(fs.failedRenames) + 5
    ensures fs.failures - old(fs.failures) == fs.failedRenames - old(fs.failedRenames)
    ensures old(fs.failedRenames) <= fs.failedRenames <= old(fs.failedRenames) + RENAME_ATTEMPTS
  {
    var attempt := 1;
    while attempt <= RENAME_ATTEMPTS
      invariant 1 <= attempt <= RENAME_ATTEMPTS + 1
      invariant fs.Valid() && old(fs.log) <= fs.log
      invariant fs.crt == old(fs.crt) && fs.tmp == old(fs.tmp)
      invariant Atomic(fs.log, |old(fs.log)|, old(fs.State()), data)
      invariant fs.failedRenames == old(fs.failedRenames) + attempt - 1
      invariant fs.failures - old(fs.failures) == attempt - 1
    {
      ok := fs.Rename();
      if ok {
        return;
      }
      attempt := attempt + 1;
    }
    return false;
  }

  /** writeAtomic: at every point of every execution, power losses included, agent.crt holds
      exactly the old or exactly the whole new bytes; success means new, any error means old;
      without a failing operation it succeeds; and a failure removes what it has written to
      the temp file, unless the removal fails too. */
  method WriteAtomic(fs: FileSystem, data: bytes) returns (ok: bool)
    requires fs.Valid()
    modifies fs
    ensures fs.Valid() && old(fs.log) <= fs.log
    ensures Atomic(fs.log, |old(fs.log)|, old(fs.State()), data)
    ensures ok ==> fs.crt == Some(data) && fs.tmp == None
    ensures !ok ==> fs.crt == old(fs.crt)
    ensures !ok ==> fs.tmp == None || fs.tmp == old(fs.tmp) || fs.failedRemovals == old(fs.failedRemovals) + 1
    ensures fs.failures >= old(fs.failures)
    ensures fs.failures == old(fs.failures) ==> ok
    ensures ok == (
      && fs.failures - old(fs.failures) == fs.failedRenames - old(fs.failedRenames)
      && fs.failedRenames < old(fs.failedRenames) + RENAME_ATTEMPTS)
  {
    ok := fs.OpenTrunc();
    if !ok {
      return;
    }
    ok := fs.Write(data);
    if !ok {
      fs.RemoveTmp();
      return;
    }
    ok := fs.Sync();
    if !ok {
      fs.RemoveTmp();
      return;
    }
    ok := fs.Close();
    if !ok {
      fs.RemoveTmp();
      return;
    }
    ok := RenameWithRetry(fs, data);
    if !ok {
      fs.RemoveTmp();
    }
  }
}
