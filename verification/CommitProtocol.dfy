/** Delivering a report over an existing file: a temporary file, a rename, and a
    copy in place where no rename is possible, with every call free to fail. */
module CommitProtocol {
  import opened Wrappers

  type Content = seq<bv8>

  /** What a reader of the directory can see at one moment. */
  datatype Snapshot = Snapshot(dest: Option<Content>, temp: Option<Content>)

  datatype RenameFault = Renames | MountPoint | RenameFails

  /** Which calls fail. copied is how many bytes the copy writes before it fails. */
  datatype Faults = Faults(write: CallFaults, copy: CopyFaults, rename: RenameFault, remove: bool)

  datatype CallFaults = CallFaults(sync: bool, close: bool, chmod: bool)

  datatype CopyFaults = CopyFaults(chmodBack: bool, reopen: bool, open: bool, copied: Option<nat>, sync: bool,
                                   close: bool)

  datatype Error = Flush | Close | PreserveMode | Replace | CopyFailed | Discard | RemoveTemporary

  type Mode = nat

  const OWNER_ONLY: Mode := 0x180 // 0600

  /** Whether the owner may read a file of this mode. */
  predicate OwnerReads(mode: Mode) {
    (mode / 0x100) % 2 == 1
  }

  /** In octal the owner reads by the digit 0400: files of mode 0600 and 0400, not 0200. */
  lemma OwnerReadsMeans(mode: Mode)
    ensures OwnerReads(mode) <==> 256 <= mode % 512
    ensures OwnerReads(OWNER_ONLY) && OwnerReads(256) && !OwnerReads(128)
  {
  }

  /** The destination is as it was, or complete, or the report is safe in the
      temporary file. */
  predicate Safe(before: Option<Content>, report: Content, s: Snapshot) {
    s.dest == before || s.dest == Some(report) || s.temp == Some(report)
  }

  class OutputFiles {
    var dest: Option<Content>
    var temp: Option<Content>
    var tempMode: Mode
    /** Every state the directory has been in. */
    ghost var history: seq<Snapshot>

    /** createTempOutputFile: an empty, owner-only temporary file. */
    constructor (dest: Option<Content>)
      ensures this.dest == dest && temp == Some([]) && tempMode == OWNER_ONLY
      ensures history == [Snapshot(dest, Some([]))]
    {
      this.dest, temp, tempMode := dest, Some([]), OWNER_ONLY;
      history := [Snapshot(dest, Some([]))];
    }

    /** Everything since moment n has been safe. */
    ghost predicate SafeSince(n: nat, before: Option<Content>, report: Content)
      reads this
    {
      n <= |history| && forall k :: n <= k < |history| ==> Safe(before, report, history[k])
    }

    /** Nothing since moment n has touched the destination. */
    ghost predicate UntouchedSince(n: nat, before: Option<Content>)
      reads this
    {
      n <= |history| && forall k :: n <= k < |history| ==> history[k].dest == before
    }

    /** The run writes its report to the temporary file only. */
    method Write(chunk: Content)
      requires temp.Some?
      modifies this
      ensures dest == old(dest) && temp == Some(old(temp).value + chunk) && tempMode == old(tempMode)
      ensures history == old(history) + [Snapshot(dest, temp)]
    {
      temp := Some(temp.value + chunk);
      history := history + [Snapshot(dest, temp)];
    }

    /** Removing the temporary file; the code never looks at the outcome. */
    method Remove(fails: bool)
      modifies this
      ensures dest == old(dest) && tempMode == old(tempMode)
      ensures temp == if fails then old(temp) else None
      ensures history == old(history) + [Snapshot(dest, temp)]
    {
      if !fails { temp := None; }
      history := history + [Snapshot(dest, temp)];
    }

    method Chmod(mode: Mode, fails: bool)
      modifies this`tempMode
      ensures tempMode == if fails then old(tempMode) else mode
    {
      if !fails { tempMode := mode; }
    }

    /** A rename replaces the destination in one step, or changes nothing. */
    method Rename(fault: RenameFault)
      requires temp.Some?
      modifies this
      ensures tempMode == old(tempMode)
      ensures fault.Renames? ==> dest == old(temp) && temp == None
      ensures !fault.Renames? ==> dest == old(dest) && temp == old(temp)
      ensures history == old(history) + [Snapshot(dest, temp)]
    {
      if fault.Renames? { dest, temp := temp, None; }
      history := history + [Snapshot(dest, temp)];
    }

    /** copyOutputInPlace: truncate the destination, then write byte after byte. */
    method CopyInPlace(faults: CopyFaults, ghost before: Option<Content>, ghost report: Content) returns (copied: bool)
      requires temp == Some(report)
      modifies this
      ensures temp == old(temp) && tempMode == old(tempMode)
      ensures copied ==> dest == Some(report)
      ensures copied <==> CopyWorks(faults, tempMode, report)
      ensures |history| >= |old(history)| && history[..|old(history)|] == old(history)
      ensures forall k :: |old(history)| <= k < |history| ==> Safe(before, report, history[k])
    {
      if faults.reopen || !OwnerReads(tempMode) { return false; }
      if faults.open { return false; }
      var source := temp.value;
      dest := Some([]);
      history := history + [Snapshot(dest, temp)];
      for n := 0 to |source|
        invariant temp == old(temp) && tempMode == old(tempMode) && dest == Some(source[..n])
        invariant faults.copied.Some? ==> n <= faults.copied.value
        invariant |history| > |old(history)| && history[..|old(history)|] == old(history)
        invariant forall k :: |old(history)| <= k < |history| ==> Safe(before, report, history[k])
      {
        if faults.copied == Some(n) { return false; }
        dest := Some(source[..n] + [source[n]]);
        history := history + [Snapshot(dest, temp)];
        assert source[..n] + [source[n]] == source[..n + 1];
      }
      assert source[..|source|] == source;
      if faults.copied == Some(|source|) || faults.sync || faults.close { return false; }
      copied := true;
    }

    /** The finalizer, called with commit when the run succeeded. existing is the
        mode of the file being replaced, fresh the mode a new file would get. */
    method Commit(faults: Faults, existing: Option<Mode>, ordinary: Option<Mode>, ghost report: Content)
      returns (error: Option<Error>)
      requires temp == Some(report)
      modifies this
      ensures SafeSince(|old(history)|, old(dest), report) && history[..|old(history)|] == old(history)
      ensures error.None? ==> dest == Some(report)
      ensures error.Some? ==> dest == old(dest) || temp == Some(report)
      ensures error.Some? && error.value != CopyFailed ==> UntouchedSince(|old(history)|, old(dest))
      ensures error == Some(CopyFailed) ==> temp == Some(report) && (!faults.copy.chmodBack ==> tempMode == OWNER_ONLY)
      ensures error == Some(Flush) <==> faults.write.sync
      ensures error == Some(Close) <==> !faults.write.sync && faults.write.close
      ensures error == Some(PreserveMode) <==>
                !faults.write.sync && !faults.write.close && existing.Some? && faults.write.chmod
      ensures error == Some(Replace) <==> Finished(faults.write, existing) && faults.rename.RenameFails?
      ensures error == Some(CopyFailed) <==>
                Finished(faults.write, existing) && faults.rename.MountPoint? &&
                !CopySucceeds(faults, existing, ordinary, old(tempMode), report)
      ensures error.None? <==> CommitSucceeds(faults, existing, ordinary, old(tempMode), report)
      ensures error.None? && faults.rename.Renames? ==>
                temp.None? && tempMode == GivenMode(faults.write, existing, ordinary, old(tempMode))
      ensures error.None? && faults.rename.MountPoint? ==> (temp.None? <==> !faults.remove)
    {
      if faults.write.sync {
        Remove(faults.remove);
        return Some(Flush);
      }
      if faults.write.close {
        Remove(faults.remove);
        return Some(Close);
      }
      if existing.Some? {
        if faults.write.chmod {
          Remove(faults.remove);
          return Some(PreserveMode);
        }
        Chmod(existing.value, false);
      } else if ordinary.Some? {
        Chmod(ordinary.value, faults.write.chmod);
      }
      Rename(faults.rename);
      if faults.rename.Renames? { return None; }
      if faults.rename.RenameFails? {
        Remove(faults.remove);
        return Some(Replace);
      }
      Chmod(OWNER_ONLY, faults.copy.chmodBack);
      var copied := CopyInPlace(faults.copy, old(dest), report);
      if !copied { return Some(CopyFailed); }
      Remove(faults.remove);
      error := None;
    }

    /** The finalizer, called to discard: it never touches the destination. */
    method Abandon(closeFails: bool, removeFails: bool) returns (error: Option<Error>)
      modifies this
      ensures UntouchedSince(|old(history)|, old(dest)) && dest == old(dest)
      ensures history[..|old(history)|] == old(history)
      ensures error.None? <==> !closeFails && !removeFails
      ensures error.None? ==> temp.None?
    {
      Remove(removeFails);
      if closeFails { return Some(Discard); }
      if removeFails { return Some(RemoveTemporary); }
      error := None;
    }
  }

  /** When the copy in place goes through. */
  predicate CopyWorks(faults: CopyFaults, mode: Mode, report: Content) {
    && !faults.reopen && OwnerReads(mode) && !faults.open && !faults.sync && !faults.close
    && (faults.copied.None? || faults.copied.value > |report|)
  }

  /** The same, from the finalizer's arguments: the temporary file is made readable
      again first, whatever mode the destination has. */
  predicate CopySucceeds(faults: Faults, existing: Option<Mode>, ordinary: Option<Mode>, mode: Mode, report: Content) {
    var given := GivenMode(faults.write, existing, ordinary, mode);
    CopyWorks(faults.copy, if faults.copy.chmodBack then given else OWNER_ONLY, report)
  }

  /** The mode the report gets before the rename: that of the file it replaces, or that
      of an ordinary new file as far as it can be had. */
  function GivenMode(write: CallFaults, existing: Option<Mode>, ordinary: Option<Mode>, mode: Mode): Mode {
    if existing.Some? then existing.value
    else if ordinary.Some? && !write.chmod then ordinary.value
    else mode
  }

  /** The temporary file is complete and has the mode it needs. */
  predicate Finished(write: CallFaults, existing: Option<Mode>) {
    !write.sync && !write.close && (existing.Some? ==> !write.chmod)
  }

  /** When a commit goes through: the file is finished, and the rename works, or the
      destination is a mount point and the copy works. */
  predicate CommitSucceeds(faults: Faults, existing: Option<Mode>, ordinary: Option<Mode>, mode: Mode,
                           report: Content) {
    && Finished(faults.write, existing)
    && (faults.rename.Renames? ||
        (faults.rename.MountPoint? && CopySucceeds(faults, existing, ordinary, mode, report)))
  }

  /** A whole delivery: the run writes its report in chunks, then the finalizer
      commits or discards it. At every moment from the first the old file or the
      complete report can be read, and a discarded run leaves no trace of itself in
      the destination. */
  method Deliver(dest: Option<Content>, chunks: seq<Content>, commit: bool, faults: Faults,
                 existing: Option<Mode>, ordinary: Option<Mode>, closeFails: bool)
    returns (files: OutputFiles, error: Option<Error>)
    ensures fresh(files) && files.SafeSince(0, dest, Joined(chunks, |chunks|))
    ensures commit ==>
              (error.None? <==>
               CommitSucceeds(faults, existing, ordinary, OWNER_ONLY, Joined(chunks, |chunks|)))
    ensures !commit ==> (error.None? <==> !closeFails && !faults.remove)
    ensures commit && error.None? ==> files.dest == Some(Joined(chunks, |chunks|))
    ensures commit && error.Some? ==> files.dest == dest || files.temp == Some(Joined(chunks, |chunks|))
    ensures !commit ==> files.UntouchedSince(0, dest)
  {
    files := new OutputFiles(dest);
    for k := 0 to |chunks|
      invariant fresh(files) && files.dest == dest && files.temp == Some(Joined(chunks, k))
      invariant files.tempMode == OWNER_ONLY
      invariant files.UntouchedSince(0, dest)
    {
      files.Write(chunks[k]);
    }
    ghost var written := files.history;
    if commit {
      error := files.Commit(faults, existing, ordinary, Joined(chunks, |chunks|));
    } else {
      error := files.Abandon(closeFails, faults.remove);
    }
    assert forall k :: 0 <= k < |written| ==> files.history[k] == written[k] by {
      assert files.history[..|written|] == written;
    }
  }

  function Joined(chunks: seq<Content>, k: nat): Content
    requires k <= |chunks|
  {
    if k == 0 then [] else Joined(chunks, k - 1) + chunks[k - 1]
  }
}
