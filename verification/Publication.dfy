/** Create-once publication of a release candidate by one invocation: an archive and its checksum
    sidecar, copied with exclusive creation and rolled back on failure. */
module Publication {
  import opened Sequences

  /** The two evidence files of a release target. */
  datatype Path = Archive(target: nat) | Sidecar(target: nat)

  /** How many bytes of each file an invocation has left behind for good. */
  datatype Left = Left(archive: Option<nat>, sidecar: Option<nat>)

  const NOTHING := Left(None, None)

  // ---------------------------------------------------------------- one invocation by itself

  /** What goes wrong in a copy: nothing; an interrupt after the file was created and before the copy
      has noted that; or some operation once so many bytes are written, a number beyond the end
      standing for a failing flush or close. */
  datatype Fault = NoFault | BeforeNote | During(n: nat)

  /** What goes wrong in a publication: in either copy, in noting a finished copy, after both are
      noted, and in removing the files. */
  datatype Faults = Faults(archive: Fault, archiveNote: bool, sidecar: Fault, sidecarNote: bool, atEnd: bool,
                           archiveUnlink: bool, sidecarUnlink: bool)

  predicate Faultless(f: Faults) {
    f.archive.NoFault? && !f.archiveNote && f.sidecar.NoFault? && !f.sidecarNote && !f.atEnd
  }

  /** Whether a copy leaves its file behind although it fails. */
  predicate CopyStrands(fault: Fault, unlinkFails: bool) {
    fault.BeforeNote? || (fault.During? && unlinkFails)
  }

  predicate ArchiveStranded(f: Faults) {
    if !f.archive.NoFault? then CopyStrands(f.archive, f.archiveUnlink)
    else if f.archiveNote then true
    else if !f.sidecar.NoFault? || f.sidecarNote then f.archiveUnlink
    else f.atEnd && (f.sidecarUnlink || f.archiveUnlink)
  }

  predicate SidecarStranded(f: Faults) {
    if !f.archive.NoFault? || f.archiveNote then false
    else if !f.sidecar.NoFault? then CopyStrands(f.sidecar, f.sidecarUnlink)
    else f.sidecarNote || (f.atEnd && f.sidecarUnlink)
  }

  /** Files by path. Operations may fail for reasons of their own, which the caller decides. */
  class Directory {
    var files: map<Path, Bytes>

    constructor ()
      ensures files == map[]
    {
      files := map[];
    }

    method CreateExclusive(path: Path) returns (created: bool)
      modifies this
      ensures created <==> path !in old(files)
      ensures files == if created then old(files)[path := []] else old(files)
    {
      created := path !in files;
      if created {
        files := files[path := []];
      }
    }

    method Append(path: Path, chunk: Bytes)
      requires path in files
      modifies this
      ensures files == old(files)[path := old(files)[path] + chunk]
    {
      files := files[path := files[path] + chunk];
    }

    method RemoveIfCreated(path: Path, created: bool)
      modifies this
      ensures files == if created then old(files) - {path} else old(files)
    {
      if created {
        files := files - {path};
      }
    }

    /** Copies chunk by chunk. A failed copy removes the file it created, unless it had not noted that
        or the removal fails too; `left` says how much then stays. */
    method CopyExclusive(source: Bytes, destination: Path, chunkSize: nat, fault: Fault, unlinkFails: bool)
      returns (ok: bool, left: Option<nat>)
      requires chunkSize > 0
      modifies this
      ensures ok <==> destination !in old(files) && fault.NoFault?
      ensures left.Some? <==> destination !in old(files) && CopyStrands(fault, unlinkFails)
      ensures left.Some? ==> left.value <= |source|
      ensures files == if ok then old(files)[destination := source]
                       else if left.Some? then old(files)[destination := source[..left.value]]
                       else old(files)
    {
      left := None;
      var made := CreateExclusive(destination);
      if !made {
        return false, None;
      }
      if fault.BeforeNote? {
        RemoveIfCreated(destination, false);
        return false, Some(0);
      }
      var n := 0;
      while n < |source|
        invariant 0 <= n <= |source|
        invariant files == old(files)[destination := source[..n]]
      {
        if fault.During? && fault.n <= n {
          break;
        }
        var m := if n + chunkSize <= |source| then n + chunkSize else |source|;
        assert source[..n] + source[n..m] == source[..m];
        Append(destination, source[n..m]);
        n := m;
      }
      assert n == |source| ==> source[..n] == source;
      ok := fault.NoFault?;
      if !ok && unlinkFails {
        left := Some(n);
      } else if !ok {
        RemoveIfCreated(destination, true);
        assert old(files)[destination := source[..n]] - {destination} == old(files);
      }
    }

    /** Both files or neither, unless an interrupt falls between the end of an operation and its being
        noted or a removal fails; then exactly the stranded files stay. */
    method PublishCandidateEvidence(target: nat, archive: Bytes, sidecar: Bytes, chunkSize: nat, f: Faults)
      returns (ok: bool, left: Left)
      requires chunkSize > 0
      modifies this
      ensures var absent := Archive(target) !in old(files) && Sidecar(target) !in old(files);
              && (ok <==> absent && Faultless(f))
              && (left.archive.Some? <==> absent && ArchiveStranded(f))
              && (left.sidecar.Some? <==> absent && SidecarStranded(f))
      ensures (left.archive.Some? ==> left.archive.value <= |archive|)
              && (left.sidecar.Some? ==> left.sidecar.value <= |sidecar|)
      ensures ok ==> files == old(files)[Archive(target) := archive][Sidecar(target) := sidecar]
      ensures !ok ==> files == WithLeft(old(files), target, archive, sidecar, left)
    {
      left := NOTHING;
      if Archive(target) in files || Sidecar(target) in files {
        return false, left;
      }
      var kept;
      ok, kept := CopyExclusive(archive, Archive(target), chunkSize, f.archive, f.archiveUnlink);
      if !ok {
        return ok, Left(kept, None);
      }
      if f.archiveNote {
        assert archive[..|archive|] == archive;
        return false, Left(Some(|archive|), None);
      }
      ok, kept := CopyExclusive(sidecar, Sidecar(target), chunkSize, f.sidecar, f.sidecarUnlink);
      ok, left := UndoUnlessNoted(target, archive, sidecar, f, ok, kept);
    }

    /** The rest of a publication once the archive is noted and the sidecar copy has ended. */
    method UndoUnlessNoted(target: nat, archive: Bytes, sidecar: Bytes, f: Faults, copied: bool, kept: Option<nat>)
      returns (ok: bool, left: Left)
      requires Archive(target) in files && files[Archive(target)] == archive
      requires kept.Some? ==> !copied && kept.value <= |sidecar|
      requires (Sidecar(target) in files <==> copied || kept.Some?)
      requires copied ==> files[Sidecar(target)] == sidecar
      requires kept.Some? ==> files[Sidecar(target)] == sidecar[..kept.value]
      modifies this
      ensures ok <==> copied && !f.sidecarNote && !f.atEnd
      ensures left.archive == if ok then None
                              else if f.archiveUnlink || (copied && !f.sidecarNote && f.sidecarUnlink)
                                  then Some(|archive|)
                              else None
      ensures left.sidecar == if ok then None
                              else if copied && (f.sidecarNote || f.sidecarUnlink) then Some(|sidecar|)
                              else kept
      ensures ok ==> files == old(files)
      ensures !ok ==> files == WithLeft(old(files) - {Archive(target), Sidecar(target)}, target, archive, sidecar, left)
    {
      assert archive[..|archive|] == archive && sidecar[..|sidecar|] == sidecar;
      ok, left := copied && !f.sidecarNote && !f.atEnd, Left(None, kept);
      if ok {
        return;
      }
      if copied && f.sidecarNote {
        left := Left(None, Some(|sidecar|));
      } else if copied && f.sidecarUnlink {
        return ok, Left(Some(|archive|), Some(|sidecar|));
      } else if copied {
        RemoveIfCreated(Sidecar(target), true);
      }
      if f.archiveUnlink {
        left := left.(archive := Some(|archive|));
      } else {
        RemoveIfCreated(Archive(target), true);
      }
    }
  }

  /** Files with what an invocation has left behind. */
  ghost function WithLeft(files: map<Path, Bytes>, target: nat, archive: Bytes, sidecar: Bytes, left: Left)
    : map<Path, Bytes>
    requires left.archive.Some? ==> left.archive.value <= |archive|
    requires left.sidecar.Some? ==> left.sidecar.value <= |sidecar|
  {
    var first := if left.archive.Some? then files[Archive(target) := archive[..left.archive.value]] else files;
    if left.sidecar.Some? then first[Sidecar(target) := sidecar[..left.sidecar.value]] else first
  }
}
