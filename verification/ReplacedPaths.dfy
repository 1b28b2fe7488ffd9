/** Removing a replaced original, and bringing one back. */
module ReplacedPaths {
  import opened FileSystems

  /** _remove_replaced_path */
  method RemoveReplaced(fs: FileSystem, path: Path) returns (ok: bool)
    modifies fs`nodes, fs`log, fs`faults
    ensures ok ==> path in old(fs.nodes) && fs.nodes == old(fs.nodes) - {path}
    ensures !ok ==> fs.nodes == old(fs.nodes) ||
                    (path in old(fs.nodes) && old(fs.nodes)[path].Directory? && Rewritten(old(fs.nodes), fs.nodes, path))
    ensures fs.log == old(fs.log) || fs.log == old(fs.log) + [Snapshot(fs.nodes, fs.committed)]
    ensures fs.log == old(fs.log) ==> fs.nodes == old(fs.nodes)
    ensures fs.faults >= old(fs.faults)
  {
    if path in fs.nodes && !fs.nodes[path].Directory? {
      var r := fs.Unlink(path);
      ok := r.Removed?;
    } else if path in fs.nodes {
      ok := fs.RemoveTree(path);
    } else {
      ok := false;
    }
  }

  /** _restore_replaced_path: the original comes back in one namespace operation. */
  method RestoreReplaced(fs: FileSystem, backup: Path, target: Path) returns (ok: bool)
    requires backup in fs.nodes && backup != target
    modifies fs`nodes, fs`log, fs`faults
    ensures !ok ==> fs.nodes == old(fs.nodes)
    ensures ok ==> target in fs.nodes && fs.nodes[target] == old(fs.nodes)[backup]
    ensures ok && backup in fs.nodes ==> target in old(fs.nodes)
    ensures ok && backup in fs.nodes && fs.nodes[backup] != old(fs.nodes)[target] ==>
              old(fs.nodes)[target].Directory? && fs.nodes[backup].Directory?
    ensures forall p :: p != target && p != backup ==> Same(fs.nodes, old(fs.nodes), p)
    ensures fs.faults >= old(fs.faults) && (!ok ==> fs.faults > old(fs.faults))
    ensures old(fs.log) <= fs.log
    ensures forall i :: |old(fs.log)| <= i < |fs.log| ==> RestoreStep(fs.log[i], old(fs.nodes), fs.committed, backup, target)
  {
    if target in fs.nodes {
      ok := fs.Exchange(backup, target);
      if ok {
        // a failure here is only a warning: the displaced link stays at the backup path
        var removed := RemoveReplaced(fs, backup);
      }
    } else {
      ok := fs.Rename(backup, target);
    }
  }

  /** While one path is being restored, its original is at one of the two names. */
  ghost predicate RestoreStep(s: Snapshot, before: Nodes, committed: bool, backup: Path, target: Path) {
    && s.committed == committed
    && (forall p :: p != target && p != backup ==> Same(s.nodes, before, p))
    && (s.nodes == before ||
        (backup in before && target in s.nodes && s.nodes[target] == before[backup]))
  }
}
