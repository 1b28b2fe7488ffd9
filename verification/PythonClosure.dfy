/** Installing one Python environment: a generation is built beside the target, verified, and
    activated by a symlink; the old target comes back when anything fails. */
module PythonClosure {
  import opened Wrappers
  import opened FileSystems
  import opened ReplacedPaths

  // ----- following links

  /** The path a path leads to, following symlinks; None for a loop. */
  function Resolve(nodes: Nodes, p: Path, seen: set<Path>): Option<Path>
    decreases |nodes.Keys - seen|, p
  {
    if p in nodes && nodes[p].Symlink? then
      if p in seen then None
      else
        assert nodes.Keys - (seen + {p}) == (nodes.Keys - seen) - {p};
        Resolve(nodes, nodes[p].value, seen + {p})
    else if p.Inside? then
      match Resolve(nodes, p.tree, seen)
      case None => None
      case Some(tree) => Some(Inside(tree, p.rest))
    else Some(p)
  }

  /** The directory tree that holds a resolved path. */
  function Root(p: Path): Path {
    if p.Inside? then Root(p.tree) else p
  }

  /** What verify_installed accepts: the path leads to a tree whose contents are good there. */
  ghost predicate Installed(nodes: Nodes, path: Path, good: (Content, Path) -> bool) {
    match Resolve(nodes, path, {})
    case None => false
    case Some(q) => Root(q) in nodes && nodes[Root(q)].Directory? && good(nodes[Root(q)].content, q)
  }

  datatype Check = Passed | Rejected | Errored

  /** verify_installed: passing means installed; reading may also fail, as a ClosureError or otherwise. */
  method VerifyInstalled(fs: FileSystem, path: Path, good: (Content, Path) -> bool) returns (check: Check)
    modifies fs`faults
    ensures check.Passed? ==> Installed(fs.nodes, path, good)
    ensures check.Rejected? && Installed(fs.nodes, path, good) ==> fs.faults > old(fs.faults)
    ensures check.Errored? ==> fs.faults > old(fs.faults)
    ensures fs.faults >= old(fs.faults)
  {
    var works := fs.MayFail();
    if !works {
      var closureError: bool := *;
      check := if closureError then Rejected else Errored;
    } else {
      check := Passed;
      var resolved := Resolve(fs.nodes, path, {});
      if resolved.None? || Root(resolved.value) !in fs.nodes || !fs.nodes[Root(resolved.value)].Directory? {
        check := Rejected;
      } else if !good(fs.nodes[Root(resolved.value)].content, resolved.value) {
        check := Rejected;
      }
    }
  }

  // ----- activate_generation

  datatype Activation =
    | Activated(backup: Option<Path>)
    | Refused
    | RolledBack
    | RollbackIncomplete

  /** The node the target held at entry is at the target, or at the backup path. */
  ghost predicate TargetKept(nodes: Nodes, orig: Nodes, target: Path, backup: Path) {
    target in orig ==>
      || (target in nodes && nodes[target] == orig[target])
      || (backup in nodes && nodes[backup] == orig[target])
  }

  /** Everything but the target and this activation's two scratch names is as it was. */
  ghost predicate OnlyTarget(nodes: Nodes, orig: Nodes, target: Path, next: Path, backup: Path) {
    forall p :: p != target && p != next && p != backup ==> Same(nodes, orig, p)
  }

  ghost predicate LogSafe(log: seq<Snapshot>, from: nat, orig: Nodes, target: Path, next: Path, backup: Path) {
    forall i :: from <= i < |log| && !log[i].committed ==>
      TargetKept(log[i].nodes, orig, target, backup) && OnlyTarget(log[i].nodes, orig, target, next, backup)
  }

  /** The nodes an activation leaves; `raised` says that removing the .next-* name failed on the way out. */
  ghost predicate Outcome(r: Activation, raised: bool, nodes: Nodes, orig: Nodes, generation: Path, target: Path,
                          next: Path, backup: Path) {
    match r
    case Activated(b) =>
      && (b.Some? <==> target in orig) && (b.Some? ==> b.value == backup)
      && nodes == Switched(orig, generation, target, b)
    case Refused => nodes == orig
    case RolledBack =>
      && (forall p :: p != backup && !(raised && p == next) ==> Same(nodes, orig, p))
      && (backup in nodes ==> target in orig && nodes[backup] == Symlink(generation))
    case RollbackIncomplete => TargetKept(nodes, orig, target, backup) && OnlyTarget(nodes, orig, target, next, backup)
  }

  /** The except clause: put the old target back, or remove the new link if there was none. */
  method RollBackTarget(fs: FileSystem, generation: Path, target: Path, backup: Option<Path>,
                        ghost orig: Nodes, ghost next: Path, ghost name: Path)
    returns (ok: bool)
    requires target.Named? && next.Next? && name.Rollback? && !fs.committed
    requires backup.Some? <==> target in orig
    requires backup.Some? ==> backup.value == name
    requires name !in orig
    requires Switching(fs.nodes, orig, generation, target, next, name)
    modifies fs`nodes, fs`log, fs`faults
    ensures OnlyTarget(fs.nodes, orig, target, next, name) && Same(fs.nodes, old(fs.nodes), next)
    ensures TargetKept(fs.nodes, orig, target, name)
    ensures ok ==> Same(fs.nodes, orig, target) && (name in fs.nodes ==> fs.nodes[name] == Symlink(generation))
    ensures ok && name in fs.nodes ==> target in orig
    ensures fs.faults >= old(fs.faults) && (!ok ==> fs.faults > old(fs.faults))
    ensures old(fs.log) <= fs.log && LogSafe(fs.log, |old(fs.log)|, orig, target, next, name)
  {
    ghost var before := fs.nodes;
    ok := true;
    if backup.Some? && backup.value in fs.nodes {
      ok := RestoreReplaced(fs, backup.value, target);
      forall i | |old(fs.log)| <= i < |fs.log|
        ensures TargetKept(fs.log[i].nodes, orig, target, name) && OnlyTarget(fs.log[i].nodes, orig, target, next, name)
      {
        assert RestoreStep(fs.log[i], before, fs.committed, backup.value, target);
        forall p | p != target && p != next && p != name ensures Same(fs.log[i].nodes, orig, p) {
          assert Same(fs.log[i].nodes, before, p) && Same(before, orig, p);
        }
      }
    } else if backup.None? && target in fs.nodes {
      ok := fs.nodes[target] == Symlink(generation);
      if ok {
        var r := fs.Unlink(target);
        ok := r.Removed?;
      }
    }
    forall p | p != target && p != next && p != name ensures Same(fs.nodes, orig, p) {
      assert Same(fs.nodes, before, p) && Same(before, orig, p);
    }
    assert Same(fs.nodes, before, next);
    if ok {
      ok := fs.MayFail();  // fsync of the parent
    }
  }

  /** Between the first rename and the end of the rollback: the original is at exactly one of its
      two names, and the target holds nothing or the new link once it has left. */
  ghost predicate Switching(nodes: Nodes, orig: Nodes, generation: Path, target: Path, next: Path, name: Path) {
    && OnlyTarget(nodes, orig, target, next, name)
    && if name in nodes
       then target in orig && nodes[name] == orig[target] && (target in nodes ==> nodes[target] == Symlink(generation))
       else if target in orig then Same(nodes, orig, target)
       else target in nodes ==> nodes[target] == Symlink(generation)
  }

  /** The nodes once the new link is in place. */
  function Switched(orig: Nodes, generation: Path, target: Path, backup: Option<Path>): Nodes {
    (if backup.Some? && target in orig then orig[backup.value := orig[target]] else orig)[target := Symlink(generation)]
  }

  /** The generation would pass the check at the target. */
  ghost predicate GoodSwitch(orig: Nodes, generation: Path, target: Path, backup: Option<Path>,
                             good: (Content, Path) -> bool) {
    Installed(Switched(orig, generation, target, backup), target, good)
  }

  /** The try clause: the target moves aside, the link takes its place, the installation is verified. */
  method SwitchTarget(fs: FileSystem, generation: Path, target: Path, nextLink: Path, backup: Option<Path>,
                      good: (Content, Path) -> bool, ghost orig: Nodes, ghost name: Path)
    returns (ok: bool)
    requires target.Named? && nextLink.Next? && name.Rollback? && !fs.committed
    requires name !in orig && nextLink !in orig
    requires (backup.Some? <==> target in orig) && (backup.Some? ==> backup.value == name)
    requires fs.nodes == orig[nextLink := Symlink(generation)]
    modifies fs`nodes, fs`log, fs`faults
    ensures Switching(fs.nodes, orig, generation, target, nextLink, name)
    ensures ok ==> fs.nodes == Switched(orig, generation, target, backup) && Installed(fs.nodes, target, good)
    ensures nextLink in fs.nodes ==> fs.nodes[nextLink].Symlink?
    ensures fs.faults >= old(fs.faults)
    ensures !ok && GoodSwitch(orig, generation, target, backup, good) ==> fs.faults > old(fs.faults)
    ensures old(fs.log) <= fs.log && LogSafe(fs.log, |old(fs.log)|, orig, target, nextLink, name)
  {
    ok := true;
    if backup.Some? {
      ok := fs.Rename(target, backup.value);
      if ok {
        ok := fs.MayFail();  // fsync of the parent
      }
    }
    if ok {
      ok := fs.Rename(nextLink, target);
      if ok {
        assert fs.nodes == Switched(orig, generation, target, backup);
        ok := fs.MayFail();  // fsync of the parent
      }
      if ok {
        var check := VerifyInstalled(fs, target, good);
        ok := check.Passed?;
      }
    }
  }

  lemma LogSafeExtends(log0: seq<Snapshot>, log: seq<Snapshot>, from: nat, orig: Nodes, target: Path, next: Path, name: Path)
    requires from <= |log0| && log0 <= log
    requires LogSafe(log0, from, orig, target, next, name) && LogSafe(log, |log0|, orig, target, next, name)
    ensures LogSafe(log, from, orig, target, next, name)
  {
    forall i | from <= i < |log0| && !log[i].committed
      ensures TargetKept(log[i].nodes, orig, target, name) && OnlyTarget(log[i].nodes, orig, target, next, name)
    {
      assert log[i] == log0[i];
    }
  }

  /** The try and except clauses together. */
  method Attempt(fs: FileSystem, generation: Path, target: Path, nextLink: Path, backup: Option<Path>,
                 good: (Content, Path) -> bool, ghost orig: Nodes, ghost name: Path)
    returns (r: Activation)
    requires target.Named? && nextLink.Next? && name.Rollback? && !fs.committed
    requires name !in orig && nextLink !in orig
    requires (backup.Some? <==> target in orig) && (backup.Some? ==> backup.value == name)
    requires fs.nodes == orig[nextLink := Symlink(generation)]
    modifies fs
    ensures r == Activated(backup) || r == RolledBack || r == RollbackIncomplete
    ensures fs.nextId == old(fs.nextId) && (fs.committed <==> r.Activated?)
    ensures Outcome(r, true, fs.nodes, orig, generation, target, nextLink, name)
    ensures r.Activated? ==> Installed(fs.nodes, target, good)
    ensures nextLink in fs.nodes ==> fs.nodes[nextLink].Symlink?
    ensures fs.faults >= old(fs.faults)
    ensures !r.Activated? && GoodSwitch(orig, generation, target, backup, good) ==> fs.faults > old(fs.faults)
    ensures r.RollbackIncomplete? ==> fs.faults > old(fs.faults)
    ensures r.RollbackIncomplete? && GoodSwitch(orig, generation, target, backup, good) ==> fs.faults > old(fs.faults) + 1
    ensures old(fs.log) <= fs.log && LogSafe(fs.log, |old(fs.log)|, orig, target, nextLink, name)
  {
    ghost var log0 := fs.log;
    var ok := SwitchTarget(fs, generation, target, nextLink, backup, good, orig, name);
    if ok {
      fs.Commit();
      r := Activated(backup);
    } else {
      ghost var log1 := fs.log;
      var restored := RollBackTarget(fs, generation, target, backup, orig, nextLink, name);
      LogSafeExtends(log1, fs.log, |log0|, orig, target, nextLink, name);
      r := if restored then RolledBack else RollbackIncomplete;
    }
  }

  /** Nothing but a fault can stop this activation. */
  ghost predicate Activates(orig: Nodes, generation: Path, target: Path, name: Path, good: (Content, Path) -> bool) {
    && (target in orig ==> !orig[target].File?)
    && GoodSwitch(orig, generation, target, if target in orig then Some(name) else None, good)
  }

  /** The finally clause. */
  method RemoveNext(fs: FileSystem, r: Activation, generation: Path, target: Path, ghost orig: Nodes,
                    nextLink: Path, ghost name: Path)
    returns (raised: bool)
    requires target.Named? && nextLink.Next? && name.Rollback? && nextLink !in orig
    requires r.Activated? || r.RolledBack? || r.RollbackIncomplete?
    requires r.Activated? <==> fs.committed
    requires Outcome(r, true, fs.nodes, orig, generation, target, nextLink, name)
    modifies fs`nodes, fs`log, fs`faults
    ensures Outcome(r, raised, fs.nodes, orig, generation, target, nextLink, name)
    ensures r.Activated? ==> fs.nodes == old(fs.nodes)
    ensures !r.Activated? ==> TargetKept(fs.nodes, orig, target, name) && OnlyTarget(fs.nodes, orig, target, nextLink, name)
    ensures fs.log == old(fs.log) + [Snapshot(fs.nodes, fs.committed)]
    ensures fs.faults >= old(fs.faults)
    ensures raised && (nextLink in old(fs.nodes) ==> !old(fs.nodes)[nextLink].Directory?) ==> fs.faults > old(fs.faults)
  {
    ghost var before := fs.nodes;
    var removed := fs.Unlink(nextLink);
    forall p | p != nextLink ensures Same(before, orig, p) ==> Same(fs.nodes, orig, p) { }
    assert r.Activated? ==> nextLink !in before;
    assert r.RolledBack? ==> Same(fs.nodes, orig, target);
    raised := removed.Failed?;
  }

  /** The whole try statement: the attempt and the finally clause. */
  method Transaction(fs: FileSystem, generation: Path, target: Path, nextLink: Path, backup: Option<Path>,
                     good: (Content, Path) -> bool, ghost orig: Nodes, ghost name: Path)
    returns (r: Activation, raised: bool)
    requires target.Named? && nextLink.Next? && name.Rollback? && !fs.committed
    requires name !in orig && nextLink !in orig
    requires (backup.Some? <==> target in orig) && (backup.Some? ==> backup.value == name)
    requires fs.nodes == orig[nextLink := Symlink(generation)]
    modifies fs
    ensures r == Activated(backup) || r == RolledBack || r == RollbackIncomplete
    ensures fs.committed <==> r.Activated?
    ensures Outcome(r, raised, fs.nodes, orig, generation, target, nextLink, name)
    ensures r.Activated? ==> Installed(fs.nodes, target, good)
    ensures old(fs.log) <= fs.log && LogSafe(fs.log, |old(fs.log)|, orig, target, nextLink, name)
    ensures !fs.committed ==> TargetKept(fs.nodes, orig, target, name) && OnlyTarget(fs.nodes, orig, target, nextLink, name)
    ensures fs.faults >= old(fs.faults) && (raised || r.RollbackIncomplete? ==> fs.faults > old(fs.faults))
    ensures GoodSwitch(orig, generation, target, backup, good) ==>
              && (!r.Activated? ==> fs.faults > old(fs.faults))
              && (r.RollbackIncomplete? ==> fs.faults > old(fs.faults) + 1)
  {
    r := Attempt(fs, generation, target, nextLink, backup, good, orig, name);
    ghost var log1 := fs.log;
    raised := RemoveNext(fs, r, generation, target, orig, nextLink, name);
    LogSafeExtends(log1, fs.log, |old(fs.log)|, orig, target, nextLink, name);
  }

  ghost predicate TargetIsFile(nodes: Nodes, target: Path) {
    target in nodes && nodes[target].File?
  }

  /** What activate_generation does before the try statement: the names are drawn and the new link is made. */
  method Begin(fs: FileSystem, generation: Path, target: Path)
    returns (ok: bool, next: Path, backup: Option<Path>, ghost name: Path)
    requires target.Named? && IdsBelow(fs.nodes, fs.nextId) && !fs.committed
    modifies fs`nodes, fs`log, fs`faults, fs`nextId
    ensures next.Next? && next.of == target && next !in old(fs.nodes)
    ensures name.Rollback? && name.of == target && name !in old(fs.nodes)
    ensures fs.nodes == if ok then old(fs.nodes)[next := Symlink(generation)] else old(fs.nodes)
    ensures ok ==> (backup.Some? <==> target in old(fs.nodes)) && (backup.Some? ==> backup.value == name)
    ensures fs.log == old(fs.log) || fs.log == old(fs.log) + [Snapshot(fs.nodes, false)]
    ensures fs.faults >= old(fs.faults) && (ok ==> fs.faults == old(fs.faults) && !TargetIsFile(old(fs.nodes), target))
    ensures !ok && fs.faults == old(fs.faults) ==> TargetIsFile(old(fs.nodes), target)
  {
    backup := None;
    ok := fs.MayFail();  // mkdir of the parent
    var id := fs.Uuid();
    next, name := Next(target, id), Rollback(target, id);
    if !ok || (target in fs.nodes && fs.nodes[target].File?) {
      ok := false;
      return;
    }
    if target in fs.nodes {
      var id' := fs.Uuid();
      backup := Some(Rollback(target, id'));
      name := backup.value;
    }
    ok := fs.SymlinkAt(generation, next);
  }

  /** activate_generation: switch the target to the generation, verify it there, or put it back. */
  method ActivateGeneration(fs: FileSystem, generation: Path, target: Path, good: (Content, Path) -> bool)
    returns (r: Activation, raised: bool, ghost next: Path, ghost name: Path)
    requires target.Named? && IdsBelow(fs.nodes, fs.nextId) && !fs.committed
    modifies fs
    ensures next.Next? && next.of == target && next !in old(fs.nodes)
    ensures name.Rollback? && name.of == target && name !in old(fs.nodes)
    ensures Outcome(r, raised, fs.nodes, old(fs.nodes), generation, target, next, name)
    ensures r.Activated? ==> Installed(fs.nodes, target, good)
    ensures fs.committed <==> r.Activated?
    ensures old(fs.log) <= fs.log && LogSafe(fs.log, |old(fs.log)|, old(fs.nodes), target, next, name)
    ensures !fs.committed ==> TargetKept(fs.nodes, old(fs.nodes), target, name)
                              && OnlyTarget(fs.nodes, old(fs.nodes), target, next, name)
    // what it takes: without a fault a generation that passes the check is activated, and an incomplete
    // rollback takes one fault more than what made the activation fail
    ensures fs.faults >= old(fs.faults)
    ensures fs.faults == old(fs.faults) ==> !raised && !r.RollbackIncomplete?
    ensures target in old(fs.nodes) && old(fs.nodes)[target].File? ==> r.Refused?
    ensures fs.faults == old(fs.faults) ==> (r.Refused? <==> target in old(fs.nodes) && old(fs.nodes)[target].File?)
    ensures fs.faults == old(fs.faults) && Activates(old(fs.nodes), generation, target, name, good) ==> r.Activated?
    ensures fs.faults <= old(fs.faults) + 1 && Activates(old(fs.nodes), generation, target, name, good) ==>
              !r.RollbackIncomplete?
  {
    ghost var orig, log0 := fs.nodes, fs.log;
    var ok, nextLink, backup;
    ok, nextLink, backup, name := Begin(fs, generation, target);
    next := nextLink;
    if !ok {
      return Refused, false, next, name;
    }
    ghost var log1 := fs.log;
    r, raised := Transaction(fs, generation, target, nextLink, backup, good, orig, name);
    LogSafeExtends(log1, fs.log, |log0|, orig, target, next, name);
  }
}
