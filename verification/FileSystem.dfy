/** The namespace the Python runtime installer works on: a flat map from paths to nodes, changed
    by single system calls. Every call may fail, and a failing call has no effect (removing a
    directory tree is the exception: it may stop half way). Each call appends a snapshot to a
    ghost log, so a contract can speak about every state a run passes through. */
module FileSystems {
  /** A path. The installer's scratch names carry the uuid that makes them fresh. */
  datatype Path =
    | Named(text: string)
    | Next(of: Path, id: nat)                       // .<name>.next-<uuid>
    | Rollback(of: Path, id: nat)                   // .<name>.rollback-<uuid>
    | Generation(of: Path, name: string)            // .<name>.generations/<environment>-<lock>
    | Repair(of: Path, name: string, id: nat)       // ...-repair-<uuid>
    | Inside(tree: Path, rest: string)              // a path below a directory tree

  /** What a directory tree holds is only compared, so it is a number. */
  type Content = nat

  datatype Node =
    | Symlink(value: Path)
    | Directory(content: Content)
    | File(data: nat)

  type Nodes = map<Path, Node>

  /** One observed state; `committed` says that the new state had been verified as a whole. */
  datatype Snapshot = Snapshot(nodes: Nodes, committed: bool)

  datatype Unlinking = Removed | Missing | Failed

  ghost predicate Same(nodes: Nodes, orig: Nodes, p: Path) {
    (p in nodes <==> p in orig) && (p in orig ==> nodes[p] == orig[p])
  }

  /** Every uuid drawn so far is below `next`, which is what makes the next one fresh. */
  ghost predicate IdsBelow(nodes: Nodes, next: nat) {
    forall p :: p in nodes ==> (p.Next? || p.Rollback? || p.Repair?) ==> p.id < next
  }

  /** `after` differs from `before` at most in the contents of the directory tree at p. */
  ghost predicate Rewritten(before: Nodes, after: Nodes, p: Path) {
    && p in after && after[p].Directory?
    && (p in before ==> before[p].Directory?)
    && after.Keys == before.Keys + {p}
    && forall q :: q in before && q != p ==> after[q] == before[q]
  }

  /** A file or symlink may be replaced, a directory may not. */
  predicate CanRename(nodes: Nodes, source: Path, target: Path) {
    source in nodes && (target in nodes ==> !nodes[target].Directory? && !nodes[source].Directory?)
  }

  class FileSystem {
    var nodes: Nodes
    var nextId: nat
    ghost var committed: bool
    ghost var log: seq<Snapshot>
    /** Calls that failed although the nodes allowed them. */
    ghost var faults: nat

    constructor (initial: Nodes, next: nat)
      ensures nodes == initial && nextId == next && !committed && log == [] && faults == 0
    {
      nodes, nextId, committed, log, faults := initial, next, false, [], 0;
    }

    /** uuid4: an identifier no existing name carries. */
    method Uuid() returns (id: nat)
      modifies `nextId
      ensures id == old(nextId) && nextId == id + 1
    {
      id := nextId;
      nextId := nextId + 1;
    }

    /** The verified state becomes the one to keep (ghost). */
    ghost method Commit()
      modifies `committed
      ensures committed
    {
      committed := true;
    }

    /** os.symlink */
    method SymlinkAt(value: Path, path: Path) returns (ok: bool)
      modifies `nodes, `log, `faults
      ensures ok ==> path !in old(nodes) && nodes == old(nodes)[path := Symlink(value)]
      ensures !ok ==> nodes == old(nodes)
      ensures faults == old(faults) + if !ok && path !in nodes then 1 else 0
      ensures log == old(log) + [Snapshot(nodes, committed)]
    {
      var works: bool := *;
      ok := works && path !in nodes;
      Count(!works && path !in nodes);
      if ok {
        nodes := nodes[path := Symlink(value)];
      }
      log := log + [Snapshot(nodes, committed)];
    }

    /** os.rename and os.replace */
    method Rename(source: Path, target: Path) returns (ok: bool)
      requires source != target
      modifies `nodes, `log, `faults
      ensures ok ==> source in old(nodes) && nodes == old(nodes)[target := old(nodes)[source]] - {source}
      ensures ok && target in old(nodes) ==> !old(nodes)[target].Directory? && !old(nodes)[source].Directory?
      ensures !ok ==> nodes == old(nodes)
      ensures faults == old(faults) + if !ok && CanRename(nodes, source, target) then 1 else 0
      ensures log == old(log) + [Snapshot(nodes, committed)]
    {
      var works: bool := *;
      ok := works && CanRename(nodes, source, target);
      Count(!works && CanRename(nodes, source, target));
      if ok {
        nodes := nodes[target := nodes[source]] - {source};
      }
      log := log + [Snapshot(nodes, committed)];
    }

    /** renameat2 with RENAME_EXCHANGE: both names exist before and after. */
    method Exchange(left: Path, right: Path) returns (ok: bool)
      requires left != right
      modifies `nodes, `log, `faults
      ensures ok ==> left in old(nodes) && right in old(nodes)
      ensures ok ==> nodes == old(nodes)[left := old(nodes)[right]][right := old(nodes)[left]]
      ensures !ok ==> nodes == old(nodes)
      ensures faults == old(faults) + if !ok && left in nodes && right in nodes then 1 else 0
      ensures log == old(log) + [Snapshot(nodes, committed)]
    {
      var works: bool := *;
      ok := works && left in nodes && right in nodes;
      Count(!works && left in nodes && right in nodes);
      if ok {
        nodes := nodes[left := nodes[right]][right := nodes[left]];
      }
      log := log + [Snapshot(nodes, committed)];
    }

    /** Path.unlink: a missing path is told apart from every other error. */
    method Unlink(path: Path) returns (r: Unlinking)
      modifies `nodes, `log, `faults
      ensures r.Removed? ==> path in old(nodes) && !old(nodes)[path].Directory? && nodes == old(nodes) - {path}
      ensures !r.Removed? ==> nodes == old(nodes)
      ensures r.Missing? ==> path !in nodes
      ensures faults == old(faults) + if r.Failed? && (path in nodes ==> !nodes[path].Directory?) then 1 else 0
      ensures log == old(log) + [Snapshot(nodes, committed)]
    {
      var works: bool := *;
      Count(!works && (path in nodes ==> !nodes[path].Directory?));
      if !works || (path in nodes && nodes[path].Directory?) {
        r := Failed;
      } else if path in nodes {
        nodes := nodes - {path};
        r := Removed;
      } else {
        r := Missing;
      }
      log := log + [Snapshot(nodes, committed)];
    }

    /** shutil.rmtree: on failure the tree is still there, but perhaps not all of it. */
    method RemoveTree(path: Path) returns (ok: bool)
      modifies `nodes, `log, `faults
      ensures ok ==> path in old(nodes) && nodes == old(nodes) - {path}
      ensures ok ==> old(nodes)[path].Directory?
      ensures !ok ==> nodes == old(nodes) || (path in old(nodes) && Rewritten(old(nodes), nodes, path))
      ensures faults == old(faults) + if !ok && path in old(nodes) && old(nodes)[path].Directory? then 1 else 0
      ensures log == old(log) + [Snapshot(nodes, committed)]
    {
      var works: bool := *;
      ok := works && path in nodes && nodes[path].Directory?;
      Count(!works && path in nodes && nodes[path].Directory?);
      if ok {
        nodes := nodes - {path};
      } else if path in nodes && nodes[path].Directory? {
        var rest: Content := *;
        nodes := nodes[path := Directory(rest)];
      }
      log := log + [Snapshot(nodes, committed)];
    }

    /** One step that writes into a directory tree, leaving it in any condition unless it works. */
    method WriteTree(path: Path, content: Content) returns (ok: bool)
      modifies `nodes, `log, `faults
      ensures nodes == old(nodes) || Rewritten(old(nodes), nodes, path)
      ensures ok ==> path in nodes && nodes[path] == Directory(content)
      ensures faults == old(faults) + if !ok && (path in old(nodes) ==> old(nodes)[path].Directory?) then 1 else 0
      ensures log == old(log) + [Snapshot(nodes, committed)]
    {
      var works, touched: bool := *, *;
      ok := works && (path in nodes ==> nodes[path].Directory?);
      Count(!works && (path in nodes ==> nodes[path].Directory?));
      if (ok || touched) && (path in nodes ==> nodes[path].Directory?) {
        var left: Content := *;
        if ok {
          left := content;
        }
        nodes := nodes[path := Directory(left)];
      }
      log := log + [Snapshot(nodes, committed)];
    }

    /** fsync of a directory, mkdir of a parent, reading a tree: may fail, changes nothing here. */
    method MayFail() returns (ok: bool)
      modifies `faults
      ensures faults == old(faults) + if ok then 0 else 1
    {
      ok := *;
      Count(!ok);
    }

    ghost method Count(fault: bool)
      modifies `faults
      ensures faults == old(faults) + if fault then 1 else 0
    {
      faults := faults + if fault then 1 else 0;
    }
  }
}
