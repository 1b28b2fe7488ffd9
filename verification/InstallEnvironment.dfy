/** install_environment: the generation store around an activation. */
module InstallEnvironment {
  import opened Wrappers
  import opened FileSystems
  import opened ReplacedPaths
  import opened PythonClosure

  /** What the caller sees. An exception says which of two things went wrong beside the failure itself:
      the rollback was incomplete, or the target was switched and verified but removing the .next-* name
      raised (the finally clause of activate_generation forgives only a missing file). */
  datatype Installation = Unchanged | Fresh | Raised(rollbackFailed: bool, linkStuck: bool)

  // ----- what must survive

  /** Paths of the entry state other than the target and its generation are never touched. */
  ghost predicate EntryFrame(nodes: Nodes, orig: Nodes, target: Path, generation: Path) {
    forall p :: p in orig && p != target && p != generation ==> p in nodes && nodes[p] == orig[p]
  }

  /** The generation is in use at entry: the test the source makes before it rebuilds one. */
  predicate InUse(nodes: Nodes, target: Path, generation: Path) {
    target in nodes && nodes[target].Symlink? && Resolve(nodes, target, {}) == Resolve(nodes, generation, {})
  }

  ghost predicate Safe(nodes: Nodes, orig: Nodes, target: Path, generation: Path, backup: Path) {
    && EntryFrame(nodes, orig, target, generation)
    && TargetKept(nodes, orig, target, backup)
    && (generation in orig && InUse(orig, target, generation) ==> Same(nodes, orig, generation))
  }

  ghost predicate LogAllSafe(log: seq<Snapshot>, from: nat, orig: Nodes, target: Path, generation: Path, backup: Path) {
    forall i :: from <= i < |log| && !log[i].committed ==> Safe(log[i].nodes, orig, target, generation, backup)
  }

  /** The tree the target led to at entry, if it led to one. */
  function EntryTree(orig: Nodes, target: Path): Option<Path> {
    match Resolve(orig, target, {})
    case None => None
    case Some(q) => if Root(q) in orig && orig[Root(q)].Directory? then Some(Root(q)) else None
  }

  /** The target leads below the generation's top directory rather than to it. */
  predicate LeadsInside(orig: Nodes, target: Path, generation: Path) {
    match Resolve(orig, target, {})
    case None => false
    case Some(q) => q != generation && Root(q) == generation
  }

  /** The tree the target led to is intact: where it was, or, if it was the target, at the backup path. */
  ghost predicate EntryTreeKept(nodes: Nodes, orig: Nodes, target: Path, backup: Path) {
    match EntryTree(orig, target)
    case None => true
    case Some(tree) =>
      || (tree in nodes && nodes[tree] == orig[tree])
      || (tree == target && backup in nodes && nodes[backup] == orig[tree])
  }

  lemma ResolveTree(nodes: Nodes, p: Path)
    requires p in nodes ==> !nodes[p].Symlink?
    requires !p.Inside?
    ensures Resolve(nodes, p, {}) == Some(p)
  {
  }

  lemma ResolveLink(nodes: Nodes, p: Path, q: Path)
    requires p in nodes && nodes[p] == Symlink(q) && p != q
    requires q in nodes && !nodes[q].Symlink? && !q.Inside?
    ensures Resolve(nodes, p, {}) == Some(q)
  {
  }

  /** A safe state keeps the entry tree, unless the target led inside the generation. */
  lemma SafeKeepsTree(nodes: Nodes, orig: Nodes, target: Path, generation: Path, backup: Path)
    requires target.Named? && generation.Generation? && Safe(nodes, orig, target, generation, backup)
    requires !LeadsInside(orig, target, generation)
    ensures EntryTreeKept(nodes, orig, target, backup)
  {
    if EntryTree(orig, target).Some? && EntryTree(orig, target).value == generation {
      ResolveTree(orig, generation);
      assert InUse(orig, target, generation);
    }
  }

  /** The exception is real: a target that leads inside a generation does not count as using it,
      so a generation that fails its check is removed under the target. */
  lemma InsideTargetIsNotProtected(orig: Nodes, target: Path, name: string, rest: string, c: Content)
    requires target.Named?
    requires orig == map[target := Symlink(Inside(Generation(target, name), rest)), Generation(target, name) := Directory(c)]
    ensures LeadsInside(orig, target, Generation(target, name))
    ensures EntryTree(orig, target) == Some(Generation(target, name))
    ensures !InUse(orig, target, Generation(target, name))
  {
    var g := Generation(target, name);
    ResolveTree(orig, g);
    assert {} + {target} == {target};
    assert Resolve(orig, g, {target}) == Some(g);
    assert Resolve(orig, Inside(g, rest), {target}) == Some(Inside(g, rest));
    assert Resolve(orig, target, {}) == Some(Inside(g, rest));
  }

  /** Removing a generation that is not in use keeps the entry tree exactly when the target did not
      lead inside that generation. */
  lemma RemovalKeepsTreeIff(orig: Nodes, target: Path, generation: Path, backup: Path)
    requires target.Named? && generation.Generation? && backup.Rollback? && backup !in orig
    requires generation in orig && orig[generation].Directory? && !InUse(orig, target, generation)
    ensures EntryTreeKept(orig - {generation}, orig, target, backup) <==> !LeadsInside(orig, target, generation)
  {
    if !LeadsInside(orig, target, generation) {
      SafeKeepsTree(orig - {generation}, orig, target, generation, backup);
    }
  }

  // ----- the store

  /** Since `from`, nothing was committed and only the tree at p differs from `before`. */
  ghost predicate LogOnlyAt(log: seq<Snapshot>, from: nat, before: Nodes, p: Path) {
    forall i :: from <= i < |log| ==> !log[i].committed && OnlyAt(log[i].nodes, before, p)
  }

  ghost predicate OnlyAt(nodes: Nodes, before: Nodes, p: Path) {
    forall q :: q != p ==> Same(nodes, before, q)
  }

  /** What each build step leaves in the generation when it works: python -m venv, pip install,
      freeze_generation_contents and _write_marker. */
  datatype Tools = Tools(venv: Content, installed: Content, frozen: Content, marked: Content)

  /** One build step that writes into the generation, when the steps before it worked. */
  method BuildStep(fs: FileSystem, generation: Path, content: Content, soFar: bool, ghost before: Nodes, ghost from: nat) returns (ok: bool)
    requires generation in fs.nodes ==> fs.nodes[generation].Directory?
    requires !fs.committed && OnlyAt(fs.nodes, before, generation)
    requires from <= |fs.log| && LogOnlyAt(fs.log, from, before, generation)
    modifies fs`nodes, fs`log, fs`faults
    ensures generation in fs.nodes ==> fs.nodes[generation].Directory?
    ensures ok ==> soFar && generation in fs.nodes && fs.nodes[generation] == Directory(content)
    ensures fs.faults >= old(fs.faults) && (fs.faults == old(fs.faults) && soFar ==> ok)
    ensures OnlyAt(fs.nodes, before, generation)
    ensures old(fs.log) <= fs.log && LogOnlyAt(fs.log, from, before, generation)
  {
    ok := soFar;
    if ok {
      ghost var last := fs.nodes;
      ok := fs.WriteTree(generation, content);
      forall q | q != generation ensures Same(fs.nodes, before, q) {
        assert Same(last, before, q);
      }
    }
  }

  /** The build steps in order; whatever fails, the half-built generation is removed. */
  method Build(fs: FileSystem, generation: Path, tools: Tools, good: (Content, Path) -> bool) returns (ok: bool)
    requires generation !in fs.nodes && !fs.committed && !generation.Inside?
    modifies fs`nodes, fs`log, fs`faults
    // without a fault it succeeds exactly if the finished tree passes its check, and leaves nothing otherwise
    ensures fs.faults == old(fs.faults) ==> (ok <==> good(tools.marked, generation))
    ensures fs.faults == old(fs.faults) && !ok ==> fs.nodes == old(fs.nodes)
    ensures ok ==> generation in fs.nodes && fs.nodes[generation] == Directory(tools.marked)
    ensures ok ==> generation in fs.nodes && fs.nodes[generation].Directory? && Installed(fs.nodes, generation, good)
    ensures OnlyAt(fs.nodes, old(fs.nodes), generation)
    ensures old(fs.log) <= fs.log && LogOnlyAt(fs.log, |old(fs.log)|, old(fs.nodes), generation)
    ensures fs.faults >= old(fs.faults)
  {
    ghost var before, from := fs.nodes, |fs.log|;
    ok := BuildStep(fs, generation, tools.venv, true, before, from);    // python -m venv
    ok := BuildStep(fs, generation, tools.installed, ok, before, from);  // pip install
    var checked := fs.MayFail();                            // pip check and the inventory comparison
    ok := BuildStep(fs, generation, tools.frozen, ok && checked, before, from);  // freeze_generation_contents
    ok := BuildStep(fs, generation, tools.marked, ok, before, from);  // _write_marker
    if ok {
      ResolveTree(fs.nodes, generation);
      var check := VerifyInstalled(fs, generation, good);
      ok := check.Passed?;
    }
    if !ok && generation in fs.nodes {
      ghost var last := fs.nodes;
      var removed := fs.RemoveTree(generation);
      forall q | q != generation ensures Same(fs.nodes, before, q) {
        assert Same(last, before, q);
      }
    }
    if generation !in fs.nodes {
      SameEverywhere(fs.nodes, before, generation);
    }
  }

  lemma SameEverywhere(nodes: Nodes, before: Nodes, p: Path)
    requires OnlyAt(nodes, before, p) && p !in nodes && p !in before
    ensures nodes == before
  {
    forall q ensures q in nodes <==> q in before ensures q in before ==> nodes[q] == before[q] {
      assert q != p ==> Same(nodes, before, q);
    }
  }

  /** The generation exists as a directory and passes its check. */
  ghost predicate Ripe(nodes: Nodes, generation: Path, good: (Content, Path) -> bool) {
    generation in nodes && nodes[generation].Directory? && Installed(nodes, generation, good)
  }

  /** Choose the generation path: reuse a good one, repair beside one in use, replace any other. */
  method Choose(fs: FileSystem, target: Path, generation: Path, good: (Content, Path) -> bool)
    returns (ok: bool, chosen: Path)
    requires target.Named? && generation.Generation? && !fs.committed && IdsBelow(fs.nodes, fs.nextId)
    modifies fs
    ensures fs.committed == old(fs.committed) && IdsBelow(fs.nodes, fs.nextId)
    ensures chosen == generation || (chosen.Repair? && chosen.id < fs.nextId && chosen !in old(fs.nodes) && chosen !in fs.nodes)
    ensures ok ==> chosen !in fs.nodes || Ripe(fs.nodes, chosen, good)
    ensures ok && chosen == generation && generation in old(fs.nodes) && InUse(old(fs.nodes), target, generation) ==>
              generation in fs.nodes
    ensures forall p :: p != generation ==> Same(fs.nodes, old(fs.nodes), p)
    ensures generation in old(fs.nodes) && InUse(old(fs.nodes), target, generation) ==> fs.nodes == old(fs.nodes)
    ensures old(fs.log) <= fs.log
    ensures forall i :: |old(fs.log)| <= i < |fs.log| ==> fs.log[i] == Snapshot(fs.nodes, false)
    ensures fs.faults >= old(fs.faults)
    ensures fs.faults == old(fs.faults) && Ripe(old(fs.nodes), generation, good) ==>
              ok && chosen == generation && fs.nodes == old(fs.nodes)
    ensures fs.faults == old(fs.faults) ==> (ok <==> (generation in old(fs.nodes) ==> old(fs.nodes)[generation].Directory?))
    ensures fs.faults == old(fs.faults) && ok && !Ripe(old(fs.nodes), generation, good) ==> chosen !in fs.nodes
    // a directory that fails its check and is not in use is gone, whatever else leads into it
    ensures fs.faults == old(fs.faults) && generation in old(fs.nodes) && old(fs.nodes)[generation].Directory?
            ==> Installed(old(fs.nodes), generation, good) || InUse(old(fs.nodes), target, generation)
                || (ok && chosen == generation && fs.nodes == old(fs.nodes) - {generation})
  {
    ok, chosen := true, generation;
    if generation in fs.nodes {
      if !fs.nodes[generation].Directory? {
        return false, generation;
      }
      var check := VerifyInstalled(fs, generation, good);
      if check.Rejected? {
        if InUse(fs.nodes, target, generation) {
          var id := fs.Uuid();
          chosen := Repair(target, generation.name, id);
        } else {
          ok := fs.RemoveTree(generation);
        }
      } else {
        ok := check.Passed?;
      }
    }
  }

  /** The activation, the removal of the old target, and the removal of a generation that lost. */
  method Activate(fs: FileSystem, target: Path, generation: Path, built: bool, good: (Content, Path) -> bool)
    returns (r: Installation, ghost backup: Path)
    requires target.Named? && (generation.Generation? || generation.Repair?)
    requires Ripe(fs.nodes, generation, good)
    requires IdsBelow(fs.nodes, fs.nextId) && !fs.committed
    modifies fs
    ensures r.Fresh? || r.Raised?
    ensures fs.faults >= old(fs.faults) && (r.Raised? && r.rollbackFailed ==> fs.faults > old(fs.faults) + 1)
    ensures target in old(fs.nodes) && old(fs.nodes)[target].File? ==> !fs.committed && r == Raised(false, false)
    ensures fs.faults == old(fs.faults) ==> (r.Raised? <==> target in old(fs.nodes) && old(fs.nodes)[target].File?)
    ensures r.Fresh? ==> fs.committed
    ensures fs.committed ==> Installed(fs.nodes, target, good)
    ensures r.Raised? ==> (r.linkStuck <==> fs.committed)
    ensures r.Raised? && r.linkStuck ==> target in fs.nodes && fs.nodes[target] == Symlink(generation)
    ensures r.Raised? && !r.linkStuck && !r.rollbackFailed ==> Same(fs.nodes, old(fs.nodes), target)
    ensures backup.Rollback? && backup.of == target && backup !in old(fs.nodes)
    ensures TargetKept(fs.nodes, old(fs.nodes), target, backup) || fs.committed
    ensures forall p :: p in old(fs.nodes) && p != target && !(built && p == generation) ==> Same(fs.nodes, old(fs.nodes), p)
    ensures old(fs.log) <= fs.log
    ensures forall i :: |old(fs.log)| <= i < |fs.log| && !fs.log[i].committed ==>
              && TargetKept(fs.log[i].nodes, old(fs.nodes), target, backup)
              && forall p :: p in old(fs.nodes) && p != target && !(built && p == generation) ==>
                   Same(fs.log[i].nodes, old(fs.nodes), p)
  {
    ghost var orig, log0 := fs.nodes, fs.log;
    var activation, raised;
    ghost var next;
    activation, raised, next, backup := ActivateGeneration(fs, generation, target, good);
    SwitchInstalls(orig, target, generation, backup, good);
    ghost var nodes1, log1 := fs.nodes, fs.log;
    forall p | p in orig && p != target ensures Same(nodes1, orig, p) { }
    assert activation.Refused? || activation.RolledBack? ==> Same(nodes1, orig, target);
    if activation.Activated? && !raised {
      r := Fresh;
      if activation.backup.Some? {
        var removed := RemoveReplaced(fs, activation.backup.value);
        var synced := fs.MayFail();
      }
      forall p | p != backup ensures Same(fs.nodes, nodes1, p) { }
      KeepsInstalled(nodes1, fs.nodes, target, generation, good);
    } else {
      r := Raised(activation.RollbackIncomplete?, activation.Activated?);
      if activation.Activated? {
        ResolveLink(fs.nodes, target, generation);
        ResolveTree(fs.nodes, generation);
      }
      if built && !InUse(fs.nodes, target, generation) && generation in fs.nodes {
        var removed := fs.RemoveTree(generation);
      }
      forall p | p != generation ensures Same(fs.nodes, nodes1, p) { }
      forall p | !built ensures Same(fs.nodes, nodes1, p) { }
      assert Same(fs.nodes, nodes1, target) && Same(fs.nodes, nodes1, backup);
    }
    forall p | p in orig && p != target && !(built && p == generation) ensures Same(fs.nodes, orig, p) {
      assert Same(fs.nodes, nodes1, p) && Same(nodes1, orig, p);
    }
    forall i | |log0| <= i < |fs.log| && !fs.log[i].committed
      ensures TargetKept(fs.log[i].nodes, orig, target, backup)
      ensures forall p :: p in orig && p != target && !(built && p == generation) ==> Same(fs.log[i].nodes, orig, p)
    {
      assert i < |log1| ==> fs.log[i] == log1[i];
      assert i >= |log1| ==> fs.log[i].nodes == fs.nodes;
    }
  }

  /** A generation that passes its check at its own path passes it at the target as well, because the
      check follows the link. */
  lemma SwitchInstalls(nodes: Nodes, target: Path, generation: Path, backup: Path, good: (Content, Path) -> bool)
    requires target.Named? && (generation.Generation? || generation.Repair?) && backup.Rollback?
    requires Ripe(nodes, generation, good)
    ensures GoodSwitch(nodes, generation, target, if target in nodes then Some(backup) else None, good)
  {
    var after := Switched(nodes, generation, target, if target in nodes then Some(backup) else None);
    ResolveTree(nodes, generation);
    ResolveLink(after, target, generation);
  }

  lemma KeepsInstalled(before: Nodes, after: Nodes, target: Path, generation: Path, good: (Content, Path) -> bool)
    requires target in before && before[target] == Symlink(generation) && target != generation
    requires generation in before && before[generation].Directory? && !generation.Inside?
    requires Installed(before, target, good)
    requires Same(after, before, target) && Same(after, before, generation)
    ensures Installed(after, target, good)
  {
    ResolveLink(before, target, generation);
    ResolveLink(after, target, generation);
  }

  /** Before the activation: the target and every other entry path are untouched, and so is a
      generation in use. */
  ghost predicate Ready(nodes: Nodes, orig: Nodes, target: Path, original: Path) {
    && Same(nodes, orig, target)
    && (forall p :: p in orig && p != original ==> Same(nodes, orig, p))
    && (original in orig && InUse(orig, target, original) ==> Same(nodes, orig, original))
  }

  ghost predicate LogReady(log: seq<Snapshot>, from: nat, orig: Nodes, target: Path, original: Path) {
    forall i :: from <= i < |log| ==> !log[i].committed && Ready(log[i].nodes, orig, target, original)
  }

  lemma BuiltIsReady(nodes: Nodes, chosen: Nodes, orig: Nodes, target: Path, original: Path, generation: Path)
    requires target != original && target != generation && (generation == original || generation !in orig)
    requires forall p :: p != original ==> Same(chosen, orig, p)
    requires original in orig && InUse(orig, target, original) ==> chosen == orig && generation != original
    requires OnlyAt(nodes, chosen, generation)
    ensures Ready(nodes, orig, target, original)
  {
    assert Same(chosen, orig, target) && Same(nodes, chosen, target);
    forall p | p in orig && p != original ensures Same(nodes, orig, p) {
      assert Same(chosen, orig, p) && Same(nodes, chosen, p);
    }
    if original in orig && InUse(orig, target, original) {
      assert Same(nodes, chosen, original);
    }
  }

  /** The generation to activate: a good one that exists, or one built now. */
  method Provide(fs: FileSystem, target: Path, original: Path, tools: Tools, good: (Content, Path) -> bool)
    returns (ok: bool, generation: Path, built: bool)
    requires target.Named? && original.Generation? && !fs.committed && IdsBelow(fs.nodes, fs.nextId)
    modifies fs
    ensures !fs.committed && IdsBelow(fs.nodes, fs.nextId)
    ensures generation == original || (generation.Repair? && generation !in old(fs.nodes))
    ensures ok ==> Ripe(fs.nodes, generation, good)
    ensures fs.faults >= old(fs.faults)
    ensures fs.faults == old(fs.faults) && Ripe(old(fs.nodes), original, good) ==> ok && fs.nodes == old(fs.nodes)
    ensures fs.faults == old(fs.faults) && !Ripe(old(fs.nodes), original, good) ==>
              (ok <==> (original in old(fs.nodes) ==> old(fs.nodes)[original].Directory?) && good(tools.marked, generation))
    ensures built && original in old(fs.nodes) && InUse(old(fs.nodes), target, original) ==> generation != original
    ensures Ready(fs.nodes, old(fs.nodes), target, original)
    ensures old(fs.log) <= fs.log && LogReady(fs.log, |old(fs.log)|, old(fs.nodes), target, original)
  {
    ghost var orig := fs.nodes;
    built := false;
    ok, generation := Choose(fs, target, original, good);
    ghost var chosen, log1 := fs.nodes, fs.log;
    assert Same(chosen, orig, target);
    if ok && generation !in fs.nodes {
      ok := Build(fs, generation, tools, good);
      built := ok;
      forall i | |log1| <= i < |fs.log| ensures Ready(fs.log[i].nodes, orig, target, original) {
        BuiltIsReady(fs.log[i].nodes, chosen, orig, target, original, generation);
      }
      BuiltIsReady(fs.nodes, chosen, orig, target, original, generation);
      forall p | p in fs.nodes && p != generation ensures p in chosen {
        assert Same(fs.nodes, chosen, p);
      }
    }
  }

  lemma ReadyIsSafe(nodes: Nodes, orig: Nodes, target: Path, original: Path, backup: Path)
    requires Ready(nodes, orig, target, original)
    ensures Safe(nodes, orig, target, original, backup)
  {
    forall p | p in orig && p != target && p != original ensures p in nodes && nodes[p] == orig[p] {
      assert Same(nodes, orig, p);
    }
  }

  lemma ActivatedFrame(nodes: Nodes, before: Nodes, orig: Nodes, target: Path, original: Path, generation: Path,
                       built: bool, backup: Path)
    requires target != original && Ready(before, orig, target, original)
    requires generation == original || generation !in orig
    requires built && original in orig && InUse(orig, target, original) ==> generation != original
    requires forall p :: p in before && p != target && !(built && p == generation) ==> Same(nodes, before, p)
    ensures EntryFrame(nodes, orig, target, original)
    ensures TargetKept(nodes, before, target, backup) ==> Safe(nodes, orig, target, original, backup)
  {
    forall p | p in orig && p != target && p != original ensures p in nodes && nodes[p] == orig[p] {
      assert Same(before, orig, p);
      assert Same(nodes, before, p);
    }
  }

  /** A target that may be replaced; a regular file never is. */
  predicate Replaceable(nodes: Nodes, target: Path, allowed: bool) {
    target in nodes ==> allowed && !nodes[target].File?
  }

  /** install_environment; `managed` is what _is_managed_target answers about an existing target. */
  method Install(fs: FileSystem, target: Path, name: string, tools: Tools, good: (Content, Path) -> bool, managed: bool,
                 replaceUnmanaged: bool)
    returns (r: Installation, ghost backup: Path, ghost generation: Path)
    requires target.Named? && IdsBelow(fs.nodes, fs.nextId) && !fs.committed
    modifies fs
    // the result
    ensures r.Unchanged? ==> fs.nodes == old(fs.nodes) && Installed(fs.nodes, target, good)
    ensures r.Unchanged? ==> target in fs.nodes
    ensures r.Fresh? ==> fs.committed
    ensures fs.committed ==> Installed(fs.nodes, target, good)
    // an exception without a rollback error leaves another target exactly if the .next-* name was stuck
    ensures r.Raised? && r.linkStuck ==> fs.committed && target in fs.nodes && fs.nodes[target] == Symlink(generation)
    ensures r.Raised? && !r.linkStuck ==> !fs.committed
    ensures r.Raised? && !r.rollbackFailed ==>
              (Same(fs.nodes, old(fs.nodes), target) <==>
               (r.linkStuck ==> target in old(fs.nodes) && old(fs.nodes)[target] == Symlink(generation)))
    ensures !Replaceable(old(fs.nodes), target, managed || replaceUnmanaged) ==>
              !fs.committed && Same(fs.nodes, old(fs.nodes), target)
    // every state before the verified replacement is active
    ensures backup.Rollback? && backup.of == target && backup !in old(fs.nodes)
    ensures old(fs.log) <= fs.log
    ensures LogAllSafe(fs.log, |old(fs.log)|, old(fs.nodes), target, Generation(target, name), backup)
    ensures !fs.committed ==> Safe(fs.nodes, old(fs.nodes), target, Generation(target, name), backup)
    ensures EntryFrame(fs.nodes, old(fs.nodes), target, Generation(target, name))
    // what it takes: an incomplete rollback takes two faults, and without one a target that passes is left
    // alone and a generation that passes is made the target
    ensures fs.faults >= old(fs.faults) && (r.Raised? && r.rollbackFailed ==> fs.faults > old(fs.faults) + 1)
    ensures r.Raised? && r.linkStuck ==> fs.faults > old(fs.faults)
    ensures fs.faults == old(fs.faults) && target in old(fs.nodes) && Installed(old(fs.nodes), target, good) ==> r.Unchanged?
    ensures fs.faults == old(fs.faults) && Replaceable(old(fs.nodes), target, managed || replaceUnmanaged) ==>
              Ripe(old(fs.nodes), Generation(target, name), good) ==> !r.Raised?
    // otherwise it installs exactly if the generation's path is free for it and what is built there passes
    ensures fs.faults == old(fs.faults) && Replaceable(old(fs.nodes), target, managed || replaceUnmanaged)
            && !(target in old(fs.nodes) && Installed(old(fs.nodes), target, good))
            && !Ripe(old(fs.nodes), Generation(target, name), good) ==>
              (r.Fresh? <==> (Generation(target, name) in old(fs.nodes) ==> old(fs.nodes)[Generation(target, name)].Directory?)
                             && good(tools.marked, generation))
  {
    ghost var orig, log0 := fs.nodes, fs.log;
    backup, generation := Rollback(target, fs.nextId), Generation(target, name);
    r := Raised(false, false);
    var ok := fs.MayFail();  // the lock, the qualification and the host checks
    if !ok {
      return;
    }
    if target in fs.nodes {
      var check := VerifyInstalled(fs, target, good);
      if check.Passed? {
        return Unchanged, backup, generation;
      }
      var looked := fs.MayFail();  // _is_managed_target
      if check.Errored? || !looked || (!managed && !replaceUnmanaged) {
        return;
      }
    }
    ok := fs.MayFail();  // the wheel digests, mkdir of the generation root
    if !ok {
      return;
    }
    var original := Generation(target, name);
    var chosen, built;
    ok, chosen, built := Provide(fs, target, original, tools, good);
    generation := chosen;
    ghost var before, log1 := fs.nodes, fs.log;
    ReadyIsSafe(before, orig, target, original, backup);
    if ok {
      assert backup !in orig;
      r, backup := Activate(fs, target, chosen, built, good);
      assert backup in orig ==> Same(before, orig, backup);
      ActivatedFrame(fs.nodes, before, orig, target, original, chosen, built, backup);
    }
    forall i | |log0| <= i < |fs.log| && !fs.log[i].committed
      ensures Safe(fs.log[i].nodes, orig, target, original, backup)
    {
      if i < |log1| {
        assert fs.log[i] == log1[i];
        ReadyIsSafe(fs.log[i].nodes, orig, target, original, backup);
      } else {
        ActivatedFrame(fs.log[i].nodes, before, orig, target, original, chosen, built, backup);
      }
    }
  }

  /** Over a whole run: as long as the replacement is not verified and active, the tree the target led
      to at entry is neither deleted nor built into. */
  lemma InstallKeepsEntryTree(log: seq<Snapshot>, from: nat, orig: Nodes, target: Path, name: string, backup: Path)
    requires target.Named? && LogAllSafe(log, from, orig, target, Generation(target, name), backup)
    requires !LeadsInside(orig, target, Generation(target, name))
    ensures forall i :: from <= i < |log| && !log[i].committed ==> EntryTreeKept(log[i].nodes, orig, target, backup)
  {
    forall i | from <= i < |log| && !log[i].committed ensures EntryTreeKept(log[i].nodes, orig, target, backup) {
      SafeKeepsTree(log[i].nodes, orig, target, Generation(target, name), backup);
    }
  }
}
