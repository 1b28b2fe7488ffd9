/** The set of compatibility links is switched as one transaction: every original is moved aside,
    every managed link is put in place, the whole set is verified, and any failure rolls the set
    back in reverse order. */
module CompatibilityLinks {
  import opened Wrappers
  import opened FileSystems
  import opened LinkTargets
  import opened ReplacedPaths

  datatype Pending = Pending(link: Path, next: Path)
  datatype Change = Change(link: Path, backup: Option<Path>)

  datatype Outcome =
    | Activated
    | Refused              // a check failed before anything was changed
    | RolledBack           // activation failed; every rollback step worked
    | RollbackIncomplete   // activation failed; some rollback step failed
    | CleanupFailed(inner: Outcome)  // removing an unused .next-* name raised on the way out
  {
    function Base(): Outcome {
      if CleanupFailed? then inner.Base() else this
    }
  }

  /** A name drawn by this run. */
  predicate Scratch(p: Path, start: nat) {
    (p.Next? || p.Rollback?) && p.id >= start
  }

  // ----- what is true of one link while the transaction runs

  /** The original node of the link is at the link, or at its backup path and nowhere else. */
  ghost predicate Touched(nodes: Nodes, orig: Nodes, c: Change, value: Path) {
    match c.backup
    case None =>
      c.link !in orig && (c.link in nodes ==> nodes[c.link] == Symlink(value))
    case Some(b) =>
      && c.link in orig
      && if b in nodes
         then nodes[b] == orig[c.link] && (c.link in nodes ==> nodes[c.link] == Symlink(value))
         else Same(nodes, orig, c.link)
  }

  /** The link is as it was; at most the displaced managed link is left at the backup path. */
  ghost predicate Settled(nodes: Nodes, orig: Nodes, c: Change, value: Path) {
    && Same(nodes, orig, c.link)
    && (c.backup.Some? && c.backup.value in nodes ==> nodes[c.backup.value] == Symlink(value))
  }

  ghost predicate Active(nodes: Nodes, orig: Nodes, c: Change, value: Path) {
    && c.link in nodes && nodes[c.link] == Symlink(value)
    && Touched(nodes, orig, c, value)
    && (c.backup.Some? ==> c.backup.value in nodes)
  }

  /** No original is lost: it is at its link or at the backup path recorded for that link. */
  ghost predicate Kept(nodes: Nodes, orig: Nodes, specs: Specifications, backups: map<Path, Path>) {
    forall l :: l in specs && l in orig ==>
      || (l in nodes && nodes[l] == orig[l])
      || (l in backups && backups[l] in nodes && nodes[backups[l]] == orig[l])
  }

  /** Every snapshot taken since `from` and before the commit keeps every original. */
  ghost predicate LogKept(log: seq<Snapshot>, from: nat, orig: Nodes, specs: Specifications,
                          backups: map<Path, Path>) {
    forall i :: from <= i < |log| && !log[i].committed ==> Kept(log[i].nodes, orig, specs, backups)
  }

  /** Every snapshot taken since `from` and after the commit has every managed link in place. */
  ghost predicate LogActive(log: seq<Snapshot>, from: nat, specs: Specifications) {
    forall i :: from <= i < |log| && log[i].committed ==> AllActive(log[i].nodes, specs)
  }

  ghost predicate AllActive(nodes: Nodes, specs: Specifications) {
    forall l :: l in specs ==> l in nodes && nodes[l] == Symlink(specs[l])
  }

  // ----- the shape of a run

  /** The nodes a run started from, the first uuid it can draw, and the place of each pending link. */
  datatype Run = Run(orig: Nodes, start: nat, slot: map<Path, nat>)

  ghost predicate GoodSpecs(specs: Specifications) {
    forall l :: l in specs ==> l.Named?
  }

  ghost predicate GoodPending(pending: seq<Pending>, specs: Specifications, run: Run) {
    && GoodSpecs(specs)
    && IdsBelow(run.orig, run.start)
    && (forall j :: 0 <= j < |pending| ==> GoodEntry(pending[j], specs, run) && run.slot[pending[j].link] == j)
    && (forall l :: l in run.slot ==> run.slot[l] < |pending| && pending[run.slot[l]].link == l)
  }

  ghost predicate GoodEntry(entry: Pending, specs: Specifications, run: Run) {
    && entry.link in specs && entry.link in run.slot
    && entry.next.Next? && entry.next.of == entry.link && entry.next.id >= run.start
    && (entry.link in run.orig ==> run.orig[entry.link] != Symlink(specs[entry.link]))
  }

  ghost predicate GoodChanges(changes: seq<Change>, pending: seq<Pending>, run: Run, backups: map<Path, Path>) {
    && |changes| <= |pending|
    && (forall j :: 0 <= j < |changes| ==>
          && changes[j].link == pending[j].link
          && (changes[j].backup.Some? <==> changes[j].link in run.orig)
          && (changes[j].backup.Some? <==> changes[j].link in backups)
          && (changes[j].backup.Some? ==> backups[changes[j].link] == changes[j].backup.value))
    && (forall j :: |changes| <= j < |pending| ==> pending[j].link !in backups)
    && (forall l :: l in backups ==>
          l in run.slot && backups[l].Rollback? && backups[l].of == l && backups[l].id >= run.start)
  }

  /** Every .next-* name of this run is one of the pending ones, and a symlink. */
  ghost predicate OwnNexts(nodes: Nodes, run: Run, pending: seq<Pending>)
    requires forall l :: l in run.slot ==> run.slot[l] < |pending|
  {
    forall p :: p in nodes && Scratch(p, run.start) && p.Next? ==>
      p.of in run.slot && pending[run.slot[p.of]].next == p && nodes[p].Symlink?
  }

  lemma OwnNextsPrepared(nodes: Nodes, run: Run, specs: Specifications, pending: seq<Pending>, prepared: seq<Path>)
    requires GoodPending(pending, specs, run) && OwnNexts(nodes, run, pending)
    requires |prepared| == |pending| && forall j :: 0 <= j < |prepared| ==> prepared[j] == pending[j].next
    ensures forall p: Path :: p in nodes && p.Next? && p.id >= run.start ==> p in prepared
    ensures forall j :: 0 <= j < |prepared| && prepared[j] in nodes ==> nodes[prepared[j]].Symlink?
  {
    forall p: Path | p in nodes && p.Next? && p.id >= run.start ensures p in prepared {
      assert Scratch(p, run.start);
      assert prepared[run.slot[p.of]] == p;
    }
    forall j | 0 <= j < |prepared| && prepared[j] in nodes ensures nodes[prepared[j]].Symlink? {
      assert GoodEntry(pending[j], specs, run) && Scratch(prepared[j], run.start);
    }
  }

  /** Outside the links, the run has touched nothing but its own scratch names. */
  ghost predicate Frame(nodes: Nodes, run: Run, specs: Specifications, pending: seq<Pending>,
                        backups: map<Path, Path>)
    requires GoodPending(pending, specs, run)
  {
    && (forall p :: !Scratch(p, run.start) && p !in specs ==> Same(nodes, run.orig, p))
    && OwnNexts(nodes, run, pending)
    && (forall p :: p in nodes && Scratch(p, run.start) && p.Rollback? ==> p.of in backups && backups[p.of] == p)
  }

  /** Links that no pending entry names are as they were. */
  ghost predicate OthersSame(nodes: Nodes, run: Run, specs: Specifications) {
    forall l :: l in specs && l !in run.slot ==> Same(nodes, run.orig, l)
  }

  /** What is left when every rollback step worked: everything is as it was, except that a displaced
      managed link may stay at a backup path, and a .next-* name if its removal raised. */
  ghost predicate Restored(nodes: Nodes, orig: Nodes, specs: Specifications, start: nat, cleanupFailed: bool) {
    && (forall p: Path :: !(p.Rollback? && p.id >= start) && !(cleanupFailed && p.Next? && p.id >= start)
          ==> Same(nodes, orig, p))
    && (forall p: Path :: p in nodes && p.Rollback? && p.id >= start ==>
          p.of in specs && nodes[p] == Symlink(specs[p.of]))
  }

  /** The state between the first swap and the end of the rollback. */
  ghost predicate MidState(nodes: Nodes, run: Run, specs: Specifications, pending: seq<Pending>,
                           changes: seq<Change>, backups: map<Path, Path>) {
    && GoodPending(pending, specs, run)
    && GoodChanges(changes, pending, run, backups)
    && Frame(nodes, run, specs, pending, backups)
    && OthersSame(nodes, run, specs)
    && (forall j :: |changes| <= j < |pending| ==> Same(nodes, run.orig, pending[j].link))
    && (forall j :: 0 <= j < |changes| ==>
          Touched(nodes, run.orig, changes[j], specs[changes[j].link]) ||
          Settled(nodes, run.orig, changes[j], specs[changes[j].link]))
  }

  lemma MidStateKeeps(nodes: Nodes, run: Run, specs: Specifications, pending: seq<Pending>,
                      changes: seq<Change>, backups: map<Path, Path>)
    requires MidState(nodes, run, specs, pending, changes, backups)
    ensures Kept(nodes, run.orig, specs, backups)
  {
    forall l | l in specs && l in run.orig
      ensures (l in nodes && nodes[l] == run.orig[l]) ||
              (l in backups && backups[l] in nodes && nodes[backups[l]] == run.orig[l])
    {
      if l in run.slot && run.slot[l] < |changes| {
        assert changes[run.slot[l]].link == l;
      }
    }
  }

  /** From `before` to `after`, only the link and this run's scratch names for it may differ. */
  ghost predicate OnlyAt(before: Nodes, after: Nodes, link: Path, start: nat) {
    forall p :: p != link && !(Scratch(p, start) && p.of == link) ==> Same(after, before, p)
  }

  /** This run's scratch names for one link are the ones it recorded. */
  ghost predicate OwnScratch(nodes: Nodes, start: nat, entry: Pending, backup: Option<Path>) {
    forall p :: p in nodes && Scratch(p, start) && p.of == entry.link ==>
      (p == entry.next && nodes[p].Symlink?) || backup == Some(p)
  }

  ghost predicate SameForOthers(before: Nodes, after: Nodes, pending: seq<Pending>, changes: seq<Change>, i: nat) {
    forall j :: 0 <= j < |pending| && j != i ==>
      && Same(after, before, pending[j].link)
      && Same(after, before, pending[j].next)
      && (j < |changes| && changes[j].backup.Some? ==> Same(after, before, changes[j].backup.value))
  }

  lemma OthersUntouched(before: Nodes, after: Nodes, run: Run, specs: Specifications, pending: seq<Pending>,
                        changes: seq<Change>, backups: map<Path, Path>, i: nat, j: nat)
    requires GoodPending(pending, specs, run) && GoodChanges(changes, pending, run, backups)
    requires i < |pending| && j < |pending| && i != j && OnlyAt(before, after, pending[i].link, run.start)
    ensures Same(after, before, pending[j].link) && Same(after, before, pending[j].next)
    ensures j < |changes| && changes[j].backup.Some? ==> Same(after, before, changes[j].backup.value)
  {
    assert GoodEntry(pending[i], specs, run) && GoodEntry(pending[j], specs, run);
    assert pending[j].link != pending[i].link && pending[j].link.Named?;
  }

  lemma FrameStep(before: Nodes, after: Nodes, run: Run, specs: Specifications, pending: seq<Pending>,
                  backups: map<Path, Path>, i: nat, backup: Option<Path>)
    requires GoodPending(pending, specs, run) && Frame(before, run, specs, pending, backups)
    requires i < |pending| && OnlyAt(before, after, pending[i].link, run.start)
    requires OwnScratch(after, run.start, pending[i], backup)
    requires backup.Some? ==> pending[i].link in backups && backups[pending[i].link] == backup.value && backup.value.Rollback?
    ensures Frame(after, run, specs, pending, backups) && (OthersSame(before, run, specs) ==> OthersSame(after, run, specs))
  {
    var link := pending[i].link;
    assert GoodEntry(pending[i], specs, run);
    forall p | p in after && Scratch(p, run.start)
      ensures p.Next? ==> p.of in run.slot && pending[run.slot[p.of]].next == p && after[p].Symlink?
      ensures p.Rollback? ==> p.of in backups && backups[p.of] == p
    {
      if p.of != link {
        assert Same(after, before, p);
      }
    }
    forall p | !Scratch(p, run.start) && p != link
      ensures Same(after, before, p)
    {
    }
    forall l | l in specs && l !in run.slot && OthersSame(before, run, specs)
      ensures Same(after, run.orig, l)
    {
      assert Same(after, before, l) && Same(before, run.orig, l);
    }
  }

  /** A step that concerns one link leaves what is true of each other one. */
  lemma OtherStays(before: Nodes, after: Nodes, run: Run, specs: Specifications, pending: seq<Pending>,
                   changes: seq<Change>, backups: map<Path, Path>, i: nat, j: nat)
    requires MidState(before, run, specs, pending, changes, backups)
    requires i < |changes| && j < |pending| && i != j && OnlyAt(before, after, pending[i].link, run.start)
    ensures Same(after, before, pending[j].link) && Same(after, before, pending[j].next)
    ensures j < |changes| && changes[j].backup.Some? ==> Same(after, before, changes[j].backup.value)
    ensures |changes| <= j ==> Same(after, run.orig, pending[j].link)
    ensures j < |changes| ==>
              || Touched(after, run.orig, changes[j], specs[changes[j].link])
              || Settled(after, run.orig, changes[j], specs[changes[j].link])
  {
    OthersUntouched(before, after, run, specs, pending, changes, backups, i, j);
    if j < |changes| {
      assert changes[j].link == pending[j].link;
    } else {
      assert Same(before, run.orig, pending[j].link);
    }
  }

  /** A step that concerns one link leaves what is true of all the others. */
  lemma MidStep(before: Nodes, after: Nodes, run: Run, specs: Specifications, pending: seq<Pending>,
                changes: seq<Change>, backups: map<Path, Path>, i: nat)
    requires MidState(before, run, specs, pending, changes, backups)
    requires i < |changes| && OnlyAt(before, after, pending[i].link, run.start)
    requires OwnScratch(after, run.start, pending[i], changes[i].backup)
    requires || Touched(after, run.orig, changes[i], specs[changes[i].link])
             || Settled(after, run.orig, changes[i], specs[changes[i].link])
    ensures MidState(after, run, specs, pending, changes, backups)
    ensures Kept(after, run.orig, specs, backups)
    ensures SameForOthers(before, after, pending, changes, i)
  {
    FrameStep(before, after, run, specs, pending, backups, i, changes[i].backup);
    forall j | 0 <= j < |pending| && j != i
      ensures Same(after, before, pending[j].link) && Same(after, before, pending[j].next)
      ensures j < |changes| && changes[j].backup.Some? ==> Same(after, before, changes[j].backup.value)
      ensures |changes| <= j ==> Same(after, run.orig, pending[j].link)
      ensures j < |changes| ==>
                || Touched(after, run.orig, changes[j], specs[changes[j].link])
                || Settled(after, run.orig, changes[j], specs[changes[j].link])
    {
      OtherStays(before, after, run, specs, pending, changes, backups, i, j);
    }
    MidStateKeeps(after, run, specs, pending, changes, backups);
  }

  lemma ChangesGrow(changes: seq<Change>, pending: seq<Pending>, specs: Specifications, run: Run,
                    backups: map<Path, Path>, change: Change, grown: map<Path, Path>)
    requires GoodPending(pending, specs, run) && GoodChanges(changes, pending, run, backups)
    requires |changes| < |pending| && change.link == pending[|changes|].link
    requires change.backup.Some? <==> change.link in run.orig
    requires match change.backup
             case None => grown == backups
             case Some(b) => b.Rollback? && b.of == change.link && b.id >= run.start && grown == backups[change.link := b]
    ensures GoodChanges(changes + [change], pending, run, grown)
    ensures forall l :: l in backups ==> l in grown && grown[l] == backups[l]
  {
    forall j | 0 <= j < |pending| && j != |changes| ensures pending[j].link != change.link {
      assert run.slot[pending[j].link] == j && run.slot[change.link] == |changes|;
    }
  }

  /** Recording the change for the next link, before anything is moved, changes no node. */
  lemma MidGrow(nodes: Nodes, run: Run, specs: Specifications, pending: seq<Pending>,
                changes: seq<Change>, backups: map<Path, Path>, change: Change, grown: map<Path, Path>)
    requires MidState(nodes, run, specs, pending, changes, backups)
    requires |changes| < |pending| && change.link == pending[|changes|].link
    requires change.backup.Some? <==> change.link in run.orig
    requires match change.backup
             case None => grown == backups
             case Some(b) => && b.Rollback? && b.of == change.link && b.id >= run.start && b !in nodes
                             && grown == backups[change.link := b]
    ensures MidState(nodes, run, specs, pending, changes + [change], grown)
    ensures Touched(nodes, run.orig, change, specs[change.link])
    ensures OwnScratch(nodes, run.start, pending[|changes|], change.backup)
  {
    ChangesGrow(changes, pending, specs, run, backups, change, grown);
    assert change.link !in backups;
    var all := changes + [change];
    assert Same(nodes, run.orig, change.link);
    assert forall j :: 0 <= j < |changes| ==> all[j] == changes[j];
    assert Frame(nodes, run, specs, pending, grown);
  }

  // ----- the steps

  /** A link's path is taken by something else, and may not be replaced. */
  ghost predicate Occupied(nodes: Nodes, specs: Specifications, replaceUnmanaged: bool) {
    !replaceUnmanaged && exists l :: l in specs && l in nodes && nodes[l] != Symlink(specs[l])
  }

  ghost predicate AllThere(nodes: Nodes, specs: Specifications, there: Existence) {
    forall l :: l in specs ==> there(nodes, specs[l])
  }

  /** The checks made before anything is changed, and the names drawn for the links to replace. */
  method CollectPending(fs: FileSystem, specs: Specifications, there: Existence, replaceUnmanaged: bool)
    returns (ok: bool, pending: seq<Pending>, ghost run: Run)
    requires GoodSpecs(specs) && IdsBelow(fs.nodes, fs.nextId)
    modifies fs`nextId, fs`faults
    ensures fs.faults >= old(fs.faults)
    ensures !ok ==> fs.faults > old(fs.faults) || Occupied(fs.nodes, specs, replaceUnmanaged)
                    || !AllReached(fs.nodes, specs, there)
    ensures ok ==> AllReached(fs.nodes, specs, there)
    ensures run.orig == fs.nodes && run.start == old(fs.nextId) <= fs.nextId
    ensures forall j :: 0 <= j < |pending| ==> pending[j].next.Next? && pending[j].next.id < fs.nextId
    ensures ok ==> GoodPending(pending, specs, run)
    ensures ok ==> forall l :: l in specs && l !in run.slot ==> l in fs.nodes && fs.nodes[l] == Symlink(specs[l])
    ensures ok && !replaceUnmanaged ==> forall l :: l in run.slot ==> l !in fs.nodes
  {
    run := Run(fs.nodes, fs.nextId, map[]);
    ok, pending := true, [];
    var todo := specs.Keys;
    while todo != {} && ok
      invariant todo <= specs.Keys && fs.faults >= old(fs.faults)
      invariant !ok ==> fs.faults > old(fs.faults) || Occupied(fs.nodes, specs, replaceUnmanaged)
                        || !AllReached(fs.nodes, specs, there)
      invariant forall l :: l in specs && l !in todo ==> Reached(fs.nodes, specs, specs[l], there)
      invariant run.orig == fs.nodes && run.start == old(fs.nextId) <= fs.nextId
      invariant GoodPending(pending, specs, run)
      invariant forall j :: 0 <= j < |pending| ==> pending[j].link !in todo && pending[j].next.id < fs.nextId
      invariant forall l :: l in specs && l !in todo && l !in run.slot ==> l in fs.nodes && fs.nodes[l] == Symlink(specs[l])
      invariant !replaceUnmanaged ==> forall l :: l in run.slot ==> l !in fs.nodes
      decreases todo, ok
    {
      var l :| l in todo;
      ProspectiveIff(fs.nodes, specs, specs[l], there);
      if !Prospective(fs.nodes, specs, specs[l], there) {
        ok := false;
      } else if l in fs.nodes && fs.nodes[l] == Symlink(specs[l]) {
        todo := todo - {l};
      } else if l in fs.nodes && !replaceUnmanaged {
        ok := false;
      } else {
        ok := fs.MayFail();  // mkdir of the parent
        if ok {
          var id := fs.Uuid();
          run := run.(slot := run.slot[l := |pending|]);
          pending := pending + [Pending(l, Next(l, id))];
          todo := todo - {l};
        }
      }
    }
  }

  /** The state while the .next-* links are being created. */
  ghost predicate PreparedState(nodes: Nodes, run: Run, specs: Specifications, pending: seq<Pending>,
                                prepared: seq<Path>)
    requires GoodPending(pending, specs, run)
  {
    && |prepared| <= |pending|
    && (forall j :: 0 <= j < |prepared| ==>
          && prepared[j] == pending[j].next
          && prepared[j] in nodes && nodes[prepared[j]] == Symlink(specs[pending[j].link]))
    && (forall p: Path :: !(p.Next? && p.id >= run.start) ==> Same(nodes, run.orig, p))
    && (forall p :: p in nodes && p.Next? && p.id >= run.start ==> p in prepared)
  }

  lemma PreparedGrows(before: Nodes, after: Nodes, run: Run, specs: Specifications, pending: seq<Pending>,
                      prepared: seq<Path>)
    requires GoodPending(pending, specs, run) && |prepared| < |pending|
    requires PreparedState(before, run, specs, pending, prepared)
    requires var entry := pending[|prepared|];
             entry.next !in before && after == before[entry.next := Symlink(specs[entry.link])]
    ensures PreparedState(after, run, specs, pending, prepared + [pending[|prepared|].next])
  {
    assert GoodEntry(pending[|prepared|], specs, run);
  }

  lemma PreparedKeeps(nodes: Nodes, run: Run, specs: Specifications, pending: seq<Pending>, prepared: seq<Path>)
    requires GoodPending(pending, specs, run) && PreparedState(nodes, run, specs, pending, prepared)
    ensures Kept(nodes, run.orig, specs, map[])
  {
  }

  method Prepare(fs: FileSystem, specs: Specifications, pending: seq<Pending>, ghost run: Run)
    returns (ok: bool, prepared: seq<Path>)
    requires GoodPending(pending, specs, run) && fs.nodes == run.orig && !fs.committed
    modifies fs`nodes, fs`log, fs`faults
    ensures PreparedState(fs.nodes, run, specs, pending, prepared)
    ensures ok ==> |prepared| == |pending|
    ensures old(fs.log) <= fs.log
    ensures LogKept(fs.log, |old(fs.log)|, run.orig, specs, map[])
    ensures forall i :: |old(fs.log)| <= i < |fs.log| ==> !fs.log[i].committed
    ensures fs.faults >= old(fs.faults) && (!ok ==> fs.faults > old(fs.faults))
  {
    ok, prepared := true, [];
    while |prepared| < |pending| && ok
      invariant |prepared| <= |pending|
      invariant PreparedState(fs.nodes, run, specs, pending, prepared)
      invariant fs.faults >= old(fs.faults) && (!ok ==> fs.faults > old(fs.faults))
      invariant old(fs.log) <= fs.log
      invariant LogKept(fs.log, |old(fs.log)|, run.orig, specs, map[])
      invariant forall i :: |old(fs.log)| <= i < |fs.log| ==> !fs.log[i].committed
      invariant !fs.committed
      decreases |pending| - |prepared|, ok
    {
      var entry := pending[|prepared|];
      ghost var before := fs.nodes;
      ok := fs.SymlinkAt(specs[entry.link], entry.next);
      if ok {
        PreparedGrows(before, fs.nodes, run, specs, pending, prepared);
        prepared := prepared + [entry.next];
      }
      PreparedKeeps(fs.nodes, run, specs, pending, prepared);
    }
  }

  /** The state between two links of the forward loop. */
  ghost predicate SwapState(nodes: Nodes, run: Run, specs: Specifications, pending: seq<Pending>,
                            changes: seq<Change>, backups: map<Path, Path>) {
    && MidState(nodes, run, specs, pending, changes, backups)
    && (forall j :: 0 <= j < |changes| ==>
          Active(nodes, run.orig, changes[j], specs[changes[j].link]) && pending[j].next !in nodes)
    && (forall j :: |changes| <= j < |pending| ==>
          pending[j].next in nodes && nodes[pending[j].next] == Symlink(specs[pending[j].link]))
  }

  /** What the rollback needs to know. */
  ghost predicate Interrupted(nodes: Nodes, run: Run, specs: Specifications, pending: seq<Pending>,
                              changes: seq<Change>, backups: map<Path, Path>) {
    && MidState(nodes, run, specs, pending, changes, backups)
    && (forall j :: 0 <= j < |changes| ==> Touched(nodes, run.orig, changes[j], specs[changes[j].link]))
  }

  ghost predicate LogUncommitted(log: seq<Snapshot>, from: nat) {
    forall i :: from <= i < |log| ==> !log[i].committed
  }

  lemma MovedAside(nodes: Nodes, moved: Nodes, orig: Nodes, start: nat, entry: Pending, b: Path, value: Path)
    requires entry.link in nodes && Same(nodes, orig, entry.link) && entry.link.Named?
    requires b.Rollback? && b.of == entry.link && b.id >= start && b !in nodes
    requires OwnScratch(nodes, start, entry, Some(b))
    requires moved == nodes[b := nodes[entry.link]] - {entry.link}
    ensures OnlyAt(nodes, moved, entry.link, start)
    ensures OwnScratch(moved, start, entry, Some(b))
    ensures Touched(moved, orig, Change(entry.link, Some(b)), value) && entry.link !in moved && b in moved
    ensures entry.next.Next? ==> Same(moved, nodes, entry.next)
  {
  }

  lemma PutInPlace(nodes: Nodes, placed: Nodes, orig: Nodes, start: nat, entry: Pending, change: Change, value: Path)
    requires entry.link.Named? && entry.next.Next? && entry.next.of == entry.link && entry.next.id >= start
    requires entry.next in nodes && nodes[entry.next] == Symlink(value) && entry.link !in nodes
    requires change.link == entry.link && Touched(nodes, orig, change, value)
    requires change.backup.Some? ==> change.backup.value.Rollback? && change.backup.value in nodes
    requires OwnScratch(nodes, start, entry, change.backup)
    requires placed == nodes[entry.link := nodes[entry.next]] - {entry.next}
    ensures OnlyAt(nodes, placed, entry.link, start)
    ensures OwnScratch(placed, start, entry, change.backup)
    ensures Active(placed, orig, change, value) && entry.next !in placed
  {
  }

  lemma InterruptedGrows(before: Nodes, after: Nodes, run: Run, specs: Specifications, pending: seq<Pending>,
                         changes: seq<Change>, backups: map<Path, Path>, change: Change, grown: map<Path, Path>)
    requires SwapState(before, run, specs, pending, changes, backups) && |changes| < |pending|
    requires change.link == pending[|changes|].link
    requires SameForOthers(before, after, pending, changes + [change], |changes|)
    requires MidState(after, run, specs, pending, changes + [change], grown)
    requires Touched(after, run.orig, change, specs[change.link])
    ensures Interrupted(after, run, specs, pending, changes + [change], grown)
    ensures Active(after, run.orig, change, specs[change.link]) && pending[|changes|].next !in after ==>
              SwapState(after, run, specs, pending, changes + [change], grown)
  {
    var all := changes + [change];
    forall j | 0 <= j < |changes|
      ensures Active(after, run.orig, changes[j], specs[changes[j].link]) && pending[j].next !in after
    {
      assert Same(after, before, pending[j].link) && Same(after, before, pending[j].next);
      assert all[j] == changes[j];
    }
    forall j | |all| <= j < |pending|
      ensures pending[j].next in after && after[pending[j].next] == Symlink(specs[pending[j].link])
    {
      assert Same(after, before, pending[j].next);
    }
  }

  /** The original of one link, if there is one, is moved to a fresh backup path. */
  method MoveAside(fs: FileSystem, specs: Specifications, pending: seq<Pending>, changes: seq<Change>,
                   ghost backups: map<Path, Path>, ghost run: Run)
    returns (ok: bool, change: Change, ghost grown: map<Path, Path>)
    requires MidState(fs.nodes, run, specs, pending, changes, backups) && |changes| < |pending|
    requires run.start <= fs.nextId && !fs.committed
    modifies fs`nodes, fs`log, fs`faults, fs`nextId
    ensures change.link == pending[|changes|].link
    ensures grown == if change.backup.Some? then backups[change.link := change.backup.value] else backups
    ensures MidState(fs.nodes, run, specs, pending, changes + [change], grown)
    ensures SameForOthers(old(fs.nodes), fs.nodes, pending, changes + [change], |changes|)
    ensures Touched(fs.nodes, run.orig, change, specs[change.link])
    ensures OwnScratch(fs.nodes, run.start, pending[|changes|], change.backup)
    ensures ok ==> change.link !in fs.nodes && (change.backup.Some? ==> change.backup.value in fs.nodes)
    ensures change.backup.Some? ==> change.backup.value.Rollback?
    ensures Same(fs.nodes, old(fs.nodes), pending[|changes|].next)
    ensures run.start <= fs.nextId
    ensures fs.log == old(fs.log) || fs.log == old(fs.log) + [Snapshot(fs.nodes, false)]
    ensures Kept(fs.nodes, run.orig, specs, grown)
    ensures fs.faults >= old(fs.faults) && (!ok ==> fs.faults > old(fs.faults))
  {
    var entry := pending[|changes|];
    ghost var before := fs.nodes;
    assert GoodEntry(entry, specs, run) && Same(before, run.orig, entry.link);
    ok, change, grown := true, Change(entry.link, None), backups;
    if entry.link in fs.nodes {
      var id := fs.Uuid();
      var backup := Rollback(entry.link, id);
      change := Change(entry.link, Some(backup));
      grown := backups[entry.link := backup];
      MidGrow(before, run, specs, pending, changes, backups, change, grown);
      ok := fs.Rename(entry.link, backup);
      if ok {
        MovedAside(before, fs.nodes, run.orig, run.start, entry, backup, specs[entry.link]);
      }
      MidStep(before, fs.nodes, run, specs, pending, changes + [change], grown, |changes|);
      if ok {
        ok := fs.MayFail();  // fsync of the parent
      }
    } else {
      MidGrow(before, run, specs, pending, changes, backups, change, grown);
      MidStep(before, before, run, specs, pending, changes + [change], grown, |changes|);
    }
  }

  /** The managed link of the last change takes its place. */
  method Place(fs: FileSystem, specs: Specifications, pending: seq<Pending>, ghost changes: seq<Change>,
               ghost backups: map<Path, Path>, ghost run: Run, i: nat)
    returns (ok: bool)
    requires MidState(fs.nodes, run, specs, pending, changes, backups) && i < |changes|
    requires Touched(fs.nodes, run.orig, changes[i], specs[changes[i].link])
    requires OwnScratch(fs.nodes, run.start, pending[i], changes[i].backup)
    requires pending[i].link !in fs.nodes && (changes[i].backup.Some? ==> changes[i].backup.value in fs.nodes)
    requires pending[i].next in fs.nodes && fs.nodes[pending[i].next] == Symlink(specs[pending[i].link])
    requires !fs.committed
    modifies fs`nodes, fs`log, fs`faults
    ensures MidState(fs.nodes, run, specs, pending, changes, backups)
    ensures SameForOthers(old(fs.nodes), fs.nodes, pending, changes, i)
    ensures Touched(fs.nodes, run.orig, changes[i], specs[changes[i].link])
    ensures ok ==> Active(fs.nodes, run.orig, changes[i], specs[changes[i].link]) && pending[i].next !in fs.nodes
    ensures fs.log == old(fs.log) + [Snapshot(fs.nodes, false)]
    ensures Kept(fs.nodes, run.orig, specs, backups)
    ensures fs.faults >= old(fs.faults) && (!ok ==> fs.faults > old(fs.faults))
  {
    ghost var before := fs.nodes;
    assert GoodEntry(pending[i], specs, run) && changes[i].link == pending[i].link;
    ok := fs.Rename(pending[i].next, pending[i].link);
    if ok {
      PlaceStep(before, fs.nodes, run, specs, pending, changes, backups, i);
      ok := fs.MayFail();  // fsync of the parent
    } else {
      MidStateKeeps(before, run, specs, pending, changes, backups);
    }
  }

  lemma PlaceStep(before: Nodes, after: Nodes, run: Run, specs: Specifications, pending: seq<Pending>,
                  changes: seq<Change>, backups: map<Path, Path>, i: nat)
    requires MidState(before, run, specs, pending, changes, backups) && i < |changes|
    requires Touched(before, run.orig, changes[i], specs[changes[i].link])
    requires OwnScratch(before, run.start, pending[i], changes[i].backup)
    requires pending[i].link !in before && (changes[i].backup.Some? ==> changes[i].backup.value in before)
    requires pending[i].next in before && before[pending[i].next] == Symlink(specs[pending[i].link])
    requires after == before[pending[i].link := before[pending[i].next]] - {pending[i].next}
    ensures MidState(after, run, specs, pending, changes, backups)
    ensures SameForOthers(before, after, pending, changes, i)
    ensures Active(after, run.orig, changes[i], specs[changes[i].link]) && pending[i].next !in after
    ensures Kept(after, run.orig, specs, backups)
  {
    var entry := pending[i];
    assert GoodEntry(entry, specs, run) && changes[i].link == entry.link;
    PutInPlace(before, after, run.orig, run.start, entry, changes[i], specs[entry.link]);
    MidStep(before, after, run, specs, pending, changes, backups, i);
  }

  /** One link: the original is moved to its backup path, then the managed link takes its place. */
  method SwapOne(fs: FileSystem, specs: Specifications, pending: seq<Pending>, changes: seq<Change>,
                 ghost backups: map<Path, Path>, ghost run: Run)
    returns (ok: bool, change: Change, ghost grown: map<Path, Path>)
    requires SwapState(fs.nodes, run, specs, pending, changes, backups) && |changes| < |pending|
    requires run.start <= fs.nextId && !fs.committed
    modifies fs`nodes, fs`log, fs`faults, fs`nextId
    ensures change.link == pending[|changes|].link
    ensures grown == if change.backup.Some? then backups[change.link := change.backup.value] else backups
    ensures Interrupted(fs.nodes, run, specs, pending, changes + [change], grown)
    ensures ok ==> SwapState(fs.nodes, run, specs, pending, changes + [change], grown)
    ensures run.start <= fs.nextId
    ensures old(fs.log) <= fs.log && LogUncommitted(fs.log, |old(fs.log)|)
    ensures LogKept(fs.log, |old(fs.log)|, run.orig, specs, grown)
    ensures fs.faults >= old(fs.faults) && (!ok ==> fs.faults > old(fs.faults))
  {
    ghost var nodes0 := fs.nodes;
    ok, change, grown := MoveAside(fs, specs, pending, changes, backups, run);
    ghost var nodes1, all, log1 := fs.nodes, changes + [change], fs.log;
    assert all[|changes|] == change;
    if ok {
      ok := Place(fs, specs, pending, all, grown, run, |changes|);
      ComposeOthers(nodes0, nodes1, fs.nodes, pending, all, |changes|);
    }
    SnapshotsKept(old(fs.log), log1, fs.log, nodes1, fs.nodes, run.orig, specs, grown);
    InterruptedGrows(nodes0, fs.nodes, run, specs, pending, changes, backups, change, grown);
  }

  lemma SnapshotsKept(log0: seq<Snapshot>, log1: seq<Snapshot>, log2: seq<Snapshot>, nodes1: Nodes, nodes2: Nodes,
                      orig: Nodes, specs: Specifications, backups: map<Path, Path>)
    requires log1 == log0 || log1 == log0 + [Snapshot(nodes1, false)]
    requires log2 == log1 || log2 == log1 + [Snapshot(nodes2, false)]
    requires Kept(nodes1, orig, specs, backups) && Kept(nodes2, orig, specs, backups)
    ensures log0 <= log2 && LogUncommitted(log2, |log0|) && LogKept(log2, |log0|, orig, specs, backups)
  {
  }

  lemma ComposeOthers(a: Nodes, b: Nodes, c: Nodes, pending: seq<Pending>, changes: seq<Change>, i: nat)
    requires SameForOthers(a, b, pending, changes, i) && SameForOthers(b, c, pending, changes, i)
    ensures SameForOthers(a, c, pending, changes, i)
  {
  }

  /** The forward loop: it stops at the first step that fails. */
  method Swap(fs: FileSystem, specs: Specifications, pending: seq<Pending>, ghost run: Run)
    returns (ok: bool, changes: seq<Change>, ghost backups: map<Path, Path>)
    requires SwapState(fs.nodes, run, specs, pending, [], map[])
    requires run.start <= fs.nextId && !fs.committed
    modifies fs`nodes, fs`log, fs`faults, fs`nextId
    ensures Interrupted(fs.nodes, run, specs, pending, changes, backups)
    ensures ok ==> |changes| == |pending| && SwapState(fs.nodes, run, specs, pending, changes, backups)
    ensures old(fs.log) <= fs.log && LogUncommitted(fs.log, |old(fs.log)|)
    ensures LogKept(fs.log, |old(fs.log)|, run.orig, specs, backups)
    ensures fs.faults >= old(fs.faults) && (!ok ==> fs.faults > old(fs.faults))
  {
    ok, changes, backups := true, [], map[];
    while |changes| < |pending| && ok
      invariant |changes| <= |pending|
      invariant Interrupted(fs.nodes, run, specs, pending, changes, backups)
      invariant fs.faults >= old(fs.faults) && (!ok ==> fs.faults > old(fs.faults))
      invariant ok ==> SwapState(fs.nodes, run, specs, pending, changes, backups)
      invariant run.start <= fs.nextId
      invariant old(fs.log) <= fs.log && LogUncommitted(fs.log, |old(fs.log)|)
      invariant LogKept(fs.log, |old(fs.log)|, run.orig, specs, backups)
      decreases |pending| - |changes|, ok
    {
      ghost var log0, backups0 := fs.log, backups;
      assert pending[|changes|].link !in backups;
      var change;
      ok, change, backups := SwapOne(fs, specs, pending, changes, backups, run);
      LogExtends(log0, fs.log, |old(fs.log)|, run.orig, specs, backups0, backups);
      changes := changes + [change];
    }
  }

  lemma LogExtends(log0: seq<Snapshot>, log: seq<Snapshot>, from: nat, orig: Nodes, specs: Specifications,
                   backups: map<Path, Path>, grown: map<Path, Path>)
    requires from <= |log0| && log0 <= log
    requires LogKept(log0, from, orig, specs, backups)
    requires LogKept(log, |log0|, orig, specs, grown)
    requires forall l :: l in backups ==> l in grown && grown[l] == backups[l]
    ensures LogKept(log, from, orig, specs, grown)
  {
    forall i | from <= i < |log0| && !log[i].committed ensures Kept(log[i].nodes, orig, specs, grown) {
      assert log[i] == log0[i];
    }
  }

  lemma OwnScratchOf(nodes: Nodes, run: Run, specs: Specifications, pending: seq<Pending>,
                     changes: seq<Change>, backups: map<Path, Path>, i: nat)
    requires MidState(nodes, run, specs, pending, changes, backups) && i < |changes|
    ensures OwnScratch(nodes, run.start, pending[i], changes[i].backup)
    ensures GoodEntry(pending[i], specs, run) && changes[i].link == pending[i].link
    ensures changes[i].backup.Some? ==>
              changes[i].backup.value.Rollback? && changes[i].backup.value.of == pending[i].link
              && changes[i].backup.value.id >= run.start
  {
    var c := changes[i];
    assert c.link == pending[i].link && run.slot[c.link] == i;
    assert c.link in backups ==> c.backup.Some?;
  }

  lemma OwnScratchStays(before: Nodes, after: Nodes, start: nat, entry: Pending, backup: Option<Path>)
    requires OwnScratch(before, start, entry, backup)
    requires forall p :: p != entry.link && backup != Some(p) ==> Same(after, before, p)
    requires entry.link.Named?
    ensures OwnScratch(after, start, entry, backup)
  {
    forall p | p in after && Scratch(p, start) && p.of == entry.link && backup != Some(p)
      ensures p == entry.next && after[p].Symlink?
    {
      assert Same(after, before, p);
    }
  }

  /** After a step that touched one link's own names only, the whole state is sound if that link is. */
  lemma OneUndone(before: Nodes, after: Nodes, run: Run, specs: Specifications, pending: seq<Pending>,
                  changes: seq<Change>, backups: map<Path, Path>, i: nat)
    requires MidState(before, run, specs, pending, changes, backups) && i < |changes|
    requires forall p :: p != changes[i].link && changes[i].backup != Some(p) ==> Same(after, before, p)
    requires || Touched(after, run.orig, changes[i], specs[changes[i].link])
             || Settled(after, run.orig, changes[i], specs[changes[i].link])
    ensures MidState(after, run, specs, pending, changes, backups)
    ensures SameForOthers(before, after, pending, changes, i)
    ensures Kept(after, run.orig, specs, backups)
  {
    OwnScratchOf(before, run, specs, pending, changes, backups, i);
    OwnScratchStays(before, after, run.start, pending[i], changes[i].backup);
    MidStep(before, after, run, specs, pending, changes, backups, i);
  }

  /** The first case: the original is at its backup path and comes back in one operation. */
  method RestoreOne(fs: FileSystem, specs: Specifications, pending: seq<Pending>, changes: seq<Change>,
                    ghost backups: map<Path, Path>, ghost run: Run, i: nat)
    returns (ok: bool)
    requires MidState(fs.nodes, run, specs, pending, changes, backups) && i < |changes|
    requires Touched(fs.nodes, run.orig, changes[i], specs[changes[i].link])
    requires changes[i].backup.Some? && changes[i].backup.value in fs.nodes && !fs.committed
    modifies fs`nodes, fs`log, fs`faults
    ensures forall p :: p != changes[i].link && changes[i].backup != Some(p) ==> Same(fs.nodes, old(fs.nodes), p)
    ensures if ok then Settled(fs.nodes, run.orig, changes[i], specs[changes[i].link]) else fs.nodes == old(fs.nodes)
    ensures old(fs.log) <= fs.log && LogUncommitted(fs.log, |old(fs.log)|)
    ensures LogKept(fs.log, |old(fs.log)|, run.orig, specs, backups)
    ensures fs.faults >= old(fs.faults) && (!ok ==> fs.faults > old(fs.faults))
  {
    ghost var before := fs.nodes;
    OwnScratchOf(before, run, specs, pending, changes, backups, i);
    ok := RestoreReplaced(fs, changes[i].backup.value, changes[i].link);
    forall k | |old(fs.log)| <= k < |fs.log| ensures Kept(fs.log[k].nodes, run.orig, specs, backups) {
      RestoreKeeps(before, fs.log[k], run, specs, pending, changes, backups, i);
    }
  }

  /** The third case: there was nothing at the link, so the managed link goes, and nothing else does. */
  method RemoveOne(fs: FileSystem, specs: Specifications, ghost pending: seq<Pending>, changes: seq<Change>,
                   ghost backups: map<Path, Path>, ghost run: Run, i: nat)
    returns (ok: bool)
    requires MidState(fs.nodes, run, specs, pending, changes, backups) && i < |changes|
    requires Touched(fs.nodes, run.orig, changes[i], specs[changes[i].link])
    requires changes[i].backup.None? && changes[i].link.Named? && !fs.committed
    modifies fs`nodes, fs`log, fs`faults
    ensures fs.nodes == old(fs.nodes) || fs.nodes == old(fs.nodes) - {changes[i].link}
    ensures ok ==> Settled(fs.nodes, run.orig, changes[i], specs[changes[i].link])
    ensures old(fs.log) <= fs.log && LogUncommitted(fs.log, |old(fs.log)|)
    ensures LogKept(fs.log, |old(fs.log)|, run.orig, specs, backups)
    ensures fs.faults >= old(fs.faults) && (!ok ==> fs.faults > old(fs.faults))
  {
    var link := changes[i].link;
    ok := link !in fs.nodes || fs.nodes[link] == Symlink(specs[link]);
    if link in fs.nodes && ok {
      ghost var before := fs.nodes;
      var r := fs.Unlink(link);
      ok := r.Removed?;
      MidStateKeepsAfter(before, fs.nodes, run, specs, pending, changes, backups, i);
    }
  }

  /** Undo one change. The three cases are the ones the source tells apart. */
  method RollBackOne(fs: FileSystem, specs: Specifications, pending: seq<Pending>, changes: seq<Change>,
                     ghost backups: map<Path, Path>, ghost run: Run, i: nat)
    returns (ok: bool)
    requires MidState(fs.nodes, run, specs, pending, changes, backups) && i < |changes|
    requires Touched(fs.nodes, run.orig, changes[i], specs[changes[i].link])
    requires !fs.committed
    modifies fs`nodes, fs`log, fs`faults
    ensures MidState(fs.nodes, run, specs, pending, changes, backups)
    ensures SameForOthers(old(fs.nodes), fs.nodes, pending, changes, i)
    ensures ok ==> Settled(fs.nodes, run.orig, changes[i], specs[changes[i].link])
    ensures old(fs.log) <= fs.log && LogUncommitted(fs.log, |old(fs.log)|)
    ensures LogKept(fs.log, |old(fs.log)|, run.orig, specs, backups)
    ensures fs.faults >= old(fs.faults) && (!ok ==> fs.faults > old(fs.faults))
  {
    var c := changes[i];
    ghost var before := fs.nodes;
    LinkIsNamed(before, run, specs, pending, changes, backups, i);
    if c.backup.None? {
      ok := RemoveOne(fs, specs, pending, changes, backups, run, i);
    } else if c.backup.value in fs.nodes {
      ok := RestoreOne(fs, specs, pending, changes, backups, run, i);
    } else {
      ok := c.link in fs.nodes && fs.nodes[c.link] != Symlink(specs[c.link]);
    }
    OneUndone(before, fs.nodes, run, specs, pending, changes, backups, i);
    if ok {
      ok := fs.MayFail();  // fsync of the parent
    }
  }

  lemma LinkIsNamed(nodes: Nodes, run: Run, specs: Specifications, pending: seq<Pending>, changes: seq<Change>,
                    backups: map<Path, Path>, i: nat)
    requires MidState(nodes, run, specs, pending, changes, backups) && i < |changes|
    ensures changes[i].link.Named? && changes[i].link in specs
    ensures changes[i].backup.Some? ==> changes[i].link in run.orig && run.orig[changes[i].link] != Symlink(specs[changes[i].link])
  {
    assert changes[i].link == pending[i].link && GoodEntry(pending[i], specs, run);
  }

  lemma MidStateKeepsAfter(before: Nodes, after: Nodes, run: Run, specs: Specifications, pending: seq<Pending>,
                           changes: seq<Change>, backups: map<Path, Path>, i: nat)
    requires MidState(before, run, specs, pending, changes, backups) && i < |changes|
    requires changes[i].link !in run.orig && changes[i].link.Named?
    requires after == before || after == before - {changes[i].link}
    ensures Kept(after, run.orig, specs, backups)
  {
    MidStateKeeps(before, run, specs, pending, changes, backups);
  }

  lemma RestoreKeeps(before: Nodes, s: Snapshot, run: Run, specs: Specifications, pending: seq<Pending>,
                     changes: seq<Change>, backups: map<Path, Path>, i: nat)
    requires MidState(before, run, specs, pending, changes, backups) && i < |changes|
    requires Touched(before, run.orig, changes[i], specs[changes[i].link])
    requires changes[i].backup.Some? && changes[i].backup.value in before
    requires RestoreStep(s, before, s.committed, changes[i].backup.value, changes[i].link)
    ensures Kept(s.nodes, run.orig, specs, backups)
  {
    MidStateKeeps(before, run, specs, pending, changes, backups);
    var link := changes[i].link;
    assert changes[i].link == pending[i].link && GoodEntry(pending[i], specs, run);
    forall l | l in specs && l in run.orig && l != link
      ensures Same(s.nodes, before, l) && (l in backups ==> Same(s.nodes, before, backups[l]))
    {
    }
  }

  /** The rollback loop, last change first: a failing step is recorded and the loop goes on. */
  method RollBack(fs: FileSystem, specs: Specifications, pending: seq<Pending>, changes: seq<Change>,
                  ghost backups: map<Path, Path>, ghost run: Run)
    returns (complete: bool, ghost failed: set<nat>)
    requires Interrupted(fs.nodes, run, specs, pending, changes, backups) && !fs.committed
    modifies fs`nodes, fs`log, fs`faults
    ensures MidState(fs.nodes, run, specs, pending, changes, backups)
    ensures forall j: nat :: j < |changes| && j !in failed ==>
              Settled(fs.nodes, run.orig, changes[j], specs[changes[j].link])
    ensures |failed| <= fs.faults - old(fs.faults) && (complete <==> failed == {})
    ensures old(fs.log) <= fs.log && LogUncommitted(fs.log, |old(fs.log)|)
    ensures LogKept(fs.log, |old(fs.log)|, run.orig, specs, backups)
  {
    complete, failed := true, {};
    var k := |changes|;
    while k > 0
      invariant 0 <= k <= |changes| && Undone(fs.nodes, run.orig, specs, changes, k, failed)
      invariant |failed| <= fs.faults - old(fs.faults) && (complete <==> failed == {})
      invariant MidState(fs.nodes, run, specs, pending, changes, backups)
      invariant old(fs.log) <= fs.log && LogUncommitted(fs.log, |old(fs.log)|)
      invariant LogKept(fs.log, |old(fs.log)|, run.orig, specs, backups)
    {
      k := k - 1;
      ghost var before, log0 := fs.nodes, fs.log;
      var ok := RollBackOne(fs, specs, pending, changes, backups, run, k);
      LogExtends(log0, fs.log, |old(fs.log)|, run.orig, specs, backups, backups);
      UndoneNext(before, fs.nodes, run, specs, pending, changes, backups, k, failed, ok);
      complete := complete && ok;
      failed := if ok then failed else failed + {k};
    }
  }

  /** Down to change k the rollback has settled every change except the failed ones; the others wait. */
  ghost predicate Undone(nodes: Nodes, orig: Nodes, specs: Specifications, changes: seq<Change>, k: nat, failed: set<nat>) {
    && (forall j :: 0 <= j < |changes| ==> changes[j].link in specs)
    && (forall j :: 0 <= j < |changes| && j < k ==> Touched(nodes, orig, changes[j], specs[changes[j].link]))
    && (forall j: nat :: k <= j < |changes| && j !in failed ==> Settled(nodes, orig, changes[j], specs[changes[j].link]))
    && forall j :: j in failed ==> k <= j
  }

  lemma UndoneNext(before: Nodes, after: Nodes, run: Run, specs: Specifications, pending: seq<Pending>,
                   changes: seq<Change>, backups: map<Path, Path>, k: nat, failed: set<nat>, ok: bool)
    requires GoodPending(pending, specs, run) && GoodChanges(changes, pending, run, backups) && k < |changes|
    requires Undone(before, run.orig, specs, changes, k + 1, failed) && SameForOthers(before, after, pending, changes, k)
    requires ok ==> Settled(after, run.orig, changes[k], specs[changes[k].link])
    ensures Undone(after, run.orig, specs, changes, k, if ok then failed else failed + {k}) && k !in failed
  {
    RolledOver(before, after, run, specs, pending, changes, backups, k);
  }

  lemma RolledOver(before: Nodes, after: Nodes, run: Run, specs: Specifications, pending: seq<Pending>,
                   changes: seq<Change>, backups: map<Path, Path>, k: nat)
    requires GoodPending(pending, specs, run) && GoodChanges(changes, pending, run, backups) && k < |changes|
    requires SameForOthers(before, after, pending, changes, k)
    ensures forall j :: 0 <= j < |changes| && j != k && Touched(before, run.orig, changes[j], specs[changes[j].link]) ==>
              Touched(after, run.orig, changes[j], specs[changes[j].link])
    ensures forall j :: 0 <= j < |changes| && j != k && Settled(before, run.orig, changes[j], specs[changes[j].link]) ==>
              Settled(after, run.orig, changes[j], specs[changes[j].link])
  {
    forall j | 0 <= j < |changes| && j != k
      ensures Same(after, before, changes[j].link)
      ensures changes[j].backup.Some? ==> Same(after, before, changes[j].backup.value)
    {
      assert changes[j].link == pending[j].link && Same(after, before, pending[j].link);
    }
  }

  /** verify_compatibility_links: every link holds its text and leads to an existing target. */
  method VerifyLinks(fs: FileSystem, specs: Specifications, there: Existence) returns (ok: bool)
    modifies fs`faults
    ensures ok ==> AllActive(fs.nodes, specs) && AllThere(fs.nodes, specs, there)
    ensures fs.faults >= old(fs.faults)
    ensures !ok && AllActive(fs.nodes, specs) && AllThere(fs.nodes, specs, there) ==> fs.faults > old(fs.faults)
  {
    ok := true;
    var todo := specs.Keys;
    while todo != {} && ok
      invariant todo <= specs.Keys && fs.faults >= old(fs.faults)
      invariant !ok && AllActive(fs.nodes, specs) && AllThere(fs.nodes, specs, there) ==> fs.faults > old(fs.faults)
      invariant ok ==> forall l :: l in specs && l !in todo ==>
                  l in fs.nodes && fs.nodes[l] == Symlink(specs[l]) && there(fs.nodes, specs[l])
      decreases todo, ok
    {
      var l :| l in todo;
      ok := l in fs.nodes && fs.nodes[l] == Symlink(specs[l]) && there(fs.nodes, specs[l]);
      if ok {
        ok := fs.MayFail();  // reading the link
      }
      todo := todo - {l};
    }
  }

  /** Replaced originals are deleted only now; what cannot be deleted is left with a warning. */
  method RemoveBackups(fs: FileSystem, specs: Specifications, changes: seq<Change>, start: nat)
    requires fs.committed && AllActive(fs.nodes, specs) && GoodSpecs(specs)
    requires forall j :: 0 <= j < |changes| && changes[j].backup.Some? ==>
               changes[j].backup.value.Rollback? && changes[j].backup.value.id >= start
    modifies fs`nodes, fs`log, fs`faults
    ensures AllActive(fs.nodes, specs)
    ensures forall p: Path :: !(p.Rollback? && p.id >= start) ==> Same(fs.nodes, old(fs.nodes), p)
    ensures forall p :: p in fs.nodes ==> p in old(fs.nodes)
    ensures old(fs.log) <= fs.log && LogActive(fs.log, |old(fs.log)|, specs)
    ensures forall i :: |old(fs.log)| <= i < |fs.log| ==> fs.log[i].committed
    ensures fs.faults >= old(fs.faults)
  {
    var j := 0;
    while j < |changes|
      invariant 0 <= j <= |changes| && fs.faults >= old(fs.faults)
      invariant AllActive(fs.nodes, specs)
      invariant forall p: Path :: !(p.Rollback? && p.id >= start) ==> Same(fs.nodes, old(fs.nodes), p)
      invariant forall p :: p in fs.nodes ==> p in old(fs.nodes)
      invariant old(fs.log) <= fs.log && LogActive(fs.log, |old(fs.log)|, specs)
      invariant forall i :: |old(fs.log)| <= i < |fs.log| ==> fs.log[i].committed
    {
      var c := changes[j];
      if c.backup.Some? && c.backup.value in fs.nodes && c.link in fs.nodes {
        var removed := RemoveReplaced(fs, c.backup.value);
        if removed {
          var synced := fs.MayFail();
        }
      }
      j := j + 1;
    }
  }

  /** The finally clause: unused .next-* names are removed, and a missing one is no error. */
  method UnlinkPrepared(fs: FileSystem, prepared: seq<Path>) returns (ok: bool)
    requires forall j :: 0 <= j < |prepared| ==> prepared[j].Next?
    requires forall j :: 0 <= j < |prepared| && prepared[j] in fs.nodes ==> fs.nodes[prepared[j]].Symlink?
    modifies fs`nodes, fs`log, fs`faults
    ensures forall p :: p !in prepared ==> Same(fs.nodes, old(fs.nodes), p)
    ensures forall p :: p in fs.nodes ==> p in old(fs.nodes) && fs.nodes[p] == old(fs.nodes)[p]
    ensures ok ==> forall p :: p in prepared ==> p !in fs.nodes
    ensures old(fs.log) <= fs.log
    ensures forall i :: |old(fs.log)| <= i < |fs.log| ==>
              && fs.log[i].committed == fs.committed
              && forall p :: p !in prepared ==> Same(fs.log[i].nodes, old(fs.nodes), p)
    ensures fs.faults >= old(fs.faults) && (!ok ==> fs.faults > old(fs.faults))
  {
    ok := true;
    var j := 0;
    while j < |prepared| && ok
      invariant 0 <= j <= |prepared|
      invariant fs.faults >= old(fs.faults) && (!ok ==> fs.faults > old(fs.faults))
      invariant forall p :: p !in prepared ==> Same(fs.nodes, old(fs.nodes), p)
      invariant forall p :: p in fs.nodes ==> p in old(fs.nodes) && fs.nodes[p] == old(fs.nodes)[p]
      invariant ok ==> forall k :: 0 <= k < j ==> prepared[k] !in fs.nodes
      invariant old(fs.log) <= fs.log
      invariant forall i :: |old(fs.log)| <= i < |fs.log| ==>
                  && fs.log[i].committed == fs.committed
                  && forall p :: p !in prepared ==> Same(fs.log[i].nodes, old(fs.nodes), p)
    {
      var r := fs.Unlink(prepared[j]);
      ok := !r.Failed?;
      j := j + 1;
    }
  }

  /** What the transaction promises about the state it leaves. */
  ghost predicate Postcondition(outcome: Outcome, nodes: Nodes, orig: Nodes, specs: Specifications, start: nat,
                                replaceUnmanaged: bool) {
    match outcome.Base()
    case Activated =>
      && AllActive(nodes, specs)
      && (forall p :: !Scratch(p, start) && p !in specs ==> Same(nodes, orig, p))
      && (!replaceUnmanaged ==> forall l :: l in specs && l in orig ==> orig[l] == Symlink(specs[l]))
    case Refused => nodes == orig
    case RolledBack => Restored(nodes, orig, specs, start, outcome.CleanupFailed?)
    case RollbackIncomplete =>
      forall p :: !Scratch(p, start) && p !in specs ==> Same(nodes, orig, p)
    case CleanupFailed(_) => false
  }

  lemma PreparedIsSwapState(nodes: Nodes, run: Run, specs: Specifications, pending: seq<Pending>, prepared: seq<Path>)
    requires GoodPending(pending, specs, run) && PreparedState(nodes, run, specs, pending, prepared)
    requires |prepared| == |pending|
    ensures SwapState(nodes, run, specs, pending, [], map[])
  {
    forall p | p in nodes && Scratch(p, run.start) && p.Next?
      ensures p.of in run.slot && pending[run.slot[p.of]].next == p && nodes[p].Symlink?
    {
      var j :| 0 <= j < |prepared| && prepared[j] == p;
      assert GoodEntry(pending[j], specs, run);
    }
    forall p: Path | p.Rollback? && p.id >= run.start ensures p !in nodes {
      assert Same(nodes, run.orig, p);
    }
    forall l | l in specs ensures Same(nodes, run.orig, l) {
    }
  }

  lemma SettledIsRestored(nodes: Nodes, run: Run, specs: Specifications, pending: seq<Pending>,
                          changes: seq<Change>, backups: map<Path, Path>)
    requires MidState(nodes, run, specs, pending, changes, backups)
    requires forall j :: 0 <= j < |changes| ==> Settled(nodes, run.orig, changes[j], specs[changes[j].link])
    ensures Restored(nodes, run.orig, specs, run.start, true)
  {
    forall l | l in specs ensures Same(nodes, run.orig, l) {
      if l in run.slot && run.slot[l] < |changes| {
        assert changes[run.slot[l]].link == l;
      }
    }
    forall p: Path | p in nodes && p.Rollback? && p.id >= run.start
      ensures p.of in specs && nodes[p] == Symlink(specs[p.of])
    {
      assert Scratch(p, run.start);
      var j := run.slot[p.of];
      assert GoodEntry(pending[j], specs, run);
      assert changes[j].link == p.of;
    }
  }

  /** Removing .next-* names neither loses an original nor undoes a managed link. */
  lemma UnlinkKeeps(log1: seq<Snapshot>, log: seq<Snapshot>, nodes1: Nodes, prepared: seq<Path>,
                    orig: Nodes, specs: Specifications, backups: map<Path, Path>)
    requires log1 <= log && GoodSpecs(specs)
    requires forall j :: 0 <= j < |prepared| ==> prepared[j].Next?
    requires forall l :: l in backups ==> backups[l].Rollback?
    requires forall i :: |log1| <= i < |log| ==> forall p :: p !in prepared ==> Same(log[i].nodes, nodes1, p)
    ensures Kept(nodes1, orig, specs, backups) ==> LogKept(log, |log1|, orig, specs, backups)
    ensures AllActive(nodes1, specs) ==> LogActive(log, |log1|, specs)
  {
    forall i | |log1| <= i < |log|
      ensures forall p: Path :: !p.Next? ==> Same(log[i].nodes, nodes1, p)
    {
      forall p: Path | !p.Next? ensures Same(log[i].nodes, nodes1, p) {
        assert p !in prepared;
      }
    }
    forall i, l | |log1| <= i < |log| && l in specs
      ensures Same(log[i].nodes, nodes1, l) && (l in backups ==> Same(log[i].nodes, nodes1, backups[l]))
    {
    }
  }

  lemma LogActiveExtends(log0: seq<Snapshot>, log: seq<Snapshot>, from: nat, specs: Specifications)
    requires from <= |log0| && log0 <= log
    requires LogActive(log0, from, specs) && LogActive(log, |log0|, specs)
    ensures LogActive(log, from, specs)
  {
    forall i | from <= i < |log0| && log[i].committed ensures AllActive(log[i].nodes, specs) {
      assert log[i] == log0[i];
    }
  }

  /** The except clause: the whole rollback, and what it says about the state left behind. */
  method Recover(fs: FileSystem, specs: Specifications, pending: seq<Pending>, changes: seq<Change>,
                 ghost backups: map<Path, Path>, ghost run: Run)
    returns (outcome: Outcome)
    requires Interrupted(fs.nodes, run, specs, pending, changes, backups) && !fs.committed
    modifies fs`nodes, fs`log, fs`faults
    ensures outcome in {RolledBack, RollbackIncomplete}
    ensures MidState(fs.nodes, run, specs, pending, changes, backups)
    ensures outcome == RolledBack ==> Restored(fs.nodes, run.orig, specs, run.start, true)
    ensures Kept(fs.nodes, run.orig, specs, backups)
    ensures old(fs.log) <= fs.log && LogUncommitted(fs.log, |old(fs.log)|)
    ensures LogKept(fs.log, |old(fs.log)|, run.orig, specs, backups)
    ensures fs.faults >= old(fs.faults) && (outcome == RollbackIncomplete ==> fs.faults > old(fs.faults))
  {
    var complete;
    ghost var failed;
    complete, failed := RollBack(fs, specs, pending, changes, backups, run);
    MidStateKeeps(fs.nodes, run, specs, pending, changes, backups);
    if complete {
      SettledIsRestored(fs.nodes, run, specs, pending, changes, backups);
    }
    outcome := if complete then RolledBack else RollbackIncomplete;
  }

  /** The set is verified: it becomes the one to keep, and the originals may go. */
  method Conclude(fs: FileSystem, specs: Specifications, pending: seq<Pending>, changes: seq<Change>, start: nat,
                  ghost backups: map<Path, Path>, ghost run: Run)
    requires MidState(fs.nodes, run, specs, pending, changes, backups) && start == run.start
    requires AllActive(fs.nodes, specs)
    modifies fs
    ensures fs.committed && AllActive(fs.nodes, specs) && OwnNexts(fs.nodes, run, pending)
    ensures forall p :: !Scratch(p, run.start) && p !in specs ==> Same(fs.nodes, run.orig, p)
    ensures old(fs.log) <= fs.log && LogActive(fs.log, |old(fs.log)|, specs)
    ensures forall i :: |old(fs.log)| <= i < |fs.log| ==> fs.log[i].committed
    ensures fs.faults >= old(fs.faults)
  {
    ghost var before := fs.nodes;
    fs.Commit();
    BackupsAreScratch(before, run, specs, pending, changes, backups);
    RemoveBackups(fs, specs, changes, start);
    RemovalFrames(before, fs.nodes, run, specs, pending, changes, backups);
  }

  lemma BackupsAreScratch(nodes: Nodes, run: Run, specs: Specifications, pending: seq<Pending>, changes: seq<Change>,
                          backups: map<Path, Path>)
    requires MidState(nodes, run, specs, pending, changes, backups)
    ensures forall j :: 0 <= j < |changes| && changes[j].backup.Some? ==>
              changes[j].backup.value.Rollback? && changes[j].backup.value.id >= run.start
  {
    forall j | 0 <= j < |changes| && changes[j].backup.Some?
      ensures changes[j].backup.value.Rollback? && changes[j].backup.value.id >= run.start
    {
      assert changes[j].link in backups;
    }
  }

  /** Taking backups away touches neither other paths nor the .next-* names. */
  lemma RemovalFrames(before: Nodes, after: Nodes, run: Run, specs: Specifications, pending: seq<Pending>,
                      changes: seq<Change>, backups: map<Path, Path>)
    requires MidState(before, run, specs, pending, changes, backups)
    requires forall p: Path :: !(p.Rollback? && p.id >= run.start) ==> Same(after, before, p)
    ensures OwnNexts(after, run, pending)
    ensures forall p :: !Scratch(p, run.start) && p !in specs ==> Same(after, run.orig, p)
  {
    forall p | !Scratch(p, run.start) && p !in specs ensures Same(after, run.orig, p) {
      assert Same(before, run.orig, p) && Same(after, before, p);
    }
    forall p | p in after && Scratch(p, run.start) && p.Next?
      ensures p.of in run.slot && pending[run.slot[p.of]].next == p && after[p].Symlink?
    {
      assert Same(after, before, p);
    }
  }

  /** What the outcome says of the nodes that were verified, and how many faults it takes: the links are
      active and lead somewhere, or one of the targets was missing, or there was a fault; an incomplete
      rollback takes one more. */
  ghost predicate Checked(outcome: Outcome, switched: Nodes, specs: Specifications, there: Existence, faults: int) {
    var missing := AllActive(switched, specs) && !AllThere(switched, specs, there);
    && faults >= 0
    && (outcome == Activated ==> AllActive(switched, specs) && AllThere(switched, specs, there))
    && (outcome != Activated ==> faults > 0 || missing)
    && (outcome == RollbackIncomplete ==> faults > 1 || (faults == 1 && missing))
  }

  /** The inner try: swap, verify, and roll back unless both worked. */
  method Switch(fs: FileSystem, specs: Specifications, there: Existence, pending: seq<Pending>, start: nat, ghost run: Run)
    returns (outcome: Outcome, ghost backups: map<Path, Path>, ghost switched: Nodes)
    requires SwapState(fs.nodes, run, specs, pending, [], map[]) && start == run.start
    requires forall l :: l in specs && l !in run.slot ==> l in run.orig && run.orig[l] == Symlink(specs[l])
    requires run.start <= fs.nextId && !fs.committed
    modifies fs
    ensures outcome in {Activated, RolledBack, RollbackIncomplete} && (fs.committed <==> outcome == Activated)
    ensures outcome == Activated ==> AllActive(fs.nodes, specs)
    ensures outcome == RolledBack ==> Restored(fs.nodes, run.orig, specs, run.start, true)
    ensures OwnNexts(fs.nodes, run, pending)
    ensures forall p :: !Scratch(p, run.start) && p !in specs ==> Same(fs.nodes, run.orig, p)
    ensures forall l :: l in backups ==> backups[l].Rollback? && backups[l].of == l && backups[l].id >= run.start
    ensures !fs.committed ==> Kept(fs.nodes, run.orig, specs, backups)
    ensures old(fs.log) <= fs.log && LogKept(fs.log, |old(fs.log)|, run.orig, specs, backups)
    ensures LogActive(fs.log, |old(fs.log)|, specs)
    ensures Checked(outcome, switched, specs, there, fs.faults - old(fs.faults))
    ensures forall p :: !Scratch(p, run.start) && p !in specs ==> Same(switched, run.orig, p)
  {
    ghost var log0 := fs.log;
    var ok, changes;
    ok, changes, backups := Swap(fs, specs, pending, run);
    switched := fs.nodes;
    if ok {
      AllInPlace(fs.nodes, run, specs, pending, changes, backups);
      ok := VerifyLinks(fs, specs, there);
    }
    ghost var log1 := fs.log;
    if ok {
      Conclude(fs, specs, pending, changes, start, backups, run);
      outcome := Activated;
    } else {
      outcome := Recover(fs, specs, pending, changes, backups, run);
    }
    LogActiveExtends(log1, fs.log, |log0|, specs);
    LogExtends(log1, fs.log, |log0|, run.orig, specs, backups, backups);
  }

  lemma AllInPlace(nodes: Nodes, run: Run, specs: Specifications, pending: seq<Pending>,
                   changes: seq<Change>, backups: map<Path, Path>)
    requires SwapState(nodes, run, specs, pending, changes, backups) && |changes| == |pending|
    requires forall l :: l in specs && l !in run.slot ==> l in run.orig && run.orig[l] == Symlink(specs[l])
    ensures AllActive(nodes, specs)
  {
    forall l | l in specs ensures l in nodes && nodes[l] == Symlink(specs[l]) {
      if l in run.slot {
        assert changes[run.slot[l]].link == l;
      } else {
        assert Same(nodes, run.orig, l);
      }
    }
  }

  /** The finally clause turns a failing removal into the raised error. */
  method CleanUp(fs: FileSystem, specs: Specifications, start: nat, prepared: seq<Path>, ghost orig: Nodes, inner: Outcome,
                 ghost backups: map<Path, Path>, ghost replaceUnmanaged: bool, ghost from: nat)
    returns (outcome: Outcome)
    requires GoodSpecs(specs) && IdsBelow(orig, start)
    requires inner in {Activated, RolledBack, RollbackIncomplete} && (fs.committed <==> inner == Activated)
    requires Postcondition(CleanupFailed(inner), fs.nodes, orig, specs, start, replaceUnmanaged)
    requires forall j :: 0 <= j < |prepared| ==> prepared[j].Next? && prepared[j].id >= start
    requires forall j :: 0 <= j < |prepared| && prepared[j] in fs.nodes ==> fs.nodes[prepared[j]].Symlink?
    requires forall p: Path :: p in fs.nodes && p.Next? && p.id >= start ==> p in prepared
    requires forall l :: l in backups ==> backups[l].Rollback?
    requires !fs.committed ==> Kept(fs.nodes, orig, specs, backups)
    requires from <= |fs.log| && LogKept(fs.log, from, orig, specs, backups) && LogActive(fs.log, from, specs)
    modifies fs`nodes, fs`log, fs`faults
    ensures outcome == inner || outcome == CleanupFailed(inner)
    ensures Postcondition(outcome, fs.nodes, orig, specs, start, replaceUnmanaged)
    ensures !outcome.CleanupFailed? ==> forall p: Path :: p.Next? && p in fs.nodes ==> p in orig
    ensures old(fs.log) <= fs.log && LogKept(fs.log, from, orig, specs, backups) && LogActive(fs.log, from, specs)
    ensures !fs.committed ==> Kept(fs.nodes, orig, specs, backups)
    ensures fs.faults >= old(fs.faults) && (outcome.CleanupFailed? ==> fs.faults > old(fs.faults))
  {
    ghost var nodes1, log1 := fs.nodes, fs.log;
    var cleaned := UnlinkPrepared(fs, prepared);
    UnlinkKeeps(log1, fs.log, nodes1, prepared, orig, specs, backups);
    LogExtends(log1, fs.log, from, orig, specs, backups, backups);
    LogActiveExtends(log1, fs.log, from, specs);
    Finish(inner, cleaned, nodes1, fs.nodes, orig, specs, start, replaceUnmanaged, prepared, backups);
    outcome := if cleaned then inner else CleanupFailed(inner);
  }

  /** The outer try: the new links are prepared, then switched. */
  method PrepareAndSwitch(fs: FileSystem, specs: Specifications, there: Existence, pending: seq<Pending>, start: nat,
                          ghost run: Run, ghost replaceUnmanaged: bool)
    returns (inner: Outcome, prepared: seq<Path>, ghost backups: map<Path, Path>, ghost switched: Nodes)
    requires GoodPending(pending, specs, run) && fs.nodes == run.orig && start == run.start <= fs.nextId && !fs.committed
    requires forall l :: l in specs && l !in run.slot ==> l in run.orig && run.orig[l] == Symlink(specs[l])
    requires !replaceUnmanaged ==> forall l :: l in run.slot ==> l !in run.orig
    modifies fs
    ensures inner in {Activated, RolledBack, RollbackIncomplete} && (fs.committed <==> inner == Activated)
    ensures Postcondition(CleanupFailed(inner), fs.nodes, run.orig, specs, start, replaceUnmanaged)
    ensures forall j :: 0 <= j < |prepared| ==> prepared[j].Next? && prepared[j].id >= start
    ensures forall j :: 0 <= j < |prepared| && prepared[j] in fs.nodes ==> fs.nodes[prepared[j]].Symlink?
    ensures forall p: Path :: p in fs.nodes && p.Next? && p.id >= start ==> p in prepared
    ensures forall l :: l in backups ==> backups[l].Rollback? && backups[l].of == l && backups[l].id >= start
    ensures !fs.committed ==> Kept(fs.nodes, run.orig, specs, backups)
    ensures old(fs.log) <= fs.log && LogKept(fs.log, |old(fs.log)|, run.orig, specs, backups)
    ensures LogActive(fs.log, |old(fs.log)|, specs)
    ensures Checked(inner, switched, specs, there, fs.faults - old(fs.faults))
    ensures forall p :: !Scratch(p, start) && p !in specs ==> Same(switched, run.orig, p)
  {
    ghost var log0 := fs.log;
    backups, switched := map[], fs.nodes;
    var ok;
    ok, prepared := Prepare(fs, specs, pending, run);
    assert forall j :: 0 <= j < |prepared| ==> GoodEntry(pending[j], specs, run);
    ghost var log1 := fs.log;
    if ok {
      PreparedIsSwapState(fs.nodes, run, specs, pending, prepared);
      inner, backups, switched := Switch(fs, specs, there, pending, start, run);
      OwnNextsPrepared(fs.nodes, run, specs, pending, prepared);
      LogExtends(log1, fs.log, |log0|, run.orig, specs, map[], backups);
    } else {
      PreparedKeeps(fs.nodes, run, specs, pending, prepared);
      inner := RolledBack;
    }
  }

  /** activate_compatibility_links */
  method ActivateLinks(fs: FileSystem, specs: Specifications, there: Existence, replaceUnmanaged: bool)
    returns (outcome: Outcome, ghost backups: map<Path, Path>, ghost switched: Nodes)
    requires GoodSpecs(specs) && IdsBelow(fs.nodes, fs.nextId) && !fs.committed
    modifies fs
    // the state it leaves
    ensures Postcondition(outcome, fs.nodes, old(fs.nodes), specs, old(fs.nextId), replaceUnmanaged)
    ensures !outcome.CleanupFailed? ==> forall p: Path :: p.Next? && p in fs.nodes ==> p in old(fs.nodes)
    ensures fs.committed <==> outcome.Base().Activated?
    // every state it passes through
    ensures forall l :: l in backups ==> backups[l].Rollback? && backups[l].of == l && backups[l] !in old(fs.nodes)
    ensures old(fs.log) <= fs.log && LogKept(fs.log, |old(fs.log)|, old(fs.nodes), specs, backups)
    ensures LogActive(fs.log, |old(fs.log)|, specs)
    ensures !fs.committed ==> Kept(fs.nodes, old(fs.nodes), specs, backups)
    // the nodes that were verified
    ensures forall p :: !Scratch(p, old(fs.nextId)) && p !in specs ==> Same(switched, old(fs.nodes), p)
    ensures outcome.Base().Activated? ==> AllActive(switched, specs) && AllThere(switched, specs, there)
    // what it takes to get there: without a fault the links are active unless a path is taken or a target
    // missing, and one fault, wherever it strikes after good checks, still leaves a complete rollback
    ensures fs.faults >= old(fs.faults)
    ensures fs.faults == old(fs.faults) ==>
      outcome == (if Occupied(old(fs.nodes), specs, replaceUnmanaged) || !AllReached(old(fs.nodes), specs, there)
                  then Refused
                  else if AllThere(switched, specs, there) then Activated else RolledBack)
    ensures fs.faults == old(fs.faults) && !outcome.Refused? ==> AllActive(switched, specs)
    ensures fs.faults <= old(fs.faults) + 1 && outcome.Base() == RollbackIncomplete ==>
              AllActive(switched, specs) && !AllThere(switched, specs, there)
  {
    ghost var log0, orig := fs.log, fs.nodes;
    var start := fs.nextId;
    var ok, pending;
    ghost var run;
    backups, switched := map[], fs.nodes;
    ok, pending, run := CollectPending(fs, specs, there, replaceUnmanaged);
    if !ok {
      return Refused, backups, switched;
    }
    var prepared;
    outcome, prepared, backups, switched := PrepareAndSwitch(fs, specs, there, pending, start, run, replaceUnmanaged);
    outcome := CleanUp(fs, specs, start, prepared, orig, outcome, backups, replaceUnmanaged, |log0|);
  }

  lemma Finish(inner: Outcome, cleaned: bool, before: Nodes, after: Nodes, orig: Nodes, specs: Specifications,
               start: nat, replaceUnmanaged: bool, prepared: seq<Path>, backups: map<Path, Path>)
    requires GoodSpecs(specs) && IdsBelow(orig, start)
    requires inner in {Activated, RolledBack, RollbackIncomplete}
    requires Postcondition(CleanupFailed(inner), before, orig, specs, start, replaceUnmanaged)
    requires forall p: Path :: p in prepared ==> p.Next? && p.id >= start
    requires forall p: Path :: p in before && p.Next? && p.id >= start ==> p in prepared
    requires forall p :: p !in prepared ==> Same(after, before, p)
    requires forall p :: p in after ==> p in before && after[p] == before[p]
    requires cleaned ==> forall p :: p in prepared ==> p !in after
    requires forall l :: l in backups ==> backups[l].Rollback?
    ensures Postcondition(if cleaned then inner else CleanupFailed(inner), after, orig, specs, start, replaceUnmanaged)
    ensures cleaned ==> forall p: Path :: p.Next? && p in after ==> p in orig
    ensures Kept(before, orig, specs, backups) ==> Kept(after, orig, specs, backups)
  {
    forall p: Path | !(p.Next? && p.id >= start) ensures Same(after, before, p) {
      assert p !in prepared;
    }
    forall l | l in specs
      ensures Same(after, before, l) && (l in backups ==> Same(after, before, backups[l]))
    {
    }
    forall p: Path | p.Next? && p in after && cleaned ensures p in orig {
      assert p !in prepared && p.id < start;
      assert !Scratch(p, start) && p !in specs;
    }
    if inner.RolledBack? {
      forall p: Path | !(p.Rollback? && p.id >= start) && !(!cleaned && p.Next? && p.id >= start)
        ensures Same(after, orig, p)
      {
        if !(p.Next? && p.id >= start) {
          assert Same(before, orig, p);
        }
      }
    }
  }
}
