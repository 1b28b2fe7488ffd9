/** The verdict on a checkout, in terms of the records git lists for a tree. */
module CheckoutRecords {
  import opened Wrappers
  import opened CheckoutTrees
  import opened Checkout

  // ----- the records of a tree

  /** What git lists for a file or link: its mode, its kind, the digest of its object, its size and its path. */
  function RecordOf(e: Entry, path: string, hash: Hash): TreeRecord {
    match e
    case File(executable, content) =>
      TreeRecord(if executable then "100755" else "100644", "blob", hash(ObjectBytes(content)), Some(|content|), path)
    case Link(target) => TreeRecord("120000", "blob", hash(ObjectBytes(target)), Some(|target|), path)
    case _ => Malformed
  }

  /** The record is that of the file or link the tree has at its path. */
  ghost predicate RecordIn(t: TreeRecord, tree: Entry, hash: Hash) {
    && t.TreeRecord? && Find(tree, t.path).Some?
    && (Find(tree, t.path).value.File? || Find(tree, t.path).value.Link?)
    && t == RecordOf(Find(tree, t.path).value, t.path, hash)
  }

  /** The records of everything in the tree that is no directory, each once, in any order. */
  ghost predicate RecordsOf(records: seq<TreeRecord>, tree: Entry, hash: Hash) {
    && (forall i :: 0 <= i < |records| ==> RecordIn(records[i], tree, hash))
    && (forall i, j :: 0 <= i < j < |records| ==> PathOf(records[i]) != PathOf(records[j]))
    && (forall p :: p in LeafPaths(tree) ==> exists i :: 0 <= i < |records| && PathOf(records[i]) == p)
  }

  /** No exempt name is the path of a file or link, or leads to one. */
  ghost predicate ClearOf(tree: Entry, exempt: set<string>) {
    forall x, p :: x in exempt && p in LeafPaths(tree) ==> p != x && !(x + "/" <= p)
  }

  /** Everything in the directory is a directory or a regular file. */
  ghost predicate OnlyFiles(e: Entry) {
    forall p :: Find(e, p).Some? ==> Find(e, p).value.Dir? || Find(e, p).value.File?
  }

  // ----- the paths of a tree pass the check of committed paths

  lemma {:induction false} LeafIsSafe(e: Entry, path: string)
    requires GoodNames(e) && path in LeafPaths(e)
    ensures path != "" && path[0] != '/' && ".." !in Parts(path)
    decreases e
  {
    if n, r :| n in e.children && e.children[n].Dir? && r in LeafPaths(e.children[n]) && path == n + "/" + r {
      LeafIsSafe(e.children[n], r);
      PartsBelow(n, r);
      assert path[0] == n[0];
    } else {
      NoAncestors(path);
    }
  }

  lemma RecordIsAdmissible(t: TreeRecord, tree: Entry, hash: Hash)
    requires GoodNames(tree) && RecordIn(t, tree, hash)
    ensures Admissible(t) && t.path in LeafPaths(tree)
  {
    LeafPathsIff(tree, t.path);
    LeafIsSafe(tree, t.path);
    LeafHasParts(tree, t.path);
  }

  /** A record agrees with what the tree has at its path exactly if it is the record of that. */
  lemma RecordAgrees(t: TreeRecord, tree: Entry, hash: Hash)
    requires Admissible(t) && Find(tree, t.path).Some?
    ensures Agrees(Find(tree, t.path).value, BlobOf(t), hash) <==> RecordIn(t, tree, hash)
  {
  }

  /** The tree is the inventory of these records exactly if these are the records of the tree. */
  lemma RecordsIff(records: seq<TreeRecord>, tree: Entry, hash: Hash)
    requires tree.Dir? && GoodNames(tree)
    ensures InventoryOf(records, Admits()).Ok? && SameTree(tree, InventoryOf(records, Admits()).value, hash) <==>
            RecordsOf(records, tree, hash) && NoHollow(tree)
  {
    InventoryIff(records, Admits());
    if InventoryOf(records, Admits()).Ok? && SameTree(tree, InventoryOf(records, Admits()).value, hash) {
      InventoryRecords(records, InventoryOf(records, Admits()).value, tree, hash);
    }
    if RecordsOf(records, tree, hash) && NoHollow(tree) {
      forall i | 0 <= i < |records| ensures Admits()(records[i]) {
        RecordIsAdmissible(records[i], tree, hash);
      }
      RecordsInventory(records, InventoryOf(records, Admits()).value, tree, hash);
    }
  }

  lemma InventoryRecords(records: seq<TreeRecord>, inv: Inventory, tree: Entry, hash: Hash)
    requires Readable(records, Admits()) && Lists(records, inv) && SameTree(tree, inv, hash)
    ensures RecordsOf(records, tree, hash)
  {
    forall i | 0 <= i < |records| ensures RecordIn(records[i], tree, hash) {
      assert Admits()(records[i]) && PathOf(records[i]) in inv;
      RecordAgrees(records[i], tree, hash);
    }
  }

  lemma RecordsInventory(records: seq<TreeRecord>, inv: Inventory, tree: Entry, hash: Hash)
    requires GoodNames(tree) && RecordsOf(records, tree, hash) && NoHollow(tree) && Lists(records, inv)
    ensures SameTree(tree, inv, hash)
  {
    forall p ensures p in inv <==> p in LeafPaths(tree) {
      if p in inv {
        var i :| 0 <= i < |records| && PathOf(records[i]) == p;
        RecordIsAdmissible(records[i], tree, hash);
      }
    }
    forall p | p in inv ensures Find(tree, p).Some? && Agrees(Find(tree, p).value, inv[p], hash) {
      var i :| 0 <= i < |records| && PathOf(records[i]) == p;
      RecordIsAdmissible(records[i], tree, hash);
      RecordAgrees(records[i], tree, hash);
    }
  }

  // ----- exempt directories

  lemma {:induction false} PlainRootIff(e: Entry)
    requires e.Dir? && GoodNames(e)
    ensures PlainRoot(e) <==> OnlyFiles(e)
  {
    forall n | n in e.children && e.children[n].Dir? ensures PlainRoot(e.children[n]) <==> OnlyFiles(e.children[n]) {
      PlainRootIff(e.children[n]);
    }
    if OnlyFiles(e) {
      forall n | n in e.children ensures PlainRoot(e.children[n]) {
        ChildFound(e, n);
        forall r | Find(e.children[n], r).Some? ensures Find(e.children[n], r).value.Dir? || Find(e.children[n], r).value.File? {
          BelowFound(e, n, r);
        }
      }
    }
    if PlainRoot(e) {
      forall p | Find(e, p).Some? ensures Find(e, p).value.Dir? || Find(e, p).value.File? {
        PlainFind(e, p);
      }
    }
  }

  lemma {:induction false} PlainFind(e: Entry, p: string)
    requires e.Dir? && PlainRoot(e) && Find(e, p).Some?
    ensures Find(e, p).value.Dir? || Find(e, p).value.File?
    decreases e
  {
    var i := Slash(p);
    if i < |p| {
      PlainFind(e.children[p[..i]], p[i + 1..]);
    }
  }

  ghost predicate ExemptOnlyFiles(root: Entry, exempt: set<string>)
    requires root.Dir?
  {
    forall n :: n in root.children && n in exempt && n != ".git" && root.children[n].Dir? ==> OnlyFiles(root.children[n])
  }

  lemma ExemptIff(root: Entry, exempt: set<string>)
    requires root.Dir? && GoodNames(root)
    ensures ExemptFine(root, exempt) <==> ExemptOnlyFiles(root, exempt)
  {
    forall n | n in root.children && root.children[n].Dir? ensures PlainRoot(root.children[n]) <==> OnlyFiles(root.children[n]) {
      PlainRootIff(root.children[n]);
    }
  }

  lemma OverlapsIff(tree: Entry, inv: Inventory, exempt: set<string>)
    requires LeafPaths(tree) == inv.Keys
    ensures Overlaps(inv, exempt) <==> !ClearOf(tree, exempt)
  {
    forall x, p ensures x + "/" <= p <==> |p| > |x| && p[..|x|] == x && p[|x|] == '/' {
      if |p| > |x| && p[..|x|] == x && p[|x|] == '/' {
        assert p[..|x| + 1] == x + "/";
      }
      if x + "/" <= p {
        assert p[..|x|] == (x + "/")[..|x|] == x;
      }
    }
  }

  // ----- the verdict

  /** These are the records of the checkout without .git and the exempt directories, it has no hollow
      directory, and the exempt directories hold nothing but files and lead to none of the records. */
  ghost predicate Matches(root: Entry, records: seq<TreeRecord>, exempt: set<string>, hash: Hash)
    requires root.Dir?
  {
    && RecordsOf(records, Shown(root, exempt), hash) && NoHollow(Shown(root, exempt))
    && ExemptOnlyFiles(root, exempt) && ClearOf(Shown(root, exempt), exempt)
  }

  lemma AcceptedIff(root: Entry, records: seq<TreeRecord>, exempt: set<string>, hash: Hash)
    requires root.Dir? && GoodNames(root)
    ensures InventoryOf(records, Admits()).Ok? && Accepted(root, InventoryOf(records, Admits()).value, exempt, hash) <==>
            Matches(root, records, exempt, hash)
  {
    var tree := Shown(root, exempt);
    RecordsIff(records, tree, hash);
    ExemptIff(root, exempt);
    if InventoryOf(records, Admits()).Ok? && SameTree(tree, InventoryOf(records, Admits()).value, hash) {
      OverlapsIff(tree, InventoryOf(records, Admits()).value, exempt);
    }
  }

  /** verify_checkout: accepted exactly when the commit lists something, and what it lists are the records
      of the tree. */
  method VerifyCheckout(root: Entry, records: seq<TreeRecord>, exempt: set<string>, hash: Hash) returns (ok: bool)
    requires root.Dir? && GoodNames(root)
    ensures ok <==> records != [] && Matches(root, records, exempt, hash)
  {
    AcceptedIff(root, records, exempt, hash);
    var inventory := CommittedInventory(records, Admits());
    if inventory.Raise? {
      return false;
    }
    if Overlaps(inventory.value, exempt) {
      return false;
    }
    ok := CompareTree(root, inventory.value, exempt, hash);
  }

  /** A record with another of the three modes is not the tree's. */
  lemma WrongModeIsRejected(root: Entry, records: seq<TreeRecord>, exempt: set<string>, hash: Hash, i: nat, mode: string)
    requires root.Dir? && i < |records| && Matches(root, records, exempt, hash)
    requires mode != records[i].mode
    ensures !Matches(root, records[i := records[i].(mode := mode)], exempt, hash)
  {
    var changed := records[i := records[i].(mode := mode)];
    assert RecordIn(records[i], Shown(root, exempt), hash);
    assert !RecordIn(changed[i], Shown(root, exempt), hash);
  }
}
