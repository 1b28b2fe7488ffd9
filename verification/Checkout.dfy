/** Comparing a checkout with the inventory of its commit. */
module Checkout {
  import opened Wrappers
  import opened ContentBytes
  import opened CheckoutTrees

  const REGULAR := "100644"
  const EXECUTABLE := "100755"
  const SYMLINK := "120000"

  // ----- object digests

  function Digits(n: nat): (d: Bytes)
    ensures forall i :: 0 <= i < |d| ==> d[i] != 0
  {
    (if n < 10 then [] else Digits(n / 10)) + [n % 10 + 48]
  }

  /** The number that decimal digits in ASCII stand for. */
  function Decimal(d: Bytes): int {
    if d == [] then 0
    else
      var last: int := d[|d| - 1];
      10 * Decimal(d[..|d| - 1]) + (last - 48)
  }

  /** The digits are those of the number, without leading zeros. */
  lemma {:induction false} DigitsAreDecimal(n: nat)
    ensures Decimal(Digits(n)) == n && Digits(n) != []
    ensures forall i :: 0 <= i < |Digits(n)| ==> 48 <= Digits(n)[i] <= 57
    ensures |Digits(n)| > 1 ==> Digits(n)[0] != 48
  {
    if n >= 10 {
      DigitsAreDecimal(n / 10);
      assert Digits(n)[..|Digits(n)| - 1] == Digits(n / 10);
      assert n / 10 < 10 ==> Digits(n / 10) == [n / 10 + 48];
    }
  }

  /** What is hashed for a blob: its kind, its length, a zero byte and its bytes. */
  function ObjectBytes(payload: Bytes): Bytes {
    [98, 108, 111, 98, 32] + Digits(|payload|) + [0] + payload
  }

  lemma {:induction false} FirstZero(a: Bytes, b: Bytes, x: Bytes, y: Bytes)
    requires (forall i :: 0 <= i < |a| ==> a[i] != 0) && (forall i :: 0 <= i < |b| ==> b[i] != 0)
    requires a + [0] + x == b + [0] + y
    ensures x == y
  {
    var s := a + [0] + x;
    assert s[|a|] == 0 && s[|b|] == 0;
    assert forall i :: 0 <= i < |a| ==> s[i] == a[i];
    assert forall i :: 0 <= i < |b| ==> s[i] == b[i];
    assert |a| == |b|;
    assert x == s[|a| + 1..] && y == s[|b| + 1..];
  }

  /** Blobs with the same hashed bytes have the same content. */
  lemma ObjectBytesInjective(x: Bytes, y: Bytes)
    requires ObjectBytes(x) == ObjectBytes(y)
    ensures x == y
  {
    FirstZero([98, 108, 111, 98, 32] + Digits(|x|), [98, 108, 111, 98, 32] + Digits(|y|), x, y);
  }

  /** regular_digest: the header, then whatever chunks the reads return. */
  method RegularDigest(content: Bytes, expectedSize: nat, hash: Hash) returns (r: Result<string>)
    ensures r == if |content| == expectedSize then Ok(hash(ObjectBytes(content))) else Raise
  {
    if |content| != expectedSize {
      return Raise;
    }
    var fed := [98, 108, 111, 98, 32] + Digits(|content|) + [0];
    var total := 0;
    while total < |content|
      invariant total <= |content|
      invariant fed == [98, 108, 111, 98, 32] + Digits(|content|) + [0] + content[..total]
    {
      var n: nat := *;
      if !(1 <= n <= 1024 * 1024 && total + n <= |content|) {
        n := 1;
      }
      assert content[..total + n] == content[..total] + content[total..total + n];
      fed := fed + content[total..total + n];
      total := total + n;
    }
    assert content[..total] == content;
    r := Ok(hash(fed));
  }

  // ----- the committed inventory

  /** One record of `git ls-tree -lrz`, or one that does not have its form. */
  datatype TreeRecord = Malformed | TreeRecord(mode: string, kind: string, id: string, size: Option<nat>, path: string)

  predicate SafePath(path: string) {
    Parts(path) != [] && !(path != "" && path[0] == '/') && ".." !in Parts(path)
  }

  predicate Admissible(t: TreeRecord) {
    t.TreeRecord? && t.kind == "blob" && (t.mode == REGULAR || t.mode == EXECUTABLE || t.mode == SYMLINK) &&
    t.size.Some? && SafePath(t.path)
  }

  function PathOf(t: TreeRecord): string {
    if t.TreeRecord? then t.path else ""
  }

  function BlobOf(t: TreeRecord): Blob {
    if t.TreeRecord? && t.size.Some? then Blob(t.mode, t.id, t.size.value) else Blob("", "", 0)
  }

  function Admits(): TreeRecord -> bool {
    t => Admissible(t)
  }

  /** committed_inventory, after git's output is split into records; it also raises when there are none. */
  function InventoryOf(records: seq<TreeRecord>, admits: TreeRecord -> bool): Result<Inventory> {
    if records == [] then Ok(map[])
    else
      var before :- InventoryOf(records[..|records| - 1], admits);
      var t := records[|records| - 1];
      if !admits(t) || PathOf(t) in before then Raise else Ok(before[PathOf(t) := BlobOf(t)])
  }

  /** The records can be read: nothing inadmissible, nothing twice. */
  ghost predicate Readable(records: seq<TreeRecord>, admits: TreeRecord -> bool) {
    && (forall i :: 0 <= i < |records| ==> admits(records[i]))
    && (forall i, j :: 0 <= i < j < |records| ==> PathOf(records[i]) != PathOf(records[j]))
  }

  /** Every record is in the inventory, and nothing else is. */
  ghost predicate Lists(records: seq<TreeRecord>, inv: Inventory) {
    && (forall i :: 0 <= i < |records| ==> PathOf(records[i]) in inv && inv[PathOf(records[i])] == BlobOf(records[i]))
    && (forall p :: p in inv ==> exists i :: 0 <= i < |records| && PathOf(records[i]) == p)
  }

  lemma InventoryLast(records: seq<TreeRecord>, t: TreeRecord, admits: TreeRecord -> bool)
    ensures InventoryOf(records + [t], admits) ==
            var before := InventoryOf(records, admits);
            if before.Raise? || !admits(t) || PathOf(t) in before.value then Raise
            else Ok(before.value[PathOf(t) := BlobOf(t)])
  {
    assert (records + [t])[..|records|] == records;
  }

  lemma ReadableLast(records: seq<TreeRecord>, t: TreeRecord, admits: TreeRecord -> bool)
    ensures Readable(records + [t], admits) <==>
            Readable(records, admits) && admits(t) && forall i :: 0 <= i < |records| ==> PathOf(records[i]) != PathOf(t)
  {
    var all := records + [t];
    assert all[|records|] == t && forall i :: 0 <= i < |records| ==> all[i] == records[i];
  }

  lemma ListsPath(records: seq<TreeRecord>, inv: Inventory, path: string)
    requires Lists(records, inv)
    ensures path in inv <==> !forall i :: 0 <= i < |records| ==> PathOf(records[i]) != path
  {
  }

  lemma ListsLast(records: seq<TreeRecord>, inv: Inventory, t: TreeRecord)
    requires Lists(records, inv) && PathOf(t) !in inv
    ensures Lists(records + [t], inv[PathOf(t) := BlobOf(t)])
  {
    var all, next := records + [t], inv[PathOf(t) := BlobOf(t)];
    assert all[|records|] == t;
    forall p | p in next ensures exists i :: 0 <= i < |all| && PathOf(all[i]) == p {
      if p != PathOf(t) {
        var i :| 0 <= i < |records| && PathOf(records[i]) == p;
        assert all[i] == records[i];
      }
    }
  }

  lemma {:induction false} InventoryIff(records: seq<TreeRecord>, admits: TreeRecord -> bool)
    ensures InventoryOf(records, admits).Ok? <==> Readable(records, admits)
    ensures InventoryOf(records, admits).Ok? ==> Lists(records, InventoryOf(records, admits).value)
  {
    if records != [] {
      var init, t := records[..|records| - 1], records[|records| - 1];
      assert records == init + [t];
      InventoryIff(init, admits);
      InventoryLast(init, t, admits);
      ReadableLast(init, t, admits);
      if InventoryOf(init, admits).Ok? {
        ListsPath(init, InventoryOf(init, admits).value, PathOf(t));
        if PathOf(t) !in InventoryOf(init, admits).value {
          ListsLast(init, InventoryOf(init, admits).value, t);
        }
      }
    }
  }

  method CommittedInventory(records: seq<TreeRecord>, admits: TreeRecord -> bool) returns (r: Result<Inventory>)
    ensures r == if records == [] then Raise else InventoryOf(records, admits)
    ensures r.Ok? ==> r.value != map[]
  {
    var inventory: Inventory := map[];
    var i := 0;
    while i < |records|
      invariant 0 <= i <= |records| && (i == 0 <==> inventory == map[])
      invariant InventoryOf(records[..i], admits) == Ok(inventory)
    {
      var t := records[i];
      assert records[..i + 1][..i] == records[..i];
      if !admits(t) || PathOf(t) in inventory {
        InventoryRaises(records, i + 1, admits);
        return Raise;
      }
      inventory := inventory[PathOf(t) := BlobOf(t)];
      i := i + 1;
    }
    assert records[..i] == records;
    r := if inventory == map[] then Raise else Ok(inventory);
  }

  lemma {:induction false} InventoryRaises(records: seq<TreeRecord>, i: nat, admits: TreeRecord -> bool)
    requires i <= |records| && InventoryOf(records[..i], admits).Raise?
    ensures InventoryOf(records, admits).Raise?
  {
    if i < |records| {
      assert records[..|records| - 1][..i] == records[..i];
      InventoryRaises(records[..|records| - 1], i, admits);
    } else {
      assert records[..i] == records;
    }
  }

  // ----- the working tree

  /** A file or link has the mode, the size and the content hash the commit has for it. */
  predicate Agrees(e: Entry, blob: Blob, hash: Hash) {
    match e
    case File(executable, content) =>
      blob == Blob(if executable then EXECUTABLE else REGULAR, hash(ObjectBytes(content)), |content|)
    case Link(target) => blob == Blob(SYMLINK, hash(ObjectBytes(target)), |target|)
    case _ => false
  }

  /** What the walk looks at: at the root neither .git nor the exempt directories. */
  function Shown(root: Entry, exempt: set<string>): Entry
    requires root.Dir?
  {
    Dir(map n | n in root.children && n != ".git" && !(n in exempt && root.children[n].Dir?) :: root.children[n])
  }

  /** verify_untracked_migration_root: only directories and regular files */
  predicate PlainRoot(e: Entry) {
    match e
    case Dir(children) => forall n :: n in children ==> PlainRoot(children[n])
    case File(_, _) => true
    case _ => false
  }

  /** Every directory has a file or link somewhere below it. */
  predicate NoHollow(e: Entry) {
    e.Dir? ==> LeafPaths(e) != {} && forall n :: n in e.children ==> NoHollow(e.children[n])
  }

  /** The tree is the inventory: the same paths, each with the same mode, size and content hash, and no
      directory besides those that lead to one. */
  ghost predicate SameTree(shown: Entry, inv: Inventory, hash: Hash) {
    && LeafPaths(shown) == inv.Keys
    && (forall p :: p in inv ==> Find(shown, p).Some? && Agrees(Find(shown, p).value, inv[p], hash))
    && NoHollow(shown)
  }

  /** What the walk checks below a path. */
  predicate Fine(e: Entry, path: string, inv: Inventory, needed: set<string>, hash: Hash) {
    if e.Dir? then path in needed && forall n :: n in e.children ==> Fine(e.children[n], path + "/" + n, inv, needed, hash)
    else path in inv && Agrees(e, inv[path], hash)
  }

  /** Every file and link below a path agrees with the inventory. */
  ghost predicate AllAgree(e: Entry, path: string, inv: Inventory, hash: Hash) {
    if e.Dir? then forall n :: n in e.children ==> AllAgree(e.children[n], path + "/" + n, inv, hash)
    else path in inv && Agrees(e, inv[path], hash)
  }

  lemma {:induction false} AllAgreeIff(e: Entry, path: string, inv: Inventory, hash: Hash)
    requires GoodNames(e) && e.Dir?
    ensures AllAgree(e, path, inv, hash) <==>
            forall p :: p in LeafPaths(e) ==>
              Find(e, p).Some? && path + "/" + p in inv && Agrees(Find(e, p).value, inv[path + "/" + p], hash)
  {
    forall n | n in e.children
      ensures AllAgree(e.children[n], path + "/" + n, inv, hash) <==>
        if e.children[n].Dir? then
          forall r :: r in LeafPaths(e.children[n]) ==>
            Find(e, n + "/" + r).Some? && path + "/" + (n + "/" + r) in inv && Agrees(Find(e, n + "/" + r).value, inv[path + "/" + (n + "/" + r)], hash)
        else path + "/" + n in inv && Agrees(e.children[n], inv[path + "/" + n], hash)
    {
      if e.children[n].Dir? {
        AllAgreeIff(e.children[n], path + "/" + n, inv, hash);
        forall r ensures path + "/" + (n + "/" + r) == path + "/" + n + "/" + r && Find(e, n + "/" + r) == Find(e.children[n], r) {
          Below(n, r);
        }
      }
    }
    forall n | n in e.children ensures !e.children[n].Dir? ==> Find(e, n) == Some(e.children[n]) && n in LeafPaths(e) {
      SlashAfterName(n, "");
      assert n[..|n|] == n;
    }
    forall n, r | n in e.children && e.children[n].Dir? && r in LeafPaths(e.children[n]) ensures n + "/" + r in LeafPaths(e) {
      LeavesBelow(e, n, r);
    }
  }

  /** With the inventory's own ancestors as needed directories, the walk's checks below a path are
      agreement and no hollow directory. */
  lemma {:induction false} FineIff(e: Entry, path: string, inv: Inventory, needed: set<string>, hash: Hash)
    requires GoodNames(e)
    requires e.Dir? ==> (path in needed <==> LeafPaths(e) != {})
    requires e.Dir? ==> forall q :: path + "/" + q in needed <==> q in AncestorsOf(LeafPaths(e))
    ensures Fine(e, path, inv, needed, hash) <==> AllAgree(e, path, inv, hash) && NoHollow(e)
  {
    if e.Dir? {
      forall n | n in e.children
        ensures Fine(e.children[n], path + "/" + n, inv, needed, hash) <==>
                AllAgree(e.children[n], path + "/" + n, inv, hash) && NoHollow(e.children[n])
      {
        forall q ensures path + "/" + n + "/" + q == path + "/" + (n + "/" + q) {}
        forall q ensures e.children[n].Dir? ==>
          (path + "/" + n + "/" + q in needed <==> q in AncestorsOf(LeafPaths(e.children[n])))
        {
          NeededBelow(e, n, q);
        }
        NeededBelow(e, n, "");
        FineIff(e.children[n], path + "/" + n, inv, needed, hash);
      }
    }
  }

  lemma KeysNonempty(inv: Inventory)
    requires inv != map[]
    ensures inv.Keys != {}
  {
    assert inv.Keys == {} ==> inv == map[];
  }

  lemma ChildFineIff(shown: Entry, inv: Inventory, hash: Hash, n: string)
    requires shown.Dir? && GoodNames(shown) && n in shown.children && LeafPaths(shown) == inv.Keys
    ensures Fine(shown.children[n], n, inv, AncestorsOf(inv.Keys), hash) <==>
            AllAgree(shown.children[n], n, inv, hash) && NoHollow(shown.children[n])
  {
    forall q ensures shown.children[n].Dir? ==>
      (n + "/" + q in AncestorsOf(inv.Keys) <==> q in AncestorsOf(LeafPaths(shown.children[n])))
    {
      NeededBelow(shown, n, q);
    }
    NeededBelow(shown, n, "");
    FineIff(shown.children[n], n, inv, AncestorsOf(inv.Keys), hash);
  }

  ghost predicate ChildrenFine(shown: Entry, inv: Inventory, hash: Hash)
    requires shown.Dir?
  {
    forall n :: n in shown.children ==> Fine(shown.children[n], n, inv, AncestorsOf(inv.Keys), hash)
  }

  ghost predicate ChildrenAgree(shown: Entry, inv: Inventory, hash: Hash)
    requires shown.Dir?
  {
    forall n :: n in shown.children ==> AllAgree(shown.children[n], n, inv, hash)
  }

  ghost predicate NoHollowChild(shown: Entry)
    requires shown.Dir?
  {
    forall n :: n in shown.children ==> NoHollow(shown.children[n])
  }

  lemma ChildrenFineIff(shown: Entry, inv: Inventory, hash: Hash)
    requires shown.Dir? && GoodNames(shown) && LeafPaths(shown) == inv.Keys
    ensures ChildrenFine(shown, inv, hash) <==> ChildrenAgree(shown, inv, hash) && NoHollowChild(shown)
  {
    forall n | n in shown.children
      ensures Fine(shown.children[n], n, inv, AncestorsOf(inv.Keys), hash) <==>
              AllAgree(shown.children[n], n, inv, hash) && NoHollow(shown.children[n])
    {
      ChildFineIff(shown, inv, hash, n);
    }
  }

  /** The walk and the final comparison accept exactly the inventory's tree. */
  lemma RootIff(shown: Entry, inv: Inventory, hash: Hash)
    requires shown.Dir? && GoodNames(shown) && inv != map[]
    ensures ChildrenFine(shown, inv, hash) && LeafPaths(shown) == inv.Keys <==> SameTree(shown, inv, hash)
  {
    if LeafPaths(shown) == inv.Keys {
      KeysNonempty(inv);
      ChildrenFineIff(shown, inv, hash);
      RootAgreeIff(shown, inv, hash);
      assert NoHollow(shown) <==> NoHollowChild(shown);
    }
  }

  /** The tree has the committed file or link at this path. */
  ghost predicate PathAgrees(shown: Entry, inv: Inventory, hash: Hash, p: string) {
    p in inv && Find(shown, p).Some? && Agrees(Find(shown, p).value, inv[p], hash)
  }

  lemma ChildFound(shown: Entry, n: string)
    requires shown.Dir? && GoodNames(shown) && n in shown.children
    ensures Find(shown, n) == Some(shown.children[n])
  {
    SlashAfterName(n, "");
    assert n[..|n|] == n;
  }

  lemma BelowFound(shown: Entry, n: string, r: string)
    requires shown.Dir? && GoodNames(shown) && n in shown.children
    ensures Find(shown, n + "/" + r) == Find(shown.children[n], r)
  {
    Below(n, r);
  }

  /** One entry of the root agrees exactly if its leaves do, as leaves of the root. */
  lemma ChildAgrees(shown: Entry, inv: Inventory, hash: Hash, n: string)
    requires shown.Dir? && GoodNames(shown) && n in shown.children
    ensures AllAgree(shown.children[n], n, inv, hash) <==>
            if shown.children[n].Dir? then forall r :: r in LeafPaths(shown.children[n]) ==> PathAgrees(shown, inv, hash, n + "/" + r)
            else PathAgrees(shown, inv, hash, n)
  {
    ChildFound(shown, n);
    if shown.children[n].Dir? {
      AllAgreeIff(shown.children[n], n, inv, hash);
      forall r ensures Find(shown, n + "/" + r) == Find(shown.children[n], r) {
        BelowFound(shown, n, r);
      }
    }
  }

  lemma RootAgreeIff(shown: Entry, inv: Inventory, hash: Hash)
    requires shown.Dir? && GoodNames(shown) && LeafPaths(shown) == inv.Keys
    ensures ChildrenAgree(shown, inv, hash) <==> forall p :: p in inv ==> PathAgrees(shown, inv, hash, p)
  {
    if ChildrenAgree(shown, inv, hash) {
      forall p | p in inv ensures PathAgrees(shown, inv, hash, p) {
        assert p in LeafPaths(shown);
        if n, r :| n in shown.children && shown.children[n].Dir? && r in LeafPaths(shown.children[n]) && p == n + "/" + r {
          ChildAgrees(shown, inv, hash, n);
        } else {
          ChildAgrees(shown, inv, hash, p);
        }
      }
    }
    if forall p :: p in inv ==> PathAgrees(shown, inv, hash, p) {
      forall n | n in shown.children ensures AllAgree(shown.children[n], n, inv, hash) {
        ChildAgrees(shown, inv, hash, n);
        LeafHere(shown, n);
        forall r | shown.children[n].Dir? && r in LeafPaths(shown.children[n]) ensures PathAgrees(shown, inv, hash, n + "/" + r) {
          LeafUnder(shown, n, r);
        }
      }
    }
  }

  lemma LeafUnder(e: Entry, n: string, r: string)
    requires e.Dir? && n in e.children && e.children[n].Dir? && r in LeafPaths(e.children[n])
    ensures n + "/" + r in LeafPaths(e)
  {
  }

  lemma SameNames(a: Entry, b: Entry)
    requires a.Dir? && b.Dir? && GoodNames(a) && GoodNames(b) && NoHollow(a) && NoHollow(b)
    requires LeafPaths(a) == LeafPaths(b)
    ensures a.children.Keys == b.children.Keys
    ensures forall n :: n in a.children ==> a.children[n].Dir? == b.children[n].Dir?
  {
    forall n ensures n in a.children <==> n in b.children {
      SameName(a, b, n);
      SameName(b, a, n);
    }
    forall n | n in a.children ensures a.children[n].Dir? == b.children[n].Dir? {
      SameName(a, b, n);
    }
  }

  lemma SameLeaf(a: Entry, b: Entry, n: string)
    requires a.Dir? && b.Dir? && GoodNames(a) && GoodNames(b) && SameLeaves(a, b)
    requires n in a.children && n in b.children && !a.children[n].Dir?
    ensures a.children[n] == b.children[n]
  {
    LeafHere(a, n);
    ChildFound(a, n);
    ChildFound(b, n);
  }

  /** Trees without hollow directories are determined by their leaves. */
  lemma {:induction false} SameLeavesSameTree(a: Entry, b: Entry)
    requires a.Dir? && b.Dir? && GoodNames(a) && GoodNames(b) && NoHollow(a) && NoHollow(b)
    requires SameLeaves(a, b)
    ensures a == b
    decreases a
  {
    SameNames(a, b);
    forall n | n in a.children ensures a.children[n] == b.children[n] {
      if a.children[n].Dir? {
        SameLeavesBelow(a, b, n);
        SameLeavesSameTree(a.children[n], b.children[n]);
      } else {
        SameLeaf(a, b, n);
      }
    }
    assert a.children == b.children;
  }

  ghost predicate SameLeaves(a: Entry, b: Entry) {
    LeafPaths(a) == LeafPaths(b) && forall p :: p in LeafPaths(a) ==> Find(a, p) == Find(b, p)
  }

  lemma SameLeavesBelow(a: Entry, b: Entry, n: string)
    requires a.Dir? && b.Dir? && GoodNames(a) && GoodNames(b) && SameLeaves(a, b)
    requires n in a.children && n in b.children && a.children[n].Dir? && b.children[n].Dir?
    ensures SameLeaves(a.children[n], b.children[n])
  {
    forall r ensures r in LeafPaths(a.children[n]) <==> r in LeafPaths(b.children[n])
             ensures r in LeafPaths(a.children[n]) ==> Find(a.children[n], r) == Find(b.children[n], r) {
      LeavesBelow(a, n, r);
      LeavesBelow(b, n, r);
      Below(n, r);
    }
  }

  lemma SameName(a: Entry, b: Entry, n: string)
    requires a.Dir? && b.Dir? && GoodNames(a) && GoodNames(b) && NoHollow(a)
    requires LeafPaths(a) == LeafPaths(b)
    ensures n in a.children ==> n in b.children && a.children[n].Dir? == b.children[n].Dir?
  {
    if n in a.children {
      if a.children[n].Dir? {
        var r :| r in LeafPaths(a.children[n]);
        LeavesBelow(a, n, r);
        LeavesBelow(b, n, r);
      } else {
        LeafHere(a, n);
        LeafHere(b, n);
      }
    }
  }

  /** What is hashed of a file or link. */
  function Hashed(e: Entry): Bytes {
    match e
    case File(_, content) => ObjectBytes(content)
    case Link(target) => ObjectBytes(target)
    case _ => []
  }

  /** At no committed path do the two trees hold different bytes with one digest. */
  ghost predicate NoCollision(a: Entry, b: Entry, inv: Inventory, hash: Hash) {
    forall p :: p in inv && Find(a, p).Some? && Find(b, p).Some? ==>
      Apart(Hashed(Find(a, p).value), Hashed(Find(b, p).value), hash)
  }

  predicate Apart(x: Bytes, y: Bytes, hash: Hash) {
    hash(x) == hash(y) ==> x == y
  }

  /** One inventory, one tree: two trees that match it are equal, if their contents do not collide. */
  lemma OneTree(a: Entry, b: Entry, inv: Inventory, hash: Hash)
    requires a.Dir? && b.Dir? && GoodNames(a) && GoodNames(b) && SameTree(a, inv, hash) && SameTree(b, inv, hash)
    requires NoCollision(a, b, inv, hash)
    ensures a == b
  {
    forall p | p in LeafPaths(a) ensures Find(a, p) == Find(b, p) {
      var x, y := Find(a, p).value, Find(b, p).value;
      assert Apart(Hashed(x), Hashed(y), hash);
      match (x, y)
      case (File(_, c), File(_, d)) => ObjectBytesInjective(c, d);
      case (Link(c), Link(d)) => ObjectBytesInjective(c, d);
      case _ =>
    }
    assert SameLeaves(a, b);
    SameLeavesSameTree(a, b);
  }

  /** With a digest that tells all contents apart this needs no condition. */
  lemma OneTreeByDigest(a: Entry, b: Entry, inv: Inventory, hash: Hash)
    requires a.Dir? && b.Dir? && GoodNames(a) && GoodNames(b) && SameTree(a, inv, hash) && SameTree(b, inv, hash)
    requires forall x, y :: hash(x) == hash(y) ==> x == y
    ensures a == b
  {
    OneTree(a, b, inv, hash);
  }

  /** The check of committed paths lets "a//b" and "./a" pass, and a file at a path that others have as a
      directory; no tree matches an inventory with one of these. */
  lemma OddPathsNeverMatch(shown: Entry, inv: Inventory, hash: Hash, p: string)
    requires GoodNames(shown) && p in inv && (JoinParts(Parts(p)) != p || p in AncestorsOf(inv.Keys))
    ensures !SameTree(shown, inv, hash)
  {
    if SameTree(shown, inv, hash) {
      LeafPathsIff(shown, p);
      LeafIsNormal(shown, p);
      var q :| q in inv && p in Ancestors(q);
      AncestorIsDir(shown, q, p);
    }
  }

  // ----- the program

  function At(prefix: string, name: string): string {
    if prefix == "" then name else prefix + "/" + name
  }

  /** The exempt directories of the root are themselves acceptable. */
  predicate ExemptFine(e: Entry, exempt: set<string>)
    requires e.Dir?
  {
    forall n :: n in e.children && n in exempt && n != ".git" && e.children[n].Dir? ==> PlainRoot(e.children[n])
  }

  /** Entries of the root the walk does not look into. */
  predicate Skipped(e: Entry, name: string, prefix: string, exempt: set<string>) {
    prefix == "" && (name == ".git" || (name in exempt && e.Dir?))
  }

  predicate EntryFine(e: Entry, name: string, prefix: string, inv: Inventory, needed: set<string>, exempt: set<string>, hash: Hash) {
    if Skipped(e, name, prefix, exempt) then name == ".git" || PlainRoot(e)
    else Fine(e, At(prefix, name), inv, needed, hash)
  }

  /** The paths the walk observes at and below an entry. */
  function EntryPaths(e: Entry, name: string, prefix: string, exempt: set<string>): set<string> {
    if Skipped(e, name, prefix, exempt) then {}
    else if e.Dir? then Under(At(prefix, name), LeafPaths(e))
    else {At(prefix, name)}
  }

  function PathsOf(e: Entry, names: set<string>, prefix: string, exempt: set<string>): set<string>
    requires e.Dir? && names <= e.children.Keys
  {
    set n, p | n in names && p in EntryPaths(e.children[n], n, prefix, exempt) :: p
  }

  lemma OneMore(e: Entry, names: set<string>, name: string, prefix: string, exempt: set<string>)
    requires e.Dir? && names <= e.children.Keys && name in e.children
    ensures PathsOf(e, names + {name}, prefix, exempt) ==
            PathsOf(e, names, prefix, exempt) + EntryPaths(e.children[name], name, prefix, exempt)
  {
  }

  lemma BelowPrefix(prefix: string, rest: string)
    ensures var p := prefix + "/" + rest;
      |prefix| < |p| && p[..|prefix| + 1] == prefix + "/" && p[|prefix| + 1..] == rest
  {
    assert |prefix + "/"| == |prefix| + 1;
  }

  lemma TwoSlashes(prefix: string, n: string, r: string)
    ensures prefix + "/" + n + "/" + r == prefix + "/" + (n + "/" + r)
  {
  }

  /** Below the root, every observed path is a leaf, */
  lemma ObservedIsLeaf(e: Entry, n: string, p: string, prefix: string, exempt: set<string>)
    requires e.Dir? && prefix != "" && n in e.children && p in EntryPaths(e.children[n], n, prefix, exempt)
    ensures |prefix| < |p| && p[..|prefix| + 1] == prefix + "/" && p[|prefix| + 1..] in LeafPaths(e)
  {
    if e.children[n].Dir? {
      var r :| r in LeafPaths(e.children[n]) && p == prefix + "/" + n + "/" + r;
      TwoSlashes(prefix, n, r);
      BelowPrefix(prefix, n + "/" + r);
      LeafUnder(e, n, r);
    } else {
      BelowPrefix(prefix, n);
    }
  }

  /** and every leaf is observed. */
  lemma LeafIsObserved(e: Entry, r: string, prefix: string, exempt: set<string>)
    requires e.Dir? && prefix != "" && r in LeafPaths(e)
    ensures prefix + "/" + r in PathsOf(e, e.children.Keys, prefix, exempt)
  {
    if n, q :| n in e.children && e.children[n].Dir? && q in LeafPaths(e.children[n]) && r == n + "/" + q {
      assert prefix + "/" + r == prefix + "/" + n + "/" + q;
      assert prefix + "/" + r in EntryPaths(e.children[n], n, prefix, exempt);
    } else {
      assert prefix + "/" + r in EntryPaths(e.children[r], r, prefix, exempt);
    }
  }

  function Under(prefix: string, paths: set<string>): set<string> {
    set r | r in paths :: prefix + "/" + r
  }

  lemma ObservedIff(e: Entry, prefix: string, exempt: set<string>, p: string)
    requires e.Dir? && prefix != ""
    ensures p in PathsOf(e, e.children.Keys, prefix, exempt) <==> p in Under(prefix, LeafPaths(e))
  {
    if p in PathsOf(e, e.children.Keys, prefix, exempt) {
      var n :| n in e.children && p in EntryPaths(e.children[n], n, prefix, exempt);
      ObservedIsLeaf(e, n, p, prefix, exempt);
      var r := p[|prefix| + 1..];
      assert p == p[..|prefix| + 1] + r == prefix + "/" + r;
    }
    if p in Under(prefix, LeafPaths(e)) {
      var r :| r in LeafPaths(e) && p == prefix + "/" + r;
      LeafIsObserved(e, r, prefix, exempt);
    }
  }

  lemma PathsOfAll(e: Entry, prefix: string, exempt: set<string>)
    requires e.Dir? && prefix != ""
    ensures PathsOf(e, e.children.Keys, prefix, exempt) == Under(prefix, LeafPaths(e))
  {
    forall p ensures p in PathsOf(e, e.children.Keys, prefix, exempt) <==> p in Under(prefix, LeafPaths(e)) {
      ObservedIff(e, prefix, exempt, p);
    }
  }

  /** At the root they observe the leaves of what is shown. */
  lemma PathsOfRoot(e: Entry, exempt: set<string>)
    requires e.Dir?
    ensures PathsOf(e, e.children.Keys, "", exempt) == LeafPaths(Shown(e, exempt))
  {
    var shown := Shown(e, exempt);
    forall p | p in PathsOf(e, e.children.Keys, "", exempt) ensures p in LeafPaths(shown) {
      var n :| n in e.children && p in EntryPaths(e.children[n], n, "", exempt);
      assert n in shown.children && shown.children[n] == e.children[n];
    }
    forall p | p in LeafPaths(shown) ensures p in PathsOf(e, e.children.Keys, "", exempt) {
      if n, q :| n in shown.children && shown.children[n].Dir? && q in LeafPaths(shown.children[n]) && p == n + "/" + q {
        assert p in EntryPaths(e.children[n], n, "", exempt);
      } else {
        assert p in EntryPaths(e.children[p], p, "", exempt);
      }
    }
  }

  /** The nested walk: every entry in whatever order the directory lists them. */
  method Walk(e: Entry, prefix: string, inv: Inventory, needed: set<string>, exempt: set<string>, hash: Hash, observed: set<string>)
    returns (r: Result<set<string>>)
    requires e.Dir? && GoodNames(e)
    ensures r.Ok? <==> forall n :: n in e.children ==> EntryFine(e.children[n], n, prefix, inv, needed, exempt, hash)
    ensures r.Ok? ==> r.value == observed + PathsOf(e, e.children.Keys, prefix, exempt)
    decreases e, 0
  {
    var seen := observed;
    var todo := e.children.Keys;
    while todo != {}
      invariant todo <= e.children.Keys
      invariant forall n :: n in e.children.Keys - todo ==> EntryFine(e.children[n], n, prefix, inv, needed, exempt, hash)
      invariant seen == observed + PathsOf(e, e.children.Keys - todo, prefix, exempt)
      decreases todo
    {
      var name :| name in todo;
      OneMore(e, e.children.Keys - todo, name, prefix, exempt);
      assert e.children.Keys - (todo - {name}) == e.children.Keys - todo + {name};
      var walked := WalkEntry(e.children[name], name, prefix, inv, needed, exempt, hash, seen);
      if walked.Raise? {
        return Raise;
      }
      seen := walked.value;
      todo := todo - {name};
    }
    r := Ok(seen);
  }

  /** The body of the walk's loop. */
  method WalkEntry(e: Entry, name: string, prefix: string, inv: Inventory, needed: set<string>, exempt: set<string>, hash: Hash, observed: set<string>)
    returns (r: Result<set<string>>)
    requires GoodName(name) && GoodNames(e)
    ensures r.Ok? <==> EntryFine(e, name, prefix, inv, needed, exempt, hash)
    ensures r.Ok? ==> r.value == observed + EntryPaths(e, name, prefix, exempt)
    decreases e, 1
  {
    if prefix == "" && name == ".git" {
      return Ok(observed);
    }
    var path := At(prefix, name);
    if e.Dir? {
      if prefix == "" && name in exempt {
        return if PlainRoot(e) then Ok(observed) else Raise;
      }
      if path !in needed {
        return Raise;
      }
      r := Walk(e, path, inv, needed, exempt, hash, observed);
      assert forall n :: n in e.children ==> At(path, n) == path + "/" + n && !Skipped(e.children[n], n, path, exempt);
      PathsOfAll(e, path, exempt);
      return;
    }
    if path !in inv {
      return Raise;
    }
    var agrees := CheckLeaf(e, inv[path], hash);
    r := if agrees then Ok(observed + {path}) else Raise;
  }

  /** The comparison of one file or link with its record, in the order of the program's checks. */
  method CheckLeaf(e: Entry, blob: Blob, hash: Hash) returns (ok: bool)
    ensures ok == Agrees(e, blob, hash)
  {
    match e
    case Link(target) =>
      ok := blob.mode == SYMLINK && |target| == blob.size && hash(ObjectBytes(target)) == blob.id;
    case File(executable, content) =>
      if blob.mode == SYMLINK {
        return false;
      }
      var digest := RegularDigest(content, blob.size, hash);
      if digest.Raise? {
        return false;
      }
      ok := (if executable then EXECUTABLE else REGULAR) == blob.mode && digest.value == blob.id;
    case _ =>
      ok := false;
  }

  /** An exempt directory overlaps the committed tree. */
  predicate Overlaps(inv: Inventory, exempt: set<string>) {
    exists p, x :: p in inv && x in exempt && (p == x || (|p| > |x| && p[..|x|] == x && p[|x|] == '/'))
  }

  /** The walk from the root, and the final comparison of what it saw. */
  method CompareTree(root: Entry, inv: Inventory, exempt: set<string>, hash: Hash) returns (ok: bool)
    requires root.Dir? && GoodNames(root) && inv != map[]
    ensures ok <==> ExemptFine(root, exempt) && SameTree(Shown(root, exempt), inv, hash)
  {
    var needed := AncestorsOf(inv.Keys);
    var observed := Walk(root, "", inv, needed, exempt, hash, {});
    PathsOfRoot(root, exempt);
    RootWalk(root, inv, needed, exempt, hash);
    RootIff(Shown(root, exempt), inv, hash);
    ok := observed.Ok? && observed.value == inv.Keys;
  }

  /** The tree is the inventory, apart from exempt directories that are acceptable and do not overlap it. */
  ghost predicate Accepted(root: Entry, inv: Inventory, exempt: set<string>, hash: Hash)
    requires root.Dir?
  {
    !Overlaps(inv, exempt) && ExemptFine(root, exempt) && SameTree(Shown(root, exempt), inv, hash)
  }

  lemma RootWalk(root: Entry, inv: Inventory, needed: set<string>, exempt: set<string>, hash: Hash)
    requires root.Dir?
    ensures (forall n :: n in root.children ==> EntryFine(root.children[n], n, "", inv, needed, exempt, hash)) <==>
            ExemptFine(root, exempt) &&
            forall n :: n in Shown(root, exempt).children ==> Fine(Shown(root, exempt).children[n], n, inv, needed, hash)
  {
    var shown := Shown(root, exempt);
    forall n | n in root.children
      ensures EntryFine(root.children[n], n, "", inv, needed, exempt, hash) <==>
        (n in exempt && n != ".git" && root.children[n].Dir? ==> PlainRoot(root.children[n])) &&
        (n in shown.children ==> Fine(shown.children[n], n, inv, needed, hash))
    {
    }
  }
}
