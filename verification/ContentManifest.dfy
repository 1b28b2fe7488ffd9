/** The byte stream behind the installed-content digest, and why equal streams mean equal trees. */
module ContentManifest {
  import opened Wrappers
  import opened Order
  import opened ContentBytes

  datatype Node =
    | Directory(mode: nat, children: map<string, Node>)
    | File(mode: nat, sha256: string, size: nat)
    | Symlink(mode: nat, value: string)
    | Special(mode: nat)

  datatype Record =
    | DirectoryRecord(mode: nat, path: string)
    | FileRecord(mode: nat, path: string, sha256: string, size: nat)
    | SymlinkRecord(mode: nat, path: string, target: string)

  const MARKER := ".coding-system-python-closure.json"
  const SCHEMA_LINE: Bytes := Ascii("coding-system.python-closure-content/v2\n")

  // ----- trees

  /** File names: not empty, and no slash. */
  predicate ValidName(name: string) {
    name != "" && '/' !in name && name != "."
  }

  lemma ValidNameIff(name: string)
    ensures ValidName(name) <==> |name| > 0 && (|name| == 1 ==> name[0] as int != 46) && forall c :: c in name ==> c as int != 47
  {
  }

  ghost predicate ValidTree(n: Node) {
    n.Directory? ==> forall k :: k in n.children ==> ValidName(k) && ValidTree(n.children[k])
  }

  /** Only directories, regular files and symlinks. */
  ghost predicate Plain(n: Node) {
    !n.Special? && (n.Directory? ==> forall k :: k in n.children ==> Plain(n.children[k]))
  }

  /** The tree that is inventoried: the root without its marker. */
  function WithoutMarker(root: Node): Node
    requires root.Directory?
  {
    Directory(root.mode, root.children - {MARKER})
  }

  // ----- records, in preorder with every directory sorted by name

  function Below(directory: string, name: string): string {
    if directory == "" then name else directory + "/" + name
  }

  /** The records of the named children of a directory, in the given order. */
  ghost function Walk(n: Node, path: string, names: seq<string>): seq<Record>
    requires n.Directory? && forall k :: k in names ==> k in n.children
    decreases n, 0, |names|
  {
    if names == [] then []
    else Entry(n.children[names[0]], Below(path, names[0])) + Walk(n, path, names[1..])
  }

  ghost function Entry(n: Node, path: string): seq<Record>
    decreases n, 1
  {
    match n
    case Directory(mode, children) => [DirectoryRecord(mode, path)] + Walk(n, path, SortedKeys(children.Keys))
    case File(mode, sha256, size) => [FileRecord(mode, path, sha256, size)]
    case Symlink(mode, value) => [SymlinkRecord(mode, path, value)]
    case Special(_) => []
  }

  /** Every record of an installation, the root first. */
  ghost function Records(root: Node): seq<Record>
    requires root.Directory?
  {
    var tree := WithoutMarker(root);
    [DirectoryRecord(root.mode, ".")] + Walk(tree, "", SortedKeys(tree.children.Keys))
  }

  // ----- the records determine the tree

  predicate StartsWith(s: string, prefix: string) {
    |prefix| <= |s| && s[..|prefix|] == prefix
  }

  /** The path is the given one or lies below it. */
  predicate Within(s: string, path: string) {
    s == path || StartsWith(s, path + "/")
  }

  lemma WithinBelow(s: string, path: string, name: string)
    requires name != "" && (path == "" || Within(s, Below(path, name)))
    ensures path != "" ==> StartsWith(s, path + "/")
  {
    if path != "" {
      var p := path + "/" + name;
      assert p[..|path| + 1] == path + "/";
      if s != p {
        assert s[..|p|] == p;
        assert s[..|path| + 1] == p[..|path| + 1];
      }
    }
  }

  lemma {:induction false} WalkWithin(n: Node, path: string, names: seq<string>)
    requires n.Directory? && ValidTree(n) && forall k :: k in names ==> k in n.children
    ensures forall r :: r in Walk(n, path, names) ==> exists k :: k in names && Within(r.path, Below(path, k))
    decreases n, 0, |names|
  {
    if names != [] {
      EntryWithin(n.children[names[0]], Below(path, names[0]));
      WalkWithin(n, path, names[1..]);
      forall r | r in Walk(n, path, names) ensures exists k :: k in names && Within(r.path, Below(path, k)) {
        if r in Entry(n.children[names[0]], Below(path, names[0])) {
          assert names[0] in names && Within(r.path, Below(path, names[0]));
        } else {
          var k :| k in names[1..] && Within(r.path, Below(path, k));
          assert k in names;
        }
      }
    }
  }

  lemma {:induction false} EntryWithin(n: Node, path: string)
    requires ValidTree(n) && path != ""
    ensures forall r :: r in Entry(n, path) ==> Within(r.path, path)
    ensures n.Directory? ==> forall r :: r in Walk(n, path, SortedKeys(n.children.Keys)) ==> StartsWith(r.path, path + "/")
    decreases n, 1
  {
    if n.Directory? {
      var names := SortedKeys(n.children.Keys);
      WalkWithin(n, path, names);
      forall r | r in Walk(n, path, names) ensures StartsWith(r.path, path + "/") {
        var k :| k in names && Within(r.path, Below(path, k));
        WithinBelow(r.path, path, k);
      }
    }
  }

  /** The first component of a relative path. */
  function FirstComponent(t: string): string {
    if t == "" || t[0] == '/' then "" else [t[0]] + FirstComponent(t[1..])
  }

  lemma {:induction false} FirstComponentIs(t: string, name: string)
    requires '/' !in name && |name| <= |t| && t[..|name|] == name
    requires |t| > |name| ==> t[|name|] == '/'
    ensures FirstComponent(t) == name
  {
    if name != "" {
      assert t[0] == t[..|name|][0] == name[0];
      assert t[1..][..|name| - 1] == t[..|name|][1..] == name[1..];
      FirstComponentIs(t[1..], name[1..]);
      assert name == [name[0]] + name[1..];
    }
  }

  /** What follows the directory part: the name, then nothing or a slash. */
  lemma HeadOf(s: string, base: string, name: string)
    requires Within(s, base + name)
    ensures |base| + |name| <= |s| && s[|base|..][..|name|] == name
    ensures |s| > |base| + |name| ==> s[|base|..][|name|] == '/'
  {
    var p := base + name;
    if s != p {
      assert s[..|p| + 1] == p + "/";
      assert s[|p|] == s[..|p| + 1][|p|] == '/';
      assert forall i :: 0 <= i < |p| ==> s[i] == s[..|p| + 1][i];
    }
    assert forall i :: 0 <= i < |name| ==> s[|base|..][i] == s[|base| + i] == p[|base| + i];
  }

  /** Whatever lies within one child of a directory lies within no other child. */
  lemma SiblingsApart(s: string, path: string, n: string, m: string)
    requires ValidName(n) && ValidName(m) && n != m && Within(s, Below(path, m))
    ensures !Within(s, Below(path, n))
  {
    var base := if path == "" then "" else path + "/";
    assert Below(path, n) == base + n && Below(path, m) == base + m;
    HeadOf(s, base, m);
    FirstComponentIs(s[|base|..], m);
    if Within(s, Below(path, n)) {
      HeadOf(s, base, n);
      FirstComponentIs(s[|base|..], n);
    }
  }

  /** A list splits in one way into records below q and records that are not. */
  lemma {:induction false} SplitUnique(a1: seq<Record>, b1: seq<Record>, a2: seq<Record>, b2: seq<Record>, q: string)
    requires a1 + b1 == a2 + b2
    requires forall r :: r in a1 || r in a2 ==> StartsWith(r.path, q)
    requires forall r :: r in b1 || r in b2 ==> !StartsWith(r.path, q)
    ensures a1 == a2 && b1 == b2
  {
    assert forall x, y: seq<Record> :: x != [] ==> (x + y)[0] == x[0] && x[0] in x;
    assert b1 != [] ==> b1[0] in b1;
    assert b2 != [] ==> b2[0] in b2;
    assert [] + b1 == b1 && [] + b2 == b2;
    if a1 != [] {
      assert a2 != [];
      assert (a1 + b1)[1..] == a1[1..] + b1 && (a2 + b2)[1..] == a2[1..] + b2;
      SplitUnique(a1[1..], b1, a2[1..], b2, q);
      assert a1 == [a1[0]] + a1[1..] && a2 == [a2[0]] + a2[1..];
    }
  }

  ghost predicate Distinct(names: seq<string>) {
    forall i, j :: 0 <= i < j < |names| ==> names[i] != names[j]
  }

  /** The records of later siblings are not below the first child. */
  lemma RestApart(n: Node, path: string, names: seq<string>)
    requires n.Directory? && ValidTree(n) && forall k :: k in names ==> k in n.children
    requires names != [] && Distinct(names)
    ensures forall r :: r in Walk(n, path, names[1..]) ==> !Within(r.path, Below(path, names[0]))
  {
    WalkWithin(n, path, names[1..]);
    forall r | r in Walk(n, path, names[1..]) ensures !Within(r.path, Below(path, names[0])) {
      var k :| k in names[1..] && Within(r.path, Below(path, k));
      SiblingsApart(r.path, path, names[0], k);
    }
  }

  /** Equal walks below one path come from the same names and the same children. */
  lemma {:induction false} WalkInjective(d: Node, e: Node, path: string, ds: seq<string>, es: seq<string>)
    requires d.Directory? && ValidTree(d) && Plain(d) && forall k :: k in ds ==> k in d.children
    requires e.Directory? && ValidTree(e) && Plain(e) && forall k :: k in es ==> k in e.children
    requires Distinct(ds) && Distinct(es) && Walk(d, path, ds) == Walk(e, path, es)
    ensures ds == es && forall k :: k in ds ==> d.children[k] == e.children[k]
    decreases d, 0, |ds|
  {
    WalkHead(d, path, ds);
    WalkHead(e, path, es);
    if ds != [] {
      var dn, en := d.children[ds[0]], e.children[es[0]];
      var dw, ew := Walk(d, path, ds[1..]), Walk(e, path, es[1..]);
      BelowInjective(path, ds[0], es[0]);
      RestApart(d, path, ds);
      RestApart(e, path, es);
      EntryInjective(dn, en, Below(path, ds[0]), dw, ew);
      WalkInjective(d, e, path, ds[1..], es[1..]);
      assert ds == [ds[0]] + ds[1..] && es == [es[0]] + es[1..];
    }
  }

  lemma WalkHead(n: Node, path: string, names: seq<string>)
    requires n.Directory? && Plain(n) && forall k :: k in names ==> k in n.children
    ensures Walk(n, path, names) == [] <==> names == []
    ensures names != [] ==> Walk(n, path, names)[0].path == Below(path, names[0])
  {
    if names != [] {
      assert Entry(n.children[names[0]], Below(path, names[0]))[0].path == Below(path, names[0]);
    }
  }

  lemma BelowInjective(path: string, a: string, b: string)
    requires Below(path, a) == Below(path, b)
    ensures a == b
  {
    if path != "" {
      assert a == Below(path, a)[|path| + 1..] && b == Below(path, b)[|path| + 1..];
    }
  }

  lemma SameHead<T>(a: seq<T>, x: seq<T>, b: seq<T>, y: seq<T>)
    requires a != [] && b != [] && a + x == b + y
    ensures a[0] == b[0] && a[1..] + x == b[1..] + y
  {
    assert (a + x)[0] == a[0] && (b + y)[0] == b[0];
    assert (a + x)[1..] == a[1..] + x && (b + y)[1..] == b[1..] + y;
  }

  /** The walks below one path, apart from what follows them. */
  lemma WalksSplit(a: Node, b: Node, path: string, aw: seq<Record>, bw: seq<Record>)
    requires a.Directory? && ValidTree(a) && b.Directory? && ValidTree(b) && path != ""
    requires forall r :: r in aw || r in bw ==> !Within(r.path, path)
    requires Walk(a, path, SortedKeys(a.children.Keys)) + aw == Walk(b, path, SortedKeys(b.children.Keys)) + bw
    ensures Walk(a, path, SortedKeys(a.children.Keys)) == Walk(b, path, SortedKeys(b.children.Keys)) && aw == bw
  {
    EntryWithin(a, path);
    EntryWithin(b, path);
    SplitUnique(Walk(a, path, SortedKeys(a.children.Keys)), aw, Walk(b, path, SortedKeys(b.children.Keys)), bw, path + "/");
  }

  /** The record of the entry itself. */
  ghost function Head(n: Node, path: string): Record
    requires !n.Special?
  {
    match n
    case Directory(mode, _) => DirectoryRecord(mode, path)
    case File(mode, sha256, size) => FileRecord(mode, path, sha256, size)
    case Symlink(mode, value) => SymlinkRecord(mode, path, value)
  }

  /** The records of what lies below the entry. */
  ghost function Inner(n: Node, path: string): seq<Record> {
    if n.Directory? then Walk(n, path, SortedKeys(n.children.Keys)) else []
  }

  lemma EntryParts(n: Node, path: string)
    requires !n.Special?
    ensures Entry(n, path) == [Head(n, path)] + Inner(n, path)
  {
  }

  lemma PartsAgree(a: Node, b: Node, path: string, aw: seq<Record>, bw: seq<Record>)
    requires !a.Special? && !b.Special? && Entry(a, path) + aw == Entry(b, path) + bw
    ensures Head(a, path) == Head(b, path) && Inner(a, path) + aw == Inner(b, path) + bw
  {
    EntryParts(a, path);
    EntryParts(b, path);
    SameHead(Entry(a, path), aw, Entry(b, path), bw);
    assert Entry(a, path)[1..] == Inner(a, path) && Entry(b, path)[1..] == Inner(b, path);
  }

  lemma {:induction false} EntryInjective(a: Node, b: Node, path: string, aw: seq<Record>, bw: seq<Record>)
    requires ValidTree(a) && Plain(a) && ValidTree(b) && Plain(b) && path != ""
    requires forall r :: r in aw || r in bw ==> !Within(r.path, path)
    requires Entry(a, path) + aw == Entry(b, path) + bw
    ensures a == b && aw == bw
    decreases a, 1
  {
    PartsAgree(a, b, path, aw, bw);
    if a.Directory? {
      WalksSplit(a, b, path, aw, bw);
      KeysDistinct(a.children.Keys);
      KeysDistinct(b.children.Keys);
      var names := SortedKeys(a.children.Keys);
      WalkInjective(a, b, path, names, SortedKeys(b.children.Keys));
      SameChildren(a.children, b.children, names);
    } else {
      assert [] + aw == aw && [] + bw == bw;
    }
  }

  lemma KeysDistinct(keys: set<string>)
    ensures Distinct(SortedKeys(keys))
    ensures forall k :: k in SortedKeys(keys) <==> k in keys
  {
    SortedKeysSorted(keys);
    SortedDistinct(SortedKeys(keys));
  }

  lemma SameChildren(a: map<string, Node>, b: map<string, Node>, names: seq<string>)
    requires names == SortedKeys(a.Keys) == SortedKeys(b.Keys)
    requires forall k :: k in names ==> a[k] == b[k]
    ensures a == b
  {
    assert forall k :: k in a <==> k in names;
    assert forall k :: k in b <==> k in names;
  }

  /** The records determine the installation, apart from the root marker. */
  lemma RecordsInjective(a: Node, b: Node)
    requires a.Directory? && b.Directory?
    requires ValidTree(a) && ValidTree(b) && Plain(WithoutMarker(a)) && Plain(WithoutMarker(b))
    ensures Records(a) == Records(b) <==> WithoutMarker(a) == WithoutMarker(b)
  {
    if Records(a) == Records(b) {
      var s, t := WithoutMarker(a), WithoutMarker(b);
      var sn, tn := SortedKeys(s.children.Keys), SortedKeys(t.children.Keys);
      assert Records(a)[0] == DirectoryRecord(a.mode, ".") && Records(b)[0] == DirectoryRecord(b.mode, ".");
      assert Records(a)[1..] == Walk(s, "", sn) && Records(b)[1..] == Walk(t, "", tn);
      SortedKeysSorted(s.children.Keys);
      SortedKeysSorted(t.children.Keys);
      SortedDistinct(sn);
      SortedDistinct(tn);
      WalkInjective(s, t, "", sn, tn);
      SameChildren(s.children, t.children, sn);
    }
  }

  // ----- bytes

  /** n.to_bytes(width, "big"), keeping the low bytes. */
  function BigEndian(n: nat, width: nat): (r: Bytes)
    ensures |r| == width
  {
    if width == 0 then [] else BigEndian(n / 256, width - 1) + [n % 256]
  }

  function FromBigEndian(b: Bytes): nat {
    if b == [] then 0 else 256 * FromBigEndian(b[..|b| - 1]) + b[|b| - 1]
  }

  function Pow256(width: nat): (r: nat)
    ensures r > 0
  {
    if width == 0 then 1 else 256 * Pow256(width - 1)
  }

  lemma {:induction false} BigEndianRoundTrip(n: nat, width: nat)
    requires n < Pow256(width)
    ensures FromBigEndian(BigEndian(n, width)) == n
  {
    if width > 0 {
      BigEndianRoundTrip(n / 256, width - 1);
      var b := BigEndian(n, width);
      assert b[..|b| - 1] == BigEndian(n / 256, width - 1);
    }
  }

  const FRAME_LIMIT: nat := Pow256(8)

  lemma FrameLimit()
    ensures FRAME_LIMIT == 0x1_0000_0000_0000_0000
  {
    assert Pow256(4) == 0x1_0000_0000;
  }

  /** The eight-byte length, then the payload. */
  function Frame(payload: Bytes): Bytes {
    BigEndian(|payload|, 8) + payload
  }

  ghost function Frames(records: seq<Record>, json: Record -> Bytes): Bytes {
    if records == [] then [] else Frame(json(records[0])) + Frames(records[1..], json)
  }

  /** Payload lengths that to_bytes(8, ...) accepts. */
  ghost predicate Fits(records: seq<Record>, json: Record -> Bytes) {
    forall r :: r in records ==> |json(r)| < FRAME_LIMIT
  }

  /** The printer tells any two records apart. */
  ghost predicate Injective(json: Record -> Bytes) {
    forall r, s :: json(r) == json(s) ==> r == s
  }

  lemma FrameUnique(p: Bytes, x: Bytes, q: Bytes, y: Bytes)
    requires |p| < FRAME_LIMIT && |q| < FRAME_LIMIT && Frame(p) + x == Frame(q) + y
    ensures p == q && x == y
  {
    var s := Frame(p) + x;
    assert BigEndian(|p|, 8) == s[..8] && s[..8] == (Frame(q) + y)[..8] == BigEndian(|q|, 8);
    BigEndianRoundTrip(|p|, 8);
    BigEndianRoundTrip(|q|, 8);
    assert p == s[8..8 + |p|] && q == (Frame(q) + y)[8..8 + |q|];
    assert x == s[8 + |p|..] && y == (Frame(q) + y)[8 + |q|..];
  }

  lemma {:induction false} FramesInjective(a: seq<Record>, b: seq<Record>, json: Record -> Bytes)
    requires Injective(json) && Fits(a, json) && Fits(b, json)
    requires Frames(a, json) == Frames(b, json)
    ensures a == b
  {
    if a == [] || b == [] {
      assert a != [] ==> |Frames(a, json)| >= 8;
      assert b != [] ==> |Frames(b, json)| >= 8;
    } else {
      FrameUnique(json(a[0]), Frames(a[1..], json), json(b[0]), Frames(b[1..], json));
      FramesInjective(a[1..], b[1..], json);
      assert a == [a[0]] + a[1..] && b == [b[0]] + b[1..];
    }
  }

  lemma FramesCons(first: Record, rest: seq<Record>, json: Record -> Bytes)
    ensures Frames([first] + rest, json) == Frame(json(first)) + Frames(rest, json)
  {
    assert ([first] + rest)[1..] == rest;
  }

  lemma FramesConsAppend(first: Record, rest: seq<Record>, b: seq<Record>, json: Record -> Bytes)
    requires Frames(rest + b, json) == Frames(rest, json) + Frames(b, json)
    ensures Frames([first] + (rest + b), json) == Frames([first] + rest, json) + Frames(b, json)
  {
    FramesCons(first, rest, json);
    FramesCons(first, rest + b, json);
    Associates(Frame(json(first)), Frames(rest, json), Frames(b, json));
  }

  lemma {:induction false} FramesAppend(a: seq<Record>, b: seq<Record>, json: Record -> Bytes)
    ensures Frames(a + b, json) == Frames(a, json) + Frames(b, json)
  {
    if a == [] {
      assert a + b == b;
    } else {
      FramesAppend(a[1..], b, json);
      FramesConsAppend(a[0], a[1..], b, json);
      Unfolds(a, b);
    }
  }

  lemma Unfolds<T>(a: seq<T>, b: seq<T>)
    requires a != []
    ensures a == [a[0]] + a[1..] && a + b == [a[0]] + (a[1..] + b)
  {
  }

  lemma OneFrame(before: Bytes, record: Record, json: Record -> Bytes)
    ensures before + BigEndian(|json(record)|, 8) + json(record) == before + Frames([record], json)
  {
    var r := [record];
    assert r[1..] == [] && Frames(r, json) == Frame(json(record)) + Frames([], json);
  }

  lemma FitsAppend(a: seq<Record>, b: seq<Record>, json: Record -> Bytes)
    ensures Fits(a + b, json) <==> Fits(a, json) && Fits(b, json)
  {
    if Fits(a + b, json) {
      forall r | r in a || r in b ensures |json(r)| < FRAME_LIMIT { assert r in a + b; }
    }
  }

  lemma TwoParts(before: Bytes, a: seq<Record>, b: seq<Record>, json: Record -> Bytes)
    ensures before + Frames(a, json) + Frames(b, json) == before + Frames(a + b, json)
    ensures Fits(a + b, json) <==> Fits(a, json) && Fits(b, json)
  {
    FramesAppend(a, b, json);
    FitsAppend(a, b, json);
  }

  /** Everything the digest is computed over. */
  ghost function Stream(root: Node, json: Record -> Bytes): Bytes
    requires root.Directory?
  {
    SCHEMA_LINE + Frames(Records(root), json)
  }

  /** Equal streams mean equal installations, apart from the root marker, and the other way round. */
  lemma StreamInjective(a: Node, b: Node, json: Record -> Bytes)
    requires a.Directory? && ValidTree(a) && Plain(WithoutMarker(a))
    requires b.Directory? && ValidTree(b) && Plain(WithoutMarker(b))
    requires Injective(json) && Fits(Records(a), json) && Fits(Records(b), json)
    ensures Stream(a, json) == Stream(b, json) <==> WithoutMarker(a) == WithoutMarker(b)
  {
    RecordsInjective(a, b);
    if Stream(a, json) == Stream(b, json) {
      assert Frames(Records(a), json) == Stream(a, json)[|SCHEMA_LINE|..];
      assert Frames(Records(b), json) == Stream(b, json)[|SCHEMA_LINE|..];
      FramesInjective(Records(a), Records(b), json);
    }
  }

  // ----- the program

  /** installed_content_manifest with its two counters: the bytes hashed so far and the entry count. */
  class Hasher {
    var stream: Bytes
    var entryCount: nat

    constructor ()
      ensures stream == SCHEMA_LINE && entryCount == 0
    {
      stream, entryCount := SCHEMA_LINE, 0;
    }

    /** The records so far, as bytes and as a count. */
    ghost predicate Holds(before: Bytes, count: nat, records: seq<Record>, json: Record -> Bytes)
      reads this
    {
      stream == before + Frames(records, json) && entryCount == count + |records|
    }

    /** add_record: OverflowError when the length does not fit eight bytes. */
    method AddRecord(record: Record, json: Record -> Bytes) returns (ok: bool)
      modifies this
      ensures ok <==> Fits([record], json)
      ensures ok ==> Holds(old(stream), old(entryCount), [record], json)
    {
      var payload := json(record);
      ok := |payload| < FRAME_LIMIT;
      if ok {
        OneFrame(stream, record, json);
        stream := stream + BigEndian(|payload|, 8) + payload;
        entryCount := entryCount + 1;
      }
    }

    /** The body of walk's loop: the child's records follow those of its earlier siblings. */
    method WalkChild(n: Node, path: string, names: seq<string>, i: nat, json: Record -> Bytes, ghost before: Bytes, ghost count: nat)
      returns (ok: bool)
      requires n.Directory? && i < |names| && (forall k :: k in names ==> k in n.children)
      requires (forall k :: k in names[..i] ==> k in n.children) && Accepts(n, path, names[..i], json)
      requires Holds(before, count, Walk(n, path, names[..i]), json)
      modifies this
      ensures forall k :: k in names[..i + 1] ==> k in n.children
      ensures ok <==> Accepts(n, path, names[..i + 1], json)
      ensures ok ==> Holds(before, count, Walk(n, path, names[..i + 1]), json)
      decreases n, 0
    {
      AcceptsSnoc(n, path, names, i, json);
      StreamSnoc(before, n, path, names, i, json);
      ok := AddEntry(n.children[names[i]], Below(path, names[i]), json);
    }

    /** walk */
    method WalkDirectory(n: Node, path: string, names: seq<string>, json: Record -> Bytes) returns (ok: bool)
      requires n.Directory? && forall k :: k in names ==> k in n.children
      modifies this
      ensures ok <==> Accepts(n, path, names, json)
      ensures ok ==> Holds(old(stream), old(entryCount), Walk(n, path, names), json)
      decreases n, 1
    {
      ok := true;
      var i := 0;
      ghost var before, count := stream, entryCount;
      while i < |names| && ok
        invariant 0 <= i <= |names|
        invariant forall k :: k in names[..i] ==> k in n.children
        invariant ok ==> Holds(before, count, Walk(n, path, names[..i]), json)
        invariant ok <==> Accepts(n, path, names[..i], json)
        decreases |names| - i, ok
      {
        ok := WalkChild(n, path, names, i, json, before, count);
        i := i + 1;
      }
      AcceptsPrefix(n, path, names, i, json);
      assert ok ==> names[..i] == names;
    }

    method AddEntry(n: Node, path: string, json: Record -> Bytes) returns (ok: bool)
      modifies this
      ensures ok <==> Plain(n) && Fits(Entry(n, path), json)
      ensures ok ==> Holds(old(stream), old(entryCount), Entry(n, path), json)
      decreases n, 2
    {
      match n
      case Directory(mode, children) =>
        var head := DirectoryRecord(mode, path);
        var names := SortedKeys(children.Keys);
        TwoParts(stream, [head], Walk(n, path, names), json);
        ok := AddRecord(head, json);
        if ok {
          ok := WalkDirectory(n, path, names, json);
        }
      case File(mode, sha256, size) =>
        ok := AddRecord(FileRecord(mode, path, sha256, size), json);
      case Symlink(mode, value) =>
        ok := AddRecord(SymlinkRecord(mode, path, value), json);
      case Special(_) =>
        ok := false;
    }
  }

  lemma WalkCons(n: Node, path: string, first: string, rest: seq<string>)
    requires n.Directory? && first in n.children && forall k :: k in rest ==> k in n.children
    ensures Walk(n, path, [first] + rest) == Entry(n.children[first], Below(path, first)) + Walk(n, path, rest)
  {
    assert ([first] + rest)[1..] == rest;
  }

  lemma WalkConsAppend(n: Node, path: string, first: string, rest: seq<string>, b: seq<string>)
    requires n.Directory? && first in n.children && forall k :: k in rest || k in b ==> k in n.children
    requires Walk(n, path, rest + b) == Walk(n, path, rest) + Walk(n, path, b)
    ensures Walk(n, path, [first] + (rest + b)) == Walk(n, path, [first] + rest) + Walk(n, path, b)
  {
    WalkCons(n, path, first, rest);
    WalkCons(n, path, first, rest + b);
    Associates(Entry(n.children[first], Below(path, first)), Walk(n, path, rest), Walk(n, path, b));
  }

  lemma {:induction false} WalkAppend(n: Node, path: string, a: seq<string>, b: seq<string>)
    requires n.Directory? && forall k :: k in a || k in b ==> k in n.children
    ensures forall k :: k in a + b ==> k in n.children
    ensures Walk(n, path, a + b) == Walk(n, path, a) + Walk(n, path, b)
    decreases |a|
  {
    if a == [] {
      assert a + b == b;
    } else {
      Unfolds(a, b);
      WalkAppend(n, path, a[1..], b);
      WalkConsAppend(n, path, a[0], a[1..], b);
    }
  }

  /** The walk of these children runs to the end. */
  ghost predicate Accepts(n: Node, path: string, names: seq<string>, json: Record -> Bytes)
    requires n.Directory? && forall k :: k in names ==> k in n.children
  {
    Fits(Walk(n, path, names), json) && forall k :: k in names ==> Plain(n.children[k])
  }

  lemma WalkSnoc(n: Node, path: string, names: seq<string>, i: nat)
    requires n.Directory? && i < |names| && forall k :: k in names ==> k in n.children
    ensures forall k :: k in names[..i] || k in names[..i + 1] ==> k in n.children
    ensures Walk(n, path, names[..i + 1]) == Walk(n, path, names[..i]) + Entry(n.children[names[i]], Below(path, names[i]))
  {
    var a, b := names[..i], [names[i]];
    assert names[..i + 1] == a + b && b[1..] == [];
    WalkAppend(n, path, a, b);
  }

  lemma PlainSnoc(children: map<string, Node>, names: seq<string>, i: nat)
    requires i < |names| && forall k :: k in names ==> k in children
    ensures (forall k :: k in names[..i + 1] ==> k in children && Plain(children[k])) <==>
            (forall k :: k in names[..i] ==> k in children && Plain(children[k])) && Plain(children[names[i]])
  {
    assert names[..i + 1] == names[..i] + [names[i]];
  }

  lemma AcceptsSnoc(n: Node, path: string, names: seq<string>, i: nat, json: Record -> Bytes)
    requires n.Directory? && i < |names| && forall k :: k in names ==> k in n.children
    ensures forall k :: k in names[..i] || k in names[..i + 1] ==> k in n.children
    ensures Accepts(n, path, names[..i + 1], json) <==>
              && Accepts(n, path, names[..i], json)
              && Plain(n.children[names[i]]) && Fits(Entry(n.children[names[i]], Below(path, names[i])), json)
  {
    WalkSnoc(n, path, names, i);
    PlainSnoc(n.children, names, i);
    FitsAppend(Walk(n, path, names[..i]), Entry(n.children[names[i]], Below(path, names[i])), json);
  }

  lemma StreamSnoc(before: Bytes, n: Node, path: string, names: seq<string>, i: nat, json: Record -> Bytes)
    requires n.Directory? && i < |names| && forall k :: k in names ==> k in n.children
    ensures forall k :: k in names[..i] || k in names[..i + 1] ==> k in n.children
    ensures before + Frames(Walk(n, path, names[..i]), json) + Frames(Entry(n.children[names[i]], Below(path, names[i])), json)
         == before + Frames(Walk(n, path, names[..i + 1]), json)
    ensures |Walk(n, path, names[..i + 1])| == |Walk(n, path, names[..i])| + |Entry(n.children[names[i]], Below(path, names[i]))|
  {
    WalkSnoc(n, path, names, i);
    TwoParts(before, Walk(n, path, names[..i]), Entry(n.children[names[i]], Below(path, names[i])), json);
  }

  lemma AcceptsPrefix(n: Node, path: string, names: seq<string>, i: nat, json: Record -> Bytes)
    requires n.Directory? && i <= |names| && forall k :: k in names ==> k in n.children
    ensures forall k :: k in names[..i] ==> k in n.children
    ensures Accepts(n, path, names, json) ==> Accepts(n, path, names[..i], json)
  {
    assert names == names[..i] + names[i..];
    WalkAppend(n, path, names[..i], names[i..]);
    FitsAppend(Walk(n, path, names[..i]), Walk(n, path, names[i..]), json);
  }

  /** installed_content_manifest: the count and the hashed bytes, or a ClosureError. */
  method InstalledContentManifest(root: Node, json: Record -> Bytes) returns (r: Result<(nat, Bytes)>)
    ensures r.Ok? <==> root.Directory? && Plain(WithoutMarker(root)) && Fits(Records(root), json)
    ensures r.Ok? ==> r.value.0 == |Records(root)| && r.value.1 == Stream(root, json)
  {
    if !root.Directory? {
      return Raise;
    }
    var hasher := new Hasher();
    var tree := WithoutMarker(root);
    var names := SortedKeys(tree.children.Keys);
    ghost var head := DirectoryRecord(root.mode, ".");
    TwoParts(SCHEMA_LINE, [head], Walk(tree, "", names), json);
    var ok := hasher.AddRecord(DirectoryRecord(root.mode, "."), json);
    if ok {
      ok := hasher.WalkDirectory(tree, "", names, json);
    }
    if !ok {
      return Raise;
    }
    r := Ok((hasher.entryCount, hasher.stream));
  }
}
