/** Working trees, their paths, and what it means for one to match a commit's flat inventory. */
module CheckoutTrees {
  import opened Wrappers
  import opened ContentBytes

  datatype Entry =
    | Dir(children: map<string, Entry>)
    | File(executable: bool, content: Bytes)
    | Link(target: Bytes)
    | Special

  datatype Blob = Blob(mode: string, id: string, size: nat)

  type Inventory = map<string, Blob>

  type Hash = Bytes -> string

  predicate GoodName(name: string) {
    name != "" && '/' !in name && name != "." && name != ".."
  }

  ghost predicate GoodNames(e: Entry) {
    e.Dir? ==> forall n :: n in e.children ==> GoodName(n) && GoodNames(e.children[n])
  }

  // ----- paths

  /** The position of the first slash, or the length. */
  function Slash(path: string): (i: nat)
    ensures i <= |path| && '/' !in path[..i] && (i < |path| ==> path[i] == '/')
  {
    if path == "" || path[0] == '/' then 0 else 1 + Slash(path[1..])
  }

  lemma {:induction false} SlashAfterName(name: string, rest: string)
    requires '/' !in name
    ensures Slash(name + "/" + rest) == |name| && Slash(name) == |name|
  {
    if name != "" {
      SlashAfterName(name[1..], rest);
      assert (name + "/" + rest)[1..] == name[1..] + "/" + rest;
    }
  }

  /** The directory or file at a path below a directory. */
  function Find(e: Entry, path: string): Option<Entry>
    decreases e
  {
    if !e.Dir? then None
    else
      var i := Slash(path);
      if path[..i] !in e.children then None
      else if i == |path| then Some(e.children[path[..i]])
      else Find(e.children[path[..i]], path[i + 1..])
  }

  /** The paths of everything below a directory that is not a directory. */
  function LeafPaths(e: Entry): set<string> {
    if !e.Dir? then {}
    else
      (set n | n in e.children && !e.children[n].Dir?) +
      (set n, r | n in e.children && e.children[n].Dir? && r in LeafPaths(e.children[n]) :: n + "/" + r)
  }

  lemma Below(name: string, rest: string)
    requires '/' !in name
    ensures var p := name + "/" + rest; p[..Slash(p)] == name && Slash(p) < |p| && p[Slash(p) + 1..] == rest
  {
    SlashAfterName(name, rest);
  }

  lemma SplitAt(s: string, i: nat)
    requires i < |s|
    ensures s == s[..i] + [s[i]] + s[i + 1..]
  {
  }

  lemma Whole(path: string)
    ensures var i := Slash(path);
      if i < |path| then path == path[..i] + "/" + path[i + 1..] else path == path[..i] && '/' !in path
  {
    var i := Slash(path);
    if i < |path| {
      SplitAt(path, i);
    } else {
      assert path[..i] == path;
    }
  }

  /** The leaves are exactly the paths that can be looked up and are not directories. */
  lemma {:induction false} LeafPathsIff(e: Entry, path: string)
    requires GoodNames(e)
    ensures path in LeafPaths(e) <==> Find(e, path).Some? && !Find(e, path).value.Dir?
    decreases e
  {
    if e.Dir? {
      var i := Slash(path);
      Whole(path);
      if i < |path| && path[..i] in e.children {
        LeafPathsIff(e.children[path[..i]], path[i + 1..]);
      }
      forall n, r | n in e.children && n + "/" + r == path ensures n == path[..i] && r == path[i + 1..] && i < |path| {
        Below(n, r);
      }
      forall n | n in e.children && n == path ensures i == |path| {
        SlashAfterName(n, "");
      }
    }
  }

  /** The leaves below one directory among the leaves of its parent. */
  lemma LeavesBelow(e: Entry, name: string, rest: string)
    requires e.Dir? && GoodNames(e) && '/' !in name
    ensures name + "/" + rest in LeafPaths(e) <==>
            name in e.children && e.children[name].Dir? && rest in LeafPaths(e.children[name])
  {
    Below(name, rest);
    forall n, r | n + "/" + r == name + "/" + rest && '/' !in n ensures n == name && r == rest {
      Below(n, r);
    }
  }

  lemma LeafHere(e: Entry, name: string)
    requires e.Dir? && GoodNames(e) && '/' !in name
    ensures name in LeafPaths(e) <==> name in e.children && !e.children[name].Dir?
  {
    assert forall n, r :: n + "/" + r == name ==> name[|n|] == '/';
  }

  // ----- the directories an inventory needs

  /** The components of a path as pathlib sees them: empty ones and "." are dropped. */
  function Parts(path: string): seq<string>
    decreases |path|
  {
    var i := Slash(path);
    (if path[..i] == "" || path[..i] == "." then [] else [path[..i]]) +
    (if i < |path| then Parts(path[i + 1..]) else [])
  }

  function JoinParts(parts: seq<string>): string {
    if parts == [] then "" else if |parts| == 1 then parts[0] else parts[0] + "/" + JoinParts(parts[1..])
  }

  /** The paths of the proper beginnings of a list of names. */
  function Prefixes(parts: seq<string>): set<string> {
    set i | 1 <= i < |parts| :: JoinParts(parts[..i])
  }

  /** The proper ancestors of a path, without ".". */
  function Ancestors(path: string): set<string> {
    Prefixes(Parts(path))
  }

  function AncestorsOf(paths: set<string>): set<string> {
    set p, d | p in paths && d in Ancestors(p) :: d
  }

  lemma PartsBelow(name: string, rest: string)
    requires GoodName(name)
    ensures Parts(name + "/" + rest) == [name] + Parts(rest)
  {
    Below(name, rest);
  }

  lemma JoinBelow(name: string, parts: seq<string>, i: nat)
    requires 1 <= i <= |parts|
    ensures JoinParts(([name] + parts)[..i + 1]) == name + "/" + JoinParts(parts[..i])
  {
    assert ([name] + parts)[..i + 1] == [name] + parts[..i];
  }

  lemma FirstPrefix(name: string, parts: seq<string>)
    ensures JoinParts(([name] + parts)[..1]) == name
  {
    assert ([name] + parts)[..1] == [name];
  }

  lemma PrefixAt(parts: seq<string>, i: nat)
    requires 1 <= i < |parts|
    ensures JoinParts(parts[..i]) in Prefixes(parts)
  {
  }

  lemma PrefixBelow(name: string, parts: seq<string>, x: string)
    requires x in Prefixes(parts)
    ensures name + "/" + x in Prefixes([name] + parts)
  {
    var i :| 1 <= i < |parts| && x == JoinParts(parts[..i]);
    JoinBelow(name, parts, i);
    PrefixAt([name] + parts, i + 1);
  }

  lemma PrefixSplits(name: string, parts: seq<string>, d: string) returns (x: string)
    requires d in Prefixes([name] + parts) && d != name
    ensures x in Prefixes(parts) && d == name + "/" + x
  {
    var i :| 1 <= i < |[name] + parts| && d == JoinParts(([name] + parts)[..i]);
    FirstPrefix(name, parts);
    x := JoinParts(parts[..i - 1]);
    JoinBelow(name, parts, i - 1);
    PrefixAt(parts, i - 1);
  }

  lemma AncestorsBelow(name: string, rest: string, d: string)
    requires GoodName(name) && Parts(rest) != []
    ensures Parts(name + "/" + rest) == [name] + Parts(rest)
    ensures d in Ancestors(name + "/" + rest) <==>
            d == name || exists x :: x in Ancestors(rest) && d == name + "/" + x
  {
    var parts := Parts(rest);
    PartsBelow(name, rest);
    FirstPrefix(name, parts);
    PrefixAt([name] + parts, 1);
    if d in Prefixes([name] + parts) && d != name {
      var x := PrefixSplits(name, parts, d);
    }
    if x :| x in Prefixes(parts) && d == name + "/" + x {
      PrefixBelow(name, parts, x);
    }
  }

  lemma NoAncestors(name: string)
    requires GoodName(name)
    ensures Parts(name) == [name] && Ancestors(name) == {}
  {
    SlashAfterName(name, "");
    assert name[..|name|] == name;
  }

  lemma {:induction false} LeafHasParts(e: Entry, path: string)
    requires GoodNames(e) && path in LeafPaths(e)
    ensures Parts(path) != []
    decreases e
  {
    if n, r :| n in e.children && e.children[n].Dir? && r in LeafPaths(e.children[n]) && path == n + "/" + r {
      LeafHasParts(e.children[n], r);
      AncestorsBelow(n, r, "");
    } else {
      NoAncestors(path);
    }
  }

  /** The paths of a tree are in normal form. */
  lemma {:induction false} LeafIsNormal(e: Entry, path: string)
    requires GoodNames(e) && path in LeafPaths(e)
    ensures JoinParts(Parts(path)) == path
    decreases e
  {
    if n, r :| n in e.children && e.children[n].Dir? && r in LeafPaths(e.children[n]) && path == n + "/" + r {
      LeafHasParts(e.children[n], r);
      LeafIsNormal(e.children[n], r);
      AncestorsBelow(n, r, "");
      assert ([n] + Parts(r))[1..] == Parts(r);
    } else {
      NoAncestors(path);
    }
  }

  /** The ancestors of a leaf are directories. */
  lemma {:induction false} AncestorIsDir(e: Entry, path: string, d: string)
    requires GoodNames(e) && path in LeafPaths(e) && d in Ancestors(path)
    ensures Find(e, d).Some? && Find(e, d).value.Dir?
    decreases e
  {
    if n, r :| n in e.children && e.children[n].Dir? && r in LeafPaths(e.children[n]) && path == n + "/" + r {
      LeafHasParts(e.children[n], r);
      AncestorsBelow(n, r, d);
      if d == n {
        SlashAfterName(n, "");
        assert n[..|n|] == n;
      } else {
        var x :| x in Ancestors(r) && d == n + "/" + x;
        AncestorIsDir(e.children[n], r, x);
        Below(n, x);
      }
    } else {
      NoAncestors(path);
      assert false;
    }
  }

  /** Which directories the leaves below a directory need: those that have leaves themselves. */
  lemma NeededBelow(e: Entry, name: string, d: string)
    requires e.Dir? && GoodNames(e) && GoodName(name)
    ensures name in AncestorsOf(LeafPaths(e)) <==>
            name in e.children && e.children[name].Dir? && LeafPaths(e.children[name]) != {}
    ensures name + "/" + d in AncestorsOf(LeafPaths(e)) <==>
            name in e.children && e.children[name].Dir? && d in AncestorsOf(LeafPaths(e.children[name]))
  {
    forall p | p in LeafPaths(e)
      ensures name in Ancestors(p) <==>
              exists r :: p == name + "/" + r && name in e.children && e.children[name].Dir? && r in LeafPaths(e.children[name])
      ensures name + "/" + d in Ancestors(p) <==>
              exists r :: p == name + "/" + r && d in Ancestors(r) && name in e.children && e.children[name].Dir? && r in LeafPaths(e.children[name])
    {
      NeededByLeaf(e, name, d, p);
    }
    if name in e.children && e.children[name].Dir? {
      forall r | r in LeafPaths(e.children[name]) ensures name + "/" + r in LeafPaths(e) {
        LeavesBelow(e, name, r);
      }
      if r :| r in LeafPaths(e.children[name]) {
        assert name + "/" + r in LeafPaths(e) && name in Ancestors(name + "/" + r);
      }
      if d in AncestorsOf(LeafPaths(e.children[name])) {
        var r :| r in LeafPaths(e.children[name]) && d in Ancestors(r);
        assert name + "/" + r in LeafPaths(e) && name + "/" + d in Ancestors(name + "/" + r);
      }
    }
  }

  lemma NeededByLeaf(e: Entry, name: string, d: string, p: string)
    requires e.Dir? && GoodNames(e) && GoodName(name) && p in LeafPaths(e)
    ensures name in Ancestors(p) <==>
            exists r :: p == name + "/" + r && name in e.children && e.children[name].Dir? && r in LeafPaths(e.children[name])
    ensures name + "/" + d in Ancestors(p) <==>
            exists r :: p == name + "/" + r && d in Ancestors(r) && name in e.children && e.children[name].Dir? && r in LeafPaths(e.children[name])
  {
    if p in e.children && !e.children[p].Dir? {
      NoAncestors(p);
      forall r | p == name + "/" + r ensures false {
        Below(name, r);
      }
    } else {
      var n, r :| n in e.children && e.children[n].Dir? && r in LeafPaths(e.children[n]) && p == n + "/" + r;
      LeafHasParts(e.children[n], r);
      AncestorsBelow(n, r, name);
      AncestorsBelow(n, r, name + "/" + d);
      Below(n, r);
      forall r' | p == name + "/" + r' ensures n == name && r == r' {
        Below(name, r');
      }
      forall x | name + "/" + d == n + "/" + x ensures n == name && x == d {
        Below(name, d);
        Below(n, x);
      }
      forall x ensures '/' in n + "/" + x {
        assert (n + "/" + x)[|n|] == '/';
      }
      assert name + "/" + d != n by {
        SlashAfterName(n, "");
        SlashAfterName(name, d);
      }
    }
  }
}
