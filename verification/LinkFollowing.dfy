/** Where a path leads, one link at a time, and that the installer's resolution finds exactly that. */
module LinkFollowing {
  import opened Wrappers
  import opened FileSystems
  import opened PythonClosure

  /** The trees that are installed hold no link of their own. */
  ghost predicate LinksOutside(nodes: Nodes) {
    forall p :: p in nodes && p.Inside? ==> !nodes[p].Symlink?
  }

  /** The first link on the way of a path is replaced by its text, if there is one. */
  function Hop(nodes: Nodes, p: Path): Option<Path> {
    if p in nodes && nodes[p].Symlink? then Some(nodes[p].value)
    else if p.Inside? then
      match Hop(nodes, p.tree)
      case None => None
      case Some(tree) => Some(Inside(tree, p.rest))
    else None
  }

  /** After n hops the path is q, which has no link on its way. */
  ghost predicate Leads(nodes: Nodes, p: Path, n: nat, q: Path)
    decreases n
  {
    if n == 0 then p == q && Hop(nodes, p).None? else Hop(nodes, p).Some? && Leads(nodes, Hop(nodes, p).value, n - 1, q)
  }

  lemma {:induction false} LeadsOnce(nodes: Nodes, p: Path, n: nat, q: Path, m: nat, r: Path)
    requires Leads(nodes, p, n, q) && Leads(nodes, p, m, r)
    ensures n == m && q == r
    decreases n
  {
    if n > 0 && m > 0 {
      LeadsOnce(nodes, Hop(nodes, p).value, n - 1, q, m - 1, r);
    }
  }

  /** A path below a tree leads below wherever the tree leads. */
  lemma {:induction false} LeadsBelow(nodes: Nodes, p: Path, n: nat, q: Path, rest: string)
    requires LinksOutside(nodes) && Leads(nodes, p, n, q)
    ensures Leads(nodes, Inside(p, rest), n, Inside(q, rest))
    decreases n
  {
    if n > 0 {
      LeadsBelow(nodes, Hop(nodes, p).value, n - 1, q, rest);
    }
  }

  /** A path below a tree leads nowhere else. */
  lemma {:induction false} LeadsAbove(nodes: Nodes, p: Path, n: nat, q: Path, rest: string) returns (tree: Path)
    requires LinksOutside(nodes) && Leads(nodes, Inside(p, rest), n, q)
    ensures q == Inside(tree, rest) && Leads(nodes, p, n, tree)
    decreases n
  {
    if n == 0 {
      tree := p;
    } else {
      tree := LeadsAbove(nodes, Hop(nodes, p).value, n - 1, q, rest);
    }
  }

  lemma {:induction false} ResolvedLeads(nodes: Nodes, p: Path, seen: set<Path>) returns (n: nat)
    requires LinksOutside(nodes) && Resolve(nodes, p, seen).Some?
    ensures Leads(nodes, p, n, Resolve(nodes, p, seen).value)
    decreases |nodes.Keys - seen|, p
  {
    if p in nodes && nodes[p].Symlink? {
      assert nodes.Keys - (seen + {p}) == (nodes.Keys - seen) - {p};
      var m := ResolvedLeads(nodes, nodes[p].value, seen + {p});
      n := m + 1;
    } else if p.Inside? {
      n := ResolvedLeads(nodes, p.tree, seen);
      LeadsBelow(nodes, p.tree, n, Resolve(nodes, p.tree, seen).value, p.rest);
    } else {
      n := 0;
    }
  }

  /** The links followed so far take longer to get to the end than this path does. */
  ghost predicate Longer(nodes: Nodes, seen: set<Path>, n: nat) {
    forall s, m: nat, r :: s in seen && Leads(nodes, s, m, r) ==> n < m
  }

  lemma {:induction false} LeadsResolved(nodes: Nodes, p: Path, n: nat, q: Path, seen: set<Path>)
    requires LinksOutside(nodes) && Leads(nodes, p, n, q) && Longer(nodes, seen, n)
    ensures Resolve(nodes, p, seen) == Some(q)
    decreases |nodes.Keys - seen|, p
  {
    if p in nodes && nodes[p].Symlink? {
      assert nodes.Keys - (seen + {p}) == (nodes.Keys - seen) - {p};
      forall s, m: nat, r | s in seen + {p} && Leads(nodes, s, m, r) ensures n - 1 < m {
        if s == p {
          LeadsOnce(nodes, p, n, q, m, r);
        }
      }
      LeadsResolved(nodes, nodes[p].value, n - 1, q, seen + {p});
    } else if p.Inside? {
      var tree := LeadsAbove(nodes, p.tree, n, q, p.rest);
      LeadsResolved(nodes, p.tree, n, tree, seen);
    }
  }

  ghost predicate LeadsTo(nodes: Nodes, p: Path, q: Path) {
    exists n: nat :: Leads(nodes, p, n, q)
  }

  lemma LeadsToIff(nodes: Nodes, p: Path, q: Path)
    requires LinksOutside(nodes)
    ensures Resolve(nodes, p, {}) == Some(q) <==> LeadsTo(nodes, p, q)
  {
    if Resolve(nodes, p, {}).Some? {
      var n := ResolvedLeads(nodes, p, {});
    }
    if LeadsTo(nodes, p, q) {
      var n: nat :| Leads(nodes, p, n, q);
      LeadsResolved(nodes, p, n, q, {});
    }
  }

  /** Resolution finds the end of the chain of links, and fails exactly if the chain has none. */
  lemma ResolveIff(nodes: Nodes, p: Path)
    requires LinksOutside(nodes)
    ensures forall q :: Resolve(nodes, p, {}) == Some(q) <==> LeadsTo(nodes, p, q)
    ensures Resolve(nodes, p, {}).None? <==> forall q :: !LeadsTo(nodes, p, q)
  {
    forall q ensures Resolve(nodes, p, {}) == Some(q) <==> LeadsTo(nodes, p, q) {
      LeadsToIff(nodes, p, q);
    }
    if Resolve(nodes, p, {}).Some? {
      assert LeadsTo(nodes, p, Resolve(nodes, p, {}).value);
    }
  }

  /** The path is the tree or a path below it. */
  ghost predicate Under(p: Path, tree: Path)
    decreases p
  {
    p == tree || (p.Inside? && Under(p.tree, tree))
  }

  lemma {:induction false} RootIff(p: Path, tree: Path)
    ensures Root(p) == tree <==> !tree.Inside? && Under(p, tree)
    decreases p
  {
    if p.Inside? {
      RootIff(p.tree, tree);
    }
  }

  /** The path leads to the directory tree or below it, and the tree's contents are good there. */
  ghost predicate GoodTree(nodes: Nodes, path: Path, q: Path, tree: Path, good: (Content, Path) -> bool) {
    && LeadsTo(nodes, path, q) && Under(q, tree) && !tree.Inside?
    && tree in nodes && nodes[tree].Directory? && good(nodes[tree].content, q)
  }

  /** An environment is installed at a path exactly if its links lead into a directory tree whose contents are
      good where they are. */
  lemma InstalledIff(nodes: Nodes, path: Path, good: (Content, Path) -> bool)
    requires LinksOutside(nodes)
    ensures Installed(nodes, path, good) <==> exists q, tree :: GoodTree(nodes, path, q, tree, good)
  {
    ResolveIff(nodes, path);
    if Installed(nodes, path, good) {
      var q := Resolve(nodes, path, {}).value;
      RootIff(q, Root(q));
      assert GoodTree(nodes, path, q, Root(q), good);
    }
    if exists q, tree :: GoodTree(nodes, path, q, tree, good) {
      var q, tree :| GoodTree(nodes, path, q, tree, good);
      RootIff(q, tree);
    }
  }

  /** A link to a tree that is good at its own path is an installation. */
  lemma LinkIsInstalled(nodes: Nodes, link: Path, tree: Path, good: (Content, Path) -> bool)
    requires link in nodes && nodes[link] == Symlink(tree) && !tree.Inside?
    requires tree in nodes && nodes[tree].Directory?
    ensures Installed(nodes, link, good) <==> good(nodes[tree].content, tree)
  {
    assert !nodes[tree].Symlink? && Resolve(nodes, tree, {link}) == Some(tree);
    assert Resolve(nodes, link, {}) == Resolve(nodes, tree, {} + {link}) && {} + {link} == {link};
  }
}
