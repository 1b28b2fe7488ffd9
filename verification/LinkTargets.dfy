/** Which targets of declared links exist, now or once the links are in place. */
module LinkTargets {
  import opened Wrappers
  import opened FileSystems

  /** Declared links: each link path with the text it has to hold. */
  type Specifications = map<Path, Path>

  /** Whether a path leads to something: what exists() answers in these nodes. */
  type Existence = (Nodes, Path) -> bool

  // ----- the program's test

  /** What a path below a declared link will lead to once that link is in place; the longest link counts. */
  function Projected(specs: Specifications, target: Path): Option<Path> {
    if target in specs then Some(specs[target])
    else if target.Inside? then
      match Projected(specs, target.tree)
      case None => None
      case Some(source) => Some(Inside(source, target.rest))
    else None
  }

  /** prospective_target_exists */
  predicate Prospective(nodes: Nodes, specs: Specifications, target: Path, there: Existence) {
    there(nodes, target) || (Projected(specs, target).Some? && there(nodes, Projected(specs, target).value))
  }

  // ----- what it decides

  /** The path reached from a base by these steps down. */
  function Down(base: Path, steps: seq<string>): Path {
    if steps == [] then base else Inside(Down(base, steps[..|steps| - 1]), steps[|steps| - 1])
  }

  /** The target lies at, or these steps below, the declared link; below no declared link is it nearer. */
  ghost predicate LongestLink(specs: Specifications, target: Path, l: Path, steps: seq<string>) {
    && l in specs && target == Down(l, steps)
    && forall k, more :: k in specs && target == Down(k, more) ==> |steps| <= |more|
  }

  /** The target exists, or the path does that has the text of the target's longest declared link in
      place of that link. */
  ghost predicate Reached(nodes: Nodes, specs: Specifications, target: Path, there: Existence) {
    || there(nodes, target)
    || exists l, steps :: LongestLink(specs, target, l, steps) && there(nodes, Down(specs[l], steps))
  }

  ghost predicate AllReached(nodes: Nodes, specs: Specifications, there: Existence) {
    forall l :: l in specs ==> Reached(nodes, specs, specs[l], there)
  }

  lemma DownLast(base: Path, steps: seq<string>, last: string)
    ensures Down(base, steps + [last]) == Inside(Down(base, steps), last)
  {
    assert (steps + [last])[..|steps|] == steps;
  }

  /** A declared link is its own longest link. */
  lemma LinkItself(specs: Specifications, target: Path, l: Path, steps: seq<string>)
    requires target in specs
    ensures LongestLink(specs, target, l, steps) <==> l == target && steps == []
  {
    assert target == Down(target, []);
  }

  /** Below a path that is no declared link the longest link is that of the path above. */
  lemma LinkAbove(specs: Specifications, target: Path, l: Path, steps: seq<string>)
    requires target !in specs && target.Inside? && LongestLink(specs, target, l, steps)
    ensures steps != [] && steps[|steps| - 1] == target.rest && LongestLink(specs, target.tree, l, steps[..|steps| - 1])
  {
    forall k, more | k in specs && target.tree == Down(k, more) ensures |steps| - 1 <= |more| {
      DownLast(k, more, target.rest);
    }
  }

  lemma LinkBelow(specs: Specifications, target: Path, l: Path, steps: seq<string>)
    requires target !in specs && target.Inside? && LongestLink(specs, target.tree, l, steps)
    ensures LongestLink(specs, target, l, steps + [target.rest])
  {
    DownLast(l, steps, target.rest);
    forall k, more | k in specs && target == Down(k, more) ensures |steps| + 1 <= |more| {
      assert more != [] && target.tree == Down(k, more[..|more| - 1]);
    }
  }

  /** The recursion finds the longest link and puts its text in its place, or there is no such link. */
  lemma {:induction false} ProjectedFrom(specs: Specifications, target: Path) returns (l: Path, steps: seq<string>)
    requires Projected(specs, target).Some?
    ensures LongestLink(specs, target, l, steps) && Projected(specs, target).value == Down(specs[l], steps)
  {
    if target in specs {
      l, steps := target, [];
      LinkItself(specs, target, l, steps);
    } else {
      l, steps := ProjectedFrom(specs, target.tree);
      LinkBelow(specs, target, l, steps);
      DownLast(specs[l], steps, target.rest);
      steps := steps + [target.rest];
    }
  }

  lemma {:induction false} ProjectedTo(specs: Specifications, target: Path, l: Path, steps: seq<string>)
    requires LongestLink(specs, target, l, steps)
    ensures Projected(specs, target) == Some(Down(specs[l], steps))
  {
    if target in specs {
      LinkItself(specs, target, l, steps);
    } else {
      LinkAbove(specs, target, l, steps);
      ProjectedTo(specs, target.tree, l, steps[..|steps| - 1]);
    }
  }

  /** The program's test succeeds exactly if the target exists or will, through its longest declared link. */
  lemma ProspectiveIff(nodes: Nodes, specs: Specifications, target: Path, there: Existence)
    ensures Prospective(nodes, specs, target, there) <==> Reached(nodes, specs, target, there)
  {
    if Projected(specs, target).Some? {
      var l, steps := ProjectedFrom(specs, target);
    }
    if l, steps :| LongestLink(specs, target, l, steps) && there(nodes, Down(specs[l], steps)) {
      ProjectedTo(specs, target, l, steps);
    }
  }

  /** A link to a path below another declared link is no obstacle on a host that has neither. */
  lemma LinkBelowLink(nodes: Nodes, tree: Path, source: Path, link: Path, rest: string, there: Existence)
    requires tree.Named? && link.Named? && link != tree
    requires there(nodes, source) && there(nodes, Inside(source, rest))
    ensures AllReached(nodes, map[tree := source, link := Inside(tree, rest)], there)
  {
    var specs := map[tree := source, link := Inside(tree, rest)];
    assert Projected(specs, Inside(tree, rest)) == Some(Inside(source, rest));
    forall l | l in specs ensures Reached(nodes, specs, specs[l], there) {
      ProspectiveIff(nodes, specs, specs[l], there);
    }
  }
}
