/** The components of a path, and the paths a commit may hold. */
module CheckoutPaths {
  import opened CheckoutTrees
  import opened Checkout

  /** From i to j stands no slash, but there is one, or an end of the path, on both sides. */
  ghost predicate Spans(path: string, i: nat, j: nat) {
    && i <= j <= |path| && (forall m :: i <= m < j ==> path[m] != '/')
    && (i == 0 || path[i - 1] == '/') && (j == |path| || path[j] == '/')
  }

  ghost predicate Component(path: string, c: string) {
    exists i: nat, j: nat :: Spans(path, i, j) && c == path[i..j]
  }

  /** No slash is before the first one. */
  lemma {:induction false} SlashIsFirst(path: string)
    ensures forall m :: 0 <= m < Slash(path) ==> path[m] != '/'
  {
    if path != "" && path[0] != '/' {
      SlashIsFirst(path[1..]);
      forall m | 0 <= m < Slash(path) ensures path[m] != '/' {
        if m > 0 {
          assert path[m] == path[1..][m - 1];
        }
      }
    }
  }

  lemma FirstSpan(path: string, j: nat)
    ensures Spans(path, 0, j) <==> j == Slash(path)
  {
    SlashIsFirst(path);
  }

  lemma IsComponent(path: string, i: nat, j: nat, c: string)
    requires Spans(path, i, j) && c == path[i..j]
    ensures Component(path, c)
  {
  }

  lemma FirstIsComponent(path: string)
    ensures Component(path, path[..Slash(path)])
  {
    FirstSpan(path, Slash(path));
    IsComponent(path, 0, Slash(path), path[..Slash(path)]);
  }

  /** Behind a slash the spans are those of the rest. */
  lemma SpanMoves(path: string, rest: string, k: nat, i: nat, j: nat)
    requires k < |path| && path[k] == '/' && rest == path[k + 1..] && i <= j <= |rest|
    ensures Spans(rest, i, j) <==> Spans(path, k + 1 + i, k + 1 + j)
    ensures rest[i..j] == path[k + 1 + i..k + 1 + j]
  {
    assert forall m :: 0 <= m < |rest| ==> rest[m] == path[k + 1 + m];
    assert forall m :: k < m < |path| ==> path[m] == rest[m - k - 1];
  }

  lemma LaterIsComponent(path: string, rest: string, k: nat, c: string)
    requires k < |path| && path[k] == '/' && rest == path[k + 1..] && Component(rest, c)
    ensures Component(path, c)
  {
    var i: nat, j: nat :| Spans(rest, i, j) && c == rest[i..j];
    SpanMoves(path, rest, k, i, j);
    IsComponent(path, k + 1 + i, k + 1 + j, c);
  }

  lemma LaterSpanIs(path: string, rest: string, k: nat, i: nat, j: nat, c: string)
    requires k < i && k < |path| && path[k] == '/' && rest == path[k + 1..] && Spans(path, i, j) && c == path[i..j]
    ensures Component(rest, c)
  {
    SpanMoves(path, rest, k, i - k - 1, j - k - 1);
    IsComponent(rest, i - k - 1, j - k - 1, c);
  }

  lemma FirstOrLater(path: string, c: string)
    requires Component(path, c)
    ensures c == path[..Slash(path)] || (Slash(path) < |path| && Component(path[Slash(path) + 1..], c))
  {
    var i: nat, j: nat :| Spans(path, i, j) && c == path[i..j];
    SlashIsFirst(path);
    if i == 0 {
      FirstSpan(path, j);
    } else {
      LaterSpanIs(path, path[Slash(path) + 1..], Slash(path), i, j, c);
    }
  }

  /** The first component, and those behind the first slash. */
  lemma ComponentFirst(path: string, c: string)
    ensures Component(path, c) <==>
            c == path[..Slash(path)] || (Slash(path) < |path| && Component(path[Slash(path) + 1..], c))
  {
    FirstIsComponent(path);
    if Component(path, c) {
      FirstOrLater(path, c);
    } else if Slash(path) < |path| && Component(path[Slash(path) + 1..], c) {
      LaterIsComponent(path, path[Slash(path) + 1..], Slash(path), c);
    }
  }

  /** pathlib's components are those that are neither empty nor a dot. */
  lemma {:induction false} PartsIff(path: string, c: string)
    ensures c in Parts(path) <==> Component(path, c) && c != "" && c != "."
    decreases |path|
  {
    var i := Slash(path);
    ComponentFirst(path, c);
    if i < |path| {
      PartsIff(path[i + 1..], c);
    }
  }

  /** A committed path is let through exactly if it is relative, has a component and never goes up. */
  lemma SafePathIff(path: string)
    ensures SafePath(path) <==>
      && !(path != "" && path[0] == '/') && !Component(path, "..")
      && exists c :: Component(path, c) && c != "" && c != "."
  {
    PartsIff(path, "..");
    forall c ensures c in Parts(path) <==> Component(path, c) && c != "" && c != "." {
      PartsIff(path, c);
    }
    if Parts(path) != [] {
      assert Parts(path)[0] in Parts(path);
    }
  }

  /** The names of directory entries are the paths of one component that does not go up. */
  lemma GoodNameIff(name: string)
    ensures GoodName(name) <==> Component(name, name) && name !in {"", ".", ".."}
  {
    if GoodName(name) {
      assert name[0..|name|] == name && Spans(name, 0, |name|);
    }
  }
}
