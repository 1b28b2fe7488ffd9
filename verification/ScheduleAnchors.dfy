/** Which parts of a command are path identities of the repository's own jobs. */
module ScheduleAnchors {
  import opened Text
  import opened Schedules

  const OWNED_ROOTS: set<string> := {
    "coding-system-rebuild/", ".local/share/coding-system/repository/",
    ".openclaw/workspace-sanitizer/", ".openclaw/workspace-moltbook/"
  }

  /** Letters, digits and the six signs, by their codes. */
  predicate PathChar(c: char) {
    || 65 <= c as int <= 90 || 97 <= c as int <= 122 || 48 <= c as int <= 57
    || c as int == 95 || c as int == 46 || c as int == 42 || c as int == 36 || c as int == 47 || c as int == 45
  }

  lemma CharIff(c: char)
    ensures AnchorChar(c) <==> PathChar(c)
  {
  }

  /** The characters of a path identity after its root. */
  predicate PathChars(s: string) {
    forall i :: 0 <= i < |s| ==> PathChar(s[i])
  }

  /** Here the text has an owned root below the home, then as many path characters as there are, at least one. */
  ghost predicate OwnedAt(s: string, home: string, i: nat, n: nat) {
    exists root :: root in OWNED_ROOTS && RootAt(s, home, root, i, n)
  }

  predicate RootAt(s: string, home: string, root: string, i: nat, n: nat) {
    var head := home + "/" + root;
    && |head| < n && i + n <= |s| && s[i..i + |head|] == head && PathChars(s[i + |head|..i + n])
    && (i + n < |s| ==> !PathChar(s[i + n]))
  }

  lemma {:induction false} RunIs(s: string, n: nat)
    requires n <= |s| && PathChars(s[..n]) && (n < |s| ==> !PathChar(s[n]))
    ensures AnchorRun(s) == n
  {
    if s != "" {
      CharIff(s[0]);
    }
    if n > 0 {
      assert s[0] == s[..n][0] && s[1..][..n - 1] == s[..n][1..];
      RunIs(s[1..], n - 1);
    }
  }

  lemma {:induction false} RunShape(s: string)
    ensures PathChars(s[..AnchorRun(s)]) && (AnchorRun(s) < |s| ==> !PathChar(s[AnchorRun(s)]))
  {
    if s != "" {
      CharIff(s[0]);
    }
    if s != "" && AnchorChar(s[0]) {
      RunShape(s[1..]);
      assert s[..AnchorRun(s)] == [s[0]] + s[1..][..AnchorRun(s[1..])];
    }
  }

  lemma AnchorAtIff(s: string, home: string, root: string, n: nat)
    ensures n > 0 ==> (AnchorAt(s, home, root) == n <==> RootAt(s, home, root, 0, n))
  {
    var head := home + "/" + root;
    if StartsWith(s, head) {
      RunShape(s[|head|..]);
      if RootAt(s, home, root, 0, n) {
        assert s[|head|..][..n - |head|] == s[|head|..n];
        RunIs(s[|head|..], n - |head|);
      }
      if n > 0 && AnchorAt(s, home, root) == n {
        assert s[|head|..][..n - |head|] == s[|head|..n];
      }
    }
  }

  const REBUILD := "coding-system-rebuild/"
  const REPOSITORY := ".local/share/coding-system/repository/"
  const SANITIZER := ".openclaw/workspace-sanitizer/"
  const MOLTBOOK := ".openclaw/workspace-moltbook/"

  /** A character in which two roots differ. */
  lemma RootsDiffer(a: string, b: string) returns (k: nat)
    requires a in OWNED_ROOTS && b in OWNED_ROOTS && a != b
    ensures k < |a| && k < |b| && a[k] != b[k]
  {
    assert REBUILD[0] == 'c' && REPOSITORY[0] == '.' && SANITIZER[0] == '.' && MOLTBOOK[0] == '.';
    assert REPOSITORY[1] == 'l' && SANITIZER[1] == 'o' && MOLTBOOK[1] == 'o';
    assert SANITIZER[20] == 's' && MOLTBOOK[20] == 'm';
    k := if a == REBUILD || b == REBUILD then 0 else if a == REPOSITORY || b == REPOSITORY then 1 else 20;
  }

  lemma RootChar(s: string, home: string, root: string, n: nat, k: nat)
    requires RootAt(s, home, root, 0, n) && k < |root|
    ensures |home| + 1 + k < |s| && s[|home| + 1 + k] == root[k]
  {
    var head := home + "/" + root;
    assert head[|home| + 1 + k] == root[k] && s[0..|head|][|home| + 1 + k] == s[|home| + 1 + k];
  }

  lemma RunChar(s: string, home: string, root: string, n: nat, k: nat)
    requires RootAt(s, home, root, 0, n) && |home| + 1 + |root| <= k < n
    ensures k < |s| && PathChar(s[k])
  {
    var start := |home + "/" + root|;
    assert s[start..n][k - start] == s[k];
  }

  /** At one place at most one root stands below the home. */
  lemma OneRoot(s: string, home: string, a: string, b: string, n: nat, m: nat)
    requires a in OWNED_ROOTS && b in OWNED_ROOTS && RootAt(s, home, a, 0, n) && RootAt(s, home, b, 0, m)
    ensures a == b && n == m
  {
    if a != b {
      var k := RootsDiffer(a, b);
      RootChar(s, home, a, n, k);
      RootChar(s, home, b, m, k);
    } else if n < m {
      RunChar(s, home, a, m, n);
    } else if m < n {
      RunChar(s, home, a, n, m);
    }
  }

  lemma LengthIff(s: string, home: string, n: nat)
    requires n > 0
    ensures AnchorLength(s, home) == n <==> OwnedAt(s, home, 0, n)
  {
    AnchorAtIff(s, home, REBUILD, AnchorAt(s, home, REBUILD));
    AnchorAtIff(s, home, REPOSITORY, AnchorAt(s, home, REPOSITORY));
    AnchorAtIff(s, home, SANITIZER, AnchorAt(s, home, SANITIZER));
    AnchorAtIff(s, home, MOLTBOOK, AnchorAt(s, home, MOLTBOOK));
    if AnchorLength(s, home) > 0 {
      var root := if AnchorAt(s, home, REBUILD) > 0 then REBUILD else if AnchorAt(s, home, REPOSITORY) > 0 then REPOSITORY
                  else if AnchorAt(s, home, SANITIZER) > 0 then SANITIZER else MOLTBOOK;
      assert root in OWNED_ROOTS && RootAt(s, home, root, 0, AnchorLength(s, home));
      if other :| other in OWNED_ROOTS && RootAt(s, home, other, 0, n) {
        OneRoot(s, home, root, other, AnchorLength(s, home), n);
      }
    } else if other :| other in OWNED_ROOTS && RootAt(s, home, other, 0, n) {
      AnchorAtIff(s, home, other, n);
    }
  }

  lemma RootShift(s: string, home: string, root: string, i: nat, n: nat)
    requires i <= |s|
    ensures RootAt(s[i..], home, root, 0, n) <==> RootAt(s, home, root, i, n)
  {
    var head := home + "/" + root;
    if |head| < n && i + n <= |s| {
      assert s[i..][0..|head|] == s[i..i + |head|] && s[i..][|head|..n] == s[i + |head|..i + n];
    }
  }

  /** The search finds a match of this length here exactly if an owned path of this length stands here. */
  lemma MatchIff(s: string, home: string, i: nat, n: nat)
    requires i <= |s| && n > 0
    ensures AnchorsBelow(home)(s[i..]) == n <==> OwnedAt(s, home, i, n)
  {
    LengthIff(s[i..], home, n);
    forall root | root in OWNED_ROOTS ensures RootAt(s[i..], home, root, 0, n) <==> RootAt(s, home, root, i, n) {
      RootShift(s, home, root, i, n);
    }
  }

  // ----- leftmost matches that do not overlap

  lemma FindStep(s: string, length: string -> nat)
    requires s != "" && length(s) <= |s|
    ensures FindBy(s, length) == if length(s) == 0 then FindBy(s[1..], length) else {s[..length(s)]} + FindBy(s[length(s)..], length)
  {
  }

  ghost predicate Fits(length: string -> nat) {
    forall s :: length(s) <= |s|
  }

  lemma Later(s: string, k: nat, i: nat)
    requires k <= i <= |s|
    ensures s[k..][i - k..] == s[i..]
  {
  }

  lemma {:induction false} FoundMatches(s: string, length: string -> nat, a: string) returns (i: nat)
    requires Fits(length) && a in FindBy(s, length)
    ensures i + |a| <= |s| && a != "" && length(s[i..]) == |a| && s[i..i + |a|] == a
    decreases |s|
  {
    FindStep(s, length);
    var n := length(s);
    if n > 0 && a == s[..n] {
      i := 0;
      assert s[0..] == s;
    } else {
      var k := if n > 0 then n else 1;
      var j := FoundMatches(s[k..], length, a);
      i := k + j;
      Later(s, k, i);
      assert s[k..][j..j + |a|] == s[i..i + |a|];
    }
  }

  function Advance(s: string, length: string -> nat): nat {
    if length(s) > 0 then length(s) else 1
  }

  lemma FoundLater(s: string, length: string -> nat)
    requires Fits(length) && s != ""
    ensures Advance(s, length) <= |s| && FindBy(s[Advance(s, length)..], length) <= FindBy(s, length)
  {
    FindStep(s, length);
  }

  lemma SameSlice(s: string, k: nat, j: nat, m: nat)
    requires k <= j && j + m <= |s|
    ensures s[k..][j - k..j - k + m] == s[j..j + m]
  {
  }

  /** The text has a match here, and the search finds one that covers this place. */
  lemma {:induction false} MatchIsCovered(s: string, length: string -> nat, i: nat) returns (j: nat)
    requires Fits(length) && i <= |s| && length(s[i..]) > 0
    ensures j <= i < j + length(s[j..]) <= |s| && s[j..j + length(s[j..])] in FindBy(s, length)
    decreases |s|
  {
    assert s[0..] == s;
    if length(s) > i {
      FindStep(s, length);
      j := 0;
    } else {
      FoundLater(s, length);
      var k := Advance(s, length);
      Later(s, k, i);
      var l := MatchIsCovered(s[k..], length, i - k);
      j := k + l;
      Later(s, k, j);
      SameSlice(s, k, j, length(s[j..]));
    }
  }

  // ----- the anchors

  /** Every anchor found is an owned path of the command, taken in full. */
  lemma AnchorIsOwned(s: string, home: string, a: string) returns (i: nat)
    requires a in FindAnchors(s, home)
    ensures OwnedAt(s, home, i, |a|) && i + |a| <= |s| && s[i..i + |a|] == a
  {
    i := FoundMatches(s, AnchorsBelow(home), a);
    MatchIff(s, home, i, |a|);
  }

  /** The search finds a match of length n at i exactly if `at` says so. */
  ghost predicate Finds(s: string, length: string -> nat, at: (nat, nat) -> bool) {
    forall i: nat, n: nat :: i <= |s| && n > 0 ==> (length(s[i..]) == n <==> at(i, n))
  }

  lemma Covers(s: string, length: string -> nat, at: (nat, nat) -> bool, i: nat, n: nat) returns (j: nat, m: nat)
    requires Fits(length) && Finds(s, length, at) && i <= |s| && n > 0 && at(i, n)
    ensures j <= i < j + m <= |s| && at(j, m) && s[j..j + m] in FindBy(s, length)
  {
    j := MatchIsCovered(s, length, i);
    m := length(s[j..]);
  }

  ghost function Owner(s: string, home: string): (nat, nat) -> bool {
    (i: nat, n: nat) => OwnedAt(s, home, i, n)
  }

  lemma OwnerFinds(s: string, home: string)
    ensures Fits(AnchorsBelow(home)) && Finds(s, AnchorsBelow(home), Owner(s, home))
  {
    forall i: nat, n: nat | i <= |s| && n > 0 ensures AnchorsBelow(home)(s[i..]) == n <==> Owner(s, home)(i, n) {
      MatchIff(s, home, i, n);
    }
  }

  /** Every owned path of the command is an anchor, or starts within one. */
  lemma OwnedIsCovered(s: string, home: string, i: nat, n: nat) returns (j: nat, m: nat)
    requires OwnedAt(s, home, i, n)
    ensures j <= i < j + m <= |s| && OwnedAt(s, home, j, m) && s[j..j + m] in FindAnchors(s, home)
  {
    OwnedBounds(s, home, i, n);
    OwnerFinds(s, home);
    j, m := Covers(s, AnchorsBelow(home), Owner(s, home), i, n);
  }

  lemma OwnedBounds(s: string, home: string, i: nat, n: nat)
    requires OwnedAt(s, home, i, n)
    ensures 0 < n && i + n <= |s|
  {
  }

  /** A command has a path identity exactly if it names a path below an owned root, or runs the stress test. */
  lemma AnchorsIff(command: string, home: string)
    ensures Anchors(command, home) != {} <==>
            (exists i, n :: OwnedAt(command, home, i, n)) || Contains(command, "/usr/bin/stress --cpu 1 --timeout 240")
  {
    if a :| a in FindAnchors(command, home) {
      var i := AnchorIsOwned(command, home, a);
    }
    if i, n :| OwnedAt(command, home, i, n) {
      var j, m := OwnedIsCovered(command, home, i, n);
    }
  }
}
