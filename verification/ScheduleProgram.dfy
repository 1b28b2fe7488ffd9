/** The loops of the schedule reconciler, each proved to compute its specification. */
module ScheduleProgram {
  import opened Wrappers
  import opened Text
  import opened HomePlaceholder
  import opened Schedules
  import opened ScheduleStructure
  import opened ScheduleIdempotence
  import opened SchedulePublic
  import opened ScheduleAdoption

  lemma {:induction false} ClaimLinesAppend(c: Claims, id: string, a: seq<string>, b: seq<string>, home: string)
    ensures ClaimLines(c, id, a + b, home) ==
            match ClaimLines(c, id, a, home)
            case Raise => Raise
            case Ok(mid) => ClaimLines(mid, id, b, home)
    decreases |a|
  {
    if a == [] {
      assert a + b == b;
    } else {
      assert (a + b)[0] == a[0] && (a + b)[1..] == a[1..] + b;
      match ClaimLine(c, id, a[0], home)
      case Raise =>
      case Ok(next) => ClaimLinesAppend(next, id, a[1..], b, home);
    }
  }

  lemma {:induction false} ClaimJobsAppend(c: Claims, a: seq<Job>, b: seq<Job>, home: string)
    ensures ClaimJobs(c, a + b, home) ==
            match ClaimJobs(c, a, home)
            case Raise => Raise
            case Ok(mid) => ClaimJobs(mid, b, home)
    decreases |a|
  {
    if a == [] {
      assert a + b == b;
    } else {
      assert (a + b)[0] == a[0] && (a + b)[1..] == a[1..] + b;
      if JobLines(a[0], home).Ok? {
        match ClaimLines(c, a[0].id, JobLines(a[0], home).value, home)
        case Raise =>
        case Ok(next) => ClaimJobsAppend(next, a[1..], b, home);
      }
    }
  }

  /** The path identities of one line. */
  method AddAnchors(before: map<string, string>, found: set<string>, id: string) returns (r: Result<map<string, string>>)
    ensures r == if exists a :: a in found && a in before && before[a] != id then Raise else Ok(before + map a | a in found :: id)
  {
    var anchors, todo := before, found;
    while todo != {}
      invariant todo <= found
      invariant forall a :: a in found - todo ==> !(a in before && before[a] != id)
      invariant anchors == before + map a | a in found - todo :: id
    {
      var anchor :| anchor in todo;
      if anchor in anchors && anchors[anchor] != id {
        return Raise;
      }
      anchors := anchors[anchor := id];
      todo := todo - {anchor};
    }
    assert found - {} == found;
    r := Ok(anchors);
  }

  /** The body of the innermost loops: one line of one job. */
  method AddClaim(c: Claims, id: string, line: string, home: string) returns (r: Result<Claims>)
    ensures r == ClaimLine(c, id, line, home)
  {
    if line in c.exact && c.exact[line] != id {
      return Raise;
    }
    var parsed := CronParts(line);
    if parsed.None? {
      return Raise;
    }
    var command := parsed.value.1;
    if command in c.commands && c.commands[command] != id {
      return Raise;
    }
    var anchors := AddAnchors(c.anchors, Anchors(command, home), id);
    r := if anchors.Raise? then Raise else Ok(Claims(c.exact[line := id], c.commands[command := id], anchors.value));
  }

  /** The inner loop: the lines of one job. */
  lemma ClaimOne(c: Claims, id: string, line: string, home: string)
    ensures ClaimLines(c, id, [line], home) == ClaimLine(c, id, line, home)
  {
    assert [line][1..] == [];
  }

  /** One more line is claimed. */
  lemma ClaimNext(before: Claims, id: string, lines: seq<string>, k: nat, home: string, c: Claims)
    requires k < |lines| && ClaimLines(before, id, lines[..k], home) == Ok(c)
    ensures ClaimLines(before, id, lines[..k + 1], home) == ClaimLine(c, id, lines[k], home)
  {
    ClaimLinesAppend(before, id, lines[..k], [lines[k]], home);
    assert lines[..k + 1] == lines[..k] + [lines[k]];
    ClaimOne(c, id, lines[k], home);
  }

  /** A claim that raises is the end. */
  lemma ClaimFails(before: Claims, id: string, lines: seq<string>, k: nat, home: string)
    requires k <= |lines| && ClaimLines(before, id, lines[..k], home).Raise?
    ensures ClaimLines(before, id, lines, home).Raise?
  {
    ClaimLinesAppend(before, id, lines[..k], lines[k..], home);
    assert lines == lines[..k] + lines[k..];
  }

  method ClaimLinesOf(before: Claims, id: string, lines: seq<string>, home: string) returns (r: Result<Claims>)
    ensures r == ClaimLines(before, id, lines, home)
  {
    var c := before;
    var k := 0;
    while k < |lines|
      invariant 0 <= k <= |lines|
      invariant ClaimLines(before, id, lines[..k], home) == Ok(c)
    {
      ClaimNext(before, id, lines, k, home, c);
      var next := AddClaim(c, id, lines[k], home);
      if next.Raise? {
        ClaimFails(before, id, lines, k + 1, home);
        return Raise;
      }
      c := next.value;
      k := k + 1;
    }
    assert lines[..k] == lines;
    r := Ok(c);
  }

  /** _legacy_claim_contract */
  method LegacyClaimContract(jobs: seq<Job>, home: string) returns (r: Result<Claims>)
    ensures r == Contract(jobs, home)
  {
    var c := Claims(map[], map[], map[]);
    ghost var start := c;
    var i := 0;
    while i < |jobs|
      invariant 0 <= i <= |jobs|
      invariant ClaimJobs(start, jobs[..i], home) == Ok(c)
    {
      assert jobs == jobs[..i] + jobs[i..];
      ClaimJobsAppend(start, jobs[..i], jobs[i..], home);
      assert jobs[..i + 1] == jobs[..i] + [jobs[i]];
      ClaimJobsAppend(start, jobs[..i], [jobs[i]], home);
      assert [jobs[i]][1..] == [];
      var lines := JobLines(jobs[i], home);
      if lines.Raise? {
        return Raise;
      }
      var claimed := ClaimLinesOf(c, jobs[i].id, lines.value, home);
      if claimed.Raise? {
        return Raise;
      }
      c := claimed.value;
      i := i + 1;
    }
    assert jobs[..i] == jobs;
    r := Ok(c);
  }

  /** The scan of reconcile_text, with its loop variables. */
  method ScanText(current: string, claims: Claims, own: set<string>, home: string) returns (r: Result<seq<string>>)
    ensures var st := ScanItems(START, ReadAll(Lines(current), claims, own, home));
            r == if st.Ok? && st.value.active.None? then Ok(st.value.retained) else Raise
  {
    var retained: seq<string> := [];
    var active: Option<Block> := None;
    var found: set<Block> := {};
    var lines := Lines(current);
    var i := 0;
    while i < |lines|
      invariant 0 <= i <= |lines|
      invariant ScanItems(START, ReadAll(lines[..i], claims, own, home)) == Ok(Scan(active, found, retained))
    {
      OneMoreLine(lines, i, claims, own, home);
      ghost var st := Scan(active, found, retained);
      var line := lines[i];
      var bare := Bare(line);
      var marker := MarkOf(Strip(bare));
      i := i + 1;
      if active.Some? {
        if marker == Closes(active.value) {
          active := None;
        } else if !marker.NoMark? {
          return Raise;  // nested, or a mismatched end
        }
      } else if marker.Opens? {
        if marker.block in found {
          return Raise;  // a second block of the same kind
        }
        active, found := Some(marker.block), found + {marker.block};
      } else if marker.Closes? {
        return Raise;
      } else if !Claimed(bare, claims, own) {
        if NearMatch(bare, claims, home) {
          return Raise;
        }
        retained := retained + [line];
      }
    }
    assert lines[..i] == lines;
    r := if active.Some? then Raise else Ok(retained);
  }

  lemma OneMoreItem(before: seq<Item>, item: Item, after: seq<Item>)
    ensures var st := ScanItems(START, before);
      st.Ok? ==>
        && ScanItems(START, before + [item]) == Step(st.value, item)
        && (Step(st.value, item).Raise? ==> ScanItems(START, before + [item] + after).Raise?)
  {
    ScanAppend(START, before, [item]);
    assert [item][1..] == [];
    ScanAppend(START, before + [item], after);
  }

  /** What reading one more line does to the scan of the lines before it. */
  lemma OneMoreLine(lines: seq<string>, i: nat, claims: Claims, own: set<string>, home: string)
    requires i < |lines|
    ensures var before := ScanItems(START, ReadAll(lines[..i], claims, own, home));
            before.Ok? ==>
              var step := Step(before.value, Read(lines[i], claims, own, home));
              && ScanItems(START, ReadAll(lines[..i + 1], claims, own, home)) == step
              && (step.Raise? ==> ScanItems(START, ReadAll(lines, claims, own, home)).Raise?)
  {
    assert lines[..i + 1] == lines[..i] + [lines[i]];
    ReadAllAppend(lines[..i], [lines[i]], claims, own, home);
    assert ReadAll([lines[i]], claims, own, home) == [Read(lines[i], claims, own, home)] by {
      assert [lines[i]][1..] == [];
    }
    assert lines == lines[..i + 1] + lines[i + 1..];
    ReadAllAppend(lines[..i + 1], lines[i + 1..], claims, own, home);
    OneMoreItem(ReadAll(lines[..i], claims, own, home), Read(lines[i], claims, own, home),
                ReadAll(lines[i + 1..], claims, own, home));
  }

  /** reconcile_text */
  method ReconcileText(current: string, jobs: seq<Job>, home: string, private: string) returns (r: Result<string>)
    ensures r == Reconcile(current, jobs, home, private)
  {
    var own := PrivateLines(private, home);
    if own.Raise? {
      return Raise;
    }
    var claims := LegacyClaimContract(jobs, home);
    if claims.Raise? {
      return Raise;
    }
    var retained := ScanText(current, claims.value, Elements(own.value), home);
    if retained.Raise? {
      return Raise;
    }
    var prefix := Join(retained.value);
    if prefix != "" && !EndsWith(prefix, "\n") {
      prefix := prefix + "\n";
    }
    if prefix != "" && !EndsWith(prefix, "\n\n") {
      prefix := prefix + "\n";
    }
    var managed := ManagedBlock(jobs, home);
    if managed.Raise? {
      return Raise;
    }
    r := Ok(prefix + managed.value + Terminate(PrivateBlockLines(own.value)));
  }

  lemma {:induction false} AddNewAppend(lines: seq<string>, a: seq<string>, b: seq<string>, home: string)
    ensures AddNew(lines, a + b, home) == AddNew(AddNew(lines, a, home), b, home)
    decreases |a|
  {
    if a == [] {
      assert a + b == b;
    } else {
      assert (a + b)[0] == a[0] && (a + b)[1..] == a[1..] + b;
      var line := Normalize(a[0], home);
      AddNewAppend(if Blank(a[0]) || line in lines then lines else lines + [line], a[1..], b, home);
    }
  }

  /** adopt_unmanaged */
  method AdoptUnmanaged(current: string, private: string, jobs: seq<Job>, home: string) returns (r: Result<string>)
    ensures r == Adopt(current, private, jobs, home)
  {
    var out := ReconcileText(current, jobs, home, private);
    if out.Raise? {
      return Raise;
    }
    var lines := AddLines(NonBlank(SplitLines(private)), SplitLines(Before(out.value, BEGIN)), home);
    r := Ok(Terminate(lines));
  }

  /** The loop over the retained lines: each is added once, in portable form. */
  method AddLines(existing: seq<string>, raws: seq<string>, home: string) returns (lines: seq<string>)
    ensures lines == AddNew(existing, raws, home)
  {
    lines := existing;
    var i := 0;
    while i < |raws|
      invariant 0 <= i <= |raws|
      invariant lines == AddNew(existing, raws[..i], home)
    {
      assert raws[..i + 1] == raws[..i] + [raws[i]];
      AddNewAppend(existing, raws[..i], [raws[i]], home);
      assert [raws[i]][1..] == [];
      if !Blank(raws[i]) {
        var line := Normalize(raws[i], home);
        if line !in lines {
          lines := lines + [line];
        }
      }
      i := i + 1;
    }
    assert raws[..i] == raws;
  }

  /** public_block */
  method ReadPublicBlock(current: string) returns (r: string)
    ensures r == PublicBlock(current)
  {
    var lines: seq<string> := [];
    var inside := false;
    var raws := SplitLines(current);
    var i := 0;
    while i < |raws|
      invariant 0 <= i <= |raws|
      invariant lines == PublicLines(raws[..i], false) && inside == InsideAfter(raws[..i], false)
    {
      var raw := raws[i];
      assert raws[..i + 1] == raws[..i] + [raw];
      PublicAppend(raws[..i], [raw], false);
      PublicOne(raw, inside);
      var marker := Strip(raw);
      if marker == BEGIN {
        inside := true;
      }
      if inside {
        lines := lines + [raw];
      }
      if marker == END {
        inside := false;
      }
      i := i + 1;
    }
    assert raws[..i] == raws;
    r := Terminate(lines);
  }
}
