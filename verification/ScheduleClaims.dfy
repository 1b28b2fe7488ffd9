/** When a declaration's jobs claim crontab lines without getting in each other's way. */
module ScheduleClaims {
  import opened Wrappers
  import opened Schedules

  /** What one line of a job claims: the line, its command, and the path identities in the command. */
  datatype LineClaim = LineClaim(id: string, line: string, command: Option<string>, anchors: set<string>)

  function ClaimOf(id: string, line: string, home: string): LineClaim {
    match CronParts(line)
    case None => LineClaim(id, line, None, {})
    case Some((_, command)) => LineClaim(id, line, Some(command), Anchors(command, home))
  }

  function ClaimsOfLines(id: string, lines: seq<string>, home: string): seq<LineClaim> {
    if lines == [] then [] else [ClaimOf(id, lines[0], home)] + ClaimsOfLines(id, lines[1..], home)
  }

  /** All claims of the jobs, in order, if their placeholders can be rendered. */
  function ClaimsOfJobs(jobs: seq<Job>, home: string): Result<seq<LineClaim>> {
    if jobs == [] then Ok([])
    else
      var lines :- JobLines(jobs[0], home);
      var rest :- ClaimsOfJobs(jobs[1..], home);
      Ok(ClaimsOfLines(jobs[0].id, lines, home) + rest)
  }

  /** Every line is a cron line, and lines of different jobs share neither the line, nor the command,
      nor a path identity. */
  ghost predicate Disjoint(claims: seq<LineClaim>) {
    && (forall i :: 0 <= i < |claims| ==> claims[i].command.Some?)
    && (forall i, j :: 0 <= i < j < |claims| ==> Compatible(claims[i], claims[j]))
  }

  predicate Compatible(x: LineClaim, y: LineClaim) {
    x.id == y.id || (x.line != y.line && x.command != y.command && x.anchors !! y.anchors)
  }

  // ----- recording claims

  function Record(c: Claims, x: LineClaim): Result<Claims> {
    if x.line in c.exact && c.exact[x.line] != x.id then Raise
    else if x.command.None? then Raise
    else if x.command.value in c.commands && c.commands[x.command.value] != x.id then Raise
    else if exists a :: a in x.anchors && a in c.anchors && c.anchors[a] != x.id then Raise
    else Ok(Claims(c.exact[x.line := x.id], c.commands[x.command.value := x.id], c.anchors + map a | a in x.anchors :: x.id))
  }

  function RecordAll(c: Claims, claims: seq<LineClaim>): Result<Claims>
    decreases |claims|
  {
    if claims == [] then Ok(c)
    else
      var c' :- Record(c, claims[0]);
      RecordAll(c', claims[1..])
  }

  lemma {:induction false} RecordAppend(c: Claims, a: seq<LineClaim>, b: seq<LineClaim>)
    ensures RecordAll(c, a + b) == if RecordAll(c, a).Ok? then RecordAll(RecordAll(c, a).value, b) else Raise
    decreases |a|
  {
    if a == [] {
      assert a + b == b;
    } else {
      assert (a + b)[0] == a[0] && (a + b)[1..] == a[1..] + b;
      if Record(c, a[0]).Ok? {
        RecordAppend(Record(c, a[0]).value, a[1..], b);
      }
    }
  }

  lemma {:induction false} LinesAreRecorded(c: Claims, id: string, lines: seq<string>, home: string)
    ensures ClaimLines(c, id, lines, home) == RecordAll(c, ClaimsOfLines(id, lines, home))
    decreases |lines|
  {
    if lines != [] {
      var claims := ClaimsOfLines(id, lines, home);
      assert claims[0] == ClaimOf(id, lines[0], home) && claims[1..] == ClaimsOfLines(id, lines[1..], home);
      assert ClaimLine(c, id, lines[0], home) == Record(c, claims[0]);
      if Record(c, claims[0]).Ok? {
        LinesAreRecorded(Record(c, claims[0]).value, id, lines[1..], home);
      }
    }
  }

  lemma {:induction false} JobsAreRecorded(c: Claims, jobs: seq<Job>, home: string)
    ensures ClaimJobs(c, jobs, home) ==
            if ClaimsOfJobs(jobs, home).Ok? then RecordAll(c, ClaimsOfJobs(jobs, home).value) else Raise
    decreases |jobs|
  {
    if jobs != [] && JobLines(jobs[0], home).Ok? {
      var lines := JobLines(jobs[0], home).value;
      var first := ClaimsOfLines(jobs[0].id, lines, home);
      LinesAreRecorded(c, jobs[0].id, lines, home);
      if ClaimsOfJobs(jobs[1..], home).Ok? {
        RecordAppend(c, first, ClaimsOfJobs(jobs[1..], home).value);
      }
      if RecordAll(c, first).Ok? {
        JobsAreRecorded(RecordAll(c, first).value, jobs[1..], home);
      }
    }
  }

  // ----- what the recorded claims say

  /** The map names the owner of exactly the keys that were claimed. */
  ghost predicate Owned(m: map<string, string>, claims: seq<LineClaim>, keys: LineClaim -> set<string>) {
    && (forall i, k :: 0 <= i < |claims| && k in keys(claims[i]) ==> k in m && m[k] == claims[i].id)
    && (forall k :: k in m ==> exists i :: 0 <= i < |claims| && k in keys(claims[i]))
  }

  /** Claiming a set of keys for a job. */
  predicate Free(m: map<string, string>, id: string, ks: set<string>) {
    forall k :: k in ks && k in m ==> m[k] == id
  }

  function Taken(m: map<string, string>, id: string, ks: set<string>): map<string, string> {
    m + map k | k in ks :: id
  }

  lemma FreeIff(m: map<string, string>, claims: seq<LineClaim>, x: LineClaim, keys: LineClaim -> set<string>)
    requires Owned(m, claims, keys)
    ensures Free(m, x.id, keys(x)) <==> forall i :: 0 <= i < |claims| ==> claims[i].id == x.id || keys(claims[i]) !! keys(x)
  {
    if Free(m, x.id, keys(x)) {
      forall i | 0 <= i < |claims| && claims[i].id != x.id ensures keys(claims[i]) !! keys(x) {
        forall k | k in keys(claims[i]) ensures k !in keys(x) {
        }
      }
    } else {
      var k :| k in keys(x) && k in m && m[k] != x.id;
      var i :| 0 <= i < |claims| && k in keys(claims[i]);
    }
  }

  lemma TakenIsOwned(m: map<string, string>, claims: seq<LineClaim>, x: LineClaim, keys: LineClaim -> set<string>)
    requires Owned(m, claims, keys) && Free(m, x.id, keys(x))
    ensures Owned(Taken(m, x.id, keys(x)), claims + [x], keys)
  {
    var all, after := claims + [x], Taken(m, x.id, keys(x));
    assert all[|claims|] == x;
    forall k | k in after ensures exists i :: 0 <= i < |all| && k in keys(all[i]) {
      if k in keys(x) {
        assert k in keys(all[|claims|]);
      } else {
        var i :| 0 <= i < |claims| && k in keys(claims[i]);
        assert k in keys(all[i]);
      }
    }
  }

  function LineKeys(): LineClaim -> set<string> { (x: LineClaim) => {x.line} }
  function CommandKeys(): LineClaim -> set<string> { (x: LineClaim) => if x.command.Some? then {x.command.value} else {} }
  function AnchorKeys(): LineClaim -> set<string> { (x: LineClaim) => x.anchors }

  /** The recorded claims name the owner of exactly the lines, commands and path identities claimed. */
  ghost predicate Records(c: Claims, claims: seq<LineClaim>) {
    Owned(c.exact, claims, LineKeys()) && Owned(c.commands, claims, CommandKeys()) && Owned(c.anchors, claims, AnchorKeys())
  }

  lemma RecordIs(c: Claims, x: LineClaim)
    ensures Record(c, x) ==
      if x.command.Some? && Free(c.exact, x.id, LineKeys()(x)) && Free(c.commands, x.id, CommandKeys()(x)) && Free(c.anchors, x.id, AnchorKeys()(x))
      then Ok(Claims(Taken(c.exact, x.id, LineKeys()(x)), Taken(c.commands, x.id, CommandKeys()(x)), Taken(c.anchors, x.id, AnchorKeys()(x))))
      else Raise
  {
    if x.command.Some? {
      assert c.exact[x.line := x.id] == Taken(c.exact, x.id, {x.line});
      assert c.commands[x.command.value := x.id] == Taken(c.commands, x.id, {x.command.value});
    }
  }

  lemma CompatibleIff(x: LineClaim, y: LineClaim)
    requires x.command.Some? && y.command.Some?
    ensures Compatible(x, y) <==>
      && (x.id == y.id || LineKeys()(x) !! LineKeys()(y)) && (x.id == y.id || CommandKeys()(x) !! CommandKeys()(y))
      && (x.id == y.id || AnchorKeys()(x) !! AnchorKeys()(y))
  {
  }

  lemma RecordStep(c: Claims, claims: seq<LineClaim>, x: LineClaim)
    requires Records(c, claims) && forall i :: 0 <= i < |claims| ==> claims[i].command.Some?
    ensures Record(c, x).Ok? <==> x.command.Some? && forall i :: 0 <= i < |claims| ==> Compatible(claims[i], x)
    ensures Record(c, x).Ok? ==> Records(Record(c, x).value, claims + [x])
  {
    RecordIs(c, x);
    FreeIff(c.exact, claims, x, LineKeys());
    FreeIff(c.commands, claims, x, CommandKeys());
    FreeIff(c.anchors, claims, x, AnchorKeys());
    if x.command.Some? {
      forall i | 0 <= i < |claims|
        ensures Compatible(claims[i], x) <==>
          && (claims[i].id == x.id || LineKeys()(claims[i]) !! LineKeys()(x))
          && (claims[i].id == x.id || CommandKeys()(claims[i]) !! CommandKeys()(x))
          && (claims[i].id == x.id || AnchorKeys()(claims[i]) !! AnchorKeys()(x))
      {
        CompatibleIff(claims[i], x);
      }
    }
    if Record(c, x).Ok? {
      TakenIsOwned(c.exact, claims, x, LineKeys());
      TakenIsOwned(c.commands, claims, x, CommandKeys());
      TakenIsOwned(c.anchors, claims, x, AnchorKeys());
    }
  }

  lemma DisjointLast(claims: seq<LineClaim>, x: LineClaim)
    ensures Disjoint(claims + [x]) <==>
            Disjoint(claims) && x.command.Some? && forall i :: 0 <= i < |claims| ==> Compatible(claims[i], x)
  {
    var all := claims + [x];
    assert all[|claims|] == x && forall i :: 0 <= i < |claims| ==> all[i] == claims[i];
  }

  lemma RecordLast(c: Claims, claims: seq<LineClaim>, x: LineClaim)
    ensures RecordAll(c, claims + [x]) == if RecordAll(c, claims).Ok? then Record(RecordAll(c, claims).value, x) else Raise
  {
    RecordAppend(c, claims, [x]);
    assert [x][1..] == [];
  }

  lemma {:induction false} RecordAllIff(claims: seq<LineClaim>)
    ensures var r := RecordAll(Claims(map[], map[], map[]), claims);
      (r.Ok? <==> Disjoint(claims)) && (r.Ok? ==> Records(r.value, claims))
  {
    if claims != [] {
      var n := |claims| - 1;
      var init, x := claims[..n], claims[n];
      var start := Claims(map[], map[], map[]);
      assert claims == init + [x];
      RecordAllIff(init);
      DisjointLast(init, x);
      RecordLast(start, init, x);
      if RecordAll(start, init).Ok? {
        RecordStep(RecordAll(start, init).value, init, x);
      }
    }
  }

  /** The claim contract holds exactly when the placeholders render and no line, command or path identity
      is claimed by two jobs; it then names the owner of everything claimed. */
  lemma ContractIff(jobs: seq<Job>, home: string)
    ensures Contract(jobs, home).Ok? <==> ClaimsOfJobs(jobs, home).Ok? && Disjoint(ClaimsOfJobs(jobs, home).value)
    ensures Contract(jobs, home).Ok? ==> Records(Contract(jobs, home).value, ClaimsOfJobs(jobs, home).value)
  {
    JobsAreRecorded(Claims(map[], map[], map[]), jobs, home);
    if ClaimsOfJobs(jobs, home).Ok? {
      RecordAllIff(ClaimsOfJobs(jobs, home).value);
    }
  }
}
