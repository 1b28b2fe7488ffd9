/** Which crontab lines a declaration stands for, and which it refuses to stand beside, in terms of its jobs. */
module ScheduleOwned {
  import opened Wrappers
  import opened Text
  import opened Stripping
  import opened HomePlaceholder
  import opened Schedules
  import opened ScheduleClaims
  import opened ScheduleLines
  import opened ScheduleReading

  /** Everything a job says. */
  function TextsOf(job: Job): set<string> {
    {job.id, job.schedule, job.timezone, job.policy, job.command} + set l | l in job.legacy
  }

  lemma LoadedIff(job: Job)
    ensures LoadedJob(job) <==> forall s, c :: s in TextsOf(job) && c in s ==> c as int != 10 && c as int != 13
  {
    var texts := TextsOf(job);
    assert job.id in texts && job.schedule in texts && job.timezone in texts && job.policy in texts && job.command in texts;
  }

  /** The line is one of the job's legacy lines, or its schedule and command. */
  ghost predicate LineOfJob(job: Job, home: string, line: string) {
    || (exists l :: l in job.legacy && SubstituteHome(l, home) == Ok(line))
    || (job.isCron && SubstituteHome(job.command, home).Ok? && line == job.schedule + " " + SubstituteHome(job.command, home).value)
  }

  ghost predicate DeclaredLine(jobs: seq<Job>, home: string, line: string) {
    exists j :: j in jobs && LineOfJob(j, home, line)
  }

  /** The line is an entry with this command. */
  ghost predicate Runs(line: string, command: string) {
    exists words :: IsEntry(line, words, command)
  }

  /** Some declared line runs this command. */
  ghost predicate DeclaredCommand(jobs: seq<Job>, home: string, command: string) {
    exists l :: DeclaredLine(jobs, home, l) && Runs(l, command)
  }

  /** Some declared line's command has this path identity. */
  ghost predicate DeclaredAnchor(jobs: seq<Job>, home: string, anchor: string) {
    exists c :: DeclaredCommand(jobs, home, c) && anchor in Anchors(c, home)
  }

  lemma RunsIff(line: string, command: string)
    ensures Runs(line, command) <==> CronParts(line).Some? && CronParts(line).value.1 == command
  {
    if CronParts(line).Some? {
      var words := ReadIsEntry(line);
    }
    if words :| IsEntry(line, words, command) {
      EntryIsRead(line, words, command);
    }
  }

  lemma {:induction false} SubstituteMembers(lines: seq<string>, home: string, line: string)
    requires SubstituteAll(lines, home).Ok?
    ensures line in SubstituteAll(lines, home).value <==> exists l :: l in lines && SubstituteHome(l, home) == Ok(line)
  {
    if lines != [] {
      SubstituteMembers(lines[1..], home, line);
    }
  }

  lemma JobLinesIff(job: Job, home: string, line: string)
    requires JobLines(job, home).Ok?
    ensures line in JobLines(job, home).value <==> LineOfJob(job, home, line)
  {
    SubstituteMembers(job.legacy, home, line);
  }

  lemma {:induction false} LineClaims(id: string, lines: seq<string>, home: string, x: LineClaim)
    ensures x in ClaimsOfLines(id, lines, home) <==> exists l :: l in lines && x == ClaimOf(id, l, home)
  {
    if lines != [] {
      LineClaims(id, lines[1..], home, x);
    }
  }

  lemma {:induction false} ClaimsAreLines(jobs: seq<Job>, home: string, x: LineClaim)
    requires ClaimsOfJobs(jobs, home).Ok? && x in ClaimsOfJobs(jobs, home).value
    ensures DeclaredLine(jobs, home, x.line) && x == ClaimOf(x.id, x.line, home)
  {
    var lines := JobLines(jobs[0], home).value;
    if x in ClaimsOfLines(jobs[0].id, lines, home) {
      LineClaims(jobs[0].id, lines, home, x);
      JobLinesIff(jobs[0], home, x.line);
    } else {
      ClaimsAreLines(jobs[1..], home, x);
    }
  }

  lemma {:induction false} LinesAreClaims(jobs: seq<Job>, home: string, line: string) returns (x: LineClaim)
    requires ClaimsOfJobs(jobs, home).Ok? && DeclaredLine(jobs, home, line)
    ensures x in ClaimsOfJobs(jobs, home).value && x == ClaimOf(x.id, line, home) && x.line == line
  {
    var lines := JobLines(jobs[0], home).value;
    JobLinesIff(jobs[0], home, line);
    if line in lines {
      x := ClaimOf(jobs[0].id, line, home);
      LineClaims(jobs[0].id, lines, home, x);
    } else {
      x := LinesAreClaims(jobs[1..], home, line);
    }
  }

  // ----- the dictionaries of the claim contract

  /** A claim that some job makes on this key. */
  lemma ClaimOn(m: map<string, string>, claims: seq<LineClaim>, keys: LineClaim -> set<string>, k: string)
    requires ScheduleClaims.Owned(m, claims, keys)
    ensures k in m <==> exists x :: x in claims && k in keys(x)
  {
    if k in m {
      var i :| 0 <= i < |claims| && k in keys(claims[i]);
      assert claims[i] in claims;
    }
    if x :| x in claims && k in keys(x) {
      var i :| 0 <= i < |claims| && claims[i] == x;
    }
  }

  /** Claimed lines are exactly the declared ones. */
  lemma ExactIff(jobs: seq<Job>, home: string, line: string)
    requires Contract(jobs, home).Ok?
    ensures line in Contract(jobs, home).value.exact <==> DeclaredLine(jobs, home, line)
  {
    ContractIff(jobs, home);
    var claims := ClaimsOfJobs(jobs, home).value;
    ClaimOn(Contract(jobs, home).value.exact, claims, LineKeys(), line);
    if x :| x in claims && line in LineKeys()(x) {
      ClaimsAreLines(jobs, home, x);
    }
    if DeclaredLine(jobs, home, line) {
      var x := LinesAreClaims(jobs, home, line);
    }
  }

  lemma ClaimCommand(id: string, line: string, home: string, command: string)
    ensures command in CommandKeys()(ClaimOf(id, line, home)) <==> Runs(line, command)
  {
    RunsIff(line, command);
  }

  lemma ClaimAnchor(id: string, line: string, home: string, anchor: string)
    ensures anchor in AnchorKeys()(ClaimOf(id, line, home)) <==> exists c :: Runs(line, c) && anchor in Anchors(c, home)
  {
    forall c ensures Runs(line, c) <==> CronParts(line).Some? && CronParts(line).value.1 == c {
      RunsIff(line, c);
    }
  }

  /** Claimed commands are exactly those of declared lines. */
  lemma CommandsIff(jobs: seq<Job>, home: string, command: string)
    requires Contract(jobs, home).Ok?
    ensures command in Contract(jobs, home).value.commands <==> DeclaredCommand(jobs, home, command)
  {
    ContractIff(jobs, home);
    var claims := ClaimsOfJobs(jobs, home).value;
    ClaimOn(Contract(jobs, home).value.commands, claims, CommandKeys(), command);
    if x :| x in claims && command in CommandKeys()(x) {
      ClaimsAreLines(jobs, home, x);
      ClaimCommand(x.id, x.line, home, command);
    }
    if l :| DeclaredLine(jobs, home, l) && Runs(l, command) {
      var x := LinesAreClaims(jobs, home, l);
      ClaimCommand(x.id, l, home, command);
    }
  }

  /** Claimed path identities are exactly those in commands of declared lines. */
  lemma AnchorKeysIff(jobs: seq<Job>, home: string, anchor: string)
    requires Contract(jobs, home).Ok?
    ensures anchor in Contract(jobs, home).value.anchors <==> DeclaredAnchor(jobs, home, anchor)
  {
    ContractIff(jobs, home);
    var claims := ClaimsOfJobs(jobs, home).value;
    ClaimOn(Contract(jobs, home).value.anchors, claims, AnchorKeys(), anchor);
    if x :| x in claims && anchor in AnchorKeys()(x) {
      ClaimsAreLines(jobs, home, x);
      ClaimAnchor(x.id, x.line, home, anchor);
      var c :| Runs(x.line, c) && anchor in Anchors(c, home);
      assert DeclaredCommand(jobs, home, c);
    }
    if c :| DeclaredCommand(jobs, home, c) && anchor in Anchors(c, home) {
      var l :| DeclaredLine(jobs, home, l) && Runs(l, c);
      var x := LinesAreClaims(jobs, home, l);
      ClaimAnchor(x.id, l, home, anchor);
    }
  }

  // ----- how the scan sees a line

  /** The line runs a declared command, or one with a path identity of a declared command. */
  ghost predicate ComesNear(jobs: seq<Job>, home: string, line: string) {
    exists c :: Runs(line, c) &&
                (DeclaredCommand(jobs, home, c) || exists a :: a in Anchors(c, home) && DeclaredAnchor(jobs, home, a))
  }

  /** A line counts as owned exactly if it is a declared line or a private one, and as a near match exactly
      if it is an entry that runs a declared command or names a path identity of one. */
  lemma ReadIff(line: string, jobs: seq<Job>, home: string, private: set<string>)
    requires Contract(jobs, home).Ok?
    ensures var item := Read(line, Contract(jobs, home).value, private, home);
      && (item.claimed <==> DeclaredLine(jobs, home, Bare(line)) || Bare(line) in private)
      && (item.near <==> ComesNear(jobs, home, Bare(line)))
  {
    var bare, claims := Bare(line), Contract(jobs, home).value;
    ExactIff(jobs, home, bare);
    forall c ensures Runs(bare, c) <==> CronParts(bare).Some? && CronParts(bare).value.1 == c {
      RunsIff(bare, c);
    }
    forall c ensures c in claims.commands <==> DeclaredCommand(jobs, home, c) {
      CommandsIff(jobs, home, c);
    }
    forall a ensures a in claims.anchors <==> DeclaredAnchor(jobs, home, a) {
      AnchorKeysIff(jobs, home, a);
    }
  }

  // ----- markers

  /** The line that opens a block. */
  function Opening(b: Block): string {
    match b
    case Managed => "# >>> coding-system schedules v1 >>>"
    case Legacy => "# >>> coding-system >>>"
    case Private => "# >>> coding-system private schedules >>>"
  }

  function Closing(b: Block): string {
    match b
    case Managed => "# <<< coding-system schedules v1 <<<"
    case Legacy => "# <<< coding-system <<<"
    case Private => "# <<< coding-system private schedules <<<"
  }

  lemma MarkersDiffer(b: Block)
    ensures MarkOf(Opening(b)) == Opens(b) && MarkOf(Closing(b)) == Closes(b)
  {
    ManagedShape();
    LegacyShape();
    PrivateShape();
  }

  lemma MarkersAreTrimmed(b: Block)
    ensures Trimmed(Opening(b)) && Trimmed(Closing(b))
  {
    ManagedShape();
    LegacyShape();
    PrivateShape();
  }

  /** A line opens or closes a block exactly if it is that block's marker, apart from the gaps around it. */
  lemma MarkIff(line: string, b: Block)
    ensures MarkOf(Strip(Bare(line))) == Opens(b) <==> Around(line, Opening(b))
    ensures MarkOf(Strip(Bare(line))) == Closes(b) <==> Around(line, Closing(b))
  {
    StripBare(line);
    MarkersDiffer(b);
    MarkersAreTrimmed(b);
    StripIff(line, Opening(b));
    StripIff(line, Closing(b));
  }
}
