/** What cron runs after a reconciliation. */
module ScheduleRuns {
  import opened Wrappers
  import opened Text
  import opened HomePlaceholder
  import opened Schedules
  import opened ScheduleLines
  import opened ScheduleIdempotence
  import opened SchedulePublic
  import opened ScheduleAdoption
  import opened ScheduleReading

  /** load_declaration's check of cron schedules. */
  predicate FiveFields(jobs: seq<Job>) {
    forall j :: j in jobs && j.isCron ==> FiveWords(j)
  }

  lemma SplitAppended(a: string, b: string)
    requires a == "" || EndsWith(a, "\n")
    ensures SplitLines(a + b) == SplitLines(a) + SplitLines(b)
  {
    LinesAppend(a, b);
    BodiesAppend(Lines(a), Lines(b));
  }

  lemma ContractRuns(jobs: seq<Job>, home: string)
    requires Contract(jobs, home).Ok? && FiveFields(jobs)
    ensures Runnable(jobs, home)
  {
    ContractClaims(Claims(map[], map[], map[]), jobs, home);
  }

  lemma CommentShape()
    ensures MANAGED_NOTE != "" && MANAGED_NOTE[0] == '#' && Unbroken(MANAGED_NOTE)
    ensures PRIVATE_NOTE != "" && PRIVATE_NOTE[0] == '#' && Unbroken(PRIVATE_NOTE)
  {
    NoteLines();
  }

  lemma ManagedSplits(jobs: seq<Job>, home: string)
    requires Loaded(jobs) && OneLine(home) && Contract(jobs, home).Ok?
    ensures JobBlocks(jobs, home).Ok?
    ensures SplitLines(ManagedBlock(jobs, home).value) == ManagedLines(JobBlocks(jobs, home).value)
    ensures EndsWith(ManagedBlock(jobs, home).value, "\n")
  {
    ManagedBlockRenders(jobs, home);
    ManagedShape();
    CommentShape();
    LinesOfTerminate(ManagedLines(JobBlocks(jobs, home).value));
  }

  lemma PrivateBlockUnbroken(lines: seq<string>)
    requires forall l :: l in lines ==> Unbroken(l)
    ensures forall l :: l in PrivateBlockLines(lines) ==> Unbroken(l)
  {
    PrivateShape();
    CommentShape();
  }

  lemma PrivateSplits(private: string, home: string)
    requires home != "" && OneLine(home) && PrivateLines(private, home).Ok?
    ensures SplitLines(PrivateBlock(private, home).value) == PrivateBlockLines(PrivateLines(private, home).value)
  {
    var lines := PrivateLines(private, home).value;
    PrivateLinesShape(private, home);
    PrivateBlockUnbroken(lines);
    LinesOfTerminate(PrivateBlockLines(lines));
  }

  /** The managed block alone reads as exactly what the declaration asks for. */
  lemma ManagedRuns(jobs: seq<Job>, home: string, zone: Option<string>)
    requires Loaded(jobs) && OneLine(home) && Contract(jobs, home).Ok? && FiveFields(jobs)
    ensures Runnable(jobs, home) && ManagedBlock(jobs, home).Ok?
    ensures Reading(SplitLines(ManagedBlock(jobs, home).value), zone) == WantedAll(jobs, home)
    ensures ZoneAfter(SplitLines(ManagedBlock(jobs, home).value), zone) == LastZone(jobs, zone)
  {
    ContractRuns(jobs, home);
    ManagedSplits(jobs, home);
    ManagedShape();
    CommentShape();
    FramedReads(BEGIN, MANAGED_NOTE, JobBlocks(jobs, home).value, END, zone);
    BlocksRead(jobs, home, zone);
  }

  lemma PrivateRuns(private: string, home: string, zone: Option<string>)
    requires home != "" && OneLine(home) && PrivateLines(private, home).Ok?
    ensures Reading(SplitLines(PrivateBlock(private, home).value), zone) == Reading(PrivateLines(private, home).value, zone)
  {
    PrivateSplits(private, home);
    PrivateShape();
    CommentShape();
    FramedReads(PRIVATE_BEGIN, PRIVATE_NOTE, PrivateLines(private, home).value, PRIVATE_END, zone);
  }

  lemma OutputSplits(current: string, jobs: seq<Job>, home: string, private: string)
    requires Loaded(jobs) && home != "" && OneLine(home) && Reconcile(current, jobs, home, private).Ok?
    ensures SplitLines(Reconcile(current, jobs, home, private).value) ==
            SplitLines(Prefix(current, jobs, home, private).value)
              + (SplitLines(ManagedBlock(jobs, home).value) + SplitLines(PrivateBlock(private, home).value))
  {
    var prefix := Prefix(current, jobs, home, private).value;
    var managed, block := ManagedBlock(jobs, home).value, PrivateBlock(private, home).value;
    PrefixQuiet(current, jobs, home, private);
    ManagedSplits(jobs, home);
    Associates(prefix, managed, block);
    SplitAppended(prefix, managed + block);
    SplitAppended(managed, block);
  }

  /** After a reconciliation cron runs the entries that were kept, then every declared cron job with its own
      schedule, time zone and command, in order, and then the private lines, in the zone of the last job. */
  lemma OutputRuns(current: string, jobs: seq<Job>, home: string, private: string, zone: Option<string>)
    requires Loaded(jobs) && FiveFields(jobs) && home != "" && OneLine(home)
    requires Reconcile(current, jobs, home, private).Ok?
    ensures Runnable(jobs, home)
    ensures var kept := SplitLines(Prefix(current, jobs, home, private).value);
      Reading(SplitLines(Reconcile(current, jobs, home, private).value), zone) ==
      Reading(kept, zone) + (WantedAll(jobs, home)
        + Reading(PrivateLines(private, home).value, LastZone(jobs, ZoneAfter(kept, zone))))
  {
    var kept := SplitLines(Prefix(current, jobs, home, private).value);
    var managed, block := SplitLines(ManagedBlock(jobs, home).value), SplitLines(PrivateBlock(private, home).value);
    OutputSplits(current, jobs, home, private);
    ReadingAppend(kept, managed + block, zone);
    ReadingAppend(managed, block, ZoneAfter(kept, zone));
    ManagedRuns(jobs, home, ZoneAfter(kept, zone));
    PrivateRuns(private, home, LastZone(jobs, ZoneAfter(kept, zone)));
  }

  lemma {:induction false} OwnLineInBlocks(jobs: seq<Job>, home: string, job: Job)
    requires JobBlocks(jobs, home).Ok? && job in jobs && job.isCron
    ensures SubstituteHome(job.command, home).Ok?
    ensures job.schedule + " " + SubstituteHome(job.command, home).value in JobBlocks(jobs, home).value
  {
    if job == jobs[0] {
      var first := JobBlock(job, home).value;
      assert first[2] in first;
    } else {
      OwnLineInBlocks(jobs[1..], home, job);
    }
  }

  /** The line of a declared job, which the scan drops wherever it stands, is written. */
  lemma OwnLineIsWritten(current: string, jobs: seq<Job>, home: string, private: string, job: Job)
    requires Loaded(jobs) && home != "" && OneLine(home) && Reconcile(current, jobs, home, private).Ok?
    requires job in jobs && job.isCron
    ensures SubstituteHome(job.command, home).Ok?
    ensures job.schedule + " " + SubstituteHome(job.command, home).value
            in SplitLines(Reconcile(current, jobs, home, private).value)
  {
    OutputSplits(current, jobs, home, private);
    ManagedSplits(jobs, home);
    OwnLineInBlocks(jobs, home, job);
    var body := JobBlocks(jobs, home).value;
    assert forall l :: l in body ==> l in ManagedLines(body);
  }

  // ----- adoption and time zones

  predicate AllZoned(entries: seq<Timed>) {
    forall i :: 0 <= i < |entries| ==> entries[i].zone.Some?
  }

  lemma {:induction false} ZonedReading(lines: seq<string>, zone: Option<string>)
    requires zone.Some?
    ensures AllZoned(Reading(lines, zone))
  {
    if lines != [] {
      ZonedReading(lines[1..], ZoneFrom(lines[0], zone));
    }
  }

  lemma {:induction false} BlankReads(lines: seq<string>, zone: Option<string>)
    requires forall l :: l in lines ==> Blank(l)
    ensures Reading(lines, zone) == [] && ZoneAfter(lines, zone) == zone
  {
    if lines != [] {
      assert lines[0] in lines && forall l :: l in lines[1..] ==> l in lines;
      if StartsWith(lines[0], ZONE) {
        assert lines[0][..|ZONE|][0] == lines[0][0];
        BlankIff(lines[0]);
      }
      BlankReads(lines[1..], zone);
    }
  }

  lemma {:induction false} ZonedJobs(jobs: seq<Job>, home: string, zone: Option<string>)
    requires Runnable(jobs, home)
    ensures AllZoned(WantedAll(jobs, home))
    ensures (exists j :: j in jobs && j.isCron) || zone.Some? ==> LastZone(jobs, zone).Some?
  {
    if jobs != [] {
      ZonedJobs(jobs[1..], home, if jobs[0].isCron then Some(jobs[0].timezone) else zone);
    }
  }

  /** Adopting moves hand-added lines below the managed block. If all were adoptable, cron then runs no entry
      in the system's own zone any more, as soon as one cron job is declared: a hand-added line that sets no
      zone, and ran in the system's, runs in the zone of the last declared job. */
  lemma AdoptedLinesAreZoned(current: string, private: string, jobs: seq<Job>, home: string)
    requires Loaded(jobs) && FiveFields(jobs) && home != "" && OneLine(home) && '\r' !in current
    requires Reconcile(current, jobs, home, private).Ok? && exists j :: j in jobs && j.isCron
    requires forall raw :: raw in HandAdded(Prefix(current, jobs, home, private).value) ==> Adoptable(raw)
    ensures var adopted := Adopt(current, private, jobs, home).value;
      && Reconcile(current, jobs, home, adopted).Ok?
      && AllZoned(Reading(SplitLines(Reconcile(current, jobs, home, adopted).value), None))
  {
    var adopted := Adopt(current, private, jobs, home).value;
    AdoptionCompleteIff(current, private, jobs, home);
    AdoptionSettles(current, private, jobs, home);
    var kept := SplitLines(Prefix(current, jobs, home, adopted).value);
    NonBlankEmpty(kept);
    OutputRuns(current, jobs, home, adopted, None);
    BlankReads(kept, None);
    ZonedJobs(jobs, home, None);
    ZonedReading(PrivateLines(adopted, home).value, LastZone(jobs, None));
  }
}
