/** What single crontab lines are to the scan: padding, rendered lines and claimed lines. */
module ScheduleLines {
  import opened Wrappers
  import opened Text
  import opened HomePlaceholder
  import opened Schedules

  // ----- stripping

  lemma {:induction false} StripLeftSpace(s: string, c: char)
    requires IsSpace(c)
    ensures StripLeft(s + [c]) == if StripLeft(s) == "" then "" else StripLeft(s) + [c]
  {
    if s == "" {
      assert s + [c] == [c] && [c][1..] == "";
    } else {
      assert (s + [c])[0] == s[0] && (s + [c])[1..] == s[1..] + [c];
      StripLeftSpace(s[1..], c);
    }
  }

  lemma StripSpace(s: string, c: char)
    requires IsSpace(c)
    ensures Strip(s + [c]) == Strip(s)
  {
    StripLeftSpace(s, c);
    var t := StripLeft(s);
    assert (t + [c])[..|t|] == t;
  }

  /** A line break at the end is no part of the stripped line. */
  lemma {:induction false} StripBare(s: string)
    ensures Strip(Bare(s)) == Strip(s)
  {
    if s != "" && (s[|s| - 1] == '\n' || s[|s| - 1] == '\r') {
      var init := s[..|s| - 1];
      StripBare(init);
      StripSpace(init, s[|s| - 1]);
      assert s == init + [s[|s| - 1]];
    }
  }

  lemma StripBody(s: string)
    ensures Strip(Body(s)) == Strip(s)
  {
    if EndsWith(s, "\n") {
      var init := s[..|s| - 1];
      assert s[|s| - 1] == s[|s| - 1..][0];
      assert s == init + [s[|s| - 1]];
      StripSpace(init, s[|s| - 1]);
    }
  }

  lemma {:induction false} StripRightKeeps(s: string, i: nat)
    requires i < |s| && !IsSpace(s[i])
    ensures |StripRight(s)| > i
  {
    if IsSpace(s[|s| - 1]) {
      StripRightKeeps(s[..|s| - 1], i);
    }
  }

  /** A stripped line keeps everything up to its last visible character. */
  lemma StripKeeps(s: string, i: nat)
    requires i < |s| && !IsSpace(s[0]) && !IsSpace(s[i])
    ensures |Strip(s)| > i && Strip(s)[..i + 1] == s[..i + 1]
  {
    StripRightKeeps(s, i);
  }

  // ----- markers

  lemma ManagedShape()
    ensures |BEGIN| == 36 && BEGIN[0] == '#' && BEGIN[2] == '>' && BEGIN[35] == '>' && Unbroken(BEGIN)
    ensures |END| == 36 && END[0] == '#' && END[2] == '<' && END[35] == '<' && Unbroken(END)
  {
  }

  lemma LegacyShape()
    ensures |LEGACY_BEGIN| == 23 && LEGACY_BEGIN[0] == '#' && LEGACY_BEGIN[2] == '>'
    ensures |LEGACY_END| == 23 && LEGACY_END[0] == '#' && LEGACY_END[2] == '<'
  {
  }

  lemma PrivateShape()
    ensures |PRIVATE_BEGIN| == 41 && PRIVATE_BEGIN[0] == '#' && PRIVATE_BEGIN[2] == '>' && PRIVATE_BEGIN[40] == '>' && Unbroken(PRIVATE_BEGIN)
    ensures |PRIVATE_END| == 41 && PRIVATE_END[0] == '#' && PRIVATE_END[2] == '<' && PRIVATE_END[40] == '<' && Unbroken(PRIVATE_END)
  {
  }

  /** Every marker is a comment whose third character is an angle bracket. */
  lemma MarkersStart(m: string)
    requires m == "" || m[0] != '#' || (|m| > 2 && m[2] != '>' && m[2] != '<')
    ensures MarkOf(m) == NoMark
  {
    ManagedShape();
    LegacyShape();
    PrivateShape();
  }

  /** The markers written by the program read as themselves. */
  lemma MarkOfMarkers()
    ensures MarkOf(Strip(BEGIN)) == Opens(Managed) && MarkOf(Strip(END)) == Closes(Managed)
    ensures MarkOf(Strip(PRIVATE_BEGIN)) == Opens(Private) && MarkOf(Strip(PRIVATE_END)) == Closes(Private)
    ensures Strip(BEGIN) == BEGIN && Strip(END) == END && Strip(PRIVATE_BEGIN) == PRIVATE_BEGIN && Strip(PRIVATE_END) == PRIVATE_END
  {
    ManagedShape();
    LegacyShape();
    PrivateShape();
  }

  /** How a rendered line reads: its break does not matter. */
  lemma MarkOfLine(line: string)
    ensures MarkOf(Strip(Bare(line + "\n"))) == MarkOf(Strip(line))
  {
    StripBare(line + "\n");
    StripSpace(line, '\n');
  }

  lemma NoteIsNoMarker(note: string)
    requires |note| > 2 && note[0] == '#' && !IsSpace(note[2]) && note[2] != '>' && note[2] != '<'
    ensures MarkOf(Strip(note)) == NoMark
  {
    StripKeeps(note, 2);
    assert Strip(note)[2] == Strip(note)[..3][2] == note[2];
    MarkersStart(Strip(note));
  }

  lemma NoteLines()
    ensures MarkOf(Strip(MANAGED_NOTE)) == NoMark && Unbroken(MANAGED_NOTE)
    ensures MarkOf(Strip(PRIVATE_NOTE)) == NoMark && Unbroken(PRIVATE_NOTE)
  {
    NoteIsNoMarker(MANAGED_NOTE);
    NoteIsNoMarker(PRIVATE_NOTE);
  }

  /** A five-field cron line is no comment, so no marker. */
  lemma CronLineIsNoMarker(line: string)
    requires CronParts(line).Some?
    ensures MarkOf(Strip(line)) == NoMark && Strip(line) != ""
  {
    MarkersStart(Strip(line));
  }

  // ----- substituted text

  lemma {:induction false} ReplaceUnbroken(s: string, old_: string, new_: string)
    requires old_ != "" && Unbroken(s) && Unbroken(new_)
    ensures Unbroken(Replace(s, old_, new_))
  {
    if StartsWith(s, old_) {
      ReplaceUnbroken(s[|old_|..], old_, new_);
    } else if s != "" {
      ReplaceUnbroken(s[1..], old_, new_);
    }
  }

  lemma ReplaceNonEmpty(s: string, old_: string, new_: string)
    requires old_ != "" && s != "" && new_ != ""
    ensures Replace(s, old_, new_) != ""
  {
  }

  /** Lines after substitution: still single lines, none empty, without brace pairs. */
  lemma {:induction false} SubstitutedLines(lines: seq<string>, home: string)
    requires SubstituteAll(lines, home).Ok?
    ensures var r := SubstituteAll(lines, home).value;
            && |r| == |lines|
            && (forall i :: 0 <= i < |r| ==> SubstituteHome(lines[i], home) == Ok(r[i]))
  {
    if lines != [] {
      SubstitutedLines(lines[1..], home);
    }
  }

  lemma {:induction false} NonBlankMembers(lines: seq<string>)
    ensures forall l :: l in NonBlank(lines) <==> l in lines && !Blank(l)
  {
    if lines != [] {
      NonBlankMembers(lines[1..]);
    }
  }

  lemma {:induction false} BodiesUnbroken(lines: seq<string>)
    requires LineList(lines)
    ensures forall l :: l in Bodies(lines) ==> Unbroken(l)
  {
    if lines != [] {
      BodiesUnbroken(lines[1..]);
    }
  }

  lemma PrivateLinesShape(private: string, home: string)
    requires home != "" && OneLine(home) && PrivateLines(private, home).Ok?
    ensures forall l :: l in PrivateLines(private, home).value ==>
              Unbroken(l) && l != "" && !Contains(l, "{{") && !Contains(l, "}}")
  {
    var given := NonBlank(SplitLines(private));
    LinesShape(private);
    BodiesUnbroken(Lines(private));
    NonBlankMembers(SplitLines(private));
    SubstitutedLines(given, home);
    var r := PrivateLines(private, home).value;
    forall i | 0 <= i < |r|
      ensures Unbroken(r[i]) && r[i] != "" && !Contains(r[i], "{{") && !Contains(r[i], "}}")
    {
      assert given[i] in given;
      ReplaceUnbroken(given[i], PLACEHOLDER, home);
      ReplaceNonEmpty(given[i], PLACEHOLDER, home);
    }
  }

  // ----- the claims

  ghost predicate ClaimsParse(c: Claims) {
    forall l :: l in c.exact ==> CronParts(l).Some?
  }

  lemma {:induction false} ClaimLinesGrow(c: Claims, id: string, lines: seq<string>, home: string)
    requires ClaimLines(c, id, lines, home).Ok? && ClaimsParse(c)
    ensures var c' := ClaimLines(c, id, lines, home).value;
            ClaimsParse(c') && c.exact.Keys <= c'.exact.Keys && forall l :: l in lines ==> l in c'.exact
    decreases |lines|
  {
    if lines != [] {
      ClaimLinesGrow(ClaimLine(c, id, lines[0], home).value, id, lines[1..], home);
    }
  }

  /** An accepted contract parses every claimed line and claims every cron job's own line. */
  lemma {:induction false} ContractClaims(c: Claims, jobs: seq<Job>, home: string)
    requires ClaimJobs(c, jobs, home).Ok? && ClaimsParse(c)
    ensures var c' := ClaimJobs(c, jobs, home).value;
            && ClaimsParse(c') && c.exact.Keys <= c'.exact.Keys
            && forall j :: j in jobs && j.isCron ==>
                 && SubstituteHome(j.command, home).Ok?
                 && j.schedule + " " + SubstituteHome(j.command, home).value in c'.exact
    decreases |jobs|
  {
    if jobs != [] {
      var lines := JobLines(jobs[0], home).value;
      ClaimLinesGrow(c, jobs[0].id, lines, home);
      ContractClaims(ClaimLines(c, jobs[0].id, lines, home).value, jobs[1..], home);
      assert jobs[0].isCron ==> lines[|lines| - 1] in lines;
    }
  }

  // ----- the managed block

  /** A line of a rendered block: one line, and no marker. */
  predicate PlainLine(l: string) {
    Unbroken(l) && MarkOf(Strip(l)) == NoMark
  }

  lemma CommandLinePlain(job: Job, home: string)
    requires LoadedJob(job) && OneLine(home) && SubstituteHome(job.command, home).Ok?
    requires CronParts(job.schedule + " " + SubstituteHome(job.command, home).value).Some?
    ensures PlainLine(job.schedule + " " + SubstituteHome(job.command, home).value)
  {
    ReplaceUnbroken(job.command, PLACEHOLDER, home);
    CronLineIsNoMarker(job.schedule + " " + SubstituteHome(job.command, home).value);
  }

  lemma CommentPlain(id: string, policy: string)
    requires Unbroken(id) && Unbroken(policy)
    ensures PlainLine("# schedule-id: " + id + "; missed-run=" + policy)
  {
    NoteIsNoMarker("# schedule-id: " + id + "; missed-run=" + policy);
  }

  lemma ZonePlain(timezone: string)
    requires Unbroken(timezone)
    ensures PlainLine("CRON_TZ=" + timezone)
  {
    var zone := "CRON_TZ=" + timezone;
    StripKeeps(zone, 0);
    assert Strip(zone)[0] == Strip(zone)[..1][0] == 'C';
    MarkersStart(Strip(zone));
  }

  lemma JobBlockLines(job: Job, home: string)
    requires LoadedJob(job) && OneLine(home) && JobBlock(job, home).Ok?
    requires job.isCron ==> CronParts(job.schedule + " " + SubstituteHome(job.command, home).value).Some?
    ensures forall l :: l in JobBlock(job, home).value ==> Unbroken(l) && MarkOf(Strip(l)) == NoMark
  {
    if job.isCron {
      CommandLinePlain(job, home);
      CommentPlain(job.id, job.policy);
      ZonePlain(job.timezone);
      forall l | l in JobBlock(job, home).value ensures PlainLine(l) {
      }
    }
  }

  lemma {:induction false} JobBlocksLines(jobs: seq<Job>, home: string)
    requires Loaded(jobs) && OneLine(home)
    requires forall j :: j in jobs && j.isCron ==>
               && SubstituteHome(j.command, home).Ok?
               && CronParts(j.schedule + " " + SubstituteHome(j.command, home).value).Some?
    ensures JobBlocks(jobs, home).Ok?
    ensures forall l :: l in JobBlocks(jobs, home).value ==> Unbroken(l) && MarkOf(Strip(l)) == NoMark
  {
    if jobs != [] {
      assert jobs[0] in jobs;
      JobBlockLines(jobs[0], home);
      JobBlocksLines(jobs[1..], home);
    }
  }

  /** With an accepted contract the managed block renders, and only its first and last lines are markers. */
  lemma ManagedBlockRenders(jobs: seq<Job>, home: string)
    requires Loaded(jobs) && OneLine(home) && Contract(jobs, home).Ok?
    ensures JobBlocks(jobs, home).Ok?
    ensures forall l :: l in JobBlocks(jobs, home).value ==> Unbroken(l) && MarkOf(Strip(l)) == NoMark
  {
    ContractClaims(Claims(map[], map[], map[]), jobs, home);
    JobBlocksLines(jobs, home);
  }
}
