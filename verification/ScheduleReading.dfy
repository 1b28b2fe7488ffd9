/** What cron makes of a crontab: the entries it runs, each with its time zone. */
module ScheduleReading {
  import opened Wrappers
  import opened Text
  import opened Stripping
  import opened HomePlaceholder
  import opened Schedules
  import opened ScheduleLines

  // ----- a five-field line, written out

  predicate IsWord(s: string) {
    s != "" && forall i :: 0 <= i < |s| ==> !IsSpace(s[i])
  }

  ghost predicate IsGap(s: string) {
    s != "" && Gap(s)
  }

  /** The words with their gaps, then the rest. */
  function Laid(words: seq<string>, gaps: seq<string>, rest: string): string
    requires |gaps| == |words|
  {
    if words == [] then rest else words[0] + (gaps[0] + Laid(words[1..], gaps[1..], rest))
  }

  /** The text is these words, each followed by space, and then the rest, which starts with no space. */
  ghost predicate LaidOut(s: string, words: seq<string>, gaps: seq<string>, rest: string) {
    && |gaps| == |words| && (forall w :: w in words ==> IsWord(w)) && (forall g :: g in gaps ==> IsGap(g))
    && rest != "" && !IsSpace(rest[0]) && s == Laid(words, gaps, rest)
  }

  /** An entry of a crontab: five words and a command, no comment and no assignment. */
  ghost predicate IsEntry(line: string, words: seq<string>, command: string) {
    && |words| == 5 && (exists gaps :: LaidOut(Strip(line), words, gaps, command))
    && words[0] != "" && words[0][0] != '#' && '=' !in words[0]
  }

  function Spaced(words: seq<string>): string
    requires |words| == 5
  {
    words[0] + " " + words[1] + " " + words[2] + " " + words[3] + " " + words[4]
  }

  lemma {:induction false} WordOf(w: string, rest: string)
    requires (forall i :: 0 <= i < |w| ==> !IsSpace(w[i])) && (rest == "" || IsSpace(rest[0]))
    ensures Word(w + rest) == w
  {
    if w == "" {
      assert w + rest == rest;
    } else {
      assert (w + rest)[0] == w[0] && (w + rest)[1..] == w[1..] + rest;
      WordOf(w[1..], rest);
      assert w == [w[0]] + w[1..];
    }
  }

  lemma {:induction false} WordShape(s: string)
    ensures Word(s) <= s && (forall i :: 0 <= i < |Word(s)| ==> !IsSpace(Word(s)[i]))
    ensures |Word(s)| < |s| ==> IsSpace(s[|Word(s)|])
    ensures s != "" && !IsSpace(s[0]) ==> Word(s) != ""
  {
    WordIsPrefix(s);
    if s != "" && !IsSpace(s[0]) {
      WordShape(s[1..]);
    }
  }

  /** Splitting off the words of a text that is laid out gives those words and the rest. */
  lemma {:induction false} SplitLaid(words: seq<string>, gaps: seq<string>, rest: string)
    requires |gaps| == |words| && LaidOut(Laid(words, gaps, rest), words, gaps, rest)
    ensures SplitWords(Laid(words, gaps, rest), |words|) == words + [rest]
    ensures Laid(words, gaps, rest) != "" && !IsSpace(Laid(words, gaps, rest)[0])
    decreases |words|
  {
    var s := Laid(words, gaps, rest);
    if words == [] {
      assert words + [rest] == [rest];
    } else {
      var w, g, more := words[0], gaps[0], Laid(words[1..], gaps[1..], rest);
      assert w in words && g in gaps;
      assert forall x :: x in words[1..] ==> x in words;
      assert forall x :: x in gaps[1..] ==> x in gaps;
      SplitLaid(words[1..], gaps[1..], rest);
      assert s[0] == w[0] && StripLeft(s) == s;
      assert (g + more)[0] == g[0];
      WordOf(w, g + more);
      assert s[|w|..] == g + more;
      SplitAfterGap(g, more, |words| - 1);
      assert words + [rest] == [w] + (words[1..] + [rest]);
    }
  }

  lemma SplitAfterGap(gap: string, s: string, n: nat)
    requires IsGap(gap) && s != "" && !IsSpace(s[0])
    ensures SplitWords(gap + s, n) == SplitWords(s, n)
  {
    StripLeftOf(gap, s);
  }

  /** A text that splits into that many words and a rest is laid out that way. */
  lemma {:induction false} LaidFromSplit(s: string, n: nat) returns (gaps: seq<string>)
    requires s != "" && !IsSpace(s[0]) && |SplitWords(s, n)| == n + 1
    ensures LaidOut(s, SplitWords(s, n)[..n], gaps, SplitWords(s, n)[n])
    decreases n
  {
    var parts := SplitWords(s, n);
    if n == 0 {
      gaps := [];
    } else {
      var w := Word(s);
      WordShape(s);
      var tail := s[|w|..];
      assert parts == [w] + SplitWords(tail, n - 1);
      var gap := StripLeftLeaves(tail);
      var t := StripLeft(tail);
      SplitStripped(tail, n - 1);
      assert t != "";
      assert gap != "" by { assert tail[0] == s[|w|]; }
      var more := LaidFromSplit(t, n - 1);
      gaps := [gap] + more;
      assert parts[..n] == [w] + SplitWords(t, n - 1)[..n - 1];
      assert gaps[1..] == more && parts[..n][1..] == SplitWords(t, n - 1)[..n - 1];
      assert s == w + tail;
    }
  }

  lemma SplitStripped(s: string, n: nat)
    ensures SplitWords(s, n) == SplitWords(StripLeft(s), n)
  {
  }

  /** _cron_parts recognises exactly the entries, and returns their words with single spaces and their command. */
  lemma EntryIsRead(line: string, words: seq<string>, command: string)
    requires IsEntry(line, words, command)
    ensures CronParts(line) == Some((Spaced(words), command))
  {
    var s := Strip(line);
    var gaps :| LaidOut(s, words, gaps, command);
    SplitLaid(words, gaps, command);
    assert words[0] in words && gaps[0] in gaps;
    WordOf(words[0], gaps[0] + Laid(words[1..], gaps[1..], command));
    assert s[0] == words[0][0];
  }

  lemma ReadIsEntry(line: string) returns (words: seq<string>)
    requires CronParts(line).Some?
    ensures IsEntry(line, words, CronParts(line).value.1) && CronParts(line).value.0 == Spaced(words)
  {
    var s := Strip(line);
    StripStarts(line);
    var gaps := LaidFromSplit(s, 5);
    words := SplitWords(s, 5)[..5];
    WordShape(s);
    assert words[0] == Word(s);
    assert words[0] in words && s[0] == words[0][0];
  }

  lemma StripStarts(line: string)
    ensures Strip(line) == "" || !IsSpace(Strip(line)[0])
  {
    var t := StripLeft(line);
    assert Strip(line) != "" ==> Strip(line)[0] == t[0];
  }

  /** A line is an entry with these words and this command exactly if _cron_parts says so. */
  lemma CronPartsIff(line: string, schedule: string, command: string)
    ensures CronParts(line) == Some((schedule, command)) <==>
            exists words :: IsEntry(line, words, command) && schedule == Spaced(words)
  {
    if CronParts(line) == Some((schedule, command)) {
      var words := ReadIsEntry(line);
    }
    if words :| IsEntry(line, words, command) && schedule == Spaced(words) {
      EntryIsRead(line, words, command);
    }
  }

  // ----- reading a crontab

  /** What cron runs: the zone set last before the line, if any, the schedule and the command. */
  datatype Timed = Timed(zone: Option<string>, schedule: string, command: string)

  const ZONE := "CRON_TZ="

  function ZoneFrom(line: string, zone: Option<string>): Option<string> {
    if StartsWith(line, ZONE) then Some(line[|ZONE|..]) else zone
  }

  function EntryOf(line: string, zone: Option<string>): seq<Timed> {
    match CronParts(line)
    case None => []
    case Some((schedule, command)) => [Timed(zone, schedule, command)]
  }

  /** The lines from top to bottom, each under the zone set before it. */
  function Reading(lines: seq<string>, zone: Option<string>): seq<Timed> {
    if lines == [] then []
    else EntryOf(lines[0], zone) + Reading(lines[1..], ZoneFrom(lines[0], zone))
  }

  function ZoneAfter(lines: seq<string>, zone: Option<string>): Option<string> {
    if lines == [] then zone else ZoneAfter(lines[1..], ZoneFrom(lines[0], zone))
  }

  lemma ReadingHead(line: string, rest: seq<string>, zone: Option<string>)
    ensures Reading([line] + rest, zone) == EntryOf(line, zone) + Reading(rest, ZoneFrom(line, zone))
    ensures ZoneAfter([line] + rest, zone) == ZoneAfter(rest, ZoneFrom(line, zone))
  {
    assert ([line] + rest)[1..] == rest;
  }

  lemma {:induction false} ReadingAppend(a: seq<string>, b: seq<string>, zone: Option<string>)
    ensures Reading(a + b, zone) == Reading(a, zone) + Reading(b, ZoneAfter(a, zone))
    ensures ZoneAfter(a + b, zone) == ZoneAfter(b, ZoneAfter(a, zone))
    decreases |a|
  {
    if a == [] {
      assert a + b == b;
    } else {
      var line, rest := a[0], a[1..];
      assert a == [line] + rest && a + b == [line] + (rest + b);
      ReadingAppend(rest, b, ZoneFrom(line, zone));
      ReadingHead(line, rest, zone);
      ReadingHead(line, rest + b, zone);
      Associates(EntryOf(line, zone), Reading(rest, ZoneFrom(line, zone)), Reading(b, ZoneAfter(a, zone)));
    }
  }

  /** A comment is no entry and sets no zone. */
  lemma CommentReads(line: string, zone: Option<string>)
    requires line != "" && line[0] == '#'
    ensures EntryOf(line, zone) == [] && ZoneFrom(line, zone) == zone
  {
    StripKeeps(line, 0);
    assert Strip(line)[0] == Strip(line)[..1][0] == '#';
    assert ZONE[0] == 'C' && (|line| >= |ZONE| ==> line[..|ZONE|][0] == line[0]);
  }

  // ----- one job

  /** The words of the job's schedule: load_declaration has checked that there are five. */
  predicate FiveWords(job: Job) {
    |SplitWords(job.schedule, 5)| == 5
  }

  /** What the declaration asks cron to run for a job. */
  function Wanted(job: Job, home: string): Timed
    requires FiveWords(job) && SubstituteHome(job.command, home).Ok?
  {
    Timed(Some(job.timezone), Spaced(SplitWords(job.schedule, 5)), Strip(SubstituteHome(job.command, home).value))
  }

  lemma {:induction false} StripLeftAppend(a: string, b: string)
    requires StripLeft(a) != ""
    ensures StripLeft(a + b) == StripLeft(a) + b
  {
    if IsSpace(a[0]) {
      assert (a + b)[0] == a[0] && (a + b)[1..] == a[1..] + b;
      StripLeftAppend(a[1..], b);
    } else {
      assert (a + b)[0] == a[0];
    }
  }

  lemma {:induction false} StripRightAppend(a: string, b: string)
    requires StripRight(b) != ""
    ensures StripRight(a + b) == a + StripRight(b)
  {
    if IsSpace(b[|b| - 1]) {
      assert (a + b)[|a + b| - 1] == b[|b| - 1] && (a + b)[..|a + b| - 1] == a + b[..|b| - 1];
      StripRightAppend(a, b[..|b| - 1]);
    } else {
      assert (a + b)[|a + b| - 1] == b[|b| - 1];
    }
  }

  lemma {:induction false} WordAppend(a: string, b: string)
    requires b != "" && IsSpace(b[0])
    ensures Word(a + b) == Word(a)
  {
    if a == "" || IsSpace(a[0]) {
      assert (a + b)[0] == if a == "" then b[0] else a[0];
    } else {
      assert (a + b)[0] == a[0] && (a + b)[1..] == a[1..] + b;
      WordAppend(a[1..], b);
    }
  }

  /** The first word of a text that is followed by more, and what is left. */
  lemma WordThenMore(a: string, b: string)
    requires StripLeft(a) != ""
    ensures var t := StripLeft(a); var w := Word(t);
      && |w| <= |t| && w != "" && StripLeft(a + " " + b) == t + " " + b
      && Word(t + " " + b) == w && (t + " " + b)[|w|..] == t[|w|..] + " " + b
  {
    var t := StripLeft(a);
    Associates(a, " ", b);
    Associates(t, " ", b);
    StripLeftAppend(a, " " + b);
    WordAppend(t, " " + b);
    WordShape(t);
  }

  /** Words of the first text, as many as it has, and then what follows. */
  lemma {:induction false} SplitAppend(a: string, b: string, n: nat)
    requires |SplitWords(a, n)| == n
    ensures SplitWords(a + " " + b, n) == SplitWords(a, n) + (if StripLeft(b) == "" then [] else [StripLeft(b)])
    decreases n
  {
    if StripLeft(a) == "" {
      Associates(a, " ", b);
      StripLeftBlank(a, " " + b);
      assert (" " + b)[1..] == b;
    } else {
      var t := StripLeft(a);
      WordThenMore(a, b);
      SplitAppend(t[|Word(t)|..], b, n - 1);
    }
  }

  lemma {:induction false} StripLeftBlank(a: string, b: string)
    requires StripLeft(a) == ""
    ensures StripLeft(a + b) == StripLeft(b)
  {
    if a == "" {
      assert a + b == b;
    } else {
      assert (a + b)[0] == a[0] && (a + b)[1..] == a[1..] + b;
      StripLeftBlank(a[1..], b);
    }
  }

  /** Stripping from the right and then from the left is stripping. */
  lemma {:induction false} StripCommutes(s: string)
    ensures StripLeft(StripRight(s)) == Strip(s)
  {
    if s != "" && IsSpace(s[0]) {
      StripCommutes(s[1..]);
      assert s == [s[0]] + s[1..];
      if StripRight(s[1..]) != "" {
        StripRightAppend([s[0]], s[1..]);
        assert ([s[0]] + StripRight(s[1..]))[1..] == StripRight(s[1..]);
      } else {
        StripRightBlank(s[1..]);
        StripRightBlank(s);
        assert forall i :: 0 < i < |s| ==> s[i] == s[1..][i - 1];
      }
    } else if s != "" {
      StripRightKeeps(s, 0);
      assert StripRight(s)[0] == s[0];
    }
  }

  /** The job's own line is the entry the declaration asks for. */
  lemma CommandReads(job: Job, home: string)
    requires FiveWords(job) && SubstituteHome(job.command, home).Ok?
    requires CronParts(job.schedule + " " + SubstituteHome(job.command, home).value).Some?
    ensures var t := Wanted(job, home);
      CronParts(job.schedule + " " + SubstituteHome(job.command, home).value) == Some((t.schedule, t.command))
  {
    var command := SubstituteHome(job.command, home).value;
    var line := job.schedule + " " + command;
    assert line == job.schedule + (" " + command);
    assert StripLeft(job.schedule) != "";
    StripLeftAppend(job.schedule, " " + command);
    var head := StripLeft(job.schedule);
    StripCommutes(command);
    SplitStripped(job.schedule, 5);
    if StripRight(command) == "" {
      OnlySchedule(head, command);
    } else {
      assert head + (" " + command) == (head + " ") + command;
      StripRightAppend(head + " ", command);
      SplitAppend(head, StripRight(command), 5);
    }
  }

  lemma {:induction false} LaidAppend(words: seq<string>, gaps: seq<string>, rest: string, more: string)
    requires |gaps| == |words|
    ensures Laid(words, gaps, rest + more) == Laid(words, gaps, rest) + more
  {
    if words != [] {
      var inner := Laid(words[1..], gaps[1..], rest);
      LaidAppend(words[1..], gaps[1..], rest, more);
      Associates(gaps[0], inner, more);
      Associates(words[0], gaps[0] + inner, more);
    }
  }

  /** Space at the end makes no further word. */
  lemma TrailingSpace(s: string, n: nat)
    requires s != "" && !IsSpace(s[0]) && |SplitWords(StripRight(s), n)| == n + 1
    ensures |SplitWords(s, n)| == n + 1
  {
    var t := StripRight(s);
    StripRightKeeps(s, 0);
    var gaps := LaidFromSplit(t, n);
    var words, rest, more := SplitWords(t, n)[..n], SplitWords(t, n)[n], s[|t|..];
    assert s == t + more && (rest + more)[0] == rest[0];
    LaidAppend(words, gaps, rest, more);
    SplitLaid(words, gaps, rest + more);
  }

  /** A schedule of five words without a command is no entry. */
  lemma OnlySchedule(head: string, command: string)
    requires head != "" && !IsSpace(head[0]) && |SplitWords(head, 5)| == 5 && StripRight(command) == ""
    ensures |SplitWords(StripRight(head + (" " + command)), 5)| != 6
  {
    StripRightBlank(command);
    StripRightTail(head, " " + command);
    if |SplitWords(StripRight(head), 5)| == 6 {
      TrailingSpace(head, 5);
    }
  }

  lemma {:induction false} StripRightTail(a: string, b: string)
    requires forall i :: 0 <= i < |b| ==> IsSpace(b[i])
    ensures StripRight(a + b) == StripRight(a)
  {
    if b == "" {
      assert a + b == a;
    } else {
      assert (a + b)[|a + b| - 1] == b[|b| - 1] && (a + b)[..|a + b| - 1] == a + b[..|b| - 1];
      StripRightTail(a, b[..|b| - 1]);
    }
  }

  // ----- the blocks

  /** A word with an equals sign first: no entry. */
  lemma AssignmentReads(line: string)
    requires StartsWith(line, ZONE)
    ensures CronParts(line).None?
  {
    assert forall i :: 0 <= i < |ZONE| ==> line[i] == line[..|ZONE|][i];
    assert ZONE == ['C', 'R', 'O', 'N', '_', 'T', 'Z', '='];
    StripKeeps(line, 7);
    var s := Strip(line);
    assert s[..8] == line[..8];
    var rest := s[8..];
    assert s == ZONE + rest;
    LongWord(ZONE, rest);
  }

  lemma {:induction false} LongWord(w: string, rest: string)
    requires forall i :: 0 <= i < |w| ==> !IsSpace(w[i])
    ensures |Word(w + rest)| >= |w| && Word(w + rest)[..|w|] == w
  {
    if w != "" {
      assert (w + rest)[0] == w[0] && (w + rest)[1..] == w[1..] + rest;
      LongWord(w[1..], rest);
      assert w == [w[0]] + w[1..];
    }
  }

  lemma EntryKeepsZone(line: string, zone: Option<string>)
    requires CronParts(line).Some?
    ensures ZoneFrom(line, zone) == zone
  {
    if StartsWith(line, ZONE) {
      AssignmentReads(line);
    }
  }

  /** The entries the declaration asks for, in order. */
  function WantedAll(jobs: seq<Job>, home: string): seq<Timed>
    requires forall j :: j in jobs && j.isCron ==> FiveWords(j) && SubstituteHome(j.command, home).Ok?
  {
    if jobs == [] then []
    else (if jobs[0].isCron then [Wanted(jobs[0], home)] else []) + WantedAll(jobs[1..], home)
  }

  /** The time zone of the last cron job. */
  function LastZone(jobs: seq<Job>, zone: Option<string>): Option<string> {
    if jobs == [] then zone else LastZone(jobs[1..], if jobs[0].isCron then Some(jobs[0].timezone) else zone)
  }

  lemma JobReads(job: Job, home: string, zone: Option<string>)
    requires job.isCron && FiveWords(job) && SubstituteHome(job.command, home).Ok?
    requires CronParts(job.schedule + " " + SubstituteHome(job.command, home).value).Some?
    ensures JobBlock(job, home).Ok? && Reading(JobBlock(job, home).value, zone) == [Wanted(job, home)]
    ensures ZoneAfter(JobBlock(job, home).value, zone) == Some(job.timezone)
  {
    var block := JobBlock(job, home).value;
    var own := Some(job.timezone);
    CommentReads(block[0], zone);
    assert (ZONE + job.timezone)[..|ZONE|] == ZONE && (ZONE + job.timezone)[|ZONE|..] == job.timezone;
    AssignmentReads(block[1]);
    CommandReads(job, home);
    EntryKeepsZone(block[2], own);
    assert block[1..] == [block[1], block[2]] && block[2..] == [block[2]] && block[3..] == [];
    ReadingHead(block[2], [], own);
    ReadingHead(block[1], [block[2]], zone);
    ReadingHead(block[0], [block[1], block[2]], zone);
    assert block == [block[0]] + [block[1], block[2]] && [block[1], block[2]] == [block[1]] + [block[2]] && [block[2]] == [block[2]] + [];
  }

  /** Cron jobs that the claim contract accepts, with schedules of five words. */
  predicate Runnable(jobs: seq<Job>, home: string) {
    forall j :: j in jobs && j.isCron ==>
      && FiveWords(j) && SubstituteHome(j.command, home).Ok?
      && CronParts(j.schedule + " " + SubstituteHome(j.command, home).value).Some?
  }

  lemma {:induction false} BlocksRead(jobs: seq<Job>, home: string, zone: Option<string>)
    requires Runnable(jobs, home) && JobBlocks(jobs, home).Ok?
    ensures Reading(JobBlocks(jobs, home).value, zone) == WantedAll(jobs, home)
    ensures ZoneAfter(JobBlocks(jobs, home).value, zone) == LastZone(jobs, zone)
  {
    if jobs != [] {
      var first, rest := JobBlock(jobs[0], home).value, JobBlocks(jobs[1..], home).value;
      ReadingAppend(first, rest, zone);
      assert jobs[0] in jobs;
      if jobs[0].isCron {
        JobReads(jobs[0], home, zone);
        BlocksRead(jobs[1..], home, Some(jobs[0].timezone));
      } else {
        BlocksRead(jobs[1..], home, zone);
      }
    }
  }

  /** A block of comments around a body reads as the body. */
  lemma FramedReads(open: string, note: string, body: seq<string>, close: string, zone: Option<string>)
    requires open != "" && open[0] == '#' && note != "" && note[0] == '#' && close != "" && close[0] == '#'
    ensures Reading([open, note] + body + [close], zone) == Reading(body, zone)
    ensures ZoneAfter([open, note] + body + [close], zone) == ZoneAfter(body, zone)
  {
    CommentReads(open, zone);
    CommentReads(note, zone);
    CommentReads(close, ZoneAfter(body, zone));
    var whole := [open, note] + body + [close];
    assert whole == [open] + ([note] + (body + [close]));
    ReadingHead(open, [note] + (body + [close]), zone);
    ReadingHead(note, body + [close], zone);
    ReadingAppend(body, [close], zone);
    ReadingHead(close, [], ZoneAfter(body, zone));
    assert [close] == [close] + [];
  }
}
