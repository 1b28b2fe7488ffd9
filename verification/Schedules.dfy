/** The declarative part of the host crontab: claims, rendered blocks, and the line-by-line
    reconciliation that keeps every line it does not own. */
module Schedules {
  import opened Wrappers
  import opened Text
  import opened HomePlaceholder

  const BEGIN := "# >>> coding-system schedules v1 >>>"
  const END := "# <<< coding-system schedules v1 <<<"
  const LEGACY_BEGIN := "# >>> coding-system >>>"
  const LEGACY_END := "# <<< coding-system <<<"
  const PRIVATE_BEGIN := "# >>> coding-system private schedules >>>"
  const PRIVATE_END := "# <<< coding-system private schedules <<<"

  // in pieces, because the verifier does not unfold literals of this length
  const MANAGED_NOTE := "# Generated from " + "system/schedules/host.v1.json; " + "do not edit."
  const PRIVATE_NOTE := "# Restored from " + "the owner's private schedule file; " + "do not edit here."

  /** One declared job; a systemd job has no crontab line of its own. */
  datatype Job = Job(id: string, isCron: bool, schedule: string, timezone: string, policy: string,
                     command: string, legacy: seq<string>)

  predicate OneLine(s: string) {
    '\n' !in s && '\r' !in s
  }

  /** What load_declaration has checked that matters here: every field is one line. */
  predicate LoadedJob(job: Job) {
    && OneLine(job.id) && OneLine(job.schedule) && OneLine(job.timezone) && OneLine(job.policy) && OneLine(job.command)
    && forall l :: l in job.legacy ==> OneLine(l)
  }

  ghost predicate Loaded(jobs: seq<Job>) {
    forall j :: j in jobs ==> LoadedJob(j)
  }

  // ----- crontab lines

  function Word(s: string): string {
    if s == "" || IsSpace(s[0]) then "" else [s[0]] + Word(s[1..])
  }

  lemma {:induction false} WordIsPrefix(s: string)
    ensures Word(s) <= s
  {
    if s != "" && !IsSpace(s[0]) {
      WordIsPrefix(s[1..]);
      assert s == [s[0]] + s[1..];
    }
  }

  /** s.split(maxsplit=limit) */
  function SplitWords(s: string, limit: nat): seq<string>
    decreases |s|
  {
    var t := StripLeft(s);
    if t == "" then []
    else if limit == 0 then [t]
    else
      WordIsPrefix(t);
      [Word(t)] + SplitWords(t[|Word(t)|..], limit - 1)
  }

  /** _cron_parts: the five-field schedule and the command, for a line that is one. */
  function CronParts(line: string): Option<(string, string)> {
    var stripped := Strip(line);
    if stripped == "" || stripped[0] == '#' || '=' in Word(stripped) then None
    else
      var parts := SplitWords(stripped, 5);
      if |parts| != 6 then None
      else Some((parts[0] + " " + parts[1] + " " + parts[2] + " " + parts[3] + " " + parts[4], parts[5]))
  }

  const STRESS_IDENTITY := "/usr/bin/stress --cpu 1 --timeout 240"

  predicate AnchorChar(c: char) {
    'A' <= c <= 'Z' || 'a' <= c <= 'z' || '0' <= c <= '9' || c in "_.*$/-"
  }

  function AnchorRun(s: string): (n: nat)
    ensures n <= |s|
  {
    if s == "" || !AnchorChar(s[0]) then 0 else 1 + AnchorRun(s[1..])
  }

  /** The length of the owned path at the head of the text, 0 if there is none. */
  function AnchorAt(s: string, home: string, root: string): (n: nat)
    ensures n <= |s|
  {
    var head := home + "/" + root;
    if !StartsWith(s, head) then 0
    else
      var run := AnchorRun(s[|head|..]);
      if run == 0 then 0 else |head| + run
  }

  function AnchorLength(s: string, home: string): (n: nat)
    ensures n <= |s|
  {
    if AnchorAt(s, home, "coding-system-rebuild/") > 0 then AnchorAt(s, home, "coding-system-rebuild/")
    else if AnchorAt(s, home, ".local/share/coding-system/repository/") > 0
      then AnchorAt(s, home, ".local/share/coding-system/repository/")
    else if AnchorAt(s, home, ".openclaw/workspace-sanitizer/") > 0
      then AnchorAt(s, home, ".openclaw/workspace-sanitizer/")
    else AnchorAt(s, home, ".openclaw/workspace-moltbook/")
  }

  /** re.findall, for a pattern given by the length of its match at the head of a text: leftmost matches that
      do not overlap. */
  function FindBy(s: string, length: string -> nat): set<string>
    decreases |s|
  {
    if s == "" then {}
    else
      var n := length(s);
      if n == 0 || n > |s| then FindBy(s[1..], length) else {s[..n]} + FindBy(s[n..], length)
  }

  function AnchorsBelow(home: string): string -> nat {
    s => AnchorLength(s, home)
  }

  function FindAnchors(s: string, home: string): set<string> {
    FindBy(s, AnchorsBelow(home))
  }

  /** _managed_command_anchors */
  function Anchors(command: string, home: string): set<string> {
    FindAnchors(command, home) + (if Contains(command, STRESS_IDENTITY) then {STRESS_IDENTITY} else {})
  }

  // ----- what the declaration claims

  /** The owning job of every claimed line, command and path identity. */
  datatype Claims = Claims(exact: map<string, string>, commands: map<string, string>, anchors: map<string, string>)

  function ClaimLine(c: Claims, id: string, line: string, home: string): Result<Claims> {
    if line in c.exact && c.exact[line] != id then Raise
    else
      match CronParts(line)
      case None => Raise
      case Some((_, command)) =>
        if command in c.commands && c.commands[command] != id then Raise
        else
          var found := Anchors(command, home);
          if exists a :: a in found && a in c.anchors && c.anchors[a] != id then Raise
          else Ok(Claims(c.exact[line := id], c.commands[command := id],
                         c.anchors + map a | a in found :: id))
  }

  function ClaimLines(c: Claims, id: string, lines: seq<string>, home: string): Result<Claims>
    decreases |lines|
  {
    if lines == [] then Ok(c)
    else
      var c' :- ClaimLine(c, id, lines[0], home);
      ClaimLines(c', id, lines[1..], home)
  }

  function SubstituteAll(lines: seq<string>, home: string): Result<seq<string>> {
    if lines == [] then Ok([])
    else
      var first :- SubstituteHome(lines[0], home);
      var rest :- SubstituteAll(lines[1..], home);
      Ok([first] + rest)
  }

  /** The crontab lines a job claims: its legacy lines, then its own. */
  function JobLines(job: Job, home: string): Result<seq<string>> {
    var legacy :- SubstituteAll(job.legacy, home);
    if !job.isCron then Ok(legacy)
    else
      var command :- SubstituteHome(job.command, home);
      Ok(legacy + [job.schedule + " " + command])
  }

  function ClaimJobs(c: Claims, jobs: seq<Job>, home: string): Result<Claims>
    decreases |jobs|
  {
    if jobs == [] then Ok(c)
    else
      var lines :- JobLines(jobs[0], home);
      var c' :- ClaimLines(c, jobs[0].id, lines, home);
      ClaimJobs(c', jobs[1..], home)
  }

  /** _legacy_claim_contract */
  function Contract(jobs: seq<Job>, home: string): Result<Claims> {
    ClaimJobs(Claims(map[], map[], map[]), jobs, home)
  }

  // ----- rendered blocks

  function JobBlock(job: Job, home: string): Result<seq<string>> {
    if !job.isCron then Ok([])
    else
      var command :- SubstituteHome(job.command, home);
      Ok(["# schedule-id: " + job.id + "; missed-run=" + job.policy,
          "CRON_TZ=" + job.timezone,
          job.schedule + " " + command])
  }

  function JobBlocks(jobs: seq<Job>, home: string): Result<seq<string>> {
    if jobs == [] then Ok([])
    else
      var first :- JobBlock(jobs[0], home);
      var rest :- JobBlocks(jobs[1..], home);
      Ok(first + rest)
  }

  function ManagedLines(body: seq<string>): seq<string> {
    [BEGIN, MANAGED_NOTE] + body + [END]
  }

  /** render_managed_block */
  function ManagedBlock(jobs: seq<Job>, home: string): Result<string> {
    var body :- JobBlocks(jobs, home);
    Ok(Terminate(ManagedLines(body)))
  }

  function NonBlank(lines: seq<string>): seq<string> {
    if lines == [] then [] else (if Blank(lines[0]) then [] else [lines[0]]) + NonBlank(lines[1..])
  }

  /** _private_lines */
  function PrivateLines(private: string, home: string): Result<seq<string>> {
    SubstituteAll(NonBlank(SplitLines(private)), home)
  }

  function PrivateBlockLines(lines: seq<string>): seq<string> {
    if lines == [] then [] else [PRIVATE_BEGIN, PRIVATE_NOTE] + lines + [PRIVATE_END]
  }

  /** render_private_block */
  function PrivateBlock(private: string, home: string): Result<string> {
    var lines :- PrivateLines(private, home);
    Ok(Terminate(PrivateBlockLines(lines)))
  }

  // ----- the scan

  datatype Block = Managed | Legacy | Private

  datatype Mark = NoMark | Opens(block: Block) | Closes(block: Block)

  /** Which marker a stripped line is, if any. */
  function MarkOf(marker: string): Mark {
    if marker == BEGIN then Opens(Managed)
    else if marker == LEGACY_BEGIN then Opens(Legacy)
    else if marker == PRIVATE_BEGIN then Opens(Private)
    else if marker == END then Closes(Managed)
    else if marker == LEGACY_END then Closes(Legacy)
    else if marker == PRIVATE_END then Closes(Private)
    else NoMark
  }

  /** A line the declaration or the private text already stands for. */
  predicate Claimed(bare: string, claims: Claims, private: set<string>) {
    bare in claims.exact || bare in private
  }

  /** A cron line that runs a managed command or names a managed path. */
  predicate NearMatch(bare: string, claims: Claims, home: string) {
    match CronParts(bare)
    case None => false
    case Some((_, command)) =>
      command in claims.commands || exists a :: a in Anchors(command, home) && a in claims.anchors
  }

  /** A line as the loop sees it. */
  datatype Item = Item(line: string, mark: Mark, claimed: bool, near: bool)

  function Read(line: string, claims: Claims, private: set<string>, home: string): Item {
    var bare := Bare(line);
    Item(line, MarkOf(Strip(bare)), Claimed(bare, claims, private), NearMatch(bare, claims, home))
  }

  function ReadAll(lines: seq<string>, claims: Claims, private: set<string>, home: string): seq<Item> {
    if lines == [] then [] else [Read(lines[0], claims, private, home)] + ReadAll(lines[1..], claims, private, home)
  }

  /** The loop variables of reconcile_text. */
  datatype Scan = Scan(active: Option<Block>, found: set<Block>, retained: seq<string>)

  const START := Scan(None, {}, [])

  function Step(st: Scan, item: Item): Result<Scan> {
    if st.active.Some? then
      if item.mark == Closes(st.active.value) then Ok(st.(active := None))
      else if !item.mark.NoMark? then Raise
      else Ok(st)
    else match item.mark
      case Opens(b) => if b in st.found then Raise else Ok(st.(active := Some(b), found := st.found + {b}))
      case Closes(_) => Raise
      case NoMark =>
        if item.claimed then Ok(st)
        else if item.near then Raise
        else Ok(st.(retained := st.retained + [item.line]))
  }

  function ScanItems(st: Scan, items: seq<Item>): Result<Scan>
    decreases |items|
  {
    if items == [] then Ok(st)
    else
      var st' :- Step(st, items[0]);
      ScanItems(st', items[1..])
  }

  /** The padding: a final break, then one blank line. */
  function Pad(prefix: string): string {
    var p := if prefix != "" && !EndsWith(prefix, "\n") then prefix + "\n" else prefix;
    if p != "" && !EndsWith(p, "\n\n") then p + "\n" else p
  }

  function Elements(lines: seq<string>): set<string> {
    set l | l in lines
  }

  /** The unmanaged text reconcile_text keeps, padded. */
  function Prefix(current: string, jobs: seq<Job>, home: string, private: string): Result<string> {
    var own :- PrivateLines(private, home);
    var claims :- Contract(jobs, home);
    var st :- ScanItems(START, ReadAll(Lines(current), claims, Elements(own), home));
    if st.active.Some? then Raise else Ok(Pad(Join(st.retained)))
  }

  /** reconcile_text */
  function Reconcile(current: string, jobs: seq<Job>, home: string, private: string): Result<string> {
    var prefix :- Prefix(current, jobs, home, private);
    var managed :- ManagedBlock(jobs, home);
    var block :- PrivateBlock(private, home);
    Ok(prefix + managed + block)
  }
}
