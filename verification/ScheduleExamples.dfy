/** Crontabs at which the conditions of the main results fail. */
module ScheduleExamples {
  import opened Wrappers
  import opened Text
  import opened HomePlaceholder
  import opened Schedules
  import opened ScheduleLines
  import opened ScheduleIdempotence
  import opened SchedulePublic
  import opened ScheduleAdoption

  lemma OneLineLines(l: string)
    requires l != "" && Unbroken(l)
    ensures Lines(l) == [l] && SplitLines(l) == [l]
  {
    LinesOne(l);
    UnbrokenBody(l);
    assert Bodies([l]) == [Body(l)] + Bodies([]);
  }

  lemma BracelessRenders(l: string, home: string)
    requires '{' !in l && '}' !in l
    ensures SubstituteHome(l, home) == Ok(l)
  {
    LacksBy(l, PLACEHOLDER);
    LacksBy(l, "{{");
    LacksBy(l, "}}");
    ReplaceNothing(l, PLACEHOLDER, home);
  }

  /** A private text of one line without braces stands for that line. */
  lemma OnePrivateLine(l: string, home: string)
    requires Unbroken(l) && !Blank(l) && '{' !in l && '}' !in l
    ensures PrivateLines(l, home) == Ok([l])
  {
    OneLineLines(l);
    BracelessRenders(l, home);
    assert [l][1..] == [] && NonBlank([l]) == [l] + NonBlank([]);
    assert SubstituteAll([l], home) == Ok([l] + []);
  }

  /** An empty crontab and an empty declaration reconcile with any private text that renders. */
  lemma EmptyReconciles(home: string, private: string)
    requires PrivateLines(private, home).Ok?
    ensures Reconcile("", [], home, private).Ok?
  {
  }

  lemma BeginIsPlain()
    ensures Unbroken(BEGIN) && !Blank(BEGIN) && '{' !in BEGIN && '}' !in BEGIN && Strip(BEGIN) == BEGIN
  {
    ManagedShape();
    MarkOfMarkers();
  }

  /** A private line that is the begin marker: the first run succeeds, its output does not reconcile, and
      reading the public block back does not give the managed block. */
  lemma MarkerInPrivateText(home: string)
    requires home != "" && OneLine(home)
    ensures Reconcile("", [], home, BEGIN).Ok?
    ensures var out := Reconcile("", [], home, BEGIN).value;
      Reconcile(out, [], home, BEGIN).Raise? && PublicBlock(out) != ManagedBlock([], home).value
  {
    BeginIsPlain();
    OnePrivateLine(BEGIN, home);
    EmptyReconciles(home, BEGIN);
    MarkOfMarkers();
    assert !NoMarkers([BEGIN]) && !NoBegin([BEGIN]) by {
      assert BEGIN in [BEGIN];
      assert Opening()(BEGIN);
    }
    ReconcileIsIdempotentIff("", [], home, BEGIN);
    PublicBlockIff("", [], home, BEGIN);
  }

  const BRACES := "# {{"

  lemma BracesRead(home: string)
    ensures Read(BRACES, Claims(map[], map[], map[]), {}, home) == Item(BRACES, NoMark, false, false)
  {
    assert Bare(BRACES) == BRACES && Strip(BRACES) == BRACES;
  }

  lemma KeptItem(item: Item)
    requires item.mark.NoMark? && !item.claimed && !item.near
    ensures ScanItems(START, [item]) == Ok(Scan(None, {}, [item.line]))
  {
    assert [] + [item.line] == [item.line];
    assert Step(START, item) == Ok(Scan(None, {}, [item.line]));
    assert [item][1..] == [];
  }

  lemma OneLineScanned(l: string, claims: Claims, home: string)
    requires l != "" && Unbroken(l) && Read(l, claims, {}, home) == Item(l, NoMark, false, false)
    ensures ScanItems(START, ReadAll(Lines(l), claims, {}, home)) == Ok(Scan(None, {}, [l]))
    ensures Join([l]) == l
  {
    var item := Item(l, NoMark, false, false);
    OneLineLines(l);
    KeptItem(item);
    assert [l][1..] == [] && ReadAll([l][1..], claims, {}, home) == [];
    assert ReadAll([l], claims, {}, home) == [item] + [] == [item];
    assert Join([l]) == l + Join([]) == l + "" == l;
  }

  lemma NothingDeclared(home: string)
    ensures PrivateLines("", home) == Ok([]) && Elements([]) == {}
    ensures Contract([], home) == Ok(Claims(map[], map[], map[]))
    ensures ManagedBlock([], home).Ok? && PrivateBlock("", home).Ok?
  {
  }

  lemma OneLineReconciles(l: string, home: string)
    requires l != "" && Unbroken(l) && Read(l, Claims(map[], map[], map[]), {}, home) == Item(l, NoMark, false, false)
    ensures Prefix(l, [], home, "") == Ok(Pad(l)) && Reconcile(l, [], home, "").Ok?
  {
    NothingDeclared(home);
    OneLineScanned(l, Claims(map[], map[], map[]), home);
  }

  lemma BracesReconcile(home: string)
    ensures Prefix(BRACES, [], home, "") == Ok(Pad(BRACES)) && Reconcile(BRACES, [], home, "").Ok?
  {
    BracesRead(home);
    OneLineReconciles(BRACES, home);
  }

  lemma BracesStay()
    ensures Contains(Pad(BRACES), "{{")
  {
    var prefix := Pad(BRACES);
    assert prefix[2..][..2] == "{{";
    ContainsAt(prefix, "{{", 2);
  }

  lemma BracesVisible(l: string)
    requires Contains(l, "{{")
    ensures !Blank(l)
  {
    var i := ContainsWhere(l, "{{");
    BlankIff(l);
    assert l[i] == l[i..][..2][0] == '{';
  }

  /** A text with an opening brace pair has a visible line that is not adoptable. */
  lemma BracesHandAdded(text: string) returns (l: string)
    requires Contains(text, "{{")
    ensures l in HandAdded(text) && !Adoptable(l)
  {
    assert Unbroken("{{");
    TextLacks(text, "{{");
    l :| l in SplitLines(text) && Contains(l, "{{");
    BracesVisible(l);
    NonBlankMembers(SplitLines(text));
  }

  /** A hand-added line with an opening brace pair is not adopted. */
  lemma BracesAreNotAdopted(home: string)
    requires home != "" && OneLine(home)
    ensures Reconcile(BRACES, [], home, "").Ok?
    ensures !Complete(BRACES, [], home, Adopt(BRACES, "", [], home).value)
  {
    BracesReconcile(home);
    BracesStay();
    var l := BracesHandAdded(Pad(BRACES));
    assert '\r' !in BRACES;
    AdoptionCompleteIff(BRACES, "", [], home);
  }

  lemma OneJobBlock(job: Job, home: string)
    requires job.isCron && '{' !in job.command && '}' !in job.command
    ensures ManagedBlock([job], home) ==
            Ok(Terminate(ManagedLines(["# schedule-id: " + job.id + "; missed-run=" + job.policy,
                                       "CRON_TZ=" + job.timezone, job.schedule + " " + job.command])))
  {
    BracelessRenders(job.command, home);
    var lines := JobBlock(job, home).value;
    assert [job][1..] == [] && JobBlocks([job], home) == Ok(lines + []) && lines + [] == lines;
  }

  lemma FramedLines(a: string, b: string, c: string)
    requires Unbroken(a) && Unbroken(b) && Unbroken(c)
    ensures SplitLines(Terminate(ManagedLines([a, b, c]))) == [BEGIN, MANAGED_NOTE, a, b, c, END]
  {
    ManagedShape();
    NoteLines();
    LinesOfTerminate(ManagedLines([a, b, c]));
  }

  /** The lines of the managed block of one job. */
  lemma OneJobIsRendered(job: Job, home: string)
    requires LoadedJob(job) && job.isCron && '{' !in job.command && '}' !in job.command
    ensures ManagedBlock([job], home).Ok?
    ensures SplitLines(ManagedBlock([job], home).value) ==
            [BEGIN, MANAGED_NOTE, "# schedule-id: " + job.id + "; missed-run=" + job.policy,
             "CRON_TZ=" + job.timezone, job.schedule + " " + job.command, END]
  {
    OneJobBlock(job, home);
    FramedLines("# schedule-id: " + job.id + "; missed-run=" + job.policy, "CRON_TZ=" + job.timezone,
                job.schedule + " " + job.command);
  }
}
