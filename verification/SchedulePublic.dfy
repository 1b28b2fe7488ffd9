/** The public block read back from a reconciled crontab is the managed block that was written. */
module SchedulePublic {
  import opened Wrappers
  import opened Text
  import opened Schedules
  import opened ScheduleLines
  import opened ScheduleIdempotence

  /** The loop of public_block over the split lines, for given tests of the two markers. */
  function LinesBetween(lines: seq<string>, inside: bool, opens: string -> bool, closes: string -> bool): seq<string> {
    if lines == [] then []
    else
      var now := inside || opens(lines[0]);
      (if now then [lines[0]] else []) + LinesBetween(lines[1..], now && !closes(lines[0]), opens, closes)
  }

  /** Whether the block is open after these lines. */
  function OpenAfter(lines: seq<string>, inside: bool, opens: string -> bool, closes: string -> bool): bool {
    if lines == [] then inside
    else OpenAfter(lines[1..], (inside || opens(lines[0])) && !closes(lines[0]), opens, closes)
  }

  function Opening(): string -> bool {
    line => Strip(line) == BEGIN
  }

  function Closing(): string -> bool {
    line => Strip(line) == END
  }

  function PublicLines(lines: seq<string>, inside: bool): seq<string> {
    LinesBetween(lines, inside, Opening(), Closing())
  }

  function InsideAfter(lines: seq<string>, inside: bool): bool {
    OpenAfter(lines, inside, Opening(), Closing())
  }

  /** public_block */
  function PublicBlock(current: string): string {
    Terminate(PublicLines(SplitLines(current), false))
  }

  lemma BetweenHead(line: string, rest: seq<string>, inside: bool, opens: string -> bool, closes: string -> bool)
    ensures var now := inside || opens(line);
      && LinesBetween([line] + rest, inside, opens, closes) ==
         (if now then [line] else []) + LinesBetween(rest, now && !closes(line), opens, closes)
      && OpenAfter([line] + rest, inside, opens, closes) == OpenAfter(rest, now && !closes(line), opens, closes)
  {
    assert ([line] + rest)[1..] == rest;
  }

  lemma {:induction false} BetweenAppend(a: seq<string>, b: seq<string>, inside: bool, opens: string -> bool, closes: string -> bool)
    ensures LinesBetween(a + b, inside, opens, closes) ==
            LinesBetween(a, inside, opens, closes) + LinesBetween(b, OpenAfter(a, inside, opens, closes), opens, closes)
    ensures OpenAfter(a + b, inside, opens, closes) == OpenAfter(b, OpenAfter(a, inside, opens, closes), opens, closes)
    decreases |a|
  {
    if a == [] {
      assert a + b == b;
    } else {
      var rest := a[1..];
      BetweenAppend(rest, b, (inside || opens(a[0])) && !closes(a[0]), opens, closes);
      assert a == [a[0]] + rest && a + b == [a[0]] + (rest + b);
      BetweenHead(a[0], rest, inside, opens, closes);
      BetweenHead(a[0], rest + b, inside, opens, closes);
      var now := inside || opens(a[0]);
      Associates(if now then [a[0]] else [], LinesBetween(rest, now && !closes(a[0]), opens, closes),
                 LinesBetween(b, OpenAfter(a, inside, opens, closes), opens, closes));
    }
  }

  lemma PublicAppend(a: seq<string>, b: seq<string>, inside: bool)
    ensures PublicLines(a + b, inside) == PublicLines(a, inside) + PublicLines(b, InsideAfter(a, inside))
    ensures InsideAfter(a + b, inside) == InsideAfter(b, InsideAfter(a, inside))
  {
    BetweenAppend(a, b, inside, Opening(), Closing());
  }

  ghost predicate NoBegin(lines: seq<string>) {
    forall l :: l in lines ==> !Opening()(l)
  }

  /** Outside the block, lines are dropped unless one of them opens it. */
  lemma {:induction false} BetweenOutside(lines: seq<string>, opens: string -> bool, closes: string -> bool)
    ensures (forall l :: l in lines ==> !opens(l)) <==> LinesBetween(lines, false, opens, closes) == []
    ensures (forall l :: l in lines ==> !opens(l)) ==> !OpenAfter(lines, false, opens, closes)
    decreases |lines|
  {
    if lines != [] {
      BetweenOutside(lines[1..], opens, closes);
      assert forall l :: l in lines <==> l == lines[0] || l in lines[1..];
    }
  }

  lemma PublicOutside(lines: seq<string>)
    ensures NoBegin(lines) <==> PublicLines(lines, false) == []
    ensures NoBegin(lines) ==> !InsideAfter(lines, false)
  {
    BetweenOutside(lines, Opening(), Closing());
  }

  /** Inside the block, lines are taken until one of them closes it. */
  lemma {:induction false} BetweenInside(lines: seq<string>, opens: string -> bool, closes: string -> bool)
    requires forall l :: l in lines ==> !closes(l)
    ensures LinesBetween(lines, true, opens, closes) == lines && OpenAfter(lines, true, opens, closes)
    decreases |lines|
  {
    if lines != [] {
      BetweenInside(lines[1..], opens, closes);
      assert lines == [lines[0]] + lines[1..];
    }
  }

  lemma PublicInside(lines: seq<string>)
    requires forall l :: l in lines ==> Strip(l) != END
    ensures PublicLines(lines, true) == lines && InsideAfter(lines, true)
  {
    BetweenInside(lines, Opening(), Closing());
  }

  lemma {:induction false} BodiesAppend(a: seq<string>, b: seq<string>)
    ensures Bodies(a + b) == Bodies(a) + Bodies(b)
  {
    if a == [] {
      assert a + b == b;
    } else {
      assert (a + b)[0] == a[0] && (a + b)[1..] == a[1..] + b;
      BodiesAppend(a[1..], b);
    }
  }

  lemma SplitAppend(a: string, b: string)
    requires a == "" || EndsWith(a, "\n")
    ensures SplitLines(a + b) == SplitLines(a) + SplitLines(b)
  {
    LinesAppend(a, b);
    BodiesAppend(Lines(a), Lines(b));
  }

  lemma {:induction false} QuietBodies(lines: seq<string>, claims: Claims, own: set<string>, home: string)
    requires AllQuiet(lines, claims, own, home)
    ensures NoBegin(Bodies(lines))
  {
    if lines != [] {
      QuietBodies(lines[1..], claims, own, home);
      assert Quiet(lines[0], claims, own, home);
      StripBody(lines[0]);
      StripBare(lines[0]);
      MarkOfMarkers();
    }
  }

  lemma NoMarkIsNoEnd(l: string)
    requires MarkOf(Strip(l)).NoMark?
    ensures Strip(l) != BEGIN && Strip(l) != END
  {
    MarkOfMarkers();
  }

  lemma PublicOne(line: string, inside: bool)
    ensures PublicLines([line], inside) == if inside || Strip(line) == BEGIN then [line] else []
    ensures InsideAfter([line], inside) == ((inside || Strip(line) == BEGIN) && Strip(line) != END)
  {
    BetweenOne(line, inside, Opening(), Closing());
  }

  lemma BetweenOne(line: string, inside: bool, opens: string -> bool, closes: string -> bool)
    ensures LinesBetween([line], inside, opens, closes) == if inside || opens(line) then [line] else []
    ensures OpenAfter([line], inside, opens, closes) == ((inside || opens(line)) && !closes(line))
  {
    assert [line][1..] == [];
  }

  /** The managed block reads back as itself and closes. */
  lemma PublicManaged(body: seq<string>)
    requires NoMarkers(body)
    ensures PublicLines(ManagedLines(body), false) == ManagedLines(body)
    ensures !InsideAfter(ManagedLines(body), false)
  {
    MarkersAreTheirOwn();
    NoEndInside(body);
    PublicFrame(BEGIN, [MANAGED_NOTE] + body, END);
    assert ManagedLines(body) == [BEGIN] + ([MANAGED_NOTE] + body) + [END];
  }

  lemma MarkersAreTheirOwn()
    ensures Strip(BEGIN) == BEGIN && Strip(BEGIN) != END && Strip(END) == END
  {
    MarkOfMarkers();
  }

  lemma NoEndInside(body: seq<string>)
    requires NoMarkers(body)
    ensures forall l :: l in [MANAGED_NOTE] + body ==> Strip(l) != END
  {
    ManagedFrame();
    forall l | l in [MANAGED_NOTE] + body ensures Strip(l) != END {
      NoMarkIsNoEnd(l);
    }
  }

  lemma PublicFrame(open: string, middle: seq<string>, close: string)
    requires Strip(open) == BEGIN && Strip(open) != END && Strip(close) == END
    requires forall l :: l in middle ==> Strip(l) != END
    ensures PublicLines([open] + middle + [close], false) == [open] + middle + [close]
    ensures !InsideAfter([open] + middle + [close], false)
  {
    PublicOne(open, false);
    PublicInside(middle);
    PublicOne(close, true);
    PublicAppend([open], middle, false);
    PublicAppend([open] + middle, [close], false);
  }

  lemma {:induction false} TerminateAppend(a: seq<string>, b: seq<string>)
    ensures Terminate(a + b) == Terminate(a) + Terminate(b)
    ensures b != [] ==> Terminate(b) != ""
  {
    if a == [] {
      assert a + b == b;
    } else {
      assert (a + b)[0] == a[0] && (a + b)[1..] == a[1..] + b;
      TerminateAppend(a[1..], b);
    }
  }

  lemma FrameIsNoBegin()
    ensures !Opening()(PRIVATE_BEGIN) && !Opening()(PRIVATE_NOTE) && !Opening()(PRIVATE_END)
  {
    PrivateFrame();
    MarkOfMarkers();
    NoMarkIsNoEnd(PRIVATE_NOTE);
  }

  lemma NoBeginFramed(lines: seq<string>, open: string, note: string, close: string)
    requires !Opening()(open) && !Opening()(note) && !Opening()(close)
    ensures NoBegin([open, note] + lines + [close]) <==> NoBegin(lines)
  {
    var all := [open, note] + lines + [close];
    assert forall l :: l in all <==> l == open || l == note || l == close || l in lines;
  }

  lemma PrivateBlockBegins(lines: seq<string>)
    ensures NoBegin(PrivateBlockLines(lines)) <==> NoBegin(lines)
  {
    FrameIsNoBegin();
    NoBeginFramed(lines, PRIVATE_BEGIN, PRIVATE_NOTE, PRIVATE_END);
  }

  /** Lines without a begin marker, a block that reads back as itself, and what follows. */
  lemma PublicOfParts(before: seq<string>, managed: seq<string>, after: seq<string>)
    requires NoBegin(before) && PublicLines(managed, false) == managed && !InsideAfter(managed, false)
    ensures PublicLines(before + managed + after, false) == managed + PublicLines(after, false)
  {
    PublicOutside(before);
    PublicAppend(before, managed, false);
    PublicAppend(before + managed, after, false);
  }

  /** public_block of a reconciled crontab is the managed block, exactly when no private line is the
      managed block's begin marker. */
  lemma PublicBlockIff(current: string, jobs: seq<Job>, home: string, private: string)
    requires Loaded(jobs) && home != "" && OneLine(home)
    requires Reconcile(current, jobs, home, private).Ok?
    ensures PublicBlock(Reconcile(current, jobs, home, private).value) == ManagedBlock(jobs, home).value
            <==> NoBegin(PrivateLines(private, home).value)
  {
    var prefix, body := Prefix(current, jobs, home, private).value, JobBlocks(jobs, home).value;
    var own := PrivateLines(private, home).value;
    SplitOutput(current, jobs, home, private);
    PublicManaged(body);
    PublicOfParts(SplitLines(prefix), ManagedLines(body), PrivateBlockLines(own));
    PublicOutside(PrivateBlockLines(own));
    PrivateBlockBegins(own);
    TerminateAppend(ManagedLines(body), PublicLines(PrivateBlockLines(own), false));
    assert ManagedLines(body) + [] == ManagedLines(body);
  }

  lemma SplitRendered(b: Block, open: string, note: string, close: string, body: seq<string>)
    requires Frames(b, open, note, close) && forall l :: l in body ==> Unbroken(l)
    ensures SplitLines(Terminate([open, note] + body + [close])) == [open, note] + body + [close]
    ensures EndsWith(Terminate([open, note] + body + [close]), "\n")
  {
    var lines := [open, note] + body + [close];
    assert forall l :: l in lines ==> l == open || l == note || l == close || l in body;
    LinesOfTerminate(lines);
  }

  lemma SplitManaged(jobs: seq<Job>, home: string)
    requires Loaded(jobs) && OneLine(home) && Contract(jobs, home).Ok?
    ensures JobBlocks(jobs, home).Ok? && NoMarkers(JobBlocks(jobs, home).value)
    ensures var lines := ManagedLines(JobBlocks(jobs, home).value);
            SplitLines(Terminate(lines)) == lines && EndsWith(Terminate(lines), "\n")
  {
    ManagedBlockRenders(jobs, home);
    ManagedFrame();
    SplitRendered(Managed, BEGIN, MANAGED_NOTE, END, JobBlocks(jobs, home).value);
  }

  lemma SplitPrivate(private: string, home: string)
    requires home != "" && OneLine(home) && PrivateLines(private, home).Ok?
    ensures var lines := PrivateBlockLines(PrivateLines(private, home).value);
            SplitLines(Terminate(lines)) == lines
  {
    PrivateLinesShape(private, home);
    PrivateFrame();
    if PrivateLines(private, home).value != [] {
      SplitRendered(Private, PRIVATE_BEGIN, PRIVATE_NOTE, PRIVATE_END, PrivateLines(private, home).value);
    }
  }

  /** The lines of an output, part by part. */
  lemma SplitOutput(current: string, jobs: seq<Job>, home: string, private: string)
    requires Loaded(jobs) && home != "" && OneLine(home)
    requires Reconcile(current, jobs, home, private).Ok?
    ensures var prefix, body := Prefix(current, jobs, home, private).value, JobBlocks(jobs, home).value;
            && SplitLines(Reconcile(current, jobs, home, private).value) ==
               SplitLines(prefix) + ManagedLines(body) + PrivateBlockLines(PrivateLines(private, home).value)
            && NoBegin(SplitLines(prefix)) && NoMarkers(body)
  {
    var prefix, body := Prefix(current, jobs, home, private).value, JobBlocks(jobs, home).value;
    var own := PrivateLines(private, home).value;
    var managed, block := Terminate(ManagedLines(body)), Terminate(PrivateBlockLines(own));
    PrefixQuiet(current, jobs, home, private);
    QuietBodies(Lines(prefix), Contract(jobs, home).value, Elements(own), home);
    SplitManaged(jobs, home);
    SplitPrivate(private, home);
    SplitAppend(prefix, managed);
    EndsIn(prefix, managed);
    SplitAppend(prefix + managed, block);
  }
}
