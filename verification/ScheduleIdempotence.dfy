/** Reconciling a reconciled crontab changes nothing, exactly when no private line is a marker. */
module ScheduleIdempotence {
  import opened Wrappers
  import opened Text
  import opened Schedules
  import opened ScheduleLines
  import opened ScheduleStructure

  // ----- reading and scanning pieces

  lemma {:induction false} ReadAllAppend(a: seq<string>, b: seq<string>, claims: Claims, own: set<string>, home: string)
    ensures ReadAll(a + b, claims, own, home) == ReadAll(a, claims, own, home) + ReadAll(b, claims, own, home)
  {
    if a == [] {
      assert a + b == b;
    } else {
      assert (a + b)[0] == a[0] && (a + b)[1..] == a[1..] + b;
      ReadAllAppend(a[1..], b, claims, own, home);
    }
  }

  lemma {:induction false} ReadAllAt(lines: seq<string>, claims: Claims, own: set<string>, home: string)
    ensures |ReadAll(lines, claims, own, home)| == |lines|
    ensures forall i :: 0 <= i < |lines| ==> ReadAll(lines, claims, own, home)[i] == Read(lines[i], claims, own, home)
  {
    if lines != [] {
      ReadAllAt(lines[1..], claims, own, home);
    }
  }

  /** A line the scan retains wherever it stands outside the blocks. */
  predicate Quiet(line: string, claims: Claims, own: set<string>, home: string) {
    var item := Read(line, claims, own, home);
    item.mark.NoMark? && !item.claimed && !item.near
  }

  ghost predicate AllQuiet(lines: seq<string>, claims: Claims, own: set<string>, home: string) {
    forall l :: l in lines ==> Quiet(l, claims, own, home)
  }

  function LinesOfItems(items: seq<Item>): seq<string> {
    if items == [] then [] else [items[0].line] + LinesOfItems(items[1..])
  }

  lemma {:induction false} ScanRetains(st: Scan, items: seq<Item>)
    requires st.active.None?
    requires forall i :: 0 <= i < |items| ==> items[i].mark.NoMark? && !items[i].claimed && !items[i].near
    ensures ScanItems(st, items) == Ok(st.(retained := st.retained + LinesOfItems(items)))
    decreases |items|
  {
    if items == [] {
      assert st.retained + [] == st.retained;
    } else {
      var next := st.(retained := st.retained + [items[0].line]);
      ScanRetains(next, items[1..]);
      assert next.retained + LinesOfItems(items[1..]) == st.retained + LinesOfItems(items);
    }
  }

  lemma {:induction false} ReadLines(lines: seq<string>, claims: Claims, own: set<string>, home: string)
    ensures LinesOfItems(ReadAll(lines, claims, own, home)) == lines
    decreases |lines|
  {
    if lines != [] {
      ReadLines(lines[1..], claims, own, home);
    }
  }

  lemma ScanQuiet(st: Scan, lines: seq<string>, claims: Claims, own: set<string>, home: string)
    requires st.active.None? && AllQuiet(lines, claims, own, home)
    ensures ScanItems(st, ReadAll(lines, claims, own, home)) == Ok(st.(retained := st.retained + lines))
  {
    var items := ReadAll(lines, claims, own, home);
    ReadAllAt(lines, claims, own, home);
    forall i | 0 <= i < |items| ensures items[i].mark.NoMark? && !items[i].claimed && !items[i].near {
      assert Quiet(lines[i], claims, own, home);
    }
    ReadLines(lines, claims, own, home);
    ScanRetains(st, items);
  }

  /** What the scan retains is quiet, and stays a list of lines. */
  lemma {:induction false} RetainedQuiet(st: Scan, lines: seq<string>, claims: Claims, own: set<string>, home: string)
    requires LineList(lines) && AllQuiet(st.retained, claims, own, home) && AllLines(st.retained)
    requires ScanItems(st, ReadAll(lines, claims, own, home)).Ok?
    ensures var r := ScanItems(st, ReadAll(lines, claims, own, home)).value.retained;
            AllQuiet(r, claims, own, home) && LineList(r)
    decreases |lines|
  {
    if lines == [] {
      AllLinesIsLineList(st.retained);
    } else {
      var next := Step(st, Read(lines[0], claims, own, home)).value;
      assert next.retained == st.retained || (next.retained == st.retained + [lines[0]] && Quiet(lines[0], claims, own, home));
      if |lines| == 1 {
        assert lines[1..] == [];
        AllLinesIsLineList(st.retained);
        LineListSnoc(st.retained, lines[0]);
      } else {
        RetainedQuiet(next, lines[1..], claims, own, home);
      }
    }
  }

  lemma {:induction false} LineListSnoc(a: seq<string>, last: string)
    requires AllLines(a) && (IsLine(last) || (last != "" && Unbroken(last)))
    ensures LineList(a + [last])
  {
    if a != [] {
      LineListSnoc(a[1..], last);
      assert (a + [last])[0] == a[0] && (a + [last])[1..] == a[1..] + [last];
    }
  }

  // ----- padding

  /** The same lines, the last one complete. */
  function Completed(lines: seq<string>): seq<string> {
    if lines == [] then []
    else
      var n := |lines| - 1;
      if EndsWith(lines[n], "\n") then lines else lines[..n] + [lines[n] + "\n"]
  }

  lemma {:induction false} LineListInit(lines: seq<string>)
    requires LineList(lines) && lines != []
    ensures AllLines(lines[..|lines| - 1])
    ensures var last := lines[|lines| - 1]; IsLine(last) || (last != "" && Unbroken(last))
  {
    if |lines| > 1 {
      LineListInit(lines[1..]);
      var init := lines[..|lines| - 1];
      assert lines[1..][..|lines| - 2] == init[1..];
      assert init == [init[0]] + init[1..];
    }
  }

  lemma EndsIn(s: string, last: string)
    requires last != ""
    ensures EndsWith(s + last, "\n") <==> EndsWith(last, "\n")
  {
    var t := s + last;
    assert t[|t| - 1..] == [t[|t| - 1]] && last[|last| - 1..] == [last[|last| - 1]];
  }

  lemma JoinLast(init: seq<string>, last: string)
    requires last != ""
    ensures Join(init + [last]) == Join(init) + last
    ensures EndsWith(Join(init + [last]), "\n") <==> EndsWith(last, "\n")
  {
    JoinAppend(init, [last]);
    assert [last][1..] == [] && last + "" == last;
    EndsIn(Join(init), last);
  }

  lemma CompletedShape(lines: seq<string>)
    requires LineList(lines)
    ensures AllLines(Completed(lines))
    ensures forall l :: l in Completed(lines) ==> l in lines || exists k :: k in lines && l == k + "\n"
    ensures Join(Completed(lines)) ==
            if Join(lines) != "" && !EndsWith(Join(lines), "\n") then Join(lines) + "\n" else Join(lines)
  {
    if lines != [] {
      LineListInit(lines);
      var n := |lines| - 1;
      var init, last := lines[..n], lines[n];
      assert lines == init + [last];
      JoinLast(init, last);
      if !EndsWith(last, "\n") {
        JoinLast(init, last + "\n");
        assert Join(init) + (last + "\n") == Join(init) + last + "\n";
        assert (last + "\n")[..|last|] == last;
        assert last in lines;
      }
    }
  }

  lemma PadDone(q: string)
    requires q == "" || EndsWith(q, "\n\n")
    ensures Pad(q) == q
  {
    if q != "" {
      assert q[|q| - 1..] == q[|q| - 2..][1..];
    }
  }

  lemma TwoBreaks(p: string)
    requires EndsWith(p, "\n")
    ensures EndsWith(p + "\n", "\n\n")
  {
    assert (p + "\n")[|p| - 1..] == p[|p| - 1..] + "\n" == "\n\n";
  }

  lemma BlankAdded(c: seq<string>)
    requires AllLines(c) && c != []
    ensures var q := Join(c) + "\n";
            AllLines(Lines(q)) && EndsWith(q, "\n\n") && Lines(q) == c + ["\n"]
  {
    AllLinesIsLineList(c);
    TwoBreaks(Join(c));
    assert "\n"[..0] == "" && IsLine("\n");
    JoinLast(c, "\n");
    AllLinesIsLineList(c + ["\n"]);
    LinesOfJoin(c + ["\n"]);
  }

  /** The second half of the padding, on complete lines. */
  lemma PadBlank(c: seq<string>)
    requires AllLines(c)
    ensures var p := Join(c);
            var q := if p != "" && !EndsWith(p, "\n\n") then p + "\n" else p;
            && AllLines(Lines(q)) && (q == "" || EndsWith(q, "\n\n"))
            && (Lines(q) == c || Lines(q) == c + ["\n"])
  {
    if Join(c) != "" && !EndsWith(Join(c), "\n\n") {
      assert c != [];
      BlankAdded(c);
    } else {
      AllLinesIsLineList(c);
      LinesOfJoin(c);
    }
  }

  /** Padding works on whole lines, adds at most a break and a blank line, and is done once. */
  lemma PadShape(lines: seq<string>)
    requires LineList(lines)
    ensures var p := Pad(Join(lines));
            && AllLines(Lines(p)) && (p == "" || EndsWith(p, "\n\n"))
            && (Lines(p) == Completed(lines) || Lines(p) == Completed(lines) + ["\n"])
            && Pad(p) == p
  {
    CompletedShape(lines);
    PadBlank(Completed(lines));
    PadDone(Pad(Join(lines)));
  }

  lemma QuietBreak(line: string, claims: Claims, own: set<string>, home: string)
    requires Quiet(line, claims, own, home)
    ensures Quiet(line + "\n", claims, own, home)
  {
    BareNewline(line);
  }

  lemma QuietBlank(claims: Claims, own: set<string>, home: string)
    requires ClaimsParse(claims) && "" !in own
    ensures Quiet("\n", claims, own, home)
  {
    assert Bare("\n") == "" && Strip("") == "";
    MarkersStart("");
    assert CronParts("").None?;
  }

  // ----- rendered blocks under the scan

  lemma {:induction false} ScanInside(st: Scan, items: seq<Item>)
    requires st.active.Some? && forall i :: i in items ==> i.mark.NoMark?
    ensures ScanItems(st, items) == Ok(st)
    decreases |items|
  {
    if items != [] {
      assert items[0] in items;
      ScanInside(st, items[1..]);
    }
  }

  /** The items of a rendered list of lines. */
  lemma RenderedItems(lines: seq<string>, claims: Claims, own: set<string>, home: string)
    requires forall l :: l in lines ==> Unbroken(l)
    ensures var items := ReadAll(Lines(Terminate(lines)), claims, own, home);
            && |items| == |lines|
            && forall i :: 0 <= i < |lines| ==> items[i].mark == MarkOf(Strip(lines[i]))
  {
    LinesOfTerminate(lines);
    ReadAllAt(Lines(Terminate(lines)), claims, own, home);
    forall i | 0 <= i < |lines|
      ensures ReadAll(Lines(Terminate(lines)), claims, own, home)[i].mark == MarkOf(Strip(lines[i]))
    {
      MarkOfLine(lines[i]);
    }
  }

  /** A block of one kind, properly closed, is passed over. */
  lemma ScanBlock(st: Scan, items: seq<Item>, b: Block)
    requires st.active.None? && b !in st.found && |items| >= 2
    requires items[0].mark == Opens(b) && items[|items| - 1].mark == Closes(b)
    requires forall i :: 0 < i < |items| - 1 ==> items[i].mark.NoMark?
    ensures ScanItems(st, items) == Ok(st.(found := st.found + {b}))
  {
    var inside := st.(active := Some(b), found := st.found + {b});
    var middle, last := items[1..|items| - 1], items[|items| - 1];
    assert items[1..] == middle + [last];
    ScanInside(inside, middle);
    ScanAppend(inside, middle, [last]);
    assert [last][1..] == [];
    assert Step(st, items[0]) == Ok(inside);
  }

  ghost predicate NoMarkers(lines: seq<string>) {
    forall l :: l in lines ==> MarkOf(Strip(l)).NoMark?
  }

  /** The first, second and last lines of a rendered block. */
  ghost predicate Frames(b: Block, open: string, note: string, close: string) {
    && MarkOf(Strip(open)) == Opens(b) && MarkOf(Strip(note)).NoMark? && MarkOf(Strip(close)) == Closes(b)
    && Unbroken(open) && Unbroken(note) && Unbroken(close)
  }

  lemma ManagedFrame()
    ensures Frames(Managed, BEGIN, MANAGED_NOTE, END)
  {
    MarkOfMarkers();
    NoteLines();
    ManagedShape();
  }

  lemma PrivateFrame()
    ensures Frames(Private, PRIVATE_BEGIN, PRIVATE_NOTE, PRIVATE_END)
  {
    MarkOfMarkers();
    NoteLines();
    PrivateShape();
  }

  /** The items of a rendered block: its marker, its note, its body, its end. */
  ghost predicate BlockItems(items: seq<Item>, b: Block, body: seq<string>) {
    && |items| == |body| + 3
    && items[0].mark == Opens(b) && items[|items| - 1].mark == Closes(b) && items[1].mark.NoMark?
    && forall i :: 0 <= i < |body| ==> items[i + 2].mark == MarkOf(Strip(body[i]))
  }

  lemma FramedLines(open: string, note: string, body: seq<string>, close: string)
    ensures var lines := [open, note] + body + [close];
      && |lines| == |body| + 3 && lines[0] == open && lines[1] == note && lines[|lines| - 1] == close
      && (forall i :: 0 <= i < |body| ==> lines[i + 2] == body[i])
      && forall l :: l in lines ==> l == open || l == note || l == close || l in body
  {
  }

  lemma RenderedBlock(b: Block, open: string, note: string, close: string, body: seq<string>,
                      claims: Claims, own: set<string>, home: string)
    requires Frames(b, open, note, close) && forall l :: l in body ==> Unbroken(l)
    ensures BlockItems(ReadAll(Lines(Terminate([open, note] + body + [close])), claims, own, home), b, body)
    ensures EndsWith(Terminate([open, note] + body + [close]), "\n")
  {
    var lines := [open, note] + body + [close];
    FramedLines(open, note, body, close);
    RenderedItems(lines, claims, own, home);
    LinesOfTerminate(lines);
  }

  lemma ScanRendered(st: Scan, b: Block, open: string, note: string, close: string, body: seq<string>,
                     claims: Claims, own: set<string>, home: string)
    requires Frames(b, open, note, close) && forall l :: l in body ==> Unbroken(l)
    requires st.active.None? && b !in st.found && NoMarkers(body)
    ensures ScanItems(st, ReadAll(Lines(Terminate([open, note] + body + [close])), claims, own, home))
            == Ok(st.(found := st.found + {b}))
  {
    RenderedBlock(b, open, note, close, body, claims, own, home);
    var items := ReadAll(Lines(Terminate([open, note] + body + [close])), claims, own, home);
    forall i | 1 < i < |items| - 1 ensures items[i].mark.NoMark? {
      assert items[i - 2 + 2].mark == MarkOf(Strip(body[i - 2]));
    }
    ScanBlock(st, items, b);
  }

  // ----- a private line that is a marker

  /** Once a private block has been left early, the rest of it cannot be read to an end. */
  lemma {:induction false} EscapedRaises(st: Scan, items: seq<Item>)
    requires (st.active.None? || st.active == Some(Legacy)) && Managed in st.found && Private in st.found
    requires items != [] && items[|items| - 1].mark == Closes(Private)
    ensures ScanItems(st, items).Raise?
    decreases |items|
  {
    match Step(st, items[0])
    case Raise =>
    case Ok(next) =>
      assert st.active.None? && items[0].mark.Opens? ==> items[0].mark.block == Legacy by {
        OnlyLegacy(items[0].mark, st.found);
      }
      EscapedRaises(next, items[1..]);
  }

  lemma OnlyLegacy(m: Mark, found: set<Block>)
    requires Managed in found && Private in found
    ensures m.Opens? && m.block !in found ==> m.block == Legacy
  {
    if m.Opens? {
      match m.block
      case Managed =>
      case Legacy =>
      case Private =>
    }
  }

  lemma {:induction false} BadPrivateRaises(st: Scan, items: seq<Item>)
    requires st.active == Some(Private) && Managed in st.found && Private in st.found
    requires items != [] && items[|items| - 1].mark == Closes(Private)
    requires exists i :: 0 <= i < |items| - 1 && !items[i].mark.NoMark?
    ensures ScanItems(st, items).Raise?
    decreases |items|
  {
    match Step(st, items[0])
    case Raise =>
    case Ok(next) =>
      if items[0].mark.NoMark? {
        var i :| 0 <= i < |items| - 1 && !items[i].mark.NoMark?;
        assert items[1..][i - 1] == items[i];
        BadPrivateRaises(next, items[1..]);
      } else {
        EscapedRaises(next, items[1..]);
      }
  }

  /** A marker among the lines of a block is a marker among its items. */
  lemma BadItem(items: seq<Item>, b: Block, body: seq<string>) returns (k: nat)
    requires BlockItems(items, b, body) && !NoMarkers(body)
    ensures 2 <= k < |items| - 1 && !items[k].mark.NoMark?
  {
    var l :| l in body && !MarkOf(Strip(l)).NoMark?;
    var j :| 0 <= j < |body| && body[j] == l;
    k := j + 2;
    assert items[j + 2].mark == MarkOf(Strip(body[j]));
  }

  lemma ScanBadItems(st: Scan, items: seq<Item>, body: seq<string>)
    requires st.active.None? && Private !in st.found && Managed in st.found
    requires BlockItems(items, Private, body) && !NoMarkers(body)
    ensures ScanItems(st, items).Raise?
  {
    var k := BadItem(items, Private, body);
    ScanBadBlock(st, items, k);
  }

  lemma ScanBadBlock(st: Scan, items: seq<Item>, k: nat)
    requires st.active.None? && Private !in st.found && Managed in st.found
    requires 0 < k < |items| - 1 && !items[k].mark.NoMark?
    requires items[0].mark == Opens(Private) && items[|items| - 1].mark == Closes(Private)
    ensures ScanItems(st, items).Raise?
  {
    assert items[1..][k - 1] == items[k];
    BadPrivateRaises(Step(st, items[0]).value, items[1..]);
  }

  // ----- the whole output

  lemma ScanConcat(st: Scan, a: string, b: string, claims: Claims, own: set<string>, home: string)
    requires a == "" || EndsWith(a, "\n")
    ensures ScanItems(st, ReadAll(Lines(a + b), claims, own, home)) ==
            match ScanItems(st, ReadAll(Lines(a), claims, own, home))
            case Raise => Raise
            case Ok(mid) => ScanItems(mid, ReadAll(Lines(b), claims, own, home))
  {
    LinesAppend(a, b);
    ReadAllAppend(Lines(a), Lines(b), claims, own, home);
    ScanAppend(st, ReadAll(Lines(a), claims, own, home), ReadAll(Lines(b), claims, own, home));
  }

  lemma ScanManagedBlock(st: Scan, jobs: seq<Job>, home: string, claims: Claims, own: set<string>)
    requires Loaded(jobs) && OneLine(home) && Contract(jobs, home).Ok?
    requires st.active.None? && Managed !in st.found
    ensures ManagedBlock(jobs, home).Ok?
    ensures ScanItems(st, ReadAll(Lines(ManagedBlock(jobs, home).value), claims, own, home))
            == Ok(st.(found := st.found + {Managed}))
    ensures EndsWith(ManagedBlock(jobs, home).value, "\n")
  {
    ManagedBlockRenders(jobs, home);
    ManagedFrame();
    var body := JobBlocks(jobs, home).value;
    ScanRendered(st, Managed, BEGIN, MANAGED_NOTE, END, body, claims, own, home);
    RenderedBlock(Managed, BEGIN, MANAGED_NOTE, END, body, claims, own, home);
  }

  lemma ScanBadRendered(st: Scan, open: string, note: string, close: string, body: seq<string>,
                        claims: Claims, own: set<string>, home: string)
    requires Frames(Private, open, note, close) && (forall l :: l in body ==> Unbroken(l)) && !NoMarkers(body)
    requires st.active.None? && Private !in st.found && Managed in st.found
    ensures ScanItems(st, ReadAll(Lines(Terminate([open, note] + body + [close])), claims, own, home)).Raise?
  {
    RenderedBlock(Private, open, note, close, body, claims, own, home);
    var items := ReadAll(Lines(Terminate([open, note] + body + [close])), claims, own, home);
    ScanBadItems(st, items, body);
  }

  lemma ScanPrivateBlock(st: Scan, private: string, home: string, claims: Claims, own: set<string>)
    requires home != "" && OneLine(home) && PrivateLines(private, home).Ok?
    requires st.active.None? && Private !in st.found && Managed in st.found
    ensures var r := ScanItems(st, ReadAll(Lines(PrivateBlock(private, home).value), claims, own, home));
            if NoMarkers(PrivateLines(private, home).value)
            then r.Ok? && r.value.active.None? && r.value.retained == st.retained
            else r.Raise?
  {
    var lines := PrivateLines(private, home).value;
    PrivateLinesShape(private, home);
    PrivateFrame();
    if lines != [] {
      if NoMarkers(lines) {
        ScanRendered(st, Private, PRIVATE_BEGIN, PRIVATE_NOTE, PRIVATE_END, lines, claims, own, home);
      } else {
        ScanBadRendered(st, PRIVATE_BEGIN, PRIVATE_NOTE, PRIVATE_END, lines, claims, own, home);
      }
    }
  }

  /** A last line's break changes nothing about how it is read. */
  lemma CompletedQuiet(lines: seq<string>, claims: Claims, own: set<string>, home: string)
    requires LineList(lines) && AllQuiet(lines, claims, own, home)
    ensures AllQuiet(Completed(lines), claims, own, home)
  {
    CompletedShape(lines);
    forall l | l in Completed(lines) && l !in lines ensures Quiet(l, claims, own, home) {
      var k :| k in lines && l == k + "\n";
      QuietBreak(k, claims, own, home);
    }
  }

  lemma PaddedQuiet(lines: seq<string>, claims: Claims, own: set<string>, home: string)
    requires LineList(lines) && AllQuiet(lines, claims, own, home) && ClaimsParse(claims) && "" !in own
    ensures AllQuiet(Lines(Pad(Join(lines))), claims, own, home)
  {
    PadShape(lines);
    CompletedQuiet(lines, claims, own, home);
    QuietBlank(claims, own, home);
  }

  lemma LastBreak(s: string)
    requires s == "" || EndsWith(s, "\n\n")
    ensures s == "" || EndsWith(s, "\n")
  {
    if s != "" {
      assert s[|s| - 1..] == s[|s| - 2..][1..];
    }
  }

  lemma PrefixQuiet(current: string, jobs: seq<Job>, home: string, private: string)
    requires home != "" && OneLine(home) && Prefix(current, jobs, home, private).Ok?
    ensures var prefix := Prefix(current, jobs, home, private).value;
            && AllQuiet(Lines(prefix), Contract(jobs, home).value, Elements(PrivateLines(private, home).value), home)
            && AllLines(Lines(prefix)) && Pad(prefix) == prefix && (prefix == "" || EndsWith(prefix, "\n"))
  {
    var claims, own := Contract(jobs, home).value, Elements(PrivateLines(private, home).value);
    var retained := ScanItems(START, ReadAll(Lines(current), claims, own, home)).value.retained;
    LinesShape(current);
    RetainedQuiet(START, Lines(current), claims, own, home);
    PrivateLinesShape(private, home);
    ContractClaims(Claims(map[], map[], map[]), jobs, home);
    PaddedQuiet(retained, claims, own, home);
    PadShape(retained);
    LastBreak(Pad(Join(retained)));
  }

  /** Reconciling the output of a reconciliation returns that output, exactly when no private line is
      a marker; otherwise it raises. */
  lemma ReconcileIsIdempotentIff(current: string, jobs: seq<Job>, home: string, private: string)
    requires Loaded(jobs) && home != "" && OneLine(home)
    requires Reconcile(current, jobs, home, private).Ok?
    ensures var out := Reconcile(current, jobs, home, private).value;
            Reconcile(out, jobs, home, private) ==
            if NoMarkers(PrivateLines(private, home).value) then Ok(out) else Raise
  {
    var prefix, managed := Prefix(current, jobs, home, private).value, ManagedBlock(jobs, home).value;
    var claims, own := Contract(jobs, home).value, Elements(PrivateLines(private, home).value);
    var block := PrivateBlock(private, home).value;
    PrefixQuiet(current, jobs, home, private);
    ScanQuiet(START, Lines(prefix), claims, own, home);
    assert [] + Lines(prefix) == Lines(prefix);
    var mid := Scan(None, {}, Lines(prefix));
    ScanManagedBlock(mid, jobs, home, claims, own);
    ScanConcat(START, prefix, managed, claims, own, home);
    EndsIn(prefix, managed);
    ScanConcat(START, prefix + managed, block, claims, own, home);
    ScanPrivateBlock(mid.(found := {} + {Managed}), private, home, claims, own);
    LinesJoin(prefix);
  }
}
