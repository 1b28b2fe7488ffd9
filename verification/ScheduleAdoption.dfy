/** Adopting hand-added lines: nothing is lost, and adopting again changes nothing, exactly when no
    such line holds a brace pair or the text of the managed begin marker. */
module ScheduleAdoption {
  import opened Wrappers
  import opened Text
  import opened HomePlaceholder
  import opened Schedules
  import opened ScheduleLines
  import opened ScheduleIdempotence
  import opened SchedulePublic

  /** s.split(p, 1)[0] */
  function Before(s: string, p: string): (r: string)
    ensures r <= s
  {
    if StartsWith(s, p) || s == "" then "" else [s[0]] + Before(s[1..], p)
  }

  /** The loop of adopt_unmanaged. */
  function AddNew(lines: seq<string>, raws: seq<string>, home: string): seq<string>
    decreases |raws|
  {
    if raws == [] then lines
    else
      var line := Normalize(raws[0], home);
      AddNew(if Blank(raws[0]) || line in lines then lines else lines + [line], raws[1..], home)
  }

  /** adopt_unmanaged */
  function Adopt(current: string, private: string, jobs: seq<Job>, home: string): Result<string> {
    var out :- Reconcile(current, jobs, home, private);
    Ok(Terminate(AddNew(NonBlank(SplitLines(private)), SplitLines(Before(out, BEGIN)), home)))
  }

  /** The hand-added lines of a crontab. */
  function HandAdded(prefix: string): seq<string> {
    NonBlank(SplitLines(prefix))
  }

  /** What a line must not hold to survive the trip through the private text. */
  predicate Adoptable(raw: string) {
    !Contains(raw, "{{") && !Contains(raw, "}}") && !Contains(raw, BEGIN)
  }

  // ----- a needle on one line

  lemma {:induction false} ContainsInText(lines: seq<string>, p: string, l: string)
    requires l in Bodies(lines) && Contains(l, p)
    ensures Contains(Join(lines), p)
  {
    if l == Body(lines[0]) {
      ContainsPrefix(l, lines[0], p);
      assert lines[0] <= Join(lines);
      ContainsPrefix(lines[0], Join(lines), p);
    } else {
      ContainsInText(lines[1..], p, l);
      ContainsSuffix(lines[0], Join(lines[1..]), p);
    }
  }

  lemma ContainsPrefix(a: string, b: string, p: string)
    requires a <= b && Contains(a, p)
    ensures Contains(b, p)
  {
    var i := ContainsWhere(a, p);
    assert b[i..][..|p|] == a[i..][..|p|];
    ContainsAt(b, p, i);
  }

  lemma {:induction false} ContainsSuffix(a: string, b: string, p: string)
    requires Contains(b, p)
    ensures Contains(a + b, p)
  {
    if a == "" {
      assert a + b == b;
    } else {
      ContainsSuffix(a[1..], b, p);
      assert (a + b)[1..] == a[1..] + b;
    }
  }

  lemma NoSpan(line: string, rest: string, p: string, i: nat)
    requires IsLine(line) && Unbroken(p) && p != "" && i <= |line + rest| && StartsWith((line + rest)[i..], p)
    ensures i + |p| <= |line| - 1 || i >= |line|
  {
    var t := line + rest;
    assert t[|line| - 1] == line[|line| - 1] == line[|line| - 1..][0] == '\n';
    assert forall k :: 0 <= k < |p| ==> p[k] in p;
    assert t[i..][..|p|] == p;
    assert forall j :: i <= j < i + |p| ==> t[j] == t[i..][..|p|][j - i];
    assert forall j :: i <= j < i + |p| ==> t[j] != '\n';
  }

  /** A needle without a line break lies within one line. */
  lemma {:induction false} ContainsInLine(lines: seq<string>, p: string) returns (l: string)
    requires LineList(lines) && p != "" && Unbroken(p) && Contains(Join(lines), p)
    ensures l in Bodies(lines) && Contains(l, p)
  {
    assert lines != [];
    var body, rest := Body(lines[0]), Join(lines[1..]);
    var i := ContainsWhere(Join(lines), p);
    assert Join(lines) == lines[0] + rest;
    assert |lines| == 1 ==> rest == "";
    if IsLine(lines[0]) {
      NoSpan(lines[0], rest, p, i);
    }
    if i < |lines[0]| {
      assert body[i..][..|p|] == Join(lines)[i..][..|p|];
      ContainsAt(body, p, i);
      l := body;
    } else {
      assert rest[i - |lines[0]|..] == Join(lines)[i..];
      ContainsAt(rest, p, i - |lines[0]|);
      l := ContainsInLine(lines[1..], p);
    }
  }

  lemma TextLacks(text: string, p: string)
    requires p != "" && Unbroken(p)
    ensures Contains(text, p) <==> exists l :: l in SplitLines(text) && Contains(l, p)
  {
    LinesJoin(text);
    LinesShape(text);
    if Contains(text, p) {
      var l := ContainsInLine(Lines(text), p);
    }
    if exists l :: l in SplitLines(text) && Contains(l, p) {
      var l :| l in SplitLines(text) && Contains(l, p);
      ContainsInText(Lines(text), p, l);
    }
  }

  // ----- the part of the output before the managed block

  lemma StartsPrefix(r: string, s: string, p: string)
    requires r <= s
    ensures StartsWith(r, p) ==> StartsWith(s, p)
  {
    if StartsWith(r, p) {
      assert s[..|p|] == r[..|p|];
    }
  }

  /** A needle at the head of a text cannot run past its last line break. */
  lemma StartStays(s: string, rest: string, p: string)
    requires s != "" && EndsWith(s, "\n") && Unbroken(p)
    ensures StartsWith(s + rest, p) ==> StartsWith(s, p)
  {
    var t := s + rest;
    if StartsWith(t, p) {
      assert forall k :: 0 <= k < |p| ==> p[k] in p;
      assert forall j :: 0 <= j < |p| ==> t[j] == t[..|p|][j] == p[j];
      assert forall j :: 0 <= j < |p| ==> t[j] != '\n';
      assert t[|s| - 1] == s[|s| - 1] == s[|s| - 1..][0] == '\n';
      assert s[..|p|] == t[..|p|];
    }
  }

  lemma {:induction false} BeforeLacks(s: string, p: string)
    requires p != ""
    ensures !Contains(Before(s, p), p)
  {
    if !StartsWith(s, p) && s != "" {
      BeforeLacks(s[1..], p);
      var r := Before(s, p);
      assert r[1..] == Before(s[1..], p);
      StartsPrefix(r, s, p);
    }
  }

  lemma {:induction false} BeforeStops(s: string, p: string, rest: string)
    requires p != "" && StartsWith(rest, p)
    ensures Before(s + rest, p) <= s
  {
    if s == "" {
      assert s + rest == rest;
    } else {
      assert (s + rest)[0] == s[0] && (s + rest)[1..] == s[1..] + rest;
      BeforeStops(s[1..], p, rest);
    }
  }

  /** Without the needle, and ended by a line break, the whole prefix is kept. */
  lemma {:induction false} BeforeWhole(s: string, p: string, rest: string)
    requires p != "" && Unbroken(p) && StartsWith(rest, p)
    requires !Contains(s, p) && (s == "" || EndsWith(s, "\n"))
    ensures Before(s + rest, p) == s
  {
    if s == "" {
      assert s + rest == rest;
    } else {
      var t := s + rest;
      assert t[0] == s[0] && t[1..] == s[1..] + rest;
      assert s[1..] == "" || s[1..][|s| - 2..] == s[|s| - 1..];
      StartStays(s, rest, p);
      BeforeWhole(s[1..], p, rest);
      assert s == [s[0]] + s[1..];
    }
  }

  // ----- the adopted text

  ghost predicate NonBlankIn(raws: seq<string>, raw: string) {
    raw in raws && !Blank(raw)
  }

  lemma {:induction false} AddNewShape(lines: seq<string>, raws: seq<string>, home: string)
    ensures lines <= AddNew(lines, raws, home)
    ensures forall l :: l in AddNew(lines, raws, home) ==>
              l in lines || exists raw :: NonBlankIn(raws, raw) && l == Normalize(raw, home)
    ensures forall raw :: NonBlankIn(raws, raw) ==> Normalize(raw, home) in AddNew(lines, raws, home)
    decreases |raws|
  {
    if raws != [] {
      var line := Normalize(raws[0], home);
      var next := if Blank(raws[0]) || line in lines then lines else lines + [line];
      var r := AddNew(next, raws[1..], home);
      AddNewShape(next, raws[1..], home);
      forall l | l in r ensures l in lines || exists raw :: NonBlankIn(raws, raw) && l == Normalize(raw, home) {
        if l in next && l !in lines {
          assert NonBlankIn(raws, raws[0]) && l == Normalize(raws[0], home);
        } else if l !in next {
          var raw :| NonBlankIn(raws[1..], raw) && l == Normalize(raw, home);
          assert NonBlankIn(raws, raw);
        }
      }
      forall raw | NonBlankIn(raws, raw) ensures Normalize(raw, home) in r {
        if raw != raws[0] {
          assert NonBlankIn(raws[1..], raw);
        } else {
          assert line in next && next <= r;
        }
      }
    }
  }

  lemma {:induction false} NonBlankAll(lines: seq<string>)
    requires forall l :: l in lines ==> !Blank(l)
    ensures NonBlank(lines) == lines
  {
    if lines != [] {
      NonBlankAll(lines[1..]);
      assert lines == [lines[0]] + lines[1..];
    }
  }

  lemma SplitUnbroken(text: string)
    ensures forall l :: l in SplitLines(text) ==> Unbroken(l)
  {
    LinesShape(text);
    BodiesUnbroken(Lines(text));
  }

  lemma NormalizedLine(raw: string, home: string)
    requires OneLine(home) && Unbroken(raw) && !Blank(raw)
    ensures Unbroken(Normalize(raw, home)) && !Blank(Normalize(raw, home))
  {
    assert Unbroken(PLACEHOLDER + "/");
    ReplaceUnbroken(raw, home + "/", PLACEHOLDER + "/");
    if Blank(Normalize(raw, home)) {
      NormalizeBlank(raw, home);
    }
  }

  /** The adopted text reads back as its list of lines. */
  lemma AdoptedLines(private: string, raws: seq<string>, home: string)
    requires OneLine(home) && forall l :: l in raws ==> Unbroken(l)
    ensures var lines := AddNew(NonBlank(SplitLines(private)), raws, home);
            NonBlank(SplitLines(Terminate(lines))) == lines
  {
    var existing := NonBlank(SplitLines(private));
    var lines := AddNew(existing, raws, home);
    SplitUnbroken(private);
    NonBlankMembers(SplitLines(private));
    AddNewShape(existing, raws, home);
    forall l | l in lines ensures Unbroken(l) && !Blank(l) {
      if l !in existing {
        var raw :| NonBlankIn(raws, raw) && l == Normalize(raw, home);
        NormalizedLine(raw, home);
      }
    }
    LinesOfTerminate(lines);
    NonBlankAll(lines);
  }

  lemma {:induction false} SubstituteAppend(a: seq<string>, b: seq<string>, home: string)
    ensures SubstituteAll(a + b, home) ==
            if SubstituteAll(a, home).Ok? && SubstituteAll(b, home).Ok?
            then Ok(SubstituteAll(a, home).value + SubstituteAll(b, home).value) else Raise
  {
    if a == [] {
      assert a + b == b;
      assert SubstituteAll(b, home).Ok? ==> [] + SubstituteAll(b, home).value == SubstituteAll(b, home).value;
    } else {
      assert (a + b)[0] == a[0] && (a + b)[1..] == a[1..] + b;
      SubstituteAppend(a[1..], b, home);
      assert forall x: string, p: seq<string>, q: seq<string> :: [x] + (p + q) == [x] + p + q;
    }
  }

  // ----- what a larger private text claims

  function Unclaimed(lines: seq<string>, own: set<string>): seq<string> {
    if lines == [] then [] else (if Bare(lines[0]) in own then [] else [lines[0]]) + Unclaimed(lines[1..], own)
  }

  lemma {:induction false} UnclaimedAppend(a: seq<string>, b: seq<string>, own: set<string>)
    ensures Unclaimed(a + b, own) == Unclaimed(a, own) + Unclaimed(b, own)
  {
    if a == [] {
      assert a + b == b;
    } else {
      assert (a + b)[0] == a[0] && (a + b)[1..] == a[1..] + b;
      UnclaimedAppend(a[1..], b, own);
    }
  }

  lemma {:induction false} UnclaimedMembers(lines: seq<string>, own: set<string>)
    ensures forall l :: l in Unclaimed(lines, own) <==> l in lines && Bare(l) !in own
  {
    if lines != [] {
      UnclaimedMembers(lines[1..], own);
    }
  }

  lemma StepMoreClaims(st: Scan, line: string, claims: Claims, own: set<string>, more: set<string>, home: string)
    requires own <= more && Step(st, Read(line, claims, own, home)).Ok?
    ensures var next := Step(st, Read(line, claims, own, home)).value;
            Step(st.(retained := Unclaimed(st.retained, more)), Read(line, claims, more, home))
            == Ok(next.(retained := Unclaimed(next.retained, more)))
  {
    UnclaimedAppend(st.retained, [line], more);
    assert [line][1..] == [] && [line] + [] == [line];
    assert Unclaimed([line], more) == if Bare(line) in more then [] else [line];
    assert Unclaimed(st.retained, more) + [] == Unclaimed(st.retained, more);
  }

  /** Claiming more lines drops exactly those from what is retained. */
  lemma {:induction false} ScanMoreClaims(st: Scan, lines: seq<string>, claims: Claims, own: set<string>,
                                          more: set<string>, home: string)
    requires own <= more
    requires ScanItems(st, ReadAll(lines, claims, own, home)).Ok?
    ensures var r := ScanItems(st, ReadAll(lines, claims, own, home)).value;
            ScanItems(st.(retained := Unclaimed(st.retained, more)), ReadAll(lines, claims, more, home))
            == Ok(r.(retained := Unclaimed(r.retained, more)))
    decreases |lines|
  {
    if lines != [] {
      var item := Read(lines[0], claims, own, home);
      var next := Step(st, item).value;
      StepMoreClaims(st, lines[0], claims, own, more, home);
      ScanMoreClaims(next, lines[1..], claims, own, more, home);
    }
  }

  // ----- retained lines and hand-added lines

  /** The lines the scan retained. */
  function Retained(current: string, jobs: seq<Job>, home: string, private: string): seq<string>
    requires Prefix(current, jobs, home, private).Ok?
  {
    ScanItems(START, ReadAll(Lines(current), Contract(jobs, home).value,
                             Elements(PrivateLines(private, home).value), home)).value.retained
  }

  lemma {:induction false} BodiesMembers(lines: seq<string>)
    ensures forall l :: l in lines ==> Body(l) in Bodies(lines)
    ensures forall b :: b in Bodies(lines) ==> exists l :: l in lines && Body(l) == b
  {
    if lines != [] {
      BodiesMembers(lines[1..]);
      forall b | b in Bodies(lines) ensures exists l :: l in lines && Body(l) == b {
        if b == Body(lines[0]) {
          assert lines[0] in lines;
        } else {
          var l :| l in lines[1..] && Body(l) == b;
          assert l in lines;
        }
      }
    }
  }

  lemma BareIsBody(l: string)
    requires (IsLine(l) || Unbroken(l)) && '\r' !in l
    ensures Bare(l) == Body(l)
  {
    if EndsWith(l, "\n") {
      var b := l[..|l| - 1];
      assert l[|l| - 1] == l[|l| - 1..][0] == '\n';
      assert b != "" ==> b[|b| - 1] in b && b[|b| - 1] in l;
    } else if l != "" {
      assert l[|l| - 1] in l;
      assert l[|l| - 1..] == [l[|l| - 1]];
    }
  }

  lemma UnbrokenBody(l: string)
    ensures Unbroken(l) ==> Body(l) == l
  {
    assert l != "" ==> l[|l| - 1] in l && l[|l| - 1..] == [l[|l| - 1]];
  }

  lemma {:induction false} RetainedMembers(st: Scan, items: seq<Item>)
    requires ScanItems(st, items).Ok?
    ensures forall l :: l in ScanItems(st, items).value.retained ==> l in st.retained || exists i :: i in items && i.line == l
    decreases |items|
  {
    if items != [] {
      var next := Step(st, items[0]).value;
      RetainedMembers(next, items[1..]);
      forall l | l in ScanItems(st, items).value.retained && l !in st.retained ensures exists i :: i in items && i.line == l {
        if l in next.retained {
          assert items[0] in items && items[0].line == l;
        } else {
          var i :| i in items[1..] && i.line == l;
          assert i in items;
        }
      }
    }
  }

  lemma {:induction false} LinesLack(lines: seq<string>, c: char)
    requires c !in Join(lines)
    ensures forall l :: l in lines ==> c !in l
  {
    if lines != [] {
      assert forall k :: k in lines[0] ==> k in Join(lines);
      assert forall k :: k in Join(lines[1..]) ==> k in Join(lines);
      LinesLack(lines[1..], c);
    }
  }

  lemma RetainedNoReturn(current: string, jobs: seq<Job>, home: string, private: string)
    requires Prefix(current, jobs, home, private).Ok? && '\r' !in current
    ensures forall l :: l in Retained(current, jobs, home, private) ==> '\r' !in l
  {
    var claims, own := Contract(jobs, home).value, Elements(PrivateLines(private, home).value);
    var items := ReadAll(Lines(current), claims, own, home);
    LinesJoin(current);
    LinesLack(Lines(current), '\r');
    RetainedMembers(START, items);
    ReadAllAt(Lines(current), claims, own, home);
    forall l | l in Retained(current, jobs, home, private) ensures '\r' !in l {
      var i :| i in items && i.line == l;
      var k :| 0 <= k < |items| && items[k] == i;
      assert Lines(current)[k] in Lines(current);
    }
  }

  ghost predicate IsBareOf(lines: seq<string>, raw: string) {
    exists l :: l in lines && Bare(l) == raw
  }

  /** A complete line and the line without its break have the same body. */
  lemma BodyOfBreak(l: string)
    ensures Unbroken(l) ==> Body(l + "\n") == l == Body(l)
  {
    UnbrokenBody(l);
    assert (l + "\n")[..|l|] == l && (l + "\n")[|l|..] == "\n";
  }

  lemma CompletedHas(lines: seq<string>, l: string)
    requires LineList(lines) && l in lines
    ensures IsLine(l) || Unbroken(l)
    ensures l in Completed(lines) || (Unbroken(l) && l + "\n" in Completed(lines))
  {
    LineListInit(lines);
    var n := |lines| - 1;
    assert lines == lines[..n] + [lines[n]];
  }

  lemma CompletedFrom(lines: seq<string>, k: string)
    requires LineList(lines) && k in Completed(lines)
    ensures k in lines || exists l :: l in lines && Unbroken(l) && k == l + "\n"
  {
    LineListInit(lines);
    var n := |lines| - 1;
    assert lines == lines[..n] + [lines[n]];
    if k !in lines {
      assert lines[n] in lines && Unbroken(lines[n]) && k == lines[n] + "\n";
    }
  }

  lemma CompletedBodies(lines: seq<string>)
    requires LineList(lines) && forall l :: l in lines ==> '\r' !in l
    ensures forall raw :: raw in Bodies(Completed(lines)) <==> IsBareOf(lines, raw)
  {
    var c := Completed(lines);
    BodiesMembers(c);
    forall l | l in lines ensures Bare(l) in Bodies(c) {
      CompletedHas(lines, l);
      BareIsBody(l);
      BodyOfBreak(l);
    }
    forall raw | raw in Bodies(c) ensures IsBareOf(lines, raw) {
      var k :| k in c && Body(k) == raw;
      CompletedFrom(lines, k);
      if k in lines {
        CompletedHas(lines, k);
        BareIsBody(k);
      } else {
        var l :| l in lines && Unbroken(l) && k == l + "\n";
        BareIsBody(l);
        BodyOfBreak(l);
      }
    }
  }

  lemma BlankBody()
    ensures Bodies(["\n"]) == [""] && Blank("")
  {
    assert ["\n"][1..] == [] && "\n"[..0] == "";
  }

  lemma PrefixBodies(retained: seq<string>)
    requires LineList(retained) && forall l :: l in retained ==> '\r' !in l
    ensures forall raw :: NonBlankIn(SplitLines(Pad(Join(retained))), raw) <==> !Blank(raw) && IsBareOf(retained, raw)
  {
    PadShape(retained);
    CompletedBodies(retained);
    BodiesAppend(Completed(retained), ["\n"]);
    BlankBody();
  }

  lemma RetainedIsQuiet(current: string, jobs: seq<Job>, home: string, private: string)
    requires Prefix(current, jobs, home, private).Ok?
    ensures var retained := Retained(current, jobs, home, private);
            LineList(retained) && AllQuiet(retained, Contract(jobs, home).value, Elements(PrivateLines(private, home).value), home)
  {
    LinesShape(current);
    RetainedQuiet(START, Lines(current), Contract(jobs, home).value, Elements(PrivateLines(private, home).value), home);
  }

  /** The hand-added lines are the visible retained lines, and none of them is claimed or a marker. */
  lemma HandAddedIsRetained(current: string, jobs: seq<Job>, home: string, private: string)
    requires '\r' !in current && Prefix(current, jobs, home, private).Ok?
    ensures var prefix := Prefix(current, jobs, home, private).value;
            forall raw :: NonBlankIn(SplitLines(prefix), raw) <==>
              !Blank(raw) && IsBareOf(Retained(current, jobs, home, private), raw)
    ensures forall l :: l in Retained(current, jobs, home, private) ==>
              Bare(l) !in PrivateLines(private, home).value && MarkOf(Strip(Bare(l))).NoMark?
  {
    RetainedIsFree(current, jobs, home, private);
    RetainedNoReturn(current, jobs, home, private);
    PrefixBodies(Retained(current, jobs, home, private));
  }

  lemma RetainedIsFree(current: string, jobs: seq<Job>, home: string, private: string)
    requires Prefix(current, jobs, home, private).Ok?
    ensures LineList(Retained(current, jobs, home, private))
    ensures forall l :: l in Retained(current, jobs, home, private) ==>
              Bare(l) !in PrivateLines(private, home).value && MarkOf(Strip(Bare(l))).NoMark?
  {
    var claims, own := Contract(jobs, home).value, Elements(PrivateLines(private, home).value);
    RetainedIsQuiet(current, jobs, home, private);
    forall l | l in Retained(current, jobs, home, private)
      ensures Bare(l) !in PrivateLines(private, home).value && MarkOf(Strip(Bare(l))).NoMark?
    {
      assert Quiet(l, claims, own, home);
    }
  }

  // ----- adopted lines under substitution

  ghost predicate BraceFree(s: string) {
    !Contains(s, "{{") && !Contains(s, "}}")
  }

  /** Substituting the adopted lines: the existing private lines first, then added lines as they were. */
  lemma {:induction false} SubstituteAdopted(lines: seq<string>, raws: seq<string>, home: string)
    requires SubstituteAll(lines, home).Ok?
    requires forall raw :: NonBlankIn(raws, raw) ==> BraceFree(raw)
    ensures var r := SubstituteAll(AddNew(lines, raws, home), home);
            && r.Ok? && SubstituteAll(lines, home).value <= r.value
            && (forall o :: o in r.value ==> o in SubstituteAll(lines, home).value || NonBlankIn(raws, o))
            && (forall raw :: NonBlankIn(raws, raw) ==> raw in r.value)
    decreases |raws|
  {
    if raws != [] {
      var raw := raws[0];
      var line := Normalize(raw, home);
      var next := if Blank(raw) || line in lines then lines else lines + [line];
      if !Blank(raw) {
        assert NonBlankIn(raws, raw);
        AdoptedLineRenders(raw, home);
        SubstituteAppend(lines, [line], home);
        assert [line][1..] == [] && SubstituteAll([line], home).value == [raw];
        SubstituteMember(lines, line, home);
      }
      assert forall x :: NonBlankIn(raws[1..], x) ==> NonBlankIn(raws, x);
      assert SubstituteAll(next, home).Ok? && SubstituteAll(lines, home).value <= SubstituteAll(next, home).value;
      assert !Blank(raw) ==> raw in SubstituteAll(next, home).value;
      SubstituteAdopted(next, raws[1..], home);
      forall x | NonBlankIn(raws, x) ensures x in SubstituteAll(AddNew(lines, raws, home), home).value {
        assert x == raw || NonBlankIn(raws[1..], x);
      }
    }
  }

  lemma {:induction false} SubstituteMember(lines: seq<string>, line: string, home: string)
    requires SubstituteAll(lines, home).Ok?
    ensures line in lines && SubstituteHome(line, home).Ok? ==>
              SubstituteHome(line, home).value in SubstituteAll(lines, home).value
  {
    SubstitutedLines(lines, home);
    if line in lines {
      var i :| 0 <= i < |lines| && lines[i] == line;
      assert SubstituteAll(lines, home).value[i] in SubstituteAll(lines, home).value;
    }
  }

  // ----- adoption

  /** The text reconcile_text would keep if the adopted private text were in place is blank. */
  ghost predicate Complete(current: string, jobs: seq<Job>, home: string, adopted: string) {
    var r := Prefix(current, jobs, home, adopted);
    r.Ok? && HandAdded(r.value) == []
  }

  lemma {:induction false} NonBlankEmpty(lines: seq<string>)
    ensures NonBlank(lines) == [] <==> forall l :: l in lines ==> Blank(l)
  {
    NonBlankMembers(lines);
    if NonBlank(lines) != [] {
      assert NonBlank(lines)[0] in NonBlank(lines);
    }
  }

  /** With a larger private text, what is retained is what the larger text does not claim. */
  lemma RetainedAfterAdoption(current: string, jobs: seq<Job>, home: string, private: string, adopted: string)
    requires Prefix(current, jobs, home, private).Ok? && PrivateLines(adopted, home).Ok?
    requires PrivateLines(private, home).value <= PrivateLines(adopted, home).value
    ensures Prefix(current, jobs, home, adopted).Ok?
    ensures Retained(current, jobs, home, adopted) ==
            Unclaimed(Retained(current, jobs, home, private), Elements(PrivateLines(adopted, home).value))
  {
    var a, b := PrivateLines(private, home).value, PrivateLines(adopted, home).value;
    assert forall l :: l in a ==> l in b;
    ScanMoreClaims(START, Lines(current), Contract(jobs, home).value, Elements(a), Elements(b), home);
  }

  /** Complete means: every visible retained line is claimed by the adopted text. */
  lemma CompleteIff(current: string, jobs: seq<Job>, home: string, private: string, adopted: string)
    requires '\r' !in current && Prefix(current, jobs, home, private).Ok? && PrivateLines(adopted, home).Ok?
    requires PrivateLines(private, home).value <= PrivateLines(adopted, home).value
    ensures Complete(current, jobs, home, adopted) <==>
            forall raw :: NonBlankIn(SplitLines(Prefix(current, jobs, home, private).value), raw) ==>
              raw in PrivateLines(adopted, home).value
  {
    var own := PrivateLines(adopted, home).value;
    RetainedAfterAdoption(current, jobs, home, private, adopted);
    HandAddedIsRetained(current, jobs, home, private);
    HandAddedIsRetained(current, jobs, home, adopted);
    UnclaimedMembers(Retained(current, jobs, home, private), Elements(own));
    var before, after := Prefix(current, jobs, home, private).value, Prefix(current, jobs, home, adopted).value;
    NonBlankEmpty(SplitLines(after));
    forall raw ensures NonBlankIn(SplitLines(after), raw) <==> NonBlankIn(SplitLines(before), raw) && raw !in own {
      if NonBlankIn(SplitLines(before), raw) && raw !in own {
        var l :| l in Retained(current, jobs, home, private) && Bare(l) == raw;
        assert IsBareOf(Retained(current, jobs, home, adopted), raw);
      }
      if NonBlankIn(SplitLines(after), raw) {
        var l :| l in Retained(current, jobs, home, adopted) && Bare(l) == raw;
        assert IsBareOf(Retained(current, jobs, home, private), raw);
      }
    }
  }

  lemma ContainsVisible(l: string, p: string)
    requires p != "" && !IsSpace(p[0]) && Contains(l, p)
    ensures !Blank(l)
  {
    var i := ContainsWhere(l, p);
    assert l[i] == l[i..][..|p|][0];
    BlankIff(l);
  }

  /** A text contains a visible needle when one of its visible lines does. */
  lemma TextLacksVisible(text: string, p: string)
    requires p != "" && Unbroken(p) && !IsSpace(p[0])
    ensures Contains(text, p) <==> exists l :: NonBlankIn(SplitLines(text), l) && Contains(l, p)
  {
    TextLacks(text, p);
    if Contains(text, p) {
      var l :| l in SplitLines(text) && Contains(l, p);
      ContainsVisible(l, p);
      assert NonBlankIn(SplitLines(text), l);
    }
  }

  /** The text and lines adopt_unmanaged works on. */
  function Seen(current: string, private: string, jobs: seq<Job>, home: string): seq<string>
    requires Reconcile(current, jobs, home, private).Ok?
  {
    SplitLines(Before(Reconcile(current, jobs, home, private).value, BEGIN))
  }

  /** The output is the prefix and the blocks, which start with the begin marker. */
  lemma OutputStarts(current: string, jobs: seq<Job>, home: string, private: string) returns (rest: string)
    requires Reconcile(current, jobs, home, private).Ok?
    ensures Reconcile(current, jobs, home, private).value == Prefix(current, jobs, home, private).value + rest
    ensures StartsWith(rest, BEGIN)
  {
    var managed, block := ManagedBlock(jobs, home).value, PrivateBlock(private, home).value;
    rest := managed + block;
    Associates(Prefix(current, jobs, home, private).value, managed, block);
    ManagedStarts(JobBlocks(jobs, home).value, block);
  }

  lemma ManagedStarts(body: seq<string>, tail: string)
    ensures StartsWith(Terminate(ManagedLines(body)) + tail, BEGIN)
  {
    HeadOfTerminate(ManagedLines(body), tail);
  }

  lemma HeadOfTerminate(lines: seq<string>, tail: string)
    requires lines != []
    ensures StartsWith(Terminate(lines) + tail, lines[0])
  {
    assert Terminate(lines) + tail == lines[0] + ("\n" + Terminate(lines[1..]) + tail);
  }

  /** The adopted text as a list: it keeps the existing lines and reads back unchanged. */
  lemma AdoptedReads(current: string, private: string, jobs: seq<Job>, home: string)
    requires OneLine(home) && Reconcile(current, jobs, home, private).Ok?
    ensures var adopted := Adopt(current, private, jobs, home).value;
            var lines := AddNew(NonBlank(SplitLines(private)), Seen(current, private, jobs, home), home);
            NonBlank(SplitLines(adopted)) == lines && PrivateLines(adopted, home) == SubstituteAll(lines, home)
  {
    SplitUnbroken(Before(Reconcile(current, jobs, home, private).value, BEGIN));
    AdoptedLines(private, Seen(current, private, jobs, home), home);
  }

  /** When every hand-added line is adoptable, the adopted private text claims them all. */
  lemma AdoptableIsComplete(current: string, private: string, jobs: seq<Job>, home: string)
    requires home != "" && OneLine(home) && '\r' !in current
    requires Reconcile(current, jobs, home, private).Ok?
    requires forall raw :: NonBlankIn(SplitLines(Prefix(current, jobs, home, private).value), raw) ==> Adoptable(raw)
    ensures Seen(current, private, jobs, home) == SplitLines(Prefix(current, jobs, home, private).value)
    ensures var adopted := Adopt(current, private, jobs, home).value;
            && PrivateLines(adopted, home).Ok?
            && PrivateLines(private, home).value <= PrivateLines(adopted, home).value
            && Complete(current, jobs, home, adopted)
  {
    var prefix := Prefix(current, jobs, home, private).value;
    var rest := OutputStarts(current, jobs, home, private);
    PrefixQuiet(current, jobs, home, private);
    ManagedShape();
    TextLacksVisible(prefix, BEGIN);
    BeforeWhole(prefix, BEGIN, rest);
    AdoptedReads(current, private, jobs, home);
    SubstituteAdopted(NonBlank(SplitLines(private)), SplitLines(prefix), home);
    CompleteIff(current, jobs, home, private, Adopt(current, private, jobs, home).value);
  }

  lemma SubstitutePrefix(a: seq<string>, b: seq<string>, home: string)
    requires a <= b && SubstituteAll(b, home).Ok?
    ensures SubstituteAll(a, home).Ok? && SubstituteAll(a, home).value <= SubstituteAll(b, home).value
  {
    assert b == a + b[|a|..];
    SubstituteAppend(a, b[|a|..], home);
  }

  lemma SubstitutedBraceFree(lines: seq<string>, home: string)
    requires SubstituteAll(lines, home).Ok?
    ensures forall o :: o in SubstituteAll(lines, home).value ==> BraceFree(o)
  {
    SubstitutedLines(lines, home);
  }

  /** Lines of a head of a text without brace pairs have none either. */
  lemma HeadBraceFree(head: string, text: string)
    requires head <= text && forall raw :: NonBlankIn(SplitLines(text), raw) ==> BraceFree(raw)
    ensures forall raw :: NonBlankIn(SplitLines(head), raw) ==> BraceFree(raw)
  {
    assert Unbroken("{{") && Unbroken("}}");
    TextLacksVisible(text, "{{");
    TextLacksVisible(text, "}}");
    TextLacksVisible(head, "{{");
    TextLacksVisible(head, "}}");
    if Contains(head, "{{") { ContainsPrefix(head, text, "{{"); }
    if Contains(head, "}}") { ContainsPrefix(head, text, "}}"); }
  }

  /** If the adopted text claims every hand-added line, each of them is adoptable. */
  lemma CompleteIsAdoptable(current: string, private: string, jobs: seq<Job>, home: string, raw: string)
    requires home != "" && OneLine(home) && '\r' !in current
    requires Reconcile(current, jobs, home, private).Ok?
    requires Complete(current, jobs, home, Adopt(current, private, jobs, home).value)
    requires NonBlankIn(SplitLines(Prefix(current, jobs, home, private).value), raw)
    ensures Adoptable(raw)
  {
    var prefix, adopted := Prefix(current, jobs, home, private).value, Adopt(current, private, jobs, home).value;
    var out := Reconcile(current, jobs, home, private).value;
    var existing, head := NonBlank(SplitLines(private)), Before(out, BEGIN);
    var lines := AddNew(existing, SplitLines(head), home);
    ManagedShape();
    AdoptedReads(current, private, jobs, home);
    AddNewShape(existing, SplitLines(head), home);
    SubstitutePrefix(existing, lines, home);
    SubstitutedBraceFree(lines, home);
    CompleteIff(current, jobs, home, private, adopted);
    var rest := OutputStarts(current, jobs, home, private);
    BeforeStops(prefix, BEGIN, rest);
    BeforeLacks(out, BEGIN);
    HeadBraceFree(head, prefix);
    SubstituteAdopted(existing, SplitLines(head), home);
    HandAddedIsRetained(current, jobs, home, private);
    TextLacks(head, BEGIN);
    assert raw in SplitLines(head);
  }

  /** Adoption loses nothing exactly when no hand-added line holds a brace pair or the begin marker's text. */
  lemma AdoptionCompleteIff(current: string, private: string, jobs: seq<Job>, home: string)
    requires home != "" && OneLine(home) && '\r' !in current
    requires Reconcile(current, jobs, home, private).Ok?
    ensures Complete(current, jobs, home, Adopt(current, private, jobs, home).value) <==>
            forall raw :: raw in HandAdded(Prefix(current, jobs, home, private).value) ==> Adoptable(raw)
  {
    var prefix := Prefix(current, jobs, home, private).value;
    NonBlankMembers(SplitLines(prefix));
    assert forall raw :: raw in HandAdded(prefix) <==> NonBlankIn(SplitLines(prefix), raw);
    if forall raw :: raw in HandAdded(prefix) ==> Adoptable(raw) {
      AdoptableIsComplete(current, private, jobs, home);
    }
    if Complete(current, jobs, home, Adopt(current, private, jobs, home).value) {
      forall raw | raw in HandAdded(prefix) ensures Adoptable(raw) {
        CompleteIsAdoptable(current, private, jobs, home, raw);
      }
    }
  }

  // ----- order and settling

  /** The visible lines, each at its first occurrence, leaving out those in `seen`. */
  function FirstOccurrences(raws: seq<string>, seen: seq<string>): seq<string> {
    if raws == [] then []
    else if Blank(raws[0]) || raws[0] in seen then FirstOccurrences(raws[1..], seen)
    else [raws[0]] + FirstOccurrences(raws[1..], seen + [raws[0]])
  }

  ghost predicate AllDistinct(s: seq<string>) {
    forall i, j :: 0 <= i < j < |s| ==> s[i] != s[j]
  }

  lemma {:induction false} FirstOccurrencesShape(raws: seq<string>, seen: seq<string>)
    ensures forall x :: x in FirstOccurrences(raws, seen) <==> NonBlankIn(raws, x) && x !in seen
    ensures AllDistinct(FirstOccurrences(raws, seen))
    decreases |raws|
  {
    if raws != [] {
      var next := if Blank(raws[0]) || raws[0] in seen then seen else seen + [raws[0]];
      FirstOccurrencesShape(raws[1..], next);
      forall x ensures x in FirstOccurrences(raws, seen) <==> NonBlankIn(raws, x) && x !in seen {
        assert x in raws <==> x == raws[0] || x in raws[1..];
        assert NonBlankIn(raws[1..], x) <==> x in raws[1..] && !Blank(x);
      }
      var f, g := FirstOccurrences(raws, seen), FirstOccurrences(raws[1..], next);
      assert forall j :: 0 <= j < |g| ==> g[j] in g;
      assert next != seen ==> next[|next| - 1] == raws[0] && raws[0] in next;
      assert f == g || f == [raws[0]] + g;
    }
  }

  function NormalizeAll(raws: seq<string>, home: string): seq<string> {
    if raws == [] then [] else [Normalize(raws[0], home)] + NormalizeAll(raws[1..], home)
  }

  lemma {:induction false} NormalizeSnoc(raws: seq<string>, raw: string, home: string)
    ensures NormalizeAll(raws + [raw], home) == NormalizeAll(raws, home) + [Normalize(raw, home)]
    ensures raw in raws ==> Normalize(raw, home) in NormalizeAll(raws, home)
  {
    if raws == [] {
      assert [raw][1..] == [];
    } else {
      assert (raws + [raw])[0] == raws[0] && (raws + [raw])[1..] == raws[1..] + [raw];
      NormalizeSnoc(raws[1..], raw, home);
    }
  }

  /** Adding one visible, brace-free line that the private text does not stand for. */
  lemma AddOne(base: seq<string>, added: seq<string>, raw: string, home: string, own: seq<string>)
    requires SubstituteAll(base + NormalizeAll(added, home), home) == Ok(own + added)
    requires BraceFree(raw) && raw !in own
    ensures Normalize(raw, home) in base + NormalizeAll(added, home) <==> raw in added
    ensures SubstituteAll(base + NormalizeAll(added + [raw], home), home) == Ok(own + (added + [raw]))
    ensures base + NormalizeAll(added, home) + [Normalize(raw, home)] == base + NormalizeAll(added + [raw], home)
  {
    var lines, line := base + NormalizeAll(added, home), Normalize(raw, home);
    NormalizeSnoc(added, raw, home);
    AdoptedLineRenders(raw, home);
    SubstituteMember(lines, line, home);
    SubstituteAppend(lines, [line], home);
    assert [line][1..] == [] && [raw] + [] == [raw];
    assert SubstituteAll([line], home) == Ok([raw]);
    assert own + added + [raw] == own + (added + [raw]);
    assert base + NormalizeAll(added + [raw], home) == lines + [line];
  }

  lemma TwoLists(a: seq<string>, x: string, b: seq<string>)
    ensures a + [x] + b == a + ([x] + b)
  {
  }

  /** The added private lines are the hand-added lines in order, once each. */
  lemma {:induction false} AddedInOrder(base: seq<string>, added: seq<string>, raws: seq<string>, home: string, own: seq<string>)
    requires SubstituteAll(base + NormalizeAll(added, home), home) == Ok(own + added)
    requires forall raw :: NonBlankIn(raws, raw) ==> BraceFree(raw) && raw !in own
    ensures SubstituteAll(AddNew(base + NormalizeAll(added, home), raws, home), home)
            == Ok(own + (added + FirstOccurrences(raws, added)))
    decreases |raws|
  {
    if raws == [] {
      assert added + [] == added;
    } else {
      var raw := raws[0];
      assert forall x :: NonBlankIn(raws[1..], x) ==> NonBlankIn(raws, x);
      if !Blank(raw) {
        assert NonBlankIn(raws, raw);
        AddOne(base, added, raw, home, own);
      }
      if Blank(raw) || raw in added {
        AddedInOrder(base, added, raws[1..], home, own);
      } else {
        AddedInOrder(base, added + [raw], raws[1..], home, own);
        TwoLists(added, raw, FirstOccurrences(raws[1..], added + [raw]));
      }
    }
  }

  /** Adoption keeps the existing private lines and appends every hand-added line once, in order. */
  lemma AdoptionKeepsOrder(current: string, private: string, jobs: seq<Job>, home: string)
    requires home != "" && OneLine(home) && '\r' !in current
    requires Reconcile(current, jobs, home, private).Ok?
    requires forall raw :: raw in HandAdded(Prefix(current, jobs, home, private).value) ==> Adoptable(raw)
    ensures PrivateLines(Adopt(current, private, jobs, home).value, home) ==
            Ok(PrivateLines(private, home).value + FirstOccurrences(HandAdded(Prefix(current, jobs, home, private).value), []))
  {
    var prefix := Prefix(current, jobs, home, private).value;
    var base, own := NonBlank(SplitLines(private)), PrivateLines(private, home).value;
    NonBlankMembers(SplitLines(prefix));
    assert forall raw :: raw in HandAdded(prefix) <==> NonBlankIn(SplitLines(prefix), raw);
    AdoptableIsComplete(current, private, jobs, home);
    AdoptedReads(current, private, jobs, home);
    HandAddedIsRetained(current, jobs, home, private);
    assert base + NormalizeAll([], home) == base && own + [] == own;
    AddedInOrder(base, [], SplitLines(prefix), home, own);
    FirstOfVisible(SplitLines(prefix), []);
    assert [] + FirstOccurrences(SplitLines(prefix), []) == FirstOccurrences(SplitLines(prefix), []);
  }

  lemma {:induction false} FirstOfVisible(raws: seq<string>, seen: seq<string>)
    ensures FirstOccurrences(NonBlank(raws), seen) == FirstOccurrences(raws, seen)
    decreases |raws|
  {
    if raws != [] {
      if Blank(raws[0]) {
        assert [] + NonBlank(raws[1..]) == NonBlank(raws[1..]);
        FirstOfVisible(raws[1..], seen);
      } else {
        var v := NonBlank(raws);
        assert v[0] == raws[0] && v[1..] == NonBlank(raws[1..]);
        FirstOfVisible(raws[1..], if raws[0] in seen then seen else seen + [raws[0]]);
      }
    }
  }

  lemma {:induction false} AddNothing(lines: seq<string>, raws: seq<string>, home: string)
    requires forall raw :: raw in raws ==> Blank(raw)
    ensures AddNew(lines, raws, home) == lines
    decreases |raws|
  {
    if raws != [] {
      AddNothing(lines, raws[1..], home);
    }
  }

  /** Adopting again from a crontab that has nothing to adopt returns the same private text. */
  lemma NothingToAdopt(current: string, adopted: string, jobs: seq<Job>, home: string)
    requires home != "" && OneLine(home) && Reconcile(current, jobs, home, adopted).Ok?
    requires HandAdded(Prefix(current, jobs, home, adopted).value) == []
    ensures Adopt(current, adopted, jobs, home) == Ok(Terminate(NonBlank(SplitLines(adopted))))
  {
    var prefix := Prefix(current, jobs, home, adopted).value;
    NonBlankEmpty(SplitLines(prefix));
    var rest := OutputStarts(current, jobs, home, adopted);
    PrefixQuiet(current, jobs, home, adopted);
    ManagedShape();
    TextLacksVisible(prefix, BEGIN);
    BeforeWhole(prefix, BEGIN, rest);
    AddNothing(NonBlank(SplitLines(adopted)), SplitLines(prefix), home);
  }

  /** Adoption of adoptable lines settles: from the same crontab always, and from the crontab reconciled with
      the adopted text exactly if no private line is a marker. */
  lemma AdoptionSettles(current: string, private: string, jobs: seq<Job>, home: string)
    requires Loaded(jobs) && home != "" && OneLine(home) && '\r' !in current
    requires Reconcile(current, jobs, home, private).Ok?
    requires forall raw :: raw in HandAdded(Prefix(current, jobs, home, private).value) ==> Adoptable(raw)
    ensures var adopted := Adopt(current, private, jobs, home).value;
            && Reconcile(current, jobs, home, adopted).Ok?
            && Adopt(current, adopted, jobs, home) == Ok(adopted)
            && (Adopt(Reconcile(current, jobs, home, adopted).value, adopted, jobs, home) == Ok(adopted) <==>
                NoMarkers(PrivateLines(private, home).value))
  {
    var prefix, adopted := Prefix(current, jobs, home, private).value, Adopt(current, private, jobs, home).value;
    AdoptionCompleteIff(current, private, jobs, home);
    AdoptedReads(current, private, jobs, home);
    ManagedBlockRenders(jobs, home);
    NothingToAdopt(current, adopted, jobs, home);
    AdoptedHasNoMarkers(current, private, jobs, home);
    ReconcileIsIdempotentIff(current, jobs, home, adopted);
    if NoMarkers(PrivateLines(private, home).value) {
      var out := Reconcile(current, jobs, home, adopted).value;
      SamePrefix(current, jobs, home, adopted);
      NothingToAdopt(out, adopted, jobs, home);
    }
  }

  /** The adopted text has a marker line only if the private text had one. */
  lemma AdoptedHasNoMarkers(current: string, private: string, jobs: seq<Job>, home: string)
    requires home != "" && OneLine(home) && '\r' !in current
    requires Reconcile(current, jobs, home, private).Ok?
    requires forall raw :: raw in HandAdded(Prefix(current, jobs, home, private).value) ==> Adoptable(raw)
    ensures PrivateLines(Adopt(current, private, jobs, home).value, home).Ok?
    ensures NoMarkers(PrivateLines(Adopt(current, private, jobs, home).value, home).value) <==>
            NoMarkers(PrivateLines(private, home).value)
  {
    var prefix := Prefix(current, jobs, home, private).value;
    AdoptionKeepsOrder(current, private, jobs, home);
    FirstOccurrencesShape(HandAdded(prefix), []);
    NonBlankMembers(SplitLines(prefix));
    HandAddedIsRetained(current, jobs, home, private);
    forall raw | raw in FirstOccurrences(HandAdded(prefix), []) ensures MarkOf(Strip(raw)).NoMark? {
      assert NonBlankIn(SplitLines(prefix), raw);
    }
  }

  /** The text kept from an output is the text that was kept when it was made. */
  lemma SamePrefix(current: string, jobs: seq<Job>, home: string, private: string)
    requires Loaded(jobs) && home != "" && OneLine(home)
    requires Reconcile(current, jobs, home, private).Ok? && NoMarkers(PrivateLines(private, home).value)
    ensures var out := Reconcile(current, jobs, home, private).value;
            Prefix(out, jobs, home, private) == Prefix(current, jobs, home, private)
  {
    var out := Reconcile(current, jobs, home, private).value;
    ReconcileIsIdempotentIff(current, jobs, home, private);
    var p, q := Prefix(current, jobs, home, private).value, Prefix(out, jobs, home, private).value;
    CancelTail(p, q, ManagedBlock(jobs, home).value, PrivateBlock(private, home).value);
  }

  lemma CancelTail(p: string, q: string, a: string, b: string)
    requires p + a + b == q + a + b
    ensures p == q
  {
    assert |p| == |q|;
    assert p == (p + a + b)[..|p|] && q == (q + a + b)[..|q|];
  }
}
