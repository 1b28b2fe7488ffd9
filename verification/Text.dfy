/** Python string operations the programs rest on. A line ends at '\n'; the other line breaks that
    str.splitlines knows are outside the alphabet modelled here. */
module Text {
  import opened Wrappers

  /** str.isspace for one character */
  predicate IsSpace(c: char) {
    || 0x09 <= c as int <= 0x0D || 0x1C <= c as int <= 0x20 || c as int == 0x85 || c as int == 0xA0
    || c as int == 0x1680 || 0x2000 <= c as int <= 0x200A || c as int == 0x2028 || c as int == 0x2029
    || c as int == 0x202F || c as int == 0x205F || c as int == 0x3000
  }

  function StripLeft(s: string): (r: string)
    ensures r == "" || !IsSpace(r[0])
    ensures |r| <= |s|
  {
    if s != "" && IsSpace(s[0]) then StripLeft(s[1..]) else s
  }

  function StripRight(s: string): (r: string)
    ensures r == "" || !IsSpace(r[|r| - 1])
    ensures r <= s
  {
    if s != "" && IsSpace(s[|s| - 1]) then StripRight(s[..|s| - 1]) else s
  }

  /** s.strip() */
  function Strip(s: string): string {
    StripRight(StripLeft(s))
  }

  predicate Blank(s: string) {
    Strip(s) == ""
  }

  lemma {:induction false} StripRightBlank(s: string)
    ensures StripRight(s) == "" <==> forall i :: 0 <= i < |s| ==> IsSpace(s[i])
  {
    if s != "" {
      StripRightBlank(s[..|s| - 1]);
      assert IsSpace(s[|s| - 1]) ==> forall i :: 0 <= i < |s| - 1 ==> s[i] == s[..|s| - 1][i];
    }
  }

  /** Blank text is nothing but space. */
  lemma {:induction false} BlankIff(s: string)
    ensures Blank(s) <==> forall i :: 0 <= i < |s| ==> IsSpace(s[i])
    decreases |s|
  {
    if s != "" && IsSpace(s[0]) {
      BlankIff(s[1..]);
      assert Strip(s) == Strip(s[1..]);
      assert forall i :: 0 <= i < |s| - 1 ==> s[1..][i] == s[i + 1];
      assert forall i :: 0 < i < |s| ==> s[i] == s[1..][i - 1];
    } else {
      StripRightBlank(s);
    }
  }

  /** s.rstrip("\r\n") */
  function Bare(s: string): string {
    if s != "" && (s[|s| - 1] == '\n' || s[|s| - 1] == '\r') then Bare(s[..|s| - 1]) else s
  }

  lemma BareNewline(s: string)
    ensures Bare(s + "\n") == Bare(s)
  {
    assert (s + "\n")[..|s|] == s;
  }

  // ----- prefixes, search and replacement

  predicate StartsWith(s: string, p: string) {
    |p| <= |s| && s[..|p|] == p
  }

  predicate EndsWith(s: string, p: string) {
    |p| <= |s| && s[|s| - |p|..] == p
  }

  predicate Contains(s: string, p: string) {
    StartsWith(s, p) || (s != "" && Contains(s[1..], p))
  }

  /** s.replace(old, new): leftmost occurrences, not overlapping */
  function Replace(s: string, old_: string, new_: string): string
    requires old_ != ""
  {
    if StartsWith(s, old_) then new_ + Replace(s[|old_|..], old_, new_)
    else if s == "" then ""
    else [s[0]] + Replace(s[1..], old_, new_)
  }

  /** Occurrences lie at positions. */
  lemma {:induction false} ContainsAt(s: string, p: string, i: nat)
    requires i <= |s| && StartsWith(s[i..], p)
    ensures Contains(s, p)
  {
    if i > 0 {
      assert s[1..][i - 1..] == s[i..];
      ContainsAt(s[1..], p, i - 1);
    } else {
      assert s[0..] == s;
    }
  }

  lemma {:induction false} ContainsWhere(s: string, p: string) returns (i: nat)
    requires Contains(s, p)
    ensures i <= |s| && StartsWith(s[i..], p)
  {
    if StartsWith(s, p) {
      i := 0;
      assert s[0..] == s;
    } else {
      var j := ContainsWhere(s[1..], p);
      i := j + 1;
      assert s[i..] == s[1..][j..];
    }
  }

  lemma {:induction false} ReplaceNothing(s: string, old_: string, new_: string)
    requires old_ != "" && !Contains(s, old_)
    ensures Replace(s, old_, new_) == s
  {
    if s != "" {
      ReplaceNothing(s[1..], old_, new_);
      assert s == [s[0]] + s[1..];
    }
  }

  /** A text without the first character of a needle lacks the needle. */
  lemma {:induction false} LacksBy(s: string, p: string)
    requires p != "" && p[0] !in s
    ensures !Contains(s, p)
  {
    if s != "" {
      assert |s| >= |p| ==> s[..|p|][0] == s[0];
      assert forall c :: c in s[1..] ==> c in s;
      LacksBy(s[1..], p);
    }
  }

  // ----- lines

  /** s.splitlines(keepends=True) */
  function Lines(s: string): (r: seq<string>)
    ensures s != "" <==> r != []
  {
    if s == "" then []
    else if s[0] == '\n' then ["\n"] + Lines(s[1..])
    else
      var rest := Lines(s[1..]);
      if rest == [] then [s] else [[s[0]] + rest[0]] + rest[1..]
  }

  /** "".join(lines) */
  function Join(lines: seq<string>): string {
    if lines == [] then "" else lines[0] + Join(lines[1..])
  }

  /** A line without its break. */
  function Body(line: string): string {
    if EndsWith(line, "\n") then line[..|line| - 1] else line
  }

  /** s.splitlines() */
  function SplitLines(s: string): seq<string> {
    Bodies(Lines(s))
  }

  function Bodies(lines: seq<string>): seq<string> {
    if lines == [] then [] else [Body(lines[0])] + Bodies(lines[1..])
  }

  /** "".join(f"{line}\n" for line in lines) */
  function Terminate(lines: seq<string>): string {
    if lines == [] then "" else lines[0] + "\n" + Terminate(lines[1..])
  }

  predicate Unbroken(s: string) {
    '\n' !in s
  }

  /** A complete line: one break, at its end. */
  predicate IsLine(s: string) {
    EndsWith(s, "\n") && Unbroken(s[..|s| - 1])
  }

  ghost predicate AllLines(lines: seq<string>) {
    forall l :: l in lines ==> IsLine(l)
  }

  /** Complete lines, but the last may lack its break. */
  predicate LineList(lines: seq<string>) {
    lines == [] || (if |lines| == 1 then IsLine(lines[0]) || (lines[0] != "" && Unbroken(lines[0]))
                    else IsLine(lines[0]) && LineList(lines[1..]))
  }

  lemma {:induction false} LinesJoin(s: string)
    ensures Join(Lines(s)) == s
  {
    if s != "" {
      LinesJoin(s[1..]);
      var rest := Lines(s[1..]);
      assert s == [s[0]] + s[1..];
      if s[0] == '\n' {
        assert Lines(s)[1..] == rest;
      } else if rest == [] {
        assert Lines(s)[1..] == [] && s + "" == s;
      } else {
        assert Lines(s)[1..] == rest[1..] && Join(Lines(s)) == ([s[0]] + rest[0]) + Join(rest[1..]);
      }
    }
  }

  /** Putting a character in front keeps the shape of a line. */
  lemma LineGrows(c: char, line: string)
    requires c != '\n'
    ensures IsLine(line) ==> IsLine([c] + line)
    ensures Unbroken(line) ==> Unbroken([c] + line)
  {
    if IsLine(line) {
      var t := [c] + line;
      assert t[|t| - 1..] == line[|line| - 1..] && t[..|t| - 1] == [c] + line[..|line| - 1];
    }
  }

  lemma FirstLineGrows(c: char, lines: seq<string>)
    requires c != '\n' && LineList(lines) && lines != []
    ensures LineList([[c] + lines[0]] + lines[1..])
  {
    var grown := [[c] + lines[0]] + lines[1..];
    LineGrows(c, lines[0]);
    assert grown[0] == [c] + lines[0] && grown[1..] == lines[1..] && |grown| == |lines|;
  }

  /** A character in front of a list of lines. */
  function InFront(c: char, lines: seq<string>): seq<string> {
    if c == '\n' then ["\n"] + lines
    else if lines == [] then [[c]]
    else [[c] + lines[0]] + lines[1..]
  }

  lemma LinesHead(s: string)
    requires s != ""
    ensures Lines(s) == InFront(s[0], Lines(s[1..]))
  {
    if Lines(s[1..]) == [] {
      assert s == [s[0]];
    }
  }

  lemma BreakAlone()
    ensures IsLine("\n")
  {
    assert "\n"[..0] == "";
  }

  lemma InFrontShape(c: char, lines: seq<string>)
    requires LineList(lines)
    ensures LineList(InFront(c, lines))
  {
    if c == '\n' {
      BreakAlone();
      assert InFront(c, lines)[1..] == lines;
    } else if lines != [] {
      FirstLineGrows(c, lines);
    }
  }

  lemma {:induction false} LinesShape(s: string)
    ensures LineList(Lines(s))
  {
    if s != "" {
      LinesShape(s[1..]);
      LinesHead(s);
      InFrontShape(s[0], Lines(s[1..]));
    }
  }

  lemma InFrontAppend(c: char, a: seq<string>, b: seq<string>)
    requires a != [] || c == '\n'
    ensures InFront(c, a + b) == InFront(c, a) + b
  {
    if a == [] {
      assert a + b == b;
    } else {
      assert (a + b)[0] == a[0] && (a + b)[1..] == a[1..] + b;
    }
  }

  /** Text after a complete line is split on its own. */
  lemma {:induction false} LinesAppend(a: string, b: string)
    requires a == "" || EndsWith(a, "\n")
    ensures Lines(a + b) == Lines(a) + Lines(b)
  {
    if a == "" {
      assert a + b == b && Lines(a) == [];
    } else {
      if a[1..] == "" {
        assert a == "\n" && a[1..] + b == b;
      } else {
        assert a[1..][|a| - 2..] == a[|a| - 1..];
        LinesAppend(a[1..], b);
      }
      LinesHead(a);
      LinesHead(a + b);
      assert (a + b)[0] == a[0] && (a + b)[1..] == a[1..] + b;
      InFrontAppend(a[0], Lines(a[1..]), Lines(b));
    }
  }

  lemma {:induction false} LinesOne(line: string)
    requires IsLine(line) || (line != "" && Unbroken(line))
    ensures Lines(line) == [line]
  {
    if |line| == 1 {
      assert line[1..] == "";
    } else {
      assert line[1..][..|line| - 2] == line[..|line| - 1][1..];
      LinesOne(line[1..]);
      assert line == [line[0]] + line[1..];
      assert IsLine(line) ==> line[0] == line[..|line| - 1][0];
    }
  }

  /** Splitting a joined list of lines gives the list back. */
  lemma {:induction false} LinesOfJoin(lines: seq<string>)
    requires LineList(lines)
    ensures Lines(Join(lines)) == lines
  {
    if lines != [] {
      LinesOne(lines[0]);
      if |lines| == 1 {
        assert lines[1..] == [] && lines[0] + "" == lines[0];
      } else {
        LinesOfJoin(lines[1..]);
        LinesAppend(lines[0], Join(lines[1..]));
        assert lines == [lines[0]] + lines[1..];
      }
    }
  }

  lemma {:induction false} AllLinesIsLineList(lines: seq<string>)
    requires AllLines(lines)
    ensures LineList(lines)
    ensures lines != [] ==> EndsWith(Join(lines), "\n")
  {
    if lines != [] {
      AllLinesIsLineList(lines[1..]);
      var rest := Join(lines[1..]);
      if lines[1..] == [] {
        assert lines[0] + rest == lines[0];
      } else {
        assert (lines[0] + rest)[|lines[0] + rest| - 1..] == rest[|rest| - 1..];
      }
    }
  }

  lemma {:induction false} JoinAppend(a: seq<string>, b: seq<string>)
    ensures Join(a + b) == Join(a) + Join(b)
  {
    if a == [] {
      assert a + b == b && Join(a) + Join(b) == Join(b);
    } else {
      JoinAppend(a[1..], b);
      Associates(a[0], Join(a[1..]), Join(b));
      assert (a + b)[0] == a[0] && (a + b)[1..] == a[1..] + b;
    }
  }

  /** The lines, each with a break. */
  function Broken(lines: seq<string>): seq<string> {
    seq(|lines|, i requires 0 <= i < |lines| => lines[i] + "\n")
  }

  lemma {:induction false} TerminateIsJoin(lines: seq<string>)
    ensures Terminate(lines) == Join(Broken(lines))
  {
    if lines != [] {
      TerminateIsJoin(lines[1..]);
      assert Broken(lines)[1..] == Broken(lines[1..]);
    }
  }

  lemma BrokenLine(line: string)
    requires Unbroken(line)
    ensures IsLine(line + "\n") && Body(line + "\n") == line
  {
    assert (line + "\n")[..|line|] == line;
  }

  lemma BrokenLines(lines: seq<string>)
    requires forall l :: l in lines ==> Unbroken(l)
    ensures AllLines(Broken(lines))
  {
    forall i | 0 <= i < |lines| ensures IsLine(Broken(lines)[i]) {
      BrokenLine(lines[i]);
    }
  }

  lemma {:induction false} BodiesOfBroken(lines: seq<string>)
    requires forall l :: l in lines ==> Unbroken(l)
    ensures Bodies(Broken(lines)) == lines
  {
    if lines != [] {
      assert lines[0] in lines && forall l :: l in lines[1..] ==> l in lines;
      BrokenLine(lines[0]);
      BodiesOfBroken(lines[1..]);
      assert Broken(lines)[1..] == Broken(lines[1..]);
      assert lines == [lines[0]] + lines[1..];
    }
  }

  /** The lines of a terminated list are its members, each with a break. */
  lemma LinesOfTerminate(lines: seq<string>)
    requires forall l :: l in lines ==> Unbroken(l)
    ensures Lines(Terminate(lines)) == Broken(lines)
    ensures lines != [] ==> EndsWith(Terminate(lines), "\n")
    ensures SplitLines(Terminate(lines)) == lines
  {
    TerminateIsJoin(lines);
    BrokenLines(lines);
    AllLinesIsLineList(Broken(lines));
    LinesOfJoin(Broken(lines));
    BodiesOfBroken(lines);
  }
}
