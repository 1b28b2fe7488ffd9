/** What stripping takes away: a text, and the gaps around it. */
module Stripping {
  import opened Text

  ghost predicate Gap(s: string) {
    forall i :: 0 <= i < |s| ==> IsSpace(s[i])
  }

  predicate Trimmed(s: string) {
    s != "" ==> !IsSpace(s[0]) && !IsSpace(s[|s| - 1])
  }

  lemma {:induction false} StripLeftOf(gap: string, s: string)
    requires Gap(gap) && (s == "" || !IsSpace(s[0]))
    ensures StripLeft(gap + s) == s
  {
    if gap == "" {
      assert gap + s == s;
    } else {
      assert (gap + s)[1..] == gap[1..] + s;
      StripLeftOf(gap[1..], s);
    }
  }

  lemma {:induction false} StripLeftLeaves(s: string) returns (gap: string)
    ensures Gap(gap) && s == gap + StripLeft(s)
  {
    if s != "" && IsSpace(s[0]) {
      var rest := StripLeftLeaves(s[1..]);
      gap := [s[0]] + rest;
      assert s == [s[0]] + s[1..];
      assert [s[0]] + (rest + StripLeft(s[1..])) == gap + StripLeft(s[1..]);
    } else {
      gap := "";
      assert s == gap + s;
    }
  }

  lemma {:induction false} StripRightOf(s: string, gap: string)
    requires Gap(gap) && (s == "" || !IsSpace(s[|s| - 1]))
    ensures StripRight(s + gap) == s
  {
    if gap == "" {
      assert s + gap == s;
    } else {
      var n := |gap| - 1;
      assert (s + gap)[..|s + gap| - 1] == s + gap[..n];
      StripRightOf(s, gap[..n]);
    }
  }

  lemma {:induction false} StripRightLeaves(s: string) returns (gap: string)
    ensures Gap(gap) && s == StripRight(s) + gap
  {
    if s != "" && IsSpace(s[|s| - 1]) {
      var rest := StripRightLeaves(s[..|s| - 1]);
      gap := rest + [s[|s| - 1]];
      assert s == s[..|s| - 1] + [s[|s| - 1]];
    } else {
      gap := "";
    }
  }

  /** Stripping takes the gaps around a trimmed text. */
  lemma StripOf(before: string, s: string, after: string)
    requires Gap(before) && Trimmed(s) && Gap(after)
    ensures Strip(before + (s + after)) == s
  {
    if s == "" {
      var all := before + (s + after);
      assert Gap(all);
      assert Blank(all) by {
        BlankIff(all);
      }
    } else {
      StripLeftOf(before, s + after);
      StripRightOf(s, after);
    }
  }

  lemma StripLeaves(s: string) returns (before: string, after: string)
    ensures Gap(before) && Gap(after) && Trimmed(Strip(s)) && s == before + (Strip(s) + after)
  {
    before := StripLeftLeaves(s);
    after := StripRightLeaves(StripLeft(s));
  }

  /** The text with gaps around it. */
  ghost predicate Around(line: string, s: string) {
    exists before, after :: Gap(before) && Gap(after) && line == before + (s + after)
  }

  lemma StripIff(line: string, s: string)
    requires Trimmed(s)
    ensures Strip(line) == s <==> Around(line, s)
  {
    if Strip(line) == s {
      var before, after := StripLeaves(line);
    }
    if Around(line, s) {
      var before, after :| Gap(before) && Gap(after) && line == before + (s + after);
      StripOf(before, s, after);
    }
  }

  lemma TrimmedIff(s: string)
    ensures Strip(s) == s <==> Trimmed(s)
  {
    if Trimmed(s) {
      StripOf("", s, "");
      assert "" + (s + "") == s;
    } else {
      var before, after := StripLeaves(s);
    }
  }

  /** A line whose first character after its gap is a number sign. */
  ghost predicate Remark(line: string) {
    exists indent, text :: Gap(indent) && line == indent + ("#" + text)
  }

  lemma RemarkAt(indent: string, text: string)
    requires Gap(indent)
    ensures StartsWith(StripLeft(indent + ("#" + text)), "#")
  {
    StripLeftOf(indent, "#" + text);
    assert ("#" + text)[..1] == "#";
  }

  lemma RemarkFrom(s: string)
    requires StartsWith(s, "#")
    ensures s == "#" + s[1..]
  {
    assert s == s[..1] + s[1..];
  }

  /** Stripping the end keeps the first character that can be seen. */
  lemma StripRightStart(s: string)
    requires s == "" || !IsSpace(s[0])
    ensures StartsWith(StripRight(s), "#") <==> StartsWith(s, "#")
  {
    StripRightBlank(s);
    var r := StripRight(s);
    if s != "" {
      assert r != "" && r[..1] == s[..1];
    }
  }

  lemma RemarkIff(line: string)
    ensures StartsWith(StripLeft(line), "#") <==> Remark(line)
    ensures StartsWith(Strip(line), "#") <==> Remark(line)
  {
    StripRightStart(StripLeft(line));
    if StartsWith(StripLeft(line), "#") {
      var indent := StripLeftLeaves(line);
      RemarkFrom(StripLeft(line));
      assert line == indent + ("#" + StripLeft(line)[1..]);
    }
    if Remark(line) {
      var indent, text :| Gap(indent) && line == indent + ("#" + text);
      RemarkAt(indent, text);
    }
  }

  // ----- line breaks at the end

  ghost predicate Breaks(s: string) {
    forall i :: 0 <= i < |s| ==> s[i] as int == 10 || s[i] as int == 13
  }

  predicate EndsInBreak(s: string) {
    s != "" && (s[|s| - 1] as int == 10 || s[|s| - 1] as int == 13)
  }

  lemma {:induction false} BareLeaves(s: string) returns (breaks: string)
    ensures Breaks(breaks) && s == Bare(s) + breaks && !EndsInBreak(Bare(s))
  {
    if EndsInBreak(s) {
      var rest := BareLeaves(s[..|s| - 1]);
      breaks := rest + [s[|s| - 1]];
      assert s == s[..|s| - 1] + [s[|s| - 1]];
      assert Bare(s) + rest + [s[|s| - 1]] == Bare(s) + breaks;
    } else {
      breaks := "";
      assert s == s + breaks;
    }
  }

  lemma {:induction false} BareOf(s: string, breaks: string)
    requires Breaks(breaks) && !EndsInBreak(s)
    ensures Bare(s + breaks) == s
  {
    if breaks == "" {
      assert s + breaks == s;
    } else {
      var n := |breaks| - 1;
      assert (s + breaks)[..|s + breaks| - 1] == s + breaks[..n];
      BareOf(s, breaks[..n]);
    }
  }
}
