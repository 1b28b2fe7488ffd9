/** Which lines are settings: how NAME=value may be laid out, and that the reader finds exactly those lines. */
module BashrcSettings {
  import opened Wrappers
  import opened Text
  import opened Stripping
  import opened Bashrc

  // ----- a setting as it is written

  predicate Letter(c: char) {
    65 <= c as int <= 90 || 97 <= c as int <= 122 || c as int == 95
  }

  predicate Digit(c: char) {
    48 <= c as int <= 57
  }

  ghost predicate IsName(s: string) {
    s != "" && Letter(s[0]) && forall i :: 0 <= i < |s| ==> Letter(s[i]) || Digit(s[i])
  }

  /** The parts of a line: the gap after "export" where there is one, and the gaps around name and value. */
  datatype Layout = Layout(
    indent: string,
    exported: Option<string>,
    name: string,
    before: string,
    after: string,
    value: string,
    trailing: string)

  function ValueText(l: Layout): string {
    l.after + (l.value + l.trailing)
  }

  function SettingText(l: Layout): string {
    l.name + (l.before + ("=" + ValueText(l)))
  }

  function LineOf(l: Layout): string {
    l.indent + if l.exported.Some? then "export" + (l.exported.value + SettingText(l)) else SettingText(l)
  }

  ghost predicate Proper(l: Layout) {
    && Gap(l.indent) && Gap(l.before) && Gap(l.after) && Gap(l.trailing)
    && (l.exported.Some? ==> l.exported.value != "" && Gap(l.exported.value))
    && IsName(l.name) && Trimmed(l.value)
  }

  /** A line that gives a name a value. */
  ghost predicate Sets(line: string, name: string, value: string) {
    exists l :: Proper(l) && LineOf(l) == line && l.name == name && l.value == value
  }

  // ----- names

  lemma NameCharIff(c: char)
    ensures NameChar(c) <==> Letter(c) || Digit(c)
    ensures NameStart(c) <==> Letter(c)
    ensures IsSpace(c) ==> !NameChar(c)
  {
  }

  /** The run of name characters ends where a name does. */
  lemma {:induction false} NameLengthOf(name: string, rest: string)
    requires forall i :: 0 <= i < |name| ==> NameChar(name[i])
    requires rest == "" || !NameChar(rest[0])
    ensures NameLength(name + rest) == |name|
  {
    if name == "" {
      assert name + rest == rest;
    } else {
      assert (name + rest)[1..] == name[1..] + rest;
      NameLengthOf(name[1..], rest);
    }
  }

  lemma {:induction false} NameLengthLeaves(s: string)
    ensures forall i :: 0 <= i < NameLength(s) ==> NameChar(s[i])
  {
    if s != "" && NameChar(s[0]) {
      NameLengthLeaves(s[1..]);
      assert forall i :: 0 < i < NameLength(s) ==> s[i] == s[1..][i - 1];
    }
  }

  lemma NameIsRead(name: string, rest: string)
    requires IsName(name) && rest != "" && (IsSpace(rest[0]) || rest[0] == '=')
    ensures NameLength(name + rest) == |name|
  {
    forall i | 0 <= i < |name| ensures NameChar(name[i]) {
      NameCharIff(name[i]);
    }
    NameCharIff(rest[0]);
    NameLengthOf(name, rest);
  }

  // ----- settings are read

  lemma SettingIsRead(l: Layout)
    requires Proper(l)
    ensures Setting(SettingText(l)) == Some((l.name, l.value))
  {
    var rest := l.before + ("=" + ValueText(l));
    NameIsRead(l.name, rest);
    NameCharIff(l.name[0]);
    assert SettingText(l)[..|l.name|] == l.name && SettingText(l)[|l.name|..] == rest;
    StripLeftOf(l.before, "=" + ValueText(l));
    assert ("=" + ValueText(l))[1..] == ValueText(l);
    StripOf(l.after, l.value, l.trailing);
  }

  /** The word "export" followed by a gap. */
  predicate Exported(s: string) {
    StartsWith(s, "export") && |s| > 6 && IsSpace(s[6])
  }

  /** A name that is the word "export" is not taken for the keyword. */
  lemma ExportAsName(l: Layout)
    requires Proper(l) && Exported(SettingText(l))
    ensures Setting(StripLeft(SettingText(l)[6..])).None?
  {
    var text := SettingText(l);
    var rest := l.before + ("=" + ValueText(l));
    assert text == text[..6] + text[6..] && text[..6] == "export" && IsName("export");
    NameIsRead("export", text[6..]);
    NameIsRead(l.name, rest);
    assert text[6..] == rest;
    StripLeftOf(l.before, "=" + ValueText(l));
  }

  lemma LineIsRead(l: Layout)
    requires Proper(l)
    ensures Assignment(LineOf(l)) == Some((l.name, l.value))
  {
    SettingIsRead(l);
    NameCharIff(l.name[0]);
    if l.exported.Some? {
      var gap := l.exported.value;
      var s := "export" + (gap + SettingText(l));
      StripLeftOf(l.indent, s);
      assert s[..6] == "export" && s[6..] == gap + SettingText(l) && s[6] == gap[0];
      StripLeftOf(gap, SettingText(l));
    } else {
      StripLeftOf(l.indent, SettingText(l));
      if Exported(SettingText(l)) {
        ExportAsName(l);
      }
    }
  }

  // ----- what is read is a setting

  lemma ReadIsName(s: string)
    requires Setting(s).Some?
    ensures IsName(s[..NameLength(s)])
  {
    var n := NameLength(s);
    NameLengthLeaves(s);
    forall i | 0 <= i < n ensures Letter(s[..n][i]) || Digit(s[..n][i]) {
      NameCharIff(s[i]);
    }
    NameCharIff(s[0]);
  }

  /** What a setting is made of. */
  lemma SettingParts(s: string) returns (name: string, tail: string, rest: string)
    requires Setting(s).Some?
    ensures s == name + tail && IsName(name) && StripLeft(tail) == "=" + rest
    ensures Setting(s) == Some((name, Strip(rest)))
  {
    var n := NameLength(s);
    name, tail := s[..n], s[n..];
    rest := StripLeft(tail)[1..];
    ReadIsName(s);
  }

  lemma Rejoined(l: Layout, s: string, tail: string, rest: string)
    requires s == l.name + tail && tail == l.before + ("=" + rest) && rest == ValueText(l)
    ensures SettingText(l) == s
  {
  }

  lemma ReadIsSetting(s: string) returns (l: Layout)
    requires Setting(s).Some?
    ensures Proper(l) && l.indent == "" && l.exported == None && SettingText(l) == s
    ensures Setting(s) == Some((l.name, l.value))
  {
    var name, tail, rest := SettingParts(s);
    var before := StripLeftLeaves(tail);
    var after, trailing := StripLeaves(rest);
    l := Layout("", None, name, before, after, Strip(rest), trailing);
    Rejoined(l, s, tail, rest);
  }

  lemma ExportLeaves(s: string) returns (gap: string)
    requires Exported(s)
    ensures Gap(gap) && gap != "" && s == "export" + (gap + StripLeft(s[6..]))
  {
    gap := StripLeftLeaves(s[6..]);
    assert s == s[..6] + s[6..] && s[6..][0] == s[6];
  }

  lemma ReadIsLine(line: string) returns (l: Layout)
    requires Assignment(line).Some?
    ensures Proper(l) && LineOf(l) == line && Assignment(line) == Some((l.name, l.value))
  {
    var indent := StripLeftLeaves(line);
    var s := StripLeft(line);
    if Exported(s) && Setting(StripLeft(s[6..])).Some? {
      var gap := ExportLeaves(s);
      l := ReadIsSetting(StripLeft(s[6..]));
      l := l.(indent := indent, exported := Some(gap));
    } else {
      l := ReadIsSetting(s);
      l := l.(indent := indent);
    }
  }

  // ----- the results

  /** ASSIGNMENT matches exactly the lines that are laid out as a setting, with that name and value. */
  lemma AssignmentIff(line: string, name: string, value: string)
    ensures Assignment(line) == Some((name, value)) <==> Sets(line, name, value)
  {
    if Assignment(line).Some? {
      var l := ReadIsLine(line);
      assert Sets(line, l.name, l.value);
    }
    if Sets(line, name, value) {
      var l :| Proper(l) && LineOf(l) == line && l.name == name && l.value == value;
      LineIsRead(l);
    }
  }

  /** A setting starts with a letter. */
  lemma SettingStart(line: string)
    requires Assignment(line).Some?
    ensures Strip(line) != "" && Letter(Strip(line)[0])
  {
    var s := StripLeft(line);
    NameCharIff(s[0]);
    assert StripRight(s) != "" by {
      StripRightBlank(s);
    }
  }

  lemma LegacyStart(s: string)
    requires s in LEGACY_LOADER_LINES
    ensures s != "" && s[0] == '['
  {
  }

  /** Markers and old loader lines start with something else. */
  lemma MarksAreOdd(s: string)
    requires s == MARK_BEGIN || s == MARK_END || s in LEGACY_LOADER_LINES
    ensures s != "" && !Letter(s[0])
  {
    assert MARK_BEGIN[0] == '#' && MARK_END[0] == '#';
    if s in LEGACY_LOADER_LINES {
      LegacyStart(s);
    }
  }

  lemma MarksAreNoSettings(line: string)
    requires Strip(line) == MARK_BEGIN || Strip(line) == MARK_END || Strip(line) in LEGACY_LOADER_LINES
    ensures Assignment(line).None?
  {
    MarksAreOdd(Strip(line));
    if Assignment(line).Some? {
      SettingStart(line);
    }
  }

  /** What the migration takes a setting for. */
  function KindOfSetting(key: string, raw: string, rules: Rules): Kind {
    if key in rules.migratable then Assign(key, rules.literal(raw))
    else if rules.credential(key) then Credential else Other(false)
  }

  lemma SettingKind(line: string, key: string, raw: string, rules: Rules)
    requires Sets(line, key, raw)
    ensures KindOf(line, rules) == KindOfSetting(key, raw, rules)
  {
    AssignmentIff(line, key, raw);
    if Strip(line) == MARK_BEGIN || Strip(line) == MARK_END || Strip(line) in LEGACY_LOADER_LINES {
      MarksAreNoSettings(line);
    } else {
      PlainKind(line, rules);
    }
  }

  /** A line that is a setting, and no marker or old loader line. */
  lemma PlainKind(line: string, rules: Rules)
    requires Strip(line) != MARK_BEGIN && Strip(line) != MARK_END && Strip(line) !in LEGACY_LOADER_LINES
    requires Assignment(line).Some?
    ensures KindOf(line, rules) == KindOfSetting(Assignment(line).value.0, Assignment(line).value.1, rules)
  {
  }

  lemma KindSets(line: string, rules: Rules)
    requires KindOf(line, rules).Assign? || KindOf(line, rules).Credential?
    ensures Assignment(line).Some? && Sets(line, Assignment(line).value.0, Assignment(line).value.1)
    ensures KindOf(line, rules) == KindOfSetting(Assignment(line).value.0, Assignment(line).value.1, rules)
  {
    AssignmentIff(line, Assignment(line).value.0, Assignment(line).value.1);
  }

  /** A line migrates exactly if it is a setting of one of the names that migrate, with the value the
      literal parser makes of its text. */
  lemma MigratedIff(line: string, key: string, value: Result<string>, rules: Rules)
    ensures KindOf(line, rules) == Assign(key, value) <==>
            key in rules.migratable && exists raw :: Sets(line, key, raw) && rules.literal(raw) == value
  {
    if KindOf(line, rules).Assign? {
      KindSets(line, rules);
    }
    forall raw | Sets(line, key, raw) ensures KindOf(line, rules) == KindOfSetting(key, raw, rules) {
      SettingKind(line, key, raw, rules);
    }
  }

  lemma CommentStart(line: string)
    requires Comment(line)
    ensures Strip(line) != "" && Strip(line)[0] == '#'
  {
    StripRightBlank(StripLeft(line));
  }

  lemma RemarkIsNoSetting(line: string)
    requires Comment(line)
    ensures Assignment(line).None?
  {
    CommentStart(line);
    if Assignment(line).Some? {
      SettingStart(line);
    }
  }

  lemma MarksAreTrimmed()
    ensures Trimmed(MARK_BEGIN) && Trimmed(MARK_END)
  {
  }

  /** A block starts and ends at the lines that are the two markers, apart from gaps. */
  lemma MarkersIff(line: string, rules: Rules)
    ensures KindOf(line, rules).Begin? <==> Around(line, "# >>> coding-system secrets >>>")
    ensures KindOf(line, rules).End? <==> Around(line, "# <<< coding-system secrets <<<")
  {
    MarksAreTrimmed();
    StripIff(line, MARK_BEGIN);
    StripIff(line, MARK_END);
  }

  /** The old loader lines, in pieces where they are long. */
  ghost predicate OldLoader(line: string) {
    || Around(line, "[ -f ~/.secrets.env ] && . ~/.secrets.env")
    || Around(line, "[ -f " + "\"$HOME/.secrets.env\" ] && . \"$HOME/.secrets.env\"")
    || Around(line, "[[ -f " + "\"$HOME/.secrets.env\" ]] && . \"$HOME/.secrets.env\"")
  }

  lemma LegacyIff(line: string, rules: Rules)
    ensures KindOf(line, rules).Legacy? <==> OldLoader(line)
  {
    forall s | s in LEGACY_LOADER_LINES ensures Strip(line) == s <==> Around(line, s) {
      LegacyEnds(s);
      StripIff(line, s);
    }
    if Strip(line) in LEGACY_LOADER_LINES {
      LegacyStart(Strip(line));
    }
  }

  lemma LegacyEnds(s: string)
    requires s in LEGACY_LOADER_LINES
    ensures Trimmed(s)
  {
    LegacyStart(s);
    assert s[|s| - 1] == 'v' || s[|s| - 1] == '"';
  }

  /** Line by line the same, but an allowlist line may be another one. */
  predicate SameLoader(lines: seq<string>, loader: seq<string>, allowlist: string -> bool) {
    if lines == [] || loader == [] then lines == [] && loader == []
    else
      && (if lines[0] == loader[0] then true else allowlist(lines[0]) && allowlist(loader[0]))
      && SameLoader(lines[1..], loader[1..], allowlist)
  }

  lemma {:induction false} SameLoaderIff(lines: seq<string>, loader: seq<string>, allowlist: string -> bool)
    ensures SameLoader(lines, loader, allowlist) <==>
            |lines| == |loader| && forall i :: 0 <= i < |lines| ==> lines[i] == loader[i] || (allowlist(lines[i]) && allowlist(loader[i]))
  {
    if lines != [] && loader != [] {
      SameLoaderIff(lines[1..], loader[1..], allowlist);
      if SameLoader(lines[1..], loader[1..], allowlist) {
        assert forall i :: 0 < i < |lines| ==> lines[i] == lines[1..][i - 1] && loader[i] == loader[1..][i - 1];
      }
    }
  }

  lemma LoaderIff(lines: seq<string>, rules: Rules)
    ensures IsLoader(lines, rules) <==> SameLoader(lines, rules.loader, rules.allowlist)
  {
    SameLoaderIff(lines, rules.loader, rules.allowlist);
  }

  /** The lines a migration stops at in the end: those that source the data file, remarks aside. */
  lemma SourcingIff(line: string, breaks: string, rules: Rules)
    requires Breaks(breaks) && !EndsInBreak(line)
    ensures Read(line + breaks, rules).sourcing <==> rules.sources(line) && !Remark(line)
    ensures Read(line + breaks, rules).kind == KindOf(line, rules)
  {
    BareOf(line, breaks);
    RemarkIff(line);
  }

  /** The lines a migration stops at: settings of other names that look like credentials. */
  lemma CredentialIff(line: string, rules: Rules)
    ensures KindOf(line, rules).Credential? <==>
            exists key, raw :: Sets(line, key, raw) && key !in rules.migratable && rules.credential(key)
  {
    if KindOf(line, rules).Credential? {
      KindSets(line, rules);
    }
    forall key, raw | Sets(line, key, raw) ensures KindOf(line, rules) == KindOfSetting(key, raw, rules) {
      SettingKind(line, key, raw, rules);
    }
  }

  /** The lines a block may hold beside settings and old loader lines: gaps, and remarks that are no marker. */
  lemma SkippableIff(line: string, rules: Rules)
    ensures KindOf(line, rules) == Other(true) <==>
            Gap(line) || (Remark(line) && !KindOf(line, rules).Begin? && !KindOf(line, rules).End?)
  {
    BlankIff(line);
    RemarkIff(line);
    if Blank(line) {
      BlankIsOther(line, rules);
    } else if Comment(line) {
      RemarkIsOther(line, rules);
    }
  }

  lemma RemarkIsOther(line: string, rules: Rules)
    requires Comment(line)
    ensures KindOf(line, rules) == Other(true) || KindOf(line, rules).Begin? || KindOf(line, rules).End?
  {
    RemarkIsNoSetting(line);
    RemarkIsNoLegacy(line);
  }

  lemma BlankIsOther(line: string, rules: Rules)
    requires Blank(line)
    ensures KindOf(line, rules) == Other(true)
  {
    if Strip(line) in LEGACY_LOADER_LINES {
      MarksAreOdd(Strip(line));
    }
    if Assignment(line).Some? {
      SettingStart(line);
    }
  }

  lemma RemarkIsNoLegacy(line: string)
    requires Comment(line)
    ensures Strip(line) !in LEGACY_LOADER_LINES
  {
    CommentStart(line);
    if Strip(line) in LEGACY_LOADER_LINES {
      LegacyStart(Strip(line));
    }
  }

  /** NAME=value sets NAME to the value. */
  lemma PlainSets(name: string, value: string)
    requires IsName(name) && Trimmed(value)
    ensures Sets(name + "=" + value, name, value)
  {
    var l := Layout("", None, name, "", "", value, "");
    assert ValueText(l) == value && SettingText(l) == name + "=" + value;
    assert LineOf(l) == name + "=" + value;
  }

  /** export NAME=value does so as well. */
  lemma ExportSets(name: string, value: string)
    requires IsName(name) && Trimmed(value)
    ensures Sets("export " + (name + "=" + value), name, value)
  {
    var l := Layout("", Some(" "), name, "", "", value, "");
    assert ValueText(l) == value && SettingText(l) == name + "=" + value;
    var text := name + "=" + value;
    assert "export" + (" " + text) == "export " + text;
    assert LineOf(l) == "export " + text;
  }
}
