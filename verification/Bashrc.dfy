/** Taking owner settings out of a bashrc and putting the loader block in their place. */
module Bashrc {
  import opened Wrappers
  import opened Text

  const MARK_BEGIN := "# >>> coding-system secrets >>>"
  const MARK_END := "# <<< coding-system secrets <<<"

  /** Old loaders that sourced the data file as shell. */
  const LEGACY_LOADER_LINES: set<string> := {
    "[ -f ~/.secrets.env ] && . ~/.secrets.env",
    "[ -f " + "\"$HOME/.secrets.env\" ] && . \"$HOME/.secrets.env\"",
    "[[ -f " + "\"$HOME/.secrets.env\" ]] && . \"$HOME/.secrets.env\""
  }

  /** The parts of the program that are values here: the names that migrate, the test for other names that
      look like credentials, the shell-literal parser, the search for lines that source the data file, the
      loader's lines, and the test for its allowlist line. */
  datatype Rules = Rules(
    migratable: set<string>,
    credential: string -> bool,
    literal: string -> Result<string>,
    sources: string -> bool,
    loader: seq<string>,
    allowlist: string -> bool)

  // ----- lines

  predicate NameStart(c: char) {
    'A' <= c <= 'Z' || 'a' <= c <= 'z' || c == '_'
  }

  predicate NameChar(c: char) {
    NameStart(c) || '0' <= c <= '9'
  }

  /** The length of the run of name characters a text starts with. */
  function NameLength(s: string): (n: nat)
    ensures n <= |s|
  {
    if s != "" && NameChar(s[0]) then 1 + NameLength(s[1..]) else 0
  }

  /** name = value, from the first character on */
  function Setting(s: string): Option<(string, string)> {
    var n := NameLength(s);
    var rest := StripLeft(s[n..]);
    if n > 0 && NameStart(s[0]) && rest != "" && rest[0] == '=' then Some((s[..n], Strip(rest[1..]))) else None
  }

  /** ASSIGNMENT: a setting, exported or not */
  function Assignment(line: string): Option<(string, string)> {
    var s := StripLeft(line);
    var exported := if StartsWith(s, "export") && |s| > 6 && IsSpace(s[6]) then Setting(StripLeft(s[6..])) else None;
    if exported.Some? then exported else Setting(s)
  }

  predicate Comment(line: string) {
    StartsWith(StripLeft(line), "#")
  }

  datatype Kind =
    | Begin
    | End
    | Legacy
    | Assign(key: string, value: Result<string>)
    | Credential
    | Other(skippable: bool)

  /** A line as the loops see it. */
  datatype Item = Item(line: string, kind: Kind, sourcing: bool)

  function KindOf(bare: string, rules: Rules): Kind {
    var s := Strip(bare);
    if s == MARK_BEGIN then Begin
    else if s == MARK_END then End
    else if s in LEGACY_LOADER_LINES then Legacy
    else
      var setting := Assignment(bare);
      if setting.None? then Other(Blank(bare) || Comment(bare))
      else if setting.value.0 in rules.migratable then Assign(setting.value.0, rules.literal(setting.value.1))
      else if rules.credential(setting.value.0) then Credential
      else Other(false)
  }

  function Read(line: string, rules: Rules): Item {
    var bare := Bare(line);
    Item(line, KindOf(bare, rules), !Comment(bare) && rules.sources(bare))
  }

  function Reader(rules: Rules): string -> Item {
    line => Read(line, rules)
  }

  function ReadAll(lines: seq<string>, read: string -> Item): seq<Item> {
    seq(|lines|, i requires 0 <= i < |lines| => read(lines[i]))
  }

  function LinesOf(items: seq<Item>): seq<string> {
    seq(|items|, i requires 0 <= i < |items| => items[i].line)
  }

  // ----- collecting

  type Values = map<string, string>

  /** _merge */
  function Merge(values: Values, key: string, value: string): Result<Values> {
    if key in values && values[key] != value then Raise else Ok(values[key := value])
  }

  function MergeItem(values: Values, item: Item): Result<Values>
    requires item.kind.Assign?
  {
    var value :- item.kind.value;
    Merge(values, item.kind.key, value)
  }

  /** _is_managed_loader: the loader's lines, or with another allowlist */
  predicate IsLoader(lines: seq<string>, rules: Rules) {
    && |lines| == |rules.loader|
    && forall i :: 0 <= i < |lines| ==>
         lines[i] == rules.loader[i] || (rules.allowlist(lines[i]) && rules.allowlist(rules.loader[i]))
  }

  /** The body of the loop of _collect_managed_lines */
  function CollectItem(values: Values, item: Item): Result<Values> {
    match item.kind
    case Legacy => Ok(values)
    case Assign(_, _) => MergeItem(values, item)
    case Other(skippable) => if skippable then Ok(values) else Raise
    case _ => Raise
  }

  /** The loop */
  function CollectLines(items: seq<Item>, values: Values): Result<Values> {
    if items == [] then Ok(values)
    else
      var before :- CollectLines(items[..|items| - 1], values);
      CollectItem(before, items[|items| - 1])
  }

  function Collect(items: seq<Item>, values: Values, rules: Rules): Result<Values> {
    if IsLoader(LinesOf(items), rules) then Ok(values) else CollectLines(items, values)
  }

  // ----- the scan

  /** The loop variables of _migrate_bashrc. The managed lines of all blocks pile up. */
  datatype Scan = Scan(output: seq<Item>, insertion: Option<nat>, inside: bool, managed: seq<Item>, collected: Values)

  predicate Bounded(st: Scan) {
    st.insertion.Some? ==> st.insertion.value <= |st.output|
  }

  /** Where the loader goes: the first block or migrated setting, or the end. */
  function Insertion(st: Scan): nat {
    if st.insertion.Some? then st.insertion.value else |st.output|
  }

  function Step(st: Scan, item: Item, rules: Rules): (r: Result<Scan>)
    ensures Bounded(st) && r.Ok? ==> Bounded(r.value)
  {
    if item.kind.Begin? then
      if st.inside then Raise else Ok(st.(inside := true, insertion := Some(Insertion(st))))
    else if item.kind.End? then
      if !st.inside then Raise
      else
        var collected :- Collect(st.managed, st.collected, rules);
        Ok(st.(inside := false, collected := collected))
    else if st.inside then Ok(st.(managed := st.managed + [item]))
    else if item.kind.Legacy? then Ok(st)
    else if item.kind.Assign? then
      var collected :- MergeItem(st.collected, item);
      Ok(st.(collected := collected, insertion := Some(Insertion(st))))
    else if item.kind.Credential? then Raise
    else Ok(st.(output := st.output + [item]))
  }

  function ScanItems(st: Scan, items: seq<Item>, rules: Rules): (r: Result<Scan>)
    ensures Bounded(st) && r.Ok? ==> Bounded(r.value)
  {
    if items == [] then Ok(st)
    else
      var before :- ScanItems(st, items[..|items| - 1], rules);
      Step(before, items[|items| - 1], rules)
  }

  function Start(collected: Values): Scan {
    Scan([], None, false, [], collected)
  }

  // ----- the result

  /** The last line gets its break. */
  function Ended(lines: seq<string>): seq<string> {
    if lines != [] && !EndsWith(lines[|lines| - 1], "\n")
    then lines[..|lines| - 1] + [lines[|lines| - 1] + "\n"] else lines
  }

  function LoaderBlock(rules: Rules): seq<string> {
    [MARK_BEGIN + "\n"] + rules.loader + [MARK_END + "\n"]
  }

  function Assembled(lines: seq<string>, insertion: nat, rules: Rules): seq<string>
    requires insertion <= |lines|
  {
    lines[..insertion] + LoaderBlock(rules) + lines[insertion..]
  }

  predicate Finished(st: Scan) {
    !st.inside && forall item :: item in st.output ==> !item.sourcing
  }

  /** The lines of the new text, and the values collected */
  function Finish(st: Scan, rules: Rules): Result<(seq<string>, Values)>
    requires Bounded(st)
  {
    if !Finished(st) then Raise
    else Ok((Assembled(Ended(LinesOf(st.output)), Insertion(st), rules), st.collected))
  }

  function MigrateItems(items: seq<Item>, collected: Values, rules: Rules): Result<(seq<string>, Values)> {
    var st :- ScanItems(Start(collected), items, rules);
    Finish(st, rules)
  }

  /** _migrate_bashrc: the new text, and the values collected so far */
  function Migrate(text: string, collected: Values, rules: Rules): Result<(string, Values)> {
    var done :- MigrateItems(ReadAll(Lines(text), Reader(rules)), collected, rules);
    Ok((Join(done.0), done.1))
  }

  // ----- the program

  /** _collect_managed_lines */
  method CollectManagedLines(items: seq<Item>, values: Values, rules: Rules) returns (r: Result<Values>)
    ensures r == Collect(items, values, rules)
  {
    if IsLoader(LinesOf(items), rules) {
      return Ok(values);
    }
    var collected := values;
    var i := 0;
    while i < |items|
      invariant 0 <= i <= |items| && CollectLines(items[..i], values) == Ok(collected)
    {
      CollectSnoc(items, i, values);
      match items[i].kind {
        case Legacy =>
        case Other(true) =>
        case Assign(_, _) =>
          var merged := MergeItem(collected, items[i]);
          if merged.Raise? {
            CollectRaises(items, i + 1, values);
            return Raise;
          }
          collected := merged.value;
        case _ =>
          CollectRaises(items, i + 1, values);
          return Raise;
      }
      i := i + 1;
    }
    assert items[..i] == items;
    r := Ok(collected);
  }

  lemma CollectSnoc(items: seq<Item>, i: nat, values: Values)
    requires i < |items| && CollectLines(items[..i], values).Ok?
    ensures CollectLines(items[..i + 1], values) == CollectItem(CollectLines(items[..i], values).value, items[i])
  {
    assert items[..i + 1][..i] == items[..i];
  }

  lemma {:induction false} CollectRaises(items: seq<Item>, i: nat, values: Values)
    requires i <= |items| && CollectLines(items[..i], values).Raise?
    ensures CollectLines(items, values).Raise?
  {
    if i < |items| {
      assert items[..|items| - 1][..i] == items[..i];
      CollectRaises(items[..|items| - 1], i, values);
    } else {
      assert items[..i] == items;
    }
  }

  /** _migrate_bashrc, on the text of a file that is UTF-8 */
  method MigrateBashrc(text: string, collected: Values, rules: Rules) returns (r: Result<(string, Values)>)
    ensures r == Migrate(text, collected, rules)
  {
    var scanned := ScanLines(Lines(text), collected, rules);
    if scanned.Raise? {
      return Raise;
    }
    var finished := FinishText(scanned.value, rules);
    r := if finished.Ok? then Ok((Join(finished.value.0), finished.value.1)) else Raise;
  }

  /** The checks after the loop. */
  method FinishText(st: Scan, rules: Rules) returns (r: Result<(seq<string>, Values)>)
    requires Bounded(st)
    ensures r == Finish(st, rules)
  {
    if st.inside {
      return Raise;
    }
    var i := 0;
    while i < |st.output|
      invariant 0 <= i <= |st.output| && forall j :: 0 <= j < i ==> !st.output[j].sourcing
    {
      if st.output[i].sourcing {
        return Raise;
      }
      i := i + 1;
    }
    r := Ok((Assembled(Ended(LinesOf(st.output)), Insertion(st), rules), st.collected));
  }

  /** The loop over the lines. */
  method ScanLines(lines: seq<string>, collected: Values, rules: Rules) returns (r: Result<Scan>)
    ensures r == ScanItems(Start(collected), ReadAll(lines, Reader(rules)), rules)
  {
    ghost var items := ReadAll(lines, Reader(rules));
    var st := Start(collected);
    var i := 0;
    while i < |lines|
      invariant 0 <= i <= |lines| && ScanItems(Start(collected), items[..i], rules) == Ok(st)
    {
      var next := ScanLine(st, lines[i], rules);
      assert items[..i + 1][..i] == items[..i] && items[i] == Read(lines[i], rules);
      if next.Raise? {
        ScanRaises(Start(collected), items, i + 1, rules);
        return Raise;
      }
      st := next.value;
      i := i + 1;
    }
    assert items[..i] == items;
    r := Ok(st);
  }

  /** The body of the loop. */
  method ScanLine(st: Scan, line: string, rules: Rules) returns (r: Result<Scan>)
    ensures r == Step(st, Read(line, rules), rules)
  {
    var item := Read(line, rules);
    if item.kind.Begin? {
      if st.inside {
        return Raise;
      }
      return Ok(st.(inside := true, insertion := Some(Insertion(st))));
    }
    if item.kind.End? {
      if !st.inside {
        return Raise;
      }
      var collected := CollectManagedLines(st.managed, st.collected, rules);
      return if collected.Ok? then Ok(st.(inside := false, collected := collected.value)) else Raise;
    }
    if st.inside {
      return Ok(st.(managed := st.managed + [item]));
    }
    match item.kind {
      case Legacy =>
        return Ok(st);
      case Assign(_, _) =>
        var merged := MergeItem(st.collected, item);
        return if merged.Ok? then Ok(st.(collected := merged.value, insertion := Some(Insertion(st)))) else Raise;
      case Credential =>
        return Raise;
      case _ =>
        return Ok(st.(output := st.output + [item]));
    }
  }

  lemma {:induction false} ScanRaises(st: Scan, items: seq<Item>, i: nat, rules: Rules)
    requires i <= |items| && ScanItems(st, items[..i], rules).Raise?
    ensures ScanItems(st, items, rules).Raise?
  {
    if i < |items| {
      assert items[..|items| - 1][..i] == items[..i];
      ScanRaises(st, items[..|items| - 1], i, rules);
    } else {
      assert items[..i] == items;
    }
  }
}
