/** The strict KEY=value format: its printer and its two parsers. */
module EnvFile {
  import opened Wrappers
  import opened Text

  type Values = map<string, string>

  // ----- keys and values

  /** ENV_KEY: ^[A-Z][A-Z0-9_]*$ */
  predicate EnvKey(key: string) {
    key != "" && 'A' <= key[0] <= 'Z' && forall c :: c in key ==> 'A' <= c <= 'Z' || '0' <= c <= '9' || c == '_'
  }

  predicate Control(c: char) {
    c as int < 0x20 || c as int == 0x7F
  }

  /** Not empty, trimmed, and free of control characters. */
  predicate GoodValue(value: string) {
    value != "" && Strip(value) == value && forall c :: c in value ==> !Control(c)
  }

  // ----- parsing

  /** The position of the first equals sign, or the length. */
  function EqualsAt(s: string): (i: nat)
    ensures i <= |s| && '=' !in s[..i] && (i < |s| ==> s[i] == '=')
  {
    if s == "" || s[0] == '=' then 0 else 1 + EqualsAt(s[1..])
  }

  /** What a line says, apart from whether its key is acceptable. */
  datatype Entry = Skip | Invalid | Entry(key: string, value: string)

  function EntryOf(raw: string): Entry {
    var line := Strip(raw);
    if line == "" || StartsWith(line, "#") then Skip
    else if raw != line then Invalid
    else
      var i := EqualsAt(line);
      if i == |line| || !GoodValue(line[i + 1..]) then Invalid else Entry(line[..i], line[i + 1..])
  }

  function Reader(): string -> Entry {
    raw => EntryOf(raw)
  }

  function Mapped(lines: seq<string>, read: string -> Entry): seq<Entry> {
    seq(|lines|, i requires 0 <= i < |lines| => read(lines[i]))
  }

  function EntriesOf(lines: seq<string>): seq<Entry> {
    Mapped(lines, Reader())
  }

  /** The values of the entries, if every key is acceptable and none comes twice. */
  function Gather(entries: seq<Entry>, accepts: string -> bool): Result<Values> {
    if entries == [] then Ok(map[])
    else
      var n := |entries| - 1;
      var before :- Gather(entries[..n], accepts);
      match entries[n]
      case Skip => Ok(before)
      case Invalid => Raise
      case Entry(key, value) => if !accepts(key) || key in before then Raise else Ok(before[key := value])
  }

  /** _read_env_authority, on the text of a file that is UTF-8 */
  function ReadAuthority(text: string, allowed: set<string>): Result<Values> {
    Gather(EntriesOf(SplitLines(text)), key => key in allowed)
  }

  /** _parse_strict_env, the verifier's own parser */
  function ParseStrict(text: string, allowed: set<string>): Result<Values> {
    Gather(EntriesOf(SplitLines(text)), key => EnvKey(key) && key in allowed)
  }

  /** What a text says, whatever the keys. */
  function ReadAny(text: string): Result<Values> {
    Gather(EntriesOf(SplitLines(text)), key => true)
  }

  /** The program's loop over the lines, for either parser. */
  method GatherLines(lines: seq<string>, read: string -> Entry, accepts: string -> bool) returns (r: Result<Values>)
    ensures r == Gather(Mapped(lines, read), accepts)
  {
    ghost var entries := Mapped(lines, read);
    var values: Values := map[];
    var i := 0;
    while i < |lines|
      invariant 0 <= i <= |lines| && Gather(entries[..i], accepts) == Ok(values)
    {
      var entry := read(lines[i]);
      assert entries[..i + 1][..i] == entries[..i] && entries[i] == entry;
      match entry {
        case Skip =>
        case Invalid =>
          GatherRaises(entries, i + 1, accepts);
          return Raise;
        case Entry(key, value) =>
          if !accepts(key) || key in values {
            GatherRaises(entries, i + 1, accepts);
            return Raise;
          }
          values := values[key := value];
      }
      i := i + 1;
    }
    assert entries[..i] == entries;
    r := Ok(values);
  }

  lemma {:induction false} GatherRaises(entries: seq<Entry>, i: nat, accepts: string -> bool)
    requires i <= |entries| && Gather(entries[..i], accepts).Raise?
    ensures Gather(entries, accepts).Raise?
  {
    if i < |entries| {
      assert entries[..|entries| - 1][..i] == entries[..i];
      GatherRaises(entries[..|entries| - 1], i, accepts);
    } else {
      assert entries[..i] == entries;
    }
  }

  // ----- printing

  function KeyLines(values: Values, keys: seq<string>): seq<string> {
    if keys == [] then []
    else
      var n := |keys| - 1;
      KeyLines(values, keys[..n]) + if keys[n] in values then [keys[n] + "=" + values[keys[n]]] else []
  }

  function Header(name: string): string {
    "# coding-system managed " + name + "; strict KEY=value format"
  }

  /** _env_payload */
  function Payload(values: Values, keys: seq<string>, name: string): string {
    Terminate([Header(name)] + KeyLines(values, keys))
  }

  // ----- the parsers agree

  /** The allowed keys only decide whether there is a result. */
  lemma {:induction false} GatherByKeys(entries: seq<Entry>, allowed: set<string>)
    ensures Gather(entries, key => key in allowed) ==
            if Gather(entries, key => true).Ok? && Gather(entries, key => true).value.Keys <= allowed
            then Gather(entries, key => true) else Raise
  {
    if entries != [] {
      GatherByKeys(entries[..|entries| - 1], allowed);
    }
  }

  lemma ReadByKeys(text: string, allowed: set<string>)
    ensures ReadAuthority(text, allowed) ==
            if ReadAny(text).Ok? && ReadAny(text).value.Keys <= allowed then ReadAny(text) else Raise
  {
    GatherByKeys(EntriesOf(SplitLines(text)), allowed);
  }

  lemma {:induction false} GatherNamed(entries: seq<Entry>, allowed: set<string>)
    ensures Gather(entries, key => EnvKey(key) && key in allowed) ==
            if Gather(entries, key => key in allowed).Ok? && AllNames(Gather(entries, key => key in allowed).value)
            then Gather(entries, key => key in allowed) else Raise
  {
    if entries != [] {
      GatherNamed(entries[..|entries| - 1], allowed);
    }
  }

  /** Every key has the form of an environment name. */
  predicate AllNames(values: Values) {
    forall k :: k in values ==> EnvKey(k)
  }

  /** The materializer's parser and the verifier's differ exactly on a text that the materializer accepts
      although it assigns an allowed key that is no environment name; with allowed keys that all are
      environment names they give the same result on every text. */
  lemma ParsersAgree(text: string, allowed: set<string>)
    ensures ReadAuthority(text, allowed) == ParseStrict(text, allowed) <==>
            (ReadAny(text).Ok? && ReadAny(text).value.Keys <= allowed ==> AllNames(ReadAny(text).value))
    ensures (forall key :: key in allowed ==> EnvKey(key)) ==> ReadAuthority(text, allowed) == ParseStrict(text, allowed)
  {
    GatherNamed(EntriesOf(SplitLines(text)), allowed);
    ReadByKeys(text, allowed);
  }

  // ----- what is printed is read back

  lemma {:induction false} GatheredIsGood(entries: seq<Entry>, accepts: string -> bool)
    requires Gather(entries, accepts).Ok?
    requires forall e :: e in entries && e.Entry? ==> GoodValue(e.value)
    ensures forall k :: k in Gather(entries, accepts).value ==> GoodValue(Gather(entries, accepts).value[k])
  {
    if entries != [] {
      GatheredIsGood(entries[..|entries| - 1], accepts);
    }
  }

  /** Whatever is read is trimmed, not empty and free of control characters. */
  lemma ReadIsGood(text: string, allowed: set<string>)
    requires ReadAuthority(text, allowed).Ok?
    ensures forall k :: k in ReadAuthority(text, allowed).value ==> GoodValue(ReadAuthority(text, allowed).value[k])
  {
    GatheredIsGood(EntriesOf(SplitLines(text)), key => key in allowed);
  }

  lemma {:induction false} EqualsAfterKey(key: string, value: string)
    requires '=' !in key
    ensures EqualsAt(key + "=" + value) == |key|
  {
    if key != "" {
      EqualsAfterKey(key[1..], value);
      assert (key + "=" + value)[1..] == key[1..] + "=" + value;
    }
  }

  lemma StripNothing(s: string)
    requires s != "" && !IsSpace(s[0]) && !IsSpace(s[|s| - 1])
    ensures Strip(s) == s
  {
  }

  lemma TrimmedEnds(s: string)
    requires s != "" && Strip(s) == s
    ensures !IsSpace(s[0]) && !IsSpace(s[|s| - 1])
  {
    assert |StripLeft(s)| <= |s| && StripRight(StripLeft(s)) <= StripLeft(s);
    assert StripLeft(s) == s;
  }

  /** A printed line is read as its key and value. */
  lemma LineIsEntry(key: string, value: string)
    requires EnvKey(key) && GoodValue(value)
    ensures EntryOf(key + "=" + value) == Entry(key, value) && Unbroken(key + "=" + value)
  {
    var line := key + "=" + value;
    TrimmedEnds(value);
    assert key[0] in key && line[0] == key[0] && line[|line| - 1] == value[|value| - 1];
    StripNothing(line);
    EqualsAfterKey(key, value);
    assert line[..|key|] == key && line[|key| + 1..] == value;
    assert !StartsWith(line, "#") by {
      assert line[..1][0] == line[0];
    }
    forall i | 0 <= i < |line| ensures line[i] != '\n' {
      assert i < |key| ==> line[i] == key[i] && key[i] in key;
      assert i > |key| ==> line[i] == value[i - |key| - 1] && value[i - |key| - 1] in value;
    }
  }

  lemma HeaderIsSkipped(name: string)
    requires Unbroken(name)
    ensures EntryOf(Header(name)) == Skip && Unbroken(Header(name))
  {
    var h := Header(name);
    assert h[0] == '#' && h[|h| - 1] == 't';
    StripNothing(h);
    assert h[..1] == "#";
    assert Unbroken("# coding-system managed ") && Unbroken("; strict KEY=value format");
  }

  function Restricted(values: Values, keys: seq<string>): Values {
    map k | k in values && k in keys :: values[k]
  }

  ghost predicate Distinct(keys: seq<string>) {
    forall i, j :: 0 <= i < j < |keys| ==> keys[i] != keys[j]
  }

  lemma GatherLast(entries: seq<Entry>, key: string, value: string, accepts: string -> bool)
    requires Gather(entries, accepts).Ok? && accepts(key) && key !in Gather(entries, accepts).value
    ensures Gather(entries + [Entry(key, value)], accepts) == Ok(Gather(entries, accepts).value[key := value])
  {
    assert (entries + [Entry(key, value)])[..|entries|] == entries;
  }

  /** Every printed line is read as its key and value. */
  ghost predicate LinesReadBack(values: Values, keys: seq<string>, read: string -> Entry) {
    forall k :: k in values && k in keys ==>
      read(k + "=" + values[k]) == Entry(k, values[k]) && Unbroken(k + "=" + values[k])
  }

  lemma RestrictedLast(values: Values, keys: seq<string>)
    requires keys != []
    ensures var n := |keys| - 1;
      Restricted(values, keys) ==
      if keys[n] in values then Restricted(values, keys[..n])[keys[n] := values[keys[n]]] else Restricted(values, keys[..n])
  {
    assert keys == keys[..|keys| - 1] + [keys[|keys| - 1]];
  }

  lemma {:induction false} KeyLinesAreRead(values: Values, keys: seq<string>, read: string -> Entry)
    requires Distinct(keys) && LinesReadBack(values, keys, read)
    ensures Gather(Mapped(KeyLines(values, keys), read), key => true) == Ok(Restricted(values, keys))
    ensures forall l :: l in KeyLines(values, keys) ==> Unbroken(l)
  {
    if keys == [] {
      assert Restricted(values, keys) == map[];
    } else {
      var n := |keys| - 1;
      var key := keys[n];
      KeyLinesAreRead(values, keys[..n], read);
      assert key !in keys[..n];
      var before, after := KeyLines(values, keys[..n]), KeyLines(values, keys);
      if key in values {
        assert after == before + [key + "=" + values[key]];
        assert Mapped(after, read) == Mapped(before, read) + [Entry(key, values[key])];
        GatherLast(Mapped(before, read), key, values[key], key => true);
      } else {
        assert after == before;
      }
      RestrictedLast(values, keys);
    }
  }

  lemma {:induction false} SkipFirst(entries: seq<Entry>, accepts: string -> bool)
    ensures Gather([Skip] + entries, accepts) == Gather(entries, accepts)
  {
    if entries == [] {
      assert [Skip] + entries == [Skip] && [Skip][..0] == [];
    } else {
      var n := |entries| - 1;
      assert ([Skip] + entries)[..n + 1] == [Skip] + entries[..n];
      SkipFirst(entries[..n], accepts);
    }
  }

  lemma LinesAreEntries(values: Values, keys: seq<string>)
    requires Distinct(keys) && (forall k :: k in keys ==> EnvKey(k))
    requires forall k :: k in values && k in keys ==> GoodValue(values[k])
    ensures forall k :: k in values && k in keys ==>
              Reader()(k + "=" + values[k]) == Entry(k, values[k]) && Unbroken(k + "=" + values[k])
  {
    forall k | k in values && k in keys
      ensures Reader()(k + "=" + values[k]) == Entry(k, values[k]) && Unbroken(k + "=" + values[k])
    {
      LineIsEntry(k, values[k]);
    }
  }

  lemma MappedAppend(a: string, lines: seq<string>, read: string -> Entry)
    ensures Mapped([a] + lines, read) == [read(a)] + Mapped(lines, read)
  {
  }

  /** What a printed header and printed lines are read as. */
  lemma PrintedIsRead(header: string, lines: seq<string>, values: Values, read: string -> Entry, accepts: string -> bool)
    requires read(header) == Skip && Gather(Mapped(lines, read), accepts) == Ok(values)
    ensures Gather(Mapped([header] + lines, read), accepts) == Ok(values)
  {
    MappedAppend(header, lines, read);
    SkipFirst(Mapped(lines, read), accepts);
  }

  lemma PayloadIsRead(values: Values, keys: seq<string>, name: string)
    requires Distinct(keys) && (forall k :: k in keys ==> EnvKey(k)) && Unbroken(name)
    requires forall k :: k in values && k in keys ==> GoodValue(values[k])
    ensures ReadAny(Payload(values, keys, name)) == Ok(Restricted(values, keys))
  {
    var lines := KeyLines(values, keys);
    LinesAreEntries(values, keys);
    KeyLinesAreRead(values, keys, Reader());
    HeaderIsSkipped(name);
    LinesOfTerminate([Header(name)] + lines);
    PrintedIsRead(Header(name), lines, Restricted(values, keys), Reader(), key => true);
  }

  /** Printing values and reading them back gives the same values, exactly if every one of them is
      trimmed, not empty and free of control characters. */
  lemma RoundTripIff(values: Values, keys: seq<string>, name: string)
    requires Distinct(keys) && (forall k :: k in keys ==> EnvKey(k)) && Unbroken(name)
    requires forall k :: k in values ==> k in keys
    ensures ReadAuthority(Payload(values, keys, name), set k | k in keys) == Ok(values) <==>
            forall k :: k in values ==> GoodValue(values[k])
  {
    var allowed := set k | k in keys;
    var text := Payload(values, keys, name);
    if forall k :: k in values ==> GoodValue(values[k]) {
      PayloadIsRead(values, keys, name);
      ReadByKeys(text, allowed);
      assert Restricted(values, keys) == values;
    }
    if ReadAuthority(text, allowed) == Ok(values) {
      ReadIsGood(text, allowed);
    }
  }

  // ----- a file by what it says

  /** An environment file as its readers see it. */
  datatype Env = Absent | Broken | Held(values: Values)

  function EnvOf(text: string): Env {
    match ReadAny(text)
    case Ok(values) => Held(values)
    case Raise => Broken
  }

  /** Reading with a list of allowed keys. */
  function ReadKeys(env: Env, allowed: set<string>): Result<Values> {
    match env
    case Absent => Ok(map[])
    case Broken => Raise
    case Held(values) => if values.Keys <= allowed then Ok(values) else Raise
  }

  /** Reading a text is reading what it says; and a printed authority says exactly its values. */
  lemma EnvOfText(text: string, allowed: set<string>)
    ensures ReadAuthority(text, allowed) == ReadKeys(EnvOf(text), allowed)
  {
    ReadByKeys(text, allowed);
  }

  lemma EnvOfPayload(values: Values, keys: seq<string>, name: string)
    requires Distinct(keys) && (forall k :: k in keys ==> EnvKey(k)) && Unbroken(name)
    requires forall k :: k in values ==> k in keys && GoodValue(values[k])
    ensures EnvOf(Payload(values, keys, name)) == Held(values)
  {
    PayloadIsRead(values, keys, name);
    assert Restricted(values, keys) == values;
  }
}
