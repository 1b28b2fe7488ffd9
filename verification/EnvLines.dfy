/** What a strict environment file says, line by line. */
module EnvLines {
  import opened Text
  import opened Stripping
  import opened EnvFile

  /** One trimmed line of text without control characters. */
  predicate Plain(value: string) {
    value != "" && Trimmed(value) && forall c :: c in value ==> 32 <= c as int && c as int != 127
  }

  lemma GoodIff(value: string)
    ensures GoodValue(value) <==> Plain(value)
  {
    TrimmedIff(value);
  }

  /** A capital letter, then capital letters, digits and underscores. */
  predicate Name(key: string) {
    && |key| > 0 && 65 <= key[0] as int <= 90
    && forall c :: c in key ==> 65 <= c as int <= 90 || 48 <= c as int <= 57 || c as int == 95
  }

  lemma EnvKeyIff(key: string)
    ensures EnvKey(key) <==> Name(key)
  {
  }

  /** The line is key=value, and nothing else. */
  ghost predicate Assigns(line: string, key: string, value: string) {
    line == key + "=" + value && '=' !in key && Plain(value) && !IsSpace(line[0]) && line[0] != '#'
  }

  /** The line says nothing. */
  ghost predicate Ignored(line: string) {
    Gap(line) || Remark(line)
  }

  lemma SkipIff(raw: string)
    ensures EntryOf(raw).Skip? <==> Ignored(raw)
  {
    BlankIff(raw);
    RemarkIff(raw);
  }

  lemma AssignedIsRead(line: string, key: string, value: string)
    requires Assigns(line, key, value)
    ensures EntryOf(line) == Entry(key, value)
  {
    GoodIff(value);
    TrimmedIff(line);
    EqualsAfterKey(key, value);
    assert line[|key| + 1..] == value && line[..|key|] == key;
  }

  lemma ReadIsAssigned(line: string)
    requires EntryOf(line).Entry?
    ensures Assigns(line, EntryOf(line).key, EntryOf(line).value)
  {
    var i := EqualsAt(line);
    TrimmedIff(line);
    GoodIff(line[i + 1..]);
    assert line == line[..i] + "=" + line[i + 1..];
  }

  /** A line gives a value to a key exactly if it is laid out as that assignment. */
  lemma EntryIff(line: string, key: string, value: string)
    ensures EntryOf(line) == Entry(key, value) <==> Assigns(line, key, value)
  {
    if EntryOf(line) == Entry(key, value) {
      ReadIsAssigned(line);
    }
    if Assigns(line, key, value) {
      AssignedIsRead(line, key, value);
    }
  }

  // ----- a whole file

  /** Every entry is one and has an acceptable key, and no key comes twice. */
  ghost predicate Sound(entries: seq<Entry>, accepts: string -> bool) {
    && (forall e :: e in entries ==> !e.Invalid? && (e.Entry? ==> accepts(e.key)))
    && forall i, j :: 0 <= i < j < |entries| && entries[i].Entry? && entries[j].Entry? ==> entries[i].key != entries[j].key
  }

  /** The values are what the entries say. */
  ghost predicate Said(entries: seq<Entry>, values: Values) {
    forall k, v :: (k in values && values[k] == v) <==> Entry(k, v) in entries
  }

  lemma SoundLast(entries: seq<Entry>, accepts: string -> bool, values: Values)
    requires entries != []
    requires var init := entries[..|entries| - 1]; Sound(init, accepts) ==> Said(init, values)
    ensures Sound(entries, accepts) <==>
            var last := entries[|entries| - 1];
            && Sound(entries[..|entries| - 1], accepts) && !last.Invalid?
            && (last.Entry? ==> accepts(last.key) && last.key !in values)
  {
    var n := |entries| - 1;
    var init, last := entries[..n], entries[n];
    assert entries == init + [last] && forall i :: 0 <= i < n ==> entries[i] == init[i];
    if Sound(entries, accepts) {
      assert last in entries;
      assert Sound(init, accepts);
      assert forall k :: k in values ==> Entry(k, values[k]) in init;
    } else if Sound(init, accepts) && !last.Invalid? && (last.Entry? ==> accepts(last.key) && last.key !in values) {
      forall i, j | 0 <= i < j < |entries| && entries[i].Entry? && entries[j].Entry? ensures entries[i].key != entries[j].key {
        assert entries[i] == init[i];
        assert entries[i] in init && entries[i] == Entry(entries[i].key, entries[i].value);
        if j < n {
          assert entries[j] == init[j];
        }
      }
    }
  }

  lemma SaidLast(entries: seq<Entry>, values: Values)
    requires entries != [] && Said(entries[..|entries| - 1], values)
    requires var last := entries[|entries| - 1]; last.Entry? ==> last.key !in values
    ensures var last := entries[|entries| - 1]; !last.Invalid? ==>
              Said(entries, if last.Entry? then values[last.key := last.value] else values)
  {
    var n := |entries| - 1;
    assert entries == entries[..n] + [entries[n]];
  }

  lemma {:induction false} GatherIff(entries: seq<Entry>, accepts: string -> bool)
    ensures Gather(entries, accepts).Ok? <==> Sound(entries, accepts)
    ensures Gather(entries, accepts).Ok? ==> Said(entries, Gather(entries, accepts).value)
  {
    if entries != [] {
      var n := |entries| - 1;
      GatherIff(entries[..n], accepts);
      var before := if Gather(entries[..n], accepts).Ok? then Gather(entries[..n], accepts).value else map[];
      SoundLast(entries, accepts, before);
      if Gather(entries, accepts).Ok? {
        SaidLast(entries, before);
      }
    }
  }

  // ----- in terms of the lines

  /** Every line is ignored or assigns an allowed key, and no key is assigned twice. */
  ghost predicate WellFormed(lines: seq<string>, allowed: set<string>) {
    && (forall line :: line in lines ==> Ignored(line) || exists k, v :: k in allowed && Assigns(line, k, v))
    && forall i, j, k, v, w :: 0 <= i < j < |lines| && Assigns(lines[i], k, v) ==> !Assigns(lines[j], k, w)
  }

  /** Some line gives the key this value. */
  ghost predicate Given(lines: seq<string>, k: string, v: string) {
    exists line :: line in lines && Assigns(line, k, v)
  }

  lemma EntryAt(lines: seq<string>, i: nat)
    requires i < |lines|
    ensures |EntriesOf(lines)| == |lines| && EntriesOf(lines)[i] == EntryOf(lines[i])
  {
  }

  lemma GivenIff(lines: seq<string>, k: string, v: string)
    ensures Entry(k, v) in EntriesOf(lines) <==> Given(lines, k, v)
  {
    var entries := EntriesOf(lines);
    if Entry(k, v) in entries {
      var i :| 0 <= i < |entries| && entries[i] == Entry(k, v);
      EntryIff(lines[i], k, v);
      assert lines[i] in lines;
    }
    if Given(lines, k, v) {
      var i :| 0 <= i < |lines| && Assigns(lines[i], k, v);
      EntryIff(lines[i], k, v);
      assert entries[i] == Entry(k, v);
    }
  }

  lemma LineIff(line: string, allowed: set<string>)
    ensures !EntryOf(line).Invalid? && (EntryOf(line).Entry? ==> EntryOf(line).key in allowed) <==>
            Ignored(line) || exists k, v :: k in allowed && Assigns(line, k, v)
  {
    SkipIff(line);
    if EntryOf(line).Entry? {
      ReadIsAssigned(line);
    }
    forall k, v | Assigns(line, k, v) ensures EntryOf(line) == Entry(k, v) {
      AssignedIsRead(line, k, v);
    }
  }

  lemma WellFormedIff(lines: seq<string>, allowed: set<string>)
    ensures Sound(EntriesOf(lines), key => key in allowed) <==> WellFormed(lines, allowed)
  {
    var entries := EntriesOf(lines);
    forall i | 0 <= i < |lines| ensures entries[i] == EntryOf(lines[i]) {
      EntryAt(lines, i);
    }
    forall line ensures !EntryOf(line).Invalid? && (EntryOf(line).Entry? ==> EntryOf(line).key in allowed) <==>
                        Ignored(line) || exists k, v :: k in allowed && Assigns(line, k, v) {
      LineIff(line, allowed);
    }
    forall line, k, v ensures Assigns(line, k, v) <==> EntryOf(line) == Entry(k, v) {
      EntryIff(line, k, v);
    }
    SoundIsWellFormed(lines, allowed);
    WellFormedIsSound(lines, allowed);
  }

  lemma SoundIsWellFormed(lines: seq<string>, allowed: set<string>)
    requires forall line, k, v :: Assigns(line, k, v) <==> EntryOf(line) == Entry(k, v)
    requires forall line :: !EntryOf(line).Invalid? && (EntryOf(line).Entry? ==> EntryOf(line).key in allowed) <==>
                            Ignored(line) || exists k, v :: k in allowed && Assigns(line, k, v)
    ensures Sound(EntriesOf(lines), key => key in allowed) ==> WellFormed(lines, allowed)
  {
    var entries := EntriesOf(lines);
    if Sound(entries, key => key in allowed) {
      forall line | line in lines ensures Ignored(line) || exists k, v :: k in allowed && Assigns(line, k, v) {
        var i :| 0 <= i < |lines| && lines[i] == line;
        assert entries[i] == EntryOf(line) && entries[i] in entries;
      }
      forall i, j, k, v, w | 0 <= i < j < |lines| && Assigns(lines[i], k, v) ensures !Assigns(lines[j], k, w) {
        assert entries[i] == EntryOf(lines[i]) && entries[j] == EntryOf(lines[j]);
      }
    }
  }

  lemma WellFormedIsSound(lines: seq<string>, allowed: set<string>)
    requires forall line, k, v :: Assigns(line, k, v) <==> EntryOf(line) == Entry(k, v)
    requires forall line :: !EntryOf(line).Invalid? && (EntryOf(line).Entry? ==> EntryOf(line).key in allowed) <==>
                            Ignored(line) || exists k, v :: k in allowed && Assigns(line, k, v)
    ensures WellFormed(lines, allowed) ==> Sound(EntriesOf(lines), key => key in allowed)
  {
    var entries := EntriesOf(lines);
    if WellFormed(lines, allowed) {
      forall e | e in entries ensures !e.Invalid? && (e.Entry? ==> e.key in allowed) {
        var i :| 0 <= i < |entries| && entries[i] == e;
        assert e == EntryOf(lines[i]) && lines[i] in lines;
      }
      forall i, j | 0 <= i < j < |entries| && entries[i].Entry? && entries[j].Entry? ensures entries[i].key != entries[j].key {
        assert entries[i] == EntryOf(lines[i]) && entries[j] == EntryOf(lines[j]);
        assert Assigns(lines[i], entries[i].key, entries[i].value) && Assigns(lines[j], entries[j].key, entries[j].value);
      }
    }
  }

  /** A file can be read within the allowed keys exactly if its lines are well formed, and it then gives each key
      the value that its line gives it. */
  lemma ReadIff(text: string, allowed: set<string>)
    ensures ReadAuthority(text, allowed).Ok? <==> WellFormed(SplitLines(text), allowed)
    ensures ReadAuthority(text, allowed).Ok? ==> forall k, v ::
      (k in ReadAuthority(text, allowed).value && ReadAuthority(text, allowed).value[k] == v) <==> Given(SplitLines(text), k, v)
  {
    var lines := SplitLines(text);
    GatherIff(EntriesOf(lines), key => key in allowed);
    WellFormedIff(lines, allowed);
    forall k, v ensures Entry(k, v) in EntriesOf(lines) <==> Given(lines, k, v) {
      GivenIff(lines, k, v);
    }
  }
}
