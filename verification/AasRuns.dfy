/** The migration as it runs: its writes, what a second run does, and what a run that stops can lose. */
module AasRuns {
  import opened Wrappers
  import opened Text
  import opened Json
  import opened EnvFile
  import opened AasMigration
  import opened AasReturns

  // ----- the files of a home

  /** The authorities on disk. A write takes effect or fails without effect; with reliable storage it
      does not fail. */
  class Home {
    var files: Files
    const sources: seq<Document>
    const reliable: bool

    constructor (initial: Files, documents: seq<Document>, storage: bool)
      ensures files == initial && sources == documents && reliable == storage
    {
      files, sources, reliable := initial, documents, storage;
    }

    /** _atomic_write */
    method Write(next: Files) returns (ok: bool)
      modifies this
      ensures files == if ok then next else old(files)
      ensures reliable ==> ok
    {
      ok := *;
      ok := ok || reliable;
      if ok {
        files := next;
      }
    }
  }

  // ----- reading the sources

  /** The values under some of the declared keys. */
  function SelectedTexts(document: Document, keys: set<string>): Values
    requires forall k :: k in document && k in keys ==> Usable(document[k])
  {
    map k | k in document && k in keys :: TextOf(document[k])
  }

  lemma SelectedNext(document: Document, keys: set<string>, key: string)
    requires forall k :: k in document && k in keys + {key} ==> Usable(document[k])
    ensures SelectedTexts(document, keys + {key}) ==
            if key in document then SelectedTexts(document, keys)[key := TextOf(document[key])] else SelectedTexts(document, keys)
  {
  }

  method SelectDocument(document: Document, allowed: set<string>) returns (r: Result<Values>)
    ensures r == Select(document, allowed)
  {
    var selected: Values := map[];
    var todo := allowed;
    while todo != {}
      invariant todo <= allowed && forall k :: k in document && k in allowed - todo ==> Usable(document[k])
      invariant selected == SelectedTexts(document, allowed - todo)
      decreases todo
    {
      var key :| key in todo;
      assert allowed - (todo - {key}) == allowed - todo + {key};
      if key in document && !Usable(document[key]) {
        return Raise;
      }
      SelectedNext(document, allowed - todo, key);
      if key in document {
        selected := selected[key := TextOf(document[key])];
      }
      todo := todo - {key};
    }
    assert allowed - todo == allowed;
    r := Ok(selected);
  }

  /** for key, value in source.items(): conflicting values raise */
  method MergeSource(merged: Values, source: Values) returns (r: Result<Values>)
    ensures r == Union(merged, source)
  {
    var all := merged;
    var todo := source.Keys;
    while todo != {}
      invariant todo <= source.Keys
      invariant forall k :: k in source && k !in todo && k in merged ==> merged[k] == source[k]
      invariant all == merged + map k | k in source && k !in todo :: source[k]
      decreases todo
    {
      var key :| key in todo;
      if key in all && all[key] != source[key] {
        return Raise;
      }
      all := all[key := source[key]];
      todo := todo - {key};
    }
    assert all == merged + source;
    r := Ok(all);
  }

  method MergeDocuments(documents: seq<Document>, allowed: set<string>) returns (r: Result<Values>)
    ensures r == SelectAll(documents, Selecting(allowed))
  {
    var merged: Values := map[];
    var i := 0;
    while i < |documents|
      invariant 0 <= i <= |documents| && SelectAll(documents[..i], Selecting(allowed)) == Ok(merged)
    {
      assert documents[..i + 1][..i] == documents[..i];
      var selected := SelectDocument(documents[i], allowed);
      if selected.Raise? {
        SelectRaises(documents, i + 1, Selecting(allowed));
        return Raise;
      }
      var next := MergeSource(merged, selected.value);
      if next.Raise? {
        SelectRaises(documents, i + 1, Selecting(allowed));
        return Raise;
      }
      merged := next.value;
      i := i + 1;
    }
    assert documents[..i] == documents;
    r := Ok(merged);
  }

  lemma {:induction false} SelectRaises(documents: seq<Document>, i: nat, select: Document -> Result<Values>)
    requires i <= |documents| && SelectAll(documents[..i], select).Raise?
    ensures SelectAll(documents, select).Raise?
  {
    if i < |documents| {
      assert documents[..|documents| - 1][..i] == documents[..i];
      SelectRaises(documents[..|documents| - 1], i, select);
    } else {
      assert documents[..i] == documents;
    }
  }

  // ----- writing the authorities

  /** The loop over an authority's keys: legacy values for keys it lacks. */
  method CollectMissing(present: set<string>, allowed: set<string>, legacy: Values) returns (added: Values)
    ensures added == Missing(present, allowed, legacy)
  {
    ghost var missing := Missing(present, allowed, legacy);
    added := map[];
    var todo := allowed;
    while todo != {}
      invariant todo <= allowed && added == Within(missing, allowed - todo)
      decreases todo
    {
      var key :| key in todo;
      assert allowed - (todo - {key}) == allowed - todo + {key};
      WithinOneMore(missing, allowed - todo, key);
      if key !in present && key in legacy && !Blank(legacy[key]) {
        added := added[key := legacy[key]];
      }
      todo := todo - {key};
    }
    assert Within(missing, allowed - {}) == missing;
  }

  /** Every added value must have the form of an environment value; a present key is never overwritten. */
  method AddMissing(present: Values, allowed: set<string>, legacy: Values) returns (r: Result<Values>)
    ensures var missing := Missing(present.Keys, allowed, legacy);
      r == if AllGood(missing) then Ok(present + missing) else Raise
  {
    var missing := CollectMissing(present.Keys, allowed, legacy);
    r := if AllGood(missing) then Ok(present + missing) else Raise;
  }

  function Within(values: Values, keys: set<string>): Values {
    map k | k in values && k in keys :: values[k]
  }

  lemma WithinOneMore(values: Values, keys: set<string>, k: string)
    ensures k in values ==> Within(values, keys + {k}) == Within(values, keys)[k := values[k]]
    ensures k !in values ==> Within(values, keys + {k}) == Within(values, keys)
  {
  }

  /** _migrate_strict_env_authority */
  method MigrateStrictEnv(env: Env, allowed: set<string>, legacy: Values) returns (r: Result<Env>)
    ensures r == MergeEnv(env, allowed, legacy)
    ensures r.Ok? && env.Held? ==> r.value.Held? && forall k :: k in env.values ==> k in r.value.values && r.value.values[k] == env.values[k]
  {
    var read := ReadKeys(env, allowed);
    if read.Raise? {
      return Raise;
    }
    var merged := AddMissing(read.value, allowed, legacy);
    r := if merged.Ok? then Ok(Held(merged.value)) else Raise;
  }

  /** The shared JSON authority */
  method MigrateShared(document: Option<Document>, allowed: set<string>, legacy: Values) returns (r: Result<Option<Document>>)
    ensures r == MergeShared(document, allowed, legacy)
  {
    var present := Texts(document);
    if !(present.Keys <= allowed) {
      return Raise;
    }
    var missing := CollectMissing(present.Keys, allowed, legacy);
    var authority := present + map k | k in missing :: Str(missing[k]);
    r := Ok(if authority != map[] then Some(authority) else document);
  }

  /** Everything the old places say, before anything is written. */
  method MergedLegacy(files: Files, sources: seq<Document>, keys: Keys) returns (r: Result<Values>)
    ensures r == Legacy(files, sources, keys)
  {
    var documents :- MergeDocuments(sources, AllKeys(keys));
    if files.dotenv.Raise? {
      return Raise;
    }
    var legacy :- MergeSource(documents, files.dotenv.value);
    var s2 := SelectAll(files.zotero, SelectingS2());
    if s2.Raise? {
      return Raise;
    }
    if s2.value != map[] {
      legacy :- MergeSource(legacy, s2.value);
      var skill := ReadKeys(files.skill, keys.skill);
      if skill.Raise? || !Agree(skill.value, s2.value) {
        return Raise;
      }
    }
    var mixed := ReadKeys(files.providers, keys.providers + keys.copilot);
    if mixed.Raise? {
      return Raise;
    }
    r := MergeSource(legacy, mixed.value);
  }

  /** What the n-th write is to leave, unless a check raises. */
  method Next(n: nat, files: Files, keys: Keys, legacy: Values) returns (r: Result<Files>)
    ensures r == Stage(n, files, legacy, keys)
  {
    if n == 0 {
      return Ok(Split(files, keys));
    }
    if n == 1 {
      if !Matching(files, legacy, keys) {
        return Raise;
      }
      var shared :- MigrateShared(files.shared, keys.shared, legacy);
      return Ok(files.(shared := shared));
    }
    if n == 2 {
      var env :- MigrateStrictEnv(files.compute, keys.compute, legacy);
      return Ok(files.(compute := env));
    }
    if n == 3 {
      var env :- MigrateStrictEnv(files.skill, keys.skill, legacy);
      return Ok(files.(skill := env));
    }
    if n == 4 {
      var env :- MigrateStrictEnv(files.providers, keys.providers, legacy);
      return Ok(files.(providers := env));
    }
    if n == 5 {
      var env :- MigrateStrictEnv(files.copilot, keys.copilot, legacy);
      return Ok(files.(copilot := env));
    }
    if n == 6 {
      return Ok(files.(zotero := WithoutS2(files.zotero)));
    }
    r := Ok(files.(dotenv := Ok(map[])));
  }

  /** The check and the target of the n-th write, and the write. */
  method Perform(home: Home, n: nat, keys: Keys, legacy: Values) returns (ok: bool)
    modifies home
    ensures ok ==> Stage(n, old(home.files), legacy, keys) == Ok(home.files)
    ensures !ok ==> home.files == old(home.files)
    ensures !ok && home.reliable ==> Stage(n, old(home.files), legacy, keys).Raise?
  {
    var next := Next(n, home.files, keys, legacy);
    if next.Raise? {
      return false;
    }
    if next.value == home.files {
      return true;
    }
    ok := home.Write(next.value);
  }

  /** Whether the steps that concern other files return: reading the old send-email configuration first,
      migrating it after the check of the authorities, and the Zotero, Calibre and Canvas configurations
      before .secrets.env is rewritten. */
  datatype Configs = Configs(inspected: bool, sendEmail: bool, others: bool)

  /** _migrate_aas_legacy. The trace lists the states of the files, the last one being the present one. */
  method MigrateAas(home: Home, keys: Keys, configs: Configs) returns (ok: bool, ghost trace: seq<Files>)
    modifies home
    ensures trace != [] && trace[0] == old(home.files) && trace[|trace| - 1] == home.files
    ensures !configs.inspected || Legacy(old(home.files), home.sources, keys).Raise? ==> !ok && |trace| == 1
    ensures ok ==> configs.sendEmail && configs.others
    ensures configs.inspected && Legacy(old(home.files), home.sources, keys).Ok? ==>
      && Run(trace, Legacy(old(home.files), home.sources, keys).value, keys)
      && (ok <==> |trace| == STAGES + 1)
      && (!ok && home.reliable && (|trace| == 2 ==> configs.sendEmail) && (|trace| == 8 ==> configs.others) ==>
            && 2 <= |trace| <= 6
            && Stage(|trace| - 1, home.files, Legacy(old(home.files), home.sources, keys).value, keys).Raise?)
    // what it takes to return
    ensures OneAuthority(keys) && home.reliable && configs == Configs(true, true, true) ==>
      (ok <==> Migratable(old(home.files), home.sources, keys))
  {
    trace := [home.files];
    if OneAuthority(keys) {
      MigratableIff(home.files, home.sources, keys);
    }
    if !configs.inspected {
      return false, trace;
    }
    var legacy := MergedLegacy(home.files, home.sources, keys);
    if legacy.Raise? {
      return false, trace;
    }
    var n := 0;
    while n < STAGES
      invariant 0 <= n <= STAGES && |trace| == n + 1 && trace[0] == old(home.files) && trace[n] == home.files
      invariant forall i :: 0 <= i < n ==> Stage(i, trace[i], legacy.value, keys) == Ok(trace[i + 1])
      invariant (n > 1 ==> configs.sendEmail) && (n > 7 ==> configs.others)
    {
      if (n == 1 && !configs.sendEmail) || (n == 7 && !configs.others) {
        return false, trace;
      }
      ok := Perform(home, n, keys, legacy.value);
      if !ok {
        RunFails(trace, legacy.value, keys);
        return;
      }
      trace := trace + [home.files];
      n := n + 1;
    }
    CompletePasses(trace, legacy.value, keys);
    ok := true;
  }

  /** A run that stopped at a check could not have returned. */
  lemma RunFails(trace: seq<Files>, legacy: Values, keys: Keys)
    requires Run(trace, legacy, keys)
    ensures 2 <= |trace| <= 6 && Stage(|trace| - 1, trace[|trace| - 1], legacy, keys).Raise? ==> !PassesAll(trace[0], legacy, keys)
  {
    if 2 <= |trace| <= 6 && Stage(|trace| - 1, trace[|trace| - 1], legacy, keys).Raise? {
      StoppedFails(trace, legacy, keys);
    }
  }

  // ----- a second run

  /** Files a run leaves alone: whatever it still reads is already where it belongs. */
  ghost predicate Quiet(files: Files, sources: seq<Document>, keys: Keys) {
    && Legacy(files, sources, keys).Ok?
    && forall n :: 0 <= n < STAGES ==> Stage(n, files, Legacy(files, sources, keys).value, keys) == Ok(files)
  }

  /** The form of the files after a complete run. */
  ghost predicate Migrated(files: Files, keys: Keys) {
    && Texts(files.shared).Keys <= keys.shared
    && files.compute.Held? && files.compute.values.Keys <= keys.compute
    && files.skill.Held? && files.skill.values.Keys <= keys.skill
    && files.providers.Held? && files.providers.values.Keys <= keys.providers
    && files.copilot.Held? && files.copilot.values.Keys <= keys.copilot
    && files.dotenv == Ok(map[]) && forall d :: d in files.zotero ==> S2_FIELD !in d
  }

  lemma RunMigrates(trace: seq<Files>, legacy: Values, keys: Keys)
    requires Run(trace, legacy, keys) && |trace| == STAGES + 1
    ensures Migrated(trace[STAGES], keys) && Matching(trace[STAGES], legacy, keys)
  {
    assert Stage(1, trace[1], legacy, keys) == Ok(trace[2]);
    assert Stage(2, trace[2], legacy, keys) == Ok(trace[3]);
    assert Stage(3, trace[3], legacy, keys) == Ok(trace[4]);
    assert Stage(4, trace[4], legacy, keys) == Ok(trace[5]);
    assert Stage(5, trace[5], legacy, keys) == Ok(trace[6]);
    assert Stage(6, trace[6], legacy, keys) == Ok(trace[7]);
    assert Stage(7, trace[7], legacy, keys) == Ok(trace[8]);
    RunMatches(trace, legacy, keys, STAGES);
  }

  /** What a complete run leaves in the provider vault was found before. */
  lemma ProvidersAreLegacy(trace: seq<Files>, sources: seq<Document>, keys: Keys)
    requires trace != [] && Legacy(trace[0], sources, keys).Ok? && |trace| == STAGES + 1
    requires Run(trace, Legacy(trace[0], sources, keys).value, keys)
    ensures trace[STAGES].providers.Held?
    ensures var l, p := Legacy(trace[0], sources, keys).value, trace[STAGES].providers.values;
      forall k :: k in p ==> k in l && l[k] == p[k]
  {
    var legacy := Legacy(trace[0], sources, keys).value;
    LegacyParts(trace[0], sources, keys);
    assert Stage(0, trace[0], legacy, keys) == Ok(trace[1]);
    assert Stage(1, trace[1], legacy, keys) == Ok(trace[2]);
    assert Stage(2, trace[2], legacy, keys) == Ok(trace[3]);
    assert Stage(3, trace[3], legacy, keys) == Ok(trace[4]);
    assert Stage(4, trace[4], legacy, keys) == Ok(trace[5]);
    assert Stage(5, trace[5], legacy, keys) == Ok(trace[6]);
    assert Stage(6, trace[6], legacy, keys) == Ok(trace[7]);
    assert Stage(7, trace[7], legacy, keys) == Ok(trace[8]);
  }

  lemma {:induction false} NoS2Selected(documents: seq<Document>)
    requires forall d :: d in documents ==> S2_FIELD !in d
    ensures SelectAll(documents, SelectingS2()) == Ok(map[])
  {
    if documents != [] {
      NoS2Selected(documents[..|documents| - 1]);
      assert documents[|documents| - 1] in documents;
    }
  }

  /** Stages that find everything in place change nothing. */
  lemma StageIsQuiet(n: nat, files: Files, legacy: Values, keys: Keys)
    requires n < STAGES && OneAuthority(keys) && Migrated(files, keys) && Matching(files, legacy, keys)
    requires forall k :: k in legacy && k in AllKeys(keys) && !Blank(legacy[k]) ==> Authority(files, keys, k, legacy[k])
    ensures Stage(n, files, legacy, keys) == Ok(files)
  {
    if n == 1 {
      SharedIsQuiet(files.shared, keys.shared, legacy);
    } else if n == 2 {
      EnvIsQuiet(files.compute, keys.compute, legacy);
    } else if n == 3 {
      EnvIsQuiet(files.skill, keys.skill, legacy);
    } else if n == 4 {
      EnvIsQuiet(files.providers, keys.providers, legacy);
    } else if n == 5 {
      EnvIsQuiet(files.copilot, keys.copilot, legacy);
    } else if n == 6 {
      forall i | 0 <= i < |files.zotero| ensures files.zotero[i] - {S2_FIELD} == files.zotero[i] {
        assert files.zotero[i] in files.zotero;
      }
      assert WithoutS2(files.zotero) == files.zotero;
    }
  }

  lemma EnvIsQuiet(env: Env, allowed: set<string>, legacy: Values)
    requires env.Held? && env.values.Keys <= allowed
    requires forall k :: k in legacy && k in allowed && !Blank(legacy[k]) ==> k in env.values
    ensures MergeEnv(env, allowed, legacy) == Ok(env)
  {
    NothingMissing(env.values.Keys, allowed, legacy);
    assert env.values + Missing(env.values.Keys, allowed, legacy) == env.values;
  }

  lemma SharedIsQuiet(document: Option<Document>, allowed: set<string>, legacy: Values)
    requires Texts(document).Keys <= allowed
    requires forall k :: k in legacy && k in allowed && !Blank(legacy[k]) ==> k in Texts(document)
    ensures MergeShared(document, allowed, legacy) == Ok(document)
  {
    var current := Texts(document);
    NothingMissing(current.Keys, allowed, legacy);
    var missing := Missing(current.Keys, allowed, legacy);
    assert current + (map k | k in missing :: Str(missing[k])) == current;
  }

  lemma NothingMissing(present: set<string>, allowed: set<string>, legacy: Values)
    ensures (forall k :: k in legacy && k in allowed && !Blank(legacy[k]) ==> k in present) ==>
            Missing(present, allowed, legacy) == map[]
  {
  }

  /** After a complete run a second one writes nothing. */
  lemma SecondRunIsQuiet(trace: seq<Files>, sources: seq<Document>, keys: Keys)
    requires OneAuthority(keys) && |trace| == STAGES + 1 && Legacy(trace[0], sources, keys).Ok?
    requires Run(trace, Legacy(trace[0], sources, keys).value, keys)
    ensures Quiet(trace[STAGES], sources, keys)
  {
    var files := trace[STAGES];
    var legacy := Legacy(trace[0], sources, keys).value;
    LegacyParts(trace[0], sources, keys);
    RunMigrates(trace, legacy, keys);
    ProvidersAreLegacy(trace, sources, keys);
    NoS2Selected(files.zotero);
    var selected := SelectAll(sources, Selecting(AllKeys(keys))).value;
    assert selected + map[] == selected;
    assert Gathered(files, sources, keys) == Ok(selected);
    assert ReadKeys(files.providers, keys.providers + keys.copilot) == Ok(files.providers.values);
    assert Agree(selected, files.providers.values);
    var again := selected + files.providers.values;
    assert Legacy(files, sources, keys) == Ok(again);
    forall k | k in again ensures k in legacy && legacy[k] == again[k] {
    }
    forall k | k in again && k in AllKeys(keys) && !Blank(again[k]) ensures Authority(files, keys, k, again[k]) {
      RunBrings(trace, legacy, keys, k);
    }
    forall n | 0 <= n < STAGES ensures Stage(n, files, again, keys) == Ok(files) {
      StageIsQuiet(n, files, again, keys);
    }
  }

  // ----- what a run that stops can lose

  /** A Copilot value that only the mixed provider vault holds. */
  ghost predicate Stray(files: Files, sources: seq<Document>, keys: Keys) {
    exists k, v :: OnlyMixed(files, sources, keys, k, v)
  }

  ghost predicate OnlyMixed(files: Files, sources: seq<Document>, keys: Keys, k: string, v: string) {
    Mixed(files, keys, k, v) && !Authority(files, keys, k, v) && !Documented(sources, k, v) && !Assigned(files, k, v)
  }

  /** Every value that was found somewhere before is still found somewhere. */
  ghost predicate NothingLost(before: Files, after: Files, sources: seq<Document>, keys: Keys) {
    forall k, v :: Found(before, sources, keys, k, v) ==> Found(after, sources, keys, k, v)
  }

  /** Until the Copilot authority is written, the states after the split hold no more Copilot values than
      it held before. */
  lemma {:induction false} CopilotUntouched(trace: seq<Files>, legacy: Values, keys: Keys, i: nat)
    requires Run(trace, legacy, keys) && 1 <= i < |trace| && i <= 5 && OneAuthority(keys)
    ensures trace[i].copilot == trace[0].copilot
    ensures forall k :: k in keys.copilot ==> !(trace[i].providers.Held? && k in trace[i].providers.values)
  {
    if i == 1 {
      assert Stage(0, trace[0], legacy, keys) == Ok(trace[1]);
    } else {
      CopilotUntouched(trace, legacy, keys, i - 1);
      assert Stage(i - 1, trace[i - 1], legacy, keys) == Ok(trace[i - 1 + 1]);
    }
  }

  /** Until then the other old places are not touched either. */
  lemma {:induction false} OldPlacesUntouched(trace: seq<Files>, legacy: Values, keys: Keys, i: nat)
    requires Run(trace, legacy, keys) && i < |trace| && i <= 6
    ensures trace[i].dotenv == trace[0].dotenv && trace[i].zotero == trace[0].zotero
  {
    if i > 0 {
      OldPlacesUntouched(trace, legacy, keys, i - 1);
      assert Stage(i - 1, trace[i - 1], legacy, keys) == Ok(trace[i - 1 + 1]);
    }
  }

  /** A run that stops on a conflict or an invalid value, after the sources were found to agree, has lost
      a value exactly if the mixed provider vault held a Copilot value that was nowhere else: that vault
      is rewritten before the checks. */
  lemma StoppedRunLosesIff(trace: seq<Files>, sources: seq<Document>, keys: Keys)
    requires OneAuthority(keys) && 2 <= |trace| <= 6 && Legacy(trace[0], sources, keys).Ok?
    requires Run(trace, Legacy(trace[0], sources, keys).value, keys)
    ensures NothingLost(trace[0], trace[|trace| - 1], sources, keys) <==> !Stray(trace[0], sources, keys)
  {
    var legacy := Legacy(trace[0], sources, keys).value;
    var n := |trace| - 1;
    CopilotUntouched(trace, legacy, keys, n);
    OldPlacesUntouched(trace, legacy, keys, n);
    forall k, v | Authority(trace[0], keys, k, v) ensures Authority(trace[n], keys, k, v) {
      SplitKeeps(trace[0], keys, k, v);
      assert Stage(0, trace[0], legacy, keys) == Ok(trace[1]);
      RunKeeps(trace, legacy, keys, 1, n, k, v);
    }
    if Stray(trace[0], sources, keys) {
      var k, v :| OnlyMixed(trace[0], sources, keys, k, v);
      assert Found(trace[0], sources, keys, k, v) && !Found(trace[n], sources, keys, k, v);
    } else {
      forall k, v | Found(trace[0], sources, keys, k, v) ensures Found(trace[n], sources, keys, k, v) {
        assert !OnlyMixed(trace[0], sources, keys, k, v);
      }
    }
  }

  /** A run that gets past the Copilot authority has lost no value that is not blank. */
  lemma LateRunLosesNothing(trace: seq<Files>, sources: seq<Document>, keys: Keys)
    requires OneAuthority(keys) && 7 <= |trace| <= STAGES + 1 && Legacy(trace[0], sources, keys).Ok?
    requires Run(trace, Legacy(trace[0], sources, keys).value, keys)
    ensures forall k, v :: Found(trace[0], sources, keys, k, v) && !Blank(v) ==> Found(trace[|trace| - 1], sources, keys, k, v)
  {
    forall k, v | Found(trace[0], sources, keys, k, v) && !Blank(v) ensures Found(trace[|trace| - 1], sources, keys, k, v) {
      NothingFoundIsLost(trace, sources, keys, k, v);
    }
  }

  /** Such a run exists: the vault has one value for a Copilot key, the Copilot authority another. */
  lemma StrayValueIsLost(key: string, old_: string, new_: string, keys: Keys, files: Files)
    requires OneAuthority(keys) && key in keys.copilot && old_ != new_
    requires files == Files(None, Absent, Absent, Held(map[key := old_]), Held(map[key := new_]), Ok(map[]), [])
    ensures Legacy(files, [], keys) == Ok(map[key := old_])
    ensures Stage(0, files, map[key := old_], keys) == Ok(files.(providers := Held(map[])))
    ensures Stage(1, files.(providers := Held(map[])), map[key := old_], keys).Raise?
    ensures Stray(files, [], keys) && !NothingLost(files, files.(providers := Held(map[])), [], keys)
  {
    var after := files.(providers := Held(map[]));
    assert SelectAll([], Selecting(AllKeys(keys))) == Ok(map[]) && SelectAll([], SelectingS2()) == Ok(map[]);
    var none: Values := map[];
    assert none + none == none && none + map[key := old_] == map[key := old_];
    assert Without(map[key := old_], keys.copilot) == map[];
    assert OnlyMixed(files, [], keys, key, old_);
    assert Found(files, [], keys, key, old_) && !Found(after, [], keys, key, old_);
  }
}
