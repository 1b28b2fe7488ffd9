/** Moving credentials from old places into the five authorities. */
module AasMigration {
  import opened Wrappers
  import opened Text
  import opened Json
  import opened EnvFile

  type Document = map<string, Json>

  const S2_KEY := "SEMANTIC_SCHOLAR_API_KEY"
  const S2_FIELD := "semantic_scholar_api_key"

  /** The declared keys of each authority. */
  datatype Keys = Keys(shared: set<string>, compute: set<string>, skill: set<string>, providers: set<string>, copilot: set<string>)

  function AllKeys(keys: Keys): set<string> {
    keys.shared + keys.compute + keys.skill + keys.providers + keys.copilot
  }

  /** Every key has one authority. */
  predicate OneAuthority(keys: Keys) {
    && keys.shared !! keys.compute && keys.shared !! keys.skill && keys.shared !! keys.providers && keys.shared !! keys.copilot
    && keys.compute !! keys.skill && keys.compute !! keys.providers && keys.compute !! keys.copilot
    && keys.skill !! keys.providers && keys.skill !! keys.copilot && keys.providers !! keys.copilot
    && S2_KEY in keys.skill
  }

  /** The files the migration reads and writes: the authorities, the literal assignments of .secrets.env
      to declared keys, and the Zotero documents. */
  datatype Files = Files(shared: Option<Document>, compute: Env, skill: Env, providers: Env, copilot: Env,
                         dotenv: Result<Values>, zotero: seq<Document>)

  // ----- what the old places say

  predicate Usable(value: Json) {
    value.Str? && !Blank(value.s)
  }

  function TextOf(value: Json): string {
    if value.Str? then value.s else ""
  }

  /** The declared keys of a legacy document; each must be a string that is not blank. */
  function Select(document: Document, allowed: set<string>): Result<Values> {
    if forall k :: k in document && k in allowed ==> Usable(document[k])
    then Ok(map k | k in document && k in allowed :: TextOf(document[k])) else Raise
  }

  /** The Semantic Scholar key of a Zotero document, if it has one. */
  function SelectS2(document: Document): Result<Values> {
    if S2_FIELD !in document || document[S2_FIELD] == Null || document[S2_FIELD] == Str("") then Ok(map[])
    else if Usable(document[S2_FIELD]) then Ok(map[S2_KEY := TextOf(document[S2_FIELD])])
    else Raise
  }

  predicate Agree(a: Values, b: Values) {
    forall k :: k in a && k in b ==> a[k] == b[k]
  }

  /** Two sources; values that differ are a conflict. */
  function Union(a: Values, b: Values): Result<Values> {
    if Agree(a, b) then Ok(a + b) else Raise
  }

  /** The union of what is selected from each document. */
  function SelectAll(documents: seq<Document>, select: Document -> Result<Values>): Result<Values> {
    if documents == [] then Ok(map[])
    else
      var before :- SelectAll(documents[..|documents| - 1], select);
      var last :- select(documents[|documents| - 1]);
      Union(before, last)
  }

  function Selecting(allowed: set<string>): Document -> Result<Values> {
    document => Select(document, allowed)
  }

  function SelectingS2(): Document -> Result<Values> {
    document => SelectS2(document)
  }

  /** _merged_legacy_aas_values and the Zotero key: everything the legacy sources say. */
  function Gathered(files: Files, sources: seq<Document>, keys: Keys): Result<Values> {
    var documents :- SelectAll(sources, Selecting(AllKeys(keys)));
    var dotenv :- files.dotenv;
    var legacy :- Union(documents, dotenv);
    var s2 :- SelectAll(files.zotero, SelectingS2());
    if s2 == map[] then Ok(legacy)
    else
      var all :- Union(legacy, s2);
      var skill :- ReadKeys(files.skill, keys.skill);
      if Agree(skill, s2) then Ok(all) else Raise
  }

  /** With the values of the mixed provider vault, which may hold Copilot keys. */
  function Legacy(files: Files, sources: seq<Document>, keys: Keys): Result<Values> {
    var gathered :- Gathered(files, sources, keys);
    var mixed :- ReadKeys(files.providers, keys.providers + keys.copilot);
    Union(gathered, mixed)
  }

  // ----- the writes, one after the other

  function Without(values: Values, keys: set<string>): Values {
    map k | k in values && k !in keys :: values[k]
  }

  /** _split_legacy_provider_authority: Copilot keys leave the provider vault. */
  function Split(files: Files, keys: Keys): Files {
    if files.providers.Held? && exists k :: k in files.providers.values && k in keys.copilot
    then files.(providers := Held(Without(files.providers.values, keys.copilot))) else files
  }

  function Texts(document: Option<Document>): Document {
    if document.Some? then document.value else map[]
  }

  /** _assert_legacy_aas_matches_authorities */
  predicate Matching(files: Files, legacy: Values, keys: Keys) {
    && (forall k :: k in Texts(files.shared) && k in legacy ==> Texts(files.shared)[k] == Str(legacy[k]))
    && ReadKeys(files.compute, keys.compute).Ok? && Agree(ReadKeys(files.compute, keys.compute).value, legacy)
    && ReadKeys(files.skill, keys.skill).Ok? && Agree(ReadKeys(files.skill, keys.skill).value, legacy)
    && ReadKeys(files.providers, keys.providers).Ok? && Agree(ReadKeys(files.providers, keys.providers).value, legacy)
    && ReadKeys(files.copilot, keys.copilot).Ok? && Agree(ReadKeys(files.copilot, keys.copilot).value, legacy)
  }

  /** The legacy values an authority lacks. */
  function Missing(present: set<string>, allowed: set<string>, legacy: Values): Values {
    map k | k in legacy && k in allowed && k !in present && !Blank(legacy[k]) :: legacy[k]
  }

  /** The shared JSON authority */
  function MergeShared(document: Option<Document>, allowed: set<string>, legacy: Values): Result<Option<Document>> {
    var current := Texts(document);
    if !(current.Keys <= allowed) then Raise
    else
      var missing := Missing(current.Keys, allowed, legacy);
      var next := current + map k | k in missing :: Str(missing[k]);
      Ok(if next != map[] then Some(next) else document)
  }

  /** _migrate_strict_env_authority */
  function MergeEnv(env: Env, allowed: set<string>, legacy: Values): Result<Env> {
    var current :- ReadKeys(env, allowed);
    var missing := Missing(current.Keys, allowed, legacy);
    if AllGood(missing) then Ok(Held(current + missing)) else Raise
  }

  predicate AllGood(values: Values) {
    forall k :: k in values ==> GoodValue(values[k])
  }

  function WithoutS2(documents: seq<Document>): seq<Document> {
    seq(|documents|, i requires 0 <= i < |documents| => documents[i] - {S2_FIELD})
  }

  const STAGES := 8

  /** The files after the n-th write, or the check before it raises. */
  function Stage(n: nat, files: Files, legacy: Values, keys: Keys): Result<Files> {
    if n == 0 then Ok(Split(files, keys))
    else if n == 1 then
      if !Matching(files, legacy, keys) then Raise
      else
        var shared :- MergeShared(files.shared, keys.shared, legacy);
        Ok(files.(shared := shared))
    else if n == 2 then
      var env :- MergeEnv(files.compute, keys.compute, legacy);
      Ok(files.(compute := env))
    else if n == 3 then
      var env :- MergeEnv(files.skill, keys.skill, legacy);
      Ok(files.(skill := env))
    else if n == 4 then
      var env :- MergeEnv(files.providers, keys.providers, legacy);
      Ok(files.(providers := env))
    else if n == 5 then
      var env :- MergeEnv(files.copilot, keys.copilot, legacy);
      Ok(files.(copilot := env))
    else if n == 6 then Ok(files.(zotero := WithoutS2(files.zotero)))
    else Ok(files.(dotenv := Ok(map[])))
  }

  /** The states of a run: each is the next stage of the one before. */
  ghost predicate Run(trace: seq<Files>, legacy: Values, keys: Keys) {
    && 1 <= |trace| <= STAGES + 1
    && forall i :: 0 <= i < |trace| - 1 ==> Stage(i, trace[i], legacy, keys) == Ok(trace[i + 1])
  }

  // ----- what holds a value

  /** The key's own authority holds the value. */
  predicate Authority(files: Files, keys: Keys, k: string, v: string) {
    || (k in keys.shared && k in Texts(files.shared) && Texts(files.shared)[k] == Str(v))
    || (k in keys.compute && files.compute.Held? && k in files.compute.values && files.compute.values[k] == v)
    || (k in keys.skill && files.skill.Held? && k in files.skill.values && files.skill.values[k] == v)
    || (k in keys.providers && files.providers.Held? && k in files.providers.values && files.providers.values[k] == v)
    || (k in keys.copilot && files.copilot.Held? && k in files.copilot.values && files.copilot.values[k] == v)
  }

  /** A Copilot value in the provider vault. */
  predicate Mixed(files: Files, keys: Keys, k: string, v: string) {
    k in keys.copilot && files.providers.Held? && k in files.providers.values && files.providers.values[k] == v
  }

  /** A legacy document has the value. */
  ghost predicate Documented(sources: seq<Document>, k: string, v: string) {
    exists d :: d in sources && k in d && d[k] == Str(v)
  }

  /** .secrets.env has the value. */
  predicate Assigned(files: Files, k: string, v: string) {
    files.dotenv.Ok? && k in files.dotenv.value && files.dotenv.value[k] == v
  }

  /** Any place that is read has the value under a declared key. */
  ghost predicate Found(files: Files, sources: seq<Document>, keys: Keys, k: string, v: string) {
    && k in AllKeys(keys)
    && (|| Authority(files, keys, k, v) || Mixed(files, keys, k, v)
        || Documented(sources, k, v) || Assigned(files, k, v)
        || (k == S2_KEY && v != "" && exists d :: d in files.zotero && S2_FIELD in d && d[S2_FIELD] == Str(v)))
  }

  // ----- the legacy values are what the sources say

  lemma {:induction false} Selected(documents: seq<Document>, select: Document -> Result<Values>, d: Document)
    requires SelectAll(documents, select).Ok? && d in documents
    ensures select(d).Ok?
    ensures forall k :: k in select(d).value ==>
      k in SelectAll(documents, select).value && SelectAll(documents, select).value[k] == select(d).value[k]
  {
    var n := |documents| - 1;
    if d in documents[..n] {
      Selected(documents[..n], select, d);
    } else {
      assert d == documents[n];
    }
  }

  lemma SelectedSource(sources: seq<Document>, keys: Keys, d: Document, k: string, v: string)
    requires SelectAll(sources, Selecting(AllKeys(keys))).Ok? && d in sources && k in AllKeys(keys) && k in d && d[k] == Str(v)
    ensures var all := SelectAll(sources, Selecting(AllKeys(keys))).value; k in all && all[k] == v
  {
    Selected(sources, Selecting(AllKeys(keys)), d);
  }

  lemma SelectedS2(zotero: seq<Document>, d: Document, v: string)
    requires SelectAll(zotero, SelectingS2()).Ok? && d in zotero && S2_FIELD in d && d[S2_FIELD] == Str(v) && v != ""
    ensures var all := SelectAll(zotero, SelectingS2()).value; S2_KEY in all && all[S2_KEY] == v
  {
    Selected(zotero, SelectingS2(), d);
  }

  ghost predicate Includes(all: Values, part: Values) {
    forall k :: k in part ==> k in all && all[k] == part[k]
  }

  lemma UnionIncludes(a: Values, b: Values)
    requires Union(a, b).Ok?
    ensures Includes(Union(a, b).value, a) && Includes(Union(a, b).value, b)
  {
  }

  lemma IncludesTransitive(a: Values, b: Values, c: Values)
    requires Includes(a, b) && Includes(b, c)
    ensures Includes(a, c)
  {
  }

  lemma GatheredParts(files: Files, sources: seq<Document>, keys: Keys)
    requires Gathered(files, sources, keys).Ok?
    ensures SelectAll(sources, Selecting(AllKeys(keys))).Ok? && files.dotenv.Ok? && SelectAll(files.zotero, SelectingS2()).Ok?
    ensures var l := Gathered(files, sources, keys).value;
      && Includes(l, SelectAll(sources, Selecting(AllKeys(keys))).value) && Includes(l, files.dotenv.value)
      && Includes(l, SelectAll(files.zotero, SelectingS2()).value)
  {
    var documents, dotenv := SelectAll(sources, Selecting(AllKeys(keys))).value, files.dotenv.value;
    var s2 := SelectAll(files.zotero, SelectingS2()).value;
    var two := Union(documents, dotenv).value;
    UnionIncludes(documents, dotenv);
    if s2 != map[] {
      UnionIncludes(two, s2);
      IncludesTransitive(Union(two, s2).value, two, documents);
      IncludesTransitive(Union(two, s2).value, two, dotenv);
    }
  }

  lemma LegacyParts(files: Files, sources: seq<Document>, keys: Keys)
    requires Legacy(files, sources, keys).Ok?
    ensures SelectAll(sources, Selecting(AllKeys(keys))).Ok? && files.dotenv.Ok? && SelectAll(files.zotero, SelectingS2()).Ok?
    ensures ReadKeys(files.providers, keys.providers + keys.copilot).Ok?
    ensures var l := Legacy(files, sources, keys).value;
      && Includes(l, SelectAll(sources, Selecting(AllKeys(keys))).value) && Includes(l, files.dotenv.value)
      && Includes(l, SelectAll(files.zotero, SelectingS2()).value)
      && Includes(l, ReadKeys(files.providers, keys.providers + keys.copilot).value)
  {
    GatheredParts(files, sources, keys);
    var gathered := Gathered(files, sources, keys).value;
    var l := Legacy(files, sources, keys).value;
    UnionIncludes(gathered, ReadKeys(files.providers, keys.providers + keys.copilot).value);
    IncludesTransitive(l, gathered, SelectAll(sources, Selecting(AllKeys(keys))).value);
    IncludesTransitive(l, gathered, files.dotenv.value);
    IncludesTransitive(l, gathered, SelectAll(files.zotero, SelectingS2()).value);
  }

  /** Every value found outside its authority is a legacy value. */
  lemma FoundIsLegacy(files: Files, sources: seq<Document>, keys: Keys, k: string, v: string)
    requires Legacy(files, sources, keys).Ok? && Found(files, sources, keys, k, v)
    ensures Authority(files, keys, k, v) ||
            (k in Legacy(files, sources, keys).value && Legacy(files, sources, keys).value[k] == v)
  {
    LegacyParts(files, sources, keys);
    if Documented(sources, k, v) {
      var d :| d in sources && k in d && d[k] == Str(v);
      SelectedSource(sources, keys, d, k, v);
    }
    if k == S2_KEY && v != "" && exists d :: d in files.zotero && S2_FIELD in d && d[S2_FIELD] == Str(v) {
      var d :| d in files.zotero && S2_FIELD in d && d[S2_FIELD] == Str(v);
      SelectedS2(files.zotero, d, v);
    }
  }

  // ----- stage by stage

  /** A stage after the split keeps every authority's value. */
  lemma StageKeeps(n: nat, files: Files, legacy: Values, keys: Keys, k: string, v: string)
    requires 1 <= n && Stage(n, files, legacy, keys).Ok? && Authority(files, keys, k, v)
    ensures Authority(Stage(n, files, legacy, keys).value, keys, k, v)
  {
  }

  function Group(n: nat, keys: Keys): set<string> {
    if n == 1 then keys.shared else if n == 2 then keys.compute else if n == 3 then keys.skill
    else if n == 4 then keys.providers else if n == 5 then keys.copilot else {}
  }

  /** A stage brings the legacy values of its keys into their authority. */
  lemma StageBrings(n: nat, files: Files, legacy: Values, keys: Keys, k: string)
    requires Stage(n, files, legacy, keys).Ok? && Matching(files, legacy, keys)
    requires k in Group(n, keys) && k in legacy && !Blank(legacy[k])
    ensures Authority(Stage(n, files, legacy, keys).value, keys, k, legacy[k])
  {
    if n == 1 {
      var current := Texts(files.shared);
      assert k !in current ==> k in Missing(current.Keys, keys.shared, legacy);
    } else {
      var env := if n == 2 then files.compute else if n == 3 then files.skill else if n == 4 then files.providers else files.copilot;
      BroughtByEnv(env, Group(n, keys), legacy, k);
    }
  }

  lemma BroughtByEnv(env: Env, allowed: set<string>, legacy: Values, k: string)
    requires MergeEnv(env, allowed, legacy).Ok? && Agree(ReadKeys(env, allowed).value, legacy)
    requires k in allowed && k in legacy && !Blank(legacy[k])
    ensures var after := MergeEnv(env, allowed, legacy).value; after.Held? && k in after.values && after.values[k] == legacy[k]
  {
    var current := ReadKeys(env, allowed).value;
    assert k !in current ==> k in Missing(current.Keys, allowed, legacy);
  }

  lemma MergedAgrees(env: Env, allowed: set<string>, legacy: Values)
    requires ReadKeys(env, allowed).Ok? && Agree(ReadKeys(env, allowed).value, legacy) && MergeEnv(env, allowed, legacy).Ok?
    ensures var after := MergeEnv(env, allowed, legacy).value;
      ReadKeys(after, allowed).Ok? && Agree(ReadKeys(after, allowed).value, legacy)
  {
  }

  lemma SharedAgrees(document: Option<Document>, allowed: set<string>, legacy: Values)
    requires MergeShared(document, allowed, legacy).Ok?
    requires forall k :: k in Texts(document) && k in legacy ==> Texts(document)[k] == Str(legacy[k])
    ensures var after := Texts(MergeShared(document, allowed, legacy).value);
      forall k :: k in after && k in legacy ==> after[k] == Str(legacy[k])
  {
  }

  /** Authorities that match the legacy values keep matching them. */
  lemma StageMatches(n: nat, files: Files, legacy: Values, keys: Keys)
    requires 1 <= n && Stage(n, files, legacy, keys).Ok? && Matching(files, legacy, keys)
    ensures Matching(Stage(n, files, legacy, keys).value, legacy, keys)
  {
    if n == 1 {
      SharedAgrees(files.shared, keys.shared, legacy);
    } else if n == 2 {
      MergedAgrees(files.compute, keys.compute, legacy);
    } else if n == 3 {
      MergedAgrees(files.skill, keys.skill, legacy);
    } else if n == 4 {
      MergedAgrees(files.providers, keys.providers, legacy);
    } else if n == 5 {
      MergedAgrees(files.copilot, keys.copilot, legacy);
    }
  }

  // ----- whole runs

  /** After the check, authorities match the legacy values in every state of a run. */
  lemma {:induction false} RunMatches(trace: seq<Files>, legacy: Values, keys: Keys, i: nat)
    requires Run(trace, legacy, keys) && 1 <= i < |trace| && 2 <= |trace|
    requires Matching(trace[1], legacy, keys)
    ensures Matching(trace[i], legacy, keys)
  {
    if i > 1 {
      RunMatches(trace, legacy, keys, i - 1);
      RunStep(trace, legacy, keys, i - 1);
      StageMatches(i - 1, trace[i - 1], legacy, keys);
    }
  }

  lemma RunStep(trace: seq<Files>, legacy: Values, keys: Keys, i: nat)
    requires Run(trace, legacy, keys) && i + 1 < |trace|
    ensures Stage(i, trace[i], legacy, keys) == Ok(trace[i + 1])
  {
  }

  /** From the split on, no authority loses a value. */
  lemma {:induction false} RunKeeps(trace: seq<Files>, legacy: Values, keys: Keys, i: nat, j: nat, k: string, v: string)
    requires Run(trace, legacy, keys) && 1 <= i <= j < |trace| && Authority(trace[i], keys, k, v)
    ensures Authority(trace[j], keys, k, v)
  {
    if i < j {
      RunKeeps(trace, legacy, keys, i, j - 1, k, v);
      RunStep(trace, legacy, keys, j - 1);
      StageKeeps(j - 1, trace[j - 1], legacy, keys, k, v);
    }
  }

  /** The split keeps every authority's value, and only the split loses Copilot values. */
  lemma SplitKeeps(files: Files, keys: Keys, k: string, v: string)
    requires OneAuthority(keys) && Authority(files, keys, k, v)
    ensures Authority(Split(files, keys), keys, k, v)
  {
  }

  /** A run that got past the Copilot authority has brought every legacy value that is not blank into
      its authority. */
  lemma RunBrings(trace: seq<Files>, legacy: Values, keys: Keys, k: string)
    requires Run(trace, legacy, keys) && 7 <= |trace|
    requires k in AllKeys(keys) && k in legacy && !Blank(legacy[k])
    ensures Authority(trace[|trace| - 1], keys, k, legacy[k])
  {
    var n := if k in keys.shared then 1 else if k in keys.compute then 2 else if k in keys.skill then 3
             else if k in keys.providers then 4 else 5;
    assert Stage(1, trace[1], legacy, keys) == Ok(trace[2]);
    RunMatches(trace, legacy, keys, n);
    assert Stage(n, trace[n], legacy, keys) == Ok(trace[n + 1]);
    StageBrings(n, trace[n], legacy, keys, k);
    RunKeeps(trace, legacy, keys, n + 1, |trace| - 1, k, legacy[k]);
  }

  /** After a complete run, and already once the Copilot authority is written, every value found anywhere
      under a declared key, if it is not blank, is the one its authority holds. */
  lemma NothingFoundIsLost(trace: seq<Files>, sources: seq<Document>, keys: Keys, k: string, v: string)
    requires OneAuthority(keys) && 7 <= |trace| && Legacy(trace[0], sources, keys).Ok?
    requires Run(trace, Legacy(trace[0], sources, keys).value, keys)
    requires Found(trace[0], sources, keys, k, v) && !Blank(v)
    ensures Authority(trace[|trace| - 1], keys, k, v)
  {
    var legacy := Legacy(trace[0], sources, keys).value;
    FoundIsLegacy(trace[0], sources, keys, k, v);
    if Authority(trace[0], keys, k, v) {
      SplitKeeps(trace[0], keys, k, v);
      assert Stage(0, trace[0], legacy, keys) == Ok(trace[1]);
      RunKeeps(trace, legacy, keys, 1, |trace| - 1, k, v);
    } else {
      RunBrings(trace, legacy, keys, k);
    }
  }

  /** So a run with two different values under one key stops before the Copilot authority is written. */
  lemma ConflictStops(trace: seq<Files>, sources: seq<Document>, keys: Keys, k: string, v: string, w: string)
    requires OneAuthority(keys) && |trace| <= STAGES + 1 && trace != [] && Legacy(trace[0], sources, keys).Ok?
    requires Run(trace, Legacy(trace[0], sources, keys).value, keys)
    requires Found(trace[0], sources, keys, k, v) && Found(trace[0], sources, keys, k, w) && v != w && !Blank(v) && !Blank(w)
    ensures |trace| <= 6
  {
    if 7 <= |trace| {
      NothingFoundIsLost(trace, sources, keys, k, v);
      NothingFoundIsLost(trace, sources, keys, k, w);
    }
  }
}
