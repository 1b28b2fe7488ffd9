/** When a credential migration runs to its end, in terms of what the files hold. */
module AasReturns {
  import opened Wrappers
  import opened Text
  import opened Json
  import opened EnvFile
  import opened AasMigration

  // ----- what every place says

  /** The file has this value under the key. */
  predicate Holds(env: Env, k: string, v: string) {
    env.Held? && k in env.values && env.values[k] == v
  }

  /** A Zotero document has this Semantic Scholar key; null and the empty text count as none. */
  ghost predicate ZoteroSays(zotero: seq<Document>, v: string) {
    v != "" && exists d :: d in zotero && S2_FIELD in d && d[S2_FIELD] == Str(v)
  }

  /** One of the old places has the value under a declared key: a document, .secrets.env, Zotero or the vault. */
  ghost predicate OldSays(files: Files, sources: seq<Document>, keys: Keys, k: string, v: string) {
    || (k in AllKeys(keys) && Documented(sources, k, v))
    || Assigned(files, k, v)
    || (k == S2_KEY && ZoteroSays(files.zotero, v))
    || (k in keys.providers + keys.copilot && Holds(files.providers, k, v))
  }

  /** The key's own authority has the value; the shared one may hold any JSON. */
  ghost predicate OwnSays(files: Files, keys: Keys, k: string, value: Json) {
    || (k in keys.shared && k in Texts(files.shared) && Texts(files.shared)[k] == value)
    || (value.Str? && k in keys.compute && Holds(files.compute, k, value.s))
    || (value.Str? && k in keys.skill && Holds(files.skill, k, value.s))
    || (value.Str? && k in keys.providers && Holds(files.providers, k, value.s))
    || (value.Str? && k in keys.copilot && Holds(files.copilot, k, value.s))
  }

  ghost predicate Says(files: Files, sources: seq<Document>, keys: Keys, k: string, value: Json) {
    OwnSays(files, keys, k, value) || (value.Str? && OldSays(files, sources, keys, k, value.s))
  }

  // ----- the condition

  /** Missing, or readable and within these keys. */
  predicate ReadableWithin(env: Env, allowed: set<string>) {
    env.Absent? || (env.Held? && env.values.Keys <= allowed)
  }

  /** Every value under a declared key is a text that is not blank. */
  predicate GoodDocument(d: Document, keys: Keys) {
    forall k :: k in d && k in AllKeys(keys) ==> d[k].Str? && !Blank(d[k].s)
  }

  /** The Semantic Scholar key, if there is one, is null, empty or a text that is not blank. */
  predicate GoodZotero(d: Document) {
    S2_FIELD in d ==> d[S2_FIELD].Null? || (d[S2_FIELD].Str? && (d[S2_FIELD].s == "" || !Blank(d[S2_FIELD].s)))
  }

  /** Everything that is there can be read and keeps to its keys; the vault may hold Copilot keys too. */
  ghost predicate AllReadable(files: Files, sources: seq<Document>, keys: Keys) {
    && (forall d :: d in sources ==> GoodDocument(d, keys)) && files.dotenv.Ok? && (forall d :: d in files.zotero ==> GoodZotero(d))
    && Texts(files.shared).Keys <= keys.shared
    && ReadableWithin(files.compute, keys.compute) && ReadableWithin(files.skill, keys.skill)
    && ReadableWithin(files.providers, keys.providers + keys.copilot) && ReadableWithin(files.copilot, keys.copilot)
  }

  /** No two places say different things under one key. */
  ghost predicate OneValue(files: Files, sources: seq<Document>, keys: Keys) {
    forall k, x, y :: Says(files, sources, keys, k, x) && Says(files, sources, keys, k, y) ==> x == y
  }

  /** The environment file that is the key's authority. */
  function EnvFor(files: Files, keys: Keys, k: string): Option<Env> {
    if k in keys.compute then Some(files.compute)
    else if k in keys.skill then Some(files.skill)
    else if k in keys.providers then Some(files.providers)
    else if k in keys.copilot then Some(files.copilot)
    else None
  }

  predicate Lacks(env: Env, k: string) {
    env.Held? ==> k !in env.values
  }

  /** Every value an environment file lacks is blank, and so left out, or a trimmed text of one line. */
  ghost predicate Addable(files: Files, sources: seq<Document>, keys: Keys) {
    forall k, v :: OldSays(files, sources, keys, k, v) && EnvFor(files, keys, k).Some? && Lacks(EnvFor(files, keys, k).value, k) ==>
      Blank(v) || GoodValue(v)
  }

  ghost predicate Migratable(files: Files, sources: seq<Document>, keys: Keys) {
    AllReadable(files, sources, keys) && OneValue(files, sources, keys) && Addable(files, sources, keys)
  }

  // ----- merging

  ghost predicate Member(values: Values, k: string, v: string) {
    k in values && values[k] == v
  }

  ghost predicate AllAgree(documents: seq<Document>, select: Document -> Result<Values>) {
    && (forall d :: d in documents ==> select(d).Ok?)
    && forall d, e :: d in documents && e in documents ==> Agree(select(d).value, select(e).value)
  }

  ghost predicate SomeSelects(documents: seq<Document>, select: Document -> Result<Values>, k: string, v: string) {
    exists d :: d in documents && select(d).Ok? && Member(select(d).value, k, v)
  }

  /** Merging succeeds exactly if each document can be read and no two disagree; it then gives what they say. */
  lemma {:induction false} SelectAllIff(documents: seq<Document>, select: Document -> Result<Values>)
    ensures SelectAll(documents, select).Ok? <==> AllAgree(documents, select)
    ensures SelectAll(documents, select).Ok? ==>
      forall k, v :: Member(SelectAll(documents, select).value, k, v) <==> SomeSelects(documents, select, k, v)
  {
    if documents != [] {
      var init, last := documents[..|documents| - 1], documents[|documents| - 1];
      assert documents == init + [last];
      SelectAllIff(init, select);
      if SelectAll(init, select).Ok? && select(last).Ok? {
        MergeLast(init, last, select);
      }
    }
  }

  lemma MergeLast(init: seq<Document>, last: Document, select: Document -> Result<Values>)
    requires SelectAll(init, select).Ok? && select(last).Ok? && AllAgree(init, select)
    requires forall k, v :: Member(SelectAll(init, select).value, k, v) <==> SomeSelects(init, select, k, v)
    ensures Agree(SelectAll(init, select).value, select(last).value) <==> AllAgree(init + [last], select)
    ensures forall k, v :: SomeSelects(init + [last], select, k, v) <==>
              SomeSelects(init, select, k, v) || Member(select(last).value, k, v)
  {
    var before, own := SelectAll(init, select).value, select(last).value;
    if Agree(before, own) {
      forall d, e | d in init + [last] && e in init + [last] ensures Agree(select(d).value, select(e).value) {
        forall k | k in select(d).value && k in select(e).value ensures select(d).value[k] == select(e).value[k] {
          assert d in init ==> SomeSelects(init, select, k, select(d).value[k]) by { assert Member(select(d).value, k, select(d).value[k]); }
          assert e in init ==> SomeSelects(init, select, k, select(e).value[k]) by { assert Member(select(e).value, k, select(e).value[k]); }
          assert d in init ==> Member(before, k, select(d).value[k]);
          assert e in init ==> Member(before, k, select(e).value[k]);
        }
      }
    }
    if AllAgree(init + [last], select) {
      forall k | k in before && k in own ensures before[k] == own[k] {
        assert Member(before, k, before[k]);
        var d :| d in init && select(d).Ok? && Member(select(d).value, k, before[k]);
        assert d in init + [last] && last in init + [last] && Agree(select(d).value, own);
      }
    }
    assert last in init + [last] && forall d :: d in init ==> d in init + [last];
  }

  lemma UnionIff(a: Values, b: Values)
    ensures Union(a, b).Ok? <==> forall k, v, w :: Member(a, k, v) && Member(b, k, w) ==> v == w
    ensures Union(a, b).Ok? ==> forall k, v :: Member(Union(a, b).value, k, v) <==> Member(a, k, v) || Member(b, k, v)
  {
    if forall k, v, w :: Member(a, k, v) && Member(b, k, w) ==> v == w {
      forall k | k in a && k in b ensures a[k] == b[k] {
        assert Member(a, k, a[k]) && Member(b, k, b[k]);
      }
    }
  }

  // ----- each old place

  lemma SelectIff(d: Document, keys: Keys)
    ensures Select(d, AllKeys(keys)).Ok? <==> GoodDocument(d, keys)
    ensures Select(d, AllKeys(keys)).Ok? ==> forall k, v ::
      Member(Select(d, AllKeys(keys)).value, k, v) <==> k in AllKeys(keys) && k in d && d[k] == Str(v)
  {
  }

  ghost predicate DocumentsAgree(sources: seq<Document>, keys: Keys) {
    forall k, v, w :: k in AllKeys(keys) && Documented(sources, k, v) && Documented(sources, k, w) ==> v == w
  }

  lemma DocumentsIff(sources: seq<Document>, keys: Keys)
    ensures SelectAll(sources, Selecting(AllKeys(keys))).Ok? <==>
            (forall d :: d in sources ==> GoodDocument(d, keys)) && DocumentsAgree(sources, keys)
    ensures SelectAll(sources, Selecting(AllKeys(keys))).Ok? ==> forall k, v ::
      Member(SelectAll(sources, Selecting(AllKeys(keys))).value, k, v) <==> k in AllKeys(keys) && Documented(sources, k, v)
  {
    var select := Selecting(AllKeys(keys));
    SelectAllIff(sources, select);
    forall d ensures select(d).Ok? <==> GoodDocument(d, keys)
             ensures select(d).Ok? ==> forall k, v :: Member(select(d).value, k, v) <==> k in AllKeys(keys) && k in d && d[k] == Str(v) {
      SelectIff(d, keys);
    }
    if forall d :: d in sources ==> GoodDocument(d, keys) {
      DocumentsAgreeIff(sources, keys, select);
      forall k, v ensures SomeSelects(sources, select, k, v) <==> k in AllKeys(keys) && Documented(sources, k, v) {
      }
    }
  }

  lemma DocumentsAgreeIff(sources: seq<Document>, keys: Keys, select: Document -> Result<Values>)
    requires forall d :: d in sources ==>
      && select(d).Ok?
      && forall k, v :: Member(select(d).value, k, v) <==> k in AllKeys(keys) && k in d && d[k] == Str(v)
    ensures AllAgree(sources, select) <==> DocumentsAgree(sources, keys)
  {
    if DocumentsAgree(sources, keys) {
      forall d, e | d in sources && e in sources ensures Agree(select(d).value, select(e).value) {
        forall k | k in select(d).value && k in select(e).value ensures select(d).value[k] == select(e).value[k] {
          assert Member(select(d).value, k, select(d).value[k]) && Member(select(e).value, k, select(e).value[k]);
          assert Documented(sources, k, select(d).value[k]) && Documented(sources, k, select(e).value[k]);
        }
      }
    }
    if AllAgree(sources, select) {
      forall k, v, w | k in AllKeys(keys) && Documented(sources, k, v) && Documented(sources, k, w) ensures v == w {
        var d :| d in sources && k in d && d[k] == Str(v);
        var e :| e in sources && k in e && e[k] == Str(w);
        assert Member(select(d).value, k, v) && Member(select(e).value, k, w);
      }
    }
  }

  lemma SelectS2Iff(d: Document)
    ensures SelectS2(d).Ok? <==> GoodZotero(d)
    ensures SelectS2(d).Ok? ==> forall k, v ::
      Member(SelectS2(d).value, k, v) <==> k == S2_KEY && v != "" && S2_FIELD in d && d[S2_FIELD] == Str(v)
  {
  }

  ghost predicate ZoteroAgrees(zotero: seq<Document>) {
    forall v, w :: ZoteroSays(zotero, v) && ZoteroSays(zotero, w) ==> v == w
  }

  lemma ZoteroIff(zotero: seq<Document>)
    ensures SelectAll(zotero, SelectingS2()).Ok? <==> (forall d :: d in zotero ==> GoodZotero(d)) && ZoteroAgrees(zotero)
    ensures SelectAll(zotero, SelectingS2()).Ok? ==> forall k, v ::
      Member(SelectAll(zotero, SelectingS2()).value, k, v) <==> k == S2_KEY && ZoteroSays(zotero, v)
  {
    var select := SelectingS2();
    SelectAllIff(zotero, select);
    forall d ensures select(d).Ok? <==> GoodZotero(d)
             ensures select(d).Ok? ==> forall k, v ::
               Member(select(d).value, k, v) <==> k == S2_KEY && v != "" && S2_FIELD in d && d[S2_FIELD] == Str(v) {
      SelectS2Iff(d);
    }
    if forall d :: d in zotero ==> GoodZotero(d) {
      ZoteroAgreesIff(zotero, select);
      forall k, v ensures SomeSelects(zotero, select, k, v) <==> k == S2_KEY && ZoteroSays(zotero, v) {
      }
    }
  }

  lemma ZoteroAgreesIff(zotero: seq<Document>, select: Document -> Result<Values>)
    requires forall d :: d in zotero ==>
      && select(d).Ok?
      && forall k, v :: Member(select(d).value, k, v) <==> k == S2_KEY && v != "" && S2_FIELD in d && d[S2_FIELD] == Str(v)
    ensures AllAgree(zotero, select) <==> ZoteroAgrees(zotero)
  {
    if ZoteroAgrees(zotero) {
      forall d, e | d in zotero && e in zotero ensures Agree(select(d).value, select(e).value) {
        forall k | k in select(d).value && k in select(e).value ensures select(d).value[k] == select(e).value[k] {
          assert Member(select(d).value, k, select(d).value[k]) && Member(select(e).value, k, select(e).value[k]);
          assert ZoteroSays(zotero, select(d).value[k]) && ZoteroSays(zotero, select(e).value[k]);
        }
      }
    }
    if AllAgree(zotero, select) {
      forall v, w | ZoteroSays(zotero, v) && ZoteroSays(zotero, w) ensures v == w {
        var d :| d in zotero && S2_FIELD in d && d[S2_FIELD] == Str(v);
        var e :| e in zotero && S2_FIELD in e && e[S2_FIELD] == Str(w);
        assert Member(select(d).value, S2_KEY, v) && Member(select(e).value, S2_KEY, w);
      }
    }
  }

  lemma ReadIff(env: Env, allowed: set<string>)
    ensures ReadKeys(env, allowed).Ok? <==> ReadableWithin(env, allowed)
    ensures ReadKeys(env, allowed).Ok? ==> forall k, v :: Member(ReadKeys(env, allowed).value, k, v) <==> k in allowed && Holds(env, k, v)
  {
  }

  // ----- all old places together

  ghost predicate OldReadable(files: Files, sources: seq<Document>, keys: Keys) {
    && (forall d :: d in sources ==> GoodDocument(d, keys)) && files.dotenv.Ok? && (forall d :: d in files.zotero ==> GoodZotero(d))
    && ReadableWithin(files.providers, keys.providers + keys.copilot)
  }

  ghost predicate OldAgree(files: Files, sources: seq<Document>, keys: Keys) {
    forall k, v, w :: OldSays(files, sources, keys, k, v) && OldSays(files, sources, keys, k, w) ==> v == w
  }

  /** What is asked of the skill authority if Zotero has a key. */
  ghost predicate SkillFits(files: Files, keys: Keys) {
    (exists v :: ZoteroSays(files.zotero, v)) ==>
      && ReadableWithin(files.skill, keys.skill)
      && forall v, w :: ZoteroSays(files.zotero, v) && Holds(files.skill, S2_KEY, w) ==> v == w
  }

  /** The four old places, as maps. */
  ghost predicate Parts(files: Files, sources: seq<Document>, keys: Keys, d: Values, t: Values, z: Values, p: Values) {
    && (forall k, v :: Member(d, k, v) <==> k in AllKeys(keys) && Documented(sources, k, v))
    && (forall k, v :: Member(t, k, v) <==> Assigned(files, k, v))
    && (forall k, v :: Member(z, k, v) <==> k == S2_KEY && ZoteroSays(files.zotero, v))
    && (forall k, v :: Member(p, k, v) <==> k in keys.providers + keys.copilot && Holds(files.providers, k, v))
  }

  ghost predicate Fits(a: Values, b: Values) {
    forall k, v, w :: Member(a, k, v) && Member(b, k, w) ==> v == w
  }

  predicate Any(d: Values, t: Values, z: Values, p: Values, k: string, v: string) {
    (k in d && d[k] == v) || (k in t && t[k] == v) || (k in z && z[k] == v) || (k in p && p[k] == v)
  }

  lemma FitsFrom(a: Values, b: Values, d: Values, t: Values, z: Values, p: Values)
    requires a in {d, t, z, p} && b in {d, t, z, p}
    requires forall k, v, w :: Any(d, t, z, p, k, v) && Any(d, t, z, p, k, w) ==> v == w
    ensures Fits(a, b)
  {
    forall k, v, w | Member(a, k, v) && Member(b, k, w) ensures v == w {
      assert Any(d, t, z, p, k, v) && Any(d, t, z, p, k, w);
    }
  }

  lemma AnyAgreesIff(d: Values, t: Values, z: Values, p: Values)
    ensures (forall k, v, w :: Any(d, t, z, p, k, v) && Any(d, t, z, p, k, w) ==> v == w) <==>
            Fits(d, t) && Fits(d, z) && Fits(d, p) && Fits(t, z) && Fits(t, p) && Fits(z, p)
  {
    if forall k, v, w :: Any(d, t, z, p, k, v) && Any(d, t, z, p, k, w) ==> v == w {
      FitsFrom(d, t, d, t, z, p);
      FitsFrom(d, z, d, t, z, p);
      FitsFrom(d, p, d, t, z, p);
      FitsFrom(t, z, d, t, z, p);
      FitsFrom(t, p, d, t, z, p);
      FitsFrom(z, p, d, t, z, p);
    }
    if Fits(d, t) && Fits(d, z) && Fits(d, p) && Fits(t, z) && Fits(t, p) && Fits(z, p) {
      forall k, v, w | Any(d, t, z, p, k, v) && Any(d, t, z, p, k, w) ensures v == w {
        assert Member(d, k, v) || Member(t, k, v) || Member(z, k, v) || Member(p, k, v);
        assert Member(d, k, w) || Member(t, k, w) || Member(z, k, w) || Member(p, k, w);
      }
    }
  }

  /** The old places agree exactly if their maps fit together pairwise. */
  lemma PartsAgree(files: Files, sources: seq<Document>, keys: Keys, d: Values, t: Values, z: Values, p: Values)
    requires Parts(files, sources, keys, d, t, z, p)
    ensures OldAgree(files, sources, keys) <==> Fits(d, t) && Fits(d, z) && Fits(d, p) && Fits(t, z) && Fits(t, p) && Fits(z, p)
    ensures forall k, v :: OldSays(files, sources, keys, k, v) <==> Any(d, t, z, p, k, v)
  {
    forall k, v ensures OldSays(files, sources, keys, k, v) <==> Any(d, t, z, p, k, v) {
      assert Any(d, t, z, p, k, v) <==> Member(d, k, v) || Member(t, k, v) || Member(z, k, v) || Member(p, k, v);
    }
    AnyAgreesIff(d, t, z, p);
  }

  // ----- merging the old places

  lemma FitsUnion(a: Values, b: Values, c: Values)
    requires Fits(a, b)
    ensures Union(a, b).Ok? && (Fits(Union(a, b).value, c) <==> Fits(a, c) && Fits(b, c))
  {
    UnionIff(a, b);
    var u := Union(a, b).value;
    if Fits(u, c) {
      forall k, v, w | Member(a, k, v) && Member(c, k, w) ensures v == w { assert Member(u, k, v); }
      forall k, v, w | Member(b, k, v) && Member(c, k, w) ensures v == w { assert Member(u, k, v); }
    }
  }

  /** Three or four maps are merged exactly if they fit; without Zotero's key its map is left out. */
  lemma MergedIff(d: Values, t: Values, z: Values, p: Values)
    requires Fits(d, t) && Fits(d, z) && Fits(d, p) && Fits(t, z) && Fits(t, p) && Fits(z, p)
    ensures Union(d, t).Ok? && Union(Union(d, t).value, z).Ok? && Union(Union(d, t).value, p).Ok?
    ensures Union(Union(Union(d, t).value, z).value, p).Ok?
    ensures forall k, v :: Member(Union(Union(Union(d, t).value, z).value, p).value, k, v) <==> Any(d, t, z, p, k, v)
    ensures z == map[] ==> Union(Union(d, t).value, z).value == Union(d, t).value
  {
    FitsUnion(d, t, z);
    FitsUnion(d, t, p);
    var two := Union(d, t).value;
    FitsUnion(two, z, p);
    UnionIff(d, t);
    UnionIff(two, z);
    UnionIff(two, p);
    UnionIff(Union(two, z).value, p);
    forall k, v ensures Member(Union(Union(two, z).value, p).value, k, v) <==> Any(d, t, z, p, k, v) {
      assert Any(d, t, z, p, k, v) <==> Member(d, k, v) || Member(t, k, v) || Member(z, k, v) || Member(p, k, v);
    }
  }

  lemma OldPlacesAgree(files: Files, sources: seq<Document>, keys: Keys)
    requires OldAgree(files, sources, keys)
    ensures DocumentsAgree(sources, keys) && ZoteroAgrees(files.zotero)
  {
    forall k, v, w | k in AllKeys(keys) && Documented(sources, k, v) && Documented(sources, k, w) ensures v == w {
      assert OldSays(files, sources, keys, k, v) && OldSays(files, sources, keys, k, w);
    }
    forall v, w | ZoteroSays(files.zotero, v) && ZoteroSays(files.zotero, w) ensures v == w {
      assert OldSays(files, sources, keys, S2_KEY, v) && OldSays(files, sources, keys, S2_KEY, w);
    }
  }

  /** The maps of the old places, if each can be read and agrees with itself. */
  lemma PartsOf(files: Files, sources: seq<Document>, keys: Keys) returns (d: Values, t: Values, z: Values, p: Values)
    requires OldReadable(files, sources, keys) && DocumentsAgree(sources, keys) && ZoteroAgrees(files.zotero)
    ensures SelectAll(sources, Selecting(AllKeys(keys))) == Ok(d) && files.dotenv == Ok(t)
    ensures SelectAll(files.zotero, SelectingS2()) == Ok(z) && ReadKeys(files.providers, keys.providers + keys.copilot) == Ok(p)
    ensures Parts(files, sources, keys, d, t, z, p)
  {
    DocumentsIff(sources, keys);
    ZoteroIff(files.zotero);
    ReadIff(files.providers, keys.providers + keys.copilot);
    d, t := SelectAll(sources, Selecting(AllKeys(keys))).value, files.dotenv.value;
    z, p := SelectAll(files.zotero, SelectingS2()).value, ReadKeys(files.providers, keys.providers + keys.copilot).value;
  }

  /** What the skill authority is asked, in terms of the map of Zotero's key. */
  lemma SkillFitsIff(files: Files, keys: Keys, z: Values)
    requires S2_KEY in keys.skill && forall k, v :: Member(z, k, v) <==> k == S2_KEY && ZoteroSays(files.zotero, v)
    ensures SkillFits(files, keys) <==>
            (z != map[] ==> ReadKeys(files.skill, keys.skill).Ok? && Agree(ReadKeys(files.skill, keys.skill).value, z))
  {
    ReadIff(files.skill, keys.skill);
    assert z != map[] <==> exists k :: k in z;
    forall v ensures ZoteroSays(files.zotero, v) <==> S2_KEY in z && z[S2_KEY] == v {
      assert Member(z, S2_KEY, v) <==> ZoteroSays(files.zotero, v);
    }
    forall k | k in z ensures k == S2_KEY {
      assert Member(z, k, z[k]);
    }
    if z == map[] {
      assert forall v :: !ZoteroSays(files.zotero, v);
    } else {
      assert S2_KEY in z && ZoteroSays(files.zotero, z[S2_KEY]);
    }
    if z != map[] && ReadableWithin(files.skill, keys.skill) {
      AgreeOnIff(ReadKeys(files.skill, keys.skill).value, z, S2_KEY);
      assert forall w :: Member(ReadKeys(files.skill, keys.skill).value, S2_KEY, w) <==> Holds(files.skill, S2_KEY, w);
    }
  }

  /** Agreement with a map of one key. */
  lemma AgreeOnIff(a: Values, z: Values, key: string)
    requires key in z && forall k :: k in z ==> k == key
    ensures Agree(a, z) <==> forall w :: Member(a, key, w) ==> z[key] == w
  {
    if key in a {
      assert Member(a, key, a[key]);
    }
  }

  lemma LegacyReads(files: Files, sources: seq<Document>, keys: Keys)
    requires OneAuthority(keys) && OldReadable(files, sources, keys) && OldAgree(files, sources, keys) && SkillFits(files, keys)
    ensures Legacy(files, sources, keys).Ok?
    ensures forall k, v :: Member(Legacy(files, sources, keys).value, k, v) <==> OldSays(files, sources, keys, k, v)
  {
    OldPlacesAgree(files, sources, keys);
    var d, t, z, p := PartsOf(files, sources, keys);
    PartsAgree(files, sources, keys, d, t, z, p);
    MergedIff(d, t, z, p);
    SkillFitsIff(files, keys, z);
  }

  lemma UnionFits(a: Values, b: Values)
    requires Union(a, b).Ok?
    ensures Fits(a, b)
  {
    UnionIff(a, b);
  }

  lemma LegacyNeeds(files: Files, sources: seq<Document>, keys: Keys)
    requires OneAuthority(keys) && Legacy(files, sources, keys).Ok?
    ensures OldReadable(files, sources, keys) && OldAgree(files, sources, keys) && SkillFits(files, keys)
  {
    DocumentsIff(sources, keys);
    ZoteroIff(files.zotero);
    ReadIff(files.providers, keys.providers + keys.copilot);
    var d, t, z, p := PartsOf(files, sources, keys);
    var two := Union(d, t).value;
    UnionFits(d, t);
    if z != map[] {
      UnionFits(two, z);
      UnionFits(Union(two, z).value, p);
      FitsUnion(two, z, p);
    } else {
      UnionFits(two, p);
    }
    FitsUnion(d, t, z);
    FitsUnion(d, t, p);
    PartsAgree(files, sources, keys, d, t, z, p);
    SkillFitsIff(files, keys, z);
  }

  /** The old places can be merged exactly if each can be read, no two disagree, and Zotero's key fits the
      skill authority; the legacy values are then what they say. */
  lemma LegacyIff(files: Files, sources: seq<Document>, keys: Keys)
    requires OneAuthority(keys)
    ensures Legacy(files, sources, keys).Ok? <==>
            OldReadable(files, sources, keys) && OldAgree(files, sources, keys) && SkillFits(files, keys)
    ensures Legacy(files, sources, keys).Ok? ==>
            forall k, v :: Member(Legacy(files, sources, keys).value, k, v) <==> OldSays(files, sources, keys, k, v)
  {
    if Legacy(files, sources, keys).Ok? {
      LegacyNeeds(files, sources, keys);
    }
    if OldReadable(files, sources, keys) && OldAgree(files, sources, keys) && SkillFits(files, keys) {
      LegacyReads(files, sources, keys);
    }
  }

  // ----- the checks before each write, on the files as they were

  predicate Mergeable(env: Env, allowed: set<string>, legacy: Values) {
    MergeEnv(env, allowed, legacy).Ok?
  }

  /** The check before the n-th write, made on the first state of the run. */
  predicate Passes(n: nat, files: Files, legacy: Values, keys: Keys) {
    if n == 1 then Matching(Split(files, keys), legacy, keys) && Texts(files.shared).Keys <= keys.shared
    else if n == 2 then Mergeable(files.compute, keys.compute, legacy)
    else if n == 3 then Mergeable(files.skill, keys.skill, legacy)
    else if n == 4 then Mergeable(Split(files, keys).providers, keys.providers, legacy)
    else if n == 5 then Mergeable(files.copilot, keys.copilot, legacy)
    else true
  }

  ghost predicate PassesAll(files: Files, legacy: Values, keys: Keys) {
    forall n: nat :: Passes(n, files, legacy, keys)
  }

  /** An authority is as the split left it until its own write. */
  lemma {:induction false} NotYetWritten(trace: seq<Files>, legacy: Values, keys: Keys, i: nat)
    requires Run(trace, legacy, keys) && 1 <= i < |trace| && i <= 5
    ensures var s := Split(trace[0], keys);
      && (i <= 1 ==> trace[i] == s) && (i <= 2 ==> trace[i].compute == s.compute) && (i <= 3 ==> trace[i].skill == s.skill)
      && (i <= 4 ==> trace[i].providers == s.providers) && trace[i].copilot == s.copilot
  {
    RunStep(trace, legacy, keys, i - 1);
    if i > 1 {
      NotYetWritten(trace, legacy, keys, i - 1);
    }
  }

  lemma StageIff(trace: seq<Files>, legacy: Values, keys: Keys, n: nat)
    requires Run(trace, legacy, keys) && 1 <= n < |trace| && n <= 5
    ensures Stage(n, trace[n], legacy, keys).Ok? <==> Passes(n, trace[0], legacy, keys)
  {
    NotYetWritten(trace, legacy, keys, n);
  }

  /** A complete run passed every check, and a run that stops at a check did not. */
  lemma CompletePasses(trace: seq<Files>, legacy: Values, keys: Keys)
    requires Run(trace, legacy, keys) && |trace| == STAGES + 1
    ensures PassesAll(trace[0], legacy, keys)
  {
    forall n: nat ensures Passes(n, trace[0], legacy, keys) {
      if 1 <= n <= 5 {
        RunStep(trace, legacy, keys, n);
        StageIff(trace, legacy, keys, n);
      }
    }
  }

  lemma StoppedFails(trace: seq<Files>, legacy: Values, keys: Keys)
    requires Run(trace, legacy, keys) && 2 <= |trace| <= 6 && Stage(|trace| - 1, trace[|trace| - 1], legacy, keys).Raise?
    ensures !PassesAll(trace[0], legacy, keys)
  {
    StageIff(trace, legacy, keys, |trace| - 1);
  }

  // ----- one authority

  /** The authority and the legacy values agree. */
  ghost predicate FitsEnv(env: Env, allowed: set<string>, legacy: Values) {
    forall k, v, w :: k in allowed && Holds(env, k, v) && Member(legacy, k, w) ==> v == w
  }

  ghost predicate AddsGood(env: Env, allowed: set<string>, legacy: Values) {
    forall k, v :: k in allowed && Member(legacy, k, v) && Lacks(env, k) ==> Blank(v) || GoodValue(v)
  }

  lemma EnvAgreeIff(env: Env, allowed: set<string>, legacy: Values)
    requires ReadableWithin(env, allowed)
    ensures Agree(ReadKeys(env, allowed).value, legacy) <==> FitsEnv(env, allowed, legacy)
  {
    var read := ReadKeys(env, allowed).value;
    if FitsEnv(env, allowed, legacy) {
      forall k | k in read && k in legacy ensures read[k] == legacy[k] {
        assert Holds(env, k, read[k]) && Member(legacy, k, legacy[k]);
      }
    }
  }

  lemma MergeableIff(env: Env, allowed: set<string>, legacy: Values)
    requires ReadableWithin(env, allowed)
    ensures Mergeable(env, allowed, legacy) <==> AddsGood(env, allowed, legacy)
  {
    var missing := Missing(ReadKeys(env, allowed).value.Keys, allowed, legacy);
    if AddsGood(env, allowed, legacy) {
      forall k | k in missing ensures GoodValue(missing[k]) {
        assert Member(legacy, k, missing[k]) && Lacks(env, k);
      }
    }
    if AllGood(missing) {
      forall k, v | k in allowed && Member(legacy, k, v) && Lacks(env, k) ensures Blank(v) || GoodValue(v) {
        assert !Blank(v) ==> k in missing;
      }
    }
  }

  /** After the split the vault is within the provider keys, holds what it held there, and agrees with what
      was read from it. */
  lemma SplitVault(files: Files, keys: Keys, legacy: Values)
    requires OneAuthority(keys) && ReadableWithin(files.providers, keys.providers + keys.copilot)
    requires forall k, v :: k in keys.providers && Holds(files.providers, k, v) ==> Member(legacy, k, v)
    ensures ReadableWithin(Split(files, keys).providers, keys.providers)
    ensures forall k :: k in keys.providers ==> (Lacks(Split(files, keys).providers, k) <==> Lacks(files.providers, k))
    ensures FitsEnv(Split(files, keys).providers, keys.providers, legacy)
  {
    forall k, v, w | k in keys.providers && Holds(Split(files, keys).providers, k, v) && Member(legacy, k, w) ensures v == w {
      assert Holds(files.providers, k, v);
    }
  }

  ghost predicate FitsShared(files: Files, keys: Keys, legacy: Values) {
    forall k, v :: k in Texts(files.shared) && Member(legacy, k, v) ==> Texts(files.shared)[k] == Str(v)
  }

  /** All checks pass exactly if every authority keeps to its keys and agrees with the legacy values, and every
      value added to an environment file is fit for one. */
  lemma PassesAllIff(files: Files, legacy: Values, keys: Keys)
    requires OneAuthority(keys) && ReadableWithin(files.providers, keys.providers + keys.copilot)
    requires forall k, v :: k in keys.providers && Holds(files.providers, k, v) ==> Member(legacy, k, v)
    ensures PassesAll(files, legacy, keys) <==>
      && Texts(files.shared).Keys <= keys.shared && FitsShared(files, keys, legacy)
      && ReadableWithin(files.compute, keys.compute) && ReadableWithin(files.skill, keys.skill) && ReadableWithin(files.copilot, keys.copilot)
      && FitsEnv(files.compute, keys.compute, legacy) && FitsEnv(files.skill, keys.skill, legacy)
      && FitsEnv(files.copilot, keys.copilot, legacy)
      && AddsGood(files.compute, keys.compute, legacy) && AddsGood(files.skill, keys.skill, legacy)
      && AddsGood(files.providers, keys.providers, legacy) && AddsGood(files.copilot, keys.copilot, legacy)
  {
    var s := Split(files, keys);
    SplitVault(files, keys, legacy);
    EnvAgreeIff(s.providers, keys.providers, legacy);
    MergeableIff(s.providers, keys.providers, legacy);
    assert AddsGood(s.providers, keys.providers, legacy) <==> AddsGood(files.providers, keys.providers, legacy);
    SharedIff(files, keys, legacy);
    PassesSome(files, legacy, keys);
    if ReadableWithin(files.compute, keys.compute) && ReadableWithin(files.skill, keys.skill) && ReadableWithin(files.copilot, keys.copilot) {
      EnvAgreeIff(files.compute, keys.compute, legacy);
      EnvAgreeIff(files.skill, keys.skill, legacy);
      EnvAgreeIff(files.copilot, keys.copilot, legacy);
      MergeableIff(files.compute, keys.compute, legacy);
      MergeableIff(files.skill, keys.skill, legacy);
      MergeableIff(files.copilot, keys.copilot, legacy);
    }
  }

  lemma SharedIff(files: Files, keys: Keys, legacy: Values)
    ensures FitsShared(files, keys, legacy) <==>
            forall k :: k in Texts(files.shared) && k in legacy ==> Texts(files.shared)[k] == Str(legacy[k])
  {
    if FitsShared(files, keys, legacy) {
      forall k | k in Texts(files.shared) && k in legacy ensures Texts(files.shared)[k] == Str(legacy[k]) {
        assert Member(legacy, k, legacy[k]);
      }
    }
  }

  lemma PassesSome(files: Files, legacy: Values, keys: Keys)
    ensures PassesAll(files, legacy, keys) <==>
            Passes(1, files, legacy, keys) && Passes(2, files, legacy, keys) && Passes(3, files, legacy, keys)
            && Passes(4, files, legacy, keys) && Passes(5, files, legacy, keys)
  {
  }

  // ----- the whole run

  /** No two places disagree exactly if the old places agree and fit every authority. */
  lemma OneValueIff(files: Files, sources: seq<Document>, keys: Keys, legacy: Values)
    requires OneAuthority(keys) && Texts(files.shared).Keys <= keys.shared
    requires forall k, v :: Member(legacy, k, v) <==> OldSays(files, sources, keys, k, v)
    requires OldAgree(files, sources, keys)
    ensures OneValue(files, sources, keys) <==>
      && FitsShared(files, keys, legacy) && FitsEnv(files.compute, keys.compute, legacy)
      && FitsEnv(files.skill, keys.skill, legacy) && FitsEnv(files.copilot, keys.copilot, legacy)
  {
    if OneValue(files, sources, keys) {
      OneValueFits(files, sources, keys, legacy);
    }
    if FitsShared(files, keys, legacy) && FitsEnv(files.compute, keys.compute, legacy)
       && FitsEnv(files.skill, keys.skill, legacy) && FitsEnv(files.copilot, keys.copilot, legacy) {
      forall k, x, y | Says(files, sources, keys, k, x) && Says(files, sources, keys, k, y) ensures x == y {
        SaysAgree(files, sources, keys, legacy, k, x, y);
      }
    }
  }

  lemma OneValueFits(files: Files, sources: seq<Document>, keys: Keys, legacy: Values)
    requires OneValue(files, sources, keys) && Texts(files.shared).Keys <= keys.shared
    requires forall k, v :: Member(legacy, k, v) <==> OldSays(files, sources, keys, k, v)
    ensures FitsShared(files, keys, legacy) && FitsEnv(files.compute, keys.compute, legacy)
    ensures FitsEnv(files.skill, keys.skill, legacy) && FitsEnv(files.copilot, keys.copilot, legacy)
  {
    forall k, v | k in Texts(files.shared) && Member(legacy, k, v) ensures Texts(files.shared)[k] == Str(v) {
      assert Says(files, sources, keys, k, Texts(files.shared)[k]) && Says(files, sources, keys, k, Str(v));
    }
    forall k, v, w | k in keys.compute && Holds(files.compute, k, v) && Member(legacy, k, w) ensures v == w {
      assert Says(files, sources, keys, k, Str(v)) && Says(files, sources, keys, k, Str(w));
    }
    forall k, v, w | k in keys.skill && Holds(files.skill, k, v) && Member(legacy, k, w) ensures v == w {
      assert Says(files, sources, keys, k, Str(v)) && Says(files, sources, keys, k, Str(w));
    }
    forall k, v, w | k in keys.copilot && Holds(files.copilot, k, v) && Member(legacy, k, w) ensures v == w {
      assert Says(files, sources, keys, k, Str(v)) && Says(files, sources, keys, k, Str(w));
    }
  }

  lemma OwnFitsOld(files: Files, sources: seq<Document>, keys: Keys, legacy: Values, k: string, x: Json, v: string)
    requires OneAuthority(keys) && OldAgree(files, sources, keys)
    requires forall k, v :: Member(legacy, k, v) <==> OldSays(files, sources, keys, k, v)
    requires FitsShared(files, keys, legacy) && FitsEnv(files.compute, keys.compute, legacy)
    requires FitsEnv(files.skill, keys.skill, legacy) && FitsEnv(files.copilot, keys.copilot, legacy)
    requires OwnSays(files, keys, k, x) && OldSays(files, sources, keys, k, v)
    ensures x == Str(v)
  {
    assert Member(legacy, k, v);
    if x.Str? && k in keys.providers && Holds(files.providers, k, x.s) {
      assert OldSays(files, sources, keys, k, x.s);
    }
  }

  lemma SaysAgree(files: Files, sources: seq<Document>, keys: Keys, legacy: Values, k: string, x: Json, y: Json)
    requires OneAuthority(keys) && OldAgree(files, sources, keys)
    requires forall k, v :: Member(legacy, k, v) <==> OldSays(files, sources, keys, k, v)
    requires FitsShared(files, keys, legacy) && FitsEnv(files.compute, keys.compute, legacy)
    requires FitsEnv(files.skill, keys.skill, legacy) && FitsEnv(files.copilot, keys.copilot, legacy)
    requires Says(files, sources, keys, k, x) && Says(files, sources, keys, k, y)
    ensures x == y
  {
    if OwnSays(files, keys, k, x) && OwnSays(files, keys, k, y) {
      OwnAgrees(files, keys, k, x, y);
    } else if OwnSays(files, keys, k, x) {
      OwnFitsOld(files, sources, keys, legacy, k, x, y.s);
    } else if OwnSays(files, keys, k, y) {
      OwnFitsOld(files, sources, keys, legacy, k, y, x.s);
    }
  }

  lemma OwnAgrees(files: Files, keys: Keys, k: string, x: Json, y: Json)
    requires OneAuthority(keys) && OwnSays(files, keys, k, x) && OwnSays(files, keys, k, y)
    ensures x == y
  {
  }

  /** What is missing in an environment file and can be added, authority by authority. */
  lemma AddableIff(files: Files, sources: seq<Document>, keys: Keys, legacy: Values)
    requires OneAuthority(keys) && forall k, v :: Member(legacy, k, v) <==> OldSays(files, sources, keys, k, v)
    ensures Addable(files, sources, keys) <==>
      && AddsGood(files.compute, keys.compute, legacy) && AddsGood(files.skill, keys.skill, legacy)
      && AddsGood(files.providers, keys.providers, legacy) && AddsGood(files.copilot, keys.copilot, legacy)
  {
    if Addable(files, sources, keys) {
      forall k, v | k in keys.compute && Member(legacy, k, v) && Lacks(files.compute, k) ensures Blank(v) || GoodValue(v) {
        assert OldSays(files, sources, keys, k, v) && EnvFor(files, keys, k) == Some(files.compute);
      }
      forall k, v | k in keys.skill && Member(legacy, k, v) && Lacks(files.skill, k) ensures Blank(v) || GoodValue(v) {
        assert OldSays(files, sources, keys, k, v) && EnvFor(files, keys, k) == Some(files.skill);
      }
      forall k, v | k in keys.providers && Member(legacy, k, v) && Lacks(files.providers, k) ensures Blank(v) || GoodValue(v) {
        assert OldSays(files, sources, keys, k, v) && EnvFor(files, keys, k) == Some(files.providers);
      }
      forall k, v | k in keys.copilot && Member(legacy, k, v) && Lacks(files.copilot, k) ensures Blank(v) || GoodValue(v) {
        assert OldSays(files, sources, keys, k, v) && EnvFor(files, keys, k) == Some(files.copilot);
      }
    }
  }

  lemma SkillFitsToo(files: Files, sources: seq<Document>, keys: Keys)
    requires OneAuthority(keys) && AllReadable(files, sources, keys) && OneValue(files, sources, keys)
    ensures SkillFits(files, keys) && OldAgree(files, sources, keys)
  {
    forall v, w | ZoteroSays(files.zotero, v) && Holds(files.skill, S2_KEY, w) ensures v == w {
      assert Says(files, sources, keys, S2_KEY, Str(v)) && Says(files, sources, keys, S2_KEY, Str(w));
    }
    forall k, v, w | OldSays(files, sources, keys, k, v) && OldSays(files, sources, keys, k, w) ensures v == w {
      assert Says(files, sources, keys, k, Str(v)) && Says(files, sources, keys, k, Str(w));
    }
  }

  /** The old places can be merged and every check passes exactly if everything there can be read within its
      keys, no two places disagree, and what is added is blank, and left out, or fit for an environment file. */
  lemma MigratableIff(files: Files, sources: seq<Document>, keys: Keys)
    requires OneAuthority(keys)
    ensures Legacy(files, sources, keys).Ok? && PassesAll(files, Legacy(files, sources, keys).value, keys) <==>
            Migratable(files, sources, keys)
  {
    LegacyIff(files, sources, keys);
    if Migratable(files, sources, keys) {
      SkillFitsToo(files, sources, keys);
    }
    if Legacy(files, sources, keys).Ok? {
      var legacy := Legacy(files, sources, keys).value;
      PassesAllIff(files, legacy, keys);
      AddableIff(files, sources, keys, legacy);
      if Texts(files.shared).Keys <= keys.shared {
        OneValueIff(files, sources, keys, legacy);
      }
    }
  }

  // ----- a first migration

  /** How many authorities a key has. */
  function Owners(keys: Keys, k: string): nat {
    (if k in keys.shared then 1 else 0) + (if k in keys.compute then 1 else 0) + (if k in keys.skill then 1 else 0)
    + (if k in keys.providers then 1 else 0) + (if k in keys.copilot then 1 else 0)
  }

  lemma OneAuthorityIff(keys: Keys)
    ensures OneAuthority(keys) <==> S2_KEY in keys.skill && forall k :: Owners(keys, k) <= 1
  {
    if forall k :: Owners(keys, k) <= 1 {
      forall k ensures !(k in keys.shared && k in keys.compute) && !(k in keys.shared && k in keys.skill)
               && !(k in keys.shared && k in keys.providers) && !(k in keys.shared && k in keys.copilot)
               && !(k in keys.compute && k in keys.skill) && !(k in keys.compute && k in keys.providers)
               && !(k in keys.compute && k in keys.copilot) && !(k in keys.skill && k in keys.providers)
               && !(k in keys.skill && k in keys.copilot) && !(k in keys.providers && k in keys.copilot) {
        assert Owners(keys, k) <= 1;
      }
    }
  }

  /** The files of a home that has nothing yet. */
  function NewHome(): Files {
    Files(None, Absent, Absent, Absent, Absent, Ok(map[]), [])
  }

  /** A new home with one old document that gives one declared key a value fit for an environment file can be
      migrated. */
  lemma FirstMigration(keys: Keys, k: string, v: string)
    requires Owners(keys, k) == 1 && GoodValue(v)
    ensures Migratable(NewHome(), [map[k := Str(v)]], keys)
  {
    var document: Document := map[k := Str(v)];
    assert Strip(v) == v && !Blank(v);
    assert GoodDocument(document, keys);
    forall l, w | OldSays(NewHome(), [document], keys, l, w) ensures l == k && w == v {
    }
    forall l, x | Says(NewHome(), [document], keys, l, x) ensures x == Str(v) {
    }
  }
}
