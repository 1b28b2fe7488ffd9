/** Snapshots of live or legacy jobs, with the program's own logical_job and home normalization. */
module CronSnapshots {
  import opened Wrappers
  import opened Text
  import opened Json
  import opened CronJobs
  import opened CronClaims

  /** The job names its own key. */
  predicate Explicit(raw: Json) {
    raw.Obj? && "declarationKey" in raw.fields && raw.fields["declarationKey"].Str? && !Blank(raw.fields["declarationKey"].s)
  }

  /** logical_job, and the test for a key of the job's own, as values. */
  datatype Reader = Reader(logic: Json -> Result<Job>, explicit: Json -> bool)

  function ClaimOf(raw: Json, reader: Reader): Result<Claim> {
    var job :- reader.logic(raw);
    if KeyedJob(job) then Ok(Claim(KeyOf(job), reader.explicit(raw), job)) else Raise
  }

  /** transform_home, or nothing without a home */
  function Portable(raw: Json, home: Option<string>): Json {
    if home.Some? then Transform(raw, home.value, false) else raw
  }

  function ClaimingBy(view: Json -> Json, reader: Reader): Claiming {
    raw => ClaimOf(view(raw), reader)
  }

  function ReaderFor(prefix: string, rules: Rules): Reader {
    Reader(raw => LogicalJob(raw, prefix, rules), raw => Explicit(raw))
  }

  function ClaimingWith(prefix: string, home: Option<string>, rules: Rules): Claiming {
    ClaimingBy(raw => Portable(raw, home), ReaderFor(prefix, rules))
  }

  lemma ValidIsExplicit(job: Job, rules: Rules)
    requires ValidJob(job, rules)
    ensures KeyedJob(job) && Explicit(Obj(job))
  {
  }

  /** The job is its own logical job, under a key it names. */
  ghost predicate OwnLogical(job: Job, reader: Reader) {
    KeyedJob(job) && reader.explicit(Obj(job)) && reader.logic(Obj(job)) == Ok(job)
  }

  ghost predicate GivesOwnLogical(reader: Reader) {
    forall raw :: reader.logic(raw).Ok? ==> OwnLogical(reader.logic(raw).value, reader)
  }

  lemma LogicalGivesOwn(prefix: string, rules: Rules)
    ensures GivesOwnLogical(ReaderFor(prefix, rules))
  {
    var reader := ReaderFor(prefix, rules);
    forall raw | reader.logic(raw).Ok? ensures OwnLogical(reader.logic(raw).value, reader) {
      LogicalIsValid(raw, prefix, rules);
      LogicalIsIdentity(reader.logic(raw).value, prefix, rules);
      ValidIsExplicit(reader.logic(raw).value, rules);
    }
  }

  lemma ClaimBy(view: Json -> Json, reader: Reader, raw: Json)
    ensures ClaimingBy(view, reader)(raw) == ClaimOf(view(raw), reader)
    ensures ClaimOf(view(raw), reader).Ok? ==>
      reader.logic(view(raw)).Ok? && ClaimOf(view(raw), reader).value.job == reader.logic(view(raw)).value
  {
  }

  /** Every claim's job, read again as it is, makes the same claim explicitly. */
  lemma ClaimsReread(view: Json -> Json, reader: Reader)
    requires GivesOwnLogical(reader)
    ensures Rereads(ClaimingBy(view, reader), ClaimingBy(raw => raw, reader))
  {
    var claiming := ClaimingBy(view, reader);
    forall raw | claiming(raw).Ok? ensures SelfClaiming(claiming(raw).value, ClaimingBy(raw => raw, reader)) {
      ClaimBy(view, reader, raw);
      assert OwnLogical(reader.logic(view(raw)).value, reader);
      ClaimBy(raw => raw, reader, Obj(claiming(raw).value.job));
    }
  }

  ghost predicate GivesValid(reader: Reader, valid: Job -> bool) {
    forall raw :: reader.logic(raw).Ok? ==> valid(reader.logic(raw).value)
  }

  lemma LogicalGivesValid(prefix: string, rules: Rules)
    ensures GivesValid(ReaderFor(prefix, rules), job => ValidJob(job, rules))
  {
    var reader := ReaderFor(prefix, rules);
    forall raw | reader.logic(raw).Ok? ensures ValidJob(reader.logic(raw).value, rules) {
      LogicalIsValid(raw, prefix, rules);
    }
  }

  /** Every claim's job is valid, and claimed by its own key. */
  lemma ClaimsAreValid(view: Json -> Json, reader: Reader, valid: Job -> bool)
    requires GivesValid(reader, valid)
    ensures AllValid(ClaimingBy(view, reader), valid)
  {
    var claiming := ClaimingBy(view, reader);
    forall raw | claiming(raw).Ok? ensures ValidClaim(claiming(raw).value, valid) {
      ClaimBy(view, reader, raw);
      assert valid(reader.logic(view(raw)).value);
    }
  }

  // ----- generated keys

  /** A job the program would give a key to. */
  predicate Unnamed(raw: Json, reader: Reader) {
    reader.logic(raw).Ok? && !reader.explicit(raw)
  }

  /** What the key of such a job is made from: the rest of it. */
  function Seed(raw: Json, reader: Reader): Job
    requires Unnamed(raw, reader)
  {
    WithoutKey(reader.logic(raw).value)
  }

  /** Among these raw jobs the digest, of one length as sha256 prefixes are, tells the seeds apart. */
  ghost predicate DigestTellsApart(raws: seq<Json>, view: Json -> Json, reader: Reader, digest: Job -> string) {
    forall x, y :: x in raws && y in raws && Unnamed(view(x), reader) && Unnamed(view(y), reader) ==>
      Distinguished(Seed(view(x), reader), Seed(view(y), reader), digest)
  }

  predicate Distinguished(a: Job, b: Job, digest: Job -> string) {
    |digest(a)| == |digest(b)| && (digest(a) == digest(b) ==> a == b)
  }

  /** A digest of one length that gives no two jobs the same tells any seeds apart. */
  lemma InjectiveDigest(raws: seq<Json>, view: Json -> Json, reader: Reader, digest: Job -> string)
    requires forall a, b :: |digest(a)| == |digest(b)| && (digest(a) == digest(b) ==> a == b)
    ensures DigestTellsApart(raws, view, reader, digest)
  {
    forall a, b ensures Distinguished(a, b, digest) {
      assert |digest(a)| == |digest(b)| && (digest(a) == digest(b) ==> a == b);
    }
  }

  /** A job whose key is not its own carries the key made from the rest of it. */
  ghost predicate GeneratesKeys(reader: Reader, key: Job -> string) {
    forall raw :: Unnamed(raw, reader) ==>
      KeyedJob(reader.logic(raw).value) && KeyOf(reader.logic(raw).value) == key(Seed(raw, reader))
  }

  /** Different keys are made from seeds that the digest distinguishes. */
  ghost predicate Injective(key: Job -> string, digest: Job -> string) {
    forall a, b :: key(a) == key(b) && Distinguished(a, b, digest) ==> a == b
  }

  lemma GeneratedKeysInjective(prefix: string, rules: Rules)
    ensures Injective(job => GeneratedKey(job, prefix, rules), rules.digest)
  {
    forall a, b | GeneratedKey(a, prefix, rules) == GeneratedKey(b, prefix, rules) && Distinguished(a, b, rules.digest)
      ensures a == b
    {
      var x, y := GeneratedKey(a, prefix, rules), GeneratedKey(b, prefix, rules);
      var n := |rules.digest(a)|;
      assert x[|x| - n..] == rules.digest(a) && y[|y| - n..] == rules.digest(b);
    }
  }

  /** A valid logical job whose key was not explicit carries the key generated from the rest of it. */
  lemma GeneratedJob(raw: Json, prefix: string, rules: Rules)
    requires LogicalJob(raw, prefix, rules).Ok? && !Explicit(raw)
    ensures var job := LogicalJob(raw, prefix, rules).value;
      KeyedJob(job) && KeyOf(job) == GeneratedKey(WithoutKey(job), prefix, rules)
  {
    NoOwnKey(raw);
    GivenKey(WithDefaults(LogicalFields(raw.fields)), prefix, rules);
  }

  /** A job that names no key either has none left, or one that is no text, which is not valid. */
  lemma NoOwnKey(raw: Json)
    requires raw.Obj? && !Explicit(raw)
    ensures var seed := WithDefaults(LogicalFields(raw.fields));
      HasOwnKey(seed) ==> !seed["declarationKey"].Str?
  {
    var kept := LogicalFields(raw.fields);
    if "declarationKey" in kept {
      DefaultsKeep(kept, "declarationKey");
    }
  }

  lemma GivenKey(seed: Job, prefix: string, rules: Rules)
    requires ValidJob(WithKey(seed, prefix, rules), rules) && (HasOwnKey(seed) ==> !seed["declarationKey"].Str?)
    ensures var job := WithKey(seed, prefix, rules);
      KeyedJob(job) && KeyOf(job) == GeneratedKey(WithoutKey(job), prefix, rules)
  {
    assert WithoutKey(WithKey(seed, prefix, rules)) == WithoutKey(seed);
  }

  lemma LogicalGeneratesKeys(prefix: string, rules: Rules)
    ensures GeneratesKeys(ReaderFor(prefix, rules), job => GeneratedKey(job, prefix, rules))
  {
    var reader := ReaderFor(prefix, rules);
    forall raw | Unnamed(raw, reader)
      ensures KeyedJob(reader.logic(raw).value) &&
              KeyOf(reader.logic(raw).value) == GeneratedKey(Seed(raw, reader), prefix, rules)
    {
      GeneratedJob(raw, prefix, rules);
    }
  }

  /** Jobs that carry the keys made from the rest of them are equal if their keys are. */
  lemma SameSeedSameJob(a: Job, b: Job, key: Job -> string, digest: Job -> string)
    requires Injective(key, digest) && KeyedJob(a) && KeyedJob(b) && KeyOf(a) == KeyOf(b)
    requires Distinguished(WithoutKey(a), WithoutKey(b), digest)
    requires KeyOf(a) == key(WithoutKey(a)) && KeyOf(b) == key(WithoutKey(b))
    ensures a == b
  {
    assert a == WithoutKey(a)["declarationKey" := a["declarationKey"]];
    assert b == WithoutKey(b)["declarationKey" := b["declarationKey"]];
  }

  /** Two unnamed jobs that the digest distinguishes make the same claim if they make one key. */
  lemma SameKeySameClaim(x: Json, y: Json, reader: Reader, key: Job -> string, digest: Job -> string)
    requires GeneratesKeys(reader, key) && Injective(key, digest) && Unnamed(x, reader) && Unnamed(y, reader)
    requires Distinguished(Seed(x, reader), Seed(y, reader), digest)
    ensures ClaimOf(x, reader).Ok? && ClaimOf(y, reader).Ok?
    ensures ClaimOf(x, reader).value.key == ClaimOf(y, reader).value.key ==> ClaimOf(x, reader) == ClaimOf(y, reader)
  {
    if ClaimOf(x, reader).value.key == ClaimOf(y, reader).value.key {
      SameSeedSameJob(reader.logic(x).value, reader.logic(y).value, key, digest);
    }
  }

  lemma GeneratedIsUnnamed(view: Json -> Json, reader: Reader, raw: Json)
    ensures ClaimingBy(view, reader)(raw) == ClaimOf(view(raw), reader)
    ensures ClaimOf(view(raw), reader).Ok? && !ClaimOf(view(raw), reader).value.explicit ==> Unnamed(view(raw), reader)
  {
  }

  lemma ClaimsTellApart(raws: seq<Json>, view: Json -> Json, reader: Reader, key: Job -> string, digest: Job -> string)
    requires GeneratesKeys(reader, key) && Injective(key, digest) && DigestTellsApart(raws, view, reader, digest)
    ensures TellsApart(raws, ClaimingBy(view, reader))
  {
    var claiming := ClaimingBy(view, reader);
    forall x, y | x in raws && y in raws && SameGenerated(claiming(x), claiming(y))
      ensures claiming(x) == claiming(y)
    {
      GeneratedIsUnnamed(view, reader, x);
      GeneratedIsUnnamed(view, reader, y);
      SameKeySameClaim(view(x), view(y), reader, key, digest);
    }
  }

  /** Whatever the order of the raw jobs, make_snapshot fails for all orders or gives equal snapshots. */
  lemma OrderDoesNotMatter(a: seq<Json>, b: seq<Json>, prefix: string, home: Option<string>, canary: Option<Claim>, rules: Rules)
    requires multiset(a) == multiset(b)
    ensures EqualJobs(SnapshotOf(a, prefix, canary, ClaimingWith(prefix, home, rules)),
                      SnapshotOf(b, prefix, canary, ClaimingWith(prefix, home, rules)))
    ensures DigestTellsApart(a, raw => Portable(raw, home), ReaderFor(prefix, rules), rules.digest) ==>
            SnapshotOf(a, prefix, canary, ClaimingWith(prefix, home, rules)) ==
            SnapshotOf(b, prefix, canary, ClaimingWith(prefix, home, rules))
  {
    PermutationEqual(a, b, prefix, canary, ClaimingWith(prefix, home, rules));
    if DigestTellsApart(a, raw => Portable(raw, home), ReaderFor(prefix, rules), rules.digest) {
      LogicalGeneratesKeys(prefix, rules);
      GeneratedKeysInjective(prefix, rules);
      ClaimsTellApart(a, raw => Portable(raw, home), ReaderFor(prefix, rules),
                      job => GeneratedKey(job, prefix, rules), rules.digest);
      PermutationInvariant(a, b, prefix, canary, ClaimingWith(prefix, home, rules));
    }
  }

  /** The snapshot of a snapshot's jobs, read as they are, is the snapshot again. */
  lemma SnapshotOfSnapshot(raws: seq<Json>, prefix: string, home: Option<string>, canary: Option<Claim>, rules: Rules)
    requires canary.Some? ==> SelfClaiming(canary.value, ClaimingBy(raw => raw, ReaderFor(prefix, rules)))
    requires SnapshotOf(raws, prefix, canary, ClaimingWith(prefix, home, rules)).Ok?
    ensures SnapshotOf(RawsOf(SnapshotOf(raws, prefix, canary, ClaimingWith(prefix, home, rules)).value),
                       prefix, canary, ClaimingBy(raw => raw, ReaderFor(prefix, rules))) ==
            SnapshotOf(raws, prefix, canary, ClaimingWith(prefix, home, rules))
  {
    LogicalGivesOwn(prefix, rules);
    ClaimsReread(raw => Portable(raw, home), ReaderFor(prefix, rules));
    SnapshotIsFixpoint(raws, prefix, canary, ClaimingWith(prefix, home, rules), ClaimingBy(raw => raw, ReaderFor(prefix, rules)));
  }

  /** A snapshot that is not empty is one load_snapshot accepts. */
  lemma SnapshotIsLoadable(raws: seq<Json>, prefix: string, home: Option<string>, canary: Option<Claim>, rules: Rules)
    requires canary.Some? ==> ValidClaim(canary.value, job => ValidJob(job, rules))
    requires SnapshotOf(raws, prefix, canary, ClaimingWith(prefix, home, rules)).Ok?
    requires SnapshotOf(raws, prefix, canary, ClaimingWith(prefix, home, rules)).value != []
    ensures Loadable(prefix, SnapshotOf(raws, prefix, canary, ClaimingWith(prefix, home, rules)).value, job => ValidJob(job, rules))
  {
    LogicalGivesValid(prefix, rules);
    ClaimsAreValid(raw => Portable(raw, home), ReaderFor(prefix, rules), job => ValidJob(job, rules));
    SnapshotLoads(raws, prefix, canary, ClaimingWith(prefix, home, rules), job => ValidJob(job, rules));
  }

  /** Normalizing first changes nothing for jobs that lack the home, so the fixpoint holds under a home too. */
  lemma {:induction false} NormalizedAgain(jobs: seq<Job>, prefix: string, home: string, rules: Rules)
    requires home != "" && home[0] == '/' && forall j :: j in jobs ==> LacksHome(Obj(j), home)
    ensures Collect(RawsOf(jobs), ClaimingWith(prefix, Some(home), rules)) ==
            Collect(RawsOf(jobs), ClaimingBy(raw => raw, ReaderFor(prefix, rules)))
  {
    if jobs != [] {
      var n := |jobs| - 1;
      assert RawsOf(jobs)[..n] == RawsOf(jobs[..n]) && RawsOf(jobs)[n] == Obj(jobs[n]);
      NormalizedAgain(jobs[..n], prefix, home, rules);
      TransformStableIff(Obj(jobs[n]), home);
      ClaimBy(raw => Portable(raw, Some(home)), ReaderFor(prefix, rules), Obj(jobs[n]));
      ClaimBy(raw => raw, ReaderFor(prefix, rules), Obj(jobs[n]));
    }
  }
}
