/** Snapshots made under a home: when exporting an export changes nothing, and when reconciling with an
    export does. */
module CronExports {
  import opened Wrappers
  import opened Text
  import opened HomePlaceholder
  import opened Order
  import opened Json
  import opened CronJobs
  import opened CronClaims
  import opened CronSnapshots

  // ----- what normalizing does to a key

  function Slashes(s: string): nat {
    if s == "" then 0 else (if s[0] == '/' then 1 else 0) + Slashes(s[1..])
  }

  lemma {:induction false} SlashesConcat(a: string, b: string)
    ensures Slashes(a + b) == Slashes(a) + Slashes(b)
  {
    if a == "" {
      assert a + b == b;
    } else {
      assert (a + b)[0] == a[0] && (a + b)[1..] == a[1..] + b;
      SlashesConcat(a[1..], b);
    }
  }

  lemma {:induction false} SlashesPositive(s: string)
    ensures Slashes(s) > 0 <==> '/' in s
  {
    if s != "" {
      SlashesPositive(s[1..]);
      assert '/' in s <==> s[0] == '/' || '/' in s[1..];
    }
  }

  lemma SlashesBelow(head: string, rest: string)
    ensures Slashes(head + ("/" + rest)) == Slashes(head) + 1 + Slashes(rest)
  {
    SlashesConcat(head, "/" + rest);
    SlashesConcat("/", rest);
    assert Slashes("/") == 1 + Slashes("/"[1..]) == 1;
  }

  lemma HomesHaveSlashes(home: string)
    requires home != "" && home[0] == '/'
    ensures Slashes(home) > 0 && Slashes(PLACEHOLDER) == 0
  {
    SlashesPositive(home);
    SlashesPositive(PLACEHOLDER);
  }

  /** A home path loses the slashes of the home, so normalizing leaves fewer slashes or the same text. */
  lemma {:induction false} NormalizeDrops(s: string, home: string)
    requires home != "" && home[0] == '/'
    ensures Normalize(s, home) == s || Slashes(Normalize(s, home)) < Slashes(s)
    decreases |s|
  {
    var n := Normalize(s, home);
    if StartsWith(s, home + "/") {
      var rest := s[|home| + 1..];
      assert s == home + ("/" + rest) && n == PLACEHOLDER + ("/" + Normalize(rest, home));
      SlashesBelow(home, rest);
      SlashesBelow(PLACEHOLDER, Normalize(rest, home));
      HomesHaveSlashes(home);
      NormalizeDrops(rest, home);
    } else if s != "" {
      assert n[0] == s[0] && n[1..] == Normalize(s[1..], home);
      assert s == [s[0]] + s[1..] && n == [n[0]] + n[1..];
      NormalizeDrops(s[1..], home);
    }
  }

  lemma NormalizeStringDrops(s: string, home: string)
    requires home != "" && home[0] == '/'
    ensures NormalizeString(s, home) == s || Slashes(NormalizeString(s, home)) < Slashes(s)
    ensures !Blank(s) ==> !Blank(NormalizeString(s, home))
  {
    NormalizeDrops(s, home);
    HomesHaveSlashes(home);
    BlankIff(PLACEHOLDER);
    if Blank(Normalize(s, home)) {
      NormalizeBlank(s, home);
    }
  }

  /** What is used of normalizing keys: it leaves fewer slashes, or the same text. */
  ghost predicate Drops(norm: string -> string) {
    forall s :: norm(s) == s || Slashes(norm(s)) < Slashes(s)
  }

  /** If such a map takes each of these keys to one of them, and no two to the same, it changes none. */
  lemma {:induction false} KeysStay(keys: seq<string>, norm: string -> string, i: nat)
    requires Drops(norm) && i < |keys|
    requires forall a :: 0 <= a < |keys| ==> norm(keys[a]) in keys
    requires forall a, b :: 0 <= a < |keys| && 0 <= b < |keys| && norm(keys[a]) == norm(keys[b]) ==> a == b
    ensures norm(keys[i]) == keys[i]
    decreases Slashes(keys[i])
  {
    if norm(keys[i]) != keys[i] {
      var j :| 0 <= j < |keys| && keys[j] == norm(keys[i]);
      KeysStay(keys, norm, j);
    }
  }

  // ----- claims of jobs that are normalized again

  lemma CollectAt(jobs: seq<Job>, claiming: Claiming, i: nat)
    requires Collect(RawsOf(jobs), claiming).Ok? && i < |jobs|
    ensures |Collect(RawsOf(jobs), claiming).value| == |jobs|
    ensures claiming(Obj(jobs[i])) == Ok(Collect(RawsOf(jobs), claiming).value[i])
  {
    CollectEach(RawsOf(jobs), claiming, i);
  }

  /** Explicit claims of which there is a snapshot have keys of their own, and each is the first of its key. */
  lemma ExplicitDistinct(claims: seq<Claim>, i: nat, j: nat)
    requires Consistent(multiset(claims)) && i < |claims| && j < |claims|
    requires claims[i].explicit && claims[i].key == claims[j].key
    ensures i == j && FirstClaims(claims)[claims[i].key] == claims[i]
  {
    var x, y := claims[i], FirstClaims(claims)[claims[i].key];
    assert x in multiset(claims) && y in multiset(claims) && claims[j] in multiset(claims);
    assert x != y ==> Agree(x, y);
    assert x != claims[j] ==> Agree(x, claims[j]);
    if i != j {
      TwiceIn(claims, i, j);
    }
  }

  lemma TwiceIn<T>(s: seq<T>, i: nat, j: nat)
    requires i < |s| && j < |s| && i != j && s[i] == s[j]
    ensures multiset(s)[s[i]] >= 2
  {
    var a, b := if i < j then i else j, if i < j then j else i;
    assert s == s[..b] + [s[b]] + s[b + 1..];
    assert multiset(s) == multiset(s[..b]) + multiset{s[b]} + multiset(s[b + 1..]);
    assert s[..b][a] in multiset(s[..b]);
  }

  /** A job that is its own logical form, normalized: if that is still a job, it is the normalized one,
      under the normalized key. */
  lemma JobNormalized(job: Job, prefix: string, home: string, rules: Rules)
    requires home != "" && home[0] == '/' && ValidJob(job, rules) && NoNulls(job)
    requires LogicalJob(Transform(Obj(job), home, false), prefix, rules).Ok?
    ensures KeyedJob(job) && Explicit(Transform(Obj(job), home, false))
    ensures Obj(LogicalJob(Transform(Obj(job), home, false), prefix, rules).value) == Transform(Obj(job), home, false)
    ensures KeyOf(LogicalJob(Transform(Obj(job), home, false), prefix, rules).value) == NormalizeString(KeyOf(job), home)
  {
    var out := Transform(Obj(job), home, false).fields;
    KeyNormalized(job, out, home);
    OwnFields(job, out, home, rules);
    LogicalOfOwn(out, prefix, rules);
  }

  lemma KeyNormalized(job: Job, out: Job, home: string)
    requires home != "" && home[0] == '/' && KeyedJob(job) && !Blank(KeyOf(job))
    requires out == Transform(Obj(job), home, false).fields
    ensures KeyedJob(out) && KeyOf(out) == NormalizeString(KeyOf(job), home) && !Blank(KeyOf(out)) && HasOwnKey(out)
  {
    NormalizeStringDrops(KeyOf(job), home);
    assert out["declarationKey"] == Transform(job["declarationKey"], home, false);
  }

  /** Normalizing keeps which fields are there, and makes none of them null. */
  lemma OwnFields(job: Job, out: Job, home: string, rules: Rules)
    requires ValidJob(job, rules) && NoNulls(job) && out == Transform(Obj(job), home, false).fields
    ensures out.Keys == job.Keys && NoNulls(out) && out.Keys <= LOGICAL_FIELDS
    ensures "name" in out && "enabled" in out && "sessionTarget" in out && "wakeMode" in out
  {
    forall f | f in job ensures out[f] != Null {
      assert out[f] == Transform(job[f], home, false);
    }
  }

  /** A job with nothing to add and nothing to drop is its own logical form, if it is valid. */
  lemma LogicalOfOwn(job: Job, prefix: string, rules: Rules)
    requires job.Keys <= LOGICAL_FIELDS && NoNulls(job) && HasOwnKey(job)
    requires "name" in job && "enabled" in job && "sessionTarget" in job && "wakeMode" in job
    ensures LogicalJob(Obj(job), prefix, rules).Ok? ==> LogicalJob(Obj(job), prefix, rules) == Ok(job)
  {
    assert LogicalFields(job) == job;
    assert WithDefaults(job) == job;
  }

  /** The claim of the job as `view` shows it, under the key as `norm` shows it. */
  ghost predicate Seen(c: Claim, job: Job, norm: string -> string, view: Json -> Json)
    requires KeyedJob(job)
  {
    c.explicit && KeyedJob(c.job) && c.key == KeyOf(c.job) == norm(KeyOf(job)) && Obj(c.job) == view(Obj(job))
  }

  /** The claim a snapshot's job makes when it is exported again. */
  lemma ClaimNormalized(job: Job, prefix: string, home: string, rules: Rules)
    requires home != "" && home[0] == '/' && ValidJob(job, rules) && NoNulls(job) && KeyedJob(job)
    requires ClaimingWith(prefix, Some(home), rules)(Obj(job)).Ok?
    ensures Seen(ClaimingWith(prefix, Some(home), rules)(Obj(job)).value, job,
                 s => NormalizeString(s, home), raw => Transform(raw, home, false))
  {
    var view, reader := raw => Portable(raw, Some(home)), ReaderFor(prefix, rules);
    ClaimBy(view, reader, Obj(job));
    assert view(Obj(job)) == Transform(Obj(job), home, false);
    JobNormalized(job, prefix, home, rules);
  }

  // ----- exporting an export

  /** Each job is under a key of its own. */
  ghost predicate OwnKeyed(jobs: seq<Job>) {
    && (forall j :: j in jobs ==> KeyedJob(j))
    && forall i, j :: 0 <= i < |jobs| && 0 <= j < |jobs| && KeyOf(jobs[i]) == KeyOf(jobs[j]) ==> i == j
  }

  /** The claims of the jobs are those of the jobs as they are seen, which are among the jobs again. */
  ghost predicate SeenAgain(claims: seq<Claim>, jobs: seq<Job>, norm: string -> string, view: Json -> Json)
    requires forall j :: j in jobs ==> KeyedJob(j)
  {
    && |claims| == |jobs|
    && (forall i :: 0 <= i < |jobs| ==> Seen(claims[i], jobs[i], norm, view))
    && (forall i :: 0 <= i < |jobs| ==> claims[i].job in jobs)
    && forall i, j :: 0 <= i < |jobs| && 0 <= j < |jobs| && claims[i].key == claims[j].key ==> i == j
  }

  lemma JobListed(claims: seq<Claim>, c: Claim)
    requires c in claims
    ensures c.job in JobsOf(claims)
  {
    var i :| 0 <= i < |claims| && claims[i] == c;
    assert JobsOf(claims)[i] == c.job;
  }

  /** The snapshot holds the job of the first claim of every key. */
  lemma FirstClaimIsListed(m: map<string, Claim>, canary: Option<Claim>, k: string)
    requires k in m && OwnKeys(WithCanary(m, canary))
    ensures m[k].job in JobsOf(Listing(WithCanary(m, canary)))
  {
    ListingSorted(WithCanary(m, canary));
    assert WithCanary(m, canary)[k] in WithCanary(m, canary).Values;
    JobListed(Listing(WithCanary(m, canary)), m[k]);
  }

  lemma FirstClaimsAreListed(m: map<string, Claim>, canary: Option<Claim>)
    requires OwnKeys(WithCanary(m, canary))
    ensures forall k :: k in m ==> m[k].job in JobsOf(Listing(WithCanary(m, canary)))
  {
    forall k | k in m ensures m[k].job in JobsOf(Listing(WithCanary(m, canary))) {
      FirstClaimIsListed(m, canary, k);
    }
  }

  lemma SnapshotParts(raws: seq<Json>, prefix: string, canary: Option<Claim>, claiming: Claiming)
    requires SnapshotOf(raws, prefix, canary, claiming).Ok?
    ensures Collect(raws, claiming).Ok? && Consistent(multiset(Collect(raws, claiming).value))
    ensures forall k :: k in FirstClaims(Collect(raws, claiming).value) ==>
              FirstClaims(Collect(raws, claiming).value)[k].job in SnapshotOf(raws, prefix, canary, claiming).value
  {
    FirstClaimsAreListed(FirstClaims(Collect(raws, claiming).value), canary);
  }

  lemma ClaimSeen(jobs: seq<Job>, claiming: Claiming, norm: string -> string, view: Json -> Json, i: nat)
    requires OwnKeyed(jobs) && i < |jobs| && Collect(RawsOf(jobs), claiming).Ok?
    requires forall j :: j in jobs && claiming(Obj(j)).Ok? ==> Seen(claiming(Obj(j)).value, j, norm, view)
    ensures |Collect(RawsOf(jobs), claiming).value| == |jobs|
    ensures Seen(Collect(RawsOf(jobs), claiming).value[i], jobs[i], norm, view)
  {
    CollectAt(jobs, claiming, i);
    assert jobs[i] in jobs;
  }

  lemma ClaimsSeen(jobs: seq<Job>, claiming: Claiming, norm: string -> string, view: Json -> Json)
    requires OwnKeyed(jobs) && Collect(RawsOf(jobs), claiming).Ok?
    requires forall j :: j in jobs && claiming(Obj(j)).Ok? ==> Seen(claiming(Obj(j)).value, j, norm, view)
    ensures |Collect(RawsOf(jobs), claiming).value| == |jobs|
    ensures forall i :: 0 <= i < |jobs| ==> Seen(Collect(RawsOf(jobs), claiming).value[i], jobs[i], norm, view)
  {
    if jobs != [] {
      CollectAt(jobs, claiming, 0);
    }
    forall i | 0 <= i < |jobs| ensures Seen(Collect(RawsOf(jobs), claiming).value[i], jobs[i], norm, view) {
      ClaimSeen(jobs, claiming, norm, view, i);
    }
  }

  lemma ClaimsAmong(claims: seq<Claim>, jobs: seq<Job>, norm: string -> string, view: Json -> Json)
    requires OwnKeyed(jobs) && |claims| == |jobs| && Consistent(multiset(claims))
    requires forall i :: 0 <= i < |jobs| ==> Seen(claims[i], jobs[i], norm, view)
    requires forall k :: k in FirstClaims(claims) ==> FirstClaims(claims)[k].job in jobs
    ensures SeenAgain(claims, jobs, norm, view)
  {
    SeenExplicit(claims, jobs, norm, view);
    forall i | 0 <= i < |jobs| ensures claims[i].job in jobs {
      ExplicitDistinct(claims, i, i);
    }
    forall i, j | 0 <= i < |jobs| && 0 <= j < |jobs| && claims[i].key == claims[j].key ensures i == j {
      ExplicitDistinct(claims, i, j);
    }
  }

  lemma SeenExplicit(claims: seq<Claim>, jobs: seq<Job>, norm: string -> string, view: Json -> Json)
    requires OwnKeyed(jobs) && |claims| == |jobs|
    requires forall i :: 0 <= i < |jobs| ==> Seen(claims[i], jobs[i], norm, view)
    ensures forall i :: 0 <= i < |claims| ==> claims[i].explicit
  {
    forall i | 0 <= i < |claims| ensures claims[i].explicit {
      assert Seen(claims[i], jobs[i], norm, view);
    }
  }

  function KeysOf(jobs: seq<Job>): seq<string>
    requires forall j :: j in jobs ==> KeyedJob(j)
  {
    seq(|jobs|, i requires 0 <= i < |jobs| => KeyOf(jobs[i]))
  }

  lemma SeenKey(claims: seq<Claim>, jobs: seq<Job>, norm: string -> string, view: Json -> Json, a: nat)
    requires OwnKeyed(jobs) && SeenAgain(claims, jobs, norm, view) && a < |jobs|
    ensures norm(KeysOf(jobs)[a]) == claims[a].key && claims[a].key in KeysOf(jobs)
  {
    assert Seen(claims[a], jobs[a], norm, view);
    var b :| 0 <= b < |jobs| && jobs[b] == claims[a].job;
    assert KeysOf(jobs)[b] == claims[a].key;
  }

  /** Then no key changes, and so no job. */
  lemma SeenStays(claims: seq<Claim>, jobs: seq<Job>, norm: string -> string, view: Json -> Json, i: nat)
    requires Drops(norm) && OwnKeyed(jobs) && SeenAgain(claims, jobs, norm, view) && i < |jobs|
    ensures view(Obj(jobs[i])) == Obj(jobs[i])
  {
    var keys := KeysOf(jobs);
    forall a | 0 <= a < |keys| ensures norm(keys[a]) == claims[a].key && claims[a].key in keys {
      SeenKey(claims, jobs, norm, view, a);
    }
    KeysStay(keys, norm, i);
    assert Seen(claims[i], jobs[i], norm, view);
    var j :| 0 <= j < |jobs| && jobs[j] == claims[i].job;
    assert keys[j] == claims[i].key == keys[i];
  }

  /** The jobs of a snapshot are logical and have distinct keys. */
  lemma SnapshotsHold(raws: seq<Json>, prefix: string, home: Option<string>, canary: Option<Claim>, rules: Rules)
    requires canary.Some? ==> OwnClaim(canary.value, prefix, rules)
    requires SnapshotOf(raws, prefix, canary, ClaimingWith(prefix, home, rules)).Ok?
    ensures OwnKeyed(SnapshotOf(raws, prefix, canary, ClaimingWith(prefix, home, rules)).value)
    ensures forall j :: j in SnapshotOf(raws, prefix, canary, ClaimingWith(prefix, home, rules)).value ==>
              ValidJob(j, rules) && NoNulls(j)
  {
    var proper := job => ValidJob(job, rules) && NoNulls(job);
    var reader := ReaderFor(prefix, rules);
    forall raw | reader.logic(raw).Ok? ensures proper(reader.logic(raw).value) {
      LogicalIsValid(raw, prefix, rules);
    }
    ClaimsAreValid(raw => Portable(raw, home), reader, proper);
    SnapshotLoads(raws, prefix, canary, ClaimingWith(prefix, home, rules), proper);
    var jobs := SnapshotOf(raws, prefix, canary, ClaimingWith(prefix, home, rules)).value;
    if jobs != [] {
      forall i, j | 0 <= i < |jobs| && 0 <= j < |jobs| && KeyOf(jobs[i]) == KeyOf(jobs[j]) ensures i == j {
        LessIrreflexive(KeyOf(jobs[i]));
      }
    }
  }

  /** The canary: a claim of its own logical job, which names its key. */
  ghost predicate OwnClaim(c: Claim, prefix: string, rules: Rules) {
    && SelfClaiming(c, ClaimingBy(raw => raw, ReaderFor(prefix, rules)))
    && ValidClaim(c, job => ValidJob(job, rules) && NoNulls(job))
  }

  lemma ExportedAgain(jobs: seq<Job>, prefix: string, home: string, canary: Option<Claim>, rules: Rules)
    requires home != "" && home[0] == '/' && OwnKeyed(jobs) && forall j :: j in jobs ==> ValidJob(j, rules) && NoNulls(j)
    requires SnapshotOf(RawsOf(jobs), prefix, canary, ClaimingWith(prefix, Some(home), rules)) == Ok(jobs)
    ensures forall j :: j in jobs ==> LacksHome(Obj(j), home)
  {
    var claiming := ClaimingWith(prefix, Some(home), rules);
    var norm, view := s => NormalizeString(s, home), raw => Transform(raw, home, false);
    forall j | j in jobs && claiming(Obj(j)).Ok? ensures Seen(claiming(Obj(j)).value, j, norm, view) {
      ClaimNormalized(j, prefix, home, rules);
    }
    SnapshotParts(RawsOf(jobs), prefix, canary, claiming);
    ClaimsSeen(jobs, claiming, norm, view);
    ClaimsAmong(Collect(RawsOf(jobs), claiming).value, jobs, norm, view);
    NormalizeStringMeetsDrops(home);
    forall i | 0 <= i < |jobs| ensures LacksHome(Obj(jobs[i]), home) {
      SeenStays(Collect(RawsOf(jobs), claiming).value, jobs, norm, view, i);
      TransformStableIff(Obj(jobs[i]), home);
    }
  }

  lemma NormalizeStringMeetsDrops(home: string)
    requires home != "" && home[0] == '/'
    ensures Drops(s => NormalizeString(s, home))
  {
    var norm := s => NormalizeString(s, home);
    forall s ensures norm(s) == s || Slashes(norm(s)) < Slashes(s) {
      NormalizeStringDrops(s, home);
    }
  }

  lemma HomelessAgain(raws: seq<Json>, prefix: string, home: string, canary: Option<Claim>, rules: Rules)
    requires home != "" && home[0] == '/' && (canary.Some? ==> OwnClaim(canary.value, prefix, rules))
    requires SnapshotOf(raws, prefix, canary, ClaimingWith(prefix, Some(home), rules)).Ok?
    requires forall j :: j in SnapshotOf(raws, prefix, canary, ClaimingWith(prefix, Some(home), rules)).value ==> LacksHome(Obj(j), home)
    ensures var jobs := SnapshotOf(raws, prefix, canary, ClaimingWith(prefix, Some(home), rules)).value;
      SnapshotOf(RawsOf(jobs), prefix, canary, ClaimingWith(prefix, Some(home), rules)) == Ok(jobs)
  {
    NormalizedAgain(SnapshotOf(raws, prefix, canary, ClaimingWith(prefix, Some(home), rules)).value, prefix, home, rules);
    SnapshotOfSnapshot(raws, prefix, Some(home), canary, rules);
  }

  /** Exporting the jobs of an export gives the same snapshot exactly if none of them holds the home. */
  lemma ExportIsFixpointIff(raws: seq<Json>, prefix: string, home: string, canary: Option<Claim>, rules: Rules)
    requires home != "" && home[0] == '/' && (canary.Some? ==> OwnClaim(canary.value, prefix, rules))
    requires SnapshotOf(raws, prefix, canary, ClaimingWith(prefix, Some(home), rules)).Ok?
    ensures var jobs := SnapshotOf(raws, prefix, canary, ClaimingWith(prefix, Some(home), rules)).value;
      SnapshotOf(RawsOf(jobs), prefix, canary, ClaimingWith(prefix, Some(home), rules)) == Ok(jobs)
      <==> forall j :: j in jobs ==> LacksHome(Obj(j), home)
  {
    var jobs := SnapshotOf(raws, prefix, canary, ClaimingWith(prefix, Some(home), rules)).value;
    SnapshotsHold(raws, prefix, Some(home), canary, rules);
    if SnapshotOf(RawsOf(jobs), prefix, canary, ClaimingWith(prefix, Some(home), rules)) == Ok(jobs) {
      ExportedAgain(jobs, prefix, home, canary, rules);
    }
    if forall j :: j in jobs ==> LacksHome(Obj(j), home) {
      HomelessAgain(raws, prefix, home, canary, rules);
    }
  }

  // ----- which raw jobs give such snapshots

  /** Slugs and digests are made of letters, digits and dashes. */
  ghost predicate Slashless(rules: Rules) {
    (forall s :: '/' !in rules.slug(s)) && (forall j :: '/' !in rules.digest(j))
  }

  lemma NoSlashNoHome(s: string, home: string)
    requires home != "" && home[0] == '/' && '/' !in s
    ensures s != home && !Contains(s, home + "/")
  {
    LacksBy(s, home + "/");
  }

  lemma DefaultLacksHome(job: Job, f: string, value: Json, home: string)
    requires LacksHome(Obj(job), home) && LacksHome(value, home)
    ensures LacksHome(Obj(WithDefault(job, f, value)), home)
  {
    var out := WithDefault(job, f, value);
    forall g | g in out ensures LacksHome(out[g], home) {
    }
  }

  lemma DefaultsLackHome(job: Job, home: string)
    requires home != "" && home[0] == '/' && LacksHome(Obj(job), home)
    ensures LacksHome(Obj(WithDefaults(job)), home)
  {
    NoSlashNoHome("main", home);
    NoSlashNoHome("isolated", home);
    NoSlashNoHome("now", home);
    var one := WithDefault(job, "enabled", Bool(true));
    DefaultLacksHome(job, "enabled", Bool(true), home);
    DefaultLacksHome(one, "sessionTarget", Str("main"), home);
    DefaultLacksHome(one, "sessionTarget", Str("isolated"), home);
    DefaultLacksHome(WithDefault(one, "sessionTarget", Str("main")), "wakeMode", Str("now"), home);
    DefaultLacksHome(WithDefault(one, "sessionTarget", Str("isolated")), "wakeMode", Str("now"), home);
  }

  lemma KeptLacksHome(raw: Json, home: string)
    requires raw.Obj? && LacksHome(raw, home)
    ensures LacksHome(Obj(LogicalFields(raw.fields)), home)
  {
    var kept := LogicalFields(raw.fields);
    forall f | f in kept ensures LacksHome(kept[f], home) {
    }
  }

  lemma KeyLacksHome(job: Job, prefix: string, home: string, rules: Rules)
    requires home != "" && home[0] == '/' && Slashless(rules) && '/' !in prefix && LacksHome(Obj(job), home)
    ensures LacksHome(Obj(WithKey(job, prefix, rules)), home)
  {
    var key := GeneratedKey(WithoutKey(job), prefix, rules);
    assert '/' !in key;
    NoSlashNoHome(key, home);
    var out := WithKey(job, prefix, rules);
    forall f | f in out ensures LacksHome(out[f], home) {
      assert out[f] == Str(key) || (f in job && out[f] == job[f]);
    }
  }

  /** What logical_job adds to a job does not bring the home in. */
  lemma LogicalLacksHome(raw: Json, prefix: string, home: string, rules: Rules)
    requires home != "" && home[0] == '/' && Slashless(rules) && '/' !in prefix
    requires LogicalJob(raw, prefix, rules).Ok? && LacksHome(raw, home)
    ensures LacksHome(Obj(LogicalJob(raw, prefix, rules).value), home)
  {
    KeptLacksHome(raw, home);
    DefaultsLackHome(LogicalFields(raw.fields), home);
    KeyLacksHome(WithDefaults(LogicalFields(raw.fields)), prefix, home, rules);
  }

  lemma ListedFrom(m: map<string, Claim>, job: Job) returns (k: string)
    requires OwnKeys(m) && job in JobsOf(Listing(m))
    ensures k in m && m[k].job == job
  {
    ListingSorted(m);
    var i :| 0 <= i < |JobsOf(Listing(m))| && JobsOf(Listing(m))[i] == job;
    assert Listing(m)[i] in Listing(m);
    k := Listing(m)[i].key;
  }

  lemma {:induction false} CollectGood(raws: seq<Json>, claiming: Claiming, good: Job -> bool)
    requires forall raw :: raw in raws && claiming(raw).Ok? ==> good(claiming(raw).value.job)
    ensures Collect(raws, claiming).Ok? ==> forall c :: c in Collect(raws, claiming).value ==> good(c.job)
  {
    if raws != [] {
      CollectGood(raws[..|raws| - 1], claiming, good);
    }
  }

  lemma ListingGood(claims: seq<Claim>, good: Job -> bool)
    requires forall c :: c in claims ==> good(c.job)
    ensures forall j :: j in JobsOf(claims) ==> good(j)
  {
    forall j | j in JobsOf(claims) ensures good(j) {
      var i :| 0 <= i < |claims| && JobsOf(claims)[i] == j;
      assert claims[i] in claims;
    }
  }

  /** What is true of the job of every claim is true of every job of the snapshot. */
  lemma SnapshotJobs(raws: seq<Json>, prefix: string, canary: Option<Claim>, claiming: Claiming, good: Job -> bool)
    requires SnapshotOf(raws, prefix, canary, claiming).Ok? && (canary.Some? ==> good(canary.value.job))
    requires forall raw :: raw in raws && claiming(raw).Ok? ==> good(claiming(raw).value.job)
    ensures forall j :: j in SnapshotOf(raws, prefix, canary, claiming).value ==> good(j)
  {
    CollectGood(raws, claiming, good);
    ListedAre(Collect(raws, claiming).value, canary, (c: Claim) => good(c.job));
    ListingGood(Listing(WithCanary(FirstClaims(Collect(raws, claiming).value), canary)), good);
  }

  function Homeless(home: string): Job -> bool {
    job => LacksHome(Obj(job), home)
  }

  lemma ClaimLacksHome(raw: Json, prefix: string, home: string, rules: Rules)
    requires home != "" && home[0] == '/' && Slashless(rules) && '/' !in prefix
    requires LacksHome(Transform(raw, home, false), home) && ClaimingWith(prefix, Some(home), rules)(raw).Ok?
    ensures Homeless(home)(ClaimingWith(prefix, Some(home), rules)(raw).value.job)
  {
    ClaimBy(raw => Portable(raw, Some(home)), ReaderFor(prefix, rules), raw);
    LogicalLacksHome(Transform(raw, home, false), prefix, home, rules);
  }

  lemma ClaimsLackHome(raws: seq<Json>, prefix: string, home: string, rules: Rules)
    requires home != "" && home[0] == '/' && Slashless(rules) && '/' !in prefix
    requires forall raw :: raw in raws ==> LacksHome(Transform(raw, home, false), home)
    ensures forall raw :: raw in raws && ClaimingWith(prefix, Some(home), rules)(raw).Ok? ==>
              Homeless(home)(ClaimingWith(prefix, Some(home), rules)(raw).value.job)
  {
    forall raw | raw in raws && ClaimingWith(prefix, Some(home), rules)(raw).Ok?
      ensures Homeless(home)(ClaimingWith(prefix, Some(home), rules)(raw).value.job)
    {
      ClaimLacksHome(raw, prefix, home, rules);
    }
  }

  lemma PrefixHasNoSlash(prefix: string)
    requires ValidPrefix(prefix)
    ensures '/' !in prefix
  {
    forall i | 0 <= i < |prefix| ensures prefix[i] != '/' {
    }
  }

  /** If no raw job holds the home after it was normalized, no job of the export does. */
  lemma PlainRawsLackHome(raws: seq<Json>, prefix: string, home: string, canary: Option<Claim>, rules: Rules)
    requires home != "" && home[0] == '/' && Slashless(rules)
    requires SnapshotOf(raws, prefix, canary, ClaimingWith(prefix, Some(home), rules)).Ok?
    requires forall raw :: raw in raws ==> LacksHome(Transform(raw, home, false), home)
    requires canary.Some? ==> LacksHome(Obj(canary.value.job), home)
    ensures forall j :: j in SnapshotOf(raws, prefix, canary, ClaimingWith(prefix, Some(home), rules)).value ==>
              Homeless(home)(j)
  {
    PrefixHasNoSlash(prefix);
    ClaimsLackHome(raws, prefix, home, rules);
    SnapshotJobs(raws, prefix, canary, ClaimingWith(prefix, Some(home), rules), Homeless(home));
  }

  /** So exporting it again changes nothing. */
  lemma PlainRawsAreFixpoint(raws: seq<Json>, prefix: string, home: string, canary: Option<Claim>, rules: Rules)
    requires home != "" && home[0] == '/' && Slashless(rules) && (canary.Some? ==> OwnClaim(canary.value, prefix, rules))
    requires SnapshotOf(raws, prefix, canary, ClaimingWith(prefix, Some(home), rules)).Ok?
    requires forall raw :: raw in raws ==> LacksHome(Transform(raw, home, false), home)
    requires canary.Some? ==> LacksHome(Obj(canary.value.job), home)
    ensures var jobs := SnapshotOf(raws, prefix, canary, ClaimingWith(prefix, Some(home), rules)).value;
      SnapshotOf(RawsOf(jobs), prefix, canary, ClaimingWith(prefix, Some(home), rules)) == Ok(jobs)
  {
    PlainRawsLackHome(raws, prefix, home, canary, rules);
    ExportIsFixpointIff(raws, prefix, home, canary, rules);
  }

  // ----- an export that is no fixpoint

  /** A job that asks an agent something: the fields around the message. */
  function MessageFrame(): Job {
    map["declarationKey" := Str("k"), "name" := Str("n"), "enabled" := Bool(true), "sessionTarget" := Str("isolated"),
        "wakeMode" := Str("now"), "schedule" := Timed()]
  }

  function MessageJob(message: string): Job {
    MessageFrame()["payload" := Message(message)]
  }

  function Timed(): Json {
    Obj(map["kind" := Str("every"), "everyMs" := Num(60000.0)])
  }

  function Turn(): Job {
    map["kind" := Str("agentTurn")]
  }

  function Message(message: string): Json {
    Obj(Turn()["message" := Str(message)])
  }

  lemma WordStays(s: string, home: string)
    requires home != "" && home[0] == '/' && '/' !in s
    ensures NormalizeString(s, home) == s
  {
    NoSlashNoHome(s, home);
    NormalStableIff(s, home);
  }

  /** Normalizing changes one field of an object whose other fields lack the home. */
  lemma OneFieldNormalized(frame: Job, f: string, value: Json, home: string)
    requires home != "" && home[0] == '/' && LacksHome(Obj(frame), home)
    ensures Transform(Obj(frame[f := value]), home, false) == Obj(frame[f := Transform(value, home, false)])
  {
    var before, after := frame[f := value], frame[f := Transform(value, home, false)];
    forall g | g in before ensures Transform(before[g], home, false) == after[g] {
      if g != f {
        TransformStableIff(frame[g], home);
      }
    }
    assert Transform(Obj(before), home, false).fields == after;
  }

  lemma TimedLacksHome(home: string)
    requires home != "" && home[0] == '/'
    ensures LacksHome(Timed(), home) && LacksHome(Obj(Turn()), home)
  {
    NoSlashNoHome("every", home);
    NoSlashNoHome("agentTurn", home);
  }

  lemma FrameLacksHome(home: string)
    requires home != "" && home[0] == '/'
    ensures LacksHome(Obj(MessageFrame()), home)
  {
    TimedLacksHome(home);
    NoSlashNoHome("k", home);
    NoSlashNoHome("n", home);
    NoSlashNoHome("isolated", home);
    NoSlashNoHome("now", home);
  }

  lemma MessageJobNormalized(message: string, home: string)
    requires home != "" && home[0] == '/'
    ensures Transform(Obj(MessageJob(message)), home, false) == Obj(MessageJob(NormalizeString(message, home)))
  {
    FrameLacksHome(home);
    TimedLacksHome(home);
    OneFieldNormalized(MessageFrame(), "payload", Message(message), home);
    OneFieldNormalized(Turn(), "message", Str(message), home);
  }

  lemma MessageJobFields(message: string)
    ensures MessageJob(message).Keys <= LOGICAL_FIELDS
    ensures NestedFields(MessageJob(message)) == map["schedule" := Timed(), "payload" := Message(message)]
  {
  }

  lemma WordsAreText()
    ensures ValidKey(Str("k")) && OneLineText(Str("n")) && ValidTarget(Str("isolated"))
  {
    BlankIff("k");
    BlankIff("n");
    assert StripLeft("k") == "k" && StripRight("k") == "k";
  }

  lemma MessageJobIsValid(message: string, rules: Rules)
    requires rules.nested(map["schedule" := Timed(), "payload" := Message(message)])
    ensures ValidJob(MessageJob(message), rules)
  {
    MessageJobFields(message);
    WordsAreText();
    var job := MessageJob(message);
    assert job["declarationKey"] == Str("k") && job["name"] == Str("n") && job["sessionTarget"] == Str("isolated");
    assert job["enabled"] == Bool(true) && job["wakeMode"] == Str("now");
    assert job["schedule"] == Timed() && job["payload"] == Message(message);
  }

  lemma MessageJobHasNoNulls(message: string)
    ensures NoNulls(MessageJob(message))
  {
  }

  lemma MessageJobIsLogical(message: string, prefix: string, rules: Rules)
    requires ValidJob(MessageJob(message), rules)
    ensures NoNulls(MessageJob(message)) && LogicalJob(Obj(MessageJob(message)), prefix, rules) == Ok(MessageJob(message))
  {
    MessageJobHasNoNulls(message);
    LogicalIsIdentity(MessageJob(message), prefix, rules);
  }

  lemma OneKey(k: string)
    ensures SortedKeys({k}) == [k]
  {
    var keys := SortedKeys({k});
    assert |keys| == 1 && keys[0] in keys;
  }

  lemma OneListed(c: Claim)
    ensures Listing(map[c.key := c]) == [c] && JobsOf([c]) == [c.job]
  {
    OneKey(c.key);
    assert map[c.key := c].Keys == {c.key};
  }

  lemma OneClaim(c: Claim)
    ensures FirstClaims([c]) == map[c.key := c] && Consistent(multiset([c]))
  {
    assert [c][..0] == [];
    assert multiset([c]) == multiset{c};
  }

  lemma CollectOne(raw: Json, c: Claim, claiming: Claiming)
    requires claiming(raw) == Ok(c)
    ensures Collect([raw], claiming) == Ok([c])
  {
    assert [raw][..0] == [] && [] + [c] == [c];
  }

  lemma OneJobSnapshot(raw: Json, c: Claim, prefix: string, claiming: Claiming)
    requires ValidPrefix(prefix) && claiming(raw) == Ok(c)
    ensures SnapshotOf([raw], prefix, None, claiming) == Ok([c.job])
  {
    CollectOne(raw, c, claiming);
    OneClaim(c);
    OneListed(c);
    assert WithCanary(map[c.key := c], None) == map[c.key := c];
  }

  lemma NestedHomeHolds(home: string)
    requires home == "/r"
    ensures NormalizeString("/r/r/x", home) == PLACEHOLDER + "/r/x"
    ensures !LacksHome(Obj(MessageJob(PLACEHOLDER + "/r/x")), home)
  {
    NormalizingTwice();
    NormalStableIff(PLACEHOLDER + "/r/x", home);
    var job := MessageJob(PLACEHOLDER + "/r/x");
    assert !LacksHome(Message(PLACEHOLDER + "/r/x").fields["message"], home);
    assert !LacksHome(job["payload"], home);
  }

  /** What one valid message job, normalized, contributes. */
  lemma MessageClaim(message: string, prefix: string, home: string, rules: Rules)
    requires home != "" && home[0] == '/' && ValidJob(MessageJob(NormalizeString(message, home)), rules)
    ensures KeyedJob(MessageJob(NormalizeString(message, home)))
    ensures ClaimingWith(prefix, Some(home), rules)(Obj(MessageJob(message))) ==
            Ok(Claim(KeyOf(MessageJob(NormalizeString(message, home))), true, MessageJob(NormalizeString(message, home))))
  {
    MessageJobNormalized(message, home);
    MessageJobIsLogical(NormalizeString(message, home), prefix, rules);
    ValidIsExplicit(MessageJob(NormalizeString(message, home)), rules);
    ClaimBy(raw => Portable(raw, Some(home)), ReaderFor(prefix, rules), Obj(MessageJob(message)));
  }

  /** A home below the home: the export is not what exporting it again gives. The nested validators are
      taken to accept the schedule and the message. */
  lemma NestedHomeIsNoFixpoint(home: string, rules: Rules)
    requires home == "/r" && rules.nested(map["schedule" := Timed(), "payload" := Message(PLACEHOLDER + "/r/x")])
    ensures var job := MessageJob(PLACEHOLDER + "/r/x");
      && SnapshotOf([Obj(MessageJob("/r/r/x"))], "p.", None, ClaimingWith("p.", Some(home), rules)) == Ok([job])
      && SnapshotOf(RawsOf([job]), "p.", None, ClaimingWith("p.", Some(home), rules)) != Ok([job])
  {
    NestedHomeHolds(home);
    MessageJobIsValid(PLACEHOLDER + "/r/x", rules);
    MessageClaim("/r/r/x", "p.", home, rules);
    var job := MessageJob(PLACEHOLDER + "/r/x");
    OneJobSnapshot(Obj(MessageJob("/r/r/x")), Claim(KeyOf(job), true, job), "p.", ClaimingWith("p.", Some(home), rules));
    assert job in [job];
    ExportIsFixpointIff([Obj(MessageJob("/r/r/x"))], "p.", home, None, rules);
  }
}
