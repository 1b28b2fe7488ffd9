/** Reconciling a store with its own export: there is nothing to do. */
module CronRestores {
  import opened Wrappers
  import opened Text
  import opened HomePlaceholder
  import opened Json
  import opened CronJobs
  import opened CronServer
  import opened CronListings
  import opened CronReconciler
  import opened CronClaims
  import opened CronSnapshots
  import opened CronExports

  /** materialize_snapshot's jobs */
  function Materialized(jobs: seq<Job>, home: string): seq<Job> {
    seq(|jobs|, i requires 0 <= i < |jobs| => Rendered(jobs[i], home))
  }

  function Rendered(job: Job, home: string): Job {
    map f | f in job :: Transform(job[f], home, true)
  }

  lemma WordRenders(s: string, home: string)
    requires !Contains(s, PLACEHOLDER)
    ensures Render(s, home) == s
  {
    ReplaceNothing(s, PLACEHOLDER, home);
  }

  lemma DefaultsHaveNoPlaceholder(home: string)
    ensures Render("main", home) == "main" && Render("isolated", home) == "isolated" && Render("now", home) == "now"
    ensures Render("systemEvent", home) == "systemEvent"
  {
    LacksBy("main", PLACEHOLDER);
    LacksBy("isolated", PLACEHOLDER);
    LacksBy("now", PLACEHOLDER);
    LacksBy("systemEvent", PLACEHOLDER);
    WordRenders("main", home);
    WordRenders("isolated", home);
    WordRenders("now", home);
    WordRenders("systemEvent", home);
  }

  /** What decides the default session target. */
  predicate IsSystemEvent(job: Job) {
    "payload" in job && job["payload"].Obj? && "kind" in job["payload"].fields
    && job["payload"].fields["kind"] == Str("systemEvent")
  }

  predicate GoodHome(home: string) {
    home != "" && home[0] == '/' && !Contains(home, PLACEHOLDER)
  }

  lemma KindStays(kind: Json, home: string)
    requires GoodHome(home) && LacksPlaceholder(kind)
    ensures Transform(kind, home, false) == Str("systemEvent") <==> kind == Str("systemEvent")
  {
    if kind.Str? {
      StringRoundTripIff(kind.s, home);
      DefaultsHaveNoPlaceholder(home);
      WordStays("systemEvent", home);
    }
  }

  lemma SystemEventStays(job: Job, out: Job, home: string)
    requires GoodHome(home) && LacksPlaceholder(Obj(job)) && out == Transform(Obj(job), home, false).fields
    ensures IsSystemEvent(out) <==> IsSystemEvent(job)
  {
    if "payload" in job {
      assert out["payload"] == Transform(job["payload"], home, false);
      if job["payload"].Obj? && "kind" in job["payload"].fields {
        assert out["payload"].fields["kind"] == Transform(job["payload"].fields["kind"], home, false);
        assert LacksPlaceholder(job["payload"]);
        KindStays(job["payload"].fields["kind"], home);
      }
    }
  }

  /** Normalizing keeps which fields are there. */
  ghost predicate NormalizedFields(kept: Job, out: Job, home: string) {
    out.Keys == kept.Keys && forall f :: f in kept ==> out[f] == Transform(kept[f], home, false)
  }

  lemma FieldsNormalized(raw: Json, home: string)
    requires raw.Obj?
    ensures NormalizedFields(LogicalFields(raw.fields), LogicalFields(Transform(raw, home, false).fields), home)
  {
    var out := Transform(raw, home, false).fields;
    forall f | f in raw.fields ensures out[f] == Transform(raw.fields[f], home, false) && (out[f] == Null <==> raw.fields[f] == Null) {
    }
  }

  lemma DefaultRendered(job: Job, f: string, value: Json, home: string)
    requires Transform(value, home, true) == value
    ensures Rendered(WithDefault(job, f, value), home) == WithDefault(Rendered(job, home), f, value)
  {
  }

  lemma FieldsRestored(kept: Job, out: Job, home: string)
    requires GoodHome(home) && LacksPlaceholder(Obj(kept)) && NormalizedFields(kept, out, home)
    ensures Rendered(out, home) == kept
  {
    forall f | f in kept ensures Transform(out[f], home, true) == kept[f] {
      TransformRoundTripIff(kept[f], home);
    }
  }

  lemma WithDefaultsBy(job: Job)
    ensures WithDefaults(job) ==
            WithDefault(WithDefault(WithDefault(job, "enabled", Bool(true)),
                                    "sessionTarget", Str(if IsSystemEvent(job) then "main" else "isolated")),
                        "wakeMode", Str("now"))
  {
  }

  /** Rendering the defaults of the normalized fields gives the defaults of the fields. */
  lemma DefaultsRestored(kept: Job, out: Job, home: string)
    requires GoodHome(home) && LacksPlaceholder(Obj(kept)) && NormalizedFields(kept, out, home)
    ensures Rendered(WithDefaults(out), home) == WithDefaults(kept)
  {
    DefaultsHaveNoPlaceholder(home);
    assert Transform(Obj(kept), home, false).fields == out;
    SystemEventStays(kept, out, home);
    FieldsRestored(kept, out, home);
    WithDefaultsBy(kept);
    WithDefaultsBy(out);
    var target := Str(if IsSystemEvent(out) then "main" else "isolated");
    var one := WithDefault(out, "enabled", Bool(true));
    var two := WithDefault(one, "sessionTarget", target);
    DefaultRendered(out, "enabled", Bool(true), home);
    DefaultRendered(one, "sessionTarget", target, home);
    DefaultRendered(two, "wakeMode", Str("now"), home);
  }

  lemma KeptLacksPlaceholder(raw: Json)
    requires raw.Obj? && LacksPlaceholder(raw)
    ensures LacksPlaceholder(Obj(LogicalFields(raw.fields)))
  {
  }

  /** A job with a key of its own is logical with its fields and the defaults. */
  lemma OwnKeyLogical(raw: Json, prefix: string, rules: Rules)
    requires LogicalJob(raw, prefix, rules).Ok? && Explicit(raw)
    ensures LogicalJob(raw, prefix, rules).value == WithDefaults(LogicalFields(raw.fields))
    ensures KeyedJob(LogicalJob(raw, prefix, rules).value) && RawKey(raw) == Some(KeyOf(LogicalJob(raw, prefix, rules).value))
  {
    BlankIff("");
    OwnKeyStays(raw);
  }

  lemma OwnKeyStays(raw: Json)
    requires Explicit(raw)
    ensures var job := WithDefaults(LogicalFields(raw.fields));
      KeyedJob(job) && job["declarationKey"] == raw.fields["declarationKey"] && HasOwnKey(job)
  {
    var kept := LogicalFields(raw.fields);
    assert "declarationKey" in LOGICAL_FIELDS && "declarationKey" in kept;
    DefaultsKeep(kept, "declarationKey");
  }

  lemma ExplicitNormalized(raw: Json, home: string)
    requires home != "" && home[0] == '/' && Explicit(raw)
    ensures Explicit(Transform(raw, home, false))
  {
    NormalizeStringDrops(raw.fields["declarationKey"].s, home);
    assert Transform(raw, home, false).fields["declarationKey"] == Transform(raw.fields["declarationKey"], home, false);
  }

  /** An exported job, materialized, is the logical form of the live job. */
  lemma JobRestored(raw: Json, prefix: string, home: string, rules: Rules)
    requires GoodHome(home) && Explicit(raw) && LacksPlaceholder(raw)
    requires LogicalJob(raw, prefix, rules).Ok? && LogicalJob(Transform(raw, home, false), prefix, rules).Ok?
    ensures Rendered(LogicalJob(Transform(raw, home, false), prefix, rules).value, home) == LogicalJob(raw, prefix, rules).value
  {
    ExplicitNormalized(raw, home);
    OwnKeyLogical(raw, prefix, rules);
    OwnKeyLogical(Transform(raw, home, false), prefix, rules);
    FieldsNormalized(raw, home);
    KeptLacksPlaceholder(raw);
    DefaultsRestored(LogicalFields(raw.fields), LogicalFields(Transform(raw, home, false).fields), home);
  }

  // ----- the store and its export

  /** The materialized jobs are exactly the logical forms of the live jobs. */
  ghost predicate Restores(jobs: seq<Job>, l: seq<Json>, logic: Logic) {
    && (forall i :: 0 <= i < |l| ==> logic(l[i]).Ok? && logic(l[i]).value in jobs)
    && (forall j :: j in jobs ==> exists i :: 0 <= i < |l| && logic(l[i]) == Ok(j))
    && forall i :: 0 <= i < |l| && logic(l[i]).Ok? ==>
         KeyedJob(logic(l[i]).value) && RawKey(l[i]) == Some(KeyOf(logic(l[i]).value))
  }

  lemma {:induction false} DesiredHas(jobs: seq<Job>, j: Job)
    requires (forall x :: x in jobs ==> KeyedJob(x)) && j in jobs
    ensures KeyOf(j) in Desired(jobs)
  {
    var n := |jobs| - 1;
    if j in jobs[..n] {
      DesiredHas(jobs[..n], j);
    } else {
      assert j == jobs[n];
    }
  }

  /** The job wanted under a key is the logical form of a live job with that key. */
  lemma WantedIsLive(jobs: seq<Job>, l: seq<Json>, logic: Logic, k: string) returns (i: nat)
    requires Restores(jobs, l, logic) && (forall j :: j in jobs ==> KeyedJob(j)) && k in Desired(jobs)
    ensures i < |l| && logic(l[i]) == Ok(Desired(jobs)[k]) && RawKey(l[i]) == Some(k)
  {
    DesiredIsKeyed(jobs);
    var n :| 0 <= n < |l| && logic(l[n]) == Ok(Desired(jobs)[k]);
    i := n;
  }

  /** What a live job is wanted to be is what it is. */
  lemma LiveIsWanted(jobs: seq<Job>, l: seq<Json>, store: Store, logic: Logic, id: string)
    requires Lists(l, store) && GoodStore(store, logic) && Restores(jobs, l, logic) && id in store
    requires forall j :: j in jobs ==> KeyedJob(j)
    ensures RawKey(store[id]).Some? && RawKey(store[id]).value in Desired(jobs)
    ensures Matches(Obj(Desired(jobs)[RawKey(store[id]).value]), Obj(logic(store[id]).value))
  {
    var i :| 0 <= i < |l| && l[i] == store[id];
    DesiredHas(jobs, logic(l[i]).value);
    var k := RawKey(l[i]).value;
    var j := WantedIsLive(jobs, l, logic, k);
    assert store[IdOf(l[j]).value] == l[j] && IdOf(l[j]).value == id;
    MatchesReflexive(Obj(Desired(jobs)[k]));
  }

  /** Jobs that are the logical forms of the live ones ask nothing of their store. */
  lemma RestoredIsSettled(jobs: seq<Job>, l: seq<Json>, store: Store, prefix: string, prune: bool, logic: Logic)
    requires Lists(l, store) && GoodStore(store, logic) && Restores(jobs, l, logic)
    ensures forall j :: j in jobs ==> KeyedJob(j)
    ensures SettledStore(store, Policy(Desired(jobs), prefix, prune), logic)
  {
    forall j | j in jobs ensures KeyedJob(j) {
      var i :| 0 <= i < |l| && logic(l[i]) == Ok(j);
    }
    forall k | k in Desired(jobs) ensures k in Keys(store) {
      var i := WantedIsLive(jobs, l, logic, k);
      assert store[IdOf(l[i]).value] == l[i];
    }
    forall id | id in store
      ensures RawKey(store[id]).Some? && RawKey(store[id]).value in Desired(jobs)
      ensures Matches(Obj(Desired(jobs)[RawKey(store[id]).value]), Obj(logic(store[id]).value))
    {
      LiveIsWanted(jobs, l, store, logic, id);
    }
  }

  /** A live job that is exported and materialized. */
  lemma ClaimRestored(raw: Json, prefix: string, home: string, rules: Rules)
    requires GoodHome(home) && Explicit(raw) && LacksPlaceholder(raw) && LogicalJob(raw, prefix, rules).Ok?
    requires ClaimingWith(prefix, Some(home), rules)(raw).Ok?
    ensures var c := ClaimingWith(prefix, Some(home), rules)(raw).value;
      c.explicit && Rendered(c.job, home) == LogicalJob(raw, prefix, rules).value
    ensures KeyedJob(LogicalJob(raw, prefix, rules).value) && RawKey(raw) == Some(KeyOf(LogicalJob(raw, prefix, rules).value))
  {
    ClaimBy(raw => Portable(raw, Some(home)), ReaderFor(prefix, rules), raw);
    ExplicitNormalized(raw, home);
    JobRestored(raw, prefix, home, rules);
    OwnKeyLogical(raw, prefix, rules);
  }

  /** The claim is explicit, and its job, rendered, is the raw job's logical form. */
  ghost predicate Restorable(c: Claim, raw: Json, render: Job -> Job, logic: Logic) {
    && c.explicit && logic(raw).Ok? && render(c.job) == logic(raw).value
    && KeyedJob(logic(raw).value) && RawKey(raw) == Some(KeyOf(logic(raw).value))
  }

  ghost predicate RenderedBy(out: seq<Job>, jobs: seq<Job>, render: Job -> Job) {
    |out| == |jobs| && forall i :: 0 <= i < |jobs| ==> out[i] == render(jobs[i])
  }

  ghost predicate AllRestorable(l: seq<Json>, claims: seq<Claim>, render: Job -> Job, logic: Logic) {
    |claims| == |l| && forall i :: 0 <= i < |l| ==> Restorable(claims[i], l[i], render, logic)
  }

  lemma ClaimsRestorable(l: seq<Json>, claiming: Claiming, render: Job -> Job, logic: Logic)
    requires Collect(l, claiming).Ok?
    requires forall raw :: raw in l && claiming(raw).Ok? ==> Restorable(claiming(raw).value, raw, render, logic)
    ensures AllRestorable(l, Collect(l, claiming).value, render, logic)
  {
    if l != [] {
      CollectEach(l, claiming, 0);
    }
    forall i | 0 <= i < |l| ensures Restorable(Collect(l, claiming).value[i], l[i], render, logic) {
      CollectEach(l, claiming, i);
      assert l[i] in l;
    }
  }

  lemma ListedClaim(claims: seq<Claim>, j: Job) returns (i: nat)
    requires j in JobsOf(Listing(WithCanary(FirstClaims(claims), None)))
    ensures i < |claims| && claims[i].job == j
  {
    var m := FirstClaims(claims);
    var k := ListedFrom(m, j);
    assert m[k] in claims;
    var n :| 0 <= n < |claims| && claims[n] == m[k];
    i := n;
  }

  ghost predicate JobOfClaim(claims: seq<Claim>, j: Job) {
    exists i :: 0 <= i < |claims| && claims[i].job == j
  }

  lemma ListingFrom(claims: seq<Claim>)
    ensures forall j :: j in JobsOf(Listing(WithCanary(FirstClaims(claims), None))) ==> JobOfClaim(claims, j)
  {
    forall j | j in JobsOf(Listing(WithCanary(FirstClaims(claims), None))) ensures JobOfClaim(claims, j) {
      var i := ListedClaim(claims, j);
    }
  }

  lemma SnapshotFrom(l: seq<Json>, prefix: string, claiming: Claiming)
    requires SnapshotOf(l, prefix, None, claiming).Ok?
    ensures forall j :: j in SnapshotOf(l, prefix, None, claiming).value ==> JobOfClaim(Collect(l, claiming).value, j)
  {
    ListingFrom(Collect(l, claiming).value);
  }

  /** The snapshot holds the job of every explicit claim. */
  lemma ExplicitListed(claims: seq<Claim>, jobs: seq<Job>, l: seq<Json>, render: Job -> Job, logic: Logic)
    requires Consistent(multiset(claims)) && AllRestorable(l, claims, render, logic)
    requires forall k :: k in FirstClaims(claims) ==> FirstClaims(claims)[k].job in jobs
    ensures forall i :: 0 <= i < |l| ==> claims[i].job in jobs
  {
    forall i | 0 <= i < |l| ensures claims[i].job in jobs {
      assert Restorable(claims[i], l[i], render, logic);
      ExplicitDistinct(claims, i, i);
    }
  }

  lemma RestoredLists(out: seq<Job>, jobs: seq<Job>, l: seq<Json>, claims: seq<Claim>, render: Job -> Job, logic: Logic)
    requires RenderedBy(out, jobs, render) && AllRestorable(l, claims, render, logic)
    requires forall i :: 0 <= i < |l| ==> claims[i].job in jobs
    requires forall j :: j in jobs ==> JobOfClaim(claims, j)
    ensures Restores(out, l, logic)
  {
    forall i | 0 <= i < |l| ensures logic(l[i]).Ok? && logic(l[i]).value in out {
      assert Restorable(claims[i], l[i], render, logic);
      var n :| 0 <= n < |jobs| && jobs[n] == claims[i].job;
      assert out[n] == logic(l[i]).value;
    }
    forall j | j in out ensures exists i :: 0 <= i < |l| && logic(l[i]) == Ok(j) {
      var n :| 0 <= n < |out| && out[n] == j;
      assert jobs[n] in jobs;
      var i :| 0 <= i < |l| && claims[i].job == jobs[n];
      assert Restorable(claims[i], l[i], render, logic);
    }
    forall i | 0 <= i < |l| && logic(l[i]).Ok?
      ensures KeyedJob(logic(l[i]).value) && RawKey(l[i]) == Some(KeyOf(logic(l[i]).value))
    {
      assert Restorable(claims[i], l[i], render, logic);
    }
  }

  lemma ClaimsRestored(l: seq<Json>, prefix: string, home: string, rules: Rules)
    requires GoodHome(home)
    requires forall raw :: raw in l ==> Explicit(raw) && LacksPlaceholder(raw) && LogicalJob(raw, prefix, rules).Ok?
    ensures forall raw :: raw in l && ClaimingWith(prefix, Some(home), rules)(raw).Ok? ==>
              Restorable(ClaimingWith(prefix, Some(home), rules)(raw).value, raw,
                         job => Rendered(job, home), raw => LogicalJob(raw, prefix, rules))
  {
    forall raw | raw in l && ClaimingWith(prefix, Some(home), rules)(raw).Ok?
      ensures Restorable(ClaimingWith(prefix, Some(home), rules)(raw).value, raw,
                         job => Rendered(job, home), raw => LogicalJob(raw, prefix, rules))
    {
      ClaimRestored(raw, prefix, home, rules);
    }
  }

  /** A snapshot of claims that can be restored asks nothing of the store it was made from. */
  lemma RestorableIsSettled(l: seq<Json>, store: Store, jobs: seq<Job>, out: seq<Job>, prefix: string, prune: bool,
                            claiming: Claiming, render: Job -> Job, logic: Logic)
    requires Lists(l, store) && GoodStore(store, logic) && RenderedBy(out, jobs, render)
    requires SnapshotOf(l, prefix, None, claiming) == Ok(jobs)
    requires forall raw :: raw in l && claiming(raw).Ok? ==> Restorable(claiming(raw).value, raw, render, logic)
    ensures forall j :: j in out ==> KeyedJob(j)
    ensures SettledStore(store, Policy(Desired(out), prefix, prune), logic)
  {
    SnapshotParts(l, prefix, None, claiming);
    ClaimsRestorable(l, claiming, render, logic);
    var claims := Collect(l, claiming).value;
    ExplicitListed(claims, jobs, l, render, logic);
    SnapshotFrom(l, prefix, claiming);
    RestoredLists(out, jobs, l, claims, render, logic);
    RestoredIsSettled(out, l, store, prefix, prune, logic);
  }

  /** What is true of the stored jobs is true of the listed ones. */
  lemma ListedJobs(l: seq<Json>, store: Store, good: Json -> bool)
    requires Lists(l, store) && forall id :: id in store ==> good(store[id])
    ensures forall raw :: raw in l ==> good(raw)
  {
    forall raw | raw in l ensures good(raw) {
      assert store[IdOf(raw).value] == raw;
    }
  }

  /** Export and restore: if every live job names its own key and no string of it holds the placeholder,
      the export of a store, materialized under the same home, plans nothing for that store. */
  lemma ExportIsSettled(store: Store, l: seq<Json>, jobs: seq<Job>, prefix: string, home: string, prune: bool, rules: Rules)
    requires GoodHome(home) && Lists(l, store) && GoodStore(store, raw => LogicalJob(raw, prefix, rules))
    requires forall id :: id in store ==> Explicit(store[id]) && LacksPlaceholder(store[id])
    requires SnapshotOf(l, prefix, None, ClaimingWith(prefix, Some(home), rules)) == Ok(jobs)
    ensures forall j :: j in Materialized(jobs, home) ==> KeyedJob(j)
    ensures SettledStore(store, PolicyOf(Snapshot(prefix, Materialized(jobs, home)), prune),
                         raw => LogicalJob(raw, prefix, rules))
  {
    ListedJobs(l, store, raw => Explicit(raw) && LacksPlaceholder(raw) && LogicalJob(raw, prefix, rules).Ok?);
    ClaimsRestored(l, prefix, home, rules);
    RestorableIsSettled(l, store, jobs, Materialized(jobs, home), prefix, prune, ClaimingWith(prefix, Some(home), rules),
                        job => Rendered(job, home), raw => LogicalJob(raw, prefix, rules));
  }

  // ----- a snapshot that never settles

  lemma OneDesired(job: Job)
    requires KeyedJob(job)
    ensures Desired([job]) == map[KeyOf(job) := job]
  {
    assert [job][..0] == [] && Desired([]) == map[];
  }

  lemma NullIsDeclared(job: Job, prefix: string, prune: bool)
    requires KeyedJob(job) && !NoNulls(job)
    ensures !NothingNull(PolicyOf(Snapshot(prefix, [job]), prune))
  {
    OneDesired(job);
    assert Desired([job])[KeyOf(job)] == job;
  }

  /** The plan for this listing has something to do. */
  ghost predicate Busy(l: seq<Json>, policy: Policy, logic: Logic) {
    IndexLive(l, logic).Ok? ==> !Settled(PlanFor(policy.desired, IndexLive(l, logic).value, policy.prefix, policy.prune))
  }

  ghost predicate AlwaysBusy(policy: Policy, logic: Logic) {
    forall l :: Busy(l, policy, logic)
  }

  lemma DeclaredNullIsBusy(policy: Policy, prefix: string, rules: Rules)
    requires !NothingNull(policy)
    ensures AlwaysBusy(policy, raw => LogicalJob(raw, prefix, rules))
  {
    var logic := raw => LogicalJob(raw, prefix, rules);
    LogicalMeetsContract(prefix, rules);
    forall l ensures Busy(l, policy, logic) {
      if !Busy(l, policy, logic) {
        SettledHasNoNulls(l, policy, logic);
      }
    }
  }

  lemma NullMessageJob(message: string, rules: Rules)
    requires rules.nested(map["schedule" := Timed(), "payload" := Message(message)])
    ensures var job := MessageJob(message)["displayName" := Null];
      ValidJob(job, rules) && KeyedJob(job) && !NoNulls(job)
  {
    MessageJobIsValid(message, rules);
    NullDisplayName(MessageJob(message), rules);
    ValidIsExplicit(MessageJob(message)["displayName" := Null], rules);
  }

  lemma OneLoads(job: Job, prefix: string, rules: Rules)
    requires ValidPrefix(prefix) && ValidJob(job, rules) && KeyedJob(job)
    ensures Loadable(prefix, [job], job => ValidJob(job, rules))
  {
  }

  /** load_snapshot accepts a job with a null display name, and whatever is listed, the plan for it has
      something to do, so that no reconciliation with it returns. */
  lemma NullNeverSettles(message: string, prefix: string, prune: bool, rules: Rules)
    requires ValidPrefix(prefix) && rules.nested(map["schedule" := Timed(), "payload" := Message(message)])
    ensures var jobs := [MessageJob(message)["displayName" := Null]];
      && Loadable(prefix, jobs, job => ValidJob(job, rules))
      && AlwaysBusy(PolicyOf(Snapshot(prefix, jobs), prune), raw => LogicalJob(raw, prefix, rules))
  {
    NullMessageJob(message, rules);
    var job := MessageJob(message)["displayName" := Null];
    NullIsDeclared(job, prefix, prune);
    OneLoads(job, prefix, rules);
    DeclaredNullIsBusy(PolicyOf(Snapshot(prefix, [job]), prune), prefix, rules);
  }
}
