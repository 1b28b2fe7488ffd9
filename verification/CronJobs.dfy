/** Logical cron jobs: what is kept of a raw job, its defaults, its key, and the reconcile plan. */
module CronJobs {
  import opened Wrappers
  import opened Text
  import opened Json

  type Job = map<string, Json>

  const LOGICAL_FIELDS: set<string> := {
    "declarationKey", "displayName", "owner", "name", "description", "enabled", "deleteAfterRun", "agentId",
    "sessionKey", "schedule", "trigger", "sessionTarget", "wakeMode", "payload", "delivery", "failureAlert"
  }

  /** declarative_fields: the fields reconcile leaves to an upsert. */
  const DECLARATIVE_FIELDS: set<string> := {
    "declarationKey", "displayName", "enabled", "schedule", "trigger", "payload", "delivery"
  }

  /** The fields that hold objects with validators of their own. */
  const NESTED_FIELDS: set<string> := {"owner", "schedule", "trigger", "payload", "delivery", "failureAlert"}

  /** The parts of the program that are values here: the validators of the nested objects, and the slug
      and digest a generated key is made of. */
  datatype Rules = Rules(nested: Job -> bool, slug: string -> string, digest: Job -> string)

  // ----- validate_job

  predicate OneLineText(j: Json) {
    j.Str? && !Blank(j.s) && '\n' !in j.s && '\r' !in j.s
  }

  predicate ValidKey(j: Json) {
    OneLineText(j) && |j.s| <= 200 && Strip(j.s) == j.s
  }

  predicate ValidTarget(j: Json) {
    j.Str? && (j.s == "main" || j.s == "isolated" || j.s == "current" ||
               (StartsWith(j.s, "session:") && |j.s| > |"session:"|))
  }

  /** _optional_text: None is accepted. */
  predicate OptionalText(job: Job, f: string) {
    f in job ==> job[f].Null? || job[f].Str?
  }

  function NestedFields(job: Job): Job {
    map f | f in job && f in NESTED_FIELDS :: job[f]
  }

  predicate ValidJob(job: Job, rules: Rules) {
    && job.Keys <= LOGICAL_FIELDS
    && "declarationKey" in job && ValidKey(job["declarationKey"])
    && "name" in job && OneLineText(job["name"])
    && "enabled" in job && job["enabled"].Bool?
    && "sessionTarget" in job && ValidTarget(job["sessionTarget"])
    && "wakeMode" in job && (job["wakeMode"] == Str("now") || job["wakeMode"] == Str("next-heartbeat"))
    && "schedule" in job && job["schedule"].Obj?
    && "payload" in job && job["payload"].Obj?
    && OptionalText(job, "displayName") && OptionalText(job, "description")
    && OptionalText(job, "agentId") && OptionalText(job, "sessionKey")
    && ("deleteAfterRun" in job ==> job["deleteAfterRun"].Bool?)
    && rules.nested(NestedFields(job))
  }

  // ----- logical_job

  function WithDefault(job: Job, field: string, value: Json): Job {
    if field in job then job else job[field := value]
  }

  /** Whether logical_job keeps the job's own key. */
  predicate HasOwnKey(job: Job) {
    "declarationKey" in job && !(job["declarationKey"].Str? && Blank(job["declarationKey"].s))
  }

  function WithoutKey(job: Job): Job {
    job - {"declarationKey"}
  }

  /** The logical fields that are present and not null. */
  function LogicalFields(raw: Job): Job {
    map f | f in raw && f in LOGICAL_FIELDS && raw[f] != Null :: raw[f]
  }

  function WithDefaults(job: Job): Job {
    var payload := if "payload" in job then job["payload"] else Null;
    var system := payload.Obj? && "kind" in payload.fields && payload.fields["kind"] == Str("systemEvent");
    WithDefault(WithDefault(WithDefault(job, "enabled", Bool(true)),
                            "sessionTarget", Str(if system then "main" else "isolated")),
                "wakeMode", Str("now"))
  }

  function GeneratedKey(seed: Job, prefix: string, rules: Rules): string {
    var slug := if "name" in seed && seed["name"].Str? then rules.slug(seed["name"].s) else "";
    prefix + (if slug == "" then "job" else slug) + "." + rules.digest(seed)
  }

  function WithKey(job: Job, prefix: string, rules: Rules): Job {
    if HasOwnKey(job) then job
    else job["declarationKey" := Str(GeneratedKey(WithoutKey(job), prefix, rules))]
  }

  function LogicalJob(raw: Json, prefix: string, rules: Rules): Result<Job> {
    if !raw.Obj? || "name" !in LogicalFields(raw.fields) then Raise
    else
      var job := WithKey(WithDefaults(LogicalFields(raw.fields)), prefix, rules);
      if ValidJob(job, rules) then Ok(job) else Raise
  }

  /** No top-level field is null. */
  predicate NoNulls(job: Job) {
    forall f :: f in job ==> job[f] != Null
  }

  /** Any valid job may also have a null for its display name: such a job is valid and has a null. */
  lemma NullDisplayName(job: Job, rules: Rules)
    requires ValidJob(job, rules)
    ensures ValidJob(job["displayName" := Null], rules) && !NoNulls(job["displayName" := Null])
  {
    assert NestedFields(job["displayName" := Null]) == NestedFields(job);
    assert job["displayName" := Null]["displayName"] == Null;
  }

  /** A valid job without nulls is its own logical job; logical jobs are valid and have no nulls. */
  lemma LogicalIsIdentity(job: Job, prefix: string, rules: Rules)
    requires ValidJob(job, rules) && NoNulls(job)
    ensures LogicalJob(Obj(job), prefix, rules) == Ok(job)
  {
    assert LogicalFields(job) == job;
  }

  lemma LogicalIsValid(raw: Json, prefix: string, rules: Rules)
    requires LogicalJob(raw, prefix, rules).Ok?
    ensures ValidJob(LogicalJob(raw, prefix, rules).value, rules) && NoNulls(LogicalJob(raw, prefix, rules).value)
  {
    var kept := LogicalFields(raw.fields);
    DefaultsHaveNoNulls(kept);
    assert NoNulls(WithKey(WithDefaults(kept), prefix, rules));
  }

  lemma DefaultsHaveNoNulls(job: Job)
    requires NoNulls(job)
    ensures NoNulls(WithDefaults(job))
  {
  }

  /** The defaults change no field that is there. */
  lemma DefaultsKeep(job: Job, f: string)
    requires f in job
    ensures f in WithDefaults(job) && WithDefaults(job)[f] == job[f]
  {
  }

  /** A field the raw job carries, and not as null, is the logical job's field. */
  lemma LogicalKeeps(raw: Json, prefix: string, rules: Rules, f: string)
    requires LogicalJob(raw, prefix, rules).Ok? && f in LOGICAL_FIELDS
    requires f in raw.fields && raw.fields[f] != Null && (f == "declarationKey" ==> HasOwnKey(raw.fields))
    ensures f in LogicalJob(raw, prefix, rules).value && LogicalJob(raw, prefix, rules).value[f] == raw.fields[f]
  {
    var kept := LogicalFields(raw.fields);
    DefaultsKeep(kept, f);
    if "declarationKey" in kept {
      DefaultsKeep(kept, "declarationKey");
    }
  }

  // ----- live jobs

  function IdOf(raw: Json): Option<string> {
    if raw.Obj? && "id" in raw.fields && raw.fields["id"].Str? && raw.fields["id"].s != ""
    then Some(raw.fields["id"].s) else None
  }

  /** The key the server lists a job under; an empty one counts as none. */
  function RawKey(raw: Json): Option<string> {
    if raw.Obj? && "declarationKey" in raw.fields && raw.fields["declarationKey"].Str? && raw.fields["declarationKey"].s != ""
    then Some(raw.fields["declarationKey"].s) else None
  }

  datatype Live = Live(id: string, job: Job)
  datatype Index = Index(keyed: map<string, Live>, unkeyed: seq<Live>)

  /** index_live_jobs, for a given logical_job */
  function IndexLive(raws: seq<Json>, logic: Json -> Result<Job>): Result<Index> {
    if raws == [] then Ok(Index(map[], []))
    else
      var n := |raws| - 1;
      var before :- IndexLive(raws[..n], logic);
      var raw := raws[n];
      if IdOf(raw).None? then Raise
      else
        var job :- logic(raw);
        var live := Live(IdOf(raw).value, job);
        match RawKey(raw)
        case None => Ok(before.(unkeyed := before.unkeyed + [live]))
        case Some(k) => if k in before.keyed then Raise else Ok(before.(keyed := before.keyed[k := live]))
  }

  // ----- the plan

  datatype Snapshot = Snapshot(prefix: string, jobs: seq<Job>)

  predicate KeyedJob(job: Job) {
    "declarationKey" in job && job["declarationKey"].Str?
  }

  function KeyOf(job: Job): string
    requires KeyedJob(job)
  {
    job["declarationKey"].s
  }

  /** {job["declarationKey"]: job for job in jobs} */
  function Desired(jobs: seq<Job>): map<string, Job>
    requires forall j :: j in jobs ==> KeyedJob(j)
  {
    if jobs == [] then map[]
    else Desired(jobs[..|jobs| - 1])[KeyOf(jobs[|jobs| - 1]) := jobs[|jobs| - 1]]
  }

  /** An unkeyed live job that one of the desired jobs would recreate. */
  predicate Duplicate(desired: map<string, Job>, job: Job) {
    exists k :: k in desired && Matches(Obj(WithoutKey(desired[k])), Obj(WithoutKey(job)))
  }

  /** The test for replacing a job instead of upserting it. */
  predicate Recreate(declared: Job, existing: Job) {
    exists f :: f in declared && f !in DECLARATIVE_FIELDS &&
                !Matches(declared[f], if f in existing then existing[f] else Null)
  }

  /** The job holds every field the declared one has, apart from the key. */
  ghost predicate HoldsFields(declared: Job, job: Job) {
    forall f :: f in declared && f != "declarationKey" ==> f in job && Matches(declared[f], job[f])
  }

  /** One of the desired jobs has no field, apart from its key, that the job lacks. */
  ghost predicate HasTwin(desired: map<string, Job>, job: Job) {
    exists k :: k in desired && HoldsFields(desired[k], job)
  }

  lemma DuplicateIff(desired: map<string, Job>, job: Job)
    ensures Duplicate(desired, job) <==> HasTwin(desired, job)
  {
    forall k | k in desired
      ensures Matches(Obj(WithoutKey(desired[k])), Obj(WithoutKey(job))) <==> HoldsFields(desired[k], job)
    {
      WithoutKeyIff(desired[k], job);
    }
  }

  lemma WithoutKeyIff(declared: Job, job: Job)
    ensures Matches(Obj(WithoutKey(declared)), Obj(WithoutKey(job))) <==> HoldsFields(declared, job)
  {
    var d, j := WithoutKey(declared), WithoutKey(job);
    if Matches(Obj(d), Obj(j)) {
      forall f | f in declared && f != "declarationKey" ensures f in job && Matches(declared[f], job[f]) {
        assert f in d && d[f] == declared[f];
      }
    }
    if HoldsFields(declared, job) {
      forall f | f in d ensures f in j && Matches(d[f], j[f]) {
        assert f in declared && d[f] == declared[f];
      }
    }
  }

  datatype Plan = Plan(create: set<string>, update: set<string>, current: set<string>, remove: set<string>)

  /** What plan_reconcile is to return, as sets. */
  ghost function PlanFor(desired: map<string, Job>, index: Index, prefix: string, prune: bool): Plan {
    Plan(set k | k in desired && k !in index.keyed,
         set k | k in desired && k in index.keyed && !Matches(Obj(desired[k]), Obj(index.keyed[k].job)),
         set k | k in desired && k in index.keyed && Matches(Obj(desired[k]), Obj(index.keyed[k].job)),
         (set u | u in index.unkeyed && HasTwin(desired, u.job) :: u.id) +
         (set k | prune && k in index.keyed && StartsWith(k, prefix) && k !in desired :: index.keyed[k].id))
  }

  /** plan_reconcile */
  ghost function PlanReconcile(snapshot: Snapshot, raws: seq<Json>, prune: bool, logic: Json -> Result<Job>): Result<Plan>
    requires forall j :: j in snapshot.jobs ==> KeyedJob(j)
  {
    var index :- IndexLive(raws, logic);
    Ok(PlanFor(Desired(snapshot.jobs), index, snapshot.prefix, prune))
  }

  predicate Settled(plan: Plan) {
    plan.create == {} && plan.update == {} && plan.remove == {}
  }
}
