/** What a logical job says, field by field. */
module CronFields {
  import opened Wrappers
  import opened Text
  import opened Stripping
  import opened Json
  import opened CronJobs

  /** The sixteen fields of a job. */
  predicate IsField(f: string) {
    || f == "declarationKey" || f == "displayName" || f == "owner" || f == "name" || f == "description"
    || f == "enabled" || f == "deleteAfterRun" || f == "agentId" || f == "sessionKey" || f == "schedule"
    || f == "trigger" || f == "sessionTarget" || f == "wakeMode" || f == "payload" || f == "delivery"
    || f == "failureAlert"
  }

  lemma FieldsIff(f: string)
    ensures f in LOGICAL_FIELDS <==> IsField(f)
  {
  }

  /** The raw job gives the field a value. */
  predicate Given(raw: Job, f: string) {
    f in raw && raw[f] != Null
  }

  /** The raw job names its own key: anything but blank text. */
  predicate NamesKey(raw: Job) {
    Given(raw, "declarationKey") && (raw["declarationKey"].Str? ==> !Blank(raw["declarationKey"].s))
  }

  /** The payload is a system event. */
  predicate SystemEvent(raw: Job) {
    && "payload" in raw && raw["payload"].Obj? && "kind" in raw["payload"].fields
    && raw["payload"].fields["kind"] == Str("systemEvent")
  }

  /** A job has these four fields whether or not the raw one does. */
  predicate Filled(f: string) {
    f == "enabled" || f == "sessionTarget" || f == "wakeMode" || f == "declarationKey"
  }

  /** The slug of the name, or "job" where there is none. */
  predicate Slugged(job: Job, slug: string, rules: Rules) {
    if "name" in job && job["name"].Str? && rules.slug(job["name"].s) != "" then slug == rules.slug(job["name"].s)
    else slug == "job"
  }

  /** The key made for a job that has none: the prefix, the name's slug, and the digest of the other fields. */
  ghost predicate HasMadeKey(job: Job, prefix: string, rules: Rules) {
    && "declarationKey" in job
    && exists slug :: Slugged(job, slug, rules) &&
                      job["declarationKey"] == Str(prefix + slug + "." + rules.digest(job - {"declarationKey"}))
  }

  /** The values the raw job gives, and the defaults where it gives none. */
  ghost predicate SaysWhat(raw: Job, job: Job) {
    && (forall f :: f in job <==> (IsField(f) && Given(raw, f)) || Filled(f))
    && (forall f :: IsField(f) && Given(raw, f) && f != "declarationKey" ==> job[f] == raw[f])
    && (!Given(raw, "enabled") ==> job["enabled"] == Bool(true))
    && (!Given(raw, "sessionTarget") ==> job["sessionTarget"] == Str(if SystemEvent(raw) then "main" else "isolated"))
    && (!Given(raw, "wakeMode") ==> job["wakeMode"] == Str("now"))
  }

  ghost predicate IsLogical(raw: Json, job: Job, prefix: string, rules: Rules) {
    && raw.Obj? && Given(raw.fields, "name") && SaysWhat(raw.fields, job) && ValidJob(job, rules)
    && if NamesKey(raw.fields) then job["declarationKey"] == raw.fields["declarationKey"] else HasMadeKey(job, prefix, rules)
  }

  /** The job logical_job makes, before it is validated. */
  function Made(raw: Job, prefix: string, rules: Rules): Job {
    WithKey(WithDefaults(LogicalFields(raw)), prefix, rules)
  }

  lemma LogicalGiven(raw: Job, f: string)
    ensures f in LogicalFields(raw) <==> IsField(f) && Given(raw, f)
    ensures f in LogicalFields(raw) ==> LogicalFields(raw)[f] == raw[f]
  {
    FieldsIff(f);
  }

  lemma DefaultsGiven(raw: Job, f: string)
    ensures var job := WithDefaults(LogicalFields(raw));
      && (f in job <==> (IsField(f) && Given(raw, f)) || f == "enabled" || f == "sessionTarget" || f == "wakeMode")
      && (IsField(f) && Given(raw, f) ==> job[f] == raw[f])
  {
    LogicalGiven(raw, f);
    if f in LogicalFields(raw) {
      DefaultsKeep(LogicalFields(raw), f);
    }
  }

  lemma DefaultsFilled(raw: Job)
    ensures var job := WithDefaults(LogicalFields(raw));
      && (!Given(raw, "enabled") ==> job["enabled"] == Bool(true))
      && (!Given(raw, "sessionTarget") ==> job["sessionTarget"] == Str(if SystemEvent(raw) then "main" else "isolated"))
      && (!Given(raw, "wakeMode") ==> job["wakeMode"] == Str("now"))
  {
    LogicalGiven(raw, "enabled");
    LogicalGiven(raw, "sessionTarget");
    LogicalGiven(raw, "wakeMode");
    LogicalGiven(raw, "payload");
  }

  lemma OwnKeyIff(raw: Job)
    ensures HasOwnKey(WithDefaults(LogicalFields(raw))) <==> NamesKey(raw)
  {
    DefaultsGiven(raw, "declarationKey");
  }

  lemma MadeSays(raw: Job, prefix: string, rules: Rules)
    ensures SaysWhat(raw, Made(raw, prefix, rules))
    ensures NamesKey(raw) ==> Made(raw, prefix, rules)["declarationKey"] == raw["declarationKey"]
    ensures !NamesKey(raw) ==> HasMadeKey(Made(raw, prefix, rules), prefix, rules)
  {
    OwnKeyIff(raw);
    DefaultsFilled(raw);
    var job, made := WithDefaults(LogicalFields(raw)), Made(raw, prefix, rules);
    forall f ensures f in made <==> (IsField(f) && Given(raw, f)) || Filled(f) {
      DefaultsGiven(raw, f);
    }
    forall f | IsField(f) && Given(raw, f) && f != "declarationKey" ensures made[f] == raw[f] {
      DefaultsGiven(raw, f);
    }
    if NamesKey(raw) {
      DefaultsGiven(raw, "declarationKey");
    } else {
      KeyIsMade(job, prefix, rules);
    }
  }

  lemma KeyIsMade(job: Job, prefix: string, rules: Rules)
    ensures HasMadeKey(job["declarationKey" := Str(GeneratedKey(WithoutKey(job), prefix, rules))], prefix, rules)
  {
    var seed := WithoutKey(job);
    var made := job["declarationKey" := Str(GeneratedKey(seed, prefix, rules))];
    assert made - {"declarationKey"} == seed;
    var slug := if "name" in seed && seed["name"].Str? then rules.slug(seed["name"].s) else "";
    var used := if slug == "" then "job" else slug;
    assert Slugged(made, used, rules);
    assert made["declarationKey"] == Str(prefix + used + "." + rules.digest(made - {"declarationKey"}));
  }

  lemma SaysOnce(raw: Job, a: Job, b: Job)
    requires SaysWhat(raw, a) && SaysWhat(raw, b)
    ensures a - {"declarationKey"} == b - {"declarationKey"}
  {
  }

  lemma KeyOnce(a: Job, b: Job, prefix: string, rules: Rules)
    requires a - {"declarationKey"} == b - {"declarationKey"} && "declarationKey" in a && "declarationKey" in b
    requires HasMadeKey(a, prefix, rules) && HasMadeKey(b, prefix, rules)
    ensures a["declarationKey"] == b["declarationKey"]
  {
    assert "name" in a <==> "name" in a - {"declarationKey"};
    assert "name" in b <==> "name" in b - {"declarationKey"};
  }

  /** logical_job returns a job exactly if it is valid, has the fields the raw job gives with their values and the
      defaults, and has the raw job's key or, where that is missing or blank, the one made for it. */
  lemma LogicalIff(raw: Json, job: Job, prefix: string, rules: Rules)
    ensures LogicalJob(raw, prefix, rules) == Ok(job) <==> IsLogical(raw, job, prefix, rules)
  {
    if raw.Obj? {
      LogicalGiven(raw.fields, "name");
      MadeSays(raw.fields, prefix, rules);
      if IsLogical(raw, job, prefix, rules) {
        var made := Made(raw.fields, prefix, rules);
        SaysOnce(raw.fields, job, made);
        if !NamesKey(raw.fields) {
          KeyOnce(job, made, prefix, rules);
        }
        SameButKey(job, made);
      }
    }
  }

  lemma SameButKey(a: Job, b: Job)
    requires a - {"declarationKey"} == b - {"declarationKey"}
    requires "declarationKey" in a && "declarationKey" in b && a["declarationKey"] == b["declarationKey"]
    ensures a == b
  {
    forall f ensures f in a <==> f in b {
      assert f in a - {"declarationKey"} <==> f in a && f != "declarationKey";
      assert f in b - {"declarationKey"} <==> f in b && f != "declarationKey";
    }
    forall f | f in a ensures a[f] == b[f] {
      assert f != "declarationKey" ==> (a - {"declarationKey"})[f] == (b - {"declarationKey"})[f];
    }
  }

  // ----- what a valid job may say

  /** The fields whose values are objects with fields of their own. */
  predicate IsNested(f: string) {
    f == "owner" || f == "schedule" || f == "trigger" || f == "payload" || f == "delivery" || f == "failureAlert"
  }

  lemma NestedIff(job: Job, f: string)
    ensures f in NestedFields(job) <==> f in job && IsNested(f)
    ensures f in NestedFields(job) ==> NestedFields(job)[f] == job[f]
  {
  }

  /** A text of one line with something to see on it. */
  ghost predicate Visible(value: Json) {
    && value.Str? && (exists c :: c in value.s && !IsSpace(c))
    && forall c :: c in value.s ==> c != '\n' && c != '\r'
  }

  lemma VisibleIff(value: Json)
    ensures OneLineText(value) <==> Visible(value)
  {
    if value.Str? {
      BlankIff(value.s);
      if Blank(value.s) {
        forall c | c in value.s ensures IsSpace(c) {
          var i :| 0 <= i < |value.s| && value.s[i] == c;
        }
      }
    }
  }

  /** The values a field outside the nested ones may have. */
  ghost predicate MayBe(f: string, value: Json) {
    if f == "declarationKey" then Visible(value) && Trimmed(value.s) && |value.s| <= 200
    else if f == "name" then Visible(value)
    else if f == "enabled" || f == "deleteAfterRun" then value == Bool(true) || value == Bool(false)
    else if f == "sessionTarget" then
      value in {Str("main"), Str("isolated"), Str("current")} || exists id :: id != "" && value == Str("session:" + id)
    else if f == "wakeMode" then value in {Str("now"), Str("next-heartbeat")}
    else if f == "displayName" || f == "description" || f == "agentId" || f == "sessionKey" then value.Null? || value.Str?
    else false
  }

  lemma TargetIff(value: Json)
    ensures ValidTarget(value) <==> MayBe("sessionTarget", value)
  {
    if value.Str? && StartsWith(value.s, "session:") && |value.s| > |"session:"| {
      assert value.s == "session:" + value.s[|"session:"|..];
    }
    forall id | id != "" && value == Str("session:" + id) ensures ValidTarget(value) {
      assert ("session:" + id)[..|"session:"|] == "session:";
    }
  }

  lemma KeyMayBeIff(value: Json)
    ensures ValidKey(value) <==> MayBe("declarationKey", value)
  {
    VisibleIff(value);
    if value.Str? {
      TrimmedIff(value.s);
    }
  }

  /** The fields a job cannot do without. */
  predicate IsRequired(f: string) {
    f == "declarationKey" || f == "name" || f == "enabled" || f == "sessionTarget" || f == "wakeMode"
    || f == "schedule" || f == "payload"
  }

  /** A schedule and a payload are objects; the other nested fields are left to their validators. */
  ghost predicate FieldMayBe(f: string, value: Json) {
    IsField(f) && if IsNested(f) then IsRequired(f) ==> value.Obj? else MayBe(f, value)
  }

  lemma ValidField(job: Job, f: string, rules: Rules)
    requires ValidJob(job, rules) && f in job
    ensures FieldMayBe(f, job[f])
  {
    FieldsIff(f);
    VisibleIff(job["name"]);
    TargetIff(job["sessionTarget"]);
    KeyMayBeIff(job["declarationKey"]);
  }

  lemma FieldsInside(job: Job)
    requires forall f :: f in job ==> IsField(f)
    ensures job.Keys <= LOGICAL_FIELDS
  {
    forall f | f in job ensures f in LOGICAL_FIELDS {
      FieldsIff(f);
    }
  }

  lemma TextMayBe(job: Job, f: string)
    requires f in {"displayName", "description", "agentId", "sessionKey"} && (f in job ==> FieldMayBe(f, job[f]))
    ensures OptionalText(job, f)
  {
  }

  ghost predicate SaysFine(job: Job) {
    (forall f :: IsRequired(f) ==> f in job) && (forall f :: f in job ==> FieldMayBe(f, job[f]))
  }

  lemma OptionalAreValid(job: Job)
    requires SaysFine(job)
    ensures OptionalText(job, "displayName") && OptionalText(job, "description")
    ensures OptionalText(job, "agentId") && OptionalText(job, "sessionKey")
    ensures "deleteAfterRun" in job ==> job["deleteAfterRun"].Bool?
  {
    TextMayBe(job, "displayName");
    TextMayBe(job, "description");
    TextMayBe(job, "agentId");
    TextMayBe(job, "sessionKey");
  }

  lemma KeyIsValid(job: Job)
    requires SaysFine(job)
    ensures "declarationKey" in job && ValidKey(job["declarationKey"])
    ensures "name" in job && OneLineText(job["name"])
  {
    assert IsRequired("declarationKey") && IsRequired("name");
    KeyMayBeIff(job["declarationKey"]);
    VisibleIff(job["name"]);
  }

  lemma FlagsAreValid(job: Job)
    requires SaysFine(job)
    ensures "enabled" in job && job["enabled"].Bool?
    ensures "schedule" in job && job["schedule"].Obj? && "payload" in job && job["payload"].Obj?
  {
    assert IsRequired("enabled") && IsRequired("schedule") && IsRequired("payload");
  }

  lemma TargetIsValid(job: Job)
    requires SaysFine(job)
    ensures "sessionTarget" in job && ValidTarget(job["sessionTarget"])
  {
    assert IsRequired("sessionTarget");
    assert FieldMayBe("sessionTarget", job["sessionTarget"]);
    TargetIff(job["sessionTarget"]);
  }

  lemma WakeIsValid(job: Job)
    requires SaysFine(job)
    ensures "wakeMode" in job && (job["wakeMode"] == Str("now") || job["wakeMode"] == Str("next-heartbeat"))
  {
    assert IsRequired("wakeMode");
  }

  /** The fields that are there say what they may. */
  lemma FieldsAreValid(job: Job, rules: Rules)
    requires SaysFine(job) && rules.nested(NestedFields(job))
    ensures ValidJob(job, rules)
  {
    FieldsInside(job);
    OptionalAreValid(job);
    KeyIsValid(job);
    FlagsAreValid(job);
    TargetIsValid(job);
    WakeIsValid(job);
  }

  lemma ValidSaysFine(job: Job, rules: Rules)
    requires ValidJob(job, rules)
    ensures SaysFine(job)
  {
    forall f | f in job ensures FieldMayBe(f, job[f]) {
      ValidField(job, f, rules);
    }
  }

  function Nested(job: Job): Job {
    map f | f in job && IsNested(f) :: job[f]
  }

  lemma NestedIs(job: Job)
    ensures NestedFields(job) == Nested(job)
  {
    forall f ensures f in NestedFields(job) <==> f in Nested(job) {
      NestedIff(job, f);
    }
  }

  /** A job is valid exactly if it has the required fields, every field is one of the sixteen with a value it may
      have, and the validators accept the nested ones. */
  lemma ValidIff(job: Job, rules: Rules)
    ensures ValidJob(job, rules) <==>
            SaysFine(job) && rules.nested(Nested(job))
  {
    NestedIs(job);
    if ValidJob(job, rules) {
      ValidSaysFine(job, rules);
    }
    if SaysFine(job) && rules.nested(Nested(job)) {
      FieldsAreValid(job, rules);
    }
  }

  // ----- what names a listed job

  /** The raw job has a text that is not empty in this field. */
  ghost predicate HasText(raw: Json, field: string, text: string) {
    raw.Obj? && field in raw.fields && raw.fields[field] == Str(text) && |text| > 0
  }

  /** The id and the key of a listed job are the texts in these two fields, if they are not empty. */
  lemma NamesIff(raw: Json, text: string)
    ensures IdOf(raw) == Some(text) <==> HasText(raw, "id", text)
    ensures RawKey(raw) == Some(text) <==> HasText(raw, "declarationKey", text)
  {
  }
}
