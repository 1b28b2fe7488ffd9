/** Which live jobs keep their ids when they are updated. */
module CronPlaces {
  import opened Wrappers
  import opened Json
  import opened CronJobs
  import opened CronServer
  import opened CronListings
  import opened CronCalls
  import opened CronRuns

  // ----- what an upsert cannot change

  /** A declared field that cron.add does not overwrite differs from the live job's. */
  ghost predicate FixedFieldDiffers(declared: Job, live: Job) {
    exists f :: f in declared && f !in UPSERTED_FIELDS &&
                (if f in live then !Matches(declared[f], live[f]) else declared[f] != Null)
  }

  lemma RecreateIff(declared: Job, live: Job)
    ensures Recreate(declared, live) <==> FixedFieldDiffers(declared, live)
  {
    forall f | f in declared && f !in live ensures Matches(declared[f], Null) <==> declared[f] == Null {
      NullMatches(declared[f]);
    }
  }

  lemma NullMatches(declared: Json)
    ensures Matches(declared, Null) <==> declared == Null
  {
  }

  /** The stored job itself has every declared field that cron.add does not overwrite. */
  ghost predicate HasFixedFields(declared: Job, raw: Json) {
    raw.Obj? && forall f :: f in declared && f !in UPSERTED_FIELDS ==>
      f in raw.fields && Matches(declared[f], raw.fields[f])
  }

  /** Such a job's logical form has them too. */
  lemma FixedFieldsStay(declared: Job, raw: Json, logic: Logic)
    requires LogicContract(logic) && Declared(declared) && NoNulls(declared)
    requires HasFixedFields(declared, raw) && logic(raw).Ok?
    ensures !FixedFieldDiffers(declared, logic(raw).value)
  {
    forall f | f in declared && f !in UPSERTED_FIELDS
      ensures f in logic(raw).value && Matches(declared[f], logic(raw).value[f])
    {
      NullMatches(declared[f]);
      assert f in LOGICAL_FIELDS && raw.fields[f] != Null && f != "declarationKey";
    }
  }

  // ----- one upsert

  /** Upserting a desired job whose fixed fields are in the store already: it keeps its id and is then as declared. */
  lemma UpsertInPlace(store: Store, at: string, id: string, raw: Json, k: string, policy: Policy, logic: Logic)
    requires GoodStore(store, logic) && KeyedPolicy(policy) && k in policy.desired
    requires at in store && RawKey(store[at]) == Some(k) && HasFixedFields(policy.desired[k], store[at])
    requires Upserts(store, id, raw, policy.desired[k], logic)
    ensures id == at && RawKey(raw) == Some(k)
    ensures HasFixedFields(policy.desired[k], raw) && Matches(Obj(policy.desired[k]), raw)
  {
    assert k in Keys(store);
    var declared := policy.desired[k];
    forall f | f in declared ensures f in raw.fields && Matches(declared[f], raw.fields[f]) {
      if f !in UPSERTED_FIELDS {
        assert f in store[at].fields && Matches(declared[f], store[at].fields[f]);
      }
    }
  }

  /** The job is stored under this id and key, with its fixed fields. */
  ghost predicate InPlace(store: Store, id: string, k: string, policy: Policy)
    requires k in policy.desired
  {
    id in store && RawKey(store[id]) == Some(k) && HasFixedFields(policy.desired[k], store[id])
  }

  // ----- the steps of a stage

  lemma OtherStepKeeps(initial: Store, calls: seq<Call>, step: Step, id: string, k: string, policy: Policy, logic: Logic)
    requires KeyedPolicy(policy) && step.key in policy.desired && GoodStore(StoreAfter(initial, calls), logic)
    requires SwapsInPlace([step], StoreAfter(initial, calls))
    requires Honest(initial, calls + CallsOfStep(step, policy.desired), logic)
    requires k in policy.desired && k != step.key && InPlace(StoreAfter(initial, calls), id, k, policy)
    ensures var after := StoreAfter(initial, calls + CallsOfStep(step, policy.desired));
      id in after && after[id] == StoreAfter(initial, calls)[id]
  {
    StepExtends(initial, calls, step, policy, logic);
  }

  lemma OwnPutKeeps(initial: Store, calls: seq<Call>, step: Step, id: string, policy: Policy, logic: Logic)
    requires KeyedPolicy(policy) && step.key in policy.desired && GoodStore(StoreAfter(initial, calls), logic)
    requires step.Put? && Honest(initial, calls + CallsOfStep(step, policy.desired), logic)
    requires InPlace(StoreAfter(initial, calls), id, step.key, policy)
    ensures var after := StoreAfter(initial, calls + CallsOfStep(step, policy.desired));
      InPlace(after, id, step.key, policy) && Matches(Obj(policy.desired[step.key]), after[id])
  {
    HonestLast(initial, calls, Added(policy.desired[step.key], step.id, step.raw), logic);
    UpsertInPlace(StoreAfter(initial, calls), id, step.id, step.raw, step.key, policy, logic);
  }

  /** Steps that do not take the job away leave it in its place; a step for its key makes it as declared. */
  lemma {:induction false} StepsKeepPlace(initial: Store, calls: seq<Call>, steps: seq<Step>, id: string, k: string,
                                          policy: Policy, logic: Logic)
    requires KeyedPolicy(policy) && KeysDesired(steps, policy.desired) && DistinctSteps(steps)
    requires GoodStore(StoreAfter(initial, calls), logic) && SwapsInPlace(steps, StoreAfter(initial, calls))
    requires Honest(initial, calls + CallsOf(steps, policy.desired), logic)
    requires k in policy.desired && InPlace(StoreAfter(initial, calls), id, k, policy)
    requires forall s :: s in steps && s.key == k ==> s.Put?
    ensures var after := StoreAfter(initial, calls + CallsOf(steps, policy.desired));
      && InPlace(after, id, k, policy)
      && if k in KeysOfSteps(steps) then Matches(Obj(policy.desired[k]), after[id])
         else after[id] == StoreAfter(initial, calls)[id]
  {
    if steps == [] {
      assert calls + CallsOf(steps, policy.desired) == calls;
    } else {
      var n := |steps| - 1;
      var init, last := steps[..n], steps[n];
      var mid := calls + CallsOf(init, policy.desired);
      assert mid + CallsOfStep(last, policy.desired) == calls + CallsOf(steps, policy.desired);
      HonestPrefix(initial, mid, CallsOfStep(last, policy.desired), logic);
      StepsExtend(initial, calls, init, policy, logic);
      StepsKeepPlace(initial, calls, init, id, k, policy, logic);
      KeysOfLast(steps);
      StillInPlace(steps, StoreAfter(initial, calls), StoreAfter(initial, mid), policy, logic);
      if last.key == k {
        OwnPutKeeps(initial, mid, last, id, policy, logic);
      } else {
        OtherStepKeeps(initial, mid, last, id, k, policy, logic);
      }
    }
  }

  /** Jobs under desired keys that have their fixed fields keep their ids. */
  ghost predicate KeepsPlaces(before: Store, after: Store, policy: Policy) {
    forall id, k :: k in policy.desired && InPlace(before, id, k, policy) ==> InPlace(after, id, k, policy)
  }

  lemma ConfinedTo(store: Store, surplus: set<string>, id: string, k: string, policy: Policy, logic: Logic)
    requires forall x :: x in surplus ==> x in store && SurplusJob(store[x], policy, logic)
    requires k in policy.desired && InPlace(store, id, k, policy)
    ensures InPlace(store - surplus, id, k, policy)
  {
  }
}
