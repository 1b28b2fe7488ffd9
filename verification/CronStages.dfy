/** The stages of reconciling the live cron jobs with a snapshot, one command at a time. */
module CronStages {
  import opened Wrappers
  import opened Text
  import opened Order
  import opened Json
  import opened CronJobs
  import opened CronServer
  import opened CronListings
  import opened CronCalls
  import opened CronRuns
  import opened CronPlaces

  /** What one more listed job does to the index: it cannot be read, its key is taken, or it is added. */
  function IndexOne(before: Index, raw: Json, logic: Logic): Result<Index> {
    if IdOf(raw).None? || logic(raw).Raise? then Raise
    else
      var live := Live(IdOf(raw).value, logic(raw).value);
      match RawKey(raw)
      case None => Ok(before.(unkeyed := before.unkeyed + [live]))
      case Some(k) => if k in before.keyed then Raise else Ok(before.(keyed := before.keyed[k := live]))
  }

  lemma IndexGrows(raws: seq<Json>, i: nat, logic: Logic)
    requires i < |raws| && IndexLive(raws[..i], logic).Ok?
    ensures IndexLive(raws[..i + 1], logic) == IndexOne(IndexLive(raws[..i], logic).value, raws[i], logic)
  {
    assert raws[..i + 1][..i] == raws[..i] && raws[..i + 1][i] == raws[i];
  }

  lemma {:induction false} IndexRaises(raws: seq<Json>, i: nat, logic: Logic)
    requires i <= |raws| && IndexLive(raws[..i], logic).Raise?
    ensures IndexLive(raws, logic).Raise?
  {
    if i < |raws| {
      assert raws[..|raws| - 1][..i] == raws[..i];
      IndexRaises(raws[..|raws| - 1], i, logic);
    } else {
      assert raws[..i] == raws;
    }
  }

  /** The body of index_live_jobs's loop */
  method IndexJob(before: Index, raw: Json, logic: Logic) returns (r: Result<Index>)
    ensures r == IndexOne(before, raw, logic)
  {
    var id := IdOf(raw);
    var logical := logic(raw);
    if id.None? || logical.Raise? {
      return Raise;
    }
    var live := Live(id.value, logical.value);
    match RawKey(raw) {
      case Some(k) =>
        if k in before.keyed {
          return Raise;
        }
        r := Ok(before.(keyed := before.keyed[k := live]));
      case None =>
        r := Ok(before.(unkeyed := before.unkeyed + [live]));
    }
  }

  /** index_live_jobs */
  method IndexLiveJobs(raws: seq<Json>, logic: Logic) returns (r: Result<Index>)
    ensures r == IndexLive(raws, logic)
  {
    r := Ok(Index(map[], []));
    var i := 0;
    while i < |raws|
      invariant 0 <= i <= |raws| && r.Ok? && IndexLive(raws[..i], logic) == r
    {
      IndexGrows(raws, i, logic);
      r := IndexJob(r.value, raws[i], logic);
      if r.Raise? {
        IndexRaises(raws, i + 1, logic);
        return;
      }
      i := i + 1;
    }
    assert raws[..i] == raws;
  }

  /** The desired keys sorted into missing, differing and matching ones. */
  method SortDesired(desired: map<string, Job>, index: Index) returns (create: set<string>, update: set<string>, current: set<string>)
    ensures forall prefix, prune :: var plan := PlanFor(desired, index, prefix, prune);
      create == plan.create && update == plan.update && current == plan.current
  {
    create, update, current := {}, {}, {};
    ghost var plan := PlanFor(desired, index, "", false);
    var todo := desired.Keys;
    while todo != {}
      invariant todo <= desired.Keys
      invariant create == plan.create - todo && update == plan.update - todo && current == plan.current - todo
      decreases todo
    {
      var key :| key in todo;
      if key !in index.keyed {
        create := create + {key};
      } else if Matches(Obj(desired[key]), Obj(index.keyed[key].job)) {
        current := current + {key};
      } else {
        update := update + {key};
      }
      todo := todo - {key};
    }
  }

  /** The unkeyed duplicates. */
  /** The ids of the unkeyed jobs that have a twin. */
  ghost function TwinIds(desired: map<string, Job>, unkeyed: seq<Live>): set<string> {
    set u | u in unkeyed && HasTwin(desired, u.job) :: u.id
  }

  lemma TwinNext(desired: map<string, Job>, unkeyed: seq<Live>, i: nat)
    requires i < |unkeyed|
    ensures TwinIds(desired, unkeyed[..i + 1]) ==
            TwinIds(desired, unkeyed[..i]) + if HasTwin(desired, unkeyed[i].job) then {unkeyed[i].id} else {}
  {
    assert unkeyed[..i + 1] == unkeyed[..i] + [unkeyed[i]];
  }

  method FindTwins(desired: map<string, Job>, unkeyed: seq<Live>) returns (remove: set<string>)
    ensures remove == set u | u in unkeyed && HasTwin(desired, u.job) :: u.id
  {
    remove := {};
    var i := 0;
    while i < |unkeyed|
      invariant 0 <= i <= |unkeyed| && remove == TwinIds(desired, unkeyed[..i])
    {
      TwinNext(desired, unkeyed, i);
      DuplicateIff(desired, unkeyed[i].job);
      if Duplicate(desired, unkeyed[i].job) {
        remove := remove + {unkeyed[i].id};
      }
      i := i + 1;
    }
    assert unkeyed[..i] == unkeyed;
  }

  /** The unkeyed duplicates, and with prune the managed jobs that are not desired. */
  method FindSurplus(desired: map<string, Job>, index: Index, prefix: string, prune: bool) returns (remove: set<string>)
    ensures remove == PlanFor(desired, index, prefix, prune).remove
  {
    remove := FindTwins(desired, index.unkeyed);
    ghost var duplicates := remove;
    if prune {
      var todo := index.keyed.Keys;
      while todo != {}
        invariant todo <= index.keyed.Keys
        invariant remove == duplicates +
          set k | k in index.keyed && k !in todo && StartsWith(k, prefix) && k !in desired :: index.keyed[k].id
        decreases todo
      {
        var key :| key in todo;
        if StartsWith(key, prefix) && key !in desired {
          remove := remove + {index.keyed[key].id};
        }
        todo := todo - {key};
      }
    }
  }

  /** The sorted list of these keys; there is only one. */
  ghost predicate SortedList(list: seq<string>, keys: set<string>) {
    Sorted(list) && forall k :: k in list <==> k in keys
  }

  /** sorted */
  method SortKeys(keys: set<string>) returns (list: seq<string>)
    ensures SortedList(list, keys)
  {
    list := SortedKeys(keys);
    SortedKeysSorted(keys);
  }

  /** There is only one such list, so a sorted plan is determined by its sets. */
  lemma SortedOnce(a: seq<string>, b: seq<string>, keys: set<string>)
    requires SortedList(a, keys) && SortedList(b, keys)
    ensures a == b
  {
    SortedUnique(a, b);
  }

  /** The plan as plan_reconcile returns it. */
  datatype PlanLists = PlanLists(create: seq<string>, update: seq<string>, current: seq<string>, remove: seq<string>)

  ghost predicate SortedPlan(lists: PlanLists, plan: Plan) {
    && SortedList(lists.create, plan.create) && SortedList(lists.update, plan.update)
    && SortedList(lists.current, plan.current) && SortedList(lists.remove, plan.remove)
  }

  /** plan_reconcile */
  method MakePlan(snapshot: Snapshot, raws: seq<Json>, prune: bool, logic: Logic) returns (r: Result<PlanLists>)
    requires forall j :: j in snapshot.jobs ==> KeyedJob(j)
    ensures r.Ok? == PlanReconcile(snapshot, raws, prune, logic).Ok?
    ensures r.Ok? ==> SortedPlan(r.value, PlanReconcile(snapshot, raws, prune, logic).value)
  {
    var index :- IndexLiveJobs(raws, logic);
    var desired := Desired(snapshot.jobs);
    var create, update, current := SortDesired(desired, index);
    var remove := FindSurplus(desired, index, snapshot.prefix, prune);
    var a := SortKeys(create);
    var b := SortKeys(update);
    var c := SortKeys(current);
    var d := SortKeys(remove);
    r := Ok(PlanLists(a, b, c, d));
  }

  // ----- the stages

  /** The log grew by justified calls, none of them waiting for its counterpart. */
  ghost predicate Progress(before: seq<Call>, after: seq<Call>, from: nat, policy: Policy, logic: Logic) {
    from <= |after| && before <= after && Closed(after, from, policy, logic)
  }

  /** The log grew by exactly these steps, one for each of the keys. */
  ghost predicate Took(before: seq<Call>, after: seq<Call>, steps: seq<Step>, keys: set<string>, desired: map<string, Job>) {
    && KeysDesired(steps, desired) && after == before + CallsOf(steps, desired)
    && DistinctSteps(steps) && KeysOfSteps(steps) == keys
  }

  lemma TookNothing(calls: seq<Call>, desired: map<string, Job>)
    ensures Took(calls, calls, [], {}, desired)
  {
  }

  lemma TookOne(before: seq<Call>, mid: seq<Call>, after: seq<Call>, steps: seq<Step>, step: Step, keys: set<string>, desired: map<string, Job>)
    requires Took(before, mid, steps, keys, desired)
    requires step.key in desired && step.key !in keys && after == mid + CallsOfStep(step, desired)
    ensures Took(before, after, steps + [step], keys + {step.key}, desired)
  {
    StepsGrow(steps, step, desired);
    Associates(before, CallsOf(steps, desired), CallsOfStep(step, desired));
  }

  function SetOf(ids: seq<string>): set<string> {
    set id | id in ids
  }

  ghost predicate Distinct(list: seq<string>) {
    forall i, j :: 0 <= i < j < |list| ==> list[i] != list[j]
  }

  lemma SetOfNext(list: seq<string>, i: nat)
    requires i < |list| && Distinct(list)
    ensures list[..i + 1] == list[..i] + [list[i]]
    ensures SetOf(list[..i + 1]) == SetOf(list[..i]) + {list[i]} && list[i] !in SetOf(list[..i])
  {
    assert list[..i + 1] == list[..i] + [list[i]];
  }

  lemma SetOfSorted(list: seq<string>, keys: set<string>)
    requires SortedList(list, keys)
    ensures SetOf(list) == keys && Distinct(list)
  {
    SortedDistinct(list);
  }

  /** The keys of the steps, in the order of the steps. */
  function StepKeys(steps: seq<Step>): seq<string> {
    seq(|steps|, i requires 0 <= i < |steps| => steps[i].key)
  }

  lemma StepKeysNext(steps: seq<Step>, step: Step)
    ensures StepKeys(steps + [step]) == StepKeys(steps) + [step.key]
  {
  }

  ghost predicate EndsFailed(calls: seq<Call>) {
    calls != [] && calls[|calls| - 1].Failed?
  }

  lemma AddingProgress(calls: seq<Call>, k: string, id: string, raw: Json, from: nat, policy: Policy, logic: Logic)
    requires Closed(calls, from, policy, logic) && from <= |calls|
    requires LastListing(calls).Some? && Needed(LastListing(calls).value, policy, logic, k)
    ensures var added := calls + [Added(policy.desired[k], id, raw)];
      && Progress(calls, added, from, policy, logic) && LastListing(added) == LastListing(calls)
      && Progress(calls, added + [Failed], from, policy, logic)
  {
    AfterAdding(calls, k, id, raw, from, policy, logic);
    AfterListing(calls + [Added(policy.desired[k], id, raw)], Failed, from, policy, logic);
  }

  /** One desired job is added. */
  method PutJob(cli: Cli, key: string, policy: Policy, logic: Logic, ghost from: nat) returns (ok: bool, ghost step: Step)
    requires cli.Valid() && from <= |cli.calls| && Closed(cli.calls, from, policy, logic) && LastListing(cli.calls).Some?
    requires Needed(LastListing(cli.calls).value, policy, logic, key)
    modifies cli
    ensures cli.Valid() && Progress(old(cli.calls), cli.calls, from, policy, logic)
    ensures if ok then LastListing(cli.calls) == old(LastListing(cli.calls)) else EndsFailed(cli.calls)
    ensures step.key == key && step.Put?
    ensures ok ==> cli.calls == old(cli.calls) + CallsOfStep(step, policy.desired)
  {
    ghost var calls := cli.calls;
    ghost var id, raw;
    ok, id, raw := cli.AddDeclaration(policy.desired[key]);
    AddingProgress(calls, key, id, raw, from, policy, logic);
    step := Put(key, id, raw);
  }

  /** After taking out a drifting job: the log may end with a failure or the job's return. */
  lemma TakingProgress(calls: seq<Call>, k: string, gone: string, next: Call, from: nat, policy: Policy, logic: Logic)
    requires Closed(calls, from, policy, logic) && from <= |calls|
    requires LastListing(calls).Some? && Drifted(LastListing(calls).value, policy, logic, gone, k)
    requires next.Failed? || (next.Added? && next.job == policy.desired[k])
    ensures Progress(calls, calls + [Removed(gone)] + [next], from, policy, logic)
    ensures LastListing(calls + [Removed(gone)] + [next]) == LastListing(calls)
  {
    AfterTaking(calls, gone, k, next, from, policy, logic);
  }

  lemma FailingProgress(before: seq<Call>, calls: seq<Call>, from: nat, policy: Policy, logic: Logic)
    requires Progress(before, calls, from, policy, logic)
    ensures Progress(before, calls + [Failed], from, policy, logic)
  {
    AfterListing(calls, Failed, from, policy, logic);
  }

  /** One job is removed and the desired one added in its place. */
  method SwapJob(cli: Cli, key: string, gone: string, policy: Policy, logic: Logic, ghost from: nat)
    returns (ok: bool, ghost step: Step)
    requires cli.Valid() && from <= |cli.calls| && Closed(cli.calls, from, policy, logic) && LastListing(cli.calls).Some?
    requires Drifted(LastListing(cli.calls).value, policy, logic, gone, key)
    modifies cli
    ensures cli.Valid() && Progress(old(cli.calls), cli.calls, from, policy, logic)
    ensures if ok then LastListing(cli.calls) == old(LastListing(cli.calls)) else EndsFailed(cli.calls)
    ensures step.key == key && step.Swap? && step.gone == gone
    ensures ok ==> cli.calls == old(cli.calls) + CallsOfStep(step, policy.desired)
  {
    ghost var calls := cli.calls;
    step := Swap(key, gone, "", Null);
    TakingProgress(calls, key, gone, Failed, from, policy, logic);
    ok := cli.Remove(gone);
    if ok {
      ghost var id, raw;
      ok, id, raw := cli.AddDeclaration(policy.desired[key]);
      step := Swap(key, gone, id, raw);
      ghost var added := Added(policy.desired[key], id, raw);
      TakingProgress(calls, key, gone, added, from, policy, logic);
      FailingProgress(calls, calls + [Removed(gone)] + [added], from, policy, logic);
    }
  }

  /** The jobs of the plan's create list are added. */
  method CreateMissing(cli: Cli, list: seq<string>, index: Index, policy: Policy, logic: Logic, ghost from: nat)
    returns (ok: bool, ghost steps: seq<Step>)
    requires cli.Valid() && from <= |cli.calls| && Closed(cli.calls, from, policy, logic)
    requires LastListing(cli.calls).Some? && IndexLive(LastListing(cli.calls).value, logic) == Ok(index)
    requires forall k :: k in list ==> k in policy.desired && k !in index.keyed
    requires Distinct(list)
    modifies cli
    ensures cli.Valid() && Progress(old(cli.calls), cli.calls, from, policy, logic)
    ensures if ok then LastListing(cli.calls) == old(LastListing(cli.calls)) else EndsFailed(cli.calls)
    ensures ok ==> Took(old(cli.calls), cli.calls, steps, SetOf(list), policy.desired)
    ensures ok ==> StepKeys(steps) == list
    ensures ok ==> forall s :: s in steps ==> s.Put?
  {
    steps := [];
    TookNothing(cli.calls, policy.desired);
    var i := 0;
    while i < |list|
      invariant cli.Valid() && 0 <= i <= |list| && Progress(old(cli.calls), cli.calls, from, policy, logic)
      invariant LastListing(cli.calls) == old(LastListing(cli.calls))
      invariant Took(old(cli.calls), cli.calls, steps, SetOf(list[..i]), policy.desired)
      invariant forall s :: s in steps ==> s.Put?
      invariant StepKeys(steps) == list[..i]
    {
      var key := list[i];
      SetOfNext(list, i);
      ghost var calls, step := cli.calls, *;
      ok, step := PutJob(cli, key, policy, logic, from);
      if !ok {
        return;
      }
      TookOne(old(cli.calls), calls, cli.calls, steps, step, SetOf(list[..i]), policy.desired);
      StepKeysNext(steps, step);
      steps := steps + [step];
      i := i + 1;
    }
    assert list[..i] == list;
    ok := true;
  }

  /** One job of the update list. */
  method UpdateOne(cli: Cli, key: string, index: Index, policy: Policy, logic: Logic, ghost from: nat)
    returns (ok: bool, ghost step: Step)
    requires cli.Valid() && from <= |cli.calls| && Closed(cli.calls, from, policy, logic)
    requires LastListing(cli.calls).Some? && IndexLive(LastListing(cli.calls).value, logic) == Ok(index)
    requires key in policy.desired && key in index.keyed && !Matches(Obj(policy.desired[key]), Obj(index.keyed[key].job))
    modifies cli
    ensures cli.Valid() && Progress(old(cli.calls), cli.calls, from, policy, logic)
    ensures if ok then LastListing(cli.calls) == old(LastListing(cli.calls)) else EndsFailed(cli.calls)
    ensures step.key == key && (step.Swap? ==> step.gone == index.keyed[key].id)
    ensures step.Swap? <==> FixedFieldDiffers(policy.desired[key], index.keyed[key].job)
    ensures ok ==> cli.calls == old(cli.calls) + CallsOfStep(step, policy.desired)
  {
    RecreateIff(policy.desired[key], index.keyed[key].job);
    if Recreate(policy.desired[key], index.keyed[key].job) {
      ok, step := SwapJob(cli, key, index.keyed[key].id, policy, logic, from);
    } else {
      ok, step := PutJob(cli, key, policy, logic, from);
    }
  }

  /** The log after these keys of the update list: one step for each, in order. */
  ghost predicate Updated(before: seq<Call>, after: seq<Call>, steps: seq<Step>, passed: seq<string>, index: Index,
                          desired: map<string, Job>) {
    && Took(before, after, steps, SetOf(passed), desired) && SwapsFrom(steps, index) && StepKeys(steps) == passed
    && forall s :: s in steps ==> s.key in desired && s.key in index.keyed &&
                                  (s.Swap? <==> FixedFieldDiffers(desired[s.key], index.keyed[s.key].job))
  }

  lemma UpdatedNext(before: seq<Call>, mid: seq<Call>, steps: seq<Step>, step: Step, list: seq<string>, i: nat,
                    index: Index, desired: map<string, Job>)
    requires i < |list| && Distinct(list) && step.key == list[i] && step.key in desired && step.key in index.keyed
    requires step.Swap? <==> FixedFieldDiffers(desired[step.key], index.keyed[step.key].job)
    requires step.Swap? ==> step.gone == index.keyed[step.key].id
    requires Updated(before, mid, steps, list[..i], index, desired)
    ensures Updated(before, mid + CallsOfStep(step, desired), steps + [step], list[..i + 1], index, desired)
  {
    SetOfNext(list, i);
    TookOne(before, mid, mid + CallsOfStep(step, desired), steps, step, SetOf(list[..i]), desired);
    StepKeysNext(steps, step);
  }

  /** The jobs of the plan's update list are upserted, or replaced where an upsert would not do. */
  method UpdateDrifted(cli: Cli, list: seq<string>, index: Index, policy: Policy, logic: Logic, ghost from: nat)
    returns (ok: bool, ghost steps: seq<Step>)
    requires cli.Valid() && from <= |cli.calls| && Closed(cli.calls, from, policy, logic)
    requires LastListing(cli.calls).Some? && IndexLive(LastListing(cli.calls).value, logic) == Ok(index)
    requires forall k :: k in list ==> k in policy.desired && k in index.keyed
    requires forall k :: k in list ==> !Matches(Obj(policy.desired[k]), Obj(index.keyed[k].job))
    requires Distinct(list)
    modifies cli
    ensures cli.Valid() && Progress(old(cli.calls), cli.calls, from, policy, logic)
    ensures if ok then LastListing(cli.calls) == old(LastListing(cli.calls)) else EndsFailed(cli.calls)
    ensures ok ==> Took(old(cli.calls), cli.calls, steps, SetOf(list), policy.desired) && SwapsFrom(steps, index)
    ensures ok ==> StepKeys(steps) == list
    ensures ok ==> forall s :: s in steps ==>
      s.key in policy.desired && s.key in index.keyed &&
      (s.Swap? <==> FixedFieldDiffers(policy.desired[s.key], index.keyed[s.key].job))
  {
    steps := [];
    TookNothing(cli.calls, policy.desired);
    var i := 0;
    while i < |list|
      invariant cli.Valid() && 0 <= i <= |list| && Progress(old(cli.calls), cli.calls, from, policy, logic)
      invariant LastListing(cli.calls) == old(LastListing(cli.calls))
      invariant Updated(old(cli.calls), cli.calls, steps, list[..i], index, policy.desired)
    {
      ghost var calls, step := cli.calls, *;
      ok, step := UpdateOne(cli, list[i], index, policy, logic, from);
      if !ok {
        return;
      }
      UpdatedNext(old(cli.calls), calls, steps, step, list, i, index, policy.desired);
      steps := steps + [step];
      i := i + 1;
    }
    assert list[..i] == list;
    ok := true;
  }

  /** The members of the list that are among the keys, in order. */
  function Among(list: seq<string>, keys: set<string>): seq<string> {
    if list == [] then []
    else Among(list[..|list| - 1], keys) + if list[|list| - 1] in keys then [list[|list| - 1]] else []
  }

  lemma AmongNext(list: seq<string>, i: nat, keys: set<string>)
    requires i < |list| && Distinct(list)
    ensures Among(list[..i + 1], keys) == Among(list[..i], keys) + if list[i] in keys then [list[i]] else []
    ensures keys * SetOf(list[..i + 1]) == keys * SetOf(list[..i]) + if list[i] in keys then {list[i]} else {}
    ensures list[i] !in SetOf(list[..i]) && SetOf(list[..i + 1]) == SetOf(list[..i]) + {list[i]}
  {
    SetOfNext(list, i);
    assert list[..i + 1][..i] == list[..i];
  }

  /** The log after the loop passed these keys: one replacement for each that drifts, in order. */
  ghost predicate Replaced(before: seq<Call>, after: seq<Call>, steps: seq<Step>, passed: seq<string>, drifting: set<string>,
                           index: Index, desired: map<string, Job>) {
    && Took(before, after, steps, drifting * SetOf(passed), desired) && SwapsFrom(steps, index)
    && StepKeys(steps) == Among(passed, drifting) && forall s :: s in steps ==> s.Swap?
  }

  lemma ReplacedNone(calls: seq<Call>, drifting: set<string>, index: Index, desired: map<string, Job>)
    ensures Replaced(calls, calls, [], [], drifting, index, desired)
  {
    TookNothing(calls, desired);
    assert drifting * SetOf([]) == {};
  }

  lemma ReplacedSame(before: seq<Call>, after: seq<Call>, steps: seq<Step>, list: seq<string>, i: nat, drifting: set<string>,
                     index: Index, desired: map<string, Job>)
    requires i < |list| && Distinct(list) && list[i] !in drifting
    requires Replaced(before, after, steps, list[..i], drifting, index, desired)
    ensures Replaced(before, after, steps, list[..i + 1], drifting, index, desired)
  {
    AmongNext(list, i, drifting);
    assert drifting * SetOf(list[..i + 1]) == drifting * SetOf(list[..i]);
  }

  lemma ReplacedOne(before: seq<Call>, mid: seq<Call>, steps: seq<Step>, step: Step, list: seq<string>, i: nat,
                    drifting: set<string>, index: Index, desired: map<string, Job>)
    requires i < |list| && Distinct(list) && list[i] in drifting && list[i] in desired
    requires step.Swap? && step.key == list[i] && step.key in index.keyed && step.gone == index.keyed[step.key].id
    requires Replaced(before, mid, steps, list[..i], drifting, index, desired)
    ensures Replaced(before, mid + CallsOfStep(step, desired), steps + [step], list[..i + 1], drifting, index, desired)
  {
    AmongNext(list, i, drifting);
    TookOne(before, mid, mid + CallsOfStep(step, desired), steps, step, drifting * SetOf(list[..i]), desired);
    StepKeysNext(steps, step);
  }

  lemma DriftsIff(key: string, index: Index, policy: Policy)
    requires key in policy.desired && key in index.keyed
    ensures key in PlanFor(policy.desired, index, policy.prefix, policy.prune).update <==>
            !Matches(Obj(policy.desired[key]), Obj(index.keyed[key].job))
  {
  }

  /** One key of the snapshot, after creating and updating. */
  method ReplaceOne(cli: Cli, key: string, index: Index, policy: Policy, logic: Logic, ghost from: nat)
    returns (ok: bool, ghost step: Option<Step>)
    requires cli.Valid() && from <= |cli.calls| && Closed(cli.calls, from, policy, logic)
    requires LastListing(cli.calls).Some? && IndexLive(LastListing(cli.calls).value, logic) == Ok(index)
    requires key in policy.desired && key in index.keyed
    modifies cli
    ensures cli.Valid() && Progress(old(cli.calls), cli.calls, from, policy, logic)
    ensures if ok then LastListing(cli.calls) == old(LastListing(cli.calls)) else EndsFailed(cli.calls)
    ensures step.Some? <==> !Matches(Obj(policy.desired[key]), Obj(index.keyed[key].job))
    ensures ok && step.None? ==> cli.calls == old(cli.calls)
    ensures step.Some? ==> step.value.Swap? && step.value.key == key && step.value.gone == index.keyed[key].id
    ensures ok && step.Some? ==> cli.calls == old(cli.calls) + CallsOfStep(step.value, policy.desired)
  {
    ok, step := true, None;
    if !Matches(Obj(policy.desired[key]), Obj(index.keyed[key].job)) {
      ghost var swap;
      ok, swap := SwapJob(cli, key, index.keyed[key].id, policy, logic, from);
      step := Some(swap);
    }
  }

  ghost function StepOf(step: Option<Step>): seq<Step> {
    if step.Some? then [step.value] else []
  }

  lemma ReplacedNext(before: seq<Call>, mid: seq<Call>, after: seq<Call>, steps: seq<Step>, step: Option<Step>, list: seq<string>,
                     i: nat, drifting: set<string>, index: Index, desired: map<string, Job>)
    requires i < |list| && Distinct(list) && list[i] in desired && list[i] in index.keyed
    requires step.Some? <==> list[i] in drifting
    requires step.None? ==> after == mid
    requires step.Some? ==> step.value.Swap? && step.value.key == list[i] && step.value.gone == index.keyed[list[i]].id
    requires step.Some? ==> after == mid + CallsOfStep(step.value, desired)
    requires Replaced(before, mid, steps, list[..i], drifting, index, desired)
    ensures Replaced(before, after, steps + StepOf(step), list[..i + 1], drifting, index, desired)
  {
    if step.None? {
      ReplacedSame(before, mid, steps, list, i, drifting, index, desired);
      assert steps + [] == steps;
    } else {
      ReplacedOne(before, mid, steps, step.value, list, i, drifting, index, desired);
    }
  }

  lemma ReplacedAll(before: seq<Call>, after: seq<Call>, steps: seq<Step>, list: seq<string>, drifting: set<string>,
                    index: Index, desired: map<string, Job>)
    requires Replaced(before, after, steps, list, drifting, index, desired) && drifting <= SetOf(list)
    ensures Took(before, after, steps, drifting, desired) && SwapsFrom(steps, index)
    ensures StepKeys(steps) == Among(list, drifting) && forall s :: s in steps ==> s.Swap?
  {
    assert drifting * SetOf(list) == drifting;
  }

  /** The body of the loop: a missing key is an error. */
  method PassKey(cli: Cli, list: seq<string>, i: nat, ghost before: seq<Call>, ghost steps: seq<Step>,
                 index: Index, policy: Policy, logic: Logic, ghost from: nat)
    returns (ok: bool, ghost more: seq<Step>)
    requires cli.Valid() && from <= |cli.calls| && Closed(cli.calls, from, policy, logic)
    requires LastListing(cli.calls).Some? && IndexLive(LastListing(cli.calls).value, logic) == Ok(index)
    requires i < |list| && Distinct(list) && list[i] in policy.desired
    requires Replaced(before, cli.calls, steps, list[..i], PlanFor(policy.desired, index, policy.prefix, policy.prune).update,
                      index, policy.desired)
    modifies cli
    ensures cli.Valid() && Progress(old(cli.calls), cli.calls, from, policy, logic)
    ensures !ok ==> EndsFailed(cli.calls) || list[i] !in index.keyed
    ensures ok ==> LastListing(cli.calls) == old(LastListing(cli.calls)) && list[i] in index.keyed
    ensures ok ==> Replaced(before, cli.calls, more, list[..i + 1],
                            PlanFor(policy.desired, index, policy.prefix, policy.prune).update, index, policy.desired)
  {
    more := steps;
    if list[i] !in index.keyed {
      return false, more;
    }
    ghost var calls, step := cli.calls, *;
    DriftsIff(list[i], index, policy);
    ok, step := ReplaceOne(cli, list[i], index, policy, logic, from);
    if ok {
      ReplacedNext(before, calls, cli.calls, steps, step, list, i,
                   PlanFor(policy.desired, index, policy.prefix, policy.prune).update, index, policy.desired);
      more := steps + StepOf(step);
    }
  }

  /** What still differs after creating and updating is replaced, in the order of the snapshot; a missing key is an error. */
  method ReplaceDrifting(cli: Cli, list: seq<string>, index: Index, policy: Policy, logic: Logic, ghost from: nat)
    returns (ok: bool, ghost steps: seq<Step>)
    requires cli.Valid() && from <= |cli.calls| && Closed(cli.calls, from, policy, logic)
    requires LastListing(cli.calls).Some? && IndexLive(LastListing(cli.calls).value, logic) == Ok(index)
    requires Distinct(list) && SetOf(list) == policy.desired.Keys
    modifies cli
    ensures cli.Valid() && Progress(old(cli.calls), cli.calls, from, policy, logic)
    ensures !ok ==> EndsFailed(cli.calls) || !(policy.desired.Keys <= index.keyed.Keys)
    ensures ok ==> policy.desired.Keys <= index.keyed.Keys && SwapsFrom(steps, index) && forall s :: s in steps ==> s.Swap?
    ensures ok ==> Took(old(cli.calls), cli.calls, steps,
                        PlanFor(policy.desired, index, policy.prefix, policy.prune).update, policy.desired)
    ensures ok ==> StepKeys(steps) == Among(list, PlanFor(policy.desired, index, policy.prefix, policy.prune).update)
  {
    ghost var drifting := PlanFor(policy.desired, index, policy.prefix, policy.prune).update;
    steps := [];
    ReplacedNone(cli.calls, drifting, index, policy.desired);
    var i := 0;
    while i < |list|
      invariant cli.Valid() && 0 <= i <= |list| && SetOf(list[..i]) <= index.keyed.Keys
      invariant Progress(old(cli.calls), cli.calls, from, policy, logic)
      invariant LastListing(cli.calls) == old(LastListing(cli.calls))
      invariant Replaced(old(cli.calls), cli.calls, steps, list[..i], drifting, index, policy.desired)
    {
      SetOfNext(list, i);
      assert list[i] in SetOf(list);
      ok, steps := PassKey(cli, list, i, old(cli.calls), steps, index, policy, logic, from);
      if !ok {
        return;
      }
      i := i + 1;
    }
    assert list[..i] == list;
    ReplacedAll(old(cli.calls), cli.calls, steps, list, drifting, index, policy.desired);
    ok := true;
  }

  lemma DropsNext(ids: seq<string>, i: nat)
    requires i < |ids|
    ensures DropsOf(ids[..i + 1]) == DropsOf(ids[..i]) + [Removed(ids[i])]
  {
    assert ids[..i + 1] == ids[..i] + [ids[i]];
  }

  /** The removals of the cleanup plan. */
  method CleanUp(cli: Cli, ids: seq<string>, ghost index: Index, ghost policy: Policy, logic: Logic, ghost from: nat)
    returns (ok: bool)
    requires cli.Valid() && from <= |cli.calls| && Closed(cli.calls, from, policy, logic)
    requires LastListing(cli.calls).Some? && IndexLive(LastListing(cli.calls).value, logic) == Ok(index)
    requires forall id :: id in ids ==> id in PlanFor(policy.desired, index, policy.prefix, policy.prune).remove
    modifies cli
    ensures cli.Valid() && Progress(old(cli.calls), cli.calls, from, policy, logic)
    ensures !ok ==> EndsFailed(cli.calls)
    ensures ok ==> cli.calls == old(cli.calls) + DropsOf(ids)
  {
    var i := 0;
    while i < |ids|
      invariant cli.Valid() && 0 <= i <= |ids| && Progress(old(cli.calls), cli.calls, from, policy, logic)
      invariant LastListing(cli.calls) == old(LastListing(cli.calls))
      invariant cli.calls == old(cli.calls) + DropsOf(ids[..i])
    {
      SurplusFrom(LastListing(cli.calls).value, policy, logic, ids[i]);
      ok := DropJob(cli, ids[i], policy, logic, from);
      if !ok {
        return;
      }
      DropsNext(ids, i);
      Associates(old(cli.calls), DropsOf(ids[..i]), [Removed(ids[i])]);
      i := i + 1;
    }
    assert ids[..i] == ids;
    ok := true;
  }

  /** One surplus job is removed. */
  method DropJob(cli: Cli, id: string, ghost policy: Policy, logic: Logic, ghost from: nat) returns (ok: bool)
    requires cli.Valid() && from <= |cli.calls| && Closed(cli.calls, from, policy, logic) && LastListing(cli.calls).Some?
    requires Surplus(LastListing(cli.calls).value, policy, logic, id)
    modifies cli
    ensures cli.Valid() && Progress(old(cli.calls), cli.calls, from, policy, logic)
    ensures if ok then LastListing(cli.calls) == old(LastListing(cli.calls)) else EndsFailed(cli.calls)
    ensures ok ==> cli.calls == old(cli.calls) + [Removed(id)]
  {
    ghost var calls := cli.calls;
    ok := cli.Remove(id);
    AfterRemoving(calls, id, from, policy, logic);
    AfterListing(calls + [Removed(id)], Failed, from, policy, logic);
  }
}
