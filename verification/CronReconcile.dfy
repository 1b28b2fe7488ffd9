/** Reconciling the live cron jobs with a snapshot: safe under every answer, convergent under honest ones. */
module CronReconciler {
  import opened Wrappers
  import opened Order
  import opened Json
  import opened CronJobs
  import opened CronServer
  import opened CronListings
  import opened CronCalls
  import opened CronRuns
  import opened CronPlaces
  import opened CronStages

  // ----- the run

  function PolicyOf(snapshot: Snapshot, prune: bool): Policy
    requires forall j :: j in snapshot.jobs ==> KeyedJob(j)
  {
    Policy(Desired(snapshot.jobs), snapshot.prefix, prune)
  }

  lemma {:induction false} DesiredIsKeyed(jobs: seq<Job>)
    requires forall j :: j in jobs ==> KeyedJob(j)
    ensures forall k :: k in Desired(jobs) ==> Desired(jobs)[k] in jobs && KeyOf(Desired(jobs)[k]) == k
  {
    if jobs != [] {
      DesiredIsKeyed(jobs[..|jobs| - 1]);
    }
  }

  ghost predicate HonestCli(cli: Cli, logic: Logic)
    reads cli
  {
    Honest(cli.initial, cli.calls, logic)
  }

  /** Only listings since. */
  ghost predicate OnlyListed(before: seq<Call>, after: seq<Call>) {
    before <= after && forall i :: |before| <= i < |after| ==> after[i].Listed?
  }

  lemma HonestBefore(initial: Store, before: seq<Call>, after: seq<Call>, logic: Logic)
    requires before <= after && Honest(initial, after, logic)
    ensures Honest(initial, before, logic)
  {
    assert after == before + after[|before|..];
    HonestPrefix(initial, before, after[|before|..], logic);
  }

  /** Creating and updating against an honest server. */
  lemma StepsTaken(initial: Store, listed: seq<Call>, mid: seq<Call>, end: seq<Call>, creates: seq<Step>, updates: seq<Step>,
                   index: Index, made: set<string>, changed: set<string>, policy: Policy, logic: Logic)
    requires KeyedPolicy(policy) && GoodStore(StoreAfter(initial, listed), logic)
    requires StoreIndex(index, StoreAfter(initial, listed), logic) && made !! index.keyed.Keys
    requires Took(listed, mid, creates, made, policy.desired) && (forall s :: s in creates ==> s.Put?)
    requires Took(mid, end, updates, changed, policy.desired) && SwapsFrom(updates, index)
    requires Honest(initial, end, logic)
    ensures Extended(StoreAfter(initial, listed), StoreAfter(initial, end), made + changed, policy, logic)
  {
    var a, b := StoreAfter(initial, listed), StoreAfter(initial, mid);
    HonestBefore(initial, mid, end, logic);
    FromIndexInPlace(creates, index, a, logic);
    StepsExtend(initial, listed, creates, policy, logic);
    StillInPlaceAfter(updates, index, a, b, made, policy, logic);
    StepsExtend(initial, mid, updates, policy, logic);
    ExtendedTransitive(a, b, StoreAfter(initial, end), made, changed, policy, logic);
  }

  /** Listing, creating and updating against an honest server. */
  lemma CreatedAndUpdated(initial: Store, calls: seq<Call>, l: seq<Json>, mid: seq<Call>, end: seq<Call>,
                          creates: seq<Step>, updates: seq<Step>, index: Index, policy: Policy, logic: Logic)
    requires KeyedPolicy(policy) && GoodStore(StoreAfter(initial, calls), logic) && IndexLive(l, logic) == Ok(index)
    requires var plan := PlanFor(policy.desired, index, policy.prefix, policy.prune);
      && Took(calls + [Listed(l)], mid, creates, plan.create, policy.desired) && (forall s :: s in creates ==> s.Put?)
      && Took(mid, end, updates, plan.update, policy.desired) && SwapsFrom(updates, index)
    requires Honest(initial, end, logic)
    ensures GoodStore(StoreAfter(initial, end), logic)
    ensures Confined(StoreAfter(initial, calls), StoreAfter(initial, end), policy, logic)
    ensures policy.desired.Keys <= Keys(StoreAfter(initial, end))
    ensures SettledStore(StoreAfter(initial, calls), policy, logic) ==> end == calls + [Listed(l)]
  {
    var a, c := StoreAfter(initial, calls), StoreAfter(initial, end);
    var plan := PlanFor(policy.desired, index, policy.prefix, policy.prune);
    HonestBefore(initial, calls + [Listed(l)], end, logic);
    ListingStage(initial, calls, l, logic);
    StepsTaken(initial, calls + [Listed(l)], mid, end, creates, updates, index, plan.create, plan.update, policy, logic);
    KeysAfterUpdate(a, c, index, plan.create + plan.update, policy, logic);
    if SettledStore(a, policy, logic) {
      SettledIndex(index, a, policy, logic);
      NoSteps(creates);
      NoSteps(updates);
    }
  }

  lemma NoSteps(steps: seq<Step>)
    ensures KeysOfSteps(steps) == {} ==> steps == []
  {
    if steps != [] {
      assert steps[0].key in KeysOfSteps(steps);
    }
  }

  lemma StillInPlaceAfter(steps: seq<Step>, index: Index, a: Store, b: Store, keys: set<string>, policy: Policy, logic: Logic)
    requires SwapsFrom(steps, index) && StoreIndex(index, a, logic) && Extended(a, b, keys, policy, logic)
    requires keys !! index.keyed.Keys
    ensures SwapsInPlace(steps, b)
  {
    forall s | s in steps && s.Swap? ensures s.gone in b && RawKey(b[s.gone]) == Some(s.key) {
      assert s.gone in a && RawKey(a[s.gone]) == Some(s.key);
    }
  }

  ghost predicate Declares(policy: Policy) {
    forall k :: k in policy.desired ==> Declared(policy.desired[k])
  }

  /** Nothing is declared as null. */
  ghost predicate NothingNull(policy: Policy) {
    forall k :: k in policy.desired ==> NoNulls(policy.desired[k])
  }

  ghost predicate AllFulfilled(store: Store, policy: Policy, logic: Logic) {
    forall k :: k in policy.desired ==> Fulfilled(store, k, policy, logic)
  }

  lemma AllAfterRefresh(before: Store, after: Store, index: Index, swaps: seq<Step>, policy: Policy, logic: Logic)
    requires LogicContract(logic) && Declares(policy) && NothingNull(policy)
    requires StoreIndex(index, before, logic) && policy.desired.Keys <= Keys(before)
    requires KeysDesired(swaps, policy.desired) && forall s :: s in swaps ==> s.Swap?
    requires KeysOfSteps(swaps) == PlanFor(policy.desired, index, policy.prefix, policy.prune).update
    requires Extended(before, after, KeysOfSteps(swaps), policy, logic) && SwapsDone(swaps, after, policy.desired)
    ensures AllFulfilled(after, policy, logic)
  {
    forall k | k in policy.desired ensures Fulfilled(after, k, policy, logic) {
      KeysOfIndex(index, before, logic);
      FulfilledAfterRefresh(before, after, index, swaps, k, policy, logic);
    }
  }

  /** Listing again and replacing what still differs. */
  lemma Refreshed(initial: Store, calls: seq<Call>, l: seq<Json>, end: seq<Call>, swaps: seq<Step>, index: Index,
                  policy: Policy, logic: Logic)
    requires LogicContract(logic) && KeyedPolicy(policy) && Declares(policy)
    requires GoodStore(StoreAfter(initial, calls), logic) && policy.desired.Keys <= Keys(StoreAfter(initial, calls))
    requires IndexLive(l, logic) == Ok(index)
    requires Took(calls + [Listed(l)], end, swaps, PlanFor(policy.desired, index, policy.prefix, policy.prune).update, policy.desired)
    requires SwapsFrom(swaps, index) && forall s :: s in swaps ==> s.Swap?
    requires Honest(initial, end, logic)
    ensures GoodStore(StoreAfter(initial, end), logic)
    ensures Confined(StoreAfter(initial, calls), StoreAfter(initial, end), policy, logic)
    ensures NothingNull(policy) ==> AllFulfilled(StoreAfter(initial, end), policy, logic)
    ensures SettledStore(StoreAfter(initial, calls), policy, logic) ==> end == calls + [Listed(l)]
  {
    var a, b := StoreAfter(initial, calls), StoreAfter(initial, end);
    HonestBefore(initial, calls + [Listed(l)], end, logic);
    ListingStage(initial, calls, l, logic);
    FromIndexInPlace(swaps, index, a, logic);
    StepsExtend(initial, calls + [Listed(l)], swaps, policy, logic);
    if NothingNull(policy) {
      AllAfterRefresh(a, b, index, swaps, policy, logic);
    }
    if SettledStore(a, policy, logic) {
      SettledIndex(index, a, policy, logic);
      NoSteps(swaps);
    }
  }

  lemma NoIds(order: seq<string>)
    ensures SetOf(order) == {} <==> order == []
  {
    if order != [] {
      assert order[0] in SetOf(order);
    }
  }

  /** Listing again and removing the surplus. */
  lemma Cleaned(initial: Store, calls: seq<Call>, l: seq<Json>, order: seq<string>, index: Index, policy: Policy, logic: Logic)
    requires GoodStore(StoreAfter(initial, calls), logic) && IndexLive(l, logic) == Ok(index)
    requires SetOf(order) == PlanFor(policy.desired, index, policy.prefix, policy.prune).remove
    requires Honest(initial, calls + [Listed(l)] + DropsOf(order), logic)
    ensures var b := StoreAfter(initial, calls + [Listed(l)] + DropsOf(order));
      && GoodStore(b, logic) && Confined(StoreAfter(initial, calls), b, policy, logic)
      && (AllFulfilled(StoreAfter(initial, calls), policy, logic) ==> SettledStore(b, policy, logic))
    ensures SettledStore(StoreAfter(initial, calls), policy, logic) ==> order == []
  {
    var a := StoreAfter(initial, calls);
    HonestPrefix(initial, calls + [Listed(l)], DropsOf(order), logic);
    ListingStage(initial, calls, l, logic);
    DropStage(initial, calls + [Listed(l)], order);
    forall id ensures id in SetOf(order) <==> id in a && SurplusJob(a[id], policy, logic) {
      RemovedIsSurplus(index, a, policy, logic, id);
    }
    CleanedIsConfined(a, SetOf(order), policy, logic);
    if AllFulfilled(a, policy, logic) {
      CleanedIsSettled(a, SetOf(order), policy, logic);
    }
    if SettledStore(a, policy, logic) {
      SettledIsFulfilled(a, policy, logic);
      NoIds(order);
    }
  }

  // ----- the run

  /** The log may be extended from here, and is so far justified. */
  ghost predicate Ready(cli: Cli, from: nat, policy: Policy, logic: Logic)
    reads cli
  {
    cli.Valid() && from <= |cli.calls| && Closed(cli.calls, from, policy, logic)
  }

  /** What a stage adds to the log: the listing it worked from, the log halfway, and its steps. */
  datatype Trace = Trace(listed: seq<Json>, mid: seq<Call>, first: seq<Step>, second: seq<Step>, order: seq<string>)

  const NO_TRACE := Trace([], [], [], [], [])

  /** A stage stopped at a failed call, or because the listing could not be indexed. */
  ghost predicate Stopped(before: seq<Call>, after: seq<Call>, t: Trace, logic: Logic) {
    EndsFailed(after) || (after == before + [Listed(t.listed)] && IndexLive(t.listed, logic).Raise?)
  }

  /** Of the keys updated, exactly those are taken away and added whose fixed fields differ. */
  ghost predicate SwapsWhereFixed(steps: seq<Step>, index: Index, desired: map<string, Job>) {
    forall s :: s in steps ==> s.key in desired && s.key in index.keyed &&
                               (s.Swap? <==> FixedFieldDiffers(desired[s.key], index.keyed[s.key].job))
  }

  ghost predicate CreateLog(before: seq<Call>, after: seq<Call>, t: Trace, policy: Policy, logic: Logic) {
    && IndexLive(t.listed, logic).Ok?
    && var index := IndexLive(t.listed, logic).value;
       var plan := PlanFor(policy.desired, index, policy.prefix, policy.prune);
       && Took(before + [Listed(t.listed)], t.mid, t.first, plan.create, policy.desired) && (forall s :: s in t.first ==> s.Put?)
       && Took(t.mid, after, t.second, plan.update, policy.desired) && SwapsFrom(t.second, index)
       && SwapsWhereFixed(t.second, index, policy.desired)
  }

  /** The sorted lists of the plan for a listing. */
  ghost predicate PlanOf(lists: PlanLists, snapshot: Snapshot, l: seq<Json>, prune: bool, logic: Logic)
    requires forall j :: j in snapshot.jobs ==> KeyedJob(j)
  {
    PlanReconcile(snapshot, l, prune, logic).Ok? && SortedPlan(lists, PlanReconcile(snapshot, l, prune, logic).value)
  }

  /** The plan is the one for the listing this call returned. */
  ghost predicate PlannedFrom(calls: seq<Call>, n: nat, lists: PlanLists, snapshot: Snapshot, prune: bool, logic: Logic)
    requires forall j :: j in snapshot.jobs ==> KeyedJob(j)
  {
    n < |calls| && calls[n].Listed? && PlanOf(lists, snapshot, calls[n].jobs, prune, logic)
  }

  lemma SetOfPlan(lists: PlanLists, plan: Plan)
    requires SortedPlan(lists, plan)
    ensures SetOf(lists.create) == plan.create && SetOf(lists.update) == plan.update && SetOf(lists.remove) == plan.remove
    ensures Distinct(lists.create) && Distinct(lists.update) && Distinct(lists.remove)
  {
    SetOfSorted(lists.create, plan.create);
    SetOfSorted(lists.update, plan.update);
    SetOfSorted(lists.remove, plan.remove);
  }

  /** The keys in the order the dictionary of desired jobs has them. */
  function DesiredOrder(jobs: seq<Job>): seq<string>
    requires forall j :: j in jobs ==> KeyedJob(j)
  {
    if jobs == [] then []
    else
      var before, key := DesiredOrder(jobs[..|jobs| - 1]), KeyOf(jobs[|jobs| - 1]);
      if key in before then before else before + [key]
  }

  lemma {:induction false} DesiredOrdered(jobs: seq<Job>)
    requires forall j :: j in jobs ==> KeyedJob(j)
    ensures Distinct(DesiredOrder(jobs)) && SetOf(DesiredOrder(jobs)) == Desired(jobs).Keys
  {
    if jobs != [] {
      DesiredOrdered(jobs[..|jobs| - 1]);
    }
  }

  /** List, plan, create and update. */
  method CreateAndUpdate(cli: Cli, snapshot: Snapshot, prune: bool, logic: Logic, ghost policy: Policy, ghost from: nat)
    returns (r: Result<PlanLists>, ghost t: Trace)
    requires (forall j :: j in snapshot.jobs ==> KeyedJob(j)) && policy == PolicyOf(snapshot, prune)
    requires Ready(cli, from, policy, logic)
    modifies cli
    ensures Ready(cli, from, policy, logic) && old(cli.calls) <= cli.calls
    ensures r.Ok? ==> CreateLog(old(cli.calls), cli.calls, t, policy, logic)
    ensures r.Ok? ==> PlanOf(r.value, snapshot, t.listed, prune, logic) && old(cli.calls) + [Listed(t.listed)] <= cli.calls
    ensures r.Ok? ==> StepKeys(t.first) == r.value.create && StepKeys(t.second) == r.value.update
    ensures r.Raise? ==> Stopped(old(cli.calls), cli.calls, t, logic)
  {
    ghost var calls := cli.calls;
    t := NO_TRACE;
    var listed := cli.GetFullJobs();
    AfterListing(calls, if listed.Ok? then Listed(listed.value) else Failed, from, policy, logic);
    if listed.Raise? {
      return Raise, t;
    }
    t := t.(listed := listed.value);
    r := MakePlan(snapshot, listed.value, prune, logic);
    if r.Raise? {
      return;
    }
    var indexed := IndexLiveJobs(listed.value, logic);
    var index := indexed.value;
    ghost var creates, updates;
    SetOfPlan(r.value, PlanReconcile(snapshot, listed.value, prune, logic).value);
    var ok;
    ok, creates := CreateMissing(cli, r.value.create, index, PolicyOf(snapshot, prune), logic, from);
    if !ok {
      return Raise, t;
    }
    t := t.(mid := cli.calls, first := creates);
    ok, updates := UpdateDrifted(cli, r.value.update, index, PolicyOf(snapshot, prune), logic, from);
    if !ok {
      return Raise, t;
    }
    t := t.(second := updates);
  }

  ghost predicate RefreshLog(before: seq<Call>, after: seq<Call>, t: Trace, policy: Policy, logic: Logic) {
    && IndexLive(t.listed, logic).Ok?
    && var index := IndexLive(t.listed, logic).value;
       && Took(before + [Listed(t.listed)], after, t.first, PlanFor(policy.desired, index, policy.prefix, policy.prune).update, policy.desired)
       && SwapsFrom(t.first, index) && (forall s :: s in t.first ==> s.Swap?)
  }

  /** A desired key is missing from the listing. */
  ghost predicate Missing(before: seq<Call>, after: seq<Call>, t: Trace, policy: Policy, logic: Logic) {
    && before + [Listed(t.listed)] <= after && IndexLive(t.listed, logic).Ok?
    && !(policy.desired.Keys <= IndexLive(t.listed, logic).value.keyed.Keys)
  }

  /** List again and replace what still differs. */
  method Refresh(cli: Cli, order: seq<string>, policy: Policy, logic: Logic, ghost from: nat) returns (ok: bool, ghost t: Trace)
    requires Ready(cli, from, policy, logic) && Distinct(order) && SetOf(order) == policy.desired.Keys
    modifies cli
    ensures Ready(cli, from, policy, logic) && old(cli.calls) <= cli.calls
    ensures ok ==> RefreshLog(old(cli.calls), cli.calls, t, policy, logic)
    ensures ok ==> StepKeys(t.first) == Among(order, KeysOfSteps(t.first))
    ensures !ok ==> Stopped(old(cli.calls), cli.calls, t, logic) || Missing(old(cli.calls), cli.calls, t, policy, logic)
  {
    ghost var calls := cli.calls;
    t := NO_TRACE;
    var listed := cli.GetFullJobs();
    AfterListing(calls, if listed.Ok? then Listed(listed.value) else Failed, from, policy, logic);
    if listed.Raise? {
      return false, t;
    }
    t := t.(listed := listed.value);
    var indexed := IndexLiveJobs(listed.value, logic);
    if indexed.Raise? {
      return false, t;
    }
    ghost var swaps;
    ok, swaps := ReplaceDrifting(cli, order, indexed.value, policy, logic, from);
    t := t.(first := swaps);
  }

  ghost predicate CleanLog(before: seq<Call>, after: seq<Call>, t: Trace, policy: Policy, logic: Logic) {
    && IndexLive(t.listed, logic).Ok?
    && SetOf(t.order) == PlanFor(policy.desired, IndexLive(t.listed, logic).value, policy.prefix, policy.prune).remove
    && after == before + [Listed(t.listed)] + DropsOf(t.order)
  }

  /** List again and remove the surplus. */
  method RemoveSurplus(cli: Cli, snapshot: Snapshot, prune: bool, logic: Logic, ghost policy: Policy, ghost from: nat)
    returns (ok: bool, ghost t: Trace)
    requires (forall j :: j in snapshot.jobs ==> KeyedJob(j)) && policy == PolicyOf(snapshot, prune)
    requires Ready(cli, from, policy, logic)
    modifies cli
    ensures Ready(cli, from, policy, logic) && old(cli.calls) <= cli.calls
    ensures ok ==> CleanLog(old(cli.calls), cli.calls, t, policy, logic) && Sorted(t.order)
    ensures !ok ==> Stopped(old(cli.calls), cli.calls, t, logic)
  {
    ghost var calls := cli.calls;
    t := NO_TRACE;
    var listed := cli.GetFullJobs();
    AfterListing(calls, if listed.Ok? then Listed(listed.value) else Failed, from, policy, logic);
    if listed.Raise? {
      return false, t;
    }
    t := t.(listed := listed.value);
    var plan := MakePlan(snapshot, listed.value, prune, logic);
    if plan.Raise? {
      return false, t;
    }
    SetOfPlan(plan.value, PlanReconcile(snapshot, listed.value, prune, logic).value);
    ok := CleanUp(cli, plan.value.remove, IndexLive(listed.value, logic).value, policy, logic, from);
    t := t.(order := plan.value.remove);
  }

  // ----- the whole run against an honest server

  lemma StoppedIsDishonest(initial: Store, before: seq<Call>, after: seq<Call>, t: Trace, logic: Logic)
    requires GoodStore(StoreAfter(initial, before), logic) && Stopped(before, after, t, logic)
    ensures !Honest(initial, after, logic)
  {
    if EndsFailed(after) {
      FailedIsDishonest(initial, after, logic);
    } else {
      ListingStage(initial, before, t.listed, logic);
    }
  }

  lemma MissingIsDishonest(initial: Store, before: seq<Call>, after: seq<Call>, t: Trace, policy: Policy, logic: Logic)
    requires GoodStore(StoreAfter(initial, before), logic) && policy.desired.Keys <= Keys(StoreAfter(initial, before))
    requires Missing(before, after, t, policy, logic)
    ensures !Honest(initial, after, logic)
  {
    if Honest(initial, after, logic) {
      HonestBefore(initial, before + [Listed(t.listed)], after, logic);
      ListingStage(initial, before, t.listed, logic);
    }
  }

  /** What the stages so far have kept, or established. */
  ghost predicate Kept(initial: Store, before: seq<Call>, after: seq<Call>, policy: Policy, logic: Logic) {
    && GoodStore(StoreAfter(initial, after), logic)
    && Confined(StoreAfter(initial, before), StoreAfter(initial, after), policy, logic)
    && (SettledStore(StoreAfter(initial, before), policy, logic) ==>
          OnlyListed(before, after) && StoreAfter(initial, after) == StoreAfter(initial, before))
  }

  lemma KeptTransitive(initial: Store, a: seq<Call>, b: seq<Call>, c: seq<Call>, policy: Policy, logic: Logic)
    requires Kept(initial, a, b, policy, logic) && Kept(initial, b, c, policy, logic)
    ensures Kept(initial, a, c, policy, logic)
  {
    ConfinedTransitive(StoreAfter(initial, a), StoreAfter(initial, b), StoreAfter(initial, c), policy, logic);
  }

  lemma ListingKeeps(initial: Store, calls: seq<Call>, l: seq<Json>, policy: Policy, logic: Logic)
    requires GoodStore(StoreAfter(initial, calls), logic)
    ensures Kept(initial, calls, calls + [Listed(l)], policy, logic)
  {
    ListingStage(initial, calls, l, logic);
  }

  lemma OneStage(initial: Store, c0: seq<Call>, c1: seq<Call>, t1: Trace, policy: Policy, logic: Logic)
    requires KeyedPolicy(policy) && GoodStore(StoreAfter(initial, c0), logic) && CreateLog(c0, c1, t1, policy, logic)
    requires Honest(initial, c1, logic)
    ensures Kept(initial, c0, c1, policy, logic) && policy.desired.Keys <= Keys(StoreAfter(initial, c1))
  {
    CreatedAndUpdated(initial, c0, t1.listed, t1.mid, c1, t1.first, t1.second, IndexLive(t1.listed, logic).value, policy, logic);
    ListingStage(initial, c0, t1.listed, logic);
  }

  lemma TwoStages(initial: Store, c0: seq<Call>, c1: seq<Call>, c2: seq<Call>, t1: Trace, t2: Trace, policy: Policy, logic: Logic)
    requires LogicContract(logic) && KeyedPolicy(policy) && Declares(policy) && GoodStore(StoreAfter(initial, c0), logic)
    requires CreateLog(c0, c1, t1, policy, logic) && RefreshLog(c1, c2, t2, policy, logic) && c1 <= c2
    requires Honest(initial, c2, logic)
    ensures Kept(initial, c0, c2, policy, logic) && (NothingNull(policy) ==> AllFulfilled(StoreAfter(initial, c2), policy, logic))
  {
    HonestBefore(initial, c1, c2, logic);
    OneStage(initial, c0, c1, t1, policy, logic);
    Refreshed(initial, c1, t2.listed, c2, t2.first, IndexLive(t2.listed, logic).value, policy, logic);
    ListingStage(initial, c1, t2.listed, logic);
    KeptTransitive(initial, c0, c1, c2, policy, logic);
  }

  // ----- places

  /** Creating touches no job that is listed under a desired key. */
  lemma CreatesKeep(initial: Store, listed: seq<Call>, mid: seq<Call>, creates: seq<Step>, updates: seq<Step>, index: Index,
                    id: string, k: string, policy: Policy, logic: Logic)
    requires KeyedPolicy(policy) && GoodStore(StoreAfter(initial, listed), logic) && Honest(initial, mid, logic)
    requires StoreIndex(index, StoreAfter(initial, listed), logic) && SwapsFrom(updates, index)
    requires Took(listed, mid, creates, PlanFor(policy.desired, index, policy.prefix, policy.prune).create, policy.desired)
    requires (forall s :: s in creates ==> s.Put?) && k in policy.desired && InPlace(StoreAfter(initial, listed), id, k, policy)
    ensures GoodStore(StoreAfter(initial, mid), logic) && SwapsInPlace(updates, StoreAfter(initial, mid))
    ensures InPlace(StoreAfter(initial, mid), id, k, policy) && StoreAfter(initial, mid)[id] == StoreAfter(initial, listed)[id]
  {
    var a, b := StoreAfter(initial, listed), StoreAfter(initial, mid);
    var create := PlanFor(policy.desired, index, policy.prefix, policy.prune).create;
    FromIndexInPlace(creates, index, a, logic);
    StepsExtend(initial, listed, creates, policy, logic);
    StepsKeepPlace(initial, listed, creates, id, k, policy, logic);
    StillInPlaceAfter(updates, index, a, b, create, policy, logic);
  }

  /** Updating takes no job away whose fixed fields are as declared. */
  lemma UpdatesKeep(initial: Store, mid: seq<Call>, end: seq<Call>, updates: seq<Step>, index: Index, id: string, k: string,
                    policy: Policy, logic: Logic)
    requires LogicContract(logic) && KeyedPolicy(policy) && GoodStore(StoreAfter(initial, mid), logic) && Honest(initial, end, logic)
    requires Took(mid, end, updates, PlanFor(policy.desired, index, policy.prefix, policy.prune).update, policy.desired)
    requires SwapsInPlace(updates, StoreAfter(initial, mid)) && SwapsWhereFixed(updates, index, policy.desired)
    requires k in policy.desired && Declared(policy.desired[k]) && NoNulls(policy.desired[k])
    requires InPlace(StoreAfter(initial, mid), id, k, policy)
    requires k in index.keyed && index.keyed[k] == LogicalAt(StoreAfter(initial, mid), id, logic)
    ensures GoodStore(StoreAfter(initial, end), logic) && InPlace(StoreAfter(initial, end), id, k, policy)
    ensures Fulfilled(StoreAfter(initial, end), k, policy, logic)
  {
    FixedFieldsStay(policy.desired[k], StoreAfter(initial, mid)[id], logic);
    StepsKeepPlace(initial, mid, updates, id, k, policy, logic);
    StepsExtend(initial, mid, updates, policy, logic);
    UpdatedFulfils(StoreAfter(initial, mid), StoreAfter(initial, end), index, id, k,
                   PlanFor(policy.desired, index, policy.prefix, policy.prune).update, policy, logic);
  }

  function LogicalAt(store: Store, id: string, logic: Logic): Live {
    Live(id, if id in store && logic(store[id]).Ok? then logic(store[id]).value else map[])
  }

  /** Creating and updating: a job in its place stays there, and is then as declared. */
  lemma CreateKeepsPlace(initial: Store, c0: seq<Call>, c1: seq<Call>, t1: Trace, id: string, k: string, policy: Policy, logic: Logic)
    requires LogicContract(logic) && KeyedPolicy(policy) && Declares(policy) && NothingNull(policy)
    requires GoodStore(StoreAfter(initial, c0), logic) && CreateLog(c0, c1, t1, policy, logic) && Honest(initial, c1, logic)
    requires k in policy.desired && InPlace(StoreAfter(initial, c0), id, k, policy)
    ensures InPlace(StoreAfter(initial, c1), id, k, policy) && Fulfilled(StoreAfter(initial, c1), k, policy, logic)
  {
    var listed, index := c0 + [Listed(t1.listed)], IndexLive(t1.listed, logic).value;
    HonestBefore(initial, t1.mid, c1, logic);
    HonestBefore(initial, listed, t1.mid, logic);
    ListingStage(initial, c0, t1.listed, logic);
    CreatesKeep(initial, listed, t1.mid, t1.first, t1.second, index, id, k, policy, logic);
    UpdatesKeep(initial, t1.mid, c1, t1.second, index, id, k, policy, logic);
  }

  /** The job under the key matched before and was not touched, or has been made as declared. */
  lemma UpdatedFulfils(before: Store, after: Store, index: Index, id: string, k: string, keys: set<string>, policy: Policy, logic: Logic)
    requires LogicContract(logic) && GoodStore(after, logic) && k in policy.desired
    requires Declared(policy.desired[k]) && NoNulls(policy.desired[k])
    requires id in before && id in after && RawKey(after[id]) == Some(k) && logic(before[id]).Ok?
    requires k in index.keyed && index.keyed[k] == LogicalAt(before, id, logic)
    requires k !in keys ==> Matches(Obj(policy.desired[k]), Obj(index.keyed[k].job)) && after[id] == before[id]
    requires k in keys ==> Matches(Obj(policy.desired[k]), after[id])
    ensures Fulfilled(after, k, policy, logic)
  {
    if k in keys {
      ReplacedIsFulfilled(after, id, k, policy, logic);
    } else {
      MatchedIsFulfilled(after, id, k, policy, logic);
    }
  }

  lemma MatchedIsFulfilled(store: Store, id: string, k: string, policy: Policy, logic: Logic)
    requires GoodStore(store, logic) && k in policy.desired && id in store && RawKey(store[id]) == Some(k)
    requires Matches(Obj(policy.desired[k]), Obj(logic(store[id]).value))
    ensures Fulfilled(store, k, policy, logic)
  {
    assert k in Keys(store);
  }

  lemma FulfilledIsCurrent(index: Index, store: Store, k: string, policy: Policy, logic: Logic)
    requires StoreIndex(index, store, logic) && k in policy.desired && Fulfilled(store, k, policy, logic)
    ensures k !in PlanFor(policy.desired, index, policy.prefix, policy.prune).update
  {
  }

  /** The refresh finds nothing to replace there. */
  lemma RefreshKeepsPlace(initial: Store, c1: seq<Call>, c2: seq<Call>, t2: Trace, id: string, k: string, policy: Policy, logic: Logic)
    requires LogicContract(logic) && KeyedPolicy(policy) && Declares(policy)
    requires GoodStore(StoreAfter(initial, c1), logic) && RefreshLog(c1, c2, t2, policy, logic) && Honest(initial, c2, logic)
    requires k in policy.desired && InPlace(StoreAfter(initial, c1), id, k, policy) && Fulfilled(StoreAfter(initial, c1), k, policy, logic)
    ensures InPlace(StoreAfter(initial, c2), id, k, policy)
  {
    var a := StoreAfter(initial, c1);
    var listed, index := c1 + [Listed(t2.listed)], IndexLive(t2.listed, logic).value;
    HonestBefore(initial, listed, c2, logic);
    ListingStage(initial, c1, t2.listed, logic);
    FromIndexInPlace(t2.first, index, a, logic);
    FulfilledIsCurrent(index, a, k, policy, logic);
    StepsExtend(initial, listed, t2.first, policy, logic);
  }

  lemma CleaningKeepsPlace(initial: Store, c2: seq<Call>, c3: seq<Call>, t3: Trace, id: string, k: string, policy: Policy, logic: Logic)
    requires GoodStore(StoreAfter(initial, c2), logic) && CleanLog(c2, c3, t3, policy, logic) && Honest(initial, c3, logic)
    requires k in policy.desired && InPlace(StoreAfter(initial, c2), id, k, policy)
    ensures InPlace(StoreAfter(initial, c3), id, k, policy)
  {
    CleaningKeeps(initial, c2, c3, t3, policy, logic);
    var a, listed, index := StoreAfter(initial, c2), c2 + [Listed(t3.listed)], IndexLive(t3.listed, logic).value;
    HonestBefore(initial, listed, c3, logic);
    ListingStage(initial, c2, t3.listed, logic);
    DropStage(initial, listed, t3.order);
    forall x | x in SetOf(t3.order) ensures x in a && SurplusJob(a[x], policy, logic) {
      RemovedIsSurplus(index, a, policy, logic, x);
    }
    ConfinedTo(a, SetOf(t3.order), id, k, policy, logic);
  }

  lemma CleaningKeeps(initial: Store, c2: seq<Call>, c3: seq<Call>, t3: Trace, policy: Policy, logic: Logic)
    requires GoodStore(StoreAfter(initial, c2), logic) && CleanLog(c2, c3, t3, policy, logic) && Honest(initial, c3, logic)
    ensures Kept(initial, c2, c3, policy, logic)
    ensures AllFulfilled(StoreAfter(initial, c2), policy, logic) ==> SettledStore(StoreAfter(initial, c3), policy, logic)
  {
    Cleaned(initial, c2, t3.listed, t3.order, IndexLive(t3.listed, logic).value, policy, logic);
    if SettledStore(StoreAfter(initial, c2), policy, logic) {
      assert DropsOf([]) == [] && c3 == c2 + [Listed(t3.listed)];
      HonestPrefix(initial, c2, [Listed(t3.listed)], logic);
      ListingStage(initial, c2, t3.listed, logic);
    }
  }

  lemma ThreeStages(initial: Store, c0: seq<Call>, c2: seq<Call>, c3: seq<Call>, t3: Trace, policy: Policy, logic: Logic)
    requires Kept(initial, c0, c2, policy, logic) && (NothingNull(policy) ==> AllFulfilled(StoreAfter(initial, c2), policy, logic))
    requires CleanLog(c2, c3, t3, policy, logic) && Honest(initial, c3, logic)
    ensures Kept(initial, c0, c3, policy, logic) && (NothingNull(policy) ==> SettledStore(StoreAfter(initial, c3), policy, logic))
  {
    CleaningKeeps(initial, c2, c3, t3, policy, logic);
    KeptTransitive(initial, c0, c2, c3, policy, logic);
  }

  /** A settled plan means nothing desired declares a null: logical jobs hold none to match it. */
  lemma SettledHasNoNulls(l: seq<Json>, policy: Policy, logic: Logic)
    requires LogicContract(logic) && IndexLive(l, logic).Ok?
    requires Settled(PlanFor(policy.desired, IndexLive(l, logic).value, policy.prefix, policy.prune))
    ensures NothingNull(policy)
  {
    IndexIff(l, logic);
    var index := IndexLive(l, logic).value;
    var plan := PlanFor(policy.desired, index, policy.prefix, policy.prune);
    forall k | k in policy.desired ensures NoNulls(policy.desired[k]) {
      assert k !in plan.create && k !in plan.update;
      var i :| 0 <= i < |l| && RawKey(l[i]) == Some(k);
      MatchedHasNoNulls(policy.desired[k], index.keyed[k].job);
    }
  }

  /** The last listing decides, whatever came before it. */
  lemma FinalListing(initial: Store, c0: seq<Call>, c3: seq<Call>, l: seq<Json>, policy: Policy, logic: Logic)
    requires LogicContract(logic) && Kept(initial, c0, c3, policy, logic)
    requires NothingNull(policy) ==> SettledStore(StoreAfter(initial, c3), policy, logic)
    requires Honest(initial, c3 + [Listed(l)], logic)
    ensures Kept(initial, c0, c3 + [Listed(l)], policy, logic)
    ensures IndexLive(l, logic).Ok?
    ensures Settled(PlanFor(policy.desired, IndexLive(l, logic).value, policy.prefix, policy.prune)) <==> NothingNull(policy)
    ensures NothingNull(policy) ==> SettledStore(StoreAfter(initial, c3 + [Listed(l)]), policy, logic)
  {
    ListingStage(initial, c3, l, logic);
    SettledIff(l, StoreAfter(initial, c3), policy, logic);
    if Settled(PlanFor(policy.desired, IndexLive(l, logic).value, policy.prefix, policy.prune)) {
      SettledHasNoNulls(l, policy, logic);
    }
    ListingKeeps(initial, c3, l, policy, logic);
    KeptTransitive(initial, c0, c3, c3 + [Listed(l)], policy, logic);
  }

  /** The log after each stage of a run, and what the stages did. */
  datatype Run = Run(c1: seq<Call>, c2: seq<Call>, c3: seq<Call>, t1: Trace, t2: Trace, t3: Trace, t4: Trace)

  /** Where a run that raises early stops. */
  datatype Stop = AtCreate | AtRefresh | AtCleanUp | AtEnd

  ghost predicate StopsAt(c0: seq<Call>, end: seq<Call>, run: Run, stop: Stop, policy: Policy, logic: Logic) {
    match stop
    case AtCreate => Stopped(c0, end, run.t1, logic)
    case AtRefresh =>
      CreateLog(c0, run.c1, run.t1, policy, logic) && run.c1 <= end &&
      (Stopped(run.c1, end, run.t2, logic) || Missing(run.c1, end, run.t2, policy, logic))
    case AtCleanUp => RefreshedLog(c0, run, policy, logic) && run.c2 <= end && Stopped(run.c2, end, run.t3, logic)
    case AtEnd => CleanedLog(c0, run, policy, logic) && run.c3 <= end && Stopped(run.c3, end, run.t4, logic)
  }

  ghost predicate RefreshedLog(c0: seq<Call>, run: Run, policy: Policy, logic: Logic) {
    CreateLog(c0, run.c1, run.t1, policy, logic) && RefreshLog(run.c1, run.c2, run.t2, policy, logic) && run.c1 <= run.c2
  }

  ghost predicate CleanedLog(c0: seq<Call>, run: Run, policy: Policy, logic: Logic) {
    RefreshedLog(c0, run, policy, logic) && CleanLog(run.c2, run.c3, run.t3, policy, logic) && run.c2 <= run.c3
  }

  /** Against an honest server and from a good store no run stops early. */
  lemma NeverStops(initial: Store, c0: seq<Call>, end: seq<Call>, run: Run, stop: Stop, policy: Policy, logic: Logic)
    requires LogicContract(logic) && KeyedPolicy(policy) && Declares(policy) && GoodStore(StoreAfter(initial, c0), logic)
    requires StopsAt(c0, end, run, stop, policy, logic)
    ensures !Honest(initial, end, logic)
  {
    if Honest(initial, end, logic) {
      match stop
      case AtCreate => StoppedIsDishonest(initial, c0, end, run.t1, logic);
      case AtRefresh =>
        HonestBefore(initial, run.c1, end, logic);
        OneStage(initial, c0, run.c1, run.t1, policy, logic);
        if Stopped(run.c1, end, run.t2, logic) {
          StoppedIsDishonest(initial, run.c1, end, run.t2, logic);
        } else {
          MissingIsDishonest(initial, run.c1, end, run.t2, policy, logic);
        }
      case AtCleanUp =>
        HonestBefore(initial, run.c2, end, logic);
        TwoStages(initial, c0, run.c1, run.c2, run.t1, run.t2, policy, logic);
        StoppedIsDishonest(initial, run.c2, end, run.t3, logic);
      case AtEnd =>
        HonestBefore(initial, run.c3, end, logic);
        HonestBefore(initial, run.c2, run.c3, logic);
        TwoStages(initial, c0, run.c1, run.c2, run.t1, run.t2, policy, logic);
        ThreeStages(initial, c0, run.c2, run.c3, run.t3, policy, logic);
        StoppedIsDishonest(initial, run.c3, end, run.t4, logic);
    }
  }

  /** An honest run that reaches its last listing. */
  lemma Converges(initial: Store, c0: seq<Call>, end: seq<Call>, run: Run, policy: Policy, logic: Logic)
    requires LogicContract(logic) && KeyedPolicy(policy) && Declares(policy) && GoodStore(StoreAfter(initial, c0), logic)
    requires CleanedLog(c0, run, policy, logic) && end == run.c3 + [Listed(run.t4.listed)] && Honest(initial, end, logic)
    ensures IndexLive(run.t4.listed, logic).Ok?
    ensures Outcome(initial, c0, end,
                    Settled(PlanFor(policy.desired, IndexLive(run.t4.listed, logic).value, policy.prefix, policy.prune)),
                    policy, logic)
  {
    HonestPrefix(initial, run.c3, [Listed(run.t4.listed)], logic);
    HonestBefore(initial, run.c2, run.c3, logic);
    TwoStages(initial, c0, run.c1, run.c2, run.t1, run.t2, policy, logic);
    ThreeStages(initial, c0, run.c2, run.c3, run.t3, policy, logic);
    FinalListing(initial, c0, run.c3, run.t4.listed, policy, logic);
    if NothingNull(policy) {
      RunKeepsPlaces(initial, c0, end, run, policy, logic);
    }
  }

  /** An honest run leaves every job that has its fixed fields under its id. */
  lemma RunKeepsPlaces(initial: Store, c0: seq<Call>, end: seq<Call>, run: Run, policy: Policy, logic: Logic)
    requires LogicContract(logic) && KeyedPolicy(policy) && Declares(policy) && NothingNull(policy)
    requires GoodStore(StoreAfter(initial, c0), logic) && CleanedLog(c0, run, policy, logic)
    requires end == run.c3 + [Listed(run.t4.listed)] && Honest(initial, end, logic)
    ensures KeepsPlaces(StoreAfter(initial, c0), StoreAfter(initial, end), policy)
  {
    HonestPrefix(initial, run.c3, [Listed(run.t4.listed)], logic);
    HonestBefore(initial, run.c2, run.c3, logic);
    HonestBefore(initial, run.c1, run.c2, logic);
    OneStage(initial, c0, run.c1, run.t1, policy, logic);
    TwoStages(initial, c0, run.c1, run.c2, run.t1, run.t2, policy, logic);
    ListingStage(initial, run.c3, run.t4.listed, logic);
    forall id, k | k in policy.desired && InPlace(StoreAfter(initial, c0), id, k, policy)
      ensures InPlace(StoreAfter(initial, end), id, k, policy)
    {
      CreateKeepsPlace(initial, c0, run.c1, run.t1, id, k, policy, logic);
      RefreshKeepsPlace(initial, run.c1, run.c2, run.t2, id, k, policy, logic);
      CleaningKeepsPlace(initial, run.c2, run.c3, run.t3, id, k, policy, logic);
    }
  }

  /** The run's last call was a listing in which every desired job is matched under its key, no unkeyed
      duplicate and, with prune, no other managed job is left. */
  ghost predicate EndsSettled(calls: seq<Call>, policy: Policy, logic: Logic) {
    calls != [] && calls[|calls| - 1].Listed? && SettledListing(calls[|calls| - 1].jobs, policy, logic)
  }

  /** What a run against an honest server comes to: it converges exactly when nothing is declared as null,
      touches nothing else, does nothing to a store that is settled, and replaces no job whose fixed fields are
      as declared. */
  ghost predicate Outcome(initial: Store, before: seq<Call>, after: seq<Call>, ok: bool, policy: Policy, logic: Logic) {
    && Kept(initial, before, after, policy, logic)
    && (ok <==> NothingNull(policy))
    && (ok ==> SettledStore(StoreAfter(initial, after), policy, logic))
    && (ok ==> KeepsPlaces(StoreAfter(initial, before), StoreAfter(initial, after), policy))
  }

  /** The last listing, and whether its plan has nothing to do. */
  method CheckSettled(cli: Cli, snapshot: Snapshot, prune: bool, logic: Logic, ghost policy: Policy, ghost from: nat)
    returns (r: Result<bool>, ghost t: Trace)
    requires (forall j :: j in snapshot.jobs ==> KeyedJob(j)) && policy == PolicyOf(snapshot, prune)
    requires Ready(cli, from, policy, logic)
    modifies cli
    ensures Ready(cli, from, policy, logic) && old(cli.calls) <= cli.calls
    ensures r.Raise? ==> Stopped(old(cli.calls), cli.calls, t, logic)
    ensures r.Ok? ==> cli.calls == old(cli.calls) + [Listed(t.listed)] && IndexLive(t.listed, logic).Ok?
    ensures r.Ok? ==>
      (r.value <==> Settled(PlanFor(policy.desired, IndexLive(t.listed, logic).value, policy.prefix, policy.prune)))
  {
    ghost var calls := cli.calls;
    t := NO_TRACE;
    var listed := cli.GetFullJobs();
    AfterListing(calls, if listed.Ok? then Listed(listed.value) else Failed, from, policy, logic);
    if listed.Raise? {
      return Raise, t;
    }
    t := t.(listed := listed.value);
    var plan := MakePlan(snapshot, listed.value, prune, logic);
    if plan.Raise? {
      return Raise, t;
    }
    SetOfPlan(plan.value, PlanReconcile(snapshot, listed.value, prune, logic).value);
    NoIds(plan.value.create);
    NoIds(plan.value.update);
    NoIds(plan.value.remove);
    r := Ok(plan.value.create == [] && plan.value.update == [] && plan.value.remove == []);
  }

  /** The first two stages. */
  method Converge(cli: Cli, snapshot: Snapshot, prune: bool, logic: Logic, ghost policy: Policy, ghost from: nat)
    returns (ok: bool, plan: Result<PlanLists>, ghost run: Run, ghost stop: Stop)
    requires (forall j :: j in snapshot.jobs ==> KeyedJob(j)) && policy == PolicyOf(snapshot, prune)
    requires Ready(cli, from, policy, logic)
    modifies cli
    ensures Ready(cli, from, policy, logic) && old(cli.calls) <= cli.calls
    ensures !ok ==> StopsAt(old(cli.calls), cli.calls, run, stop, policy, logic)
    ensures ok ==> plan.Ok? && PlanOf(plan.value, snapshot, run.t1.listed, prune, logic)
    ensures ok ==> old(cli.calls) + [Listed(run.t1.listed)] <= cli.calls
    ensures ok ==> RefreshedLog(old(cli.calls), run, policy, logic) && run.c2 == cli.calls
  {
    run := Run([], [], [], NO_TRACE, NO_TRACE, NO_TRACE, NO_TRACE);
    ghost var t;
    plan, t := CreateAndUpdate(cli, snapshot, prune, logic, policy, from);
    run := run.(t1 := t, c1 := cli.calls);
    if plan.Raise? {
      return false, plan, run, AtCreate;
    }
    DesiredOrdered(snapshot.jobs);
    ok, t := Refresh(cli, DesiredOrder(snapshot.jobs), PolicyOf(snapshot, prune), logic, from);
    run := run.(t2 := t, c2 := cli.calls);
    stop := AtRefresh;
  }

  /** The four stages; with Ok, whether the last plan had nothing to do. */
  method RunStages(cli: Cli, snapshot: Snapshot, prune: bool, logic: Logic, ghost policy: Policy)
    returns (r: Result<bool>, plan: Result<PlanLists>, ghost run: Run, ghost stop: Stop)
    requires cli.Valid() && (forall j :: j in snapshot.jobs ==> KeyedJob(j)) && policy == PolicyOf(snapshot, prune)
    modifies cli
    ensures cli.Valid() && old(cli.calls) <= cli.calls && AllJustified(cli.calls, |old(cli.calls)|, policy, logic)
    ensures r.Raise? ==> StopsAt(old(cli.calls), cli.calls, run, stop, policy, logic)
    ensures r.Ok? ==> plan.Ok? && PlanOf(plan.value, snapshot, run.t1.listed, prune, logic)
    ensures r.Ok? ==> old(cli.calls) + [Listed(run.t1.listed)] <= cli.calls
    ensures r.Ok? ==> CleanedLog(old(cli.calls), run, policy, logic) && cli.calls == run.c3 + [Listed(run.t4.listed)]
    ensures r.Ok? ==> IndexLive(run.t4.listed, logic).Ok?
    ensures r.Ok? ==>
      (r.value <==> Settled(PlanFor(policy.desired, IndexLive(run.t4.listed, logic).value, policy.prefix, policy.prune)))
  {
    ghost var from := |cli.calls|;
    var ok;
    ok, plan, run, stop := Converge(cli, snapshot, prune, logic, policy, from);
    if !ok {
      return Raise, plan, run, stop;
    }
    ghost var t;
    ok, t := RemoveSurplus(cli, snapshot, prune, logic, policy, from);
    run := run.(t3 := t, c3 := cli.calls);
    if !ok {
      return Raise, plan, run, AtCleanUp;
    }
    r, t := CheckSettled(cli, snapshot, prune, logic, policy, from);
    run := run.(t4 := t);
    stop := AtEnd;
  }

  /** reconcile */
  method Reconcile(cli: Cli, snapshot: Snapshot, prune: bool, logic: Logic) returns (r: Result<PlanLists>)
    requires cli.Valid() && LogicContract(logic)
    requires forall j :: j in snapshot.jobs ==> KeyedJob(j) && Declared(j)
    modifies cli
    ensures cli.Valid() && old(cli.calls) <= cli.calls
    ensures AllJustified(cli.calls, |old(cli.calls)|, PolicyOf(snapshot, prune), logic)
    ensures r.Ok? ==> EndsSettled(cli.calls, PolicyOf(snapshot, prune), logic) && NothingNull(PolicyOf(snapshot, prune))
    ensures r.Ok? ==> PlannedFrom(cli.calls, |old(cli.calls)|, r.value, snapshot, prune, logic)
    ensures HonestCli(cli, logic) && GoodStore(StoreAfter(cli.initial, old(cli.calls)), logic) ==>
      Outcome(cli.initial, old(cli.calls), cli.calls, r.Ok?, PolicyOf(snapshot, prune), logic)
  {
    ghost var policy := PolicyOf(snapshot, prune);
    DesiredIsKeyed(snapshot.jobs);
    var settled;
    ghost var run, stop;
    settled, r, run, stop := RunStages(cli, snapshot, prune, logic, policy);
    if settled.Raise? {
      if GoodStore(StoreAfter(cli.initial, old(cli.calls)), logic) {
        NeverStops(cli.initial, old(cli.calls), cli.calls, run, stop, policy, logic);
      }
      return Raise;
    }
    if HonestCli(cli, logic) && GoodStore(StoreAfter(cli.initial, old(cli.calls)), logic) {
      Converges(cli.initial, old(cli.calls), cli.calls, run, policy, logic);
    }
    if !settled.value {
      return Raise;
    }
    SettledHasNoNulls(run.t4.listed, policy, logic);
    SettledListingIff(run.t4.listed, policy, logic);
  }

  /** reconcile, with the program's own logical_job, for the jobs load_snapshot accepts. */
  method ReconcileSnapshot(cli: Cli, snapshot: Snapshot, prune: bool, rules: Rules) returns (r: Result<PlanLists>)
    requires cli.Valid() && forall j :: j in snapshot.jobs ==> ValidJob(j, rules) && KeyedJob(j)
    modifies cli
    ensures cli.Valid() && old(cli.calls) <= cli.calls
    ensures var logic := raw => LogicalJob(raw, snapshot.prefix, rules);
      && AllJustified(cli.calls, |old(cli.calls)|, PolicyOf(snapshot, prune), logic)
      && (r.Ok? ==> EndsSettled(cli.calls, PolicyOf(snapshot, prune), logic) && NothingNull(PolicyOf(snapshot, prune)))
      && (r.Ok? ==> PlannedFrom(cli.calls, |old(cli.calls)|, r.value, snapshot, prune, logic))
      && (HonestCli(cli, logic) && GoodStore(StoreAfter(cli.initial, old(cli.calls)), logic) ==>
            Outcome(cli.initial, old(cli.calls), cli.calls, r.Ok?, PolicyOf(snapshot, prune), logic))
  {
    var logic := raw => LogicalJob(raw, snapshot.prefix, rules);
    LogicalMeetsContract(snapshot.prefix, rules);
    forall j | j in snapshot.jobs ensures Declared(j) {
      ValidIsDeclared(j, rules);
    }
    r := Reconcile(cli, snapshot, prune, logic);
  }
}
