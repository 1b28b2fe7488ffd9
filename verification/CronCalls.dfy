/** What the reconciler may do to the live store, call by call and store by store. */
module CronCalls {
  import opened Wrappers
  import opened Json
  import opened CronJobs
  import opened CronServer
  import opened CronListings

  // ----- call by call, whatever the server answers

  /** The listing has no match for this desired key. */
  ghost predicate Needed(l: seq<Json>, policy: Policy, logic: Logic, k: string) {
    && k in policy.desired && IndexLive(l, logic).Ok?
    && var keyed := IndexLive(l, logic).value.keyed;
       k in keyed ==> !Matches(Obj(policy.desired[k]), Obj(keyed[k].job))
  }

  /** The listing has the job under a desired key, and it differs from what is desired. */
  ghost predicate Drifted(l: seq<Json>, policy: Policy, logic: Logic, id: string, k: string) {
    && Needed(l, policy, logic, k)
    && k in IndexLive(l, logic).value.keyed && IndexLive(l, logic).value.keyed[k].id == id
  }

  /** A job listed with this id is surplus. */
  ghost predicate Surplus(l: seq<Json>, policy: Policy, logic: Logic, id: string) {
    exists i :: 0 <= i < |l| && IdOf(l[i]) == Some(id) && SurplusJob(l[i], policy, logic)
  }

  /** The listing's plan asks for the removal of surplus jobs only. */
  lemma SurplusFrom(l: seq<Json>, policy: Policy, logic: Logic, id: string)
    requires IndexLive(l, logic).Ok?
    requires id in PlanFor(policy.desired, IndexLive(l, logic).value, policy.prefix, policy.prune).remove
    ensures Surplus(l, policy, logic, id)
  {
    var i := SurplusAt(l, policy, logic, id);
  }

  /** A call is justified by the last listing before it: only what is missing or differs is added, only
      what differs or is surplus is removed, and a differing job is put back with the very next call unless
      its removal failed. */
  ghost predicate Justified(calls: seq<Call>, i: nat, policy: Policy, logic: Logic)
    requires i < |calls|
  {
    var seen := LastListing(calls[..i]);
    match calls[i]
    case Listed(_) => true
    case Failed => true
    case Added(job, _, _) => seen.Some? && exists k :: Needed(seen.value, policy, logic, k) && job == policy.desired[k]
    case Removed(id) =>
      seen.Some? &&
      (Surplus(seen.value, policy, logic, id) ||
       exists k :: Drifted(seen.value, policy, logic, id, k) &&
                   (i + 1 < |calls| && !calls[i + 1].Failed? ==>
                      calls[i + 1].Added? && calls[i + 1].job == policy.desired[k]))
  }

  ghost predicate AllJustified(calls: seq<Call>, from: nat, policy: Policy, logic: Logic) {
    forall i :: from <= i < |calls| ==> Justified(calls, i, policy, logic)
  }

  /** No removed job is still waiting to be put back. */
  ghost predicate Closed(calls: seq<Call>, from: nat, policy: Policy, logic: Logic) {
    && AllJustified(calls, from, policy, logic)
    && (from < |calls| && calls[|calls| - 1].Removed? ==>
          LastListing(calls[..|calls| - 1]).Some? &&
          Surplus(LastListing(calls[..|calls| - 1]).value, policy, logic, calls[|calls| - 1].id))
  }

  lemma Earlier(calls: seq<Call>, more: seq<Call>, from: nat, policy: Policy, logic: Logic)
    requires Closed(calls, from, policy, logic)
    ensures forall i :: from <= i < |calls| ==> Justified(calls + more, i, policy, logic)
  {
    var after := calls + more;
    forall i | from <= i < |calls| ensures Justified(after, i, policy, logic) {
      assert after[..i] == calls[..i] && after[i] == calls[i];
      assert Justified(calls, i, policy, logic);
      if i + 1 < |calls| {
        assert after[i + 1] == calls[i + 1];
      }
    }
  }

  lemma AfterListing(calls: seq<Call>, call: Call, from: nat, policy: Policy, logic: Logic)
    requires Closed(calls, from, policy, logic) && from <= |calls| && (call.Listed? || call.Failed?)
    ensures Closed(calls + [call], from, policy, logic)
    ensures LastListing(calls + [call]) == if call.Listed? then Some(call.jobs) else LastListing(calls)
  {
    Earlier(calls, [call], from, policy, logic);
    assert (calls + [call])[..|calls|] == calls;
  }

  lemma AfterAdding(calls: seq<Call>, k: string, id: string, raw: Json, from: nat, policy: Policy, logic: Logic)
    requires Closed(calls, from, policy, logic) && from <= |calls|
    requires LastListing(calls).Some? && Needed(LastListing(calls).value, policy, logic, k)
    ensures Closed(calls + [Added(policy.desired[k], id, raw)], from, policy, logic)
    ensures LastListing(calls + [Added(policy.desired[k], id, raw)]) == LastListing(calls)
  {
    var call := Added(policy.desired[k], id, raw);
    Earlier(calls, [call], from, policy, logic);
    assert (calls + [call])[..|calls|] == calls;
  }

  lemma AfterRemoving(calls: seq<Call>, id: string, from: nat, policy: Policy, logic: Logic)
    requires Closed(calls, from, policy, logic) && from <= |calls|
    requires LastListing(calls).Some? && Surplus(LastListing(calls).value, policy, logic, id)
    ensures Closed(calls + [Removed(id)], from, policy, logic)
    ensures LastListing(calls + [Removed(id)]) == LastListing(calls)
  {
    Earlier(calls, [Removed(id)], from, policy, logic);
    assert (calls + [Removed(id)])[..|calls|] == calls;
  }

  /** Taking a differing job away, followed by more: justified if that puts it back, or says it failed. */
  lemma AfterTaking(calls: seq<Call>, id: string, k: string, next: Call, from: nat, policy: Policy, logic: Logic)
    requires Closed(calls, from, policy, logic) && from <= |calls|
    requires LastListing(calls).Some? && Drifted(LastListing(calls).value, policy, logic, id, k)
    requires next.Failed? || (next.Added? && next.job == policy.desired[k])
    ensures Closed(calls + [Removed(id)] + [next], from, policy, logic)
    ensures LastListing(calls + [Removed(id)] + [next]) == LastListing(calls)
  {
    var half := calls + [Removed(id)];
    var full := half + [next];
    assert full == calls + [Removed(id), next];
    Earlier(calls, [Removed(id), next], from, policy, logic);
    assert half[..|calls|] == calls && full[..|calls|] == calls && full[..|calls| + 1] == half;
    assert Justified(full, |calls|, policy, logic);
    assert Justified(full, |calls| + 1, policy, logic);
  }

  // ----- store by store, against a server that behaves as documented

  predicate DesiredKey(raw: Json, desired: map<string, Job>) {
    RawKey(raw).Some? && RawKey(raw).value in desired
  }

  /** Jobs that are neither under a desired key nor surplus are still there as they were, and nothing is
      there that was not, except under desired keys. */
  ghost predicate Confined(before: Store, after: Store, policy: Policy, logic: Logic) {
    && (forall id :: id in before && !DesiredKey(before[id], policy.desired) && !SurplusJob(before[id], policy, logic) ==>
          id in after && after[id] == before[id])
    && (forall id :: id in after ==> (id in before && after[id] == before[id]) || DesiredKey(after[id], policy.desired))
  }

  lemma ConfinedTransitive(a: Store, b: Store, c: Store, policy: Policy, logic: Logic)
    requires Confined(a, b, policy, logic) && Confined(b, c, policy, logic)
    ensures Confined(a, c, policy, logic)
  {
  }

  /** Under this key the store holds everything that is declared. */
  ghost predicate Fulfilled(store: Store, k: string, policy: Policy, logic: Logic)
    requires k in policy.desired
  {
    k in Keys(store) &&
    forall id :: id in store && RawKey(store[id]) == Some(k) ==>
      logic(store[id]).Ok? && Matches(Obj(policy.desired[k]), Obj(logic(store[id]).value))
  }

  ghost predicate KeyedPolicy(policy: Policy) {
    forall k :: k in policy.desired ==> KeyedJob(policy.desired[k]) && KeyOf(policy.desired[k]) == k
  }

  /** The store after jobs with these keys were put: their keys are there, other jobs are as before. */
  ghost predicate Extended(before: Store, after: Store, keys: set<string>, policy: Policy, logic: Logic) {
    && GoodStore(after, logic) && Keys(after) == Keys(before) + keys && Confined(before, after, policy, logic)
    && forall a :: a in before && !(RawKey(before[a]).Some? && RawKey(before[a]).value in keys) ==>
         a in after && after[a] == before[a]
  }

  lemma ExtendedTransitive(a: Store, b: Store, c: Store, first: set<string>, second: set<string>, policy: Policy, logic: Logic)
    requires Extended(a, b, first, policy, logic) && Extended(b, c, second, policy, logic)
    ensures Extended(a, c, first + second, policy, logic)
  {
    ConfinedTransitive(a, b, c, policy, logic);
  }

  lemma UpsertConfined(store: Store, id: string, raw: Json, k: string, policy: Policy, logic: Logic)
    requires KeyedPolicy(policy) && k in policy.desired && Upserts(store, id, raw, policy.desired[k], logic)
    ensures Confined(store, store[id := raw], policy, logic)
    ensures id in store ==> RawKey(store[id]) == Some(k)
  {
  }

  /** One upsert of a desired job: other jobs stay, its key is there afterwards. */
  lemma UpsertStep(store: Store, id: string, raw: Json, k: string, policy: Policy, logic: Logic)
    requires GoodStore(store, logic) && KeyedPolicy(policy) && k in policy.desired
    requires Upserts(store, id, raw, policy.desired[k], logic)
    ensures Extended(store, store[id := raw], {k}, policy, logic)
  {
    KeysAfterUpsert(store, id, raw, policy.desired[k], logic);
    UpsertConfined(store, id, raw, k, policy, logic);
  }

  /** Replacing the job under a desired key: everything declared is there. */
  lemma ReplaceStep(store: Store, id: string, newId: string, raw: Json, k: string, policy: Policy, logic: Logic)
    requires GoodStore(store, logic) && KeyedPolicy(policy) && k in policy.desired
    requires id in store && RawKey(store[id]) == Some(k)
    requires Upserts(store - {id}, newId, raw, policy.desired[k], logic)
    ensures var after := (store - {id})[newId := raw];
      Extended(store, after, {k}, policy, logic) && Matches(Obj(policy.desired[k]), raw)
  {
    var mid := store - {id};
    KeysAfterRemove(store, id, logic);
    assert k in Keys(store);
    UpsertStep(mid, newId, raw, k, policy, logic);
    assert Confined(store, mid, policy, logic);
    ConfinedTransitive(store, mid, mid[newId := raw], policy, logic);
    assert newId in mid[newId := raw] && mid[newId := raw][newId] == raw;
  }

  /** A key whose job was just replaced is fulfilled, exactly when nothing is declared as null. */
  lemma ReplacedIsFulfilled(after: Store, id: string, k: string, policy: Policy, logic: Logic)
    requires LogicContract(logic) && GoodStore(after, logic) && k in policy.desired && Declared(policy.desired[k])
    requires id in after && RawKey(after[id]) == Some(k) && Matches(Obj(policy.desired[k]), after[id])
    ensures Fulfilled(after, k, policy, logic) <==> NoNulls(policy.desired[k])
  {
    StoredMatches(policy.desired[k], after[id], logic);
    assert k in Keys(after);
  }

  /** Once every desired key is fulfilled, taking away the surplus settles the store. */
  lemma CleanedIsSettled(store: Store, surplus: set<string>, policy: Policy, logic: Logic)
    requires GoodStore(store, logic)
    requires forall id :: id in surplus <==> id in store && SurplusJob(store[id], policy, logic)
    requires forall k :: k in policy.desired ==> Fulfilled(store, k, policy, logic)
    ensures GoodStore(store - surplus, logic) && SettledStore(store - surplus, policy, logic)
  {
    var after := store - surplus;
    forall k | k in policy.desired ensures k in Keys(after) {
      var id :| id in store && RawKey(store[id]) == Some(k);
      assert id in after && after[id] == store[id];
    }
  }

  lemma CleanedIsConfined(store: Store, surplus: set<string>, policy: Policy, logic: Logic)
    requires forall id :: id in surplus ==> id in store && SurplusJob(store[id], policy, logic)
    ensures Confined(store, store - surplus, policy, logic)
  {
  }

  /** A settled store has every desired key fulfilled and no surplus. */
  lemma SettledIsFulfilled(store: Store, policy: Policy, logic: Logic)
    requires SettledStore(store, policy, logic)
    ensures forall k :: k in policy.desired ==> Fulfilled(store, k, policy, logic)
    ensures forall id :: id in store ==> !SurplusJob(store[id], policy, logic)
  {
  }
}
