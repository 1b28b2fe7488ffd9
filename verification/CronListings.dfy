/** What a listing of the live store tells the planner, whatever its order. */
module CronListings {
  import opened Wrappers
  import opened Text
  import opened Json
  import opened CronJobs
  import opened CronServer

  /** What the proofs use of logical_job: its results hold no null, and every logical field a raw job
      carries, not as null, comes through unchanged. */
  ghost predicate LogicContract(logic: Logic) {
    forall raw :: logic(raw).Ok? ==>
      && raw.Obj? && NoNulls(logic(raw).value)
      && forall f :: f in LOGICAL_FIELDS && f in raw.fields && raw.fields[f] != Null &&
                     (f == "declarationKey" ==> HasOwnKey(raw.fields))
           ==> f in logic(raw).value && logic(raw).value[f] == raw.fields[f]
  }

  lemma LogicalMeetsContract(prefix: string, rules: Rules)
    ensures LogicContract(raw => LogicalJob(raw, prefix, rules))
  {
    var logic := raw => LogicalJob(raw, prefix, rules);
    forall raw | logic(raw).Ok? ensures raw.Obj? && NoNulls(logic(raw).value) {
      LogicalIsValid(raw, prefix, rules);
    }
    forall raw, f | logic(raw).Ok? && f in LOGICAL_FIELDS && f in raw.fields && raw.fields[f] != Null &&
                    (f == "declarationKey" ==> HasOwnKey(raw.fields))
      ensures f in logic(raw).value && logic(raw).value[f] == raw.fields[f]
    {
      LogicalKeeps(raw, prefix, rules, f);
    }
  }

  /** What the proofs use of a job accepted by validate_job. */
  ghost predicate Declared(job: Job) {
    job.Keys <= LOGICAL_FIELDS && KeyedJob(job) && !Blank(KeyOf(job))
  }

  lemma ValidIsDeclared(job: Job, rules: Rules)
    requires ValidJob(job, rules)
    ensures Declared(job)
  {
  }

  /** A stored job that holds everything declared is a logical job that does: exactly when nothing is
      declared as null. */
  lemma StoredMatches(job: Job, raw: Json, logic: Logic)
    requires LogicContract(logic) && Declared(job) && Matches(Obj(job), raw) && logic(raw).Ok?
    ensures Matches(Obj(job), Obj(logic(raw).value)) <==> NoNulls(job)
  {
    var logical := logic(raw).value;
    if NoNulls(job) {
      forall f | f in job ensures f in logical && Matches(job[f], logical[f]) {
        assert f in raw.fields && Matches(job[f], raw.fields[f]);
        assert f == "declarationKey" ==> raw.fields[f] == Str(KeyOf(job));
      }
    }
    MatchedHasNoNulls(job, logical);
  }

  lemma MatchedHasNoNulls(job: Job, logical: Job)
    requires NoNulls(logical)
    ensures Matches(Obj(job), Obj(logical)) ==> NoNulls(job)
  {
    if Matches(Obj(job), Obj(logical)) {
      forall f | f in job ensures job[f] != Null {
        assert Matches(job[f], logical[f]);
      }
    }
  }

  // ----- index_live_jobs, characterised by the members of the listing

  function LiveOf(raw: Json, logic: Logic): Live
    requires IdOf(raw).Some? && logic(raw).Ok?
  {
    Live(IdOf(raw).value, logic(raw).value)
  }

  ghost predicate Readable(raws: seq<Json>, logic: Logic) {
    forall i :: 0 <= i < |raws| ==> IdOf(raws[i]).Some? && logic(raws[i]).Ok?
  }

  ghost predicate DistinctKeys(raws: seq<Json>) {
    forall i, j :: 0 <= i < j < |raws| && RawKey(raws[i]).Some? ==> RawKey(raws[i]) != RawKey(raws[j])
  }

  /** Every listed job is in the index. */
  ghost predicate AllIndexed(index: Index, raws: seq<Json>, logic: Logic)
    requires Readable(raws, logic)
  {
    forall i :: 0 <= i < |raws| ==>
      match RawKey(raws[i])
      case Some(k) => k in index.keyed && index.keyed[k] == LiveOf(raws[i], logic)
      case None => LiveOf(raws[i], logic) in index.unkeyed
  }

  ghost predicate KeysListed(index: Index, raws: seq<Json>) {
    forall k :: k in index.keyed ==> exists i :: 0 <= i < |raws| && RawKey(raws[i]) == Some(k)
  }

  ghost predicate UnkeyedListed(index: Index, raws: seq<Json>, logic: Logic)
    requires Readable(raws, logic)
  {
    forall u :: u in index.unkeyed ==> exists i :: 0 <= i < |raws| && RawKey(raws[i]).None? && u == LiveOf(raws[i], logic)
  }

  /** The index holds what is listed and nothing else. */
  ghost predicate IndexOf(index: Index, raws: seq<Json>, logic: Logic)
    requires Readable(raws, logic)
  {
    AllIndexed(index, raws, logic) && KeysListed(index, raws) && UnkeyedListed(index, raws, logic)
  }

  /** Indexing succeeds exactly when every job can be read and no key is listed twice; the index then
      says of every key which job has it, and which jobs have none. */
  lemma {:induction false} IndexIff(raws: seq<Json>, logic: Logic)
    ensures IndexLive(raws, logic).Ok? <==> Readable(raws, logic) && DistinctKeys(raws)
    ensures IndexLive(raws, logic).Ok? ==> IndexOf(IndexLive(raws, logic).value, raws, logic)
  {
    if raws != [] {
      var n := |raws| - 1;
      var init, raw := raws[..n], raws[n];
      assert raws == init + [raw];
      IndexIff(init, logic);
      ReadableLast(init, raw, logic);
      DistinctLast(init, raw);
      if IndexLive(init, logic).Ok? && IdOf(raw).Some? && logic(raw).Ok? {
        KeyTaken(IndexLive(init, logic).value, init, raw, logic);
        if FreshKey(init, raw) {
          IndexStep(IndexLive(init, logic).value, init, raw, logic);
        }
      }
    }
  }

  lemma ReadableLast(raws: seq<Json>, raw: Json, logic: Logic)
    ensures Readable(raws + [raw], logic) <==> Readable(raws, logic) && IdOf(raw).Some? && logic(raw).Ok?
  {
    var all := raws + [raw];
    assert all[|raws|] == raw && forall i :: 0 <= i < |raws| ==> all[i] == raws[i];
  }

  ghost predicate FreshKey(raws: seq<Json>, raw: Json) {
    RawKey(raw).Some? ==> forall i :: 0 <= i < |raws| ==> RawKey(raws[i]) != RawKey(raw)
  }

  lemma DistinctLast(raws: seq<Json>, raw: Json)
    ensures DistinctKeys(raws + [raw]) <==> DistinctKeys(raws) && FreshKey(raws, raw)
  {
    var all := raws + [raw];
    assert all[|raws|] == raw && forall i :: 0 <= i < |raws| ==> all[i] == raws[i];
  }

  lemma KeyTaken(before: Index, raws: seq<Json>, raw: Json, logic: Logic)
    requires Readable(raws, logic) && IndexOf(before, raws, logic)
    ensures FreshKey(raws, raw) <==> (RawKey(raw).Some? ==> RawKey(raw).value !in before.keyed)
  {
  }

  /** The index with one more job. */
  function Grown(before: Index, raw: Json, logic: Logic): Index
    requires IdOf(raw).Some? && logic(raw).Ok?
  {
    match RawKey(raw)
    case None => before.(unkeyed := before.unkeyed + [LiveOf(raw, logic)])
    case Some(k) => before.(keyed := before.keyed[k := LiveOf(raw, logic)])
  }

  lemma GrownIndexed(before: Index, raws: seq<Json>, raw: Json, logic: Logic)
    requires Readable(raws, logic) && Readable(raws + [raw], logic) && IdOf(raw).Some? && logic(raw).Ok?
    requires AllIndexed(before, raws, logic) && (RawKey(raw).Some? ==> RawKey(raw).value !in before.keyed)
    ensures AllIndexed(Grown(before, raw, logic), raws + [raw], logic)
  {
    var all := raws + [raw];
    forall i | 0 <= i < |all|
      ensures match RawKey(all[i])
              case Some(k) => k in Grown(before, raw, logic).keyed && Grown(before, raw, logic).keyed[k] == LiveOf(all[i], logic)
              case None => LiveOf(all[i], logic) in Grown(before, raw, logic).unkeyed
    {
      assert i < |raws| ==> all[i] == raws[i];
    }
  }

  lemma GrownKeys(before: Index, raws: seq<Json>, raw: Json, logic: Logic)
    requires IdOf(raw).Some? && logic(raw).Ok? && KeysListed(before, raws)
    ensures KeysListed(Grown(before, raw, logic), raws + [raw])
  {
    var all := raws + [raw];
    forall k | k in Grown(before, raw, logic).keyed ensures exists i :: 0 <= i < |all| && RawKey(all[i]) == Some(k) {
      if k in before.keyed {
        var i :| 0 <= i < |raws| && RawKey(raws[i]) == Some(k);
        assert all[i] == raws[i];
      } else {
        assert all[|raws|] == raw;
      }
    }
  }

  lemma GrownUnkeyed(before: Index, raws: seq<Json>, raw: Json, logic: Logic)
    requires Readable(raws, logic) && Readable(raws + [raw], logic) && IdOf(raw).Some? && logic(raw).Ok?
    requires UnkeyedListed(before, raws, logic)
    ensures UnkeyedListed(Grown(before, raw, logic), raws + [raw], logic)
  {
    var all := raws + [raw];
    forall u | u in Grown(before, raw, logic).unkeyed
      ensures exists i :: 0 <= i < |all| && RawKey(all[i]).None? && u == LiveOf(all[i], logic)
    {
      if u in before.unkeyed {
        var i :| 0 <= i < |raws| && RawKey(raws[i]).None? && u == LiveOf(raws[i], logic);
        assert all[i] == raws[i];
      } else {
        assert all[|raws|] == raw;
      }
    }
  }

  lemma IndexStep(before: Index, raws: seq<Json>, raw: Json, logic: Logic)
    requires Readable(raws, logic) && Readable(raws + [raw], logic) && IdOf(raw).Some? && logic(raw).Ok?
    requires IndexOf(before, raws, logic) && (RawKey(raw).Some? ==> RawKey(raw).value !in before.keyed)
    ensures IndexOf(Grown(before, raw, logic), raws + [raw], logic)
  {
    GrownIndexed(before, raws, raw, logic);
    GrownKeys(before, raws, raw, logic);
    GrownUnkeyed(before, raws, raw, logic);
  }

  // ----- listings of one store

  /** The index read off the store itself. */
  ghost predicate StoreIndex(index: Index, store: Store, logic: Logic) {
    && (forall id :: id in store ==> logic(store[id]).Ok?)
    && (forall id :: id in store ==>
          match RawKey(store[id])
          case Some(k) => k in index.keyed && index.keyed[k] == Live(id, logic(store[id]).value)
          case None => Live(id, logic(store[id]).value) in index.unkeyed)
    && (forall k :: k in index.keyed ==> index.keyed[k].id in store && RawKey(store[index.keyed[k].id]) == Some(k))
    && (forall u :: u in index.unkeyed ==>
          u.id in store && RawKey(store[u.id]).None? && u == Live(u.id, logic(store[u.id]).value))
  }

  lemma ListingIndex(l: seq<Json>, store: Store, logic: Logic)
    requires Lists(l, store) && GoodStore(store, logic)
    ensures IndexLive(l, logic).Ok? && StoreIndex(IndexLive(l, logic).value, store, logic)
  {
    forall i | 0 <= i < |l| ensures IdOf(l[i]).Some? && logic(l[i]).Ok? {
      assert store[IdOf(l[i]).value] == l[i];
    }
    forall i, j | 0 <= i < j < |l| && RawKey(l[i]).Some? ensures RawKey(l[i]) != RawKey(l[j]) {
      assert store[IdOf(l[i]).value] == l[i] && store[IdOf(l[j]).value] == l[j];
    }
    IndexIff(l, logic);
    var index := IndexLive(l, logic).value;
    forall id | id in store
      ensures logic(store[id]).Ok? &&
        match RawKey(store[id])
        case Some(k) => k in index.keyed && index.keyed[k] == Live(id, logic(store[id]).value)
        case None => Live(id, logic(store[id]).value) in index.unkeyed
    {
      var i :| 0 <= i < |l| && l[i] == store[id];
    }
    forall k | k in index.keyed
      ensures index.keyed[k].id in store && RawKey(store[index.keyed[k].id]) == Some(k)
    {
      var i :| 0 <= i < |l| && RawKey(l[i]) == Some(k);
      assert index.keyed[k] == LiveOf(l[i], logic);
    }
    forall u | u in index.unkeyed
      ensures u.id in store && RawKey(store[u.id]).None? && u == Live(u.id, logic(store[u.id]).value)
    {
      var i :| 0 <= i < |l| && RawKey(l[i]).None? && u == LiveOf(l[i], logic);
      assert store[IdOf(l[i]).value] == l[i];
    }
  }

  // ----- what a snapshot asks of a store

  datatype Policy = Policy(desired: map<string, Job>, prefix: string, prune: bool)

  /** The plan has nothing to do in this store. */
  ghost predicate SettledStore(store: Store, policy: Policy, logic: Logic) {
    && policy.desired.Keys <= Keys(store)
    && (forall id :: id in store ==> logic(store[id]).Ok?)
    && forall id :: id in store ==>
         match RawKey(store[id])
         case None => !HasTwin(policy.desired, logic(store[id]).value)
         case Some(k) =>
           if k in policy.desired then Matches(Obj(policy.desired[k]), Obj(logic(store[id]).value))
           else !(policy.prune && StartsWith(k, policy.prefix))
  }

  /** Every listing of a store gives a plan with nothing to do, or none does. */
  lemma SettledIff(l: seq<Json>, store: Store, policy: Policy, logic: Logic)
    requires Lists(l, store) && GoodStore(store, logic)
    ensures IndexLive(l, logic).Ok?
    ensures Settled(PlanFor(policy.desired, IndexLive(l, logic).value, policy.prefix, policy.prune)) <==>
            SettledStore(store, policy, logic)
  {
    ListingIndex(l, store, logic);
    SettledIndex(IndexLive(l, logic).value, store, policy, logic);
  }

  lemma KeysOfIndex(index: Index, store: Store, logic: Logic)
    requires StoreIndex(index, store, logic)
    ensures index.keyed.Keys == Keys(store)
  {
    forall k | k in index.keyed ensures k in Keys(store) {
      assert RawKey(store[index.keyed[k].id]) == Some(k);
    }
  }

  lemma SettledIndex(index: Index, store: Store, policy: Policy, logic: Logic)
    requires StoreIndex(index, store, logic)
    ensures Settled(PlanFor(policy.desired, index, policy.prefix, policy.prune)) <==> SettledStore(store, policy, logic)
  {
    var plan := PlanFor(policy.desired, index, policy.prefix, policy.prune);
    KeysOfIndex(index, store, logic);
    if Settled(plan) {
      forall k | k in policy.desired ensures k in Keys(store) {
        assert k !in plan.create;
      }
      forall id | id in store
        ensures match RawKey(store[id])
          case None => !HasTwin(policy.desired, logic(store[id]).value)
          case Some(k) =>
            if k in policy.desired then Matches(Obj(policy.desired[k]), Obj(logic(store[id]).value))
            else !(policy.prune && StartsWith(k, policy.prefix))
      {
        match RawKey(store[id])
        case None => RemovesTwin(index, policy, Live(id, logic(store[id]).value));
        case Some(k) =>
          assert k in index.keyed && k !in plan.update;
          RemovesPruned(index, policy, k);
      }
    }
    if SettledStore(store, policy, logic) {
      forall k | k in policy.desired ensures k !in plan.create && k !in plan.update {
        assert store[index.keyed[k].id] == store[index.keyed[k].id];
      }
      forall id | id in plan.remove ensures false {
        RemovedIsSurplus(index, store, policy, logic, id);
      }
      assert plan.create == {} && plan.update == {} && plan.remove == {};
    }
  }

  lemma RemovesTwin(index: Index, policy: Policy, u: Live)
    requires u in index.unkeyed
    ensures HasTwin(policy.desired, u.job) ==>
            u.id in PlanFor(policy.desired, index, policy.prefix, policy.prune).remove
  {
  }

  lemma RemovesPruned(index: Index, policy: Policy, k: string)
    requires k in index.keyed
    ensures policy.prune && StartsWith(k, policy.prefix) && k !in policy.desired ==>
            index.keyed[k].id in PlanFor(policy.desired, index, policy.prefix, policy.prune).remove
  {
  }

  /** Surplus: an unkeyed job that holds every field of a desired one, or a managed job that is no longer desired. */
  ghost predicate SurplusJob(raw: Json, policy: Policy, logic: Logic) {
    && logic(raw).Ok?
    && match RawKey(raw)
       case None => HasTwin(policy.desired, logic(raw).value)
       case Some(k) => policy.prune && StartsWith(k, policy.prefix) && k !in policy.desired
  }

  lemma RemovedIsSurplus(index: Index, store: Store, policy: Policy, logic: Logic, id: string)
    requires StoreIndex(index, store, logic)
    ensures id in PlanFor(policy.desired, index, policy.prefix, policy.prune).remove <==>
            id in store && SurplusJob(store[id], policy, logic)
  {
    var plan := PlanFor(policy.desired, index, policy.prefix, policy.prune);
    if id in store && SurplusJob(store[id], policy, logic) {
      match RawKey(store[id])
      case None => RemovesTwin(index, policy, Live(id, logic(store[id]).value));
      case Some(k) => RemovesPruned(index, policy, k);
    }
    if id in plan.remove {
      if k :| k in index.keyed && index.keyed[k].id == id && policy.prune && StartsWith(k, policy.prefix) && k !in policy.desired {
      } else {
        var u :| u in index.unkeyed && HasTwin(policy.desired, u.job) && u.id == id;
      }
    }
  }

  // ----- listings that ask for nothing

  /** This job is listed under the key, with every field declared. */
  ghost predicate MatchedAt(l: seq<Json>, i: nat, k: string, declared: Job, logic: Logic)
    requires i < |l|
  {
    RawKey(l[i]) == Some(k) && logic(l[i]).Ok? && forall f :: f in declared ==>
      f in logic(l[i]).value && Matches(declared[f], logic(l[i]).value[f])
  }

  /** The listing can be read, lists no key twice, has every desired job under its key with every field
      declared, and has no surplus job. */
  ghost predicate SettledListing(l: seq<Json>, policy: Policy, logic: Logic) {
    && Readable(l, logic) && DistinctKeys(l)
    && (forall k :: k in policy.desired ==> exists i :: 0 <= i < |l| && MatchedAt(l, i, k, policy.desired[k], logic))
    && forall i :: 0 <= i < |l| ==> !SurplusJob(l[i], policy, logic)
  }

  lemma ListedUnder(l: seq<Json>, k: string, policy: Policy, logic: Logic) returns (i: nat)
    requires IndexLive(l, logic).Ok? && k in policy.desired && k in IndexLive(l, logic).value.keyed
    ensures i < |l| && RawKey(l[i]) == Some(k) && Readable(l, logic)
    ensures IndexLive(l, logic).value.keyed[k] == Live(IdOf(l[i]).value, logic(l[i]).value)
    ensures Matches(Obj(policy.desired[k]), Obj(IndexLive(l, logic).value.keyed[k].job)) <==>
            MatchedAt(l, i, k, policy.desired[k], logic)
  {
    IndexIff(l, logic);
    i :| 0 <= i < |l| && RawKey(l[i]) == Some(k);
  }

  lemma OnePlace(l: seq<Json>, i: nat, j: nat, k: string, logic: Logic)
    requires IndexLive(l, logic).Ok? && i < |l| && j < |l| && RawKey(l[i]) == Some(k) && RawKey(l[j]) == Some(k)
    ensures i == j
  {
    IndexIff(l, logic);
  }

  /** A plan has nothing to remove exactly if no listed job is surplus. */
  lemma NothingSurplusIff(l: seq<Json>, policy: Policy, logic: Logic)
    requires IndexLive(l, logic).Ok?
    ensures PlanFor(policy.desired, IndexLive(l, logic).value, policy.prefix, policy.prune).remove == {} <==>
            forall i :: 0 <= i < |l| ==> !SurplusJob(l[i], policy, logic)
  {
    IndexIff(l, logic);
    var index := IndexLive(l, logic).value;
    var remove := PlanFor(policy.desired, index, policy.prefix, policy.prune).remove;
    forall i | 0 <= i < |l| && SurplusJob(l[i], policy, logic) ensures remove != {} {
      match RawKey(l[i])
      case None => RemovesTwin(index, policy, LiveOf(l[i], logic));
      case Some(k) => RemovesPruned(index, policy, k);
    }
    forall id | id in remove ensures exists i :: 0 <= i < |l| && SurplusJob(l[i], policy, logic) {
      var i := SurplusAt(l, policy, logic, id);
    }
  }

  lemma SurplusAt(l: seq<Json>, policy: Policy, logic: Logic, id: string) returns (i: nat)
    requires IndexLive(l, logic).Ok?
    requires id in PlanFor(policy.desired, IndexLive(l, logic).value, policy.prefix, policy.prune).remove
    ensures i < |l| && IdOf(l[i]) == Some(id) && SurplusJob(l[i], policy, logic)
  {
    var index := IndexLive(l, logic).value;
    IndexIff(l, logic);
    if k :| k in index.keyed && index.keyed[k].id == id && policy.prune && StartsWith(k, policy.prefix) && k !in policy.desired {
      i :| 0 <= i < |l| && RawKey(l[i]) == Some(k);
    } else {
      var u :| u in index.unkeyed && HasTwin(policy.desired, u.job) && u.id == id;
      i :| 0 <= i < |l| && RawKey(l[i]).None? && u == LiveOf(l[i], logic);
    }
  }

  /** The plan for a listing has nothing to do exactly if the listing is settled. */
  lemma SettledListingIff(l: seq<Json>, policy: Policy, logic: Logic)
    ensures SettledListing(l, policy, logic) <==>
      IndexLive(l, logic).Ok? &&
      Settled(PlanFor(policy.desired, IndexLive(l, logic).value, policy.prefix, policy.prune))
  {
    IndexIff(l, logic);
    if IndexLive(l, logic).Ok? {
      NothingSurplusIff(l, policy, logic);
      var index := IndexLive(l, logic).value;
      var plan := PlanFor(policy.desired, index, policy.prefix, policy.prune);
      forall k | k in policy.desired
        ensures k !in plan.create && k !in plan.update <==>
                exists i :: 0 <= i < |l| && MatchedAt(l, i, k, policy.desired[k], logic)
      {
        MatchedIff(l, k, policy, logic);
      }
      assert plan.create == {} && plan.update == {} <==> forall k :: k in policy.desired ==> k !in plan.create && k !in plan.update;
    }
  }

  lemma MatchedIff(l: seq<Json>, k: string, policy: Policy, logic: Logic)
    requires IndexLive(l, logic).Ok? && k in policy.desired
    ensures var plan := PlanFor(policy.desired, IndexLive(l, logic).value, policy.prefix, policy.prune);
      k !in plan.create && k !in plan.update <==> exists i :: 0 <= i < |l| && MatchedAt(l, i, k, policy.desired[k], logic)
  {
    IndexIff(l, logic);
    if k in IndexLive(l, logic).value.keyed {
      var i := ListedUnder(l, k, policy, logic);
      if j :| 0 <= j < |l| && MatchedAt(l, j, k, policy.desired[k], logic) {
        OnePlace(l, i, j, k, logic);
      }
    }
  }
}
