/** A reconcile run against a server that behaves as documented, stage by stage. */
module CronRuns {
  import opened Wrappers
  import opened Json
  import opened CronJobs
  import opened CronServer
  import opened CronListings
  import opened CronCalls

  /** What the stages do for one key: add the job, or take the stored one away and add it. */
  datatype Step =
    | Put(key: string, id: string, raw: Json)
    | Swap(key: string, gone: string, id: string, raw: Json)

  predicate KeysDesired(steps: seq<Step>, desired: map<string, Job>) {
    forall s :: s in steps ==> s.key in desired
  }

  function CallsOfStep(step: Step, desired: map<string, Job>): seq<Call>
    requires step.key in desired
  {
    match step
    case Put(key, id, raw) => [Added(desired[key], id, raw)]
    case Swap(key, gone, id, raw) => [Removed(gone), Added(desired[key], id, raw)]
  }

  function CallsOf(steps: seq<Step>, desired: map<string, Job>): seq<Call>
    requires KeysDesired(steps, desired)
  {
    if steps == [] then [] else CallsOf(steps[..|steps| - 1], desired) + CallsOfStep(steps[|steps| - 1], desired)
  }

  function KeysOfSteps(steps: seq<Step>): set<string> {
    set s | s in steps :: s.key
  }

  ghost predicate DistinctSteps(steps: seq<Step>) {
    forall i, j :: 0 <= i < j < |steps| ==> steps[i].key != steps[j].key
  }

  /** Every job that is taken away is stored under the key it is put back under. */
  ghost predicate SwapsInPlace(steps: seq<Step>, store: Store) {
    forall s :: s in steps && s.Swap? ==> s.gone in store && RawKey(store[s.gone]) == Some(s.key)
  }

  /** Every job that was put back is stored as declared. */
  ghost predicate SwapsDone(steps: seq<Step>, store: Store, desired: map<string, Job>)
    requires KeysDesired(steps, desired)
  {
    forall s :: s in steps && s.Swap? ==>
      s.id in store && RawKey(store[s.id]) == Some(s.key) && Matches(Obj(desired[s.key]), store[s.id])
  }

  lemma PutExtends(initial: Store, calls: seq<Call>, step: Step, policy: Policy, logic: Logic)
    requires KeyedPolicy(policy) && step.key in policy.desired && GoodStore(StoreAfter(initial, calls), logic)
    requires step.Put? && Honest(initial, calls + CallsOfStep(step, policy.desired), logic)
    ensures Extended(StoreAfter(initial, calls), StoreAfter(initial, calls + CallsOfStep(step, policy.desired)),
                     {step.key}, policy, logic)
  {
    HonestLast(initial, calls, Added(policy.desired[step.key], step.id, step.raw), logic);
    UpsertStep(StoreAfter(initial, calls), step.id, step.raw, step.key, policy, logic);
  }

  lemma SwapExtends(initial: Store, calls: seq<Call>, step: Step, policy: Policy, logic: Logic)
    requires KeyedPolicy(policy) && step.key in policy.desired && GoodStore(StoreAfter(initial, calls), logic)
    requires step.Swap? && step.gone in StoreAfter(initial, calls) && RawKey(StoreAfter(initial, calls)[step.gone]) == Some(step.key)
    requires Honest(initial, calls + CallsOfStep(step, policy.desired), logic)
    ensures var after := StoreAfter(initial, calls + CallsOfStep(step, policy.desired));
      && Extended(StoreAfter(initial, calls), after, {step.key}, policy, logic)
      && step.id in after && RawKey(after[step.id]) == Some(step.key) && Matches(Obj(policy.desired[step.key]), after[step.id])
  {
    var half, added := calls + [Removed(step.gone)], Added(policy.desired[step.key], step.id, step.raw);
    assert half + [added] == calls + CallsOfStep(step, policy.desired);
    HonestLast(initial, half, added, logic);
    HonestLast(initial, calls, Removed(step.gone), logic);
    ReplaceStep(StoreAfter(initial, calls), step.gone, step.id, step.raw, step.key, policy, logic);
  }

  lemma StepExtends(initial: Store, calls: seq<Call>, step: Step, policy: Policy, logic: Logic)
    requires KeyedPolicy(policy) && step.key in policy.desired && GoodStore(StoreAfter(initial, calls), logic)
    requires SwapsInPlace([step], StoreAfter(initial, calls))
    requires Honest(initial, calls + CallsOfStep(step, policy.desired), logic)
    ensures Extended(StoreAfter(initial, calls), StoreAfter(initial, calls + CallsOfStep(step, policy.desired)),
                     {step.key}, policy, logic)
    ensures SwapsDone([step], StoreAfter(initial, calls + CallsOfStep(step, policy.desired)), policy.desired)
  {
    assert step in [step];
    if step.Put? {
      PutExtends(initial, calls, step, policy, logic);
    } else {
      SwapExtends(initial, calls, step, policy, logic);
    }
  }

  /** A stage touches its own keys only; what it swapped is as declared. */
  lemma {:induction false} StepsExtend(initial: Store, calls: seq<Call>, steps: seq<Step>, policy: Policy, logic: Logic)
    requires KeyedPolicy(policy) && KeysDesired(steps, policy.desired) && DistinctSteps(steps)
    requires GoodStore(StoreAfter(initial, calls), logic) && SwapsInPlace(steps, StoreAfter(initial, calls))
    requires Honest(initial, calls + CallsOf(steps, policy.desired), logic)
    ensures Extended(StoreAfter(initial, calls), StoreAfter(initial, calls + CallsOf(steps, policy.desired)),
                     KeysOfSteps(steps), policy, logic)
    ensures SwapsDone(steps, StoreAfter(initial, calls + CallsOf(steps, policy.desired)), policy.desired)
  {
    if steps == [] {
      assert calls + CallsOf(steps, policy.desired) == calls;
      NothingExtends(StoreAfter(initial, calls), policy, logic);
    } else {
      var n := |steps| - 1;
      var init, last := steps[..n], steps[n];
      var mid := calls + CallsOf(init, policy.desired);
      assert mid + CallsOfStep(last, policy.desired) == calls + CallsOf(steps, policy.desired);
      HonestPrefix(initial, mid, CallsOfStep(last, policy.desired), logic);
      StepsExtend(initial, calls, init, policy, logic);
      KeysOfLast(steps);
      StillInPlace(steps, StoreAfter(initial, calls), StoreAfter(initial, mid), policy, logic);
      StepExtends(initial, mid, last, policy, logic);
      StillDone(steps, StoreAfter(initial, mid), StoreAfter(initial, mid + CallsOfStep(last, policy.desired)), policy, logic);
      ExtendedTransitive(StoreAfter(initial, calls), StoreAfter(initial, mid),
                         StoreAfter(initial, mid + CallsOfStep(last, policy.desired)),
                         KeysOfSteps(init), {last.key}, policy, logic);
    }
  }

  lemma KeysOfLast(steps: seq<Step>)
    requires steps != [] && DistinctSteps(steps)
    ensures var n := |steps| - 1;
      steps[n].key !in KeysOfSteps(steps[..n]) && KeysOfSteps(steps) == KeysOfSteps(steps[..n]) + {steps[n].key}
  {
    var n := |steps| - 1;
    assert steps == steps[..n] + [steps[n]];
    forall s | s in steps[..n] ensures s.key != steps[n].key {
      var i :| 0 <= i < n && steps[i] == s;
    }
  }

  lemma StillInPlace(steps: seq<Step>, a: Store, b: Store, policy: Policy, logic: Logic)
    requires steps != [] && SwapsInPlace(steps, a)
    requires Extended(a, b, KeysOfSteps(steps[..|steps| - 1]), policy, logic)
    requires steps[|steps| - 1].key !in KeysOfSteps(steps[..|steps| - 1])
    ensures SwapsInPlace([steps[|steps| - 1]], b)
  {
    assert steps[|steps| - 1] in steps;
  }

  lemma StillDone(steps: seq<Step>, b: Store, c: Store, policy: Policy, logic: Logic)
    requires steps != [] && KeysDesired(steps, policy.desired)
    requires var n := |steps| - 1;
      && SwapsDone(steps[..n], b, policy.desired) && SwapsDone([steps[n]], c, policy.desired)
      && steps[n].key !in KeysOfSteps(steps[..n]) && Extended(b, c, {steps[n].key}, policy, logic)
    ensures SwapsDone(steps, c, policy.desired)
  {
    var n := |steps| - 1;
    forall s | s in steps && s.Swap?
      ensures s.id in c && RawKey(c[s.id]) == Some(s.key) && Matches(Obj(policy.desired[s.key]), c[s.id])
    {
      if s in steps[..n] {
        assert s.key in KeysOfSteps(steps[..n]);
      } else {
        assert steps == steps[..n] + [steps[n]];
        assert s in [steps[n]];
      }
    }
  }

  /** Appending a step for a new key. */
  lemma StepsGrow(steps: seq<Step>, step: Step, desired: map<string, Job>)
    requires KeysDesired(steps, desired) && step.key in desired
    ensures KeysDesired(steps + [step], desired)
    ensures CallsOf(steps + [step], desired) == CallsOf(steps, desired) + CallsOfStep(step, desired)
    ensures KeysOfSteps(steps + [step]) == KeysOfSteps(steps) + {step.key}
    ensures DistinctSteps(steps) && step.key !in KeysOfSteps(steps) ==> DistinctSteps(steps + [step])
  {
    assert (steps + [step])[..|steps|] == steps;
    KeysGrow(steps, step);
  }

  lemma KeysGrow(steps: seq<Step>, step: Step)
    ensures KeysOfSteps(steps + [step]) == KeysOfSteps(steps) + {step.key}
    ensures DistinctSteps(steps) && step.key !in KeysOfSteps(steps) ==> DistinctSteps(steps + [step])
  {
    forall i | 0 <= i < |steps| ensures steps[i].key in KeysOfSteps(steps) {
      assert steps[i] in steps;
    }
  }

  lemma NothingExtends(store: Store, policy: Policy, logic: Logic)
    requires GoodStore(store, logic)
    ensures Extended(store, store, {}, policy, logic)
  {
  }

  // ----- the stages of a run

  lemma FailedIsDishonest(initial: Store, calls: seq<Call>, logic: Logic)
    requires calls != [] && calls[|calls| - 1].Failed?
    ensures !Honest(initial, calls, logic)
  {
    assert !HonestCall(StoreAfter(initial, calls[..|calls| - 1]), calls[|calls| - 1], logic);
  }

  /** Listing does not change the store; an honest listing is complete. */
  lemma ListingStage(initial: Store, calls: seq<Call>, l: seq<Json>, logic: Logic)
    ensures StoreAfter(initial, calls + [Listed(l)]) == StoreAfter(initial, calls)
    ensures Honest(initial, calls + [Listed(l)], logic) && GoodStore(StoreAfter(initial, calls), logic) ==>
      && Lists(l, StoreAfter(initial, calls)) && IndexLive(l, logic).Ok?
      && StoreIndex(IndexLive(l, logic).value, StoreAfter(initial, calls), logic)
  {
    HonestLast(initial, calls, Listed(l), logic);
    if Honest(initial, calls + [Listed(l)], logic) && GoodStore(StoreAfter(initial, calls), logic) {
      ListingIndex(l, StoreAfter(initial, calls), logic);
    }
  }

  /** A job taken away for a key is the one the index has under it. */
  ghost predicate SwapsFrom(steps: seq<Step>, index: Index) {
    forall s :: s in steps && s.Swap? ==> s.key in index.keyed && s.gone == index.keyed[s.key].id
  }

  lemma FromIndexInPlace(steps: seq<Step>, index: Index, store: Store, logic: Logic)
    requires SwapsFrom(steps, index) && StoreIndex(index, store, logic)
    ensures SwapsInPlace(steps, store)
  {
  }

  /** After creating and updating, every desired key is in the store. */
  lemma KeysAfterUpdate(before: Store, after: Store, index: Index, keys: set<string>, policy: Policy, logic: Logic)
    requires StoreIndex(index, before, logic) && Extended(before, after, keys, policy, logic)
    requires forall k :: k in policy.desired && k !in index.keyed ==> k in keys
    ensures policy.desired.Keys <= Keys(after)
  {
    KeysOfIndex(index, before, logic);
  }

  /** After the refresh, every desired key without declared nulls is fulfilled: it matched, or was replaced. */
  lemma FulfilledAfterRefresh(before: Store, after: Store, index: Index, steps: seq<Step>, k: string, policy: Policy, logic: Logic)
    requires LogicContract(logic) && StoreIndex(index, before, logic) && policy.desired.Keys <= Keys(before)
    requires KeysDesired(steps, policy.desired) && k in policy.desired
    requires Declared(policy.desired[k]) && NoNulls(policy.desired[k])
    requires Extended(before, after, KeysOfSteps(steps), policy, logic) && SwapsDone(steps, after, policy.desired)
    requires forall s :: s in steps ==> s.Swap?
    requires k in index.keyed && !Matches(Obj(policy.desired[k]), Obj(index.keyed[k].job)) ==> k in KeysOfSteps(steps)
    ensures Fulfilled(after, k, policy, logic)
  {
    if k in KeysOfSteps(steps) {
      var s :| s in steps && s.key == k;
      ReplacedIsFulfilled(after, s.id, k, policy, logic);
    } else {
      KeysOfIndex(index, before, logic);
      MatchedStays(before, after, index, KeysOfSteps(steps), k, policy, logic);
    }
  }

  lemma MatchedStays(before: Store, after: Store, index: Index, touched: set<string>, k: string, policy: Policy, logic: Logic)
    requires StoreIndex(index, before, logic) && k in policy.desired && k in index.keyed
    requires Matches(Obj(policy.desired[k]), Obj(index.keyed[k].job))
    requires Extended(before, after, touched, policy, logic) && k !in touched
    ensures Fulfilled(after, k, policy, logic)
  {
    var id := index.keyed[k].id;
    assert id in before && RawKey(before[id]) == Some(k);
    assert id in after && after[id] == before[id];
    assert k in Keys(after);
  }

  function DropsOf(ids: seq<string>): seq<Call> {
    seq(|ids|, i requires 0 <= i < |ids| => Removed(ids[i]))
  }

  lemma {:induction false} DropStage(initial: Store, calls: seq<Call>, ids: seq<string>)
    ensures StoreAfter(initial, calls + DropsOf(ids)) == StoreAfter(initial, calls) - (set id | id in ids)
  {
    if ids == [] {
      assert calls + DropsOf(ids) == calls;
    } else {
      var n := |ids| - 1;
      DropStage(initial, calls, ids[..n]);
      var all := calls + DropsOf(ids);
      assert all[..|all| - 1] == calls + DropsOf(ids[..n]) && all[|all| - 1] == Removed(ids[n]);
      var store := StoreAfter(initial, calls);
      assert StoreAfter(initial, all) == StoreAfter(initial, calls + DropsOf(ids[..n])) - {ids[n]};
      assert (set id | id in ids) == (set id | id in ids[..n]) + {ids[n]} by {
        assert ids == ids[..n] + [ids[n]];
      }
    }
  }
}
