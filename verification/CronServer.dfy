/** The cron command line as the reconciler sees it. Any answer may come back; every call is logged, and
    whether a log is that of a server that behaves as documented is a property of the log. */
module CronServer {
  import opened Wrappers
  import opened Json
  import opened CronJobs

  type Store = map<string, Json>

  /** logical_job for one snapshot, as a value; what is used of it is LogicalContract. */
  type Logic = Json -> Result<Job>

  /** A call that came back; an addition also says which stored job the server made of it, and a call
      that failed is followed by Failed. */
  datatype Call =
    | Listed(jobs: seq<Json>)
    | Added(job: Job, id: string, raw: Json)
    | Removed(id: string)
    | Failed

  /** The listing the reconciler has seen last. */
  function LastListing(calls: seq<Call>): Option<seq<Json>> {
    if calls == [] then None
    else
      var n := |calls| - 1;
      if calls[n].Listed? then Some(calls[n].jobs) else LastListing(calls[..n])
  }

  /** A complete listing of the store, in any order. */
  ghost predicate Lists(l: seq<Json>, store: Store) {
    && (forall i :: 0 <= i < |l| ==> IdOf(l[i]).Some? && IdOf(l[i]).value in store && store[IdOf(l[i]).value] == l[i])
    && (forall i, j :: 0 <= i < j < |l| ==> IdOf(l[i]) != IdOf(l[j]))
    && (forall id :: id in store ==> store[id] in l)
  }

  /** Jobs carry their own ids, are valid, and no key occurs twice. */
  ghost predicate GoodStore(store: Store, logic: Logic) {
    && (forall id :: id in store ==> IdOf(store[id]) == Some(id) && logic(store[id]).Ok?)
    && UniqueKeys(store)
  }

  ghost predicate UniqueKeys(store: Store) {
    forall a, b :: a in store && b in store && RawKey(store[a]).Some? && RawKey(store[a]) == RawKey(store[b]) ==> a == b
  }

  ghost function Keys(store: Store): set<string> {
    set id | id in store && RawKey(store[id]).Some? :: RawKey(store[id]).value
  }

  /** The fields cron.add overwrites in a job it finds under the key. */
  const UPSERTED_FIELDS: set<string> := {
    "declarationKey", "displayName", "enabled", "schedule", "trigger", "payload", "delivery"
  }

  /** cron.add as an upsert by key: a known key keeps its id and its other fields and takes the
      overwritten ones; an unknown key becomes a new job with every declared field. */
  ghost predicate Upserts(store: Store, id: string, raw: Json, job: Job, logic: Logic) {
    && KeyedJob(job)
    && IdOf(raw) == Some(id) && RawKey(raw) == Some(KeyOf(job)) && logic(raw).Ok?
    && if KeyOf(job) in Keys(store)
       then && id in store && RawKey(store[id]) == Some(KeyOf(job)) && store[id].Obj?
            && (forall f :: f in job && f in UPSERTED_FIELDS ==> f in raw.fields && Matches(job[f], raw.fields[f]))
            && (forall f :: f !in UPSERTED_FIELDS ==>
                  (f in raw.fields <==> f in store[id].fields) &&
                  (f in raw.fields ==> raw.fields[f] == store[id].fields[f]))
       else id !in store && Matches(Obj(job), raw)
  }

  function Effect(store: Store, call: Call): Store {
    match call
    case Added(_, id, raw) => store[id := raw]
    case Removed(id) => store - {id}
    case _ => store
  }

  /** The store after a log, if every call had the effect it is documented to have. */
  function StoreAfter(initial: Store, calls: seq<Call>): Store {
    if calls == [] then initial
    else Effect(StoreAfter(initial, calls[..|calls| - 1]), calls[|calls| - 1])
  }

  ghost predicate HonestCall(store: Store, call: Call, logic: Logic) {
    match call
    case Listed(jobs) => Lists(jobs, store)
    case Added(job, id, raw) => Upserts(store, id, raw, job, logic)
    case Removed(_) => true
    case Failed => false
  }

  /** No call failed, listings were complete, and additions were upserts by key. */
  ghost predicate Honest(initial: Store, calls: seq<Call>, logic: Logic) {
    forall i :: 0 <= i < |calls| ==> HonestCall(StoreAfter(initial, calls[..i]), calls[i], logic)
  }

  lemma HonestPrefix(initial: Store, calls: seq<Call>, more: seq<Call>, logic: Logic)
    requires Honest(initial, calls + more, logic)
    ensures Honest(initial, calls, logic)
  {
    forall i | 0 <= i < |calls| ensures HonestCall(StoreAfter(initial, calls[..i]), calls[i], logic) {
      assert (calls + more)[..i] == calls[..i];
      assert HonestCall(StoreAfter(initial, (calls + more)[..i]), (calls + more)[i], logic);
    }
  }

  /** The last call of an honest log, and the store it leaves. */
  lemma HonestLast(initial: Store, calls: seq<Call>, call: Call, logic: Logic)
    ensures Honest(initial, calls + [call], logic) ==>
            Honest(initial, calls, logic) && HonestCall(StoreAfter(initial, calls), call, logic)
    ensures StoreAfter(initial, calls + [call]) == Effect(StoreAfter(initial, calls), call)
  {
    var all := calls + [call];
    assert all[..|calls|] == calls && all[|calls|] == call;
    if Honest(initial, all, logic) {
      HonestPrefix(initial, calls, [call], logic);
      assert HonestCall(StoreAfter(initial, all[..|calls|]), all[|calls|], logic);
    }
  }

  class Cli {
    ghost const initial: Store
    var store: Store
    ghost var calls: seq<Call>

    ghost predicate Valid()
      reads this
    {
      store == StoreAfter(initial, calls)
    }

    constructor (live: Store)
      ensures Valid() && store == live && calls == []
    {
      initial, store, calls := live, live, [];
    }

    /** get_full_jobs: the listing, then every job by its id */
    method GetFullJobs() returns (r: Result<seq<Json>>)
      requires Valid()
      modifies `calls
      ensures Valid()
      ensures calls == old(calls) + [if r.Ok? then Listed(r.value) else Failed]
    {
      r := *;
      if r.Ok? {
        var listed := r.value;
        var full: seq<Json> := [];
        var i := 0;
        while i < |listed| && r.Ok? {
          var id := IdOf(listed[i]);
          var job: Result<Json> := *;
          if id.Some? && job.Ok? {
            full := full + [job.value];
          } else {
            r := Raise;
          }
          i := i + 1;
        }
        if r.Ok? {
          r := Ok(full);
        }
      }
      calls := calls + [if r.Ok? then Listed(r.value) else Failed];
    }

    /** gateway call cron.add */
    method AddDeclaration(job: Job) returns (ok: bool, ghost id: string, ghost raw: Json)
      requires Valid()
      modifies this
      ensures Valid()
      ensures calls == if ok then old(calls) + [Added(job, id, raw)] else old(calls) + [Added(job, id, raw)] + [Failed]
    {
      var newId: string := *;
      var stored: Json := *;
      ok := *;
      id, raw := newId, stored;
      store := store[newId := stored];
      Log(Added(job, id, raw), ok);
    }

    /** cron rm */
    method Remove(id: string) returns (ok: bool)
      requires Valid()
      modifies this
      ensures Valid()
      ensures calls == if ok then old(calls) + [Removed(id)] else old(calls) + [Removed(id)] + [Failed]
    {
      ok := *;
      store := store - {id};
      Log(Removed(id), ok);
    }

    ghost method Log(call: Call, ok: bool)
      modifies `calls
      ensures calls == if ok then old(calls) + [call] else old(calls) + [call] + [Failed]
      ensures StoreAfter(initial, calls) == StoreAfter(initial, old(calls) + [call])
    {
      calls := if ok then calls + [call] else calls + [call] + [Failed];
      assert !ok ==> calls[..|calls| - 1] == old(calls) + [call];
    }
  }

  // ----- the store under honest calls

  /** Putting a job with this key at the place of the old one, or at a new place. */
  lemma KeyStep(store: Store, id: string, raw: Json, key: string)
    requires UniqueKeys(store) && RawKey(raw) == Some(key)
    requires if key in Keys(store) then id in store && RawKey(store[id]) == Some(key) else id !in store
    ensures UniqueKeys(store[id := raw])
    ensures Keys(store[id := raw]) == Keys(store) + {key}
  {
    var after := store[id := raw];
    forall a | a in after && a != id ensures RawKey(after[a]) != Some(key) {
      assert RawKey(store[a]) == Some(key) ==> key in Keys(store);
    }
    forall k ensures k in Keys(after) <==> k in Keys(store) + {key} {
      if k in Keys(after) {
        var a :| a in after && RawKey(after[a]) == Some(k);
        assert a != id ==> a in store && store[a] == after[a];
      }
      if k in Keys(store) && k != key {
        var a :| a in store && RawKey(store[a]) == Some(k);
        assert a in after && after[a] == store[a];
      }
      assert id in after && RawKey(after[id]) == Some(key);
    }
  }

  lemma KeysAfterUpsert(store: Store, id: string, raw: Json, job: Job, logic: Logic)
    requires GoodStore(store, logic) && Upserts(store, id, raw, job, logic)
    ensures GoodStore(store[id := raw], logic)
    ensures Keys(store[id := raw]) == Keys(store) + {KeyOf(job)}
  {
    KeyStep(store, id, raw, KeyOf(job));
  }

  lemma KeysAfterRemove(store: Store, id: string, logic: Logic)
    requires GoodStore(store, logic) && id in store
    ensures GoodStore(store - {id}, logic)
    ensures Keys(store - {id}) == Keys(store) - (if RawKey(store[id]).Some? then {RawKey(store[id]).value} else {})
  {
    var after := store - {id};
    forall k | k in Keys(store) && RawKey(store[id]) != Some(k) ensures k in Keys(after) {
      var a :| a in store && RawKey(store[a]) == Some(k);
      assert a in after;
    }
    forall k | k in Keys(after) ensures k in Keys(store) && RawKey(store[id]) != Some(k) {
      var a :| a in after && RawKey(after[a]) == Some(k);
      assert a in store && store[a] == after[a];
    }
  }
}
