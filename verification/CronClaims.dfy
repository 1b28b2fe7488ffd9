/** The claims raw cron jobs make on keys, and the snapshots they lead to. */
module CronClaims {
  import opened Wrappers
  import opened Order
  import opened Json
  import opened CronJobs

  // ----- the prefix

  predicate PrefixStart(c: char) {
    'A' <= c <= 'Z' || 'a' <= c <= 'z' || '0' <= c <= '9'
  }

  /** PREFIX_RE, at most 160 characters */
  predicate ValidPrefix(prefix: string) {
    && 2 <= |prefix| <= 160 && PrefixStart(prefix[0]) && prefix[|prefix| - 1] == '.'
    && forall i :: 1 <= i < |prefix| ==>
         PrefixStart(prefix[i]) || prefix[i] == '.' || prefix[i] == '_' || prefix[i] == ':' || prefix[i] == '-'
  }

  /** A letter or digit, by its code. */
  predicate Alphanumeric(c: char) {
    48 <= c as int <= 57 || 65 <= c as int <= 90 || 97 <= c as int <= 122
  }

  predicate Inner(c: char) {
    Alphanumeric(c) || c == '.' || c == '_' || c == ':' || c == '-'
  }

  /** A letter or digit, then letters, digits, dots, underscores, colons and hyphens, then a dot. */
  ghost predicate PrefixOf(prefix: string, first: char, middle: string) {
    && prefix == [first] + middle + "." && Alphanumeric(first)
    && forall i :: 0 <= i < |middle| ==> Inner(middle[i])
  }

  lemma ValidPrefixIff(prefix: string)
    ensures ValidPrefix(prefix) <==> |prefix| <= 160 && exists first, middle :: PrefixOf(prefix, first, middle)
  {
    if ValidPrefix(prefix) {
      var middle := prefix[1..|prefix| - 1];
      assert prefix == [prefix[0]] + middle + ".";
      forall i | 0 <= i < |middle| ensures Inner(middle[i]) {
        assert middle[i] == prefix[i + 1];
      }
      assert PrefixOf(prefix, prefix[0], middle);
    }
    if exists first, middle :: PrefixOf(prefix, first, middle) {
      var first, middle :| PrefixOf(prefix, first, middle);
      forall i | 1 <= i < |prefix| ensures PrefixStart(prefix[i]) || Inner(prefix[i]) {
        assert i < |prefix| - 1 ==> prefix[i] == middle[i - 1];
      }
    }
  }

  // ----- claims: what a raw job contributes

  /** The key a job goes by, whether it named the key itself, and its logical form. */
  datatype Claim = Claim(key: string, explicit: bool, job: Job)

  type Claiming = Json -> Result<Claim>

  /** One result for each element, or none if one of them raises. */
  function Collect<T>(raws: seq<Json>, f: Json -> Result<T>): Result<seq<T>> {
    if raws == [] then Ok([])
    else
      var n := |raws| - 1;
      var before :- Collect(raws[..n], f);
      var last :- f(raws[n]);
      Ok(before + [last])
  }

  // ----- which lists of claims have a snapshot

  /** Two different claims may share a key only if both got it generated and their jobs are equal. */
  predicate Agree(x: Claim, y: Claim) {
    x.key == y.key ==> !x.explicit && !y.explicit && PyEq(Obj(x.job), Obj(y.job))
  }

  ghost predicate Consistent(claims: multiset<Claim>) {
    && (forall x :: x in claims && x.explicit ==> claims[x] == 1)
    && (forall x, y :: x in claims && y in claims && x != y ==> Agree(x, y))
  }

  /** The first claim of every key. */
  function FirstClaims(claims: seq<Claim>): (m: map<string, Claim>)
    ensures forall x :: x in claims ==> x.key in m
    ensures forall k :: k in m ==> m[k] in claims && m[k].key == k
  {
    if claims == [] then map[]
    else
      var n := |claims| - 1;
      var before := FirstClaims(claims[..n]);
      if claims[n].key in before then before else before[claims[n].key := claims[n]]
  }

  function WithCanary(m: map<string, Claim>, canary: Option<Claim>): map<string, Claim> {
    if canary.Some? && canary.value.key !in m then m[canary.value.key := canary.value] else m
  }

  /** The claims in the order of their keys. */
  function Listing(m: map<string, Claim>): (r: seq<Claim>)
    ensures |r| == |m|
  {
    var keys := SortedKeys(m.Keys);
    seq(|keys|, i requires 0 <= i < |keys| => m[keys[i]])
  }

  function JobsOf(claims: seq<Claim>): seq<Job> {
    seq(|claims|, i requires 0 <= i < |claims| => claims[i].job)
  }

  /** make_snapshot's jobs */
  ghost function SnapshotOf(raws: seq<Json>, prefix: string, canary: Option<Claim>, claiming: Claiming): Result<seq<Job>> {
    var claims :- Collect(raws, claiming);
    if !ValidPrefix(prefix) || !Consistent(multiset(claims)) then Raise
    else Ok(JobsOf(Listing(WithCanary(FirstClaims(claims), canary))))
  }

  // ----- the order of the jobs does not matter

  /** Claims with the same generated key are the same: the digest tells seeds apart. */
  ghost predicate Apart(claims: seq<Claim>) {
    forall x, y :: x in claims && y in claims && !x.explicit && !y.explicit && x.key == y.key ==> x == y
  }

  lemma SameMembers<T>(a: seq<T>, b: seq<T>)
    requires multiset(a) == multiset(b)
    ensures forall x :: x in a <==> x in b
  {
    forall x ensures x in a <==> x in b {
      assert x in a <==> x in multiset(a);
      assert x in b <==> x in multiset(b);
    }
  }

  lemma FirstIs(claims: seq<Claim>, x: Claim)
    requires Consistent(multiset(claims)) && Apart(claims) && x in claims
    ensures FirstClaims(claims)[x.key] == x
  {
    var y := FirstClaims(claims)[x.key];
    assert x in multiset(claims) && y in multiset(claims);
    assert x != y ==> Agree(x, y);
  }

  lemma SameFirst(a: seq<Claim>, b: seq<Claim>, k: string)
    requires multiset(a) == multiset(b) && Consistent(multiset(b)) && Apart(b) && k in FirstClaims(a)
    ensures k in FirstClaims(b) && FirstClaims(b)[k] == FirstClaims(a)[k]
  {
    SameMembers(a, b);
    FirstIs(b, FirstClaims(a)[k]);
  }

  lemma SameFirstClaims(a: seq<Claim>, b: seq<Claim>)
    requires multiset(a) == multiset(b) && Consistent(multiset(a)) && Apart(a)
    ensures FirstClaims(a) == FirstClaims(b)
  {
    SameKeys(a, b);
    forall k | k in FirstClaims(b) ensures k in FirstClaims(a) && FirstClaims(a)[k] == FirstClaims(b)[k] {
      SameFirst(b, a, k);
    }
  }

  lemma CollectLast<T>(a: seq<Json>, x: Json, f: Json -> Result<T>)
    ensures Collect(a + [x], f) ==
            if Collect(a, f).Ok? && f(x).Ok? then Ok(Collect(a, f).value + [f(x).value]) else Raise
  {
    assert (a + [x])[..|a|] == a;
  }

  lemma {:induction false} CollectInserted<T>(x: seq<Json>, y: Json, z: seq<Json>, f: Json -> Result<T>)
    ensures Collect(x + [y] + z, f).Ok? == (Collect(x + z, f).Ok? && f(y).Ok?)
    ensures Collect(x + [y] + z, f).Ok? ==>
            multiset(Collect(x + [y] + z, f).value) == multiset(Collect(x + z, f).value) + multiset{f(y).value}
  {
    if z == [] {
      assert x + [y] + z == x + [y] && x + z == x;
      CollectLast(x, y, f);
    } else {
      var n := |z| - 1;
      assert z == z[..n] + [z[n]];
      assert x + [y] + z == (x + [y] + z[..n]) + [z[n]];
      assert x + z == (x + z[..n]) + [z[n]];
      CollectLast(x + [y] + z[..n], z[n], f);
      CollectLast(x + z[..n], z[n], f);
      CollectInserted(x, y, z[..n], f);
    }
  }

  /** The results of a permutation are a permutation of the results. */
  lemma {:induction false} CollectPermuted<T>(a: seq<Json>, b: seq<Json>, f: Json -> Result<T>)
    requires multiset(a) == multiset(b)
    ensures Collect(a, f).Ok? == Collect(b, f).Ok?
    ensures Collect(a, f).Ok? ==> multiset(Collect(a, f).value) == multiset(Collect(b, f).value)
    decreases |a|
  {
    SameMembers(a, b);
    if a != [] {
      var n := |a| - 1;
      assert a[n] in b;
      var j :| 0 <= j < |b| && b[j] == a[n];
      Without(a, b, j);
      CollectPermuted(a[..n], b[..j] + b[j + 1..], f);
      CollectInserted(b[..j], b[j], b[j + 1..], f);
      CollectLast(a[..n], a[n], f);
    }
  }

  lemma RemovedFrom<T>(s: seq<T>, j: nat)
    requires j < |s|
    ensures s == s[..j] + [s[j]] + s[j + 1..]
    ensures multiset(s[..j] + s[j + 1..]) == multiset(s) - multiset{s[j]}
  {
    assert s == s[..j] + [s[j]] + s[j + 1..];
    assert multiset(s) == multiset(s[..j]) + multiset{s[j]} + multiset(s[j + 1..]);
  }

  lemma Without<T>(a: seq<T>, b: seq<T>, j: nat)
    requires a != [] && j < |b| && b[j] == a[|a| - 1] && multiset(a) == multiset(b)
    ensures a == a[..|a| - 1] + [a[|a| - 1]] && b == b[..j] + [b[j]] + b[j + 1..]
    ensures multiset(a[..|a| - 1]) == multiset(b[..j] + b[j + 1..])
  {
    RemovedFrom(a, |a| - 1);
    RemovedFrom(b, j);
    assert a[..|a| - 1] + a[|a|..] == a[..|a| - 1];
  }

  /** Among these raw jobs, different claims that come from generated keys have different keys. */
  ghost predicate TellsApart(raws: seq<Json>, claiming: Claiming) {
    forall x, y :: x in raws && y in raws ==> claiming(x) == claiming(y) || !SameGenerated(claiming(x), claiming(y))
  }

  predicate SameGenerated(x: Result<Claim>, y: Result<Claim>) {
    x.Ok? && y.Ok? && !x.value.explicit && !y.value.explicit && x.value.key == y.value.key
  }

  /** One result for each element, in order. */
  lemma {:induction false} CollectEach<T>(raws: seq<Json>, f: Json -> Result<T>, i: nat)
    requires Collect(raws, f).Ok? && i < |raws|
    ensures |Collect(raws, f).value| == |raws| && f(raws[i]) == Ok(Collect(raws, f).value[i])
  {
    var n := |raws| - 1;
    if i < n {
      CollectEach(raws[..n], f, i);
    } else if n > 0 {
      CollectEach(raws[..n], f, 0);
    }
  }

  lemma {:induction false} CollectFrom<T>(raws: seq<Json>, f: Json -> Result<T>)
    requires Collect(raws, f).Ok?
    ensures forall x :: x in Collect(raws, f).value ==> exists i :: 0 <= i < |raws| && f(raws[i]) == Ok(x)
  {
    if raws != [] {
      var n := |raws| - 1;
      CollectFrom(raws[..n], f);
      forall x | x in Collect(raws[..n], f).value ensures exists i :: 0 <= i < |raws| && f(raws[i]) == Ok(x) {
        var i :| 0 <= i < n && f(raws[..n][i]) == Ok(x);
        assert raws[..n][i] == raws[i];
      }
    }
  }

  lemma ClaimsApart(raws: seq<Json>, claiming: Claiming)
    requires TellsApart(raws, claiming) && Collect(raws, claiming).Ok?
    ensures Apart(Collect(raws, claiming).value)
  {
    CollectFrom(raws, claiming);
    var claims := Collect(raws, claiming).value;
    forall x, y | x in claims && y in claims && !x.explicit && !y.explicit && x.key == y.key ensures x == y {
      var i, j :| 0 <= i < |raws| && claiming(raws[i]) == Ok(x) && 0 <= j < |raws| && claiming(raws[j]) == Ok(y);
      assert SameGenerated(claiming(raws[i]), claiming(raws[j]));
    }
  }

  /** Equal results to Python: the same failure, or lists of jobs that are equal one by one. */
  predicate EqualJobs(a: Result<seq<Job>>, b: Result<seq<Job>>) {
    && a.Ok? == b.Ok?
    && (a.Ok? ==> |a.value| == |b.value| && forall i :: 0 <= i < |a.value| ==> PyEq(Obj(a.value[i]), Obj(b.value[i])))
  }

  lemma SameKeys(a: seq<Claim>, b: seq<Claim>)
    requires multiset(a) == multiset(b)
    ensures FirstClaims(a).Keys == FirstClaims(b).Keys
  {
    SameMembers(a, b);
    var m, n := FirstClaims(a), FirstClaims(b);
    forall k ensures k in m <==> k in n {
      assert k in m ==> m[k] in b;
      assert k in n ==> n[k] in a;
    }
  }

  /** Claims under one key of which there is a snapshot have equal jobs. */
  lemma EqualClaims(claims: multiset<Claim>, x: Claim, y: Claim)
    requires Consistent(claims) && x in claims && y in claims && x.key == y.key
    ensures PyEq(Obj(x.job), Obj(y.job))
  {
    if x == y {
      PyEqReflexive(Obj(x.job));
    } else {
      assert Agree(x, y);
    }
  }

  lemma EqualFirstClaims(a: seq<Claim>, b: seq<Claim>)
    requires multiset(a) == multiset(b) && Consistent(multiset(a))
    ensures FirstClaims(a).Keys == FirstClaims(b).Keys
    ensures forall k :: k in FirstClaims(a) ==> PyEq(Obj(FirstClaims(a)[k].job), Obj(FirstClaims(b)[k].job))
  {
    SameKeys(a, b);
    forall k | k in FirstClaims(a) ensures PyEq(Obj(FirstClaims(a)[k].job), Obj(FirstClaims(b)[k].job)) {
      assert FirstClaims(a)[k] in multiset(a) && FirstClaims(b)[k] in multiset(b);
      EqualClaims(multiset(a), FirstClaims(a)[k], FirstClaims(b)[k]);
    }
  }

  /** Any permutation of the raw jobs has an equal snapshot, or none either, whatever the claims. */
  lemma PermutationEqual(a: seq<Json>, b: seq<Json>, prefix: string, canary: Option<Claim>, claiming: Claiming)
    requires multiset(a) == multiset(b)
    ensures EqualJobs(SnapshotOf(a, prefix, canary, claiming), SnapshotOf(b, prefix, canary, claiming))
  {
    CollectPermuted(a, b, claiming);
    if Collect(a, claiming).Ok? && Consistent(multiset(Collect(a, claiming).value)) {
      EqualSnapshots(Collect(a, claiming).value, Collect(b, claiming).value, canary);
    }
  }

  lemma EqualSnapshots(a: seq<Claim>, b: seq<Claim>, canary: Option<Claim>)
    requires multiset(a) == multiset(b) && Consistent(multiset(a))
    ensures EqualJobs(Ok(JobsOf(Listing(WithCanary(FirstClaims(a), canary)))), Ok(JobsOf(Listing(WithCanary(FirstClaims(b), canary)))))
  {
    EqualFirstClaims(a, b);
    EqualWithCanary(FirstClaims(a), FirstClaims(b), canary);
    EqualListings(WithCanary(FirstClaims(a), canary), WithCanary(FirstClaims(b), canary));
  }

  lemma EqualWithCanary(m: map<string, Claim>, n: map<string, Claim>, canary: Option<Claim>)
    requires m.Keys == n.Keys && forall k :: k in m ==> PyEq(Obj(m[k].job), Obj(n[k].job))
    ensures WithCanary(m, canary).Keys == WithCanary(n, canary).Keys
    ensures forall k :: k in WithCanary(m, canary) ==> PyEq(Obj(WithCanary(m, canary)[k].job), Obj(WithCanary(n, canary)[k].job))
  {
    if canary.Some? {
      PyEqReflexive(Obj(canary.value.job));
    }
  }

  lemma JobAt(m: map<string, Claim>, keys: seq<string>, i: nat)
    requires keys == SortedKeys(m.Keys) && i < |keys|
    ensures keys[i] in m && |JobsOf(Listing(m))| == |keys| && JobsOf(Listing(m))[i] == m[keys[i]].job
  {
    assert keys[i] in keys;
  }

  lemma EqualListings(m: map<string, Claim>, n: map<string, Claim>)
    requires m.Keys == n.Keys && forall k :: k in m ==> PyEq(Obj(m[k].job), Obj(n[k].job))
    ensures EqualJobs(Ok(JobsOf(Listing(m))), Ok(JobsOf(Listing(n))))
  {
    var keys := SortedKeys(m.Keys);
    forall i | 0 <= i < |keys| ensures PyEq(Obj(JobsOf(Listing(m))[i]), Obj(JobsOf(Listing(n))[i])) {
      JobAt(m, keys, i);
      JobAt(n, keys, i);
    }
  }

  /** It has the very same snapshot if generated keys tell the given jobs apart. */
  lemma PermutationInvariant(a: seq<Json>, b: seq<Json>, prefix: string, canary: Option<Claim>, claiming: Claiming)
    requires multiset(a) == multiset(b) && TellsApart(a, claiming)
    ensures SnapshotOf(a, prefix, canary, claiming) == SnapshotOf(b, prefix, canary, claiming)
  {
    CollectPermuted(a, b, claiming);
    if Collect(a, claiming).Ok? && Consistent(multiset(Collect(a, claiming).value)) {
      ClaimsApart(a, claiming);
      SameFirstClaims(Collect(a, claiming).value, Collect(b, claiming).value);
    }
  }

  // ----- sorted, with every key once

  ghost predicate OwnKeys(m: map<string, Claim>) {
    forall k :: k in m ==> m[k].key == k
  }

  lemma ListingSorted(m: map<string, Claim>)
    requires OwnKeys(m)
    ensures forall c :: c in Listing(m) <==> c in m.Values
    ensures forall i, j :: 0 <= i < j < |Listing(m)| ==> Less(Listing(m)[i].key, Listing(m)[j].key)
  {
    var keys, claims := SortedKeys(m.Keys), Listing(m);
    SortedKeysSorted(m.Keys);
    forall i | 0 <= i < |keys| ensures keys[i] in m && claims[i] == m[keys[i]] {
      assert keys[i] in keys;
    }
    forall c | c in m.Values ensures c in claims {
      var k :| k in m && m[k] == c;
      var i :| 0 <= i < |keys| && keys[i] == k;
      assert claims[i] == c;
    }
  }

  /** Where a claim stands in the listing. */
  lemma ListedAt(m: map<string, Claim>, k: string) returns (i: nat)
    requires k in m
    ensures i < |Listing(m)| && Listing(m)[i] == m[k]
  {
    var keys := SortedKeys(m.Keys);
    var n :| 0 <= n < |keys| && keys[n] == k;
    i := n;
  }

  lemma {:induction false} DistinctOnce<T>(s: seq<T>, x: T)
    requires forall i, j :: 0 <= i < j < |s| ==> s[i] != s[j]
    ensures x in s ==> multiset(s)[x] == 1
  {
    if s != [] {
      var n := |s| - 1;
      assert s == s[..n] + [s[n]];
      DistinctOnce(s[..n], x);
      assert multiset(s) == multiset(s[..n]) + multiset{s[n]};
      if x == s[n] {
        assert x !in s[..n];
      }
    }
  }

  // ----- snapshots of snapshots

  /** The claims of a snapshot's jobs: all keys are explicit now. */
  function Spelled(claims: seq<Claim>): seq<Claim> {
    seq(|claims|, i requires 0 <= i < |claims| => claims[i].(explicit := true))
  }

  lemma SpelledConsistent(claims: seq<Claim>)
    requires forall i, j :: 0 <= i < j < |claims| ==> Less(claims[i].key, claims[j].key)
    ensures Consistent(multiset(Spelled(claims)))
  {
    var all := Spelled(claims);
    forall i, j | 0 <= i < |all| && 0 <= j < |all| && i != j ensures all[i].key != all[j].key {
      LessIrreflexive(claims[i].key);
    }
    forall x | x in multiset(all) ensures multiset(all)[x] == 1 {
      DistinctOnce(all, x);
    }
    forall x, y | x in multiset(all) && y in multiset(all) && x != y ensures Agree(x, y) {
      var i, j :| 0 <= i < |all| && all[i] == x && 0 <= j < |all| && all[j] == y;
    }
  }

  /** The first claims of a spelled-out listing are the listed ones. */
  lemma SpelledClaim(m: map<string, Claim>, k: string)
    requires OwnKeys(m) && k in FirstClaims(Spelled(Listing(m)))
    ensures k in m && FirstClaims(Spelled(Listing(m)))[k] == m[k].(explicit := true)
  {
    var claims := Listing(m);
    var all := Spelled(claims);
    var i :| 0 <= i < |all| && all[i] == FirstClaims(all)[k];
    ListingSorted(m);
    assert claims[i] in claims && claims[i] in m.Values;
  }

  lemma SpelledHas(m: map<string, Claim>, k: string)
    requires OwnKeys(m) && k in m
    ensures k in FirstClaims(Spelled(Listing(m)))
  {
    var i := ListedAt(m, k);
    assert Spelled(Listing(m))[i] in Spelled(Listing(m));
  }

  /** The first claims of a spelled-out listing are the listed ones. */
  lemma SpelledFirst(m: map<string, Claim>)
    requires OwnKeys(m)
    ensures var n := FirstClaims(Spelled(Listing(m)));
      n.Keys == m.Keys && forall k :: k in m ==> n[k].job == m[k].job
  {
    var n := FirstClaims(Spelled(Listing(m)));
    forall k ensures k in n <==> k in m {
      if k in n { SpelledClaim(m, k); }
      if k in m { SpelledHas(m, k); }
    }
    forall k | k in m ensures n[k].job == m[k].job {
      SpelledClaim(m, k);
    }
  }

  /** The jobs listed depend on the keys and the jobs only. */
  lemma SameJobsListed(m: map<string, Claim>, n: map<string, Claim>)
    requires m.Keys == n.Keys && forall k :: k in m ==> n[k].job == m[k].job
    ensures JobsOf(Listing(n)) == JobsOf(Listing(m))
  {
    var keys := SortedKeys(m.Keys);
    forall i | 0 <= i < |keys| ensures JobsOf(Listing(n))[i] == JobsOf(Listing(m))[i] {
      assert keys[i] in keys;
    }
  }

  /** Listing the claims of a listing gives the same jobs. */
  lemma SpelledListing(m: map<string, Claim>)
    requires OwnKeys(m)
    ensures FirstClaims(Spelled(Listing(m))).Keys == m.Keys
    ensures JobsOf(Listing(FirstClaims(Spelled(Listing(m))))) == JobsOf(Listing(m))
  {
    SpelledFirst(m);
    SameJobsListed(m, FirstClaims(Spelled(Listing(m))));
  }

  function RawsOf(jobs: seq<Job>): seq<Json> {
    seq(|jobs|, i requires 0 <= i < |jobs| => Obj(jobs[i]))
  }

  /** The claim's job, read again, claims the same key explicitly. */
  ghost predicate SelfClaiming(c: Claim, again: Claiming) {
    again(Obj(c.job)) == Ok(c.(explicit := true))
  }

  lemma {:induction false} ClaimsOfJobs(claims: seq<Claim>, again: Claiming)
    requires forall c :: c in claims ==> SelfClaiming(c, again)
    ensures Collect(RawsOf(JobsOf(claims)), again) == Ok(Spelled(claims))
  {
    if claims == [] {
      assert RawsOf(JobsOf(claims)) == [] && Spelled(claims) == [];
    } else {
      var n := |claims| - 1;
      var c := claims[n];
      ClaimsOfJobs(claims[..n], again);
      assert SelfClaiming(c, again);
      assert RawsOf(JobsOf(claims)) == RawsOf(JobsOf(claims[..n])) + [Obj(c.job)];
      CollectLast(RawsOf(JobsOf(claims[..n])), Obj(c.job), again);
      assert Spelled(claims) == Spelled(claims[..n]) + [c.(explicit := true)];
    }
  }

  // ----- what load_snapshot demands

  /** Every claim is a valid job's, under its own key. */
  ghost predicate AllValid(claiming: Claiming, valid: Job -> bool) {
    forall raw :: claiming(raw).Ok? ==> ValidClaim(claiming(raw).value, valid)
  }

  ghost predicate ValidClaim(c: Claim, valid: Job -> bool) {
    valid(c.job) && KeyedJob(c.job) && c.key == KeyOf(c.job)
  }

  /** load_snapshot accepts these jobs: not none, valid, no key twice, sorted by key. */
  ghost predicate Loadable(prefix: string, jobs: seq<Job>, valid: Job -> bool) {
    && ValidPrefix(prefix) && jobs != []
    && (forall j :: j in jobs ==> valid(j) && KeyedJob(j))
    && (forall i, j :: 0 <= i < j < |jobs| ==> Less(KeyOf(jobs[i]), KeyOf(jobs[j])))
  }

  lemma {:induction false} CollectValid(raws: seq<Json>, claiming: Claiming, valid: Job -> bool)
    requires AllValid(claiming, valid) && Collect(raws, claiming).Ok?
    ensures forall c :: c in Collect(raws, claiming).value ==> ValidClaim(c, valid)
  {
    if raws != [] {
      CollectValid(raws[..|raws| - 1], claiming, valid);
    }
  }

  lemma FirstAre(claims: seq<Claim>, canary: Option<Claim>, good: Claim -> bool)
    requires (forall c :: c in claims ==> good(c)) && (canary.Some? ==> good(canary.value))
    ensures OwnKeys(WithCanary(FirstClaims(claims), canary))
    ensures forall k :: k in WithCanary(FirstClaims(claims), canary) ==> good(WithCanary(FirstClaims(claims), canary)[k])
  {
  }

  /** What is true of every claim is true of every claim listed. */
  lemma ListedAre(claims: seq<Claim>, canary: Option<Claim>, good: Claim -> bool)
    requires (forall c :: c in claims ==> good(c)) && (canary.Some? ==> good(canary.value))
    ensures OwnKeys(WithCanary(FirstClaims(claims), canary))
    ensures forall c :: c in Listing(WithCanary(FirstClaims(claims), canary)) ==> good(c)
  {
    var m := WithCanary(FirstClaims(claims), canary);
    FirstAre(claims, canary, good);
    ListingSorted(m);
    forall c | c in Listing(m) ensures good(c) {
      assert c in m.Values;
    }
  }

  /** A snapshot that is not empty can be loaded again. */
  lemma SnapshotLoads(raws: seq<Json>, prefix: string, canary: Option<Claim>, claiming: Claiming, valid: Job -> bool)
    requires AllValid(claiming, valid) && (canary.Some? ==> ValidClaim(canary.value, valid))
    ensures SnapshotOf(raws, prefix, canary, claiming).Ok? && SnapshotOf(raws, prefix, canary, claiming).value != [] ==>
            Loadable(prefix, SnapshotOf(raws, prefix, canary, claiming).value, valid)
  {
    if SnapshotOf(raws, prefix, canary, claiming).Ok? {
      CollectValid(raws, claiming, valid);
      ClaimsLoad(Collect(raws, claiming).value, prefix, canary, valid);
    }
  }

  lemma ClaimsLoad(claims: seq<Claim>, prefix: string, canary: Option<Claim>, valid: Job -> bool)
    requires (forall c :: c in claims ==> ValidClaim(c, valid)) && (canary.Some? ==> ValidClaim(canary.value, valid))
    requires ValidPrefix(prefix)
    ensures var jobs := JobsOf(Listing(WithCanary(FirstClaims(claims), canary)));
      jobs != [] ==> Loadable(prefix, jobs, valid)
  {
    var m := WithCanary(FirstClaims(claims), canary);
    ListedAre(claims, canary, c => ValidClaim(c, valid));
    ListingSorted(m);
    ValidListing(Listing(m), prefix, valid);
  }

  lemma ValidListing(claims: seq<Claim>, prefix: string, valid: Job -> bool)
    requires forall c :: c in claims ==> ValidClaim(c, valid)
    requires forall i, j :: 0 <= i < j < |claims| ==> Less(claims[i].key, claims[j].key)
    ensures ValidPrefix(prefix) && JobsOf(claims) != [] ==> Loadable(prefix, JobsOf(claims), valid)
  {
    forall i | 0 <= i < |claims| ensures JobsOf(claims)[i] == claims[i].job && ValidClaim(claims[i], valid) {
    }
  }

  // ----- snapshots of snapshots

  /** Reading the job of a claim again gives the claim. */
  ghost predicate Rereads(claiming: Claiming, again: Claiming) {
    forall raw :: claiming(raw).Ok? ==> SelfClaiming(claiming(raw).value, again)
  }

  lemma {:induction false} CollectRereads(raws: seq<Json>, claiming: Claiming, again: Claiming)
    requires Rereads(claiming, again) && Collect(raws, claiming).Ok?
    ensures forall c :: c in Collect(raws, claiming).value ==> SelfClaiming(c, again)
  {
    if raws != [] {
      CollectRereads(raws[..|raws| - 1], claiming, again);
    }
  }

  /** Making a snapshot of listed jobs gives these jobs. */
  lemma ListingAgain(m: map<string, Claim>, prefix: string, canary: Option<Claim>, again: Claiming)
    requires OwnKeys(m) && ValidPrefix(prefix) && (canary.Some? ==> canary.value.key in m)
    requires forall c :: c in Listing(m) ==> SelfClaiming(c, again)
    ensures SnapshotOf(RawsOf(JobsOf(Listing(m))), prefix, canary, again) == Ok(JobsOf(Listing(m)))
  {
    ListingSorted(m);
    ClaimsOfJobs(Listing(m), again);
    SpelledConsistent(Listing(m));
    SpelledListing(m);
  }

  /** The snapshot of a snapshot's jobs is the snapshot. */
  lemma SnapshotIsFixpoint(raws: seq<Json>, prefix: string, canary: Option<Claim>, claiming: Claiming, again: Claiming)
    requires SnapshotOf(raws, prefix, canary, claiming).Ok? && Rereads(claiming, again)
    requires canary.Some? ==> SelfClaiming(canary.value, again)
    ensures SnapshotOf(RawsOf(SnapshotOf(raws, prefix, canary, claiming).value), prefix, canary, again) ==
            SnapshotOf(raws, prefix, canary, claiming)
  {
    var claims := Collect(raws, claiming).value;
    CollectRereads(raws, claiming, again);
    ListedAre(claims, canary, c => SelfClaiming(c, again));
    ListingAgain(WithCanary(FirstClaims(claims), canary), prefix, canary, again);
  }

  // ----- the program

  /** make_snapshot. The canary is the claim of the job to add if nothing has its key. */
  method MakeSnapshot(raws: seq<Json>, prefix: string, canary: Option<Claim>, claiming: Claiming) returns (r: Result<seq<Job>>)
    ensures r == SnapshotOf(raws, prefix, canary, claiming)
  {
    if !ValidPrefix(prefix) {
      return Raise;
    }
    var jobsByKey: map<string, Claim> := map[];
    var explicitKeys: set<string> := {};
    ghost var claims: seq<Claim> := [];
    var i := 0;
    while i < |raws|
      invariant 0 <= i <= |raws| && Collect(raws[..i], claiming) == Ok(claims)
      invariant Scanned(claims, jobsByKey, explicitKeys)
    {
      var claim := claiming(raws[i]);
      if claim.Raise? {
        CollectRaises(raws, i, claiming);
        return Raise;
      }
      var c := claim.value;
      CollectNext(raws, i, claiming);
      var ok;
      ok, jobsByKey, explicitKeys := AddClaim(jobsByKey, explicitKeys, c, claims);
      if !ok {
        NoSnapshot(raws, i + 1, prefix, canary, claiming);
        return Raise;
      }
      claims := claims + [c];
      i := i + 1;
    }
    assert raws[..i] == raws;
    SnapshotSeen(raws, prefix, canary, claiming, claims, jobsByKey, explicitKeys);
    r := Ok(JobsOf(Listing(WithCanary(jobsByKey, canary))));
  }

  function ExplicitKeys(claims: seq<Claim>): set<string> {
    set x | x in claims && x.explicit :: x.key
  }

  /** What the loop knows of the claims it has seen. */
  ghost predicate Scanned(claims: seq<Claim>, jobsByKey: map<string, Claim>, explicitKeys: set<string>) {
    Consistent(multiset(claims)) && jobsByKey == FirstClaims(claims) && explicitKeys == ExplicitKeys(claims)
  }

  lemma CollectNext<T>(raws: seq<Json>, i: nat, f: Json -> Result<T>)
    requires i < |raws| && Collect(raws[..i], f).Ok? && f(raws[i]).Ok?
    ensures Collect(raws[..i + 1], f) == Ok(Collect(raws[..i], f).value + [f(raws[i]).value])
  {
    assert raws[..i + 1] == raws[..i] + [raws[i]];
    CollectLast(raws[..i], raws[i], f);
  }

  lemma SnapshotSeen(raws: seq<Json>, prefix: string, canary: Option<Claim>, claiming: Claiming,
                     claims: seq<Claim>, jobsByKey: map<string, Claim>, explicitKeys: set<string>)
    requires Collect(raws, claiming) == Ok(claims) && Scanned(claims, jobsByKey, explicitKeys) && ValidPrefix(prefix)
    ensures SnapshotOf(raws, prefix, canary, claiming) == Ok(JobsOf(Listing(WithCanary(jobsByKey, canary))))
  {
  }

  /** The body of the loop: a claim that is ambiguous raises. */
  method AddClaim(jobsByKey: map<string, Claim>, explicitKeys: set<string>, c: Claim, ghost claims: seq<Claim>)
    returns (ok: bool, jobs: map<string, Claim>, explicits: set<string>)
    requires Scanned(claims, jobsByKey, explicitKeys)
    ensures ok <==> Consistent(multiset(claims + [c]))
    ensures ok ==> Scanned(claims + [c], jobs, explicits)
  {
    jobs, explicits := jobsByKey, explicitKeys;
    if c.key in jobsByKey && (c.explicit || c.key in explicitKeys || !PyEq(Obj(jobsByKey[c.key].job), Obj(c.job))) {
      Ambiguous(claims, c);
      return false, jobs, explicits;
    }
    Unambiguous(claims, c);
    OneMoreClaim(claims, c);
    if c.key !in jobsByKey {
      jobs := jobsByKey[c.key := c];
      if c.explicit {
        explicits := explicitKeys + {c.key};
      }
    }
    ok := true;
  }

  lemma {:induction false} CollectRaises<T>(raws: seq<Json>, i: nat, f: Json -> Result<T>)
    requires i < |raws| && f(raws[i]).Raise?
    ensures Collect(raws, f).Raise?
  {
    if i < |raws| - 1 {
      CollectRaises(raws[..|raws| - 1], i, f);
    }
  }

  /** The results of a beginning are a beginning of the results. */
  lemma {:induction false} CollectExtends<T>(raws: seq<Json>, i: nat, f: Json -> Result<T>)
    requires i <= |raws|
    ensures Collect(raws, f).Ok? ==> Collect(raws[..i], f).Ok? && Collect(raws[..i], f).value <= Collect(raws, f).value
  {
    if i < |raws| {
      var n := |raws| - 1;
      CollectExtends(raws[..n], i, f);
      assert raws[..n][..i] == raws[..i];
    } else {
      assert raws[..i] == raws;
    }
  }

  lemma Ambiguous(claims: seq<Claim>, c: Claim)
    requires Consistent(multiset(claims)) && c.key in FirstClaims(claims)
    requires c.explicit || c.key in ExplicitKeys(claims) || !PyEq(Obj(FirstClaims(claims)[c.key].job), Obj(c.job))
    ensures !Consistent(multiset(claims + [c]))
  {
    var all := claims + [c];
    var y := if c.key in ExplicitKeys(claims) then var x :| x in claims && x.explicit && x.key == c.key; x
             else FirstClaims(claims)[c.key];
    assert y in multiset(claims);
    assert multiset(all) == multiset(claims) + multiset{c};
    PyEqReflexive(Obj(c.job));
    assert y != c ==> !Agree(y, c);
    assert y == c ==> c.explicit && multiset(all)[c] >= 2;
  }

  lemma Unambiguous(claims: seq<Claim>, c: Claim)
    requires Consistent(multiset(claims))
    requires c.key in FirstClaims(claims) ==>
      !c.explicit && c.key !in ExplicitKeys(claims) && PyEq(Obj(FirstClaims(claims)[c.key].job), Obj(c.job))
    ensures Consistent(multiset(claims + [c]))
  {
    var all := claims + [c];
    assert multiset(all) == multiset(claims) + multiset{c};
    forall x | x in multiset(claims) && x != c ensures Agree(x, c) && Agree(c, x) {
      AgreesWithFirst(claims, c, x);
    }
    assert c.explicit ==> c !in claims;
  }

  lemma OneMoreClaim(claims: seq<Claim>, c: Claim)
    ensures FirstClaims(claims + [c]) ==
            if c.key in FirstClaims(claims) then FirstClaims(claims) else FirstClaims(claims)[c.key := c]
    ensures ExplicitKeys(claims + [c]) == if c.explicit then ExplicitKeys(claims) + {c.key} else ExplicitKeys(claims)
  {
    assert (claims + [c])[..|claims|] == claims;
  }

  lemma AgreesWithFirst(claims: seq<Claim>, c: Claim, x: Claim)
    requires Consistent(multiset(claims)) && x in claims
    requires c.key in FirstClaims(claims) ==>
      !c.explicit && c.key !in ExplicitKeys(claims) && PyEq(Obj(FirstClaims(claims)[c.key].job), Obj(c.job))
    ensures Agree(x, c) && Agree(c, x)
  {
    if x.key == c.key {
      var first := FirstClaims(claims)[c.key];
      assert first in multiset(claims) && x in multiset(claims);
      PyEqReflexive(Obj(x.job));
      assert x != first ==> Agree(x, first);
      PyEqTransitive(Obj(x.job), Obj(first.job), Obj(c.job));
      PyEqSymmetric(Obj(x.job), Obj(c.job));
    }
  }

  lemma NoSnapshot(raws: seq<Json>, i: nat, prefix: string, canary: Option<Claim>, claiming: Claiming)
    requires i <= |raws| && Collect(raws[..i], claiming).Ok? && !Consistent(multiset(Collect(raws[..i], claiming).value))
    ensures SnapshotOf(raws, prefix, canary, claiming).Raise?
  {
    CollectExtends(raws, i, claiming);
    if Collect(raws, claiming).Ok? {
      StillInconsistent(Collect(raws[..i], claiming).value, Collect(raws, claiming).value);
    }
  }

  lemma StillInconsistent(a: seq<Claim>, b: seq<Claim>)
    requires a <= b && !Consistent(multiset(a))
    ensures !Consistent(multiset(b))
  {
    assert b == a + b[|a|..];
    assert multiset(b) == multiset(a) + multiset(b[|a|..]);
    if Consistent(multiset(b)) {
      forall x | x in multiset(a) && x.explicit ensures multiset(a)[x] == 1 {
        assert x in multiset(b);
      }
      forall x, y | x in multiset(a) && y in multiset(a) && x != y ensures Agree(x, y) {
        assert x in multiset(b) && y in multiset(b);
      }
    }
  }
}
