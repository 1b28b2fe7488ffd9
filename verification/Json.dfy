/** Parsed JSON values with Python's equality, and the order `declared_matches` puts on them. */
module Json {
  import opened Wrappers
  import opened Text
  import opened HomePlaceholder

  datatype Json =
    | Null
    | Bool(b: bool)
    | Num(r: real)
    | Str(s: string)
    | Arr(items: seq<Json>)
    | Obj(fields: map<string, Json>)

  /** True and 1 are equal to Python, as are False and 0. */
  function Numeric(j: Json): Option<real> {
    match j
    case Bool(b) => Some(if b then 1.0 else 0.0)
    case Num(r) => Some(r)
    case _ => None
  }

  /** a == b */
  predicate PyEq(a: Json, b: Json) {
    match a
    case Null => b.Null?
    case Bool(_) => Numeric(b) == Numeric(a)
    case Num(_) => Numeric(b) == Numeric(a)
    case Str(s) => b == Str(s)
    case Arr(items) =>
      b.Arr? && |items| == |b.items| && forall i :: 0 <= i < |items| ==> PyEq(items[i], b.items[i])
    case Obj(fields) =>
      b.Obj? && fields.Keys == b.fields.Keys && forall k :: k in fields ==> PyEq(fields[k], b.fields[k])
  }

  /** declared_matches: omitted fields are the server's business, declared ones must be there. */
  predicate Matches(declared: Json, actual: Json) {
    match declared
    case Obj(fields) =>
      actual.Obj? && forall k :: k in fields ==> k in actual.fields && Matches(fields[k], actual.fields[k])
    case Arr(items) =>
      actual.Arr? && |items| == |actual.items| && forall i :: 0 <= i < |items| ==> Matches(items[i], actual.items[i])
    case _ => PyEq(declared, actual)
  }

  lemma {:induction false} PyEqReflexive(a: Json)
    ensures PyEq(a, a)
  {
    match a
    case Arr(items) => forall i | 0 <= i < |items| ensures PyEq(items[i], items[i]) { PyEqReflexive(items[i]); }
    case Obj(fields) => forall k | k in fields ensures PyEq(fields[k], fields[k]) { PyEqReflexive(fields[k]); }
    case _ =>
  }

  lemma {:induction false} PyEqSymmetric(a: Json, b: Json)
    requires PyEq(a, b)
    ensures PyEq(b, a)
  {
    match a
    case Arr(items) => forall i | 0 <= i < |items| ensures PyEq(b.items[i], items[i]) { PyEqSymmetric(items[i], b.items[i]); }
    case Obj(fields) => forall k | k in fields ensures PyEq(b.fields[k], fields[k]) { PyEqSymmetric(fields[k], b.fields[k]); }
    case _ =>
  }

  lemma {:induction false} PyEqTransitive(a: Json, b: Json, c: Json)
    requires PyEq(a, b) && PyEq(b, c)
    ensures PyEq(a, c)
  {
    match a
    case Arr(items) => forall i | 0 <= i < |items| ensures PyEq(items[i], c.items[i]) { PyEqTransitive(items[i], b.items[i], c.items[i]); }
    case Obj(fields) => forall k | k in fields ensures PyEq(fields[k], c.fields[k]) { PyEqTransitive(fields[k], b.fields[k], c.fields[k]); }
    case _ =>
  }

  // ----- declared_matches, place by place

  datatype Place = Field(name: string) | Item(index: nat)

  /** What a value holds at the end of a path of field names and positions. */
  function At(value: Json, path: seq<Place>): Option<Json>
    decreases value
  {
    if path == [] then Some(value)
    else match path[0]
      case Field(k) => if value.Obj? && k in value.fields then At(value.fields[k], path[1..]) else None
      case Item(i) => if value.Arr? && i < |value.items| then At(value.items[i], path[1..]) else None
  }

  /** Python's == on values that are no lists or dictionaries. */
  predicate SameScalar(a: Json, b: Json) {
    || (a.Null? && b.Null?) || (a.Str? && b.Str? && a.s == b.s) || (a.Bool? && b.Bool? && a.b == b.b)
    || (a.Num? && b.Num? && a.r == b.r)
    || (a.Bool? && b.Num? && b.r == if a.b then 1.0 else 0.0) || (a.Num? && b.Bool? && a.r == if b.b then 1.0 else 0.0)
  }

  /** The same kind of container, lists of the same length, or equal scalars. */
  predicate SameKind(declared: Json, actual: Json) {
    match declared
    case Obj(_) => actual.Obj?
    case Arr(items) => actual.Arr? && |actual.items| == |items|
    case _ => SameScalar(declared, actual)
  }

  /** Wherever the declared value has something, the actual one has the same there. */
  ghost predicate Covers(declared: Json, actual: Json) {
    forall path :: At(declared, path).Some? ==>
      At(actual, path).Some? && SameKind(At(declared, path).value, At(actual, path).value)
  }

  lemma AtField(value: Json, k: string, path: seq<Place>)
    requires value.Obj?
    ensures At(value, [Field(k)] + path) == if k in value.fields then At(value.fields[k], path) else None
  {
    assert ([Field(k)] + path)[1..] == path;
  }

  lemma AtItem(value: Json, i: nat, path: seq<Place>)
    requires value.Arr?
    ensures At(value, [Item(i)] + path) == if i < |value.items| then At(value.items[i], path) else None
  {
    assert ([Item(i)] + path)[1..] == path;
  }

  lemma {:induction false} MatchCovers(declared: Json, actual: Json, path: seq<Place>)
    requires Matches(declared, actual) && At(declared, path).Some?
    ensures At(actual, path).Some? && SameKind(At(declared, path).value, At(actual, path).value)
    decreases declared
  {
    if path != [] {
      match path[0]
      case Field(k) => MatchCovers(declared.fields[k], actual.fields[k], path[1..]);
      case Item(i) => MatchCovers(declared.items[i], actual.items[i], path[1..]);
    }
  }

  lemma CoversField(declared: Json, actual: Json, k: string)
    requires declared.Obj? && actual.Obj? && k in declared.fields && Covers(declared, actual)
    ensures k in actual.fields && Covers(declared.fields[k], actual.fields[k])
  {
    AtField(declared, k, []);
    AtField(actual, k, []);
    assert At(declared, [Field(k)] + []).Some?;
    forall path | At(declared.fields[k], path).Some?
      ensures At(actual.fields[k], path).Some? && SameKind(At(declared.fields[k], path).value, At(actual.fields[k], path).value)
    {
      AtField(declared, k, path);
      AtField(actual, k, path);
      assert At(declared, [Field(k)] + path).Some?;
    }
  }

  lemma CoversItem(declared: Json, actual: Json, i: nat)
    requires declared.Arr? && actual.Arr? && i < |declared.items| == |actual.items| && Covers(declared, actual)
    ensures Covers(declared.items[i], actual.items[i])
  {
    forall path | At(declared.items[i], path).Some?
      ensures At(actual.items[i], path).Some? && SameKind(At(declared.items[i], path).value, At(actual.items[i], path).value)
    {
      AtItem(declared, i, path);
      AtItem(actual, i, path);
      assert At(declared, [Item(i)] + path).Some?;
    }
  }

  /** declared_matches succeeds exactly if the actual value has, at every place where the declared one has
      something, the same kind of container or an equal scalar. */
  lemma {:induction false} MatchesIff(declared: Json, actual: Json)
    ensures Matches(declared, actual) <==> Covers(declared, actual)
    decreases declared
  {
    if Matches(declared, actual) {
      forall path | At(declared, path).Some?
        ensures At(actual, path).Some? && SameKind(At(declared, path).value, At(actual, path).value)
      {
        MatchCovers(declared, actual, path);
      }
    }
    if Covers(declared, actual) {
      assert At(declared, []) == Some(declared) && SameKind(declared, actual);
      match declared
      case Obj(fields) =>
        forall k | k in fields ensures k in actual.fields && Matches(fields[k], actual.fields[k]) {
          CoversField(declared, actual, k);
          MatchesIff(fields[k], actual.fields[k]);
        }
      case Arr(items) =>
        forall i | 0 <= i < |items| ensures Matches(items[i], actual.items[i]) {
          CoversItem(declared, actual, i);
          MatchesIff(items[i], actual.items[i]);
        }
      case _ =>
    }
  }

  // ----- declared_matches is a partial order up to ==

  lemma {:induction false} MatchesReflexive(a: Json)
    ensures Matches(a, a)
  {
    match a
    case Arr(items) => forall i | 0 <= i < |items| ensures Matches(items[i], items[i]) { MatchesReflexive(items[i]); }
    case Obj(fields) => forall k | k in fields ensures Matches(fields[k], fields[k]) { MatchesReflexive(fields[k]); }
    case _ =>
  }

  lemma {:induction false} MatchesTransitive(a: Json, b: Json, c: Json)
    requires Matches(a, b) && Matches(b, c)
    ensures Matches(a, c)
  {
    match a
    case Arr(items) =>
      forall i | 0 <= i < |items| ensures Matches(items[i], c.items[i]) { MatchesTransitive(items[i], b.items[i], c.items[i]); }
    case Obj(fields) =>
      forall k | k in fields ensures k in c.fields && Matches(fields[k], c.fields[k]) {
        MatchesTransitive(fields[k], b.fields[k], c.fields[k]);
      }
    case _ =>
  }

  lemma {:induction false} MatchesAntisymmetric(a: Json, b: Json)
    requires Matches(a, b) && Matches(b, a)
    ensures PyEq(a, b)
  {
    match a
    case Arr(items) =>
      forall i | 0 <= i < |items| ensures PyEq(items[i], b.items[i]) { MatchesAntisymmetric(items[i], b.items[i]); }
    case Obj(fields) =>
      forall k | k in fields ensures PyEq(fields[k], b.fields[k]) { MatchesAntisymmetric(fields[k], b.fields[k]); }
    case _ =>
  }

  lemma {:induction false} EqualMatches(a: Json, b: Json)
    requires PyEq(a, b)
    ensures Matches(a, b) && Matches(b, a)
  {
    match a
    case Arr(items) =>
      forall i | 0 <= i < |items| ensures Matches(items[i], b.items[i]) && Matches(b.items[i], items[i]) {
        EqualMatches(items[i], b.items[i]);
      }
    case Obj(fields) =>
      forall k | k in fields ensures Matches(fields[k], b.fields[k]) && Matches(b.fields[k], fields[k]) {
        EqualMatches(fields[k], b.fields[k]);
      }
    case _ =>
  }

  // ----- transform_home

  function NormalizeString(value: string, home: string): string {
    if value == home then PLACEHOLDER else Normalize(value, home)
  }

  function Transform(value: Json, home: string, materialize: bool): Json {
    match value
    case Str(s) => Str(if materialize then Render(s, home) else NormalizeString(s, home))
    case Arr(items) => Arr(seq(|items|, i requires 0 <= i < |items| => Transform(items[i], home, materialize)))
    case Obj(fields) => Obj(map k | k in fields :: Transform(fields[k], home, materialize))
    case _ => value
  }

  /** No string of the value holds the placeholder. Keys are never transformed. */
  predicate LacksPlaceholder(value: Json) {
    match value
    case Str(s) => !Contains(s, PLACEHOLDER)
    case Arr(items) => forall i :: 0 <= i < |items| ==> LacksPlaceholder(items[i])
    case Obj(fields) => forall k :: k in fields ==> LacksPlaceholder(fields[k])
    case _ => true
  }

  lemma StringRoundTripIff(s: string, home: string)
    requires home != "" && home[0] == '/' && !Contains(home, PLACEHOLDER)
    ensures Render(NormalizeString(s, home), home) == s <==> !Contains(s, PLACEHOLDER)
  {
    RoundTripIff(s, home);
    if s == home {
      RenderAfterHome("", home);
      assert PLACEHOLDER + "" == PLACEHOLDER && home + "" == home;
    }
  }

  /** Exporting to the portable form and materializing it again is the identity, exactly on the values
      whose strings do not hold the placeholder themselves. */
  lemma {:induction false} TransformRoundTripIff(value: Json, home: string)
    requires home != "" && home[0] == '/' && !Contains(home, PLACEHOLDER)
    ensures Transform(Transform(value, home, false), home, true) == value <==> LacksPlaceholder(value)
  {
    var back := Transform(Transform(value, home, false), home, true);
    match value
    case Str(s) => StringRoundTripIff(s, home);
    case Arr(items) =>
      forall i | 0 <= i < |items| ensures back.items[i] == items[i] <==> LacksPlaceholder(items[i]) {
        TransformRoundTripIff(items[i], home);
      }
      assert |back.items| == |items|;
      if LacksPlaceholder(value) {
        assert back.items == items;
      }
    case Obj(fields) =>
      forall k | k in fields ensures back.fields[k] == fields[k] <==> LacksPlaceholder(fields[k]) {
        TransformRoundTripIff(fields[k], home);
      }
      assert back.fields.Keys == fields.Keys;
      if LacksPlaceholder(value) {
        assert back.fields == fields;
      }
    case _ =>
  }

  /** No string of the value is the home or holds a path below it. */
  predicate LacksHome(value: Json, home: string) {
    match value
    case Str(s) => s != home && !Contains(s, home + "/")
    case Arr(items) => forall i :: 0 <= i < |items| ==> LacksHome(items[i], home)
    case Obj(fields) => forall k :: k in fields ==> LacksHome(fields[k], home)
    case _ => true
  }

  /** Normalizing leaves a value alone exactly if its strings lack the home. */
  lemma {:induction false} TransformStableIff(value: Json, home: string)
    requires home != "" && home[0] == '/'
    ensures Transform(value, home, false) == value <==> LacksHome(value, home)
  {
    var out := Transform(value, home, false);
    match value
    case Str(s) =>
      NormalStableIff(s, home);
      assert PLACEHOLDER[0] == '{';
    case Arr(items) =>
      forall i | 0 <= i < |items| ensures out.items[i] == items[i] <==> LacksHome(items[i], home) {
        TransformStableIff(items[i], home);
      }
      assert |out.items| == |items|;
      if LacksHome(value, home) {
        assert out.items == items;
      }
    case Obj(fields) =>
      forall k | k in fields ensures out.fields[k] == fields[k] <==> LacksHome(fields[k], home) {
        TransformStableIff(fields[k], home);
      }
      assert out.fields.Keys == fields.Keys;
      if LacksHome(value, home) {
        assert out.fields == fields;
      }
    case _ =>
  }
}
