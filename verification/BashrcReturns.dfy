/** When the migration of a bashrc returns, and exactly which values it then has collected. */
module BashrcReturns {
  import opened Wrappers
  import opened Text
  import opened Bashrc
  import opened BashrcMigration

  // ----- merging settings

  ghost predicate Member(values: Values, k: string, v: string) {
    k in values && values[k] == v
  }

  /** The line is a setting of the key, and the value is a literal. */
  predicate Gives(item: Item, k: string, v: string) {
    item.kind.Assign? && item.kind.key == k && item.kind.value == Ok(v)
  }

  /** A line that may stand in a block: an old loader line, a literal setting, blank or a remark. */
  predicate Collectable(item: Item) {
    || item.kind.Legacy? || item.kind == Other(true) || (item.kind.Assign? && item.kind.value.Ok?)
  }

  /** The value is there, or one of the lines gives it. */
  ghost predicate Says(pile: seq<Item>, values: Values, k: string, v: string) {
    Member(values, k, v) || exists item :: item in pile && Gives(item, k, v)
  }

  ghost predicate Agreeing(pile: seq<Item>, values: Values) {
    forall k, v, w :: Says(pile, values, k, v) && Says(pile, values, k, w) ==> v == w
  }

  ghost predicate AllCollectable(pile: seq<Item>) {
    forall item :: item in pile ==> Collectable(item)
  }

  lemma SaysLast(init: seq<Item>, last: Item, values: Values, k: string, v: string)
    ensures Says(init + [last], values, k, v) <==> Says(init, values, k, v) || Gives(last, k, v)
  {
    assert last in init + [last];
  }

  lemma MergeGives(values: Values, item: Item)
    requires Collectable(item)
    ensures CollectItem(values, item).Ok? <==> Fits(values, item)
    ensures CollectItem(values, item).Ok? ==>
      forall k, v :: Member(CollectItem(values, item).value, k, v) <==> Member(values, k, v) || Gives(item, k, v)
  {
    if item.kind.Assign? {
      var k, v := item.kind.key, item.kind.value.value;
      assert Gives(item, k, v);
      if k in values {
        assert Member(values, k, values[k]);
      }
    }
  }

  /** The line fits what is there. */
  ghost predicate Fits(values: Values, item: Item) {
    forall k, v, w :: Gives(item, k, v) && Member(values, k, w) ==> v == w
  }

  lemma AgreeingLast(init: seq<Item>, last: Item, values: Values, before: Values)
    requires forall k, v :: Member(before, k, v) <==> Says(init, values, k, v)
    ensures Agreeing(init + [last], values) <==> Fits(before, last)
  {
    forall k, v ensures Says(init + [last], values, k, v) <==> Member(before, k, v) || Gives(last, k, v) {
      SaysLast(init, last, values, k, v);
    }
  }

  lemma AllLast(init: seq<Item>, last: Item)
    ensures AllCollectable(init + [last]) <==> AllCollectable(init) && Collectable(last)
  {
    assert last in init + [last];
  }

  lemma LessAgrees(init: seq<Item>, last: Item, values: Values)
    requires Agreeing(init + [last], values)
    ensures Agreeing(init, values)
  {
    forall k, v | Says(init, values, k, v) ensures Says(init + [last], values, k, v) {
      SaysLast(init, last, values, k, v);
    }
  }

  lemma CollectLast(init: seq<Item>, last: Item, values: Values)
    ensures CollectLines(init + [last], values) ==
            if CollectLines(init, values).Ok? then CollectItem(CollectLines(init, values).value, last) else Raise
  {
    assert (init + [last])[..|init|] == init;
  }

  lemma MergeIff(values: Values, item: Item)
    ensures CollectItem(values, item).Ok? <==> Collectable(item) && Fits(values, item)
  {
    if Collectable(item) {
      MergeGives(values, item);
    }
  }

  /** Collecting succeeds exactly if every line may stand in a block and no two values under one key differ. */
  lemma {:induction false} CollectIff(pile: seq<Item>, values: Values)
    ensures CollectLines(pile, values).Ok? <==> AllCollectable(pile) && Agreeing(pile, values)
    ensures CollectLines(pile, values).Ok? ==>
      forall k, v :: Member(CollectLines(pile, values).value, k, v) <==> Says(pile, values, k, v)
  {
    if pile != [] {
      var init, last := pile[..|pile| - 1], pile[|pile| - 1];
      assert pile == init + [last];
      CollectIff(init, values);
      CollectLast(init, last, values);
      AllLast(init, last);
      if CollectLines(init, values).Ok? {
        CollectNext(init, last, values, CollectLines(init, values).value);
      } else if Agreeing(pile, values) {
        LessAgrees(init, last, values);
      }
    }
  }

  lemma CollectNext(init: seq<Item>, last: Item, values: Values, before: Values)
    requires forall k, v :: Member(before, k, v) <==> Says(init, values, k, v)
    ensures CollectItem(before, last).Ok? <==> Collectable(last) && Agreeing(init + [last], values)
    ensures CollectItem(before, last).Ok? ==>
      forall k, v :: Member(CollectItem(before, last).value, k, v) <==> Says(init + [last], values, k, v)
  {
    AgreeingLast(init, last, values, before);
    MergeIff(before, last);
    if CollectItem(before, last).Ok? {
      MergeGives(before, last);
      forall k, v ensures Member(CollectItem(before, last).value, k, v) <==> Says(init + [last], values, k, v) {
        SaysLast(init, last, values, k, v);
      }
    }
  }

  // ----- the lines of a bashrc

  /** The lines whose settings are collected at a line: those of the block that it closes, unless they are the
      loader's, or the line itself if it is a setting outside a block. */
  function Pile(items: seq<Item>, n: nat, rules: Rules): seq<Item>
    requires n < |items|
  {
    if items[n].kind.End? && Inside(items[..n]) && !IsLoader(LinesOf(Managed(items[..n])), rules) then Managed(items[..n])
    else if items[n].kind.Assign? && !Inside(items[..n]) then [items[n]]
    else []
  }

  /** Blocks begin outside a block and end in one, and there is no credential outside. */
  predicate InPlace(items: seq<Item>, n: nat)
    requires n < |items|
  {
    && (items[n].kind.Begin? ==> !Inside(items[..n])) && (items[n].kind.End? ==> Inside(items[..n]))
    && (items[n].kind.Credential? ==> Inside(items[..n]))
  }

  /** Every line is where it may be, and what is collected there may be collected. */
  ghost predicate Proper(items: seq<Item>, rules: Rules) {
    forall n :: 0 <= n < |items| ==> InPlace(items, n) && AllCollectable(Pile(items, n, rules))
  }

  ghost predicate GivenAt(items: seq<Item>, n: nat, rules: Rules, k: string, v: string)
    requires n < |items|
  {
    exists item :: item in Pile(items, n, rules) && Gives(item, k, v)
  }

  /** The value was collected before, or a line that is collected gives it. */
  ghost predicate Given(items: seq<Item>, collected: Values, rules: Rules, k: string, v: string) {
    Member(collected, k, v) || exists n :: 0 <= n < |items| && GivenAt(items, n, rules, k, v)
  }

  /** No two of these values under one key differ. */
  ghost predicate OneValue(items: seq<Item>, collected: Values, rules: Rules) {
    forall k, v, w :: Given(items, collected, rules, k, v) && Given(items, collected, rules, k, w) ==> v == w
  }

  lemma OneLine(values: Values, item: Item)
    requires item.kind.Assign?
    ensures CollectLines([item], values) == MergeItem(values, item)
  {
    assert [item][..0] == [];
  }

  /** A step is what collecting its pile is, where the line may be. */
  lemma StepIff(mid: Scan, items: seq<Item>, n: nat, rules: Rules)
    requires n < |items| && mid.inside == Inside(items[..n]) && mid.managed == Managed(items[..n])
    ensures Step(mid, items[n], rules).Ok? <==> InPlace(items, n) && CollectLines(Pile(items, n, rules), mid.collected).Ok?
    ensures Step(mid, items[n], rules).Ok? ==>
              Ok(Step(mid, items[n], rules).value.collected) == CollectLines(Pile(items, n, rules), mid.collected)
  {
    if items[n].kind.Assign? {
      OneLine(mid.collected, items[n]);
    }
  }

  lemma PileBefore(init: seq<Item>, last: Item, n: nat, rules: Rules)
    requires n < |init|
    ensures Pile(init + [last], n, rules) == Pile(init, n, rules)
    ensures InPlace(init + [last], n) <==> InPlace(init, n)
  {
    assert (init + [last])[..n] == init[..n];
  }

  lemma ProperLast(init: seq<Item>, last: Item, rules: Rules)
    ensures Proper(init + [last], rules) <==>
            && Proper(init, rules) && InPlace(init + [last], |init|)
            && AllCollectable(Pile(init + [last], |init|, rules))
  {
    forall n | 0 <= n < |init| ensures Pile(init + [last], n, rules) == Pile(init, n, rules) &&
                                       (InPlace(init + [last], n) <==> InPlace(init, n)) {
      PileBefore(init, last, n, rules);
    }
  }

  lemma GivenLast(init: seq<Item>, last: Item, collected: Values, rules: Rules, k: string, v: string)
    ensures Given(init + [last], collected, rules, k, v) <==>
            Given(init, collected, rules, k, v) || GivenAt(init + [last], |init|, rules, k, v)
  {
    forall n | 0 <= n < |init| ensures GivenAt(init + [last], n, rules, k, v) <==> GivenAt(init, n, rules, k, v) {
      PileBefore(init, last, n, rules);
    }
  }

  /** What is given up to a line is what its pile says beside what was given before. */
  lemma GivenIsSaid(init: seq<Item>, last: Item, collected: Values, rules: Rules, before: Values)
    requires forall k, v :: Member(before, k, v) <==> Given(init, collected, rules, k, v)
    ensures forall k, v :: Given(init + [last], collected, rules, k, v) <==>
                           Says(Pile(init + [last], |init|, rules), before, k, v)
  {
    forall k, v ensures Given(init + [last], collected, rules, k, v) <==>
                        Says(Pile(init + [last], |init|, rules), before, k, v) {
      GivenLast(init, last, collected, rules, k, v);
    }
  }

  lemma LessGiven(init: seq<Item>, last: Item, collected: Values, rules: Rules)
    requires OneValue(init + [last], collected, rules)
    ensures OneValue(init, collected, rules)
  {
    forall k, v | Given(init, collected, rules, k, v) ensures Given(init + [last], collected, rules, k, v) {
      GivenLast(init, last, collected, rules, k, v);
    }
  }

  /** The scan gets through exactly if every line is where it may be, what is collected may be collected, and no
      two values differ; it has then collected exactly what is given. */
  lemma {:induction false} ScanIff(items: seq<Item>, collected: Values, rules: Rules)
    ensures ScanItems(Start(collected), items, rules).Ok? <==> Proper(items, rules) && OneValue(items, collected, rules)
    ensures ScanItems(Start(collected), items, rules).Ok? ==>
      forall k, v :: Member(ScanItems(Start(collected), items, rules).value.collected, k, v) <==>
                     Given(items, collected, rules, k, v)
  {
    if items != [] {
      var init, last := items[..|items| - 1], items[|items| - 1];
      assert items == init + [last];
      ScanIff(init, collected, rules);
      ScanLast(Start(collected), init, last, rules);
      ProperLast(init, last, rules);
      if ScanItems(Start(collected), init, rules).Ok? {
        ScanKeeps(init, collected, rules);
        ScanNext(init, last, collected, rules, ScanItems(Start(collected), init, rules).value);
      } else if OneValue(items, collected, rules) {
        LessGiven(init, last, collected, rules);
      }
    }
  }

  lemma ScanNext(init: seq<Item>, last: Item, collected: Values, rules: Rules, mid: Scan)
    requires mid.inside == Inside(init) && mid.managed == Managed(init)
    requires forall k, v :: Member(mid.collected, k, v) <==> Given(init, collected, rules, k, v)
    ensures Step(mid, last, rules).Ok? <==>
            && InPlace(init + [last], |init|) && AllCollectable(Pile(init + [last], |init|, rules))
            && OneValue(init + [last], collected, rules)
    ensures Step(mid, last, rules).Ok? ==>
      forall k, v :: Member(Step(mid, last, rules).value.collected, k, v) <==> Given(init + [last], collected, rules, k, v)
  {
    assert (init + [last])[..|init|] == init;
    var pile := Pile(init + [last], |init|, rules);
    StepIff(mid, init + [last], |init|, rules);
    CollectIff(pile, mid.collected);
    GivenIsSaid(init, last, collected, rules, mid.collected);
  }

  // ----- the whole migration

  /** Every block is closed, and no line that is kept sources the data file. */
  ghost predicate Complete(items: seq<Item>) {
    !Inside(items) && forall item :: item in Kept(items) ==> !item.sourcing
  }

  /** A migration returns exactly if blocks alternate and are closed, nothing outside them looks like a credential
      or sources the data file, every block that is not the loader holds literal settings, old loader lines, blank
      lines and remarks only, settings outside are literal, and no two values differ. It has then collected
      exactly the values of these settings beside those from before. */
  lemma MigrateIff(text: string, collected: Values, rules: Rules)
    ensures var items := ReadAll(Lines(text), Reader(rules));
      && (Migrate(text, collected, rules).Ok? <==>
          Proper(items, rules) && OneValue(items, collected, rules) && Complete(items))
      && (Migrate(text, collected, rules).Ok? ==>
          forall k, v :: Member(Migrate(text, collected, rules).value.1, k, v) <==> Given(items, collected, rules, k, v))
  {
    var items := ReadAll(Lines(text), Reader(rules));
    ScanIff(items, collected, rules);
    if ScanItems(Start(collected), items, rules).Ok? {
      ScanKeeps(items, collected, rules);
    }
  }
}
