/** When reconcile_text succeeds, and which lines it keeps, said without its loop. */
module ScheduleStructure {
  import opened Wrappers
  import opened Text
  import opened Schedules

  lemma {:induction false} ScanAppend(st: Scan, a: seq<Item>, b: seq<Item>)
    ensures ScanItems(st, a + b) ==
            match ScanItems(st, a)
            case Raise => Raise
            case Ok(mid) => ScanItems(mid, b)
    decreases |a|
  {
    if a == [] {
      assert a + b == b;
    } else {
      assert (a + b)[0] == a[0] && (a + b)[1..] == a[1..] + b;
      match Step(st, a[0])
      case Raise =>
      case Ok(next) => ScanAppend(next, a[1..], b);
    }
  }

  // ----- the reference: markers in order, and parity

  /** The markers of a text, in order. */
  function Marks(items: seq<Item>): seq<Mark> {
    if items == [] then []
    else
      var n := |items| - 1;
      Marks(items[..n]) + (if items[n].mark.NoMark? then [] else [items[n].mark])
  }

  /** Begin and end markers alternate, each end closes its begin, and no block occurs twice. */
  ghost predicate Paired(ms: seq<Mark>) {
    && (forall i :: 0 <= i < |ms| && i % 2 == 0 ==> ms[i].Opens?)
    && (forall i :: 0 <= i < |ms| && i % 2 == 1 ==> ms[i - 1].Opens? && ms[i] == Closes(ms[i - 1].block))
    && (forall i, j :: 0 <= i < j < |ms| && i % 2 == 0 && j % 2 == 0 ==> ms[i] != ms[j])
  }

  predicate Closed(ms: seq<Mark>) {
    |ms| % 2 == 0
  }

  /** A line is free when it is no marker and an even number of markers stands before it. */
  predicate Free(items: seq<Item>, i: nat)
    requires i < |items|
  {
    Closed(Marks(items[..i])) && items[i].mark.NoMark?
  }

  /** No free line that nobody claims comes near a managed command. */
  ghost predicate Clean(items: seq<Item>) {
    forall i :: 0 <= i < |items| && Free(items, i) && !items[i].claimed ==> !items[i].near
  }

  /** The free, unclaimed lines, in order. */
  function Kept(items: seq<Item>): seq<string> {
    if items == [] then []
    else
      var n := |items| - 1;
      Kept(items[..n]) + (if Free(items, n) && !items[n].claimed then [items[n].line] else [])
  }

  // ----- the scan meets the reference

  ghost predicate Agrees(st: Scan, items: seq<Item>) {
    var ms := Marks(items);
    && Paired(ms)
    && st.retained == Kept(items)
    && (forall b :: b in st.found <==> Opens(b) in ms)
    && (if Closed(ms) then st.active == None
        else ms[|ms| - 1].Opens? && st.active == Some(ms[|ms| - 1].block))
  }

  lemma OddCloses(ms: seq<Mark>, i: nat)
    requires Paired(ms) && i < |ms| && i % 2 == 1
    ensures ms[i].Closes?
  {
    assert ms[i - 1].Opens?;
  }

  /** In paired markers every begin stands at an even place. */
  lemma OpensAtEven(ms: seq<Mark>, b: Block)
    requires Paired(ms) && Opens(b) in ms
    ensures exists i :: 0 <= i < |ms| && i % 2 == 0 && ms[i] == Opens(b)
  {
    var i :| 0 <= i < |ms| && ms[i] == Opens(b);
    if i % 2 == 1 {
      OddCloses(ms, i);
    }
  }

  /** What one more marker does to the reference. */
  lemma PairedSnoc(ms: seq<Mark>, m: Mark)
    requires !m.NoMark?
    ensures Paired(ms + [m]) <==>
            && Paired(ms)
            && if Closed(ms) then m.Opens? && m !in ms
               else ms[|ms| - 1].Opens? && m == Closes(ms[|ms| - 1].block)
  {
    var all := ms + [m];
    assert all[|ms|] == m && forall i :: 0 <= i < |ms| ==> all[i] == ms[i];
    if Paired(all) {
      assert Paired(ms);
      if Closed(ms) && m in ms {
        OpensAtEven(ms, m.block);
      }
    }
  }

  lemma CleanSnoc(items: seq<Item>, item: Item)
    ensures Clean(items + [item]) <==>
            Clean(items) && (Closed(Marks(items)) && item.mark.NoMark? && !item.claimed ==> !item.near)
  {
    var all := items + [item];
    assert all[..|items|] == items;
    assert forall i :: 0 <= i < |items| ==> all[..i] == items[..i] && all[i] == items[i];
    assert forall i :: 0 <= i < |items| ==> Free(all, i) == Free(items, i);
    assert Free(all, |items|) == (Closed(Marks(items)) && item.mark.NoMark?);
    if Clean(all) {
      forall i | 0 <= i < |items| && Free(items, i) && !items[i].claimed ensures !items[i].near {
        assert Free(all, i);
      }
    }
  }

  /** One more item, as the reference sees it. */
  lemma Snoc(items: seq<Item>, item: Item)
    ensures Marks(items + [item]) == Marks(items) + (if item.mark.NoMark? then [] else [item.mark])
    ensures Kept(items + [item]) ==
            Kept(items) + (if Closed(Marks(items)) && item.mark.NoMark? && !item.claimed then [item.line] else [])
  {
    var all := items + [item];
    assert all[..|items|] == items;
    assert Free(all, |items|) == (Closed(Marks(items)) && item.mark.NoMark?);
  }

  lemma MarkerStepAgrees(st: Scan, items: seq<Item>, item: Item)
    requires Agrees(st, items) && !item.mark.NoMark?
    ensures Step(st, item).Ok? <==> Paired(Marks(items) + [item.mark])
    ensures Step(st, item).Ok? ==> Agrees(Step(st, item).value, items + [item])
  {
    PairedSnoc(Marks(items), item.mark);
    if Step(st, item).Ok? {
      Snoc(items, item);
      MarkerExtends(st, Marks(items), item);
    }
  }

  lemma MarkerExtends(st: Scan, ms: seq<Mark>, item: Item)
    requires !item.mark.NoMark? && Step(st, item).Ok?
    requires forall b :: b in st.found <==> Opens(b) in ms
    requires if Closed(ms) then st.active == None
             else ms[|ms| - 1].Opens? && st.active == Some(ms[|ms| - 1].block)
    ensures var next, all := Step(st, item).value, ms + [item.mark];
            && next.retained == st.retained
            && (forall b :: b in next.found <==> Opens(b) in all)
            && (if Closed(all) then next.active == None
                else all[|all| - 1].Opens? && next.active == Some(all[|all| - 1].block))
  {
    var next, all := Step(st, item).value, ms + [item.mark];
    forall b ensures b in next.found <==> Opens(b) in all {
      assert Opens(b) in all <==> Opens(b) in ms || Opens(b) == item.mark;
    }
  }

  lemma PlainStepAgrees(st: Scan, items: seq<Item>, item: Item)
    requires Agrees(st, items) && item.mark.NoMark?
    ensures Step(st, item).Ok? <==> (Closed(Marks(items)) && !item.claimed ==> !item.near)
    ensures Step(st, item).Ok? ==> Agrees(Step(st, item).value, items + [item])
  {
    Snoc(items, item);
    assert Marks(items + [item]) == Marks(items);
  }

  lemma {:induction false} ScanMeetsReference(items: seq<Item>)
    ensures var r := ScanItems(START, items);
            && (r.Ok? <==> Paired(Marks(items)) && Clean(items))
            && (r.Ok? ==> Agrees(r.value, items))
    decreases |items|
  {
    if items != [] {
      var n := |items| - 1;
      var init, item := items[..n], items[n];
      assert items == init + [item];
      ScanMeetsReference(init);
      ScanAppend(START, init, [item]);
      CleanSnoc(init, item);
      Snoc(init, item);
      if item.mark.NoMark? {
        assert Marks(items) == Marks(init);
      } else {
        PairedSnoc(Marks(init), item.mark);
      }
      match ScanItems(START, init)
      case Raise =>
      case Ok(st) =>
        assert [item][1..] == [];
        if item.mark.NoMark? { PlainStepAgrees(st, init, item); } else { MarkerStepAgrees(st, init, item); }
    }
  }

  /** reconcile_text's scan succeeds exactly when the marker lines pair up, no block is left open and
      no free unclaimed line is a near match; what it keeps is the free unclaimed lines, in order. */
  lemma PrefixIff(current: string, jobs: seq<Job>, home: string, private: string)
    requires Contract(jobs, home).Ok? && PrivateLines(private, home).Ok?
    ensures var items := ReadAll(Lines(current), Contract(jobs, home).value,
                                 Elements(PrivateLines(private, home).value), home);
            && (Prefix(current, jobs, home, private).Ok? <==>
                  Paired(Marks(items)) && Closed(Marks(items)) && Clean(items))
            && (Prefix(current, jobs, home, private).Ok? ==>
                  Prefix(current, jobs, home, private).value == Pad(Join(Kept(items))))
  {
    ScanMeetsReference(ReadAll(Lines(current), Contract(jobs, home).value,
                               Elements(PrivateLines(private, home).value), home));
  }
}
