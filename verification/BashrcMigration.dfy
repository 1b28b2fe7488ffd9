/** What migrating a bashrc keeps, what it collects, and that doing it again changes nothing. */
module BashrcMigration {
  import opened Wrappers
  import opened Text
  import opened Bashrc

  // ----- an independent reading of the lines, by parity of the markers

  /** An odd number of markers came before. */
  predicate Inside(items: seq<Item>) {
    items != [] &&
    var n := |items| - 1;
    if items[n].kind.Begin? || items[n].kind.End? then !Inside(items[..n]) else Inside(items[..n])
  }

  /** The lines outside blocks that are neither old loader lines nor migrated settings. */
  function Kept(items: seq<Item>): seq<Item> {
    if items == [] then []
    else
      var n := |items| - 1;
      Kept(items[..n]) + if !Inside(items[..n]) && items[n].kind.Other? then [items[n]] else []
  }

  /** The lines inside blocks. */
  function Managed(items: seq<Item>): seq<Item> {
    if items == [] then []
    else
      var n := |items| - 1;
      Managed(items[..n]) +
      if Inside(items[..n]) && !items[n].kind.Begin? && !items[n].kind.End? then [items[n]] else []
  }

  /** The scan keeps exactly those lines. */
  lemma {:induction false} ScanKeeps(items: seq<Item>, collected: Values, rules: Rules)
    requires ScanItems(Start(collected), items, rules).Ok?
    ensures var st := ScanItems(Start(collected), items, rules).value;
      st.output == Kept(items) && st.inside == Inside(items) && st.managed == Managed(items)
  {
    if items != [] {
      ScanKeeps(items[..|items| - 1], collected, rules);
    }
  }

  lemma {:induction false} KeptAreOther(items: seq<Item>)
    ensures forall item :: item in Kept(items) ==> item in items && item.kind.Other?
  {
    if items != [] {
      KeptAreOther(items[..|items| - 1]);
    }
  }

  // ----- nothing is lost

  ghost predicate Extends(before: Values, after: Values) {
    forall k :: k in before ==> k in after && after[k] == before[k]
  }

  predicate Holds(values: Values, item: Item)
    requires item.kind.Assign?
  {
    item.kind.value.Ok? && item.kind.key in values && values[item.kind.key] == item.kind.value.value
  }

  lemma {:induction false} CollectedFromBlock(items: seq<Item>, values: Values)
    requires CollectLines(items, values).Ok?
    ensures Extends(values, CollectLines(items, values).value)
    ensures forall item :: item in items && item.kind.Assign? ==> Holds(CollectLines(items, values).value, item)
  {
    if items != [] {
      CollectedFromBlock(items[..|items| - 1], values);
    }
  }

  /** A migrated setting outside a block, or inside one that is closed and is not the loader. */
  ghost predicate MustCollect(items: seq<Item>, i: nat, rules: Rules)
    requires i < |items|
  {
    && items[i].kind.Assign?
    && (Inside(items[..i]) ==>
          exists j :: i < j < |items| && items[j].kind.End? && !IsLoader(LinesOf(Managed(items[..j])), rules))
  }

  lemma {:induction false} InManaged(items: seq<Item>, i: nat)
    requires i < |items| && Inside(items[..i]) && !items[i].kind.Begin? && !items[i].kind.End?
    ensures items[i] in Managed(items)
  {
    var n := |items| - 1;
    if i < n {
      assert items[..n][..i] == items[..i];
      InManaged(items[..n], i);
    }
  }

  /** One more line keeps what was collected, and a block that it closes adds the values of its settings. */
  lemma StepCollects(mid: Scan, item: Item, rules: Rules)
    requires Step(mid, item, rules).Ok?
    ensures Extends(mid.collected, Step(mid, item, rules).value.collected)
    ensures !mid.inside && item.kind.Assign? ==> Holds(Step(mid, item, rules).value.collected, item)
    ensures item.kind.End? && !IsLoader(LinesOf(mid.managed), rules) ==>
              forall m :: m in mid.managed && m.kind.Assign? ==> Holds(Step(mid, item, rules).value.collected, m)
  {
    if item.kind.End? && !IsLoader(LinesOf(mid.managed), rules) {
      CollectedFromBlock(mid.managed, mid.collected);
    }
  }

  /** Every value of a removed setting is among the collected ones, and none before is lost. */
  lemma {:induction false} ScanCollects(items: seq<Item>, collected: Values, rules: Rules)
    requires ScanItems(Start(collected), items, rules).Ok?
    ensures var st := ScanItems(Start(collected), items, rules).value;
      && Extends(collected, st.collected)
      && forall i :: 0 <= i < |items| && MustCollect(items, i, rules) ==> Holds(st.collected, items[i])
  {
    if items != [] {
      var n := |items| - 1;
      var init := items[..n];
      ScanCollects(init, collected, rules);
      ScanKeeps(init, collected, rules);
      StepCollects(ScanItems(Start(collected), init, rules).value, items[n], rules);
      var st := ScanItems(Start(collected), items, rules).value;
      forall i | 0 <= i < |items| && MustCollect(items, i, rules) ensures Holds(st.collected, items[i]) {
        StillHolds(items, i, rules);
        if i < n && Inside(items[..i]) {
          assert init[..i] == items[..i];
          InManaged(init, i);
        }
      }
    }
  }

  /** What had to be collected before the last item still has to be, or the last item closes its block. */
  lemma StillHolds(items: seq<Item>, i: nat, rules: Rules)
    requires i < |items| && MustCollect(items, i, rules)
    ensures var n := |items| - 1;
      if i == n then !Inside(items[..n]) && items[n].kind.Assign?
      else MustCollect(items[..n], i, rules) ||
           (Inside(items[..i]) && items[n].kind.End? && !IsLoader(LinesOf(Managed(items[..n])), rules))
  {
    var n := |items| - 1;
    if i < n {
      assert items[..n][..i] == items[..i];
      if Inside(items[..i]) {
        var j :| i < j < |items| && items[j].kind.End? && !IsLoader(LinesOf(Managed(items[..j])), rules);
        assert j < n ==> items[..n][..j] == items[..j] && items[..n][j] == items[j];
      }
    }
  }

  /** A block begins here, or a setting to migrate stands here. */
  predicate Marks(item: Item) {
    item.kind.Begin? || item.kind.Assign?
  }

  /** The items before the first such place, or all of them. */
  function Head(items: seq<Item>): (h: seq<Item>)
    ensures h <= items
  {
    if items == [] then []
    else
      var n := |items| - 1;
      var h := Head(items[..n]);
      if |h| < n || Marks(items[n]) then h else items
  }

  lemma HeadLast(items: seq<Item>, last: Item)
    ensures Head(items + [last]) == if Head(items) != items || Marks(last) then Head(items) else items + [last]
  {
    assert (items + [last])[..|items|] == items;
  }

  /** The first block or migrated setting fixes the place; until then the place is the end. */
  lemma StepPlaces(mid: Scan, item: Item, rules: Rules)
    requires Step(mid, item, rules).Ok? && (mid.inside ==> mid.insertion.Some?)
    ensures var st := Step(mid, item, rules).value;
      && (st.insertion.None? <==> mid.insertion.None? && !Marks(item)) && (st.inside ==> st.insertion.Some?)
      && (st.insertion.Some? ==> Insertion(st) == Insertion(mid))
  {
  }

  /** The loader goes where the first block or migrated setting was among the kept lines, or to the end. */
  lemma {:induction false} ScanPlaces(items: seq<Item>, collected: Values, rules: Rules)
    requires ScanItems(Start(collected), items, rules).Ok?
    ensures var st := ScanItems(Start(collected), items, rules).value;
      && Insertion(st) == |Kept(Head(items))| && (st.insertion.None? <==> Head(items) == items)
      && (st.inside ==> st.insertion.Some?)
  {
    if items != [] {
      var init, last := items[..|items| - 1], items[|items| - 1];
      assert items == init + [last];
      ScanPlaces(init, collected, rules);
      ScanKeeps(init, collected, rules);
      ScanKeeps(items, collected, rules);
      HeadLast(init, last);
      StepPlaces(ScanItems(Start(collected), init, rules).value, last, rules);
    }
  }

  /** A run that succeeds keeps the other lines in order, with the loader block where the first block or
      migrated setting was, or at the end, and has collected what it removed. */
  lemma MigrationKeepsLines(items: seq<Item>, collected: Values, rules: Rules)
    requires MigrateItems(items, collected, rules).Ok?
    ensures var done := MigrateItems(items, collected, rules).value;
      && |Kept(Head(items))| <= |Kept(items)|
      && done.0 == Assembled(Ended(LinesOf(Kept(items))), |Kept(Head(items))|, rules)
      && Extends(collected, done.1)
      && forall i :: 0 <= i < |items| && MustCollect(items, i, rules) ==> Holds(done.1, items[i])
  {
    ScanKeeps(items, collected, rules);
    ScanPlaces(items, collected, rules);
    ScanCollects(items, collected, rules);
  }

  // ----- doing it again

  lemma ScanLast(st: Scan, items: seq<Item>, last: Item, rules: Rules)
    ensures ScanItems(st, items + [last], rules) ==
            if ScanItems(st, items, rules).Ok? then Step(ScanItems(st, items, rules).value, last, rules) else Raise
  {
    assert (items + [last])[..|items|] == items;
  }

  lemma {:induction false} ScanAppend(st: Scan, a: seq<Item>, b: seq<Item>, rules: Rules)
    ensures ScanItems(st, a + b, rules) ==
            if ScanItems(st, a, rules).Ok? then ScanItems(ScanItems(st, a, rules).value, b, rules) else Raise
  {
    if b == [] {
      assert a + b == a;
    } else {
      var init, last := b[..|b| - 1], b[|b| - 1];
      assert b == init + [last] && a + b == (a + init) + [last];
      ScanAppend(st, a, init, rules);
      ScanLast(st, a + init, last, rules);
      if ScanItems(st, a, rules).Ok? {
        ScanLast(ScanItems(st, a, rules).value, init, last, rules);
      }
    }
  }

  /** Kept lines are kept again. */
  lemma {:induction false} ScanOthers(st: Scan, items: seq<Item>, rules: Rules)
    requires !st.inside && forall i :: 0 <= i < |items| ==> items[i].kind.Other?
    ensures ScanItems(st, items, rules) == Ok(st.(output := st.output + items))
  {
    if items == [] {
      assert st.output + items == st.output;
    } else {
      var n := |items| - 1;
      ScanOthers(st, items[..n], rules);
      assert st.output + items[..n] + [items[n]] == st.output + items;
    }
  }

  /** Lines inside a block pile up. */
  lemma {:induction false} ScanInside(st: Scan, items: seq<Item>, rules: Rules)
    requires st.inside && forall i :: 0 <= i < |items| ==> !items[i].kind.Begin? && !items[i].kind.End?
    ensures ScanItems(st, items, rules) == Ok(st.(managed := st.managed + items))
  {
    if items == [] {
      assert st.managed + items == st.managed;
    } else {
      var n := |items| - 1;
      ScanInside(st, items[..n], rules);
      assert st.managed + items[..n] + [items[n]] == st.managed + items;
    }
  }

  lemma ScanOne(st: Scan, items: seq<Item>, item: Item, mid: Scan, end: Scan, rules: Rules)
    requires ScanItems(st, items, rules) == Ok(mid) && Step(mid, item, rules) == Ok(end)
    ensures ScanItems(st, items + [item], rules) == Ok(end)
  {
    ScanLast(st, items, item, rules);
  }

  /** What the proofs use of reading a line. */
  ghost predicate GoodReader(read: string -> Item, loader: seq<string>) {
    && (forall l :: read(l).line == l)
    && (forall l :: read(l + "\n").kind == read(l).kind && read(l + "\n").sourcing == read(l).sourcing)
    && IsLine(MARK_BEGIN + "\n") && read(MARK_BEGIN + "\n").kind.Begin?
    && IsLine(MARK_END + "\n") && read(MARK_END + "\n").kind.End?
    && forall l :: l in loader ==> IsLine(l) && !read(l).kind.Begin? && !read(l).kind.End?
  }

  /** The loader's lines are complete, and none is a marker. */
  ghost predicate GoodLoader(rules: Rules) {
    forall l :: l in rules.loader ==> IsLine(l) && !Read(l, rules).kind.Begin? && !Read(l, rules).kind.End?
  }

  lemma MarkIsRead(mark: string)
    requires mark != "" && Unbroken(mark) && !IsSpace(mark[0]) && !IsSpace(mark[|mark| - 1])
    ensures Bare(mark + "\n") == mark && Strip(mark) == mark && IsLine(mark + "\n")
  {
    BareNewline(mark);
    assert (mark + "\n")[..|mark|] == mark;
  }

  lemma BeginIsRead(rules: Rules)
    ensures IsLine(MARK_BEGIN + "\n") && Read(MARK_BEGIN + "\n", rules).kind.Begin?
  {
    MarkIsRead(MARK_BEGIN);
  }

  lemma EndIsRead(rules: Rules)
    ensures IsLine(MARK_END + "\n") && Read(MARK_END + "\n", rules).kind.End?
  {
    MarkIsRead(MARK_END);
  }

  lemma BreakIsDropped(line: string, rules: Rules)
    ensures Read(line + "\n", rules).kind == Read(line, rules).kind
    ensures Read(line + "\n", rules).sourcing == Read(line, rules).sourcing
  {
    BareNewline(line);
  }

  lemma ReaderIsGood(rules: Rules)
    requires GoodLoader(rules)
    ensures GoodReader(Reader(rules), rules.loader)
  {
    BeginIsRead(rules);
    EndIsRead(rules);
    forall l ensures Read(l + "\n", rules).kind == Read(l, rules).kind && Read(l + "\n", rules).sourcing == Read(l, rules).sourcing {
      BreakIsDropped(l, rules);
    }
  }

  /** Lines that would be kept as they are. */
  ghost predicate Keepable(lines: seq<string>, read: string -> Item) {
    forall i :: 0 <= i < |lines| ==> read(lines[i]).kind.Other? && !read(lines[i]).sourcing
  }

  lemma ReadAppend(a: seq<string>, b: seq<string>, read: string -> Item)
    ensures ReadAll(a + b, read) == ReadAll(a, read) + ReadAll(b, read)
  {
  }

  lemma ReadSlices(lines: seq<string>, at: nat, read: string -> Item)
    requires at <= |lines|
    ensures ReadAll(lines[..at], read) == ReadAll(lines, read)[..at]
    ensures ReadAll(lines[at..], read) == ReadAll(lines, read)[at..]
  {
  }

  lemma ReadAssembled(lines: seq<string>, at: nat, read: string -> Item, rules: Rules)
    requires at <= |lines|
    ensures ReadAll(Assembled(lines, at, rules), read) ==
            ReadAll(lines, read)[..at] + [read(MARK_BEGIN + "\n")] + ReadAll(rules.loader, read) + [read(MARK_END + "\n")]
              + ReadAll(lines, read)[at..]
  {
    var open, close := [MARK_BEGIN + "\n"], [MARK_END + "\n"];
    ReadSlices(lines, at, read);
    ReadAppend(lines[..at] + LoaderBlock(rules), lines[at..], read);
    ReadAppend(lines[..at], LoaderBlock(rules), read);
    ReadAppend(open + rules.loader, close, read);
    ReadAppend(open, rules.loader, read);
    Associates(ReadAll(lines[..at], read), ReadAll(open + rules.loader, read), ReadAll(close, read));
    Associates(ReadAll(lines[..at], read), ReadAll(open, read), ReadAll(rules.loader, read));
  }

  lemma LinesOfRead(lines: seq<string>, read: string -> Item)
    requires forall l :: read(l).line == l
    ensures LinesOf(ReadAll(lines, read)) == lines
  {
  }

  /** A new text's own lines give that text again, whatever was collected before, and collect nothing. */
  lemma AssembledAgain(lines: seq<string>, at: nat, collected: Values, read: string -> Item, rules: Rules)
    requires at <= |lines| && GoodReader(read, rules.loader) && Ended(lines) == lines && Keepable(lines, read)
    ensures MigrateItems(ReadAll(Assembled(lines, at, rules), read), collected, rules) == Ok((Assembled(lines, at, rules), collected))
  {
    var kept, loader := ReadAll(lines, read), ReadAll(rules.loader, read);
    ReadAssembled(lines, at, read, rules);
    LinesOfRead(rules.loader, read);
    LinesOfRead(lines, read);
    assert forall i :: 0 <= i < |loader| ==> rules.loader[i] in rules.loader;
    ScanAssembled(kept, at, read(MARK_BEGIN + "\n"), loader, read(MARK_END + "\n"), collected, rules);
  }

  lemma ScanToLoader(a: seq<Item>, open: Item, loader: seq<Item>, collected: Values, rules: Rules)
    requires (forall i :: 0 <= i < |a| ==> a[i].kind.Other?) && open.kind.Begin?
    requires forall i :: 0 <= i < |loader| ==> !loader[i].kind.Begin? && !loader[i].kind.End?
    ensures ScanItems(Start(collected), a + [open] + loader, rules) == Ok(Scan(a, Some(|a|), true, loader, collected))
  {
    var s0 := Start(collected);
    var s2 := Scan(a, Some(|a|), true, [], collected);
    ScanOthers(s0, a, rules);
    assert s0.output + a == a;
    ScanOne(s0, a, open, Scan(a, None, false, [], collected), s2, rules);
    ScanInside(s2, loader, rules);
    assert s2.managed + loader == loader;
    ScanAppend(s0, a + [open], loader, rules);
  }

  lemma ScanAssembled(kept: seq<Item>, at: nat, open: Item, loader: seq<Item>, close: Item, collected: Values, rules: Rules)
    requires at <= |kept| && (forall i :: 0 <= i < |kept| ==> kept[i].kind.Other?)
    requires open.kind.Begin? && close.kind.End? && LinesOf(loader) == rules.loader
    requires forall i :: 0 <= i < |loader| ==> !loader[i].kind.Begin? && !loader[i].kind.End?
    ensures ScanItems(Start(collected), kept[..at] + [open] + loader + [close] + kept[at..], rules) ==
            Ok(Scan(kept, Some(at), false, loader, collected))
  {
    var a, b := kept[..at], kept[at..];
    var s3 := Scan(a, Some(at), true, loader, collected);
    var s4 := Scan(a, Some(at), false, loader, collected);
    ScanToLoader(a, open, loader, collected, rules);
    ScanOne(Start(collected), a + [open] + loader, close, s3, s4, rules);
    ScanOthers(s4, b, rules);
    assert a + b == kept;
    ScanAppend(Start(collected), a + [open] + loader + [close], b, rules);
  }

  // ----- the lines of a migrated text are complete

  lemma {:induction false} InitComplete(lines: seq<string>)
    requires LineList(lines) && lines != []
    ensures AllLines(lines[..|lines| - 1])
    ensures IsLine(lines[|lines| - 1]) || Unbroken(lines[|lines| - 1])
  {
    if |lines| > 1 {
      InitComplete(lines[1..]);
      assert lines[..|lines| - 1] == [lines[0]] + lines[1..][..|lines| - 2];
    }
  }

  /** Only the last line may lack its break. */
  ghost predicate AlmostComplete(lines: seq<string>) {
    lines != [] ==> AllLines(lines[..|lines| - 1]) && (IsLine(lines[|lines| - 1]) || Unbroken(lines[|lines| - 1]))
  }

  lemma {:induction false} KeptComplete(items: seq<Item>)
    requires AllLines(LinesOf(items))
    ensures AllLines(LinesOf(Kept(items)))
  {
    KeptAreOther(items);
    forall l | l in LinesOf(Kept(items)) ensures IsLine(l) {
      var i :| 0 <= i < |Kept(items)| && Kept(items)[i].line == l;
      assert Kept(items)[i] in items;
      var j :| 0 <= j < |items| && items[j] == Kept(items)[i];
      assert LinesOf(items)[j] == l;
    }
  }

  lemma KeptAlmostComplete(items: seq<Item>)
    requires AlmostComplete(LinesOf(items))
    ensures AlmostComplete(LinesOf(Kept(items)))
  {
    if items != [] {
      var n := |items| - 1;
      assert LinesOf(items)[..n] == LinesOf(items[..n]);
      KeptComplete(items[..n]);
      var before, kept := LinesOf(Kept(items[..n])), LinesOf(Kept(items));
      if Kept(items) == Kept(items[..n]) {
        assert kept != [] ==> kept[|kept| - 1] in kept;
      } else {
        assert kept == before + [items[n].line] && kept[..|kept| - 1] == before;
        assert LinesOf(items)[n] == items[n].line;
      }
    }
  }

  lemma EndedComplete(lines: seq<string>)
    requires AlmostComplete(lines)
    ensures AllLines(Ended(lines)) && Ended(Ended(lines)) == Ended(lines) && |Ended(lines)| == |lines|
  {
    if lines != [] {
      var n := |lines| - 1;
      var last := lines[n];
      assert lines == lines[..n] + [last];
      assert (last + "\n")[..|last|] == last && EndsWith(last + "\n", "\n");
    }
  }

  lemma EndedKeepable(lines: seq<string>, read: string -> Item, loader: seq<string>)
    requires GoodReader(read, loader) && Keepable(lines, read)
    ensures Keepable(Ended(lines), read)
  {
  }

  lemma AssembledComplete(lines: seq<string>, at: nat, read: string -> Item, rules: Rules)
    requires AllLines(lines) && at <= |lines| && GoodReader(read, rules.loader)
    ensures Lines(Join(Assembled(lines, at, rules))) == Assembled(lines, at, rules)
  {
    AllLinesIsLineList(Assembled(lines, at, rules));
    LinesOfJoin(Assembled(lines, at, rules));
  }

  /** For the lines of any text, and any such reader. */
  lemma MigrateAgain(lines: seq<string>, collected: Values, again: Values, read: string -> Item, rules: Rules)
    requires GoodReader(read, rules.loader) && LineList(lines)
    requires MigrateItems(ReadAll(lines, read), collected, rules).Ok?
    ensures var out := MigrateItems(ReadAll(lines, read), collected, rules).value.0;
      Lines(Join(out)) == out && MigrateItems(ReadAll(out, read), again, rules) == Ok((out, again))
  {
    var items := ReadAll(lines, read);
    assert LinesOf(items) == lines;
    if lines != [] {
      InitComplete(lines);
    }
    ScanKeeps(items, collected, rules);
    KeptAreOther(items);
    var st := ScanItems(Start(collected), items, rules).value;
    var kept := LinesOf(Kept(items));
    KeptAlmostComplete(items);
    EndedComplete(kept);
    KeptKeepable(items, lines, read);
    EndedKeepable(kept, read, rules.loader);
    AssembledAgain(Ended(kept), Insertion(st), again, read, rules);
    AssembledComplete(Ended(kept), Insertion(st), read, rules);
  }

  lemma KeptKeepable(items: seq<Item>, lines: seq<string>, read: string -> Item)
    requires items == ReadAll(lines, read) && (forall l :: read(l).line == l)
    requires forall item :: item in Kept(items) ==> item in items && item.kind.Other? && !item.sourcing
    ensures Keepable(LinesOf(Kept(items)), read)
  {
    var kept := LinesOf(Kept(items));
    forall i | 0 <= i < |kept| ensures read(kept[i]) == Kept(items)[i] {
      assert Kept(items)[i] in items;
      var j :| 0 <= j < |items| && items[j] == Kept(items)[i];
    }
  }

  /** Migrating the migrated text gives the same text and collects nothing, whatever was collected before. */
  lemma MigrateIsIdempotent(text: string, collected: Values, again: Values, rules: Rules)
    requires GoodLoader(rules) && Migrate(text, collected, rules).Ok?
    ensures Migrate(Migrate(text, collected, rules).value.0, again, rules) == Ok((Migrate(text, collected, rules).value.0, again))
  {
    LinesShape(text);
    ReaderIsGood(rules);
    MigrateAgain(Lines(text), collected, again, Reader(rules), rules);
  }

  // ----- the managed lines of all blocks pile up

  lemma {:induction false} CollectRefuses(items: seq<Item>, values: Values, i: nat)
    requires i < |items| && (items[i].kind == Other(false) || items[i].kind.Credential?)
    ensures CollectLines(items, values).Raise?
  {
    if i < |items| - 1 {
      CollectRefuses(items[..|items| - 1], values, i);
    }
  }

  lemma OpenBlock(st: Scan, block: seq<Item>, open: Item, rules: Rules)
    requires !st.inside && open.kind.Begin?
    requires forall b :: 0 <= b < |block| ==> !block[b].kind.Begin? && !block[b].kind.End?
    ensures ScanItems(st, [open] + block, rules) ==
            Ok(st.(inside := true, insertion := Some(Insertion(st)), managed := st.managed + block))
  {
    var s1 := st.(inside := true, insertion := Some(Insertion(st)));
    assert [open][..0] == [];
    assert ScanItems(st, [open], rules) == Ok(s1);
    ScanInside(s1, block, rules);
    ScanAppend(st, [open], block, rules);
  }

  /** After a block with the loader, a second block fails exactly if it is not empty, even with nothing but
      comments in it: its lines are added to the loader's, and the loader's are then unsupported commands. */
  lemma SecondBlockRaises(st: Scan, block: seq<Item>, open: Item, close: Item, i: nat, rules: Rules)
    requires !st.inside && open.kind.Begin? && close.kind.End?
    requires forall b :: 0 <= b < |block| ==> !block[b].kind.Begin? && !block[b].kind.End?
    requires IsLoader(LinesOf(st.managed), rules)
    requires i < |st.managed| && (st.managed[i].kind == Other(false) || st.managed[i].kind.Credential?)
    ensures ScanItems(st, [open] + block + [close], rules).Raise? <==> block != []
  {
    OpenBlock(st, block, open, rules);
    assert ([open] + block + [close])[..|block| + 1] == [open] + block;
    var managed := st.managed + block;
    if block == [] {
      assert managed == st.managed;
    } else {
      assert |LinesOf(managed)| > |rules.loader|;
      CollectRefuses(managed, st.collected, i);
    }
  }
}
