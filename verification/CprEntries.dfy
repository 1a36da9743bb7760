/** What the aggregated sdelta data is, entry by entry, in terms of the corners alone, and when
    an entry is cut by more than another corner needs. */
module CprEntries {
  import opened CInt
  import opened CprSdelta

  function Distance(a: int, b: int): int { if a <= b then b - a else a - b }

  /** The least distance of an open-loop voltage from the largest before it. */
  function Gap(items: seq<Item>): int {
    if items == [] then INT_MAX
    else Min(Gap(items[..|items| - 1]), Distance(items[|items| - 1].open, MaxOpen(items[..|items| - 1])))
  }

  /** An entry bounded by the whole steps in a distance, of which INT_MAX stands for none. */
  function Cut(entry: int, gap: int, step: int): int
    requires step > 0
  {
    if gap == INT_MAX then entry else Min(entry, TruncDiv(gap, step))
  }

  lemma CutTwice(entry: int, gap: int, gap': int, step: int)
    requires step > 0 && 0 < gap <= INT_MAX && 0 < gap' <= INT_MAX
    ensures Cut(Cut(entry, gap, step), gap', step) == Cut(entry, Min(gap, gap'), step)
  {
    DivMonotone(Min(gap, gap'), Max(gap, gap'), step);
  }

  /** An entry within the distance is not cut. */
  lemma CutKeeps(entry: int, gap: int, step: int)
    requires step > 0 && gap > 0 && entry * step <= gap
    ensures Cut(entry, gap, step) == entry
  {
    DivAtLeast(gap, step, entry);
  }

  ghost predicate SomeBoost(items: seq<Item>) {
    exists k :: 0 <= k < |items| && items[k].sdelta.allowBoost
  }

  /** a is what is left of the data of d. */
  ghost predicate CutFrom(a: Sdelta, d: Sdelta, gap: int, step: int)
    requires step > 0
  {
    a.maxCore == d.maxCore && a.tempBands == d.tempBands && a.allowTemp == d.allowTemp &&
    (d.TableUsed() ==>
      d.Size() <= |d.table| && d.Size() <= |a.table| &&
      forall e :: 0 <= e < d.Size() ==> a.table[e] == Cut(d.table[e], gap, step))
  }

  lemma DominatesExactly(open: int, a: Sdelta, open': int, s: Sdelta, step: int)
    requires step > 0 && Fits(a, s) && a.cap > 0 && 0 <= open < open'
    ensures var r := Merged(open, a, open', s, step); r.cap == Min(a.cap, open' - open) && CutFrom(r, s, r.cap, step)
  {}

  lemma YieldsExactly(open: int, a: Sdelta, open': int, s: Sdelta, step: int, d: Sdelta)
    requires step > 0 && Fits(a, s) && 0 < a.cap <= INT_MAX && 0 < open' < open <= INT_MAX
    requires CutFrom(a, d, a.cap, step)
    ensures var r := Merged(open, a, open', s, step);
            r.cap == Min(a.cap, open - open') && CutFrom(r, d, r.cap, step)
  {
    var r := Merged(open, a, open', s, step);
    assert a.Size() == d.Size();
    if d.TableUsed() {
      forall e | 0 <= e < d.Size() ensures r.table[e] == Cut(d.table[e], r.cap, step) {
        CutTwice(d.table[e], a.cap, open - open', step);
        CutTwice(d.table[e], a.cap, r.cap, step);
      }
    }
  }

  lemma OpensBelowMax(items: seq<Item>)
    requires Positive(items)
    ensures forall i :: 0 <= i < |items| ==> items[i].open <= MaxOpen(items)
  {
    MaxAtLeast(items);
    forall i | 0 <= i < |items| ensures items[i].open <= MaxOpen(items) {
      assert items[i].open in Opens(items);
    }
  }

  lemma LastDominates(z: Sizes, items: seq<Item>, step: int)
    requires step > 0 && Acceptable(z, items) && items != []
    requires items[|items| - 1].open > MaxOpen(items[..|items| - 1])
    ensures CutFrom(MergeAll(z, items, step).sdelta, items[|items| - 1].sdelta, Gap(items), step)
  {
    var init, c := items[..|items| - 1], items[|items| - 1];
    NoTiesInInit(items);
    MaxAtLeast(init);
    CapIsGap(z, init, step);
    var m := MergeAll(z, init, step);
    MergedOk(z, m.open, m.sdelta, c.open, c.sdelta, step);
    DominatesExactly(m.open, m.sdelta, c.open, c.sdelta, step);
  }

  lemma LastYields(z: Sizes, items: seq<Item>, step: int, d: Sdelta)
    requires step > 0 && Acceptable(z, items) && items != []
    requires items[|items| - 1].open < MaxOpen(items[..|items| - 1])
    requires Acceptable(z, items[..|items| - 1])
    requires CutFrom(MergeAll(z, items[..|items| - 1], step).sdelta, d, Gap(items[..|items| - 1]), step)
    ensures CutFrom(MergeAll(z, items, step).sdelta, d, Gap(items), step)
  {
    var init, c := items[..|items| - 1], items[|items| - 1];
    MaxAtLeast(init);
    CapIsGap(z, init, step);
    var m := MergeAll(z, init, step);
    MergedOk(z, m.open, m.sdelta, c.open, c.sdelta, step);
    YieldsExactly(m.open, m.sdelta, c.open, c.sdelta, step, d);
  }

  /** Any list without ties: the cap is the least distance, and the table is that of the most
      demanding corner, each entry bounded by the whole steps in that distance and by nothing
      else. */
  lemma {:induction false} EntriesExactly(z: Sizes, items: seq<Item>, step: int, k: nat)
    requires step > 0 && Acceptable(z, items) && k < |items| && items[k].open == MaxOpen(items)
    ensures var r := MergeAll(z, items, step).sdelta;
            0 < Gap(items) <= INT_MAX && r.cap == Gap(items) && CutFrom(r, items[k].sdelta, Gap(items), step)
    decreases |items|
  {
    var init, c := items[..|items| - 1], items[|items| - 1];
    NoTiesInInit(items);
    CapIsGap(z, items, step);
    if c.open > MaxOpen(init) {
      OpensBelowMax(init);
      LastDominates(z, items, step);
      assert k == |init|;
    } else {
      assert k < |init| && items[k] == init[k];
      EntriesExactly(z, init, step, k);
      LastYields(z, items, step, items[k].sdelta);
    }
  }

  lemma {:induction false} CapIsGap(z: Sizes, items: seq<Item>, step: int)
    requires step > 0 && Acceptable(z, items)
    ensures 0 < Gap(items) <= INT_MAX && MergeAll(z, items, step).sdelta.cap == Gap(items)
    decreases |items|
  {
    if items != [] {
      var init, c := items[..|items| - 1], items[|items| - 1];
      NoTiesInInit(items);
      MaxAtLeast(init);
      CapIsGap(z, init, step);
      var m := MergeAll(z, init, step);
      MergedOk(z, m.open, m.sdelta, c.open, c.sdelta, step);
    }
  }

  /** The flags: boost disables core-count adjustment, and is allowed if any corner allows it. */
  lemma {:induction false} FlagsExactly(z: Sizes, items: seq<Item>, step: int, k: nat)
    requires step > 0 && Acceptable(z, items) && k < |items| && items[k].open == MaxOpen(items)
    ensures var r := MergeAll(z, items, step).sdelta;
            (r.allowBoost <==> SomeBoost(items)) && (r.allowTemp <==> items[k].sdelta.allowTemp) &&
            (r.allowCore <==> items[k].sdelta.allowCore && !SomeBoost(items))
    decreases |items|
  {
    var init, c := items[..|items| - 1], items[|items| - 1];
    NoTiesInInit(items);
    MaxAtLeast(init);
    BoostIfSome(z, init, step);
    SomeBoostOfLast(items);
    var m := MergeAll(z, init, step);
    MergedOk(z, m.open, m.sdelta, c.open, c.sdelta, step);
    if c.open > MaxOpen(init) {
      OpensBelowMax(init);
      assert k == |init|;
    } else {
      assert k < |init| && items[k] == init[k];
      FlagsExactly(z, init, step, k);
    }
  }

  lemma SomeBoostOfLast(items: seq<Item>)
    requires items != []
    ensures SomeBoost(items) <==> SomeBoost(items[..|items| - 1]) || items[|items| - 1].sdelta.allowBoost
  {
    var init := items[..|items| - 1];
    if SomeBoost(init) {
      var k :| 0 <= k < |init| && init[k].sdelta.allowBoost;
      assert items[k].sdelta.allowBoost;
    }
    if SomeBoost(items) && !items[|items| - 1].sdelta.allowBoost {
      var k :| 0 <= k < |items| && items[k].sdelta.allowBoost;
      assert init[k].sdelta.allowBoost;
    }
  }

  lemma {:induction false} BoostIfSome(z: Sizes, items: seq<Item>, step: int)
    requires step > 0 && ItemsOk(z, items)
    ensures MergeAll(z, items, step).sdelta.allowBoost <==> SomeBoost(items)
    decreases |items|
  {
    if items != [] {
      var m, c := MergeAll(z, items[..|items| - 1], step), items[|items| - 1];
      BoostIfSome(z, items[..|items| - 1], step);
      SomeBoostOfLast(items);
      MergedOk(z, m.open, m.sdelta, c.open, c.sdelta, step);
    }
  }

  /** An entry that stays within the least distance is not touched. */
  lemma EntryIsKept(z: Sizes, items: seq<Item>, step: int, k: nat, e: nat)
    requires step > 0 && Acceptable(z, items) && k < |items| && items[k].open == MaxOpen(items)
    requires items[k].sdelta.TableUsed() && e < items[k].sdelta.Size() <= |items[k].sdelta.table|
    requires items[k].sdelta.table[e] * step <= Gap(items)
    ensures var r := MergeAll(z, items, step).sdelta; e < |r.table| && r.table[e] == items[k].sdelta.table[e]
  {
    EntriesExactly(z, items, step, k);
    CutKeeps(items[k].sdelta.table[e], Gap(items), step);
  }

  /** Once two corners have tied, core-count adjustment is off and temperature adjustment on only if
      both use it, whatever less demanding corners follow. */
  lemma {:induction false} TieFlagsExactly(z: Sizes, before: seq<Item>, tied: Item, after: seq<Item>, step: int)
    requires step > 0 && ItemsOk(z, before) && InputOk(z, tied.sdelta) && ItemsOk(z, after)
    requires tied.open == MaxOpen(before) && forall k :: 0 <= k < |after| ==> after[k].open < tied.open
    ensures ItemsOk(z, before + [tied] + after)
    ensures var m, r := MergeAll(z, before, step).sdelta, MergeAll(z, before + [tied] + after, step);
            r.open == tied.open && !r.sdelta.allowCore &&
            (r.sdelta.allowTemp <==> m.allowTemp && tied.sdelta.allowTemp)
    decreases |after|
  {
    var m := MergeAll(z, before, step);
    if after == [] {
      assert before + [tied] + after == before + [tied];
      MergeOnConcat(z, Item(0, Reset(z)), before, [tied], step);
      MergeOnOne(z, m, tied, step);
    } else {
      var init, c := after[..|after| - 1], after[|after| - 1];
      TieFlagsExactly(z, before, tied, init, step);
      assert before + [tied] + after == before + [tied] + init + [c];
      MergeOnConcat(z, Item(0, Reset(z)), before + [tied] + init, [c], step);
      MergeOnOne(z, MergeAll(z, before + [tied] + init, step), c, step);
    }
  }

  /** The number of cores to boost for is that of the last corner with boost. */
  lemma {:induction false} BoostCoresExactly(z: Sizes, before: seq<Item>, c: Item, after: seq<Item>, step: int)
    requires step > 0 && ItemsOk(z, before) && InputOk(z, c.sdelta) && ItemsOk(z, after)
    requires c.sdelta.allowBoost && NoBoost(after)
    ensures ItemsOk(z, before + [c] + after)
    ensures MergeAll(z, before + [c] + after, step).sdelta.boostCores == c.sdelta.boostCores
    decreases |after|
  {
    if after == [] {
      assert before + [c] + after == before + [c];
      MergeOnConcat(z, Item(0, Reset(z)), before, [c], step);
      MergeOnOne(z, MergeAll(z, before, step), c, step);
    } else {
      var init, d := after[..|after| - 1], after[|after| - 1];
      BoostCoresExactly(z, before, c, init, step);
      assert before + [c] + after == before + [c] + init + [d];
      MergeOnConcat(z, Item(0, Reset(z)), before + [c] + init, [d], step);
      MergeOnOne(z, MergeAll(z, before + [c] + init, step), d, step);
    }
  }

  // ------------------------------------------------------- what need not be cut

  /** The corners beside the k-th. */
  function Others(items: seq<Item>, k: nat): seq<Item>
    requires k < |items|
  {
    items[..k] + items[k + 1..]
  }

  /** The least distance is that of the most demanding corner from the next lower voltage, which is
      what headroom takes, exactly unless the corners before it lie closer to each other. */
  lemma {:induction false} GapExactly(items: seq<Item>, k: nat)
    requires Positive(items) && k < |items| && items[k].open == MaxOpen(items)
    ensures Gap(items) == Min(Gap(items[..k]), items[k].open - MaxOpen(Others(items, k)))
    decreases |items|
  {
    var init, c := items[..|items| - 1], items[|items| - 1];
    assert items == init + [c];
    OneMoreItem(init, c);
    if k == |init| {
      assert Others(items, k) == init && init == items[..k];
    } else {
      OpensBelowMax(init);
      assert init[k] == items[k] && init[..k] == items[..k];
      GapExactly(init, k);
      assert Others(items, k) == Others(init, k) + [c];
      OneMoreItem(Others(init, k), c);
    }
  }

  /** Three corners of which the last is the most demanding: 700 and 750 limit its margin to 50,
      although 750 is 200 below it. In the opposite order the margin is kept. */
  lemma OrderCostsMargin() returns (z: Sizes, a: Item, b: Item, c: Item)
    ensures Acceptable(z, [a, b, c]) && Acceptable(z, [c, b, a]) && a.open < b.open < c.open
    ensures c.sdelta.table == [20] && c.open - 20 * 10 == b.open
    ensures MergeAll(z, [c, b, a], 10).sdelta.table == [20] && MergeAll(z, [a, b, c], 10).sdelta.table == [5]
  {
    z := Sizes(1, 1, 1);
    var s := Sdelta(false, true, 1, 1, INT_MAX, [20], false, 0, []);
    a, b, c := Item(700, s), Item(750, s), Item(950, s);
    Three(a, b, c);
    Three(c, b, a);
    EntriesExactly(z, [a, b, c], 10, 2);
    EntriesExactly(z, [c, b, a], 10, 0);
  }

  lemma Three(a: Item, b: Item, c: Item)
    ensures var items := [a, b, c];
            items[..2] == [a, b] && items[..1] == [a] && items[..0] == [] &&
            MaxOpen(items) == Max(Max(Max(0, a.open), b.open), c.open) &&
            Gap(items) == Min(Min(Min(INT_MAX, Distance(a.open, 0)), Distance(b.open, Max(0, a.open))),
                              Distance(c.open, Max(Max(0, a.open), b.open)))
    ensures MaxOpen([a]) == Max(0, a.open) && MaxOpen([a, b]) == Max(Max(0, a.open), b.open)
  {
    assert [] + [a] == [a] && [a] + [b] == [a, b] && [a, b] + [c] == [a, b, c];
    OneMoreItem([], a);
    OneMoreItem([a], b);
    OneMoreItem([a, b], c);
  }

  lemma OneMoreItem(items: seq<Item>, c: Item)
    ensures MaxOpen(items + [c]) == Max(MaxOpen(items), c.open)
    ensures Gap(items + [c]) == Min(Gap(items), Distance(c.open, MaxOpen(items)))
  {
    assert (items + [c])[..|items|] == items;
  }

  // -------------------------------------------------------------- two levels

  /** The least distance of a thread's largest voltage from the largest of those before it. */
  function GapOfThreads(ts: seq<seq<Item>>): int {
    if ts == [] then INT_MAX
    else Min(GapOfThreads(ts[..|ts| - 1]), Distance(MaxOpen(ts[|ts| - 1]), MaxOfThreads(ts[..|ts| - 1])))
  }

  lemma {:induction false} GapOfItems(ts: seq<seq<Item>>, items: seq<Item>)
    requires |items| == |ts| && forall k :: 0 <= k < |ts| ==> items[k].open == MaxOpen(ts[k])
    ensures Gap(items) == GapOfThreads(ts)
    decreases |ts|
  {
    if ts != [] {
      GapOfItems(ts[..|ts| - 1], items[..|ts| - 1]);
      MaxOfItems(ts[..|ts| - 1], items[..|ts| - 1]);
    }
  }

  /** Through both levels: the table of the controller is that of the most demanding regulator of
      all threads, each entry bounded by the whole steps in the lesser of the two least
      distances, while that regulator's table is in use and no boost of its thread puts it out
      of use. */
  lemma ControllerEntriesExactly(z: Sizes, ts: seq<seq<Item>>, step: int, k: nat, j: nat)
    requires step > 0 && AcceptableThreads(z, ts) && k < |ts| && j < |ts[k]|
    requires ts[k][j].open == MaxOpen(ts[k]) == MaxOfThreads(ts)
    requires ts[k][j].sdelta.allowTemp || (ts[k][j].sdelta.allowCore && !SomeBoost(ts[k]))
    ensures Acceptable(z, ThreadItems(z, ts, step))
    ensures var r := MergeAll(z, ThreadItems(z, ts, step), step).sdelta;
            CutFrom(r, ts[k][j].sdelta, Min(Gap(ts[k]), GapOfThreads(ts)), step)
  {
    ThreadItemsAcceptable(z, ts, step);
    var items := ThreadItems(z, ts, step);
    MaxOfItems(ts, items);
    GapOfItems(ts, items);
    EntriesExactly(z, ts[k], step, j);
    FlagsExactly(z, ts[k], step, j);
    EntriesExactly(z, items, step, k);
    CutFromTwice(MergeAll(z, items, step).sdelta, items[k].sdelta, ts[k][j].sdelta, Gap(items), Gap(ts[k]), step);
  }

  lemma CutFromTwice(a: Sdelta, b: Sdelta, d: Sdelta, gap: int, gap': int, step: int)
    requires step > 0 && 0 < gap <= INT_MAX && 0 < gap' <= INT_MAX && b.TableUsed()
    requires CutFrom(a, b, gap, step) && CutFrom(b, d, gap', step)
    ensures CutFrom(a, d, Min(gap', gap), step)
  {
    assert a.Size() == b.Size() == d.Size();
    if d.TableUsed() {
      forall e | 0 <= e < d.Size() ensures a.table[e] == Cut(d.table[e], Min(gap', gap), step) {
        CutTwice(d.table[e], gap', gap, step);
      }
    }
  }

  // -------------------------------------------------------------------- boost

  /** A boost margin that is moved to a more demanding corner becomes the least boost that still
      gives the boosted voltage, and none if the corner has that anyway. */
  lemma MovedBoostIsLeast(z: Sizes, m: Item, c: Item, step: int, i: nat, x: int)
    requires step > 0 && AggregateOk(z, m.sdelta) && InputOk(z, c.sdelta) && !c.sdelta.allowBoost
    requires m.sdelta.allowBoost && i < m.sdelta.tempBands && m.open < c.open && x <= 0
    ensures var r := MergeOn(z, m, [c], step);
            i < |r.sdelta.boostTable| && i < |m.sdelta.boostTable| && r.sdelta.boostTable[i] <= 0 &&
            (x <= r.sdelta.boostTable[i] <==> c.open - x * step >= m.open - m.sdelta.boostTable[i] * step)
  {
    MergeOnOne(z, m, c, step);
    LeastShift(m.sdelta.boostTable[i], c.open - m.open, step, x);
  }

  lemma LeastShift(b: int, diff: nat, step: int, x: int)
    requires step > 0 && x <= 0
    ensures x <= Min(b + TruncDiv(diff, step), 0) <==> x * step <= b * step + diff
  {
    DivBounds(diff, step);
    assert (x - b) * step == x * step - b * step;
    if x - b <= diff / step {
      MulLe(x - b, diff / step, step);
    } else {
      MulLe(diff / step + 1, x - b, step);
      assert (diff / step + 1) * step == diff / step * step + step;
    }
  }
}
