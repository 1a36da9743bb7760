/** Aggregation of the sdelta (core-count and temperature) margin tables of CPR4 corners. */
module CprSdelta {
  import opened CInt

  /** struct cpr4_sdelta. A positive table entry lowers the voltage by that many steps. */
  datatype Sdelta = Sdelta(
    allowCore: bool, allowTemp: bool, maxCore: nat, tempBands: nat, cap: int, table: seq<int>,
    allowBoost: bool, boostCores: int, boostTable: seq<int>)
  {
    function Size(): nat { maxCore * tempBands }

    predicate TableUsed() { allowCore || allowTemp }

    /** The buffers in use are large enough for the declared dimensions. */
    ghost predicate Shape() {
      (TableUsed() ==> Size() <= |table|) && (allowBoost ==> tempBands <= |boostTable|)
    }

    /** The row that holds at the highest core count, in a table of `bands` columns. */
    function LastRow(bands: nat): int { (maxCore - 1) * bands }
  }

  function MinPrefix(t: seq<int>, n: nat, bound: int): seq<int>
    requires n <= |t|
  {
    seq(|t|, i requires 0 <= i < |t| => if i < n then Min(t[i], bound) else t[i])
  }

  /** The boost margins b, moved by `steps` and kept from becoming reductions. */
  function ShiftBoost(b: seq<int>, n: nat, steps: int): seq<int>
    requires n <= |b|
  {
    seq(n, i requires 0 <= i < n => Min(b[i] + steps, 0))
  }

  // ------------------------------------------------------------ one aggregation

  /** What the source relies on: the aggregate's buffers fit every corner's dimensions, and
      there is at least one row where a row of the table is used. */
  ghost predicate Fits(a: Sdelta, s: Sdelta) {
    a.Shape() && s.Shape() && a.Size() <= |a.table| && s.Size() <= |a.table| &&
    (a.allowBoost || s.allowBoost ==> s.tempBands <= |a.boostTable| && a.tempBands <= |a.boostTable|) &&
    (s.allowBoost ==> a.tempBands <= |s.boostTable|) &&
    (a.allowTemp && s.allowTemp ==>
      a.maxCore >= 1 && s.maxCore >= 1 && a.LastRow(s.tempBands) + s.tempBands <= |a.table|)
  }

  /** The corner becomes the dominant one. */
  function Dominate(aggrOpen: int, a: Sdelta, open: int, s: Sdelta, step: int): Sdelta
    requires step > 0 && Fits(a, s)
  {
    var diff := open - aggrOpen;
    var cleared := if a.TableUsed() then seq(a.Size(), _ => 0) + a.table[a.Size()..] else a.table;
    var table := if s.TableUsed() then s.table[..s.Size()] + cleared[s.Size()..] else cleared;
    var boost :=
      if s.allowBoost then s.boostTable[..s.tempBands] + a.boostTable[s.tempBands..]
      else if a.allowBoost then
        ShiftBoost(a.boostTable, a.tempBands, TruncDiv(diff, step)) + a.boostTable[a.tempBands..]
      else a.boostTable;
    Sdelta(s.allowCore, s.allowTemp, s.maxCore, s.tempBands, Min(a.cap, diff), table,
           a.allowBoost, if s.allowBoost then s.boostCores else a.boostCores, boost)
  }

  /** The corner is not the dominant one. */
  function Yield(aggrOpen: int, a: Sdelta, open: int, s: Sdelta, step: int): Sdelta
    requires step > 0 && Fits(a, s)
  {
    var diff := aggrOpen - open;
    var b := a.(cap := Min(a.cap, diff));
    if s.allowBoost then
      b.(boostTable := ShiftBoost(s.boostTable, a.tempBands, TruncDiv(diff, step)) + a.boostTable[a.tempBands..],
         boostCores := s.boostCores)
    else b
  }

  /** The n entries of t from `row` on, bounded by those of u from row' on. */
  function MinRow(t: seq<int>, row: int, u: seq<int>, row': int, n: nat): seq<int> {
    seq(|t|, i requires 0 <= i < |t| =>
      if row <= i < row + n && 0 <= row' + (i - row) < |u| then Min(t[i], u[row' + (i - row)]) else t[i])
  }

  /** Both ask for the same open-loop voltage. */
  function Tie(a: Sdelta, s: Sdelta): Sdelta
    requires Fits(a, s)
  {
    var both := a.allowTemp && s.allowTemp;
    var row, row' := a.LastRow(s.tempBands), s.LastRow(s.tempBands);
    a.(cap := 0, allowCore := false, allowTemp := both,
       table := if both then MinRow(a.table, row, s.table, row', s.tempBands) else a.table,
       boostTable := if s.allowBoost then s.boostTable[..s.tempBands] + a.boostTable[s.tempBands..] else a.boostTable,
       boostCores := if s.allowBoost then s.boostCores else a.boostCores)
  }

  /** The common end: boost disables core-count adjustment, and a cap in force bounds the
      table. Capping is skipped for a cap of 0 and for INT_MAX. */
  function Capped(a: Sdelta, allowBoost: bool, step: int): Sdelta
    requires step > 0 && a.Size() <= |a.table|
  {
    var boost := a.allowBoost || allowBoost;
    a.(allowBoost := boost, allowCore := a.allowCore && !boost,
       table := if a.cap != 0 && a.cap != INT_MAX then MinPrefix(a.table, a.Size(), TruncDiv(a.cap, step)) else a.table)
  }

  function Merged(aggrOpen: int, a: Sdelta, open: int, s: Sdelta, step: int): (r: Sdelta)
    requires step > 0 && Fits(a, s)
    ensures |r.table| == |a.table| && |r.boostTable| == |a.boostTable| && r.Shape() && r.Size() <= |r.table|
  {
    Capped(
      if aggrOpen < open then Dominate(aggrOpen, a, open, s, step)
      else if aggrOpen > open then Yield(aggrOpen, a, open, s, step)
      else Tie(a, s),
      s.allowBoost, step)
  }

  // ----------------------------------------------------------------- headroom

  /** The open-loop voltages `tops` merged so far at this level, and the voltages `low`
      they stand for, keep their headroom. */
  ghost predicate Headroom(tops: set<int>, low: set<int>, open: int, a: Sdelta, step: int) {
    a.Size() <= |a.table| && a.cap > 0 &&
    (forall t :: t in tops ==> 0 < t <= open && (t < open ==> a.cap <= open - t)) &&
    (a.cap < INT_MAX ==> forall i :: 0 <= i < a.Size() ==> a.table[i] * step <= a.cap) &&
    (forall p :: p in low ==> 0 < p <= open && (a.TableUsed() ==> Protects(a, open, p, step)))
  }

  /** No entry of the table takes the voltage below p. */
  ghost predicate Protects(a: Sdelta, open: int, p: int, step: int)
    requires a.Size() <= |a.table|
  {
    p < open ==> forall i :: 0 <= i < a.Size() ==> open - a.table[i] * step >= p
  }

  lemma CapSteps(cap: int, step: int, t: int)
    requires step > 0 && cap > 0 && t <= TruncDiv(cap, step)
    ensures t * step <= cap
  {
    DivBounds(cap, step);
    MulLe(t, cap / step, step);
  }

  /** After capping, every entry is within the cap, and none has been raised. */
  lemma CappedWithin(a: Sdelta, allowBoost: bool, step: int)
    requires step > 0 && a.Size() <= |a.table| && 0 < a.cap < INT_MAX
    ensures var r := Capped(a, allowBoost, step);
            forall i :: 0 <= i < r.Size() ==> r.table[i] * step <= r.cap && r.table[i] * step <= a.table[i] * step
  {
    var r := Capped(a, allowBoost, step);
    forall i | 0 <= i < r.Size() ensures r.table[i] * step <= r.cap && r.table[i] * step <= a.table[i] * step {
      CapSteps(a.cap, step, r.table[i]);
      MulLe(r.table[i], a.table[i], step);
    }
  }

  lemma DominateKeepsHeadroom(tops: set<int>, low: set<int>, open: int, a: Sdelta,
                              open': int, s: Sdelta, low': set<int>, step: int)
    requires step > 0 && Fits(a, s) && Headroom(tops, low, open, a, step)
    requires 0 <= open < open' <= INT_MAX && (open == 0 ==> tops == {} && low == {})
    requires forall p :: p in low' ==>
               0 < p <= open' && (s.TableUsed() ==> s.Size() <= |s.table| && Protects(s, open', p, step))
    ensures Headroom(tops + {open'}, low + low' + {open'}, open', Merged(open, a, open', s, step), step)
  {
    var d := Dominate(open, a, open', s, step);
    var r := Merged(open, a, open', s, step);
    assert s.TableUsed() ==> forall i :: 0 <= i < s.Size() ==> d.table[i] == s.table[i];
    if d.cap < INT_MAX {
      CappedWithin(d, s.allowBoost, step);
      forall p | p in low + low' + {open'} ensures r.TableUsed() ==> Protects(r, open', p, step) {}
    } else {
      forall p | p in low' ensures r.TableUsed() ==> Protects(r, open', p, step) {
        assert s.TableUsed() ==> Protects(s, open', p, step);
      }
    }
  }

  lemma YieldKeepsHeadroom(tops: set<int>, low: set<int>, open: int, a: Sdelta,
                           open': int, s: Sdelta, low': set<int>, step: int)
    requires step > 0 && Fits(a, s) && Headroom(tops, low, open, a, step)
    requires 0 < open' < open <= INT_MAX
    requires forall p :: p in low' ==> 0 < p <= open'
    ensures Headroom(tops + {open'}, low + low' + {open'}, open, Merged(open, a, open', s, step), step)
  {
    var d := Yield(open, a, open', s, step);
    var r := Merged(open, a, open', s, step);
    CappedWithin(d, s.allowBoost, step);
    forall p | p in low + low' + {open'} ensures r.TableUsed() ==> Protects(r, open, p, step) {
      if p in low {
        assert a.TableUsed() ==> Protects(a, open, p, step);
      }
    }
  }

  /** One aggregation step with a different open-loop voltage keeps all headroom. */
  lemma MergeKeepsHeadroom(tops: set<int>, low: set<int>, open: int, a: Sdelta,
                           open': int, s: Sdelta, low': set<int>, step: int)
    requires step > 0 && Fits(a, s) && Headroom(tops, low, open, a, step)
    requires 0 <= open <= INT_MAX && (open == 0 ==> tops == {} && low == {})
    requires 0 < open' <= INT_MAX && open' != open
    requires forall p :: p in low' ==>
               0 < p <= open' && (s.TableUsed() ==> s.Size() <= |s.table| && Protects(s, open', p, step))
    ensures Headroom(tops + {open'}, low + low' + {open'}, Max(open, open'), Merged(open, a, open', s, step), step)
  {
    if open < open' {
      DominateKeepsHeadroom(tops, low, open, a, open', s, low', step);
    } else {
      YieldKeepsHeadroom(tops, low, open, a, open', s, low', step);
    }
  }

  // ----------------------------------------------- aggregating lists of corners

  /** A corner as the aggregation sees it. */
  datatype Item = Item(open: int, sdelta: Sdelta)

  /** The buffer sizes of a controller: temperature bands, table and boost table lengths. */
  datatype Sizes = Sizes(bands: nat, table: nat, boost: nat)

  /** A corner that is not adjusted may have no rows, no bands and no table, and one that is only
      boosted no rows. */
  ghost predicate InputOk(z: Sizes, s: Sdelta) {
    s.Shape() && s.Size() <= z.table && s.tempBands <= z.bands &&
    (s.allowTemp ==> s.maxCore >= 1 && s.tempBands == z.bands) &&
    (s.allowBoost ==> z.bands <= |s.boostTable| && z.bands <= z.boost)
  }

  ghost predicate AggregateOk(z: Sizes, a: Sdelta) {
    |a.table| == z.table && |a.boostTable| == z.boost && InputOk(z, a)
  }

  ghost predicate ItemsOk(z: Sizes, items: seq<Item>) {
    forall i :: 0 <= i < |items| ==> InputOk(z, items[i].sdelta)
  }

  /** The aggregate as _cpr3_regulator_update_ctrl_state resets it. */
  function Reset(z: Sizes): Sdelta {
    Sdelta(false, false, 0, 0, INT_MAX, seq(z.table, _ => 0), false, 0, seq(z.boost, _ => 0))
  }

  lemma MergedOk(z: Sizes, open: int, a: Sdelta, open': int, s: Sdelta, step: int)
    requires step > 0 && AggregateOk(z, a) && InputOk(z, s)
    ensures Fits(a, s) && AggregateOk(z, Merged(open, a, open', s, step))
  {
    if a.allowTemp {
      assert a.LastRow(z.bands) + z.bands == a.Size() by {
        assert (a.maxCore - 1) * z.bands + z.bands == a.maxCore * z.bands;
      }
    }
  }

  /** The largest of `open` and the open-loop voltages. */
  function MaxFrom(open: int, items: seq<Item>): int {
    if items == [] then open else Max(MaxFrom(open, items[..|items| - 1]), items[|items| - 1].open)
  }

  /** The largest open-loop voltage, or 0. */
  function MaxOpen(items: seq<Item>): int { MaxFrom(0, items) }

  /** Aggregate a list of corners into m, in order. */
  ghost function MergeOn(z: Sizes, m: Item, items: seq<Item>, step: int): (r: Item)
    requires step > 0 && AggregateOk(z, m.sdelta) && ItemsOk(z, items)
    ensures AggregateOk(z, r.sdelta) && r.open == MaxFrom(m.open, items)
    decreases |items|
  {
    if items == [] then m
    else
      var r, c := MergeOn(z, m, items[..|items| - 1], step), items[|items| - 1];
      MergedOk(z, r.open, r.sdelta, c.open, c.sdelta, step);
      Item(Max(r.open, c.open), Merged(r.open, r.sdelta, c.open, c.sdelta, step))
  }

  /** Aggregate a list of corners from the start. */
  ghost function MergeAll(z: Sizes, items: seq<Item>, step: int): Item
    requires step > 0 && ItemsOk(z, items)
  {
    MergeOn(z, Item(0, Reset(z)), items, step)
  }

  lemma MergeOnOne(z: Sizes, m: Item, c: Item, step: int)
    requires step > 0 && AggregateOk(z, m.sdelta) && InputOk(z, c.sdelta)
    ensures Fits(m.sdelta, c.sdelta)
    ensures MergeOn(z, m, [c], step) == Item(Max(m.open, c.open), Merged(m.open, m.sdelta, c.open, c.sdelta, step))
  {
    MergedOk(z, m.open, m.sdelta, c.open, c.sdelta, step);
    assert [c][..0] == [];
    assert MergeOn(z, m, [c][..0], step) == m;
  }

  lemma {:induction false} MergeOnConcat(z: Sizes, m: Item, xs: seq<Item>, ys: seq<Item>, step: int)
    requires step > 0 && AggregateOk(z, m.sdelta) && ItemsOk(z, xs) && ItemsOk(z, ys)
    ensures ItemsOk(z, xs + ys) && MergeOn(z, m, xs + ys, step) == MergeOn(z, MergeOn(z, m, xs, step), ys, step)
    decreases |ys|
  {
    if ys == [] {
      assert xs + ys == xs;
    } else {
      MergeOnConcat(z, m, xs, ys[..|ys| - 1], step);
      assert (xs + ys)[..|xs + ys| - 1] == xs + ys[..|ys| - 1];
    }
  }

  /** No corner ties with the largest of those before it, the dominant one. */
  ghost predicate NoTies(items: seq<Item>) {
    forall i :: 0 <= i < |items| ==> items[i].open != MaxOpen(items[..i])
  }

  ghost predicate Acceptable(z: Sizes, items: seq<Item>) {
    ItemsOk(z, items) && Positive(items) && NoTies(items)
  }

  ghost predicate Positive(items: seq<Item>) {
    forall i :: 0 <= i < |items| ==> 0 < items[i].open <= INT_MAX
  }

  lemma NoTiesInInit(items: seq<Item>)
    requires NoTies(items) && items != []
    ensures NoTies(items[..|items| - 1])
  {
    var init := items[..|items| - 1];
    forall i | 0 <= i < |init| ensures init[i].open != MaxOpen(init[..i]) {
      assert init[..i] == items[..i] && init[i] == items[i];
    }
  }

  /** In particular, pairwise distinct voltages do not tie. */
  lemma DistinctDoNotTie(items: seq<Item>)
    requires forall i :: 0 <= i < |items| ==> items[i].open > 0
    requires forall i, j :: 0 <= i < j < |items| ==> items[i].open != items[j].open
    ensures NoTies(items)
  {
    forall i | 0 <= i < |items| ensures items[i].open != MaxOpen(items[..i]) {
      if i > 0 {
        MaxOpenAttained(items[..i]);
        var j :| 0 <= j < i && items[..i][j].open == MaxOpen(items[..i]);
        assert items[j].open == MaxOpen(items[..i]);
      }
    }
  }

  lemma {:induction false} MaxOpenAttained(items: seq<Item>)
    requires items != [] && forall i :: 0 <= i < |items| ==> items[i].open > 0
    ensures exists j :: 0 <= j < |items| && items[j].open == MaxOpen(items)
    ensures forall j :: 0 <= j < |items| ==> items[j].open <= MaxOpen(items)
  {
    var init := items[..|items| - 1];
    var last := items[|items| - 1].open;
    if init == [] {
      assert |items| == 1 && MaxFrom(0, init) == 0;
      assert items[0].open == MaxOpen(items);
    } else {
      MaxOpenAttained(init);
      var j :| 0 <= j < |init| && init[j].open == MaxOpen(init);
      assert items[j].open == MaxOpen(init);
      assert last == MaxOpen(items) || MaxOpen(init) == MaxOpen(items);
    }
  }

  ghost function Opens(items: seq<Item>): set<int> {
    set i | 0 <= i < |items| :: items[i].open
  }

  lemma OpensOfLast(items: seq<Item>)
    requires items != []
    ensures Opens(items) == Opens(items[..|items| - 1]) + {items[|items| - 1].open}
  {
    var init := items[..|items| - 1];
    forall p | p in Opens(items) ensures p in Opens(init) + {items[|items| - 1].open} {
      var i :| 0 <= i < |items| && items[i].open == p;
      if i < |init| {
        assert init[i].open == p;
      }
    }
    forall p | p in Opens(init) ensures p in Opens(items) {
      var i :| 0 <= i < |init| && init[i].open == p;
      assert items[i].open == p;
    }
  }

  /** The voltages that the items themselves stand for, from an earlier aggregation. */
  ghost predicate StandsFor(item: Item, low: set<int>, step: int) {
    var s := item.sdelta;
    forall p :: p in low ==>
      0 < p <= item.open && (s.TableUsed() ==> s.Size() <= |s.table| && Protects(s, item.open, p, step))
  }

  ghost function Union(lows: seq<set<int>>): set<int> {
    if lows == [] then {} else Union(lows[..|lows| - 1]) + lows[|lows| - 1]
  }

  lemma {:induction false} MergeAllHeadroom(z: Sizes, items: seq<Item>, lows: seq<set<int>>, step: int)
    requires step > 0 && Acceptable(z, items) && |lows| == |items|
    requires forall i :: 0 <= i < |items| ==> StandsFor(items[i], lows[i], step)
    ensures var r := MergeAll(z, items, step);
            Headroom(Opens(items), Union(lows) + Opens(items), r.open, r.sdelta, step)
  {
    if items != [] {
      var init, c, last := items[..|items| - 1], items[|items| - 1], lows[|items| - 1];
      var lows' := lows[..|items| - 1];
      NoTiesInInit(items);
      MaxAtLeast(init);
      MergeAllHeadroom(z, init, lows', step);
      var m := MergeAll(z, init, step);
      OpensOfLast(items);
      MergedOk(z, m.open, m.sdelta, c.open, c.sdelta, step);
      assert StandsFor(c, last, step);
      MergeKeepsHeadroom(Opens(init), Union(lows') + Opens(init), m.open, m.sdelta, c.open, c.sdelta, last, step);
      assert Union(lows') + Opens(init) + last + {c.open} == Union(lows) + Opens(items);
    }
  }

  lemma MaxAtLeast(items: seq<Item>)
    requires Positive(items)
    ensures 0 <= MaxOpen(items) <= INT_MAX && (items != [] ==> MaxOpen(items) in Opens(items))
    ensures forall p :: p in Opens(items) ==> p <= MaxOpen(items)
  {
    if items != [] {
      MaxOpenAttained(items);
    }
  }

  lemma {:induction false} UnionHas(lows: seq<set<int>>, i: nat, p: int)
    requires i < |lows| && p in lows[i]
    ensures p in Union(lows)
  {
    if i < |lows| - 1 {
      UnionHas(lows[..|lows| - 1], i, p);
    }
  }

  lemma {:induction false} UnionEmpty(lows: seq<set<int>>)
    requires forall i :: 0 <= i < |lows| ==> lows[i] == {}
    ensures Union(lows) == {}
  {
    if lows != [] {
      UnionEmpty(lows[..|lows| - 1]);
    }
  }

  /** Any list of corners of which none ties with the dominant one when it is its turn: the
      aggregate has the largest open-loop voltage, and no table entry takes it below any other
      corner. */
  lemma AggregateHasHeadroom(z: Sizes, items: seq<Item>, step: int, j: nat, e: nat)
    requires step > 0 && Acceptable(z, items) && j < |items|
    ensures var r := MergeAll(z, items, step);
            items[j].open <= r.open && r.open in Opens(items) &&
            (items[j].open < r.open && e < r.sdelta.Size() ==>
              r.open - r.sdelta.table[e] * step >= items[j].open)
  {
    MergeAllHeadroom(z, items, seq(|items|, _ => {}), step);
    MaxAtLeast(items);
    assert items[j].open in Opens(items);
  }

  // -------------------------------------------- threads, and then the controller

  /** The largest open-loop voltage of all threads, or 0. */
  function MaxOfThreads(ts: seq<seq<Item>>): int {
    if ts == [] then 0 else Max(MaxOfThreads(ts[..|ts| - 1]), MaxOpen(ts[|ts| - 1]))
  }

  ghost predicate AcceptableThreads(z: Sizes, ts: seq<seq<Item>>) {
    (forall k :: 0 <= k < |ts| ==> ts[k] != [] && Acceptable(z, ts[k])) &&
    forall k :: 0 <= k < |ts| ==> MaxOpen(ts[k]) != MaxOfThreads(ts[..k])
  }

  ghost function ThreadItems(z: Sizes, ts: seq<seq<Item>>, step: int): seq<Item>
    requires step > 0 && AcceptableThreads(z, ts)
  {
    seq(|ts|, k requires 0 <= k < |ts| => MergeAll(z, ts[k], step))
  }

  lemma {:induction false} MaxOfItems(ts: seq<seq<Item>>, items: seq<Item>)
    requires |items| == |ts| && forall k :: 0 <= k < |ts| ==> items[k].open == MaxOpen(ts[k])
    ensures MaxOpen(items) == MaxOfThreads(ts)
  {
    if ts != [] {
      MaxOfItems(ts[..|ts| - 1], items[..|ts| - 1]);
    }
  }

  lemma ThreadItemsAcceptable(z: Sizes, ts: seq<seq<Item>>, step: int)
    requires step > 0 && AcceptableThreads(z, ts)
    ensures Acceptable(z, ThreadItems(z, ts, step))
  {
    var items := ThreadItems(z, ts, step);
    forall k | 0 <= k < |ts| ensures 0 < items[k].open <= INT_MAX {
      MaxAtLeast(ts[k]);
      var i :| 0 <= i < |ts[k]| && ts[k][i].open == items[k].open;
    }
    forall k | 0 <= k < |ts| ensures items[k].open != MaxOpen(items[..k]) {
      MaxOfItems(ts[..k], items[..k]);
    }
  }

  /** A thread's result stands for the voltages of all its corners. */
  lemma ThreadStandsFor(z: Sizes, items: seq<Item>, step: int)
    requires step > 0 && items != [] && Acceptable(z, items)
    ensures StandsFor(MergeAll(z, items, step), Opens(items), step)
  {
    var none := seq(|items|, _ => {});
    MergeAllHeadroom(z, items, none, step);
    MaxAtLeast(items);
    UnionEmpty(none);
    assert Union(none) + Opens(items) == Opens(items);
  }

  lemma ProtectsWhatItemsStandFor(z: Sizes, items: seq<Item>, lows: seq<set<int>>, step: int, k: nat, p: int, e: nat)
    requires step > 0 && Acceptable(z, items) && |lows| == |items|
    requires forall i :: 0 <= i < |items| ==> StandsFor(items[i], lows[i], step)
    requires k < |items| && p in lows[k]
    ensures var r := MergeAll(z, items, step);
            p <= r.open &&
            (r.sdelta.TableUsed() && p < r.open && e < r.sdelta.Size() ==> r.open - r.sdelta.table[e] * step >= p)
  {
    MergeAllHeadroom(z, items, lows, step);
    MaxAtLeast(items);
    UnionHas(lows, k, p);
    assert p <= items[k].open && items[k].open in Opens(items);
  }

  lemma ThreadsStandFor(z: Sizes, ts: seq<seq<Item>>, step: int, lows: seq<set<int>>)
    requires step > 0 && AcceptableThreads(z, ts) && |lows| == |ts|
    requires forall k :: 0 <= k < |ts| ==> lows[k] == Opens(ts[k])
    ensures forall k :: 0 <= k < |ts| ==> StandsFor(ThreadItems(z, ts, step)[k], lows[k], step)
  {
    forall k | 0 <= k < |ts| ensures StandsFor(ThreadItems(z, ts, step)[k], lows[k], step) {
      ThreadStandsFor(z, ts[k], step);
    }
  }

  /** The two-level aggregation of the controller: the result has the largest open-loop
      voltage of all regulators of all threads, and while its table is in use no entry
      takes it below the open-loop voltage of any other regulator of any thread. */
  lemma ControllerHasHeadroom(z: Sizes, ts: seq<seq<Item>>, step: int, k: nat, j: nat, e: nat)
    requires step > 0 && AcceptableThreads(z, ts) && k < |ts| && j < |ts[k]|
    ensures Acceptable(z, ThreadItems(z, ts, step))
    ensures var r := MergeAll(z, ThreadItems(z, ts, step), step);
            ts[k][j].open <= r.open &&
            (r.sdelta.TableUsed() && ts[k][j].open < r.open && e < r.sdelta.Size() ==>
              r.open - r.sdelta.table[e] * step >= ts[k][j].open)
  {
    ThreadItemsAcceptable(z, ts, step);
    var lows := seq(|ts|, i requires 0 <= i < |ts| => Opens(ts[i]));
    ThreadsStandFor(z, ts, step, lows);
    assert ts[k][j].open in Opens(ts[k]);
    ProtectsWhatItemsStandFor(z, ThreadItems(z, ts, step), lows, step, k, ts[k][j].open, e);
  }

  // ------------------------------------------------------------ after a tie

  /** The table of d, bounded in its last row by that of a corner that ties with it, if both use
      temperature adjustment. */
  function Bounded(d: Sdelta, s: Sdelta): Sdelta {
    var both := d.allowTemp && s.allowTemp;
    d.(allowTemp := both,
       table := if both then MinRow(d.table, d.LastRow(s.tempBands), s.table, s.LastRow(s.tempBands), s.tempBands)
                else d.table)
  }

  /** The most demanding of m and the corners, as it is itself, bounded by those that tie with it. */
  ghost function Dominant(m: Item, items: seq<Item>): Item {
    if items == [] then m
    else
      var d, c := Dominant(m, items[..|items| - 1]), items[|items| - 1];
      if d.open < c.open then c
      else if d.open == c.open then Item(d.open, Bounded(d.sdelta, c.sdelta))
      else d
  }

  /** a has the table of d, where d uses one. */
  ghost predicate HasTableOf(a: Sdelta, d: Sdelta) {
    a.maxCore == d.maxCore && a.tempBands == d.tempBands && a.allowTemp == d.allowTemp &&
    (a.allowCore ==> d.allowCore) &&
    (d.TableUsed() ==>
      d.Size() <= |d.table| && d.Size() <= |a.table| && forall e :: 0 <= e < d.Size() ==> a.table[e] == d.table[e])
  }

  lemma UncappedDominates(open: int, a: Sdelta, open': int, s: Sdelta, step: int)
    requires step > 0 && Fits(a, s) && a.cap == 0 && open < open'
    ensures var r := Merged(open, a, open', s, step); r.cap == 0 && HasTableOf(r, s)
  {}

  lemma UncappedYields(open: int, a: Sdelta, open': int, s: Sdelta, step: int, d: Sdelta)
    requires step > 0 && Fits(a, s) && a.cap == 0 && open > open' && HasTableOf(a, d)
    ensures var r := Merged(open, a, open', s, step); r.cap == 0 && HasTableOf(r, d)
  {}

  lemma TiedHasBoundedTable(open: int, a: Sdelta, s: Sdelta, step: int, d: Sdelta)
    requires step > 0 && Fits(a, s) && HasTableOf(a, d)
    ensures var r := Merged(open, a, open, s, step); r.cap == 0 && HasTableOf(r, Bounded(d, s))
  {
    assert a.Size() == d.Size() && a.LastRow(s.tempBands) == d.LastRow(s.tempBands);
    if d.TableUsed() {
      MinRowPrefix(a.table, d.table, d.LastRow(s.tempBands), s.table, s.LastRow(s.tempBands), s.tempBands, d.Size());
    }
  }

  lemma MinRowPrefix(t: seq<int>, t': seq<int>, row: int, u: seq<int>, row': int, n: nat, size: nat)
    requires size <= |t| && size <= |t'| && forall e :: 0 <= e < size ==> t[e] == t'[e]
    ensures forall e :: 0 <= e < size ==> MinRow(t, row, u, row', n)[e] == MinRow(t', row, u, row', n)[e]
  {}

  /** Once the cap is 0 it stays 0, whatever follows. */
  lemma {:induction false} CapStaysZero(z: Sizes, m: Item, d: Item, items: seq<Item>, step: int)
    requires step > 0 && AggregateOk(z, m.sdelta) && ItemsOk(z, items)
    requires m.sdelta.cap == 0 && m.open == d.open && HasTableOf(m.sdelta, d.sdelta)
    ensures var r, t := MergeOn(z, m, items, step), Dominant(d, items);
            r.sdelta.cap == 0 && r.open == t.open && HasTableOf(r.sdelta, t.sdelta)
    decreases |items|
  {
    if items != [] {
      var init, c := items[..|items| - 1], items[|items| - 1];
      CapStaysZero(z, m, d, init, step);
      var r, t := MergeOn(z, m, init, step), Dominant(d, init);
      MergedOk(z, r.open, r.sdelta, c.open, c.sdelta, step);
      if r.open < c.open {
        UncappedDominates(r.open, r.sdelta, c.open, c.sdelta, step);
      } else if r.open > c.open {
        UncappedYields(r.open, r.sdelta, c.open, c.sdelta, step, t.sdelta);
      } else {
        TiedHasBoundedTable(r.open, r.sdelta, c.sdelta, step, t.sdelta);
      }
    }
  }

  /** A corner ties with the dominant one of those before it: from then on capping is off. A
      voltage p is protected at the end of the list exactly if the most demanding corner's own
      table protects it, bounded only by those of the corners that tie with it. */
  lemma TieStopsCapping(z: Sizes, before: seq<Item>, tied: Item, after: seq<Item>, step: int, p: int)
    requires step > 0 && ItemsOk(z, before) && InputOk(z, tied.sdelta) && ItemsOk(z, after)
    requires tied.open == MaxOpen(before)
    ensures var items := before + [tied] + after;
            var d := Dominant(Dominant(MergeAll(z, before, step), [tied]), after);
            ItemsOk(z, items) &&
            var r := MergeAll(z, items, step);
            r.sdelta.cap == 0 && r.open == d.open && (r.sdelta.TableUsed() ==> d.sdelta.TableUsed()) &&
            (d.sdelta.TableUsed() ==>
              d.sdelta.Size() <= |d.sdelta.table| &&
              (Protects(r.sdelta, r.open, p, step) <==> Protects(d.sdelta, d.open, p, step)))
  {
    var reset, m := Item(0, Reset(z)), MergeAll(z, before, step);
    MergeOnOne(z, m, tied, step);
    TiedHasBoundedTable(m.open, m.sdelta, tied.sdelta, step, m.sdelta);
    assert Dominant(m, [tied][..0]) == m;
    var t := Dominant(m, [tied]);
    CapStaysZero(z, MergeOn(z, m, [tied], step), t, after, step);
    MergeOnConcat(z, reset, before, [tied], step);
    MergeOnConcat(z, reset, before + [tied], after, step);
  }

  /** A lower corner that follows a tie is protected exactly if the entries of the tied tables
      protect it by themselves. */
  lemma LowerAfterTieExactly(z: Sizes, before: seq<Item>, tied: Item, low: Item, step: int)
    requires step > 0 && ItemsOk(z, before) && InputOk(z, tied.sdelta) && InputOk(z, low.sdelta)
    requires tied.open == MaxOpen(before) && low.open < tied.open
    ensures ItemsOk(z, before + [tied] + [low])
    ensures var a, r := MergeAll(z, before, step).sdelta, MergeAll(z, before + [tied] + [low], step);
            Protects(r.sdelta, tied.open, low.open, step) <==>
            forall e :: 0 <= e < a.Size() ==> tied.open - TieEntry(a, tied.sdelta, e) * step >= low.open
  {
    var reset, m := Item(0, Reset(z)), MergeAll(z, before, step);
    MergeOnOne(z, m, tied, step);
    var t := MergeOn(z, m, [tied], step);
    MergeOnOne(z, t, low, step);
    MergeOnConcat(z, reset, before, [tied], step);
    MergeOnConcat(z, reset, before + [tied], [low], step);
    TiedThenLower(tied.open, m.sdelta, tied.sdelta, low.open, low.sdelta, step);
  }

  lemma TiedThenLower(open: int, a: Sdelta, tied: Sdelta, low: int, s: Sdelta, step: int)
    requires step > 0 && low < open && Fits(a, tied) && Fits(Merged(open, a, open, tied, step), s)
    ensures var r := Merged(open, Merged(open, a, open, tied, step), low, s, step);
            Protects(r, open, low, step) <==>
            forall e :: 0 <= e < a.Size() ==> open - TieEntry(a, tied, e) * step >= low
  {
    var t := Merged(open, a, open, tied, step);
    forall e | 0 <= e < a.Size() ensures t.table[e] == TieEntry(a, tied, e) {}
  }

  /** An entry of the table after a tie: in the last row the smaller one, if both corners use
      temperature adjustment. */
  function TieEntry(a: Sdelta, tied: Sdelta, e: nat): int
    requires a.Size() <= |a.table| && e < a.Size()
  {
    var row, row' := a.LastRow(tied.tempBands), tied.LastRow(tied.tempBands);
    if a.allowTemp && tied.allowTemp && row <= e < row + tied.tempBands && 0 <= row' + (e - row) < |tied.table|
    then Min(a.table[e], tied.table[row' + (e - row)]) else a.table[e]
  }

  /** A higher corner that follows a tie protects the tied ones exactly if its own table does. */
  lemma HigherAfterTieExactly(z: Sizes, before: seq<Item>, tied: Item, high: Item, step: int)
    requires step > 0 && ItemsOk(z, before) && InputOk(z, tied.sdelta) && InputOk(z, high.sdelta)
    requires tied.open == MaxOpen(before) && tied.open < high.open && high.sdelta.TableUsed()
    ensures ItemsOk(z, before + [tied] + [high])
    ensures Protects(MergeAll(z, before + [tied] + [high], step).sdelta, high.open, tied.open, step) <==>
            Protects(high.sdelta, high.open, tied.open, step)
  {
    TieStopsCapping(z, before, tied, [high], step, tied.open);
    var d := Dominant(MergeAll(z, before, step), [tied]);
    assert Dominant(MergeAll(z, before, step), [tied][..0]) == MergeAll(z, before, step);
    assert Dominant(d, [high][..0]) == d;
  }

  function OneEntry(entry: int): Sdelta { Sdelta(false, true, 1, 1, INT_MAX, [entry], false, 0, []) }

  lemma OneEntryAlone(z: Sizes, open: int, entry: int, step: int)
    requires z == Sizes(1, 1, 1) && 0 < open < INT_MAX && entry * step <= open && step > 0
    ensures InputOk(z, OneEntry(entry)) && ItemsOk(z, [Item(open, OneEntry(entry))])
    ensures var m := MergeAll(z, [Item(open, OneEntry(entry))], step);
            m.open == MaxOpen([Item(open, OneEntry(entry))]) == open && m.sdelta.table == [entry] &&
            m.sdelta.Size() == 1 &&
            m.sdelta.allowTemp
  {
    MergeOnOne(z, Item(0, Reset(z)), Item(open, OneEntry(entry)), step);
    assert [Item(open, OneEntry(entry))][..0] == [];
    DivAtLeast(open, step, entry);
  }

  /** Two corners at 800 and one at 790 below them: entries of 5 steps of 10 take the supply to
      750. */
  lemma TieLosesHeadroom() returns (z: Sizes, before: seq<Item>, tied: Item, low: Item)
    ensures ItemsOk(z, before) && InputOk(z, tied.sdelta) && InputOk(z, low.sdelta) &&
            ItemsOk(z, before + [tied] + [low])
    ensures tied.open == MaxOpen(before) && low.open < tied.open
    ensures var r := MergeAll(z, before + [tied] + [low], 10); !Protects(r.sdelta, tied.open, low.open, 10)
  {
    z, before, tied, low := Sizes(1, 1, 1), [Item(800, OneEntry(5))], Item(800, OneEntry(5)), Item(790, OneEntry(5));
    OneEntryAlone(z, 800, 5, 10);
    OneEntryAlone(z, 790, 5, 10);
    LowerAfterTieExactly(z, before, tied, low, 10);
    assert TieEntry(MergeAll(z, before, 10).sdelta, tied.sdelta, 0) == 5;
  }

  /** And one at 900 above them: an entry of 11 steps takes it to 790. */
  lemma TieLosesHeadroomBelow() returns (z: Sizes, before: seq<Item>, tied: Item, high: Item)
    ensures ItemsOk(z, before) && InputOk(z, tied.sdelta) && InputOk(z, high.sdelta) &&
            ItemsOk(z, before + [tied] + [high])
    ensures tied.open == MaxOpen(before) && tied.open < high.open
    ensures var r := MergeAll(z, before + [tied] + [high], 10); !Protects(r.sdelta, high.open, tied.open, 10)
  {
    z, before, tied, high := Sizes(1, 1, 1), [Item(800, OneEntry(5))], Item(800, OneEntry(5)), Item(900, OneEntry(11));
    OneEntryAlone(z, 800, 5, 10);
    OneEntryAlone(z, 900, 11, 10);
    HigherAfterTieExactly(z, before, tied, high, 10);
    assert high.sdelta.Size() == 1 && 900 - high.sdelta.table[0] * 10 < 800;
  }

  // -------------------------------------------------------------------- boost

  /** How many of the boost entries of c are taken into m. */
  function BoostBands(m: Item, c: Item): nat {
    if m.open > c.open then m.sdelta.tempBands else c.sdelta.tempBands
  }

  /** The boosted voltage of entry i is not below p. */
  predicate Boosted(m: Item, i: nat, p: int, step: int)
    requires i < |m.sdelta.boostTable|
  {
    m.open - m.sdelta.boostTable[i] * step >= p
  }

  ghost predicate NoBoost(items: seq<Item>) {
    forall k :: 0 <= k < |items| ==> !items[k].sdelta.allowBoost
  }

  lemma ShiftedBoostKept(b: int, q: int, diff: int, step: int)
    requires step > 0 && diff >= 0 && q == TruncDiv(diff, step)
    ensures Min(b + q, 0) * step <= b * step + diff
  {
    DivBounds(diff, step);
    MulLe(Min(b + q, 0), b + q, step);
    assert (b + q) * step == b * step + q * step;
  }

  /** Merging a corner with boost: what its entries stand for is kept, where they are taken over. */
  lemma BoostTaken(z: Sizes, m: Item, c: Item, step: int, i: nat)
    requires step > 0 && AggregateOk(z, m.sdelta) && InputOk(z, c.sdelta) && c.sdelta.allowBoost && i < BoostBands(m, c)
    ensures var r := MergeOn(z, m, [c], step);
            i < |r.sdelta.boostTable| && i < |c.sdelta.boostTable| && r.sdelta.allowBoost &&
            Boosted(r, i, c.open - c.sdelta.boostTable[i] * step, step)
  {
    MergeOnOne(z, m, c, step);
    if m.open > c.open {
      ShiftedBoostKept(c.sdelta.boostTable[i], TruncDiv(m.open - c.open, step), m.open - c.open, step);
    }
  }

  /** Merging one without boost: it is kept. */
  lemma BoostStays(z: Sizes, m: Item, c: Item, step: int, i: nat, p: int)
    requires step > 0 && AggregateOk(z, m.sdelta) && InputOk(z, c.sdelta) && !c.sdelta.allowBoost
    requires m.sdelta.allowBoost && i < z.boost && Boosted(m, i, p, step)
    ensures var r := MergeOn(z, m, [c], step); r.sdelta.allowBoost && Boosted(r, i, p, step)
  {
    MergeOnOne(z, m, c, step);
    if m.open < c.open {
      ShiftedBoostKept(m.sdelta.boostTable[i], TruncDiv(c.open - m.open, step), c.open - m.open, step);
    }
  }

  lemma {:induction false} BoostStaysOver(z: Sizes, m: Item, items: seq<Item>, step: int, i: nat, p: int)
    requires step > 0 && AggregateOk(z, m.sdelta) && ItemsOk(z, items) && NoBoost(items)
    requires m.sdelta.allowBoost && i < z.boost && Boosted(m, i, p, step)
    ensures var r := MergeOn(z, m, items, step); r.sdelta.allowBoost && Boosted(r, i, p, step)
    decreases |items|
  {
    if items != [] {
      var init, c := items[..|items| - 1], items[|items| - 1];
      BoostStaysOver(z, m, init, step, i, p);
      BoostStays(z, MergeOn(z, m, init, step), c, step, i, p);
      MergeOnOne(z, MergeOn(z, m, init, step), c, step);
    }
  }

  /** Whatever comes before a corner with boost, and whatever without boost follows it: each of its
      boost entries that is taken over keeps the voltage that it stands for. */
  lemma BoostIsKept(z: Sizes, before: seq<Item>, c: Item, after: seq<Item>, step: int, i: nat)
    requires step > 0 && ItemsOk(z, before) && InputOk(z, c.sdelta) && ItemsOk(z, after) && NoBoost(after)
    requires c.sdelta.allowBoost && i < BoostBands(MergeAll(z, before, step), c)
    ensures ItemsOk(z, before + [c] + after)
    ensures var r := MergeAll(z, before + [c] + after, step);
            i < |r.sdelta.boostTable| && i < |c.sdelta.boostTable| && r.sdelta.allowBoost &&
            Boosted(r, i, c.open - c.sdelta.boostTable[i] * step, step)
  {
    var reset, m := Item(0, Reset(z)), MergeAll(z, before, step);
    BoostTaken(z, m, c, step, i);
    BoostStaysOver(z, MergeOn(z, m, [c], step), after, step, i, c.open - c.sdelta.boostTable[i] * step);
    MergeOnConcat(z, reset, before, [c], step);
    MergeOnConcat(z, reset, before + [c], after, step);
  }

  /** Before any boost the boost table is as it was reset. */
  lemma {:induction false} NoBoostYet(z: Sizes, items: seq<Item>, step: int)
    requires step > 0 && ItemsOk(z, items) && NoBoost(items)
    ensures var m := MergeAll(z, items, step).sdelta; !m.allowBoost && m.boostTable == Reset(z).boostTable
    decreases |items|
  {
    if items != [] {
      var m, c := MergeAll(z, items[..|items| - 1], step), items[|items| - 1];
      NoBoostYet(z, items[..|items| - 1], step);
      MergedOk(z, m.open, m.sdelta, c.open, c.sdelta, step);
    }
  }

  lemma ZeroBoostStep(open: int, a: Sdelta, open': int, s: Sdelta, step: int, i: nat)
    requires step > 0 && Fits(a, s) && !s.allowBoost && i < |a.boostTable| && a.boostTable[i] == 0
    ensures Merged(open, a, open', s, step).boostTable[i] == 0
  {
    if open < open' && a.allowBoost && i < a.tempBands {
      assert Min(0 + TruncDiv(open' - open, step), 0) == 0;
      assert ShiftBoost(a.boostTable, a.tempBands, TruncDiv(open' - open, step))[i] == 0;
    }
  }

  /** An entry that nothing has been taken into stays 0. */
  lemma {:induction false} ZeroBoostStays(z: Sizes, m: Item, items: seq<Item>, step: int, i: nat)
    requires step > 0 && AggregateOk(z, m.sdelta) && ItemsOk(z, items) && NoBoost(items)
    requires i < z.boost && m.sdelta.boostTable[i] == 0
    ensures MergeOn(z, m, items, step).sdelta.boostTable[i] == 0
    decreases |items|
  {
    if items != [] {
      var init, c := items[..|items| - 1], items[|items| - 1];
      var r := MergeOn(z, m, init, step);
      ZeroBoostStays(z, m, init, step, i);
      MergedOk(z, r.open, r.sdelta, c.open, c.sdelta, step);
      ZeroBoostStep(r.open, r.sdelta, c.open, c.sdelta, step, i);
    }
  }

  /** The one corner with boost that the driver admits: an entry keeps the voltage that it stands
      for exactly if it is taken over, or the open-loop voltage reaches that anyway. Nothing is
      taken over where the dominant corner has no temperature bands. */
  lemma SingleBoostExactly(z: Sizes, before: seq<Item>, c: Item, after: seq<Item>, step: int, i: nat)
    requires step > 0 && ItemsOk(z, before) && InputOk(z, c.sdelta) && ItemsOk(z, after)
    requires NoBoost(before) && c.sdelta.allowBoost && NoBoost(after) && i < z.bands
    ensures ItemsOk(z, before + [c] + after)
    ensures var r, p := MergeAll(z, before + [c] + after, step), c.open - c.sdelta.boostTable[i] * step;
            Boosted(r, i, p, step) <==> i < BoostBands(MergeAll(z, before, step), c) || r.open >= p
  {
    if i < BoostBands(MergeAll(z, before, step), c) {
      BoostIsKept(z, before, c, after, step, i);
    } else {
      var reset, m := Item(0, Reset(z)), MergeAll(z, before, step);
      NoBoostYet(z, before, step);
      MergeOnOne(z, m, c, step);
      ZeroBoostStays(z, MergeOn(z, m, [c], step), after, step, i);
      MergeOnConcat(z, reset, before, [c], step);
      MergeOnConcat(z, reset, before + [c], after, step);
    }
  }

  /** The entry that a corner with boost leaves, whatever was there. */
  function BoostEntry(m: Item, c: Item, i: nat, step: int): int
    requires step > 0 && i < |c.sdelta.boostTable|
  {
    if m.open > c.open then Min(c.sdelta.boostTable[i] + TruncDiv(m.open - c.open, step), 0) else c.sdelta.boostTable[i]
  }

  /** A second corner with boost overwrites the entries of the first: a voltage p of the first is
      kept exactly if the second one's entry happens to keep it. */
  lemma SecondBoostExactly(z: Sizes, m: Item, c: Item, step: int, i: nat, p: int)
    requires step > 0 && AggregateOk(z, m.sdelta) && InputOk(z, c.sdelta) && c.sdelta.allowBoost && i < BoostBands(m, c)
    ensures var r := MergeOn(z, m, [c], step);
            i < |r.sdelta.boostTable| && i < |c.sdelta.boostTable| &&
            (Boosted(r, i, p, step) <==> Max(m.open, c.open) - BoostEntry(m, c, i, step) * step >= p)
  {
    MergeOnOne(z, m, c, step);
  }

  /** After 900, 800 with a boost of 20 steps is to have 1000 and gets it; 890 with a boost of one
      step then takes that away. */
  lemma SecondBoostLosesFirst() returns (z: Sizes, m: Item, first: Item, second: Item)
    ensures AggregateOk(z, m.sdelta) && InputOk(z, first.sdelta) && InputOk(z, second.sdelta)
    ensures var r := MergeOn(z, m, [first], 10); |r.sdelta.boostTable| == 1 && Boosted(r, 0, 1000, 10)
    ensures var r := MergeOn(z, MergeOn(z, m, [first], 10), [second], 10);
            |r.sdelta.boostTable| == 1 && !Boosted(r, 0, 1000, 10)
  {
    z := Sizes(1, 1, 1);
    m := Item(900, Sdelta(false, true, 1, 1, INT_MAX, [0], false, 0, [0]));
    first := Item(800, Sdelta(false, false, 0, 1, INT_MAX, [], true, 2, [-20]));
    second := Item(890, Sdelta(false, false, 0, 1, INT_MAX, [], true, 2, [-1]));
    SecondBoostExactly(z, m, first, 10, 0, 1000);
    MergeOnOne(z, m, first, 10);
    SecondBoostExactly(z, MergeOn(z, m, [first], 10), second, 10, 0, 1000);
  }

  // ------------------------------------------------- the table in place, in loops

  /** The nested loop that bounds the table by the cap. */
  method BoundTable(table: array<int>, coreCount: nat, bandCount: nat, capSteps: int)
    requires coreCount * bandCount <= table.Length
    modifies table
    ensures table[..] == MinPrefix(old(table[..]), coreCount * bandCount, capSteps)
  {
    ghost var was := table[..];
    for i := 0 to coreCount
      invariant i * bandCount <= table.Length
      invariant forall k :: 0 <= k < i * bandCount ==> table[k] == Min(was[k], capSteps)
      invariant forall k :: i * bandCount <= k < table.Length ==> table[k] == was[k]
    {
      ghost var row := i * bandCount;
      assert (i + 1) * bandCount == row + bandCount;
      MulLe(i + 1, coreCount, bandCount);
      for j := 0 to bandCount
        invariant forall k :: 0 <= k < row + j ==> table[k] == Min(was[k], capSteps)
        invariant forall k :: row + j <= k < table.Length ==> table[k] == was[k]
      {
        var index := i * bandCount + j;
        table[index] := Min(table[index], capSteps);
      }
    }
  }

  /** lo and hi are the least and greatest of the first n entries. */
  ghost predicate Range(t: seq<int>, n: nat, lo: int, hi: int)
    requires n <= |t|
  {
    if n == 0 then lo == INT_MAX && hi == -INT_MAX - 1
    else lo in t[..n] && hi in t[..n] && forall k :: 0 <= k < n ==> lo <= t[k] <= hi
  }

  lemma RangeStep(t: seq<int>, n: nat, lo: int, hi: int)
    requires n < |t| && Range(t, n, lo, hi) && -INT_MAX - 1 <= t[n] <= INT_MAX
    ensures Range(t, n + 1, Min(lo, t[n]), Max(hi, t[n]))
  {
    assert t[..n + 1] == t[..n] + [t[n]];
  }

  /** cpr3_regulator_max_sdelta_diff: the largest voltage difference between two entries. */
  method MaxSdeltaDiff(s: Sdelta, step: int) returns (diff: int)
    requires step > 0 && s.Size() <= |s.table|
    requires forall k :: 0 <= k < s.Size() ==> -INT_MAX - 1 <= s.table[k] <= INT_MAX
    ensures s.Size() > 0 && Narrow(s.table[..s.Size()]) ==> IsSpread(s.table[..s.Size()], step, diff)
    ensures s.Size() == 0 ==> diff == step
    ensures Aligned(diff, step) && (Narrow(s.table[..s.Size()]) ==> diff >= 0)
  {
    var lo, hi := INT_MAX, -INT_MAX - 1;
    ghost var row, n := 0, s.Size();
    for i := 0 to s.maxCore
      invariant row == i * s.tempBands <= n && Range(s.table, row, lo, hi)
    {
      MulLe(i + 1, s.maxCore, s.tempBands);
      assert (i + 1) * s.tempBands == row + s.tempBands;
      for j := 0 to s.tempBands
        invariant Range(s.table, row + j, lo, hi)
      {
        var index := i * s.tempBands + j;
        RangeStep(s.table, index, lo, hi);
        lo := Min(lo, s.table[index]);
        hi := Max(hi, s.table[index]);
      }
      row := row + s.tempBands;
    }
    RangeOfPrefix(s.table, n, lo, hi);
    if Narrow(s.table[..n]) {
      SpreadFacts(s.table[..n], lo, hi, step);
    }
    diff := ToInt32(hi - lo) * step;
    MulMod(ToInt32(hi - lo), step);
  }

  lemma RangeOfPrefix(t: seq<int>, n: nat, lo: int, hi: int)
    requires n <= |t| && Range(t, n, lo, hi)
    ensures Range(t[..n], n, lo, hi)
  {
    assert t[..n][..n] == t[..n];
  }

  /** No two entries are further apart than an int can tell. */
  ghost predicate Narrow(t: seq<int>) {
    forall k, l :: 0 <= k < |t| && 0 <= l < |t| ==> t[k] - t[l] <= INT_MAX
  }

  /** diff is the greatest difference of two entries, in steps. */
  ghost predicate IsSpread(t: seq<int>, step: int, diff: int) {
    (forall k, l :: 0 <= k < |t| && 0 <= l < |t| ==> (t[k] - t[l]) * step <= diff) &&
    exists k, l :: 0 <= k < |t| && 0 <= l < |t| && (t[k] - t[l]) * step == diff
  }

  /** Without entries the difference of the two limits wraps around to 1. */
  lemma SpreadFacts(t: seq<int>, lo: int, hi: int, step: int)
    requires step > 0 && Range(t, |t|, lo, hi) && Narrow(t)
    ensures var diff := ToInt32(hi - lo) * step;
            diff >= 0 && if t == [] then diff == step else IsSpread(t, step, diff)
  {
    if t != [] {
      SpreadOfSome(t, lo, hi, step);
    }
  }

  lemma SpreadOfSome(t: seq<int>, lo: int, hi: int, step: int)
    requires step > 0 && t != [] && Range(t, |t|, lo, hi) && Narrow(t)
    ensures ToInt32(hi - lo) == hi - lo && (hi - lo) * step >= 0
    ensures IsSpread(t, step, (hi - lo) * step)
  {
    assert t[..|t|] == t;
    var l, k :| 0 <= l < |t| && 0 <= k < |t| && t[l] == lo && t[k] == hi;
    assert t[k] - t[l] <= INT_MAX;
    ToInt32Small(hi - lo);
    assert (t[k] - t[l]) * step == (hi - lo) * step;
    forall k, l | 0 <= k < |t| && 0 <= l < |t| ensures (t[k] - t[l]) * step <= (hi - lo) * step {
      MulLe(t[k] - t[l], hi - lo, step);
    }
    MulLe(0, hi - lo, step);
  }

  method Memset(a: array<int>, n: nat)
    requires n <= a.Length
    modifies a
    ensures a[..] == seq(n, _ => 0) + old(a[..])[n..]
  {
    forall i | 0 <= i < n { a[i] := 0; }
  }

  method Memcpy(a: array<int>, from: seq<int>, n: nat)
    requires n <= a.Length && n <= |from|
    modifies a
    ensures a[..] == from[..n] + old(a[..])[n..]
  {
    forall i | 0 <= i < n { a[i] := from[i]; }
  }

  /** The loops that move boost margins: a[i] becomes min(from[i] + steps, 0). */
  method MoveBoost(a: array<int>, from: seq<int>, n: nat, steps: int)
    requires n <= a.Length && n <= |from|
    modifies a
    ensures a[..] == ShiftBoost(from, n, steps) + old(a[..])[n..]
  {
    ghost var was := a[..];
    for i := 0 to n
      invariant forall k :: 0 <= k < i ==> a[k] == Min(from[k] + steps, 0)
      invariant forall k :: i <= k < a.Length ==> a[k] == was[k]
    {
      a[i] := from[i] + steps;
      a[i] := Min(a[i], 0);
    }
  }

  /** The loop over temperature bands for two corners with the same open-loop voltage. */
  method MinRows(a: array<int>, row: nat, from: seq<int>, row': nat, n: nat)
    requires row + n <= a.Length && row' + n <= |from|
    modifies a
    ensures a[..] == MinRow(old(a[..]), row, from, row', n)
  {
    ghost var was := a[..];
    for j := 0 to n
      invariant forall k :: row <= k < row + j ==> a[k] == Min(was[k], from[row' + (k - row)])
      invariant forall k :: 0 <= k < a.Length && !(row <= k < row + j) ==> a[k] == was[k]
    {
      a[row + j] := Min(a[row + j], from[row' + j]);
    }
  }

  /** The aggregated corner's open-loop voltage and sdelta data. */
  class Aggregate {
    var openLoop: int
    var allowCore: bool
    var allowTemp: bool
    var maxCore: nat
    var tempBands: nat
    var cap: int
    const table: array<int>
    var allowBoost: bool
    var boostCores: int
    const boostTable: array<int>

    ghost function Val(): Sdelta
      reads this, table, boostTable
    {
      Sdelta(allowCore, allowTemp, maxCore, tempBands, cap, table[..], allowBoost, boostCores, boostTable[..])
    }

    constructor (z: Sizes)
      ensures Val() == Reset(z) && openLoop == 0 && fresh(table) && fresh(boostTable) && table != boostTable
    {
      openLoop, allowCore, allowTemp, maxCore, tempBands, cap := 0, false, false, 0, 0, INT_MAX;
      table := new int[z.table](_ => 0);
      allowBoost, boostCores := false, 0;
      boostTable := new int[z.boost](_ => 0);
      new;
      assert table[..] == seq(z.table, _ => 0) && boostTable[..] == seq(z.boost, _ => 0);
    }

    /** cpr3_regulator_aggregate_sdelta. */
    method AggregateSdelta(open: int, s: Sdelta, step: int)
      requires step > 0 && table != boostTable && Fits(Val(), s)
      modifies this, table, boostTable
      ensures openLoop == Max(old(openLoop), open)
      ensures Val() == Merged(old(openLoop), old(Val()), open, s, step)
    {
      if openLoop < open {
        TakeOver(open, s, step);
      } else if openLoop > open {
        GiveWay(open, s, step);
      } else {
        Equalize(s);
      }
      allowBoost := allowBoost || s.allowBoost;
      if allowBoost {
        allowCore := false;
      }
      if cap != 0 && cap != INT_MAX {
        var capSteps := TruncDiv(cap, step);
        BoundTable(table, maxCore, tempBands, capSteps);
      }
    }

    method TakeOver(open: int, s: Sdelta, step: int)
      requires step > 0 && table != boostTable && Fits(Val(), s) && openLoop < open
      modifies this, table, boostTable
      ensures openLoop == open && Val() == Dominate(old(openLoop), old(Val()), open, s, step)
    {
      cap := Min(cap, open - openLoop);
      if allowCore || allowTemp {
        Memset(table, maxCore * tempBands);
      }
      if s.allowTemp || s.allowCore {
        Memcpy(table, s.table, s.Size());
      }
      if s.allowBoost {
        Memcpy(boostTable, s.boostTable, s.tempBands);
        boostCores := s.boostCores;
      } else if allowBoost {
        MoveBoost(boostTable, boostTable[..], tempBands, TruncDiv(open - openLoop, step));
      }
      openLoop := open;
      allowTemp, allowCore, maxCore, tempBands := s.allowTemp, s.allowCore, s.maxCore, s.tempBands;
    }

    method GiveWay(open: int, s: Sdelta, step: int)
      requires step > 0 && table != boostTable && Fits(Val(), s) && openLoop > open
      modifies this, table, boostTable
      ensures openLoop == old(openLoop) && Val() == Yield(openLoop, old(Val()), open, s, step)
    {
      cap := Min(cap, openLoop - open);
      if s.allowBoost {
        MoveBoost(boostTable, s.boostTable, tempBands, TruncDiv(openLoop - open, step));
        boostCores := s.boostCores;
      }
    }

    method Equalize(s: Sdelta)
      requires table != boostTable && Fits(Val(), s)
      modifies this, table, boostTable
      ensures openLoop == old(openLoop) && Val() == Tie(old(Val()), s)
    {
      ghost var a := Val();
      cap, allowCore := 0, false;
      if allowTemp && s.allowTemp {
        LastRowFits(maxCore, s.tempBands);
        LastRowFits(s.maxCore, s.tempBands);
        var row, row' := (maxCore - 1) * s.tempBands, (s.maxCore - 1) * s.tempBands;
        assert row == a.LastRow(s.tempBands) && row' == s.LastRow(s.tempBands);
        MinRows(table, row, s.table, row', s.tempBands);
        assert table[..] == MinRow(a.table, row, s.table, row', s.tempBands);
      } else {
        allowTemp := false;
      }
      ghost var rows := table[..];
      assert rows == Tie(a, s).table;
      assert boostTable[..] == a.boostTable;
      if s.allowBoost {
        Memcpy(boostTable, s.boostTable, s.tempBands);
        boostCores := s.boostCores;
      }
      assert table[..] == rows;
    }
  }

  lemma LastRowFits(rows: nat, cols: nat)
    requires rows >= 1
    ensures 0 <= (rows - 1) * cols && (rows - 1) * cols + cols == rows * cols
  {}
}
