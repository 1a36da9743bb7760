/** Who owns an skb: what an allocation hands out, where a consume puts it, and that no skb is
    handed out twice unless its owner has given it up in between. */
module SkbOwners {
  import opened SkbRecycler

  /** x is in no list of the recycler, and not freed. */
  ghost predicate InNoList(s: State, x: Skb) {
    Flat(s.hot)[x] == Flat(s.spare)[x] == Flat(s.pool)[x] == Flat(s.draining)[x] == s.freed[x] == 0
  }

  /** Other CPUs' lists, the spare lists, and what is being freed are as before. */
  ghost predicate OnlyHotOf(s: State, t: State, cpu: nat) {
    |t.hot| == |s.hot| && (forall c :: 0 <= c < |s.hot| && c != cpu ==> t.hot[c] == s.hot[c]) &&
    t.spare == s.spare && t.draining == s.draining && t.freed == s.freed
  }

  /** The skb comes off the front of the hot list or, if that is empty, of the oldest batch in the
      ring, the rest of which becomes the hot list. */
  ghost predicate TakenFrom(s: State, t: State, cpu: nat, skb: Skb)
    requires s.Shape() && t.Shape() && cpu < |s.hot| == |t.hot|
  {
    if s.hot[cpu] != [] then s.hot[cpu] == [skb] + t.hot[cpu] && t.Queue() == s.Queue()
    else s.Queue() != [] && s.Queue()[0] == [skb] + t.hot[cpu] && t.Queue() == s.Queue()[1..]
  }

  lemma AllocTakesHot(s: State, cpu: nat, length: nat)
    requires s.Shape() && s.OutsideEmpty() && cpu < |s.hot| && s.hot[cpu] != [] && length <= RECYCLE_SIZE
    ensures var (t, skb) := AllocState(s, cpu, length);
            t.Shape() && OnlyHotOf(s, t, cpu) && skb.Some? && t.held == s.held + multiset{skb.value} &&
            TakenFrom(s, t, cpu, skb.value)
  {
    SameQueue(s, AllocState(s, cpu, length).0);
    assert s.hot[cpu] == [s.hot[cpu][0]] + s.hot[cpu][1..];
  }

  lemma AllocTakesBatch(s: State, cpu: nat, length: nat)
    requires s.Shape() && s.OutsideEmpty() && cpu < |s.hot| && s.hot[cpu] == [] && length <= RECYCLE_SIZE
    ensures var (t, skb) := AllocState(s, cpu, length);
            t.Shape() && OnlyHotOf(s, t, cpu) &&
            match skb
            case None => t.held == s.held
            case Some(b) => t.held == s.held + multiset{b} && TakenFrom(s, t, cpu, b)
  {
    RingCapacity(s);
    AllocQueue(s, cpu, length);
    if s.head != s.tail {
      RefillQueue(s, cpu);
      var batch := s.Queue()[0];
      assert batch + [] == batch;
      assert batch != [] ==> batch == [batch[0]] + batch[1..];
    }
  }

  /** An allocation gives the caller exactly the skb that it returns, which nobody had and which is
      in no list afterwards; one that fails gives nothing. */
  lemma AllocHandsOut(s: State, cpu: nat, length: nat)
    requires s.Inv() && cpu < |s.hot|
    ensures var (t, skb) := AllocState(s, cpu, length);
            t.Inv() && OnlyHotOf(s, t, cpu) &&
            match skb
            case None => t.held == s.held
            case Some(b) =>
              t.held == s.held + multiset{b} && s.held[b] == 0 && InNoList(t, b) && TakenFrom(s, t, cpu, b)
  {
    var (t, skb) := AllocState(s, cpu, length);
    StepConserves(s, AllocStep(cpu, length));
    if length <= RECYCLE_SIZE {
      if s.hot[cpu] != [] {
        AllocTakesHot(s, cpu, length);
      } else {
        AllocTakesBatch(s, cpu, length);
      }
    }
    if skb.Some? {
      assert t.Places(skb.value) <= 1;
    }
  }

  /** A consume that is accepted takes the skb from the caller and puts it in front of the hot list,
      or of the spare list if the hot list is full, or alone on the spare list once that has
      become the newest batch in the ring. */
  lemma ConsumePlaces(s: State, cpu: nat, skb: Skb, recyclable: bool)
    requires s.Inv() && cpu < |s.hot| && skb in s.held && ConsumeState(s, cpu, skb, recyclable).1
    ensures var t := ConsumeState(s, cpu, skb, recyclable).0;
            t.Shape() && t.held == s.held - multiset{skb} && t.freed == s.freed && t.draining == s.draining &&
            (if |s.hot[cpu]| < s.maxHot then
              t.hot == s.hot[cpu := [skb] + s.hot[cpu]] && t.spare == s.spare && t.Queue() == s.Queue()
            else if |s.spare[cpu]| < s.maxSpare then
              t.hot == s.hot && t.spare == s.spare[cpu := [skb] + s.spare[cpu]] && t.Queue() == s.Queue()
            else
              t.hot == s.hot && t.spare == s.spare[cpu := [skb]] && t.Queue() == s.Queue() + [s.spare[cpu]])
  {
    ConsumeQueue(s, cpu, skb, recyclable);
    RingCapacity(s);
    assert [skb] + [] == [skb];
    assert s.spare[cpu := []][cpu := [skb]] == s.spare[cpu := [skb]];
  }

  // -------------------------------------------------------------- whole lists

  /** A list is accepted exactly if the hot list is below its limit, and a refused one changes
      nothing. */
  lemma ConsumeListExactly(s: State, cpu: nat, list: seq<Skb>)
    requires s.Inv() && cpu < |s.hot| && multiset(list) <= s.held
    ensures var (t, taken) := ConsumeListState(s, cpu, list);
            (taken <==> |s.hot[cpu]| < s.maxHot) && (!taken ==> t == s) &&
            (taken ==> t.Inv() && t.Queue() == s.Queue() && t.held == s.held - multiset(list))
  {
    StepConserves(s, ConsumeListStep(cpu, list));
    if |s.hot[cpu]| < s.maxHot {
      SameQueue(s, ConsumeListState(s, cpu, list).0);
    }
  }

  /** n allocations on one CPU: the state and the skbs that they hand out, in order. */
  function Allocs(s: State, cpu: nat, length: nat, n: nat): (State, seq<Skb>)
    requires s.Shape() && cpu < |s.hot| && length <= RECYCLE_SIZE && n <= |s.hot[cpu]|
    decreases n
  {
    if n == 0 then (s, [])
    else
      var (t, skb) := AllocState(s, cpu, length);
      var (u, rest) := Allocs(t, cpu, length, n - 1);
      (u, [skb.value] + rest)
  }

  /** The hot list is handed out from the front. */
  lemma {:induction false} AllocsInOrder(s: State, cpu: nat, length: nat, n: nat)
    requires s.Shape() && cpu < |s.hot| && length <= RECYCLE_SIZE && n <= |s.hot[cpu]|
    ensures Allocs(s, cpu, length, n) ==
            (s.(hot := s.hot[cpu := s.hot[cpu][n..]], held := s.held + multiset(s.hot[cpu][..n])), s.hot[cpu][..n])
    decreases n
  {
    if n == 0 {
      assert s.hot[cpu][0..] == s.hot[cpu] && s.hot[cpu := s.hot[cpu]] == s.hot;
      assert s.held + multiset(s.hot[cpu][..0]) == s.held;
    } else {
      var t := AllocState(s, cpu, length).0;
      AllocsInOrder(t, cpu, length, n - 1);
      assert s.hot[cpu][..n] == [s.hot[cpu][0]] + t.hot[cpu][..n - 1];
      assert t.hot[cpu][n - 1..] == s.hot[cpu][n..];
      assert t.hot[cpu := s.hot[cpu][n..]] == s.hot[cpu := s.hot[cpu][n..]];
      assert s.held + multiset{s.hot[cpu][0]} + multiset(t.hot[cpu][..n - 1]) == s.held + multiset(s.hot[cpu][..n]);
    }
  }

  /** As many allocations on that CPU hand out an accepted list in its order, and restore the
      recycler. */
  lemma AllocsUndoConsumeList(s: State, cpu: nat, list: seq<Skb>, length: nat)
    requires s.Inv() && cpu < |s.hot| && multiset(list) <= s.held && length <= RECYCLE_SIZE
    requires ConsumeListState(s, cpu, list).1
    ensures var t := ConsumeListState(s, cpu, list).0;
            t.Shape() && |list| <= |t.hot[cpu]| && Allocs(t, cpu, length, |list|) == (s, list)
  {
    var t := ConsumeListState(s, cpu, list).0;
    AllocsInOrder(t, cpu, length, |list|);
    assert t.hot[cpu][..|list|] == list && t.hot[cpu][|list|..] == s.hot[cpu];
    assert t.hot[cpu := s.hot[cpu]] == s.hot;
    assert s.held - multiset(list) + multiset(list) == s.held;
  }

  /** Once a CPU is dead both its lists are empty, and exactly what was in them is freed. */
  lemma DeadCpuIsEmpty(s: State, cpu: nat)
    requires s.Inv() && cpu < |s.hot|
    ensures var t := Next(s, DeadHot(cpu));
            t.Shape() && var u := Next(t, DeadSpare(cpu));
            u.hot == s.hot[cpu := []] && u.spare == s.spare[cpu := []] && u.pool == s.pool && u.held == s.held &&
            u.freed == s.freed + multiset(s.hot[cpu]) + multiset(s.spare[cpu])
  {
    assert s.hot[cpu := []][cpu] == [];
  }

  /** A flush of a CPU leaves its lists empty, and what was in them on a list to be freed; a freed
      list is empty; and after the flush of the ring the queue is empty. */
  lemma FlushesEmpty(s: State, cpu: nat, i: nat)
    requires s.Inv() && cpu < |s.hot|
    ensures Next(s, FlushHot(cpu)) == s.(hot := s.hot[cpu := []], draining := s.draining + [s.hot[cpu]])
    ensures Next(s, FlushSpare(cpu)) == s.(spare := s.spare[cpu := []], draining := s.draining + [s.spare[cpu]])
    ensures i < |s.draining| ==>
              Next(s, FlushFree(i)) == s.(draining := s.draining[i := []], freed := s.freed + multiset(s.draining[i]))
    ensures Next(s, FlushGlobal).Shape() && Next(s, FlushGlobal).Queue() == []
    ensures Next(s, FlushGlobal).freed == s.freed + Flat(s.pool)
  {
    RingRefinesQueue(s, FlushGlobal);
  }

  // -------------------------------------------------------------------- runs

  /** A step by which the owner of b gives it up. */
  predicate GivesUp(step: Step, b: Skb) {
    (step.KernelFree? && step.skb == b) || (step.ConsumeStep? && step.skb == b) ||
    (step.ConsumeListStep? && b in step.list)
  }

  lemma StaysHeldStep(s: State, step: Step, b: Skb)
    requires s.Inv() && Enabled(s, step) && b in s.held && !GivesUp(step, b)
    ensures b in Next(s, step).held
  {}

  lemma {:induction false} StaysHeld(s: State, steps: seq<Step>, b: Skb)
    requires s.Inv() && Valid(s, steps) && b in s.held
    requires forall k :: 0 <= k < |steps| ==> !GivesUp(steps[k], b)
    ensures b in Run(s, steps).held
    decreases steps
  {
    if steps != [] {
      StepConserves(s, steps[0]);
      StaysHeldStep(s, steps[0], b);
      StaysHeld(Next(s, steps[0]), steps[1..], b);
    }
  }

  /** Over every run on any number of CPUs: between two allocations that hand out the same skb, its
      owner has freed or consumed it. */
  lemma HandedOutOnce(s: State, cpu: nat, length: nat, between: seq<Step>, cpu': nat, length': nat, b: Skb)
    requires s.Inv() && cpu < |s.hot| && AllocState(s, cpu, length).1 == Some(b)
    requires AllocState(s, cpu, length).0.Inv() && Valid(AllocState(s, cpu, length).0, between)
    requires var u := Run(AllocState(s, cpu, length).0, between);
             u.Inv() && cpu' < |u.hot| && AllocState(u, cpu', length').1 == Some(b)
    ensures exists k :: 0 <= k < |between| && GivesUp(between[k], b)
  {
    AllocHandsOut(s, cpu, length);
    var t := AllocState(s, cpu, length).0;
    if forall k :: 0 <= k < |between| ==> !GivesUp(between[k], b) {
      StaysHeld(t, between, b);
      AllocHandsOut(Run(t, between), cpu', length');
      assert false;
    }
  }
}
