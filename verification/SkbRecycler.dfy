/** The generic skb recycler: per-CPU hot and spare lists and a ring of batches shared by
    all CPUs. The state and its atomic steps come first, then what every run keeps,
    then the class whose methods carry the steps out. */
module SkbRecycler {
  import opened RingMask

  /** The identity of a buffer; a buffer that is freed and allocated anew is a new one. */
  type Skb = nat

  const RECYCLE_SIZE: nat := 2304
  const MAX_SKBS: nat := 1024
  const SPARE_MAX_SKBS: nat := 256

  datatype Option<T> = None | Some(value: T)

  // ------------------------------------------------------------------- state

  /** `draining` holds the local lists of flushes in progress; `held` what callers own.
      A pool slot is a batch: a list of skbs. */
  datatype State = State(
    hot: seq<seq<Skb>>, spare: seq<seq<Skb>>,
    pool: seq<seq<Skb>>, head: nat, tail: nat,
    draining: seq<seq<Skb>>, held: multiset<Skb>, freed: multiset<Skb>,
    maxHot: nat, maxSpare: nat)
  {
    ghost predicate Shape() {
      |spare| == |hot| && head < |pool| && tail < |pool|
    }

    /** The number of occupied slots of the ring. */
    function Occupied(): nat
      requires Shape()
    {
      if head <= tail then tail - head else tail + |pool| - head
    }

    /** The slot i places after the head. */
    function Slot(i: nat): nat
      requires Shape() && i < |pool|
    {
      if head + i < |pool| then head + i else head + i - |pool|
    }

    /** The FIFO queue of batches that the ring stands for. */
    function Queue(): seq<seq<Skb>>
      requires Shape()
    {
      seq(Occupied(), i requires 0 <= i < Occupied() => pool[Slot(i)])
    }

    /** Slots outside the window from head to tail are empty lists. */
    ghost predicate OutsideEmpty()
      requires Shape()
    {
      forall i :: Occupied() <= i < |pool| ==> pool[Slot(i)] == []
    }

    /** How often x occurs, in all the places an skb can be in. */
    ghost function Places(x: Skb): nat {
      Flat(hot)[x] + Flat(spare)[x] + Flat(pool)[x] + Flat(draining)[x] + held[x] + freed[x]
    }

    /** The shape of the lists, and no skb in two places or twice in one. */
    ghost predicate Inv() {
      Shape() && OutsideEmpty() && forall x :: Places(x) <= 1
    }
  }

  ghost function Flat(ss: seq<seq<Skb>>): multiset<Skb> { FlatTo(ss, |ss|) }

  /** The skbs of the first i lists. */
  ghost function FlatTo(ss: seq<seq<Skb>>, i: nat): multiset<Skb>
    requires i <= |ss|
  {
    if i == 0 then multiset{} else FlatTo(ss, i - 1) + multiset(ss[i - 1])
  }

  lemma {:induction false} FlatToSame(ss: seq<seq<Skb>>, tt: seq<seq<Skb>>, i: nat)
    requires i <= |ss| && i <= |tt| && forall k :: 0 <= k < i ==> ss[k] == tt[k]
    ensures FlatTo(ss, i) == FlatTo(tt, i)
  {
    if i > 0 {
      FlatToSame(ss, tt, i - 1);
    }
  }

  lemma {:induction false} FlatToUpdate(ss: seq<seq<Skb>>, j: nat, list: seq<Skb>, x: Skb, i: nat)
    requires j < i <= |ss|
    ensures FlatTo(ss[j := list], i)[x] + multiset(ss[j])[x] == FlatTo(ss, i)[x] + multiset(list)[x]
  {
    if j < i - 1 {
      FlatToUpdate(ss, j, list, x, i - 1);
    } else {
      FlatToSame(ss[j := list], ss, i - 1);
    }
  }

  lemma FlatUpdate(ss: seq<seq<Skb>>, j: nat, list: seq<Skb>, x: Skb)
    requires j < |ss|
    ensures Flat(ss[j := list])[x] + multiset(ss[j])[x] == Flat(ss)[x] + multiset(list)[x]
  {
    FlatToUpdate(ss, j, list, x, |ss|);
  }

  lemma FlatAppend(ss: seq<seq<Skb>>, list: seq<Skb>)
    ensures Flat(ss + [list]) == Flat(ss) + multiset(list)
  {
    FlatToSame(ss + [list], ss, |ss|);
  }

  lemma {:induction false} FlatEmpty(ss: seq<seq<Skb>>, i: nat)
    requires i <= |ss| && forall k :: 0 <= k < |ss| ==> ss[k] == []
    ensures FlatTo(ss, i) == multiset{}
  {
    if i > 0 {
      FlatEmpty(ss, i - 1);
    }
  }

  // ------------------------------------------------------------------- steps

  /** __skb_unlink of the first skb of the hot list, handed to the caller. */
  function TakeHot(s: State, cpu: nat): State
    requires cpu < |s.hot| && s.hot[cpu] != []
  {
    s.(hot := s.hot[cpu := s.hot[cpu][1..]], held := s.held + multiset{s.hot[cpu][0]})
  }

  /** Splice the batch at the head of the ring onto the hot list. */
  function Refill(s: State, cpu: nat): State
    requires s.Shape() && cpu < |s.hot|
  {
    s.(hot := s.hot[cpu := s.pool[s.head] + s.hot[cpu]],
       pool := s.pool[s.head := []],
       head := Succ(s.head, |s.pool|))
  }

  function AllocState(s: State, cpu: nat, length: nat): (State, Option<Skb>)
    requires s.Shape() && cpu < |s.hot|
  {
    if length > RECYCLE_SIZE then (s, None)
    else if s.hot[cpu] != [] then (TakeHot(s, cpu), Some(s.hot[cpu][0]))
    else if s.head == s.tail then (s, None)
    else
      var t := Refill(s, cpu);
      if t.hot[cpu] != [] then (TakeHot(t, cpu), Some(t.hot[cpu][0])) else (t, None)
  }

  /** Move the full spare list of a CPU into the ring. */
  function Publish(s: State, cpu: nat): State
    requires s.Shape() && cpu < |s.hot|
  {
    s.(pool := s.pool[s.tail := s.spare[cpu] + s.pool[s.tail]],
       spare := s.spare[cpu := []],
       tail := Succ(s.tail, |s.pool|))
  }

  function KeepSpare(s: State, cpu: nat, skb: Skb): State
    requires s.Shape() && cpu < |s.hot|
  {
    s.(spare := s.spare[cpu := [skb] + s.spare[cpu]], held := s.held - multiset{skb})
  }

  /** What a consume does when the hot list is full. */
  function SpareState(s: State, cpu: nat, skb: Skb): (State, bool)
    requires s.Shape() && cpu < |s.hot|
  {
    if |s.spare[cpu]| < s.maxSpare then (KeepSpare(s, cpu, skb), true)
    else if Succ(s.tail, |s.pool|) != s.head then (KeepSpare(Publish(s, cpu), cpu, skb), true)
    else (s, false)
  }

  function ConsumeState(s: State, cpu: nat, skb: Skb, recyclable: bool): (State, bool)
    requires s.Shape() && cpu < |s.hot|
  {
    if !recyclable then (s, false)
    else if |s.hot[cpu]| < s.maxHot then
      (s.(hot := s.hot[cpu := [skb] + s.hot[cpu]], held := s.held - multiset{skb}), true)
    else SpareState(s, cpu, skb)
  }

  /** skb_queue_splice puts the list in front of the hot list, however long it gets. */
  function ConsumeListState(s: State, cpu: nat, list: seq<Skb>): (State, bool)
    requires s.Shape() && cpu < |s.hot|
  {
    if |s.hot[cpu]| < s.maxHot then
      (s.(hot := s.hot[cpu := list + s.hot[cpu]], held := s.held - multiset(list)), true)
    else (s, false)
  }

  /** The atomic sections of the recycler, and what its callers do with what they own. */
  datatype Step =
    | Arrive(skb: Skb)                     // a new skb in a caller's hands
    | KernelFree(skb: Skb)                 // a caller frees what it owns
    | AllocStep(cpu: nat, length: nat)
    | ConsumeStep(cpu: nat, skb: Skb, recyclable: bool)
    | ConsumeListStep(cpu: nat, list: seq<Skb>)
    | FlushHot(cpu: nat)                   // splice the hot list to a local list
    | FlushSpare(cpu: nat)
    | FlushFree(i: nat)                    // free a local list
    | FlushGlobal
    | DeadHot(cpu: nat)
    | DeadSpare(cpu: nat)
    | SetMaxHot(max: nat)
    | SetMaxSpare(max: nat)

  ghost predicate Enabled(s: State, step: Step) {
    match step
    case Arrive(skb) => s.Places(skb) == 0
    case KernelFree(skb) => skb in s.held
    case AllocStep(cpu, _) => cpu < |s.hot|
    case ConsumeStep(cpu, skb, _) => cpu < |s.hot| && skb in s.held
    case ConsumeListStep(cpu, list) => cpu < |s.hot| && multiset(list) <= s.held
    case FlushHot(cpu) => cpu < |s.hot|
    case FlushSpare(cpu) => cpu < |s.hot|
    case FlushFree(i) => i < |s.draining|
    case FlushGlobal => true
    case DeadHot(cpu) => cpu < |s.hot|
    case DeadSpare(cpu) => cpu < |s.hot|
    case SetMaxHot(_) => true
    case SetMaxSpare(_) => true
  }

  ghost function Next(s: State, step: Step): State
    requires s.Shape() && Enabled(s, step)
  {
    match step
    case Arrive(skb) => s.(held := s.held + multiset{skb})
    case KernelFree(skb) => s.(held := s.held - multiset{skb}, freed := s.freed + multiset{skb})
    case AllocStep(cpu, length) => AllocState(s, cpu, length).0
    case ConsumeStep(cpu, skb, recyclable) => ConsumeState(s, cpu, skb, recyclable).0
    case ConsumeListStep(cpu, list) => ConsumeListState(s, cpu, list).0
    case FlushHot(cpu) => s.(hot := s.hot[cpu := []], draining := s.draining + [s.hot[cpu]])
    case FlushSpare(cpu) => s.(spare := s.spare[cpu := []], draining := s.draining + [s.spare[cpu]])
    case FlushFree(i) => s.(draining := s.draining[i := []], freed := s.freed + multiset(s.draining[i]))
    case FlushGlobal =>
      s.(pool := seq(|s.pool|, _ => []), head := 0, tail := 0, freed := s.freed + Flat(s.pool))
    case DeadHot(cpu) => s.(hot := s.hot[cpu := []], freed := s.freed + multiset(s.hot[cpu]))
    case DeadSpare(cpu) => s.(spare := s.spare[cpu := []], freed := s.freed + multiset(s.spare[cpu]))
    case SetMaxHot(max) => s.(maxHot := max)
    case SetMaxSpare(max) => s.(maxSpare := max)
  }

  ghost function Arrived(step: Step): multiset<Skb> {
    if step.Arrive? then multiset{step.skb} else multiset{}
  }

  // -------------------------------------------------- the ring is a FIFO queue

  lemma RefillQueue(s: State, cpu: nat)
    requires s.Shape() && s.OutsideEmpty() && cpu < |s.hot| && s.head != s.tail
    ensures var t := Refill(s, cpu); t.Shape() && t.OutsideEmpty() && t.Queue() == s.Queue()[1..]
    ensures s.Queue()[0] == s.pool[s.head]
  {
    var t := Refill(s, cpu);
    assert t.Occupied() == s.Occupied() - 1;
    assert forall i :: 0 <= i < |s.pool| - 1 ==> t.Slot(i) == s.Slot(i + 1);
    assert t.Slot(|s.pool| - 1) == s.head;
  }

  lemma PublishQueue(s: State, cpu: nat)
    requires s.Shape() && s.OutsideEmpty() && cpu < |s.hot| && Succ(s.tail, |s.pool|) != s.head
    ensures var t := Publish(s, cpu); t.Shape() && t.OutsideEmpty() && t.Queue() == s.Queue() + [s.spare[cpu]]
    ensures s.pool[s.tail] == []
  {
    var t := Publish(s, cpu);
    assert t.Occupied() == s.Occupied() + 1;
    assert s.Slot(s.Occupied()) == s.tail;
    assert forall i :: 0 <= i < |s.pool| ==> t.Slot(i) == s.Slot(i);
    assert s.spare[cpu] + [] == s.spare[cpu];
  }

  /** The ring is empty exactly when head meets tail, and holds at most all but one of its
      slots; an increment of the tail meets the head exactly when it is full. */
  lemma RingCapacity(s: State)
    requires s.Shape()
    ensures s.head == s.tail <==> s.Queue() == []
    ensures |s.Queue()| <= |s.pool| - 1
    ensures Succ(s.tail, |s.pool|) == s.head <==> |s.Queue()| == |s.pool| - 1
  {}

  /** What a step does to the queue. */
  datatype RingEvent = Quiet | Enqueue(batch: seq<Skb>) | Dequeue | Clear

  ghost function Event(s: State, step: Step): RingEvent
    requires s.Shape() && Enabled(s, step)
  {
    match step
    case AllocStep(cpu, length) =>
      if length <= RECYCLE_SIZE && s.hot[cpu] == [] && s.Queue() != [] then Dequeue else Quiet
    case ConsumeStep(cpu, _, recyclable) =>
      if recyclable && |s.hot[cpu]| >= s.maxHot && |s.spare[cpu]| >= s.maxSpare && |s.Queue()| < |s.pool| - 1
      then Enqueue(s.spare[cpu]) else Quiet
    case FlushGlobal => Clear
    case _ => Quiet
  }

  /** The queue after an event, on an abstract queue. */
  ghost function QueueAfter(q: seq<seq<Skb>>, e: RingEvent): seq<seq<Skb>>
    requires e.Dequeue? ==> q != []
  {
    match e
    case Quiet => q
    case Enqueue(batch) => q + [batch]
    case Dequeue => q[1..]
    case Clear => []
  }

  lemma SameQueue(s: State, t: State)
    requires s.Shape() && s.OutsideEmpty() && t.pool == s.pool && t.head == s.head && t.tail == s.tail
    requires |t.spare| == |t.hot|
    ensures t.Shape() && t.OutsideEmpty() && t.Queue() == s.Queue()
  {
    assert t.Occupied() == s.Occupied();
    assert forall i :: 0 <= i < |s.pool| ==> t.Slot(i) == s.Slot(i);
  }

  lemma AllocQueue(s: State, cpu: nat, length: nat)
    requires s.Shape() && s.OutsideEmpty() && cpu < |s.hot|
    ensures var t := AllocState(s, cpu, length).0;
            t.Shape() && t.OutsideEmpty() && |t.pool| == |s.pool| && |t.hot| == |s.hot| &&
            t.Queue() ==
              if length <= RECYCLE_SIZE && s.hot[cpu] == [] && s.Queue() != [] then s.Queue()[1..] else s.Queue()
  {
    RingCapacity(s);
    var t := AllocState(s, cpu, length).0;
    if length <= RECYCLE_SIZE && s.hot[cpu] == [] && s.head != s.tail {
      RefillQueue(s, cpu);
      SameQueue(Refill(s, cpu), t);
    } else {
      SameQueue(s, t);
    }
  }

  lemma ConsumeQueue(s: State, cpu: nat, skb: Skb, recyclable: bool)
    requires s.Shape() && s.OutsideEmpty() && cpu < |s.hot|
    ensures var t := ConsumeState(s, cpu, skb, recyclable).0;
            t.Shape() && t.OutsideEmpty() && |t.pool| == |s.pool| && |t.hot| == |s.hot| &&
            t.Queue() ==
              if recyclable && |s.hot[cpu]| >= s.maxHot && |s.spare[cpu]| >= s.maxSpare && |s.Queue()| < |s.pool| - 1
              then s.Queue() + [s.spare[cpu]] else s.Queue()
  {
    RingCapacity(s);
    var t := ConsumeState(s, cpu, skb, recyclable).0;
    if recyclable && |s.hot[cpu]| >= s.maxHot && |s.spare[cpu]| >= s.maxSpare && Succ(s.tail, |s.pool|) != s.head {
      PublishQueue(s, cpu);
      SameQueue(Publish(s, cpu), t);
    } else {
      SameQueue(s, t);
    }
  }

  lemma OtherQueue(s: State, step: Step)
    requires s.Shape() && s.OutsideEmpty() && Enabled(s, step) && !step.AllocStep? && !step.ConsumeStep?
    ensures var t := Next(s, step);
            t.Shape() && t.OutsideEmpty() && |t.pool| == |s.pool| && |t.hot| == |s.hot| &&
            t.Queue() == if step.FlushGlobal? then [] else s.Queue()
  {
    var t := Next(s, step);
    if step.FlushGlobal? {
      assert t.Occupied() == 0;
    } else {
      SameQueue(s, t);
    }
  }

  /** The ring refines a bounded FIFO queue: each step does to the queue what its event
      says, and keeps the slots outside the window empty. */
  lemma RingRefinesQueue(s: State, step: Step)
    requires s.Shape() && s.OutsideEmpty() && Enabled(s, step)
    ensures Event(s, step).Dequeue? ==> s.Queue() != []
    ensures var t := Next(s, step);
            t.Shape() && t.OutsideEmpty() && |t.pool| == |s.pool| && |t.hot| == |s.hot| &&
            t.Queue() == QueueAfter(s.Queue(), Event(s, step))
  {
    match step
    case AllocStep(cpu, length) => AllocQueue(s, cpu, length);
    case ConsumeStep(cpu, skb, recyclable) => ConsumeQueue(s, cpu, skb, recyclable);
    case _ => OtherQueue(s, step);
  }

  // ------------------------------------------------------------- conservation

  lemma TakeHotConserves(s: State, cpu: nat, x: Skb)
    requires cpu < |s.hot| && s.hot[cpu] != []
    ensures TakeHot(s, cpu).Places(x) == s.Places(x)
  {
    FlatUpdate(s.hot, cpu, s.hot[cpu][1..], x);
    assert s.hot[cpu] == [s.hot[cpu][0]] + s.hot[cpu][1..];
  }

  lemma RefillConserves(s: State, cpu: nat, x: Skb)
    requires s.Shape() && cpu < |s.hot|
    ensures Refill(s, cpu).Places(x) == s.Places(x)
  {
    FlatUpdate(s.hot, cpu, s.pool[s.head] + s.hot[cpu], x);
    FlatUpdate(s.pool, s.head, [], x);
  }

  lemma PublishConserves(s: State, cpu: nat, x: Skb)
    requires s.Shape() && cpu < |s.hot|
    ensures Publish(s, cpu).Places(x) == s.Places(x)
  {
    FlatUpdate(s.pool, s.tail, s.spare[cpu] + s.pool[s.tail], x);
    FlatUpdate(s.spare, cpu, [], x);
  }

  lemma KeepSpareConserves(s: State, cpu: nat, skb: Skb, x: Skb)
    requires s.Shape() && cpu < |s.hot| && skb in s.held
    ensures KeepSpare(s, cpu, skb).Places(x) == s.Places(x)
  {
    FlatUpdate(s.spare, cpu, [skb] + s.spare[cpu], x);
  }

  lemma HotConserves(s: State, cpu: nat, list: seq<Skb>, x: Skb)
    requires cpu < |s.hot| && multiset(list) <= s.held
    ensures s.(hot := s.hot[cpu := list + s.hot[cpu]], held := s.held - multiset(list)).Places(x) == s.Places(x)
  {
    FlatUpdate(s.hot, cpu, list + s.hot[cpu], x);
  }

  lemma AllocConserves(s: State, cpu: nat, length: nat, x: Skb)
    requires s.Shape() && cpu < |s.hot|
    ensures AllocState(s, cpu, length).0.Places(x) == s.Places(x)
  {
    if length <= RECYCLE_SIZE {
      if s.hot[cpu] != [] {
        TakeHotConserves(s, cpu, x);
      } else if s.head != s.tail {
        RefillConserves(s, cpu, x);
        var t := Refill(s, cpu);
        if t.hot[cpu] != [] {
          TakeHotConserves(t, cpu, x);
        }
      }
    }
  }

  lemma ConsumeConserves(s: State, cpu: nat, skb: Skb, recyclable: bool, x: Skb)
    requires s.Shape() && cpu < |s.hot| && skb in s.held
    ensures ConsumeState(s, cpu, skb, recyclable).0.Places(x) == s.Places(x)
  {
    if recyclable {
      if |s.hot[cpu]| < s.maxHot {
        HotConserves(s, cpu, [skb], x);
      } else if |s.spare[cpu]| < s.maxSpare {
        KeepSpareConserves(s, cpu, skb, x);
      } else if Succ(s.tail, |s.pool|) != s.head {
        PublishConserves(s, cpu, x);
        KeepSpareConserves(Publish(s, cpu), cpu, skb, x);
      }
    }
  }

  /** The steps that only move whole lists, or touch no list. */
  lemma MoveConserves(s: State, step: Step, x: Skb)
    requires s.Shape() && Enabled(s, step)
    requires !step.AllocStep? && !step.ConsumeStep? && !step.ConsumeListStep?
    ensures Next(s, step).Places(x) == s.Places(x) + Arrived(step)[x]
  {
    match step
    case FlushHot(cpu) =>
      FlatUpdate(s.hot, cpu, [], x);
      FlatAppend(s.draining, s.hot[cpu]);
    case FlushSpare(cpu) =>
      FlatUpdate(s.spare, cpu, [], x);
      FlatAppend(s.draining, s.spare[cpu]);
    case FlushFree(i) =>
      FlatUpdate(s.draining, i, [], x);
    case FlushGlobal =>
      FlatEmpty(Next(s, step).pool, |s.pool|);
    case DeadHot(cpu) =>
      FlatUpdate(s.hot, cpu, [], x);
    case DeadSpare(cpu) =>
      FlatUpdate(s.spare, cpu, [], x);
    case _ =>
  }

  lemma PlacesStep(s: State, step: Step, x: Skb)
    requires s.Shape() && Enabled(s, step)
    ensures Next(s, step).Places(x) == s.Places(x) + Arrived(step)[x]
  {
    match step
    case AllocStep(cpu, length) => AllocConserves(s, cpu, length, x);
    case ConsumeStep(cpu, skb, recyclable) => ConsumeConserves(s, cpu, skb, recyclable, x);
    case ConsumeListStep(cpu, list) => if |s.hot[cpu]| < s.maxHot { HotConserves(s, cpu, list, x); }
    case _ => MoveConserves(s, step, x);
  }

  lemma FreedGrows(s: State, step: Step)
    requires s.Shape() && Enabled(s, step)
    ensures s.freed <= Next(s, step).freed
  {}

  /** One step: every skb is in as many places as before, plus its arrival; so none is
      ever in two places, or freed twice. What is freed stays freed. */
  lemma StepConserves(s: State, step: Step)
    requires s.Inv() && Enabled(s, step)
    ensures var t := Next(s, step);
            t.Inv() && s.freed <= t.freed && |t.hot| == |s.hot| && |t.pool| == |s.pool|
    ensures forall x :: Next(s, step).Places(x) == s.Places(x) + Arrived(step)[x]
  {
    RingRefinesQueue(s, step);
    FreedGrows(s, step);
    forall x ensures Next(s, step).Places(x) == s.Places(x) + Arrived(step)[x] {
      PlacesStep(s, step, x);
    }
  }

  // -------------------------------------------------------------------- runs

  ghost predicate Valid(s: State, steps: seq<Step>)
    requires s.Inv()
    decreases steps
  {
    if steps == [] then true
    else Enabled(s, steps[0]) && (StepConserves(s, steps[0]); Valid(Next(s, steps[0]), steps[1..]))
  }

  ghost function Run(s: State, steps: seq<Step>): State
    requires s.Inv() && Valid(s, steps)
    decreases steps
  {
    if steps == [] then s
    else
      StepConserves(s, steps[0]);
      Run(Next(s, steps[0]), steps[1..])
  }

  ghost function Arrivals(steps: seq<Step>): multiset<Skb> {
    if steps == [] then multiset{} else Arrived(steps[0]) + Arrivals(steps[1..])
  }

  /** Conservation over every interleaving on any number of CPUs: at the end each skb that
      was ever there is in exactly one place, exactly once, and no others exist. */
  lemma {:induction false} RunConserves(s: State, steps: seq<Step>)
    requires s.Inv() && Valid(s, steps)
    ensures var t := Run(s, steps); t.Inv() && s.freed <= t.freed
    ensures forall x :: Run(s, steps).Places(x) == s.Places(x) + Arrivals(steps)[x]
    decreases steps
  {
    if steps != [] {
      StepConserves(s, steps[0]);
      RunConserves(Next(s, steps[0]), steps[1..]);
    }
  }

  /** The batches that entered the ring during a run, and those that left it, in order. */
  ghost function Entered(s: State, steps: seq<Step>): seq<seq<Skb>>
    requires s.Inv() && Valid(s, steps)
    decreases steps
  {
    if steps == [] then []
    else
      StepConserves(s, steps[0]);
      Enters(Event(s, steps[0])) + Entered(Next(s, steps[0]), steps[1..])
  }

  ghost function Left(s: State, steps: seq<Step>): seq<seq<Skb>>
    requires s.Inv() && Valid(s, steps)
    decreases steps
  {
    if steps == [] then []
    else
      StepConserves(s, steps[0]);
      RingRefinesQueue(s, steps[0]);
      Leaves(s.Queue(), Event(s, steps[0])) + Left(Next(s, steps[0]), steps[1..])
  }

  /** The batches that leave with one event. */
  ghost function Leaves(q: seq<seq<Skb>>, e: RingEvent): seq<seq<Skb>>
    requires e.Dequeue? ==> q != []
  {
    match e case Dequeue => [q[0]] case Clear => q case _ => []
  }

  ghost function Enters(e: RingEvent): seq<seq<Skb>> {
    match e case Enqueue(batch) => [batch] case _ => []
  }

  lemma QueueEvent(q: seq<seq<Skb>>, e: RingEvent)
    requires e.Dequeue? ==> q != []
    ensures Leaves(q, e) + QueueAfter(q, e) == q + Enters(e)
  {}

  /** First in, first out, across wrap-around and flushes. */
  lemma {:induction false} RunIsFifo(s: State, steps: seq<Step>)
    requires s.Inv() && Valid(s, steps)
    ensures Run(s, steps).Shape()
    ensures Left(s, steps) + Run(s, steps).Queue() == s.Queue() + Entered(s, steps)
    decreases steps
  {
    if steps != [] {
      var e, t := Event(s, steps[0]), Next(s, steps[0]);
      StepConserves(s, steps[0]);
      RingRefinesQueue(s, steps[0]);
      RunIsFifo(t, steps[1..]);
      QueueEvent(s.Queue(), e);
      Reassociate(Leaves(s.Queue(), e), Left(t, steps[1..]), Run(t, steps[1..]).Queue(),
                  t.Queue(), Entered(t, steps[1..]), s.Queue(), Enters(e));
    }
  }

  lemma Reassociate<T>(a: seq<T>, b: seq<T>, c: seq<T>, d: seq<T>, e: seq<T>, f: seq<T>, g: seq<T>)
    requires b + c == d + e && a + d == f + g
    ensures (a + b) + c == f + (g + e)
  {
    assert (a + b) + c == a + (b + c);
    assert a + (d + e) == (a + d) + e;
    assert (f + g) + e == f + (g + e);
  }

  // -------------------------------------------- sizes, refusals and round trips

  ghost predicate BatchesOf(q: seq<seq<Skb>>, n: nat) {
    forall i :: 0 <= i < |q| ==> |q[i]| == n
  }

  ghost predicate NoEmptyBatch(q: seq<seq<Skb>>) {
    forall i :: 0 <= i < |q| ==> q[i] != []
  }

  /** Spare lists are within the spare limit and batches in the ring are exactly that long. */
  ghost predicate Sized(s: State)
    requires s.Shape()
  {
    s.maxSpare >= 1 && BatchesOf(s.Queue(), s.maxSpare) &&
    forall c :: 0 <= c < |s.spare| ==> |s.spare[c]| <= s.maxSpare
  }

  lemma SizedStep(s: State, step: Step)
    requires s.Inv() && Enabled(s, step) && Sized(s) && !step.SetMaxSpare?
    ensures Next(s, step).Shape() && Sized(Next(s, step)) && Next(s, step).maxSpare == s.maxSpare
  {
    RingRefinesQueue(s, step);
    var q := s.Queue();
    assert BatchesOf(QueueAfter(q, Event(s, step)), s.maxSpare);
  }

  lemma NoEmptyBatchStep(s: State, step: Step)
    requires s.Inv() && Enabled(s, step) && NoEmptyBatch(s.Queue()) && s.maxSpare >= 1
    requires step.SetMaxSpare? ==> step.max >= 1
    ensures Next(s, step).Shape() && NoEmptyBatch(Next(s, step).Queue()) && Next(s, step).maxSpare >= 1
  {
    RingRefinesQueue(s, step);
    assert NoEmptyBatch(QueueAfter(s.Queue(), Event(s, step)));
  }

  /** With a fixed spare limit of at least one, over every run, each spare list is within
      the limit and each batch in the ring holds exactly that many skbs. */
  lemma {:induction false} RunSized(s: State, steps: seq<Step>)
    requires s.Inv() && Valid(s, steps) && Sized(s)
    requires forall i :: 0 <= i < |steps| ==> !steps[i].SetMaxSpare?
    ensures Run(s, steps).Shape() && Sized(Run(s, steps)) && Run(s, steps).maxSpare == s.maxSpare
    decreases steps
  {
    if steps != [] {
      StepConserves(s, steps[0]);
      SizedStep(s, steps[0]);
      RunSized(Next(s, steps[0]), steps[1..]);
    }
  }

  /** Even when the limit changes during the run, as long as it is never zero no batch in
      the ring is empty. */
  lemma {:induction false} RunNoEmptyBatch(s: State, steps: seq<Step>)
    requires s.Inv() && Valid(s, steps) && NoEmptyBatch(s.Queue()) && s.maxSpare >= 1
    requires forall i :: 0 <= i < |steps| && steps[i].SetMaxSpare? ==> steps[i].max >= 1
    ensures Run(s, steps).Shape() && NoEmptyBatch(Run(s, steps).Queue())
    decreases steps
  {
    if steps != [] {
      StepConserves(s, steps[0]);
      NoEmptyBatchStep(s, steps[0]);
      RunNoEmptyBatch(Next(s, steps[0]), steps[1..]);
    }
  }

  /** Allocation fails exactly when the length is too large, or the CPU's hot list is empty
      and so is the ring or its oldest batch. Without empty batches: exactly when the
      length is too large or both are empty. */
  lemma AllocFailsExactly(s: State, cpu: nat, length: nat)
    requires s.Inv() && cpu < |s.hot|
    ensures AllocState(s, cpu, length).1 == None <==>
            length > RECYCLE_SIZE || (s.hot[cpu] == [] && (s.Queue() == [] || s.Queue()[0] == []))
    ensures NoEmptyBatch(s.Queue()) ==>
            (AllocState(s, cpu, length).1 == None <==> length > RECYCLE_SIZE || (s.hot[cpu] == [] && s.Queue() == []))
  {
    RingCapacity(s);
    if s.head != s.tail {
      RefillQueue(s, cpu);
    }
  }

  /** A spare limit of zero breaks that: the first skb consumed publishes an empty batch,
      and the allocation that follows fails although the ring is not empty. */
  lemma ZeroSpareLimitPublishesNothing(s: State, cpu: nat, skb: Skb)
    requires s.Inv() && cpu < |s.hot| && skb in s.held && |s.pool| >= 2
    requires s.maxHot == 0 && s.maxSpare == 0
    requires s.hot[cpu] == [] && s.spare[cpu] == [] && s.Queue() == []
    ensures var t := ConsumeState(s, cpu, skb, true).0;
            t.Shape() && t.Queue() != [] && AllocState(t, cpu, RECYCLE_SIZE).1 == None
  {
    ConsumeQueue(s, cpu, skb, true);
    StepConserves(s, ConsumeStep(cpu, skb, true));
    AllocFailsExactly(ConsumeState(s, cpu, skb, true).0, cpu, RECYCLE_SIZE);
  }

  /** A refused consume changes nothing, and is refused exactly when the skb cannot be
      recycled or the hot list, the spare list and the ring are all full. */
  lemma ConsumeRefusedExactly(s: State, cpu: nat, skb: Skb, recyclable: bool)
    requires s.Inv() && cpu < |s.hot| && skb in s.held
    ensures var (t, taken) := ConsumeState(s, cpu, skb, recyclable);
            (!taken ==> t == s) && (taken ==> t.held == s.held - multiset{skb}) &&
            (!taken <==> (!recyclable ||
              (|s.hot[cpu]| >= s.maxHot && |s.spare[cpu]| >= s.maxSpare && |s.Queue()| == |s.pool| - 1)))
  {
    RingCapacity(s);
  }

  /** Consuming an skb into the hot list and allocating on the same CPU gives that skb back
      and restores the recycler. */
  lemma AllocUndoesConsume(s: State, cpu: nat, skb: Skb, length: nat)
    requires s.Inv() && cpu < |s.hot| && skb in s.held
    requires |s.hot[cpu]| < s.maxHot && length <= RECYCLE_SIZE
    ensures AllocState(ConsumeState(s, cpu, skb, true).0, cpu, length) == (s, Some(skb))
  {
    var t := ConsumeState(s, cpu, skb, true).0;
    assert t.hot[cpu][1..] == s.hot[cpu];
    assert t.hot[cpu := s.hot[cpu]] == s.hot;
    assert s.held - multiset{skb} + multiset{skb} == s.held;
  }

  // ------------------------------------------------------------------- methods

  class Recycler {
    var hot: seq<seq<Skb>>
    var spare: seq<seq<Skb>>
    const pool: array<seq<Skb>>
    const bits: nat
    var head: nat
    var tail: nat
    var maxHot: nat
    var maxSpare: nat
    var draining: seq<seq<Skb>>
    var held: multiset<Skb>
    var freed: multiset<Skb>

    ghost function Abs(): State
      reads this, pool
    {
      State(hot, spare, pool[..], head, tail, draining, held, freed, maxHot, maxSpare)
    }

    /** What the methods rely on. That State.Inv is kept as well is StepConserves, since
        each method does what Next says. */
    ghost predicate Valid()
      reads this, pool
    {
      pool.Length == Pow2(bits) && Abs().Shape()
    }

    /** skb_recycler_init: `cpus` CPUs and a ring of 2 to the power `n` slots. */
    constructor (cpus: nat, n: nat)
      requires Pow2(n) <= 256
      ensures Valid() && fresh(pool) && Abs().Inv() && Abs().Queue() == []
      ensures Abs() == State(seq(cpus, _ => []), seq(cpus, _ => []), seq(Pow2(n), _ => []), 0, 0,
                             [], multiset{}, multiset{}, MAX_SKBS, SPARE_MAX_SKBS)
    {
      Pow2Positive(n);
      bits := n;
      hot, spare := seq(cpus, _ => []), seq(cpus, _ => []);
      pool := new seq<Skb>[Pow2(n)](_ => []);
      head, tail := 0, 0;
      maxHot, maxSpare := MAX_SKBS, SPARE_MAX_SKBS;
      draining, held, freed := [], multiset{}, multiset{};
      new;
      assert pool[..] == seq(Pow2(n), _ => []);
      FlatEmpty(hot, |hot|);
      FlatEmpty(spare, |spare|);
      FlatEmpty(pool[..], pool.Length);
    }

    /** `(i + 1) & (size - 1)`. */
    function NextIndex(i: nat): nat
      reads this
      requires Pow2(bits) >= 1
    {
      BitAnd(i + 1, Pow2(bits) - 1)
    }

    method Alloc(cpu: nat, length: nat) returns (skb: Option<Skb>)
      requires Valid() && cpu < |hot|
      modifies this, pool
      ensures Valid() && Abs() == Next(old(Abs()), AllocStep(cpu, length))
      ensures skb == AllocState(old(Abs()), cpu, length).1
    {
      ghost var s := Abs();
      skb := None;
      if length > RECYCLE_SIZE {
        return;
      }
      if hot[cpu] != [] {
        skb := Unlink(cpu);
      } else if head != tail {
        hot := hot[cpu := pool[head] + hot[cpu]];
        pool[head] := [];
        MaskedIncrement(head, bits);
        head := NextIndex(head);
        assert Abs() == Refill(s, cpu);
        if hot[cpu] != [] {
          skb := Unlink(cpu);
        }
      }
    }

    /** __skb_unlink of the first skb of a hot list. */
    method Unlink(cpu: nat) returns (skb: Option<Skb>)
      requires cpu < |hot| && hot[cpu] != []
      modifies this
      ensures Abs() == TakeHot(old(Abs()), cpu) && skb == Some(old(hot[cpu][0]))
    {
      skb := Some(hot[cpu][0]);
      held := held + multiset{hot[cpu][0]};
      hot := hot[cpu := hot[cpu][1..]];
    }

    method Consume(cpu: nat, skb: Skb, recyclable: bool) returns (taken: bool)
      requires Valid() && cpu < |hot| && skb in held
      modifies this, pool
      ensures Valid() && Abs() == Next(old(Abs()), ConsumeStep(cpu, skb, recyclable))
      ensures taken == ConsumeState(old(Abs()), cpu, skb, recyclable).1
    {
      if !recyclable {
        taken := false;
      } else if |hot[cpu]| < maxHot {
        hot := hot[cpu := [skb] + hot[cpu]];
        held := held - multiset{skb};
        taken := true;
      } else {
        taken := ConsumeSpare(cpu, skb);
      }
    }

    method ConsumeSpare(cpu: nat, skb: Skb) returns (taken: bool)
      requires Valid() && cpu < |hot|
      modifies this, pool
      ensures Valid() && (Abs(), taken) == SpareState(old(Abs()), cpu, skb)
    {
      taken := |spare[cpu]| < maxSpare;
      if !taken {
        taken := PublishSpare(cpu);
      }
      if taken {
        PushSpare(cpu, skb);
      }
    }

    method PushSpare(cpu: nat, skb: Skb)
      requires Valid() && cpu < |hot|
      modifies this
      ensures Abs() == KeepSpare(old(Abs()), cpu, skb)
    {
      spare := spare[cpu := [skb] + spare[cpu]];
      held := held - multiset{skb};
    }

    /** The locked section of a consume: move the spare list into the ring, if it has room. */
    method PublishSpare(cpu: nat) returns (room: bool)
      requires Valid() && cpu < |hot|
      modifies this, pool
      ensures room == (Succ(old(tail), pool.Length) != old(head))
      ensures Abs() == if room then Publish(old(Abs()), cpu) else old(Abs())
    {
      MaskedIncrement(tail, bits);
      var nextTail := NextIndex(tail);
      room := nextTail != head;
      if room {
        pool[tail] := spare[cpu] + pool[tail];
        spare := spare[cpu := []];
        tail := nextTail;
      }
    }

    method ConsumeListFast(cpu: nat, list: seq<Skb>) returns (taken: bool)
      requires Valid() && cpu < |hot| && multiset(list) <= held
      modifies this
      ensures Valid() && Abs() == Next(old(Abs()), ConsumeListStep(cpu, list))
      ensures taken == ConsumeListState(old(Abs()), cpu, list).1
    {
      taken := |hot[cpu]| < maxHot;
      if taken {
        hot := hot[cpu := list + hot[cpu]];
        held := held - multiset(list);
      }
    }

    /** skb_recycler_free_skb: unlink and free until the list is empty. */
    method FreeSkbs(list: seq<Skb>) returns (rest: seq<Skb>)
      modifies this`freed
      ensures rest == [] && freed == old(freed) + multiset(list)
    {
      rest := list;
      while rest != []
        invariant freed + multiset(rest) == old(freed) + multiset(list)
        decreases |rest|
      {
        var skb := rest[0];
        assert rest == [skb] + rest[1..];
        rest := rest[1..];
        freed := freed + multiset{skb};
      }
    }

    /** skb_cpu_callback: both lists of a dead CPU are freed. */
    method CpuDead(cpu: nat)
      requires Valid() && cpu < |hot|
      modifies this
      ensures Valid() && Abs() == Next(Next(old(Abs()), DeadHot(cpu)), DeadSpare(cpu))
    {
      var rest := FreeSkbs(hot[cpu]);
      hot := hot[cpu := rest];
      rest := FreeSkbs(spare[cpu]);
      spare := spare[cpu := rest];
    }

    /** skb_recycler_flush_task on one CPU, when nothing runs in between. */
    method FlushTask(cpu: nat)
      requires Valid() && cpu < |hot|
      modifies this
      ensures Valid() && hot == old(hot)[cpu := []] && spare == old(spare)[cpu := []]
      ensures freed == old(freed) + multiset(old(hot[cpu])) + multiset(old(spare[cpu]))
      ensures held == old(held) && pool[..] == old(pool[..]) && head == old(head) && tail == old(tail)
    {
      draining, hot := draining + [hot[cpu]], hot[cpu := []];
      FreeDraining(|draining| - 1);
      draining, spare := draining + [spare[cpu]], spare[cpu := []];
      FreeDraining(|draining| - 1);
    }

    method FreeDraining(i: nat)
      requires Valid() && i < |draining|
      modifies this
      ensures Valid() && Abs() == Next(old(Abs()), FlushFree(i))
    {
      var rest := FreeSkbs(draining[i]);
      draining := draining[i := rest];
    }

    /** The locked part of proc_skb_flush_write: every pool is freed and the ring reset. */
    method FlushPools()
      requires Valid()
      modifies this, pool
      ensures Valid() && Abs() == Next(old(Abs()), FlushGlobal)
    {
      DrainPools();
      head, tail := 0, 0;
    }

    method DrainPool(i: nat)
      requires i < pool.Length
      modifies this`freed, pool
      ensures pool[i] == [] && freed == old(freed) + multiset(old(pool[i]))
      ensures forall k :: 0 <= k < pool.Length && k != i ==> pool[k] == old(pool[k])
    {
      var rest := FreeSkbs(pool[i]);
      pool[i] := rest;
    }

    method DrainPools()
      modifies this`freed, pool
      ensures pool[..] == seq(pool.Length, _ => [])
      ensures freed == old(freed) + Flat(old(pool[..]))
    {
      ghost var was := pool[..];
      for i := 0 to pool.Length
        invariant forall k :: 0 <= k < i ==> pool[k] == []
        invariant forall k :: i <= k < pool.Length ==> pool[k] == was[k]
        invariant freed == old(freed) + FlatTo(was, i)
      {
        DrainPool(i);
      }
    }
  }
}
