# Verified models of the IPQ95xx kernel drivers

This project models the parts of four Linux drivers whose correctness is not visible from
reading one function, and proves what they promise. Nothing in it was executed; every
statement below is one that the Dafny verifier checks.

- **PWM dividers** (`PwmDivider.dfy`): the search over pairs of dividers in the IPQ PWM
  driver, the registers it programs, and the state it reads back.
- **skb recycler** (`SkbRecycler.dfy`, `SkbOwners.dfy`, `RingMask.dfy`): per-CPU hot and spare lists and a
  ring of batches shared by all CPUs, as a state machine whose steps are the sections that
  run with interrupts off or under the lock, and a class whose methods refine the steps.
- **CPR voltage controller** (`CprCorner.dfy`, `CprSdelta.dfy`, `CprEntries.dfy`,
  `CprScaling.dfy`, `CprScalingSafety.dfy`, `CprStopped.dfy`, `CprRequests.dfy`,
  `CprSupplies.dfy`, `CprRuns.dfy`, `CprTargets.dfy`, `CprRegulators.dfy`,
  `CprController.dfy`, `CprSettling.dfy`, `CprAgingMeasure.dfy`, `CprAgingMargin.dfy`):
  aggregation of the requests of many regulators, reshaping of the range around the array
  power mux (APM) and mem-acc thresholds, the order of operations while the supply moves, up and down
  interrupts, aging measurement and aging margins. The hardware (supply, APM, mem-acc
  settings) is part of the state; in hardware closed-loop it may drift anywhere in the range.
- **Corner tables** (`CprTables.dfy`, `CprFuseVoltages.dfy`): quotient and voltage
  conversion, monotonicity passes, voltage limits, and the calculation of open-loop voltages
  from fuses.

`CInt.dfy` has the C integer operations. Integers are unbounded; truncation, wrap-around
and conversion to `int` are written out where the source has them. An in-place array stays
an `array`; objects whose fields are updated are classes; a struct that the source copies
by assignment (a corner) is a value.

## Main results

1. The pruned divider scan returns the closest pair of all that the hardware can hold,
   exactly unless the cycle count is 65535^2 - 1 or at least 65535 * 65536, which clocks
   up to 4 GHz never give (`PwmDivider.SearchDividers`, `PwmDivider.NoFallbackUpTo4GHz`).
2. Over every interleaving of recycler steps on any number of CPUs each skb is in exactly
   one place and none is freed twice, the ring is a bounded FIFO queue, and no skb is handed
   out twice unless it was given up in between (`SkbRecycler.RunConserves`,
   `SkbRecycler.RunIsFifo`, `SkbOwners.HandedOutOnce`).
3. Over every run of successful controller updates and interrupts, with hardware drifting in
   between, APM and mem-acc settings and the real voltage are on the target's side of both
   thresholds (`CprRuns.RunKeepsConsistent`, `CprRuns.ReadingRunKeepsConsistent`). Inside a
   single scaling, of an update or of an interrupt, the hardware is safe after each operation
   exactly when a mem-acc setting of the corner itself, beside a mem-acc threshold, allows
   the voltages it meets (`CprScalingSafety.UpdateIsSafeExactly`,
   `CprScalingSafety.InterruptIsSafeExactly`), also wherever it fails
   (`CprStopped.StoppedIsSafe`). Whether the next scaling repairs what a failed one leaves has
   an exact condition too (`CprStopped.RetryAfterStopExactly`), and over runs in which any
   number of updates fail the hardware stays safe (`CprRuns.RunWithFailures`). The class that
   carries the controller's state does all this (`CprController.Controller.UpdateState`,
   `CprController.Controller.UpdateAgain`,
   `CprController.Controller.Interrupt`). Where an update and an interrupt go is given in
   numbers, on the voltages of the regulators alone (`CprTargets.TargetExactly`,
   `CprTargets.IrqMovesExactly`), enough up interrupts reach the ceiling
   (`CprTargets.UpRunReachesCeiling`), and no request for a voltage is one that the
   regulator framework refuses (`CprTargets.UpdateIsNotRefused`).
4. No entry of an aggregated sdelta table takes the supply below what any other regulator of
   any thread needs that has an sdelta structure, be its table empty or not, unless an
   open-loop voltage equals the largest of those merged before it
   (`CprSdelta.ControllerHasHeadroom`). What every entry is cut to is given in numbers
   (`CprEntries.ControllerEntriesExactly`), and after a tie what is protected has an exact
   condition for the rest of the list (`CprSdelta.TieStopsCapping`).
5. Aging margins do not depend on the path by which they were reached, exactly unless a
   quotient is driven to 0 on the way, and up to three bad samples per measurement cannot
   move them (`CprAgingMargin.RunIsPathIndependentExactly`,
   `CprAgingMargin.ReferenceIsRobust`).
6. Open-loop voltages calculated from a fuse map grow over the corners and meet the fuse
   voltages (`CprFuseVoltages.OpenLoopFromMap`), and the voltage limits leave the table in
   order (`CprTables.LimitsLeaveTableInOrder`).

## Where the code does less than it seems to

Each of these is a lemma, with the exact condition where there is one.

- The comment that small ratios can be skipped is right
  (`PwmDivider.SkippedAreNoBetter`), but for 65535^2 - 1 cycles, and from 65535 * 65536
  on, the scan finds nothing and programs 0xFFFF for both dividers. That period is 2^32
  cycles: longer than asked for in the former case, and in the latter up to 2^32 - 1 cycles
  (`PwmDivider.ReadPeriodBound`). Nor can they be high for the whole period
  (`PwmDivider.FullDutyExactly`), and applying what is read back does not program them again
  where one second is no fallback case (`PwmDivider.ReapplyIsStableExactly`), as at
  4294836229 Hz (`PwmDivider.ReapplyMoves`).
- A spare limit of 0 puts empty batches into the ring
  (`SkbRecycler.ZeroSpareLimitPublishesNothing`).
- An open-loop voltage that equals the largest merged so far sets the sdelta cap to 0, which
  switches capping off for the rest of the list (`CprSdelta.TieStopsCapping`). A lower corner
  is then protected exactly if the entries of the two tied tables do so by themselves
  (`CprSdelta.LowerAfterTieExactly`), and the tied ones from a higher corner exactly if its
  own table does (`CprSdelta.HigherAfterTieExactly`). Both can fail
  (`CprSdelta.TieLosesHeadroom`, `CprSdelta.TieLosesHeadroomBelow`).
- The sdelta cap is the least distance of a voltage from the largest before it. Corners that lie
  close to each other and come before the most demanding one therefore cut its margins further
  than headroom takes, which depends on the order of the regulators (`CprEntries.GapExactly`,
  `CprEntries.OrderCostsMargin`).
- A boost margin keeps the boosted voltage that it stands for exactly if it is taken over: a
  dominant corner without temperature bands drops it (`CprSdelta.SingleBoostExactly`). A
  second corner with boost would overwrite the first one's: after 900, boosts of 20 steps at
  800 and of one step at 890 leave nothing of the former
  (`CprSdelta.SecondBoostLosesFirst`). The driver refuses a second regulator with boost
  (cpr3-regulator.c:4759-4766).
- The spread of an aggregated table without entries is computed from the limits of an `int`
  and wraps around to one step (`CprSdelta.MaxSdeltaDiff`).
- The 1 uV nudge is harmless for steps of at least 2 uV; with a step of 1 uV it can leave the
  reading below a threshold (`CprScaling.ReadingOnTargetSideExactly`). The results over runs
  are stated for steps of at least 2 uV. A target that is not a set point and lies less than
  a step below a threshold is rounded up across it (`CprScaling.ReadingOnClearSideExactly`),
  which is why the results over runs ask for clear targets; set points are clear
  (`CprRuns.SetPointsAreGood`).
- On the interrupt path the stored last voltage is the old one. A long move down across both
  thresholds would turn back above the APM threshold after the switch
  (`CprScaling.InterruptTurnsBackExactly`); moves of one step cannot
  (`CprScaling.InterruptStepIsMonotone`). Going down across the mem-acc threshold it would
  also stop at that voltage instead of the threshold, with low settings
  (`CprScalingSafety.PlanIsSafeExactly`).
- A corner's own mem-acc setting overrides the one that a mem-acc threshold chooses, and is
  made before the supply moves down. With both in use a scaling is safe, and ends matching,
  exactly under the conditions of `CprScalingSafety.PlanIsSafeExactly` and
  `CprScaling.PlanMatchesExactly`. The drivers here never set a mem-acc threshold or a
  mem-acc regulator of a single regulator, so only the corner's own setting is reachable;
  then every scaling is safe, and the setting is lowered before the supply moves down and
  raised after it has moved up (`CprScaling.CornerMemAccLeads`, `CprScaling.CornerMemAccLags`).
- A failed scaling can stop at a threshold with the settings for below it. A single failed
  request is enough on the way down, and a failed mem-acc switch on the way up; an APM switch
  on the way up must fail together with its roll-back (`CprStopped.ApmGetsStuck`,
  `CprStopped.MemAccGetsStuck`, `CprStopped.MemAccGetsStuckGoingUp`). The next update reads the
  supply at the threshold and takes it for above: it sees no crossing on the way up, and ends
  unsafe exactly if it goes above the threshold (`CprStopped.RetryAfterFailedSwitch`,
  `CprStopped.RetryAfterStopExactly`). As long as no update does that, any number may fail in a
  row (`CprStopped.FailsAgain`).
- The first update has no ceiling of an old corner to go by: it fails exactly if it goes down
  across the mem-acc threshold (`CprTargets.FirstUpdateRefusedExactly`). After a scaling that
  failed on the way up the ceiling in force can be below the supply, and the next scaling down
  across that threshold fails exactly if its stop is above that ceiling
  (`CprRequests.PlanRefusedExactly`). No driver here sets a mem-acc threshold.
- An aging adjustment whose measurement failed returns success if a mode of the supply is to be
  set at the end, and is (`CprAgingMargin.Aging.AgingAdjust`). No driver here asks for one.
- A CPR4 controller with hardware closed-loop starts updates from its stored open-loop
  voltage. Run in software, interrupts can take it across a threshold unnoticed
  (`CprRuns.InterruptsHideCrossing`), and the settled voltage it stores is not checked
  against the corner's range (`CprRegulators.SettledInRangeExactly`). No driver here is such a
  controller: both that set the flag set it to false (cpr4-apss-regulator.c:1565,
  cpr3-npu-regulator.c:528), whether or not they run in hardware closed-loop, and without the
  flag nothing of this happens
  (`CprRuns.ReadingRunKeepsConsistent`).
- The decreasing quotient pass gives the greatest table among those with the same zero
  entries, and among all exactly when there was nothing to do
  (`CprTables.DecPassIsGreatestOfAllExactly`).
- Converting a quotient to a voltage and back can lose more than one unit at scales above
  1000000 QUOT/V, exactly when the remainder of the first conversion exceeds a million
  (`CprTables.RoundTripLosesExactly`).
- A negative scaling factor can drive a quotient to 0 from which no later adjustment brings
  it back (`CprAgingMargin.LostQuotientStaysLost`); a run of adjustments is exact exactly when
  none does (`CprAgingMargin.RunIsPathIndependentExactly`).
- The range check of the fuse map accepts a last entry of one more than the number of
  corners; the calculation then fails if the entry before it is the number of corners
  (`CprFuseVoltages.ScanSucceedsExactly`).

## Model

| member | source | states |
|---|---|---|
| `PwmDivider.NoFallbackUpTo4GHz` | qca/ipq95xx/ipq95xx/files-6.1/drivers/pwm/pwm-ipq.c:118-139 | for every period of at most 1 s and every clock of at most 4 GHz the cycle count is not one for which the scan finds nothing |
| `PwmDivider.SkippedAreNoBetter` | qca/ipq95xx/ipq95xx/files-6.1/drivers/pwm/pwm-ipq.c:127-138 | the promise in the comment: the first ratio scanned already does at least as well as every pair with a smaller one, so skipping those loses nothing |
| `PwmDivider.OrderedPairIsCovered` | qca/ipq95xx/ipq95xx/files-6.1/drivers/pwm/pwm-ipq.c:141-157 | every pair the hardware can hold, with its ratios in order, is matched or beaten by some ratio the scan looks at before it stops |
| `PwmDivider.PrunedScanIsOptimal` | qca/ipq95xx/ipq95xx/files-6.1/drivers/pwm/pwm-ipq.c:127-173 | a scanned ratio that no scanned ratio beats is beaten by no pair at all, in either order: the pruned scan is as good as an exhaustive one |
| `PwmDivider.FallbackHasNoCandidate` | qca/ipq95xx/ipq95xx/files-6.1/drivers/pwm/pwm-ipq.c:125-139 | for 65535^2 - 1 cycles, and from 65535 * 65536 cycles on, no ratio the scan looks at is acceptable, so 0xFFFF/0xFFFF stays |
| `PwmDivider.ScanDividers` | qca/ipq95xx/ipq95xx/files-6.1/drivers/pwm/pwm-ipq.c:125-173 | the loop itself, with the unsigned decrement, the early exits and the skipped ratios: it ends having seen every ratio that could do better |
| `PwmDivider.SearchDividers` | qca/ipq95xx/ipq95xx/files-6.1/drivers/pwm/pwm-ipq.c:125-173 | the search: the pair it returns is the closest of all feasible pairs exactly when the cycle count is not one of the two fallback cases; ties and the order of the two dividers are fixed as well |
| `PwmDivider.PwmDivFor` | qca/ipq95xx/ipq95xx/files-6.1/drivers/pwm/pwm-ipq.c:144-147 | one division with remainder, and the decrement that wraps below zero: the quotient never exceeds the register from the first ratio on |
| `PwmDivider.AcceptedIffOneCycle` | qca/ipq95xx/ipq95xx/files-6.1/drivers/pwm/pwm-ipq.c:109-124 | a request is accepted exactly when its polarity is normal, the clock at most 16 GHz and the period at least one clock cycle; the product then fits 64 bits |
| `PwmDivider.VerdictExactly` | qca/ipq95xx/ipq95xx/files-6.1/drivers/pwm/pwm-ipq.c:109-124 | which error code a refused request gets: the polarity is looked at first, the clock last |
| `PwmDivider.CeilDivGalois` | qca/ipq95xx/ipq95xx/files-6.1/drivers/pwm/pwm-ipq.c:112-113 | rounding up in 64 bits: the quotient is at most y exactly when the dividend is at most y times the divisor |
| `PwmDivider.Pwm.ConfigDivAndDuty` | qca/ipq95xx/ipq95xx/files-6.1/drivers/pwm/pwm-ipq.c:73-98 | the three register writes in order, and what the two registers then hold field by field |
| `PwmDivider.Pwm.Apply` | qca/ipq95xx/ipq95xx/files-6.1/drivers/pwm/pwm-ipq.c:100-180 | the return code on every path; on success the registers program the closest pair and the duty cycle, on failure nothing is written |
| `PwmDivider.Pwm.GetState` | qca/ipq95xx/ipq95xx/files-6.1/drivers/pwm/pwm-ipq.c:182-209 | the state read back as a function of the two registers |
| `PwmDivider.ReadPeriodBound` | qca/ipq95xx/ipq95xx/files-6.1/drivers/pwm/pwm-ipq.c:201-203 | the period read back is at most the requested one (capped at 1 s) exactly unless the fallback pair is longer than the request |
| `PwmDivider.ReadDutyBound` | qca/ipq95xx/ipq95xx/files-6.1/drivers/pwm/pwm-ipq.c:205-206 | the duty cycle read back is at most the requested one and at most the period read back |
| `PwmDivider.DutyIsCapped` | qca/ipq95xx/ipq95xx/files-6.1/drivers/pwm/pwm-ipq.c:115-116 | the duty cycle asked for is capped by the period, and that by a second |
| `PwmDivider.HighDurationIsLongest` | qca/ipq95xx/ipq95xx/files-6.1/drivers/pwm/pwm-ipq.c:80-84 | the high duration programmed is the longest, in divided cycles, that does not exceed the duty cycle, unless the fallback dividers are used |
| `PwmDivider.ReadDutyExactly` | qca/ipq95xx/ipq95xx/files-6.1/drivers/pwm/pwm-ipq.c:205-206 | the duty cycle is read back as the least number of nanoseconds that covers the high duration |
| `PwmDivider.ReadPeriodExactly` | qca/ipq95xx/ipq95xx/files-6.1/drivers/pwm/pwm-ipq.c:201-203 | and the period as the least that covers the period programmed |
| `PwmDivider.EnabledReadsBack` | qca/ipq95xx/ipq95xx/files-6.1/drivers/pwm/pwm-ipq.c:73-98 | and enabled exactly if the request was |
| `PwmDivider.FullDutyExactly` | qca/ipq95xx/ipq95xx/files-6.1/drivers/pwm/pwm-ipq.c:158-163 | the promise of a 100% duty cycle: a request for the whole period gets hi_dur == pwm_div + 1, and reads back as the whole period, exactly unless the fallback dividers are used |
| `PwmDivider.ReapplyIsStable` | qca/ipq95xx/ipq95xx/files-6.1/drivers/pwm/pwm-ipq.c:182-209 | a request that gets the closest pair: re-applying the period read back is accepted and programs dividers with the same product, and so reads back unchanged |
| `PwmDivider.FallbackReappliesExactly` | qca/ipq95xx/ipq95xx/files-6.1/drivers/pwm/pwm-ipq.c:182-209 | the fallback dividers: the period read back falls back again exactly if a period of one second does |
| `PwmDivider.ReapplyIsStableExactly` | qca/ipq95xx/ipq95xx/files-6.1/drivers/pwm/pwm-ipq.c:182-209 | for every accepted request: re-applying the period read back programs dividers with the same product exactly unless the request falls back where one second would not |
| `PwmDivider.ReapplyMoves` | qca/ipq95xx/ipq95xx/files-6.1/drivers/pwm/pwm-ipq.c:182-209 | such a request: at 4294836229 Hz, one nanosecond less than a second |
| `PwmDivider.RoundTripUpTo4GHz` | qca/ipq95xx/ipq95xx/files-6.1/drivers/pwm/pwm-ipq.c:100-209 | for clocks up to 4 GHz: the closest pair is programmed, and neither period nor duty cycle reads back longer than asked |
| `RingMask.MaskIsMod` | qca/ipq95xx/ipq95xx/files-6.1/net/core/skbuff_recycle.c:79 | masking with a power of two less one is the remainder |
| `RingMask.MaskedIncrement` | qca/ipq95xx/ipq95xx/files-6.1/net/core/skbuff_recycle.c:184 | the masked increment visits the slots of the ring in turn |
| `SkbRecycler.RingRefinesQueue` | qca/ipq95xx/ipq95xx/files-6.1/net/core/skbuff_recycle.c:59-97 | every atomic step does to an abstract FIFO queue of batches what its event says, and keeps the pool slots outside the head..tail window empty |
| `SkbRecycler.RingCapacity` | qca/ipq95xx/ipq95xx/files-6.1/net/core/skbuff_recycle.c:179-198 | head meets tail exactly when the queue is empty; it holds at most all slots but one, and the tail cannot be advanced exactly when it is full |
| `SkbRecycler.RunIsFifo` | qca/ipq95xx/ipq95xx/files-6.1/net/core/skbuff_recycle.c:59-97 | over every run, across wrap-around and flushes: the batches that left, then those still queued, are the initial ones, then those that entered, in order |
| `SkbRecycler.StepConserves` | qca/ipq95xx/ipq95xx/files-6.1/net/core/skbuff_recycle.c:143-321 | one step of any CPU: every skb is in as many places as before plus its arrival, so in at most one, and what is freed stays freed |
| `SkbRecycler.RunConserves` | qca/ipq95xx/ipq95xx/files-6.1/net/core/skbuff_recycle.c:143-321 | over every interleaving of alloc, consume, list consume, flush and CPU-dead steps on any number of CPUs each skb is in exactly one place and none is freed twice |
| `SkbRecycler.RunSized` | qca/ipq95xx/ipq95xx/files-6.1/net/core/skbuff_recycle.c:179-232 | with a fixed spare limit of at least 1, over every run, spare lists stay within it and every batch in the ring holds exactly that many skbs |
| `SkbRecycler.RunNoEmptyBatch` | qca/ipq95xx/ipq95xx/files-6.1/net/core/skbuff_recycle.c:179-232 | even if the spare limit changes during the run, as long as it is never 0 no batch in the ring is empty |
| `SkbRecycler.AllocFailsExactly` | qca/ipq95xx/ipq95xx/files-6.1/net/core/skbuff_recycle.c:43-97 | allocation fails exactly when the length exceeds 2304, or the CPU's hot list is empty and so is the ring or its oldest batch; without empty batches the last case disappears |
| `SkbOwners.AllocHandsOut` | qca/ipq95xx/ipq95xx/files-6.1/net/core/skbuff_recycle.c:43-97 | for every state, CPU and length: the caller gets exactly the skb returned, which was first in the hot list or, if that was empty, first in the oldest batch, and is afterwards in no list; if none is returned, nothing is held more than before |
| `SkbOwners.AllocsInOrder` | qca/ipq95xx/ipq95xx/files-6.1/net/core/skbuff_recycle.c:43-58 | the hot list is handed out from the front |
| `SkbRecycler.ZeroSpareLimitPublishesNothing` | qca/ipq95xx/ipq95xx/files-6.1/net/core/skbuff_recycle.c:179-215 | with a spare limit of 0 a consume publishes an empty batch, and the allocation that follows fails although the ring is not empty |
| `SkbRecycler.ConsumeRefusedExactly` | qca/ipq95xx/ipq95xx/files-6.1/net/core/skbuff_recycle.c:143-239 | a refused consume leaves the whole state unchanged, and is refused exactly when the skb cannot be recycled or hot list, spare list and ring are all full |
| `SkbRecycler.AllocUndoesConsume` | qca/ipq95xx/ipq95xx/files-6.1/net/core/skbuff_recycle.c:43-58 | consuming into the hot list and allocating on the same CPU gives the same skb back and restores the state |
| `SkbOwners.ConsumePlaces` | qca/ipq95xx/ipq95xx/files-6.1/net/core/skbuff_recycle.c:143-239 | an accepted consume takes the skb from its caller and puts it first in the hot list, or first in the spare list when the hot one is full; if that is full too, the spare list enters the ring first and the skb starts a new one |
| `SkbOwners.ConsumeListExactly` | qca/ipq95xx/ipq95xx/files-6.1/net/core/skbuff_recycle.c:265-284 | a list is accepted exactly if the hot list is below its limit, then put in front of it in order, and refused without a trace otherwise |
| `SkbOwners.AllocsUndoConsumeList` | qca/ipq95xx/ipq95xx/files-6.1/net/core/skbuff_recycle.c:265-284 | as many allocations hand out an accepted list in its order and restore the state |
| `SkbOwners.HandedOutOnce` | qca/ipq95xx/ipq95xx/files-6.1/net/core/skbuff_recycle.c:43-284 | over every run on any number of CPUs: between two allocations that hand out the same skb somebody gives it up, by a consume, a list consume or a free |
| `SkbOwners.DeadCpuIsEmpty` | qca/ipq95xx/ipq95xx/files-6.1/net/core/skbuff_recycle.c:309-321 | a dead CPU's lists end empty, and exactly what was in them is freed |
| `SkbOwners.FlushesEmpty` | qca/ipq95xx/ipq95xx/files-6.1/net/core/skbuff_recycle.c:399-453 | a flush of a CPU empties its lists into one to be freed, and the global flush empties the ring and frees what was in its pools |
| `SkbRecycler.Recycler.constructor` | qca/ipq95xx/ipq95xx/files-6.1/net/core/skbuff_recycle.c:585-616 | an empty recycler: all lists empty, ring empty, default limits |
| `SkbRecycler.Recycler.Alloc` | qca/ipq95xx/ipq95xx/files-6.1/net/core/skbuff_recycle.c:35-141 | refines the alloc step, with the result it returns |
| `SkbRecycler.Recycler.Consume` | qca/ipq95xx/ipq95xx/files-6.1/net/core/skbuff_recycle.c:143-239 | refines the consume step, with the result it returns |
| `SkbRecycler.Recycler.PublishSpare` | qca/ipq95xx/ipq95xx/files-6.1/net/core/skbuff_recycle.c:179-218 | the locked section: the spare list moves into the ring if it has room, else nothing changes |
| `SkbRecycler.Recycler.ConsumeListFast` | qca/ipq95xx/ipq95xx/files-6.1/net/core/skbuff_recycle.c:265-284 | refines the list consume step, with the result it returns |
| `SkbRecycler.Recycler.FreeSkbs` | qca/ipq95xx/ipq95xx/files-6.1/net/core/skbuff_recycle.c:287-307 | the drain loop frees every skb of the list once and empties it |
| `SkbRecycler.Recycler.CpuDead` | qca/ipq95xx/ipq95xx/files-6.1/net/core/skbuff_recycle.c:309-321 | refines the two CPU-dead steps |
| `SkbRecycler.Recycler.FlushTask` | qca/ipq95xx/ipq95xx/files-6.1/net/core/skbuff_recycle.c:399-431 | both lists of the CPU end up freed, and nothing else changes |
| `SkbRecycler.Recycler.FlushPools` | qca/ipq95xx/ipq95xx/files-6.1/net/core/skbuff_recycle.c:433-453 | refines the global flush: every pool is freed and the ring reset |
| `CprCorner.ThreadJoinIsLeast` | qca/ipq95xx/ipq95xx/files-6.1/drivers/regulator/cpr3-regulator.c:1967-2004 | the aggregated corner of a thread is the least one that covers all its regulators: voltages, interrupts, target quotients and masks |
| `CprCorner.CtrlJoinIsLeast` | qca/ipq95xx/ipq95xx/files-6.1/drivers/regulator/cpr3-regulator.c:2095-2154 | the controller's aggregated corner is the least one that covers every regulator of every thread |
| `CprCorner.CtrlJoinOrderIndependent` | qca/ipq95xx/ipq95xx/files-6.1/drivers/regulator/cpr3-regulator.c:2095-2154 | the same requests in any order, or grouped into other threads, aggregate to the same voltages and interrupts |
| `CprCorner.ThreadJoinKeeps` | qca/ipq95xx/ipq95xx/files-6.1/drivers/regulator/cpr3-regulator.c:1967-2004 | aggregation keeps floor <= open-loop, last <= ceiling and set points |
| `CprCorner.CtrlJoinKeeps` | qca/ipq95xx/ipq95xx/files-6.1/drivers/regulator/cpr3-regulator.c:2095-2154 | the same for the two levels together |
| `CprCorner.Reshape` | qca/ipq95xx/ipq95xx/files-6.1/drivers/regulator/cpr3-regulator.c:2191-2236 | the three adjustments in place equal their specification functions |
| `CprCorner.ApmAdjustedOrderedExactly` | qca/ipq95xx/ipq95xx/files-6.1/drivers/regulator/cpr3-regulator.c:2191-2210 | the APM step keeps the order exactly unless it lowers the ceiling below a floor that lies within one step below the threshold |
| `CprCorner.ApmAdjustedIsSafe` | qca/ipq95xx/ipq95xx/files-6.1/drivers/regulator/cpr3-regulator.c:2191-2210 | from a floor and an APM voltage on set points, whatever the other voltages: the order is kept, the floor is not lowered, and the range no longer meets the APM threshold |
| `CprCorner.MemAccAdjustedIsSafe` | qca/ipq95xx/ipq95xx/files-6.1/drivers/regulator/cpr3-regulator.c:2212-2220 | the same for the mem-acc step, for any mem-acc voltage; it does not undo the APM step |
| `CprCorner.DynamicFloorAdjustedIsSafe` | qca/ipq95xx/ipq95xx/files-6.1/drivers/regulator/cpr3-regulator.c:2222-2236 | the same for any dynamic floor, which undoes neither |
| `CprCorner.ReshapedIsSafe` | qca/ipq95xx/ipq95xx/files-6.1/drivers/regulator/cpr3-regulator.c:2191-2236 | all three in sequence, from any ordered corner with a floor on a set point: the order is kept, the floor is at least the old one and the dynamic floor, and floor < threshold <= ceiling is false for both thresholds |
| `CprCorner.JoinedRangeIsSafe` | qca/ipq95xx/ipq95xx/files-6.1/drivers/regulator/cpr3-regulator.c:2095-2236 | the same for the aggregated corner of all regulators of all threads, from what holds of each of their corners |
| `CprCorner.ReshapedOnSetPoints` | qca/ipq95xx/ipq95xx/files-6.1/drivers/regulator/cpr3-regulator.c:2191-2236 | where all voltages are set points they stay so |
| `CprCorner.NewVoltInRange` | qca/ipq95xx/ipq95xx/files-6.1/drivers/regulator/cpr3-regulator.c:2238-2259 | the chosen voltage lies in floor..ceiling, and is the open-loop voltage for CPR4 with hardware closed-loop |
| `CprCorner.NewVoltOnSetPoint` | qca/ipq95xx/ipq95xx/files-6.1/drivers/regulator/cpr3-regulator.c:2238-2259 | and is a set point where the corner's voltages are |
| `CprSdelta.MergeKeepsHeadroom` | qca/ipq95xx/ipq95xx/files-6.1/drivers/regulator/cpr3-regulator.c:1808-1952 | one aggregation step with a different open-loop voltage keeps the headroom of everything merged before on either side |
| `CprSdelta.AggregateHasHeadroom` | qca/ipq95xx/ipq95xx/files-6.1/drivers/regulator/cpr3-regulator.c:1808-1952 | any list of positive open-loop voltages none of which equals the largest before it, with or without tables, rows and bands of their own: the result has the largest, and no table entry takes it below any other corner's |
| `CprSdelta.ControllerHasHeadroom` | qca/ipq95xx/ipq95xx/files-6.1/drivers/regulator/cpr3-regulator.c:2095-2154 | the two-level aggregation without such ties: no entry of the table in use takes the voltage below the open-loop voltage of any other regulator of any thread |
| `CprEntries.CapIsGap` | qca/ipq95xx/ipq95xx/files-6.1/drivers/regulator/cpr3-regulator.c:1873-1880 | any list without ties: the cap is the least distance of an open-loop voltage from the largest before it, which is defined on the voltages alone |
| `CprEntries.EntriesExactly` | qca/ipq95xx/ipq95xx/files-6.1/drivers/regulator/cpr3-regulator.c:1808-1952 | and the table is that of the most demanding corner, each entry bounded by the whole steps in that distance and by nothing else |
| `CprEntries.EntryIsKept` | qca/ipq95xx/ipq95xx/files-6.1/drivers/regulator/cpr3-regulator.c:1936-1951 | so an entry within that distance is unchanged |
| `CprEntries.GapExactly` | qca/ipq95xx/ipq95xx/files-6.1/drivers/regulator/cpr3-regulator.c:1873-1880 | that distance is what headroom takes, from the most demanding corner to the next lower voltage, exactly unless the corners merged before it lie closer to each other |
| `CprEntries.OrderCostsMargin` | qca/ipq95xx/ipq95xx/files-6.1/drivers/regulator/cpr3-regulator.c:1820-1872 | a concrete list in which they do: the order of the regulators decides whether the margin is kept |
| `CprEntries.ControllerEntriesExactly` | qca/ipq95xx/ipq95xx/files-6.1/drivers/regulator/cpr3-regulator.c:2095-2154 | the same through both levels, with the lesser of the two least distances |
| `CprEntries.FlagsExactly` | qca/ipq95xx/ipq95xx/files-6.1/drivers/regulator/cpr3-regulator.c:1808-1952 | boost is allowed if any corner allows it and disables core-count adjustment; else the flags are those of the most demanding corner |
| `CprEntries.TieFlagsExactly` | qca/ipq95xx/ipq95xx/files-6.1/drivers/regulator/cpr3-regulator.c:1894-1951 | after a tie core-count adjustment is off, and temperature adjustment on only if both use it, whatever less demanding corners follow |
| `CprSdelta.DistinctDoNotTie` | qca/ipq95xx/ipq95xx/files-6.1/drivers/regulator/cpr3-regulator.c:1894-1951 | pairwise distinct voltages never take the branch of equal ones |
| `CprSdelta.TieStopsCapping` | qca/ipq95xx/ipq95xx/files-6.1/drivers/regulator/cpr3-regulator.c:1894-1951 | any list in which a corner ties with the largest before it: the cap is 0 from then on, whatever follows, and a voltage is protected at the end exactly if the table of the most demanding corner protects it, bounded only by those that tie with it |
| `CprSdelta.LowerAfterTieExactly` | qca/ipq95xx/ipq95xx/files-6.1/drivers/regulator/cpr3-regulator.c:1894-1951 | a lower corner that follows a tie is protected exactly if the entries of the tied tables protect it by themselves |
| `CprSdelta.HigherAfterTieExactly` | qca/ipq95xx/ipq95xx/files-6.1/drivers/regulator/cpr3-regulator.c:1894-1951 | a higher corner that follows a tie protects the tied ones exactly if its own table does |
| `CprSdelta.TieLosesHeadroom` | qca/ipq95xx/ipq95xx/files-6.1/drivers/regulator/cpr3-regulator.c:1894-1951 | a concrete tie after which a lower corner is not protected |
| `CprSdelta.TieLosesHeadroomBelow` | qca/ipq95xx/ipq95xx/files-6.1/drivers/regulator/cpr3-regulator.c:1894-1951 | a concrete tie after which a higher corner takes the supply below the tied ones |
| `CprSdelta.BoostIsKept` | qca/ipq95xx/ipq95xx/files-6.1/drivers/regulator/cpr3-regulator.c:1851-1893 | whatever is aggregated before a corner with boost, and whatever without boost after it: each of its boost entries that is taken over keeps the boosted voltage that it stands for |
| `CprSdelta.SingleBoostExactly` | qca/ipq95xx/ipq95xx/files-6.1/drivers/regulator/cpr3-regulator.c:1851-1893 | the one regulator with boost that the driver admits (4759-4766): an entry keeps its boosted voltage exactly if it is taken over, or the open-loop voltage reaches that anyway |
| `CprEntries.MovedBoostIsLeast` | qca/ipq95xx/ipq95xx/files-6.1/drivers/regulator/cpr3-regulator.c:1851-1872 | a boost margin moved to a more demanding corner is the least that still gives the boosted voltage |
| `CprEntries.BoostCoresExactly` | qca/ipq95xx/ipq95xx/files-6.1/drivers/regulator/cpr3-regulator.c:1851-1929 | the number of cores to boost for is that of the last corner with boost |
| `CprSdelta.SecondBoostExactly` | qca/ipq95xx/ipq95xx/files-6.1/drivers/regulator/cpr3-regulator.c:1882-1893 | a second corner with boost overwrites the first one's entries: a voltage of the first is kept exactly if the second one's entry happens to keep it |
| `CprSdelta.SecondBoostLosesFirst` | qca/ipq95xx/ipq95xx/files-6.1/drivers/regulator/cpr3-regulator.c:1882-1893 | a concrete pair of corners with boost of which the first loses its margin |
| `CprSdelta.BoundTable` | qca/ipq95xx/ipq95xx/files-6.1/drivers/regulator/cpr3-regulator.c:1936-1951 | the nested loops bound exactly the declared part of the table by the cap |
| `CprSdelta.MaxSdeltaDiff` | qca/ipq95xx/ipq95xx/files-6.1/drivers/regulator/cpr3-regulator.c:1776-1793 | over the declared part of any buffer: the result is the greatest voltage difference between two entries, attained and not negative; without entries it is one step, as the limits wrap around |
| `CprSdelta.Aggregate.AggregateSdelta` | qca/ipq95xx/ipq95xx/files-6.1/drivers/regulator/cpr3-regulator.c:1808-1952 | the in-place aggregation equals its specification, tables included |
| `CprSdelta.Aggregate.TakeOver` | qca/ipq95xx/ipq95xx/files-6.1/drivers/regulator/cpr3-regulator.c:1820-1872 | the branch of a more demanding corner |
| `CprSdelta.Aggregate.GiveWay` | qca/ipq95xx/ipq95xx/files-6.1/drivers/regulator/cpr3-regulator.c:1873-1893 | the branch of a less demanding corner |
| `CprSdelta.Aggregate.Equalize` | qca/ipq95xx/ipq95xx/files-6.1/drivers/regulator/cpr3-regulator.c:1894-1929 | the branch of equal open-loop voltages |
| `CprScaling.PlanMatchesExactly` | qca/ipq95xx/ipq95xx/files-6.1/drivers/regulator/cpr3-regulator.c:1623-1703 | from any settings: a successful scaling ends with APM and mem-acc settings matching the target exactly when every threshold that it does not cross finds its settings fitting already, and a mem-acc setting of the corner itself does not interfere |
| `CprScaling.PlanMatchesTarget` | qca/ipq95xx/ipq95xx/files-6.1/drivers/regulator/cpr3-regulator.c:1623-1703 | from settings that match the voltage it starts from, that is whatever the thresholds, their order and the direction, exactly when the corner's own setting does not interfere |
| `CprScaling.CornerMemAccOrder` | qca/ipq95xx/ipq95xx/files-6.1/drivers/regulator/cpr3-regulator.c:1623-1703 | the corner's own mem-acc setting is the first operation on the way down and the last on the way up |
| `CprScaling.CornerMemAccLeads` | qca/ipq95xx/ipq95xx/files-6.1/drivers/regulator/cpr3-regulator.c:1630-1633 | so with no mem-acc threshold it is lowered before the supply moves, and stays |
| `CprScaling.CornerMemAccLags` | qca/ipq95xx/ipq95xx/files-6.1/drivers/regulator/cpr3-regulator.c:1685-1688 | and raised only after the supply has arrived |
| `CprScaling.ReadingOnTargetSideExactly` | qca/ipq95xx/ipq95xx/files-6.1/drivers/regulator/cpr3-regulator.c:1655-1667 | the supply's reading is on the target's side of both thresholds exactly when the 1 uV nudge is rounded away or no threshold equals the target |
| `CprScaling.ReadingOnClearSideExactly` | qca/ipq95xx/ipq95xx/files-6.1/drivers/regulator/cpr3-regulator.c:1655-1667 | for any target, set point or not: the reading ends on the target's side of both thresholds exactly when the target does not lie less than a step below one of them, the nudge included |
| `CprScaling.UpdateStopsAtThresholds` | qca/ipq95xx/ipq95xx/files-6.1/drivers/regulator/cpr3-regulator.c:1497-1572 | a scaling of the update path stops exactly at the thresholds it crosses, in voltage order in the direction of travel, and never turns back |
| `CprScaling.InterruptTurnsBackExactly` | qca/ipq95xx/ipq95xx/files-6.1/drivers/regulator/cpr3-regulator.c:1497-1572 | on the interrupt path it turns back exactly when both thresholds are crossed downwards, the APM's is not the lower and the supply was above it |
| `CprScaling.InterruptStepIsMonotone` | qca/ipq95xx/ipq95xx/files-6.1/drivers/regulator/cpr3-regulator.c:1497-1572 | with set points and moves of at most a step, as interrupts make them, that never happens |
| `CprScalingSafety.PlanIsSafeExactly` | qca/ipq95xx/ipq95xx/files-6.1/drivers/regulator/cpr3-regulator.c:1623-1703 | any scaling from matching settings: before, between and after its operations the voltage is on the safe side for the APM and every mem-acc setting exactly when the corner's last voltage is not above a mem-acc threshold crossed downwards, and a mem-acc setting of the corner itself allows the voltages it meets |
| `CprScalingSafety.UpdateIsSafeExactly` | qca/ipq95xx/ipq95xx/files-6.1/drivers/regulator/cpr3-regulator.c:2271-2276 | the update path, where only the corner's own mem-acc setting beside a mem-acc threshold can be unsafe |
| `CprScalingSafety.InterruptIsSafeExactly` | qca/ipq95xx/ipq95xx/files-6.1/drivers/regulator/cpr3-regulator.c:3501-3511 | the interrupt path, moves of at most one step from a set point: the same condition |
| `CprStopped.RollbackIsSafeExactly` | qca/ipq95xx/ipq95xx/files-6.1/drivers/regulator/cpr3-regulator.c:1447-1475 | a failed APM switch is rolled back to a safe state exactly when a mem-acc setting of the corner allows the voltage it goes back to |
| `CprStopped.RollbackExactly` | qca/ipq95xx/ipq95xx/files-6.1/drivers/regulator/cpr3-regulator.c:1467-1473 | a failed APM switch is rolled back to the last stop before the APM's, or to the voltage the scaling started from |
| `CprStopped.StoppedIsSafe` | qca/ipq95xx/ipq95xx/files-6.1/drivers/regulator/cpr3-regulator.c:1623-1703 | wherever a failing operation stops a scaling that is safe otherwise, rolled back or not, or fails after it, the hardware is safe |
| `CprStopped.RetryMatchesExactly` | qca/ipq95xx/ipq95xx/files-6.1/drivers/regulator/cpr3-regulator.c:1623-1703 | from a stop, a scaling that starts from the reading ends matching exactly if the supply does not stand at a threshold with settings for below while the target is at or above it |
| `CprStopped.RetryIsSafeExactly` | qca/ipq95xx/ipq95xx/files-6.1/drivers/regulator/cpr3-regulator.c:1623-1703 | and ends safe exactly if it does not then go above that threshold |
| `CprStopped.RetryAfterStopExactly` | qca/ipq95xx/ipq95xx/files-6.1/drivers/regulator/cpr3-regulator.c:1623-1703 | both for every way a scaling can stop: the exact condition under which the next one restores matching settings, and is safe, for the APM and for mem-acc |
| `CprStopped.FailsAgain` | qca/ipq95xx/ipq95xx/files-6.1/drivers/regulator/cpr3-regulator.c:1623-1703 | failures in a row: a scaling that starts from the reading at a stop, and is not stuck there, is safe at every operation, and wherever it stops it leaves such a state again |
| `CprStopped.ApmGetsStuck` | qca/ipq95xx/ipq95xx/files-6.1/drivers/regulator/cpr3-regulator.c:1454-1462 | both routes to such a stop: going up, an APM switch that fails and cannot be rolled back; going down, any single request that fails once the APM is low |
| `CprStopped.MemAccGetsStuck` | qca/ipq95xx/ipq95xx/files-6.1/drivers/regulator/cpr3-regulator.c:1357-1425 | and for mem-acc, any request that fails once it is low |
| `CprStopped.MemAccGetsStuckGoingUp` | qca/ipq95xx/ipq95xx/files-6.1/drivers/regulator/cpr3-regulator.c:1357-1425 | on the way up a single failed mem-acc switch, which is not rolled back, is enough |
| `CprStopped.RetryAfterFailedSwitch` | qca/ipq95xx/ipq95xx/files-6.1/drivers/regulator/cpr3-regulator.c:1447-1475 | from there the next scaling that reads the supply leaves the APM safe exactly if it ends at the threshold or below |
| `CprRequests.EmptyRangeIsRefused` | qca/ipq95xx/ipq95xx/files-6.1/drivers/regulator/cpr3-regulator.c:1661-1667 | a request whose least voltage is above its greatest is refused, as is any range without a set point |
| `CprRequests.LastRequestSpansTarget` | qca/ipq95xx/ipq95xx/files-6.1/drivers/regulator/cpr3-regulator.c:1655-1667 | the last vdd request of every scaling spans the target up to the ceiling of the corner scaled to, whatever it crosses |
| `CprRequests.UpdateRequestsExactly` | qca/ipq95xx/ipq95xx/files-6.1/drivers/regulator/cpr3-regulator.c:1357-1572 | all vdd requests of a scaling of the update path, with their ranges: the stops at the thresholds crossed, in order, and the target |
| `CprRequests.MemAccStopIs` | qca/ipq95xx/ipq95xx/files-6.1/drivers/regulator/cpr3-regulator.c:1369-1382 | where a scaling of either path stops for mem-acc: at the threshold up to the target on the way up; on the way down at the corner's last voltage if that is higher, up to the old ceiling |
| `CprRequests.PlanRefusedExactly` | qca/ipq95xx/ipq95xx/files-6.1/drivers/regulator/cpr3-regulator.c:1623-1703 | no request of a scaling is refused exactly if its end is within the new ceiling, and a mem-acc stop on the way down within the old one |
| `CprRequests.WithinCeilingsIsNotRefused` | qca/ipq95xx/ipq95xx/files-6.1/drivers/regulator/cpr3-regulator.c:1623-1703 | so none is if the known voltage is within the old ceiling and the target within the new one |
| `CprRequests.SystemOrder` | qca/ipq95xx/ipq95xx/files-6.1/drivers/regulator/cpr3-regulator.c:1634-1645 | the system supply is set once: before all else on the way up, after all else on the way down (1688-1697) |
| `CprRequests.PlanSetsSystem` | qca/ipq95xx/ipq95xx/files-6.1/drivers/regulator/cpr3-regulator.c:1688-1697 | and ends at the voltage of the corner scaled to |
| `CprRequests.SyncExactly` | qca/ipq95xx/ipq95xx/files-6.1/drivers/regulator/cpr3-regulator.c:1669-1682 | the supply is told to reprogram its voltage exactly if a CPR4 controller with supports_hw_closed_loop asks for the voltage it was last taken to |
| `CprSupplies.Supplies.Issue` | qca/ipq95xx/ipq95xx/files-6.1/drivers/regulator/cpr3-regulator.c:1661-1667 | one request to a supply: it succeeds and takes effect, or fails and changes nothing, as one for a range without a set point always does; either way it has been asked for |
| `CprSupplies.Supplies.SwitchApmMode` | qca/ipq95xx/ipq95xx/files-6.1/drivers/regulator/cpr3-regulator.c:1447-1475 | the two operations in order, the known voltage, and the roll-back that is always asked for if the switch fails |
| `CprSupplies.Supplies.ConfigBhsMemAcc` | qca/ipq95xx/ipq95xx/files-6.1/drivers/regulator/cpr3-regulator.c:1357-1425 | the operations of a mem-acc crossing in order, and the known voltage afterwards |
| `CprSupplies.Supplies.SwitchMemAcc` | qca/ipq95xx/ipq95xx/files-6.1/drivers/regulator/cpr3-regulator.c:1391-1421 | the controller's and the regulators' mem-acc settings, in the order of threads and regulators |
| `CprSupplies.Supplies.ConfigVoltageCrossings` | qca/ipq95xx/ipq95xx/files-6.1/drivers/regulator/cpr3-regulator.c:1497-1572 | the crossings in their order, and the known voltage afterwards |
| `CprSupplies.Supplies.ScaleVddVoltage` | qca/ipq95xx/ipq95xx/files-6.1/drivers/regulator/cpr3-regulator.c:1623-1703 | on success exactly the planned operations in order, none of which is one to be refused; on failure those before the one that failed, and the roll-back asked for if that was the APM switch |
| `CprRuns.IrqIsSafe` | qca/ipq95xx/ipq95xx/files-6.1/drivers/regulator/cpr3-regulator.c:3457-3488 | one interrupt: the voltage stays in the range, moves by at most one step and in the direction asked for, is not lowered below the dynamic floor, and the opposite interrupt is left enabled |
| `CprTargets.IrqMovesExactly` | qca/ipq95xx/ipq95xx/files-6.1/drivers/regulator/cpr3-regulator.c:3457-3488 | an up interrupt goes up by one step, or to the ceiling; a down interrupt down by one step, or to the floor, unless that is below the dynamic floor, which holds it |
| `CprTargets.IrqEnablesExactly` | qca/ipq95xx/ipq95xx/files-6.1/drivers/regulator/cpr3-regulator.c:3457-3488 | the interrupt of the direction handled stays enabled exactly if a whole step was possible, the other one is enabled, and nothing else changes |
| `CprTargets.UpRunExactly` | qca/ipq95xx/ipq95xx/files-6.1/drivers/regulator/cpr3-regulator.c:3446-3537 | k up interrupts lead to k steps up or to the ceiling, whatever the dynamic floors |
| `CprTargets.UpRunReachesCeiling` | qca/ipq95xx/ipq95xx/files-6.1/drivers/regulator/cpr3-regulator.c:3446-3537 | so enough of them reach the ceiling |
| `CprTargets.DownRunExactly` | qca/ipq95xx/ipq95xx/files-6.1/drivers/regulator/cpr3-regulator.c:3446-3537 | k down interrupts lead to k steps down or to the floor, or to the last voltage on the way that the dynamic floor allows |
| `CprRuns.IrqRunStaysInRange` | qca/ipq95xx/ipq95xx/files-6.1/drivers/regulator/cpr3-regulator.c:3446-3537 | over every run of interrupts: in the range, never below both the start and the lowest dynamic floor, opposite interrupt enabled |
| `CprRuns.IrqRunMovesByStep` | qca/ipq95xx/ipq95xx/files-6.1/drivers/regulator/cpr3-regulator.c:3446-3537 | no run of k interrupts moves the voltage by more than k steps |
| `CprTargets.ReshapedKeepsExactly` | qca/ipq95xx/ipq95xx/files-6.1/drivers/regulator/cpr3-regulator.c:2191-2236 | which set points the reshaped range keeps of the old one: those on the side of the APM threshold that the open-loop voltage is on, from the mem-acc threshold, if that is within reach, and the dynamic floor on; a dynamic floor above all of them is the whole range |
| `CprTargets.ReshapedVoltsExactly` | qca/ipq95xx/ipq95xx/files-6.1/drivers/regulator/cpr3-regulator.c:2191-2236 | open-loop and last voltage become the nearest ones of the new range; in software nothing is reshaped |
| `CprTargets.JoinedIsLargest` | qca/ipq95xx/ipq95xx/files-6.1/drivers/regulator/cpr3-regulator.c:2095-2154 | the aggregated corner takes the largest of each voltage over all regulators that take part |
| `CprTargets.TargetExactly` | qca/ipq95xx/ipq95xx/files-6.1/drivers/regulator/cpr3-regulator.c:2238-2259 | the target in terms of the requests: the largest open-loop voltage with CPR off or after an open-loop corner, in CPR3 closed loop the largest last voltage, in CPR4 closed loop the former with supports_hw_closed_loop, else the latter and the spread; each clipped to the reshaped range |
| `CprTargets.SoftwareTargetExactly` | qca/ipq95xx/ipq95xx/files-6.1/drivers/regulator/cpr3-regulator.c:2238-2259 | in software with CPR off it is the largest open-loop voltage itself, at least every regulator's and one of them; in CPR3 closed loop the largest last voltage |
| `CprTargets.NextTargetExactly` | qca/ipq95xx/ipq95xx/files-6.1/drivers/regulator/cpr3-regulator.c:2238-2371 | two updates in a row, in software: the second goes to the largest last voltage exactly if CPR was on for the first and still is |
| `CprTargets.TargetSettingsExactly` | qca/ipq95xx/ipq95xx/files-6.1/drivers/regulator/cpr3-regulator.c:2174-2276 | what else of the requests reaches the scaling: system and mem-acc voltage, the voltage it starts from, and the ceiling in force |
| `CprTargets.UpdateIrqsExactly` | qca/ipq95xx/ipq95xx/files-6.1/drivers/regulator/cpr3-regulator.c:2294-2308 | after an update in software closed-loop an interrupt is enabled exactly if a regulator that takes part enables it and the supply can still move that way |
| `CprTargets.UpdateIsNotRefused` | qca/ipq95xx/ipq95xx/files-6.1/drivers/regulator/cpr3-regulator.c:2271-2276 | no request of an update of a running controller on set points is refused |
| `CprTargets.IrqIsNotRefused` | qca/ipq95xx/ipq95xx/files-6.1/drivers/regulator/cpr3-regulator.c:3501-3511 | nor is one of an interrupt |
| `CprTargets.FirstUpdateRefusedExactly` | qca/ipq95xx/ipq95xx/files-6.1/drivers/regulator/cpr3-regulator.c:1379-1382 | the first update knows no ceiling yet: a request of it is refused exactly if it goes down across the mem-acc threshold |
| `CprRuns.TargetCornerIsSafe` | qca/ipq95xx/ipq95xx/files-6.1/drivers/regulator/cpr3-regulator.c:2191-2259 | what an update establishes about its target, from the order of the regulators' voltages and floors on set points: order, no threshold inside the range in hardware closed-loop, and floor and target on the same side |
| `CprRuns.TargetOnSetPoint` | qca/ipq95xx/ipq95xx/files-6.1/drivers/regulator/cpr3-regulator.c:2191-2259 | if all voltages taken in are set points so are the target's |
| `CprRuns.SetPointsAreGood` | qca/ipq95xx/ipq95xx/files-6.1/drivers/regulator/cpr3-regulator.c:2191-2259 | which is enough for an update to be one that the run theorem is about |
| `CprRuns.SetPointsAreGoodForIrq` | qca/ipq95xx/ipq95xx/files-6.1/drivers/regulator/cpr3-regulator.c:3457-3488 | likewise for an interrupt |
| `CprRuns.UpdateKeepsConsistent` | qca/ipq95xx/ipq95xx/files-6.1/drivers/regulator/cpr3-regulator.c:2028-2374 | an update from settings that match the voltage it starts from ends with settings, known voltage and real voltage on the target's side of both thresholds |
| `CprRuns.IrqKeepsConsistentExactly` | qca/ipq95xx/ipq95xx/files-6.1/drivers/regulator/cpr3-regulator.c:3341-3548 | an interrupt keeps that exactly when its target is clear of the thresholds, and the stored open-loop voltage, which is what a CPR4 controller with hardware closed-loop starts its next update from, is on the side of the new voltage |
| `CprRuns.RunKeepsConsistent` | qca/ipq95xx/ipq95xx/files-6.1/drivers/regulator/cpr3-regulator.c:1357-1572 | over every run of successful updates and interrupts interleaved with hardware drift inside floor..ceiling: APM high exactly when the target is at or above its threshold, likewise mem-acc, and the real voltage on the same side |
| `CprRuns.ReadingRunKeepsConsistent` | qca/ipq95xx/ipq95xx/files-6.1/drivers/regulator/cpr3-regulator.c:2261-2269 | the same with no condition on the interrupts for every controller without supports_hw_closed_loop, and for every CPR3 one |
| `CprRuns.UpdateKeepsSteady` | qca/ipq95xx/ipq95xx/files-6.1/drivers/regulator/cpr3-regulator.c:2028-2374 | an update leaves the hardware safe as well |
| `CprRuns.IrqKeepsSteady` | qca/ipq95xx/ipq95xx/files-6.1/drivers/regulator/cpr3-regulator.c:3341-3548 | and so does an interrupt |
| `CprRuns.UpdateStopsSafe` | qca/ipq95xx/ipq95xx/files-6.1/drivers/regulator/cpr3-regulator.c:2271-2276 | an update is safe to stop anywhere if there is no mem-acc threshold or the corner has no mem-acc setting of its own |
| `CprRuns.FailedUpdateIsSafe` | qca/ipq95xx/ipq95xx/files-6.1/drivers/regulator/cpr3-regulator.c:2271-2276 | an update of a running controller that fails leaves the hardware safe |
| `CprRuns.FailedIrqIsSafe` | qca/ipq95xx/ipq95xx/files-6.1/drivers/regulator/cpr3-regulator.c:3501-3511 | an interrupt that fails leaves it safe too |
| `CprRuns.UpdateAfterFailureExactly` | qca/ipq95xx/ipq95xx/files-6.1/drivers/regulator/cpr3-regulator.c:2261-2276 | for a controller that reads the supply: after a failed update the next successful one restores all that a run keeps exactly if neither threshold is stuck |
| `CprRuns.UpdateRestores` | qca/ipq95xx/ipq95xx/files-6.1/drivers/regulator/cpr3-regulator.c:2028-2374 | for a controller that reads the supply: an update that succeeds and is not stuck ends consistent and safe, however many have failed before |
| `CprRuns.RunWithFailures` | qca/ipq95xx/ipq95xx/files-6.1/drivers/regulator/cpr3-regulator.c:2028-2374 | over every run in which any number of updates fail anywhere, between others that succeed, interrupts and drift: the hardware is safe after each, and consistent whenever the loop runs |
| `CprRuns.NoCrossingNoSwitch` | qca/ipq95xx/ipq95xx/files-6.1/drivers/regulator/cpr3-regulator.c:1497-1572 | a scaling whose known voltage is on the target's side never touches the APM |
| `CprRuns.InterruptsHideCrossing` | qca/ipq95xx/ipq95xx/files-6.1/drivers/regulator/cpr3-regulator.c:2261-2269 | for a CPR4 controller that has supports_hw_closed_loop but runs in software: after an interrupt, a scaling to the side of the stored open-loop voltage leaves the APM on the right side exactly unless the interrupt went across the APM threshold, away from that voltage |
| `CprRegulators.SettledInRangeExactly` | qca/ipq95xx/ipq95xx/files-6.1/drivers/regulator/cpr3-regulator.c:1196-1299 | a settled voltage stays in the corner's range exactly unless a CPR4 controller with hardware closed-loop stores one that is outside |
| `CprRegulators.SettledExactly` | qca/ipq95xx/ipq95xx/files-6.1/drivers/regulator/cpr3-regulator.c:1196-1299 | exactly when the reading becomes the settled voltage: in range with one thread; else only with supports_hw_closed_loop, always for CPR4, and for CPR3 if a valid measurement accounts for it |
| `CprRegulators.WithSettledExactly` | qca/ipq95xx/ipq95xx/files-6.1/drivers/regulator/cpr3-regulator.c:1196-1299 | for which corner, and under which conditions on the regulator and the loop |
| `CprRegulators.SettledIsGood` | qca/ipq95xx/ipq95xx/files-6.1/drivers/regulator/cpr3-regulator.c:1196-1299 | storing a settled voltage keeps a corner's order, as far as the driver relies on it, and its set points |
| `CprRegulators.WithSettledIsGood` | qca/ipq95xx/ipq95xx/files-6.1/drivers/regulator/cpr3-regulator.c:1196-1299 | so do both places where one is stored keep all corners of a regulator good |
| `CprSettling.UpdateSettlesExactly` | qca/ipq95xx/ipq95xx/files-6.1/drivers/regulator/cpr3-regulator.c:2121-2149 | an update stores the reading exactly if the loop was running in hardware, with the measurement that it reads only then and only for CPR3 |
| `CprSettling.InterruptSettlesExactly` | qca/ipq95xx/ipq95xx/files-6.1/drivers/regulator/cpr3-regulator.c:3512-3522 | an interrupt that has moved the supply stores the new voltage exactly if the corner in force is a closed-loop one |
| `CprRegulators.GetDynamicFloor` | qca/ipq95xx/ipq95xx/files-6.1/drivers/regulator/cpr3-regulator.c:1718-1763 | the result is the greatest dynamic floor that any regulator imposes, or 0 |
| `CprRegulators.DynamicFloorExactly` | qca/ipq95xx/ipq95xx/files-6.1/drivers/regulator/cpr3-regulator.c:1718-1763 | that is the largest last voltage of a dynamic floor corner, of the regulators that impose one: all of them in hardware closed-loop or without a valid measurement, else those whose power domains are all bypassed |
| `CprRegulators.AggregateThread` | qca/ipq95xx/ipq95xx/files-6.1/drivers/regulator/cpr3-regulator.c:2121-2149 | the loop over regulators: each one's settled voltage and participation, and the thread's corner as the join of those that take part |
| `CprRegulators.AggregateThreads` | qca/ipq95xx/ipq95xx/files-6.1/drivers/regulator/cpr3-regulator.c:2095-2154 | the loop over threads: the joined corner and whether any regulator takes part |
| `CprRegulators.Collect` | qca/ipq95xx/ipq95xx/files-6.1/drivers/regulator/cpr3-regulator.c:2095-2154 | threads and requests are the aggregation of the stored ones; from good stored corners on a grid of set points they stay good, and the requests are what the run theorem asks for |
| `CprRegulators.DynamicFloorOnSetPoint` | qca/ipq95xx/ipq95xx/files-6.1/drivers/regulator/cpr3-regulator.c:1718-1763 | a dynamic floor is one of the stored voltages or 0, so a set point |
| `CprRegulators.RememberCorners` | qca/ipq95xx/ipq95xx/files-6.1/drivers/regulator/cpr3-regulator.c:2310-2320 | the loops: every enabled regulator remembers its corner, every thread its mask |
| `CprRegulators.RememberedExactly` | qca/ipq95xx/ipq95xx/files-6.1/drivers/regulator/cpr3-regulator.c:2310-2320 | and nothing else of them changes |
| `CprRegulators.SettleAll` | qca/ipq95xx/ipq95xx/files-6.1/drivers/regulator/cpr3-regulator.c:3512-3522 | after an interrupt every regulator's settled voltage is stored |
| `CprController.DecideIrq` | qca/ipq95xx/ipq95xx/files-6.1/drivers/regulator/cpr3-regulator.c:3457-3488 | the voltage and the interrupt mask an interrupt leads to |
| `CprController.Controller.constructor` | qca/ipq95xx/ipq95xx/files-6.1/drivers/regulator/cpr3-regulator.c:4573-4586 | the controller starts with last and open-loop voltage at the reading of the supply; if the settings match it, it is consistent |
| `CprController.Controller.Gather` | qca/ipq95xx/ipq95xx/files-6.1/drivers/regulator/cpr3-regulator.c:2050-2172 | the first half of an update: loop stopped, settled voltages stored and threads joined, CPR enabled or disabled; good corners give good requests |
| `CprController.Controller.UpdateCtrlState` | qca/ipq95xx/ipq95xx/files-6.1/drivers/regulator/cpr3-regulator.c:2028-2374 | an update that succeeds leaves the controller as specified, idle or with the new corner in force, from exactly the requests and the dynamic floor of its regulators, and their settled voltages and corners stored; one that fails has not touched the supply, or leaves the old corner and the hardware at a stop or at the end of its own scaling, or has stored the new corner only |
| `CprController.Controller.UpdateState` | qca/ipq95xx/ipq95xx/files-6.1/drivers/regulator/cpr3-regulator.c:2028-2374 | from a steady controller: a successful update leaves it steady, a failed one leaves the hardware safe, mem-acc settings of corners aside; stored corners stay good |
| `CprController.Controller.UpdateAgain` | qca/ipq95xx/ipq95xx/files-6.1/drivers/regulator/cpr3-regulator.c:2028-2374 | the same whether the last update failed or not, for a controller that reads the supply: an update that is not stuck leaves it alive, that is safe, and steady if it succeeds |
| `CprController.Controller.Scale` | qca/ipq95xx/ipq95xx/files-6.1/drivers/regulator/cpr3-regulator.c:1623-1703 | the scaling in terms of the hardware: the whole plan, or a stop of it; set points stay set points |
| `CprController.Controller.PutInForce` | qca/ipq95xx/ipq95xx/files-6.1/drivers/regulator/cpr3-regulator.c:2310-2349 | what an update stores once the supply has arrived and the limit regulator has its range, regulators included |
| `CprController.Controller.ScaleToTarget` | qca/ipq95xx/ipq95xx/files-6.1/drivers/regulator/cpr3-regulator.c:2174-2371 | from the aggregated corner on: dynamic floor, target and scaling chosen, and the new corner in force and remembered, or one of the ways to fail |
| `CprController.Controller.MoveTo` | qca/ipq95xx/ipq95xx/files-6.1/drivers/regulator/cpr3-regulator.c:2271-2371 | on success the new corner is in force and, with CPR on, remembered; a failed scaling or limit request leaves the old one and the supplies where they have come to, a failure after that the new one with the loop stopped |
| `CprController.Controller.StepTo` | qca/ipq95xx/ipq95xx/files-6.1/drivers/regulator/cpr3-regulator.c:3501-3523 | the scaling of an interrupt, acknowledged exactly when the voltage changes, with the settled voltages stored then; on failure the supplies are at a stop of it |
| `CprController.Controller.IrqHandler` | qca/ipq95xx/ipq95xx/files-6.1/drivers/regulator/cpr3-regulator.c:3341-3548 | which interrupts are handled, always so if the voltage is not to change, and the state after one that is, with the dynamic floor and the settled voltages of its regulators; one that is not leaves the stored corner alone, and the hardware untouched or at a stop of its scaling |
| `CprController.Controller.Interrupt` | qca/ipq95xx/ipq95xx/files-6.1/drivers/regulator/cpr3-regulator.c:3341-3548 | from a steady controller: a handled interrupt leaves it steady if the next update will know where the supply is, one that fails leaves the hardware safe; mem-acc settings of corners aside |
| `CprController.UpdateOutcome` | qca/ipq95xx/ipq95xx/files-6.1/drivers/regulator/cpr3-regulator.c:2028-2374 | the two outcomes of an update, as a step from one controller state to the next |
| `CprController.UpdateTurns` | qca/ipq95xx/ipq95xx/files-6.1/drivers/regulator/cpr3-regulator.c:2028-2374 | the two outcomes as turns of a run with failures |
| `CprController.IrqOutcome` | qca/ipq95xx/ipq95xx/files-6.1/drivers/regulator/cpr3-regulator.c:3341-3548 | the two outcomes of an interrupt |
| `CprAgingMeasure.DeltaFits` | qca/ipq95xx/ipq95xx/files-6.1/drivers/regulator/cpr3-regulator.c:2561-2588 | with a GCNT of up to 20 bits a scaled quotient difference has 12 bits and a sign, so neither comparison nor sum overflows |
| `CprAgingMeasure.ScaledExactly` | qca/ipq95xx/ipq95xx/files-6.1/drivers/regulator/cpr3-regulator.c:2571-2577 | a quotient is scaled to the whole part of its product with the ratio of the two measurement intervals |
| `CprAgingMeasure.DeltaExactly` | qca/ipq95xx/ipq95xx/files-6.1/drivers/regulator/cpr3-regulator.c:2579-2585 | the difference is that of the scaled greater quotient over the lesser one if the second ring oscillator has the greater, else the same with the other sign |
| `CprAgingMeasure.SortSorted` | qca/ipq95xx/ipq95xx/files-6.1/drivers/regulator/cpr3-regulator.c:2600-2601 | the ordering that stands for the kernel's sort is a sorted permutation |
| `CprAgingMeasure.FilteredMeanExactly` | qca/ipq95xx/ipq95xx/files-6.1/drivers/regulator/cpr3-regulator.c:2597-2612 | what is averaged is what is left without the three least and the three greatest samples, and the average of that is truncated toward zero |
| `CprAgingMeasure.FilteredMeanIsRobust` | qca/ipq95xx/ipq95xx/files-6.1/drivers/regulator/cpr3-regulator.c:2597-2612 | with at least 7 samples of which at most 3 are arbitrary and the rest in lo..hi, the sorted, trimmed and truncated mean is in lo..hi |
| `CprAgingMeasure.FourBadSamplesMoveTheMean` | qca/ipq95xx/ipq95xx/files-6.1/drivers/regulator/cpr3-regulator.c:2597-2612 | three is the most: for every number of samples, four bad ones move the mean out of the range of the others |
| `CprAgingMeasure.CollectedExactly` | qca/ipq95xx/ipq95xx/files-6.1/drivers/regulator/cpr3-regulator.c:2555-2589 | every reading of the aging page counts once, in order, and no other does |
| `CprAgingMeasure.MeasureAging` | qca/ipq95xx/ipq95xx/files-6.1/drivers/regulator/cpr3-regulator.c:2545-2619 | the reading loop and the averaging loop: success exactly if the controller always became idle and more than six readings were of the aging page; the value is the filtered mean |
| `CprAgingMargin.ReadjustmentExactly` | qca/ipq95xx/ipq95xx/files-6.1/drivers/regulator/cpr3-regulator.c:2699-2759 | moving a corner from one adjustment to another gives what its unaged values give with the new one, exactly when no target quotient was driven to 0 at the old one |
| `CprAgingMargin.RunByCorner` | qca/ipq95xx/ipq95xx/files-6.1/drivers/regulator/cpr3-regulator.c:2699-2787 | a run of adjustments moves every corner of every regulator by itself, and leaves regulators alone for which aging is not allowed |
| `CprAgingMargin.LostQuotientStaysLost` | qca/ipq95xx/ipq95xx/files-6.1/drivers/regulator/cpr3-regulator.c:2723-2732 | a concrete quotient that a margin drives to 0 and that does not come back |
| `CprAgingMargin.CornerRunExactly` | qca/ipq95xx/ipq95xx/files-6.1/drivers/regulator/cpr3-regulator.c:2699-2759 | a whole sequence of adjustments of one corner gives what its unaged values give with the last one exactly when no earlier adjustment has driven to 0 a target quotient that is not 0 at the last, whatever the signs of the scaling factors |
| `CprAgingMargin.RunIsPathIndependentExactly` | qca/ipq95xx/ipq95xx/files-6.1/drivers/regulator/cpr3-regulator.c:2699-2787 | the same condition for all corners of all regulators where aging is allowed: the result depends only on unaged values and the latest adjustment |
| `CprAgingMargin.RunIsPathIndependent` | qca/ipq95xx/ipq95xx/files-6.1/drivers/regulator/cpr3-regulator.c:2699-2787 | which always holds for factors that are not negative and margins within what is parsed |
| `CprAgingMargin.NoMarginIsUnaged` | qca/ipq95xx/ipq95xx/files-6.1/drivers/regulator/cpr3-regulator.c:2699-2759 | adjustment 0 is the corner as initialised, so a run that ends at 0 undoes itself |
| `CprAgingMargin.MarginedOrderExactly` | qca/ipq95xx/ipq95xx/files-6.1/drivers/regulator/cpr3-regulator.c:2734-2754 | floor <= open-loop = last <= ceiling holds exactly if it does unaged or the ceiling clips the open-loop voltage, whatever the unaged voltages |
| `CprAgingMargin.MarginedOnSetPoints` | qca/ipq95xx/ipq95xx/files-6.1/drivers/regulator/cpr3-regulator.c:2734-2754 | voltages that are set points stay so up to the absolute ceiling |
| `CprAgingMargin.MarginedIsSound` | qca/ipq95xx/ipq95xx/files-6.1/drivers/regulator/cpr3-regulator.c:2734-2754 | aged corners meet what the aggregation relies on |
| `CprAgingMargin.MarginGrows` | qca/ipq95xx/ipq95xx/files-6.1/drivers/regulator/cpr3-regulator.c:2708-2754 | a larger adjustment never lowers a voltage or a target quotient, and leaves the same entries zero |
| `CprAgingMargin.MarginExactly` | qca/ipq95xx/ipq95xx/files-6.1/drivers/regulator/cpr3-regulator.c:2709-2720 | the margin of a corner is the adjustment in thousandths of its derating, in whole microvolts and up to the maximum |
| `CprAgingMargin.MarginedVoltsExactly` | qca/ipq95xx/ipq95xx/files-6.1/drivers/regulator/cpr3-regulator.c:2734-2754 | every voltage is its unaged one and the least set point that covers the margin, up to the ceilings |
| `CprAgingMargin.MarginedQuotExactly` | qca/ipq95xx/ipq95xx/files-6.1/drivers/regulator/cpr3-regulator.c:2723-2732 | a target quotient that is not 0 grows by the margin times the scaling factor, in whole quotients |
| `CprAgingMargin.AgingVoltExactly` | qca/ipq95xx/ipq95xx/files-6.1/drivers/regulator/cpr3-regulator.c:2904-2910 | the voltage read off a sensor is the one whose quotient adjustment is the growth of its quotient difference, to within one quotient, with its sign |
| `CprAgingMargin.MeasuredIsRobust` | qca/ipq95xx/ipq95xx/files-6.1/drivers/regulator/cpr3-regulator.c:2896-2910 | the voltage read off a sensor lies between what its good samples could give |
| `CprAgingMargin.ReferenceIsRobust` | qca/ipq95xx/ipq95xx/files-6.1/drivers/regulator/cpr3-regulator.c:2896-2941 | up to three bad samples per measurement of any sensor cannot move the reference adjustment: it is at least what every sensor's good samples ask for and at most the largest they could |
| `CprAgingMargin.Aging.ReadjustCorner` | qca/ipq95xx/ipq95xx/files-6.1/drivers/regulator/cpr3-regulator.c:2708-2758 | one round of the loop equals the readjustment function |
| `CprAgingMargin.Aging.ReadjustVoltAndQuot` | qca/ipq95xx/ipq95xx/files-6.1/drivers/regulator/cpr3-regulator.c:2699-2759 | the loop over corners, skipped where aging is not allowed |
| `CprAgingMargin.Aging.SetRefAdjustment` | qca/ipq95xx/ipq95xx/files-6.1/drivers/regulator/cpr3-regulator.c:2772-2787 | all regulators are moved from the old to the new adjustment, which is then stored |
| `CprAgingMargin.Aging.MeasureSensor` | qca/ipq95xx/ipq95xx/files-6.1/drivers/regulator/cpr3-regulator.c:2897-2902 | the first of up to five tries that succeeds is used; failure means that none does |
| `CprAgingMargin.Aging.MeasureSensors` | qca/ipq95xx/ipq95xx/files-6.1/drivers/regulator/cpr3-regulator.c:2896-2919 | the loop over sensors: the greatest of their voltages or 0, unless some sensor cannot be measured |
| `CprAgingMargin.Aging.AgingAdjust` | qca/ipq95xx/ipq95xx/files-6.1/drivers/regulator/cpr3-regulator.c:2796-2968 | when the margins are adjusted, to the greatest sensor voltage or 0, and which flags are set; the error code, which a mode request at the end overwrites and a failure to restore the supply sets |
| `CprTables.QuotPlain` | qca/ipq95xx/ipq95xx/files-6.1/drivers/regulator/cpr3-util.c:1891-1914 | within the usual sizes nothing wraps: a quotient is the voltage times the scale in QUOT/V, rounded down |
| `CprTables.VoltPlain` | qca/ipq95xx/ipq95xx/files-6.1/drivers/regulator/cpr3-util.c:1926-1950 | and a voltage the quotient over the scale, rounded down |
| `CprTables.AdjustmentsAreOdd` | qca/ipq95xx/ipq95xx/files-6.1/drivers/regulator/cpr3-util.c:1891-1950 | both conversions are odd functions of the adjustment |
| `CprTables.RoundTripLosesExactly` | qca/ipq95xx/ipq95xx/files-6.1/drivers/regulator/cpr3-util.c:1891-1950 | for every scale: converting a quotient to a voltage and back keeps the sign and loses the remainder of the first conversion over a million, rounded up; so nothing exactly when it is 0, and more than one unit exactly when it exceeds a million |
| `CprTables.QuotientRoundTrip` | qca/ipq95xx/ipq95xx/files-6.1/drivers/regulator/cpr3-util.c:1891-1950 | for scales of 1..1000000 that is the quotient or one unit closer to zero, the former exactly when the scale divides it in microvolts |
| `CprTables.QuotMonotone` | qca/ipq95xx/ipq95xx/files-6.1/drivers/regulator/cpr3-util.c:1891-1914 | a larger margin never asks for a smaller quotient |
| `CprTables.IncPassIsLeast` | qca/ipq95xx/ipq95xx/files-6.1/drivers/regulator/cpr3-util.c:2573-2594 | the increasing pass gives the pointwise least monotonic table above its input, with the same zero entries |
| `CprTables.DecPassIsGreatest` | qca/ipq95xx/ipq95xx/files-6.1/drivers/regulator/cpr3-util.c:2603-2624 | the decreasing pass gives the pointwise greatest monotonic table below its input among those with the same zero entries |
| `CprTables.DecPassIsGreatestOfAllExactly` | qca/ipq95xx/ipq95xx/files-6.1/drivers/regulator/cpr3-util.c:2603-2624 | among all monotonic tables below its input, new zeros allowed, it is the greatest exactly if the input was monotonic already |
| `CprTables.EnforceInc` | qca/ipq95xx/ipq95xx/files-6.1/drivers/regulator/cpr3-util.c:2573-2594 | the nested loops do to every RO's column what the increasing pass says |
| `CprTables.EnforceDec` | qca/ipq95xx/ipq95xx/files-6.1/drivers/regulator/cpr3-util.c:2603-2624 | the nested loops do to every RO's column what the decreasing pass says |
| `CprTables.RangeFloorWithin` | qca/ipq95xx/ipq95xx/files-6.1/drivers/regulator/cpr3-util.c:1450-1456 | for ranges up to the ceiling the unsigned arithmetic gives the least set point that is at most the range below the ceiling |
| `CprTables.RangeFloorBeyond` | qca/ipq95xx/ipq95xx/files-6.1/drivers/regulator/cpr3-util.c:1450-1456 | for larger ranges it wraps to a floor of at most 0, which then has no effect |
| `CprTables.PreparedInOrder` | qca/ipq95xx/ipq95xx/files-6.1/drivers/regulator/cpr3-util.c:1374-1462 | one corner after the clipping passes: floor <= open-loop <= ceiling on set points, within the configured range |
| `CprTables.PreparedExactly` | qca/ipq95xx/ipq95xx/files-6.1/drivers/regulator/cpr3-util.c:1374-1462 | and in numbers: which ceiling it has, and its floor as the least set point that neither the old floor nor the range forbids |
| `CprTables.MonotoneAtFacts` | qca/ipq95xx/ipq95xx/files-6.1/drivers/regulator/cpr3-util.c:1467-1488 | the last pass keeps that, makes floors the running maximum and never widens a range |
| `CprTables.MonotoneAtExactly` | qca/ipq95xx/ipq95xx/files-6.1/drivers/regulator/cpr3-util.c:1467-1488 | open-loop voltage and ceiling are raised to the new floor if they are below it, and nothing else changes |
| `CprTables.LimitsLeaveTableInOrder` | qca/ipq95xx/ipq95xx/files-6.1/drivers/regulator/cpr3-util.c:1374-1491 | all passes in sequence from rounded floors and ceilings: order, set points, floors that are the running maximum of the range-limited ones, and ranges within what is configured |
| `CprTables.LimitOpenLoopVoltages` | qca/ipq95xx/ipq95xx/files-6.1/drivers/regulator/cpr3-util.c:1374-1391 | the loop rounds and clips every open-loop voltage |
| `CprTables.OpenLoopLimitedExactly` | qca/ipq95xx/ipq95xx/files-6.1/drivers/regulator/cpr3-util.c:1374-1391 | to the least set point within floor..ceiling that is not below it, or the ceiling |
| `CprTables.OpenLoopVoltageAsCeiling` | qca/ipq95xx/ipq95xx/files-6.1/drivers/regulator/cpr3-util.c:1405-1417 | every ceiling becomes the open-loop voltage if the property is there |
| `CprTables.LimitRanges` | qca/ipq95xx/ipq95xx/files-6.1/drivers/regulator/cpr3-util.c:1449-1462 | the loop that raises floors to keep the range |
| `CprTables.EnforceMonotonicity` | qca/ipq95xx/ipq95xx/files-6.1/drivers/regulator/cpr3-util.c:1467-1488 | the loop that makes floors monotonic |
| `CprTables.LimitFloorVoltages` | qca/ipq95xx/ipq95xx/files-6.1/drivers/regulator/cpr3-util.c:1430-1491 | both loops in sequence |
| `CprTables.LimitVoltages` | qca/ipq95xx/ipq95xx/files-6.1/drivers/regulator/cpr4-apss-regulator.c:1425-1436 | the three passes in the order of the driver give the table that LimitsLeaveTableInOrder is about |
| `CprFuseVoltages.FuseRoundTrip` | qca/ipq95xx/ipq95xx/files-6.1/drivers/regulator/cpr3-util.c:306-317 | sign and magnitude: every number of steps below 32 up or down has a fuse value, and only 0 has two |
| `CprFuseVoltages.InterpolateHitsLine` | qca/ipq95xx/ipq95xx/files-6.1/drivers/regulator/cpr3-util.c:329-340 | the result is the least whole number on or above the line, and hits both ends |
| `CprFuseVoltages.InterpolateGrows` | qca/ipq95xx/ipq95xx/files-6.1/drivers/regulator/cpr3-util.c:329-340 | for any end points, equal ones included, it stays between them, grows, and gives the upper one at the upper end |
| `CprFuseVoltages.SpacedIsLeast` | qca/ipq95xx/ipq95xx/files-6.1/drivers/regulator/cpr3-util.c:1862-1875 | the minimum-difference pass gives the pointwise least table above its input with the differences asked for |
| `CprFuseVoltages.CheckFmaxMap` | qca/ipq95xx/ipq95xx/files-6.1/drivers/regulator/cpr3-util.c:812-826 | the map is accepted exactly if its entries lie in 1..corners + 1 and increase strictly |
| `CprFuseVoltages.ParseFmaxMap` | qca/ipq95xx/ipq95xx/files-6.1/drivers/regulator/cpr3-util.c:808-847 | success exactly if the map is accepted; every corner is then mapped to the fuse corner that covers it |
| `CprFuseVoltages.MappedIsMonotone` | qca/ipq95xx/ipq95xx/files-6.1/drivers/regulator/cpr3-util.c:832-847 | an accepted map gives fuse corners that do not decrease and are in range |
| `CprFuseVoltages.AdjustOpenLoopVoltages` | qca/ipq95xx/ipq95xx/files-6.1/drivers/regulator/cpr3-util.c:1815-1881 | adjustments added, then spaced by the minimum differences; nothing else changes |
| `CprFuseVoltages.AdjustedIsLeast` | qca/ipq95xx/ipq95xx/files-6.1/drivers/regulator/cpr3-util.c:1815-1881 | which is the least table that keeps every adjustment and every difference |
| `CprFuseVoltages.PrefixMaxFacts` | qca/ipq95xx/ipq95xx/files-6.1/drivers/regulator/cpr4-apss-regulator.c:747-754 | the overridden fuse voltages do not decrease, are at least the input and each is one of the inputs up to it |
| `CprFuseVoltages.RaiseFuseVoltages` | qca/ipq95xx/ipq95xx/files-6.1/drivers/regulator/cpr4-apss-regulator.c:747-754 | the loop computes the prefix maximum |
| `CprFuseVoltages.FindFmaxCorners` | qca/ipq95xx/ipq95xx/files-6.1/drivers/regulator/cpr4-apss-regulator.c:764-776 | the scan finds for every fuse corner its highest corner below the next one's, or names the fuse corner that is missing |
| `CprFuseVoltages.ScanSucceedsExactly` | qca/ipq95xx/ipq95xx/files-6.1/drivers/regulator/cpr4-apss-regulator.c:764-776 | after an accepted map the scan succeeds exactly if the last fuse corner has a corner, and then finds the corners of the map |
| `CprFuseVoltages.FillAll` | qca/ipq95xx/ipq95xx/files-6.1/drivers/regulator/cpr4-apss-regulator.c:778-796 | the interpolation loops: each segment from its own two fmax corners, nothing else touched |
| `CprFuseVoltages.CalculateOpenLoopVoltages` | qca/ipq95xx/ipq95xx/files-6.1/drivers/regulator/cpr4-apss-regulator.c:747-796 | the whole calculation with and without interpolation, and what a failure leaves unchanged |
| `CprFuseVoltages.InterpolatedTable` | qca/ipq95xx/ipq95xx/files-6.1/drivers/regulator/cpr4-apss-regulator.c:747-796 | every corner gets a voltage between those of its fuse corner and the one below, growing over the corners, and each fmax corner exactly its prefix-maximum fuse voltage, whatever the frequencies |
| `CprFuseVoltages.CornerOnLine` | qca/ipq95xx/ipq95xx/files-6.1/drivers/regulator/cpr4-apss-regulator.c:778-796 | every other corner lies on the line between the fmax corners around it, by frequency, rounded up to a whole number |
| `CprFuseVoltages.OpenLoopFromMap` | qca/ipq95xx/ipq95xx/files-6.1/drivers/regulator/cpr4-apss-regulator.c:747-796 | mapping and calculation together: success exactly if the map is accepted and, with interpolation, the last fuse corner has a corner; the voltages then grow, and fmax corners get their fuse voltages |

## Left out

- Device tree parsing, fuse and register access, clocks and procfs: what they give is a parameter, or input of a method. Register accesses other than requests to supplies succeed; the set-up of an aging measurement and the waiting loops before its readings are not modelled.
- Kernel memory allocation failures, log output, debugfs, and the debug-object checksums of the recycler with its debug variant of the list consume.
- Concurrency inside a section that runs with interrupts off or under the lock: such a section is one step. The spare list of a dead CPU is freed under the ring's lock, which here is one step as well.
- What is inside an skb: buffers are identities, and whether one can be recycled is a parameter. The caller's list in `skb_recycler_consume_list_fast` is taken to be given up, as its comment says.
- Ring sizes that are not a power of two, a clock rate of 0, and 32-bit `unsigned long`.
- `CprController.Controller.UpdateCtrlState`: does not model what the limit regulator and the sdelta registers are told after the scaling; that either may fail, and what that leaves, is modelled.
- `CprController.Controller.IrqHandler`: does not model the clock throttle and the toggling of the loop when no status bit is set; both only write registers.
- `CprRuns.RunKeepsConsistent`: is about runs of successful operations, because a failed scaling leaves settings and stored corner apart; what a failure leaves is `CprStopped.StoppedIsSafe`, when the next update restores everything is `CprRuns.UpdateAfterFailureExactly`, and runs with failed updates are `CprRuns.RunWithFailures`, for controllers that read the supply. Failed interrupts are not part of such runs, because the next interrupt starts from a stored voltage that the supply may have left.
- `CprAgingMargin.Aging.AgingAdjust`: does not model how the regulators are forced to the aging corner for the measurement and put back; the parameters `forced` and `restored` say whether either succeeds.
- `CprAgingMeasure.SortSorted`: stands for the kernel's `sort`, of which only the result matters.
- `CprSdelta.AggregateHasHeadroom`: makes no claim once a voltage has tied with the largest before it, where it is false in general and `CprSdelta.TieStopsCapping` has the exact condition for the rest of the list. A corner whose sdelta pointer is NULL takes the branch of a plain maximum (cpr3-regulator.c:2000-2003), which updates neither cap nor table, so that nothing protects it; that branch is not part of the aggregation here.
- `CprSupplies.Supplies.SwitchMemAcc`: flattens the loops over threads and regulators into one list of regulators. A supply asked for a range settles at the lowest set point in it, or refuses if there is none, and a request that fails changes nothing.
- Bit masks (interrupts, ring oscillators, power domains) are sets.
- Sums of voltages are not cut off at 32 bits: `open_loop + diff`, `unaged + margin` and the like are taken to fit an `int`, as signed overflow is undefined in C.
- `cprh_adjust_voltages_for_apm`, temperature-dependent open-loop voltages, part types, and the interpolation of target quotients from fuses.
- hostapd, wpa_supplicant, remoteproc, qseecom and clock tables: they would only add easy members.
