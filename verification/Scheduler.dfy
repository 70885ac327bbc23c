/** The background scheduler of DBImpl, with SILK's high-priority compactions: the flush and compaction
    queues, the counters of work scheduled and not scheduled yet, and the pausing of background work.
    Every method is what happens while the DB mutex is held. */
module Scheduler {
  import opened Common

  type Cf = nat

  datatype Limits = Limits(flushes: int, compactions: int)

  /** GetBGJobLimits(); -1 stands for an option that was not set. The division rounds towards zero. */
  function GetBGJobLimits(maxFlushes: int, maxCompactions: int, maxJobs: int, parallelize: bool): (r: Limits)
    ensures r.flushes >= 1 && r.compactions >= 1
    ensures !parallelize ==> r.compactions == 1
    ensures maxFlushes == -1 == maxCompactions && maxJobs >= 2 ==> r.flushes + r.compactions <= maxJobs
  {
    var quarter := if maxJobs >= 0 then maxJobs / 4 else -((-maxJobs) / 4);
    var flushes := if maxFlushes == -1 == maxCompactions then Max(1, quarter) else Max(1, maxFlushes);
    var compactions := if maxFlushes == -1 == maxCompactions then Max(1, maxJobs - flushes) else Max(1, maxCompactions);
    Limits(flushes, if parallelize then compactions else 1)
  }

  /** A column family is in the queue exactly if its pending flag is set, and then once. */
  ghost predicate QueueOk(queue: seq<Cf>, flags: set<Cf>) {
    Distinct(queue) && forall cf: Cf :: cf in queue <==> cf in flags
  }

  lemma PushOk(queue: seq<Cf>, flags: set<Cf>, cf: Cf)
    requires QueueOk(queue, flags) && cf !in flags
    ensures QueueOk(queue + [cf], flags + {cf})
  {
  }

  lemma PopOk(queue: seq<Cf>, flags: set<Cf>)
    requires QueueOk(queue, flags) && queue != []
    ensures queue[0] in flags && QueueOk(queue[1..], flags - {queue[0]})
  {
    forall cf: Cf
      ensures cf in queue[1..] <==> cf in flags - {queue[0]}
    {
      if cf in queue && cf != queue[0] {
        var i :| 0 <= i < |queue| && queue[i] == cf;
        assert queue[1..][i - 1] == cf;
      }
      if cf in queue[1..] {
        var i :| 0 <= i < |queue| - 1 && queue[1..][i] == cf;
        assert queue[i + 1] == cf && cf in queue;
      }
    }
  }

  class BackgroundScheduler {
    // what DBImpl keeps
    var compactionQueue: seq<Cf>
    var pendingCompaction: set<Cf>
    var flushQueue: seq<Cf>
    var pendingFlush: set<Cf>
    var unscheduledCompactions: int
    var unscheduledFlushes: int
    var bgCompactionScheduled: int
    var bgFlushScheduled: int
    var bgCompactionPaused: int
    var bgWorkPaused: int
    var bgError: bool
    var shuttingDown: bool

    // where the jobs are: waiting in a thread pool, or running
    var lowCompactions: nat          // automatic compactions waiting in the LOW pool
    var highCompactions: nat         // SILK's automatic compactions waiting in the HIGH pool
    var manualCompactions: nat       // manual compactions waiting in the LOW pool
    var lowFlushes: nat
    var highFlushes: nat
    var runningCompactions: nat      // started automatic and manual compactions
    var runningFlushes: nat
    var compactFilesRunning: nat     // CompactFiles() in the threads of its callers
    var leaked: nat                  // CompactFiles() calls that gave up after counting themselves
    var pausing: nat                 // PauseBackgroundWork() calls that still wait

    // calls so far: PauseCompactionWork() before and after its wait, and ContinueCompactionWork() that succeeded
    ghost var pauseBegins: nat
    ghost var pauseEnds: nat
    ghost var compactionContinues: nat

    predicate Healthy()
      reads this
    {
      !bgError && !shuttingDown
    }

    function WaitingCompactions(): nat
      reads this
    {
      lowCompactions + highCompactions
    }

    ghost predicate QueuesOk()
      reads this
    {
      && QueueOk(compactionQueue, pendingCompaction) && QueueOk(flushQueue, pendingFlush)
      && (Healthy() ==> |compactionQueue| == unscheduledCompactions + WaitingCompactions())
      && (Healthy() ==> |flushQueue| <= unscheduledFlushes + lowFlushes + highFlushes)
    }

    ghost predicate CountersOk()
      reads this
    {
      && unscheduledCompactions >= 0 && unscheduledFlushes >= 0
      && bgCompactionScheduled ==
           WaitingCompactions() + manualCompactions + runningCompactions + compactFilesRunning + leaked
      && bgFlushScheduled == lowFlushes + highFlushes + runningFlushes
    }

    /** While background work is paused no automatic job waits in a pool. */
    ghost predicate PausesOk()
      reads this
    {
      && bgWorkPaused >= 0
      && bgCompactionPaused == bgWorkPaused + pausing + pauseBegins + pauseEnds - compactionContinues
      && (bgWorkPaused > 0 ==> WaitingCompactions() == 0 && lowFlushes == highFlushes == 0)
    }

    ghost predicate Valid()
      reads this
    {
      QueuesOk() && CountersOk() && PausesOk()
    }

    constructor ()
      ensures Valid() && Healthy() && compactionQueue == flushQueue == []
      ensures unscheduledFlushes == unscheduledCompactions == 0
      ensures WaitingCompactions() + manualCompactions + runningCompactions + compactFilesRunning + leaked == 0
      ensures lowFlushes + highFlushes + runningFlushes == 0 && bgWorkPaused == bgCompactionPaused == pausing == 0
    {
      compactionQueue, pendingCompaction, flushQueue, pendingFlush := [], {}, [], {};
      unscheduledCompactions, unscheduledFlushes, bgCompactionScheduled, bgFlushScheduled := 0, 0, 0, 0;
      bgCompactionPaused, bgWorkPaused, bgError, shuttingDown := 0, 0, false, false;
      lowCompactions, highCompactions, manualCompactions, lowFlushes, highFlushes := 0, 0, 0, 0, 0;
      runningCompactions, runningFlushes, compactFilesRunning, leaked, pausing := 0, 0, 0, 0, 0;
      pauseBegins, pauseEnds, compactionContinues := 0, 0, 0;
    }

    /** SchedulePendingFlush(). */
    method SchedulePendingFlush(cf: Cf, flushPending: bool)
      requires Valid()
      modifies this`flushQueue, this`pendingFlush, this`unscheduledFlushes
      ensures Valid() && (flushPending ==> cf in flushQueue)
      ensures flushQueue == if flushPending && cf !in old(pendingFlush) then old(flushQueue) + [cf] else old(flushQueue)
    {
      hide QueueOk;
      if cf !in pendingFlush && flushPending {
        PushOk(flushQueue, pendingFlush, cf);
        flushQueue, pendingFlush := flushQueue + [cf], pendingFlush + {cf};
        unscheduledFlushes := unscheduledFlushes + 1;
      }
      InQueue(flushQueue, pendingFlush, cf);
    }

    /** SchedulePendingCompaction(). */
    method SchedulePendingCompaction(cf: Cf, needed: bool)
      requires Valid()
      modifies this`compactionQueue, this`pendingCompaction, this`unscheduledCompactions
      ensures Valid() && (needed ==> cf in compactionQueue)
      ensures compactionQueue == old(compactionQueue) + if needed && cf !in old(pendingCompaction) then [cf] else []
    {
      hide QueueOk;
      if cf !in pendingCompaction && needed {
        PushOk(compactionQueue, pendingCompaction, cf);
        compactionQueue, pendingCompaction := compactionQueue + [cf], pendingCompaction + {cf};
        unscheduledCompactions := unscheduledCompactions + 1;
      }
      InQueue(compactionQueue, pendingCompaction, cf);
    }

    /** What counts against the limit of flushes besides them: without a HIGH pool, the compactions. */
    function OtherLoad(noHighPool: bool): int
      reads this
    {
      if noHighPool then bgCompactionScheduled else 0
    }

    /** Schedule as many flushes as the limit allows, in the LOW pool if there is no HIGH one. */
    method ScheduleFlushes(limits: Limits, noHighPool: bool)
      requires Valid() && bgWorkPaused == 0
      modifies this`unscheduledFlushes, this`bgFlushScheduled, this`lowFlushes, this`highFlushes
      ensures Valid()
      ensures unscheduledFlushes + lowFlushes + highFlushes == old(unscheduledFlushes + lowFlushes + highFlushes)
      ensures if noHighPool then highFlushes == old(highFlushes) else lowFlushes == old(lowFlushes)
      ensures unscheduledFlushes <= old(unscheduledFlushes)
      ensures unscheduledFlushes == 0 || bgFlushScheduled + OtherLoad(noHighPool) >= limits.flushes
      ensures bgFlushScheduled <= Max(old(bgFlushScheduled), limits.flushes - OtherLoad(noHighPool))
    {
      hide QueueOk;
      while !noHighPool && unscheduledFlushes > 0 && bgFlushScheduled < limits.flushes
        invariant Valid() && unscheduledFlushes + highFlushes == old(unscheduledFlushes + highFlushes)
        invariant lowFlushes == old(lowFlushes)
        invariant noHighPool ==> highFlushes == old(highFlushes)
        invariant unscheduledFlushes <= old(unscheduledFlushes)
        invariant bgFlushScheduled <= Max(old(bgFlushScheduled), limits.flushes - OtherLoad(noHighPool))
        decreases unscheduledFlushes
      {
        unscheduledFlushes, bgFlushScheduled, highFlushes := unscheduledFlushes - 1, bgFlushScheduled + 1,
            highFlushes + 1;
      }
      if noHighPool {
        while unscheduledFlushes > 0 && bgFlushScheduled + bgCompactionScheduled < limits.flushes
          invariant Valid() && unscheduledFlushes + lowFlushes == old(unscheduledFlushes + lowFlushes)
          invariant highFlushes == old(highFlushes)
          invariant unscheduledFlushes <= old(unscheduledFlushes)
          invariant bgFlushScheduled <= Max(old(bgFlushScheduled), limits.flushes - OtherLoad(noHighPool))
          decreases unscheduledFlushes
        {
          unscheduledFlushes, bgFlushScheduled, lowFlushes := unscheduledFlushes - 1, bgFlushScheduled + 1,
              lowFlushes + 1;
        }
      }
    }

    /** When SILK schedules a compaction in the HIGH pool: a short pool queue, few flushes, and enough
        files in level 0 of the default column family. */
    predicate WantsHigh(others: nat, level0Files: nat)
      reads this
    {
      highFlushes + highCompactions + others < 2 && (runningFlushes < 2 || unscheduledFlushes < 2) &&
          unscheduledCompactions > 0 && level0Files >= 4
    }

    /** SILK: at most one compaction goes to the HIGH pool, whether or not compactions are paused. */
    method ScheduleHigh(others: nat, level0Files: nat)
      requires Valid() && bgWorkPaused == 0
      modifies this`unscheduledCompactions, this`bgCompactionScheduled, this`highCompactions
      ensures Valid() && unscheduledCompactions + highCompactions == old(unscheduledCompactions + highCompactions)
      ensures highCompactions == if old(WantsHigh(others, level0Files)) then old(highCompactions) + 1
                else old(highCompactions)
      ensures bgCompactionScheduled - highCompactions == old(bgCompactionScheduled - highCompactions)
    {
      hide QueueOk;
      if WantsHigh(others, level0Files) {
        unscheduledCompactions, bgCompactionScheduled, highCompactions := unscheduledCompactions - 1,
            bgCompactionScheduled + 1, highCompactions + 1;
      }
    }

    /** Schedule as many compactions in the LOW pool as the limit allows. */
    method ScheduleLow(limits: Limits)
      requires Valid() && bgWorkPaused == 0
      modifies this`unscheduledCompactions, this`bgCompactionScheduled, this`lowCompactions
      ensures Valid() && unscheduledCompactions + lowCompactions == old(unscheduledCompactions + lowCompactions)
      ensures unscheduledCompactions == 0 || bgCompactionScheduled >= limits.compactions
      ensures bgCompactionScheduled <= Max(old(bgCompactionScheduled), limits.compactions)
    {
      hide QueueOk;
      while bgCompactionScheduled < limits.compactions && unscheduledCompactions > 0
        invariant Valid() && unscheduledCompactions + lowCompactions == old(unscheduledCompactions + lowCompactions)
        invariant bgCompactionScheduled <= Max(old(bgCompactionScheduled), limits.compactions)
        decreases unscheduledCompactions
      {
        unscheduledCompactions, bgCompactionScheduled, lowCompactions := unscheduledCompactions - 1,
            bgCompactionScheduled + 1, lowCompactions + 1;
      }
    }

    method ScheduleCompactions(limits: Limits, others: nat, level0Files: nat, exclusiveManual: bool)
      requires Valid() && bgWorkPaused == 0
      modifies this`unscheduledCompactions, this`bgCompactionScheduled, this`lowCompactions, this`highCompactions
      ensures Valid()
      ensures unscheduledCompactions + WaitingCompactions() == old(unscheduledCompactions + WaitingCompactions())
      ensures bgCompactionPaused > 0 || exclusiveManual ==> lowCompactions == old(lowCompactions)
      ensures highCompactions == old(highCompactions) + Bit(old(WantsHigh(others, level0Files)))
      ensures bgCompactionPaused <= 0 && !exclusiveManual ==>
                unscheduledCompactions == 0 || bgCompactionScheduled >= limits.compactions
      ensures bgCompactionScheduled <= Max(old(bgCompactionScheduled) + 1, limits.compactions)
    {
      hide Valid;
      ScheduleHigh(others, level0Files);
      if bgCompactionPaused > 0 || exclusiveManual {
        return;
      }
      ScheduleLow(limits);
    }

    /** MaybeScheduleFlushOrCompaction(). `others` counts foreign jobs in the HIGH pool. */
    method MaybeScheduleFlushOrCompaction(ready: bool, limits: Limits, noHighPool: bool, others: nat, level0Files: nat,
                                          exclusiveManual: bool)
      requires Valid()
      modifies this`unscheduledFlushes, this`bgFlushScheduled, this`lowFlushes, this`highFlushes
      modifies this`unscheduledCompactions, this`bgCompactionScheduled, this`lowCompactions, this`highCompactions
      ensures Valid()
      ensures unscheduledFlushes + lowFlushes + highFlushes == old(unscheduledFlushes + lowFlushes + highFlushes)
      ensures unscheduledCompactions + WaitingCompactions() == old(unscheduledCompactions + WaitingCompactions())
      ensures !ready || bgWorkPaused > 0 || shuttingDown ==> unchanged(this)
      ensures ready && bgWorkPaused == 0 && !shuttingDown ==>
                unscheduledFlushes == 0 || bgFlushScheduled + old(OtherLoad(noHighPool)) >= limits.flushes
      ensures bgFlushScheduled <= Max(old(bgFlushScheduled), limits.flushes - old(OtherLoad(noHighPool)))
      ensures if noHighPool then highFlushes == old(highFlushes) else lowFlushes == old(lowFlushes)
      ensures bgCompactionPaused > 0 || exclusiveManual ==> lowCompactions == old(lowCompactions)
      ensures ready && !shuttingDown && bgWorkPaused == 0 ==>
                highCompactions == old(highCompactions) +
                    Bit(&& highFlushes + old(highCompactions) + others < 2
                        && (runningFlushes < 2 || unscheduledFlushes < 2)
                        && old(unscheduledCompactions) > 0 && level0Files >= 4)
      ensures ready && !shuttingDown && bgWorkPaused == 0 && bgCompactionPaused <= 0 && !exclusiveManual ==>
                unscheduledCompactions == 0 || bgCompactionScheduled >= limits.compactions
      ensures bgCompactionScheduled <= Max(old(bgCompactionScheduled) + 1, limits.compactions)
    {
      assert bgWorkPaused >= 0;
      hide Valid;
      if !ready || bgWorkPaused > 0 || shuttingDown {
        return;
      }
      ScheduleFlushes(limits, noHighPool);
      ScheduleCompactions(limits, others, level0Files, exclusiveManual);
    }

    // -------------------------------------------------------------- jobs

    /** Pop up to the first column family that can be flushed; those before it leave the queue for nothing. */
    method PopFlushable(flushable: set<Cf>) returns (r: Option<Cf>, ghost popped: nat)
      requires QueueOk(flushQueue, pendingFlush)
      modifies this`flushQueue, this`pendingFlush
      ensures QueueOk(flushQueue, pendingFlush) && popped <= |old(flushQueue)|
      ensures flushQueue == old(flushQueue)[popped..]
      ensures r.Some? ==> popped > 0 && r.value == old(flushQueue)[popped - 1] && r.value in flushable
      ensures forall k | 0 <= k < popped :: old(flushQueue)[k] in flushable ==> r.Some? && k == popped - 1
      ensures r.None? ==> flushQueue == []
    {
      hide QueueOk;
      r, popped := None, 0;
      while flushQueue != []
        invariant QueueOk(flushQueue, pendingFlush) && popped <= |old(flushQueue)|
        invariant flushQueue == old(flushQueue)[popped..]
        invariant forall k | 0 <= k < popped :: old(flushQueue)[k] !in flushable
        decreases |flushQueue|
      {
        PopOk(flushQueue, pendingFlush);
        var first := flushQueue[0];
        flushQueue, pendingFlush := flushQueue[1..], pendingFlush - {first};
        popped := popped + 1;
        if first in flushable {
          r := Some(first);
          return;
        }
      }
    }

    /** BackgroundFlush(): a flush job starts and takes the first column family that can be flushed. After
        an error it takes none. */
    method StartFlush(low: bool, flushable: set<Cf>) returns (r: Option<Cf>, ghost popped: nat)
      requires Valid() && (if low then lowFlushes > 0 else highFlushes > 0)
      modifies this`lowFlushes, this`highFlushes, this`runningFlushes, this`flushQueue, this`pendingFlush
      ensures Valid() && popped <= |old(flushQueue)| && flushQueue == old(flushQueue)[popped..]
      ensures r.Some? ==> popped > 0 && r.value == old(flushQueue)[popped - 1] && r.value in flushable
      ensures r.None? && Healthy() ==> flushQueue == [] && forall cf | cf in old(flushQueue) :: cf !in flushable
      ensures runningFlushes == old(runningFlushes) + 1 && lowFlushes == old(lowFlushes) - Bit(low)
      ensures highFlushes == old(highFlushes) - Bit(!low)
    {
      hide QueueOk;
      r, popped := None, 0;
      if Healthy() {
        r, popped := PopFlushable(flushable);
      }
      if low {
        lowFlushes := lowFlushes - 1;
      } else {
        highFlushes := highFlushes - 1;
      }
      runningFlushes := runningFlushes + 1;
    }

    method FinishFlush()
      requires runningFlushes > 0
      modifies this`runningFlushes, this`bgFlushScheduled
      ensures old(Valid()) ==> Valid()
      ensures runningFlushes == old(runningFlushes) - 1 && bgFlushScheduled == old(bgFlushScheduled) - 1
    {
      runningFlushes, bgFlushScheduled := runningFlushes - 1, bgFlushScheduled - 1;
    }

    /** BackgroundCompaction() without a manual compaction. Until an error it finds the queue nonempty; a
        conflict with a manual compaction of the first column family leaves the queue as it is, and a
        column family that still needs compaction goes back to its end. */
    method StartCompaction(high: bool, conflict: bool, again: bool) returns (r: Option<Cf>)
      requires Valid() && (if high then highCompactions > 0 else lowCompactions > 0)
      modifies this`lowCompactions, this`highCompactions, this`runningCompactions, this`compactionQueue,
                 this`pendingCompaction, this`unscheduledCompactions
      ensures Valid() && runningCompactions == old(runningCompactions) + 1
      ensures lowCompactions == old(lowCompactions) - Bit(!high) && highCompactions == old(highCompactions) - Bit(high)
      ensures Healthy() ==> old(compactionQueue) != []
      ensures r.Some? <==> Healthy() && !conflict
      ensures r.None? ==> compactionQueue == old(compactionQueue)
      ensures r.Some? ==>
                r.value == old(compactionQueue)[0] &&
                    compactionQueue == old(compactionQueue)[1..] + if again then [r.value] else []
    {
      hide QueueOk;
      if high {
        highCompactions := highCompactions - 1;
      } else {
        lowCompactions := lowCompactions - 1;
      }
      runningCompactions := runningCompactions + 1;
      r := None;
      if !Healthy() {
        return;
      }
      if conflict {
        unscheduledCompactions := unscheduledCompactions + 1;
        return;
      }
      var cf := PopCompaction(again);
      r := Some(cf);
      if again {
        unscheduledCompactions := unscheduledCompactions + 1;
      }
    }

    /** Take the first column family off the queue, and put it back at the end if it is needed again. */
    method PopCompaction(again: bool) returns (cf: Cf)
      requires QueueOk(compactionQueue, pendingCompaction) && compactionQueue != []
      modifies this`compactionQueue, this`pendingCompaction
      ensures QueueOk(compactionQueue, pendingCompaction) && |compactionQueue| == |old(compactionQueue)| - Bit(!again)
      ensures cf == old(compactionQueue)[0] && compactionQueue == old(compactionQueue)[1..] + if again then [cf] else []
    {
      hide QueueOk;
      PopOk(compactionQueue, pendingCompaction);
      cf := compactionQueue[0];
      compactionQueue, pendingCompaction := compactionQueue[1..], pendingCompaction - {cf};
      if again {
        PushOk(compactionQueue, pendingCompaction, cf);
        compactionQueue, pendingCompaction := compactionQueue + [cf], pendingCompaction + {cf};
      }
    }

    method FinishCompaction()
      requires runningCompactions > 0
      modifies this`runningCompactions, this`bgCompactionScheduled
      ensures old(Valid()) ==> Valid()
      ensures runningCompactions == old(runningCompactions) - 1
      ensures bgCompactionScheduled == old(bgCompactionScheduled) - 1
    {
      runningCompactions, bgCompactionScheduled := runningCompactions - 1, bgCompactionScheduled - 1;
    }

    /** RunManualCompaction() puts a job in the LOW pool, even while work is paused. */
    method ScheduleManual()
      requires Valid()
      modifies this`manualCompactions, this`bgCompactionScheduled
      ensures Valid() && manualCompactions == old(manualCompactions) + 1
    {
      manualCompactions, bgCompactionScheduled := manualCompactions + 1, bgCompactionScheduled + 1;
    }

    method StartManual()
      requires Valid() && manualCompactions > 0
      modifies this`manualCompactions, this`runningCompactions
      ensures Valid() && runningCompactions == old(runningCompactions) + 1
      ensures manualCompactions == old(manualCompactions) - 1
    {
      manualCompactions, runningCompactions := manualCompactions - 1, runningCompactions + 1;
    }

    /** CompactFilesImpl() counts itself and then asks the picker; if the picker declines, it returns
        without taking its count back. */
    method BeginCompactFiles(accepted: bool)
      requires Valid()
      modifies this`bgCompactionScheduled, this`compactFilesRunning, this`leaked
      ensures Valid() && leaked == old(leaked) + Bit(!accepted)
      ensures compactFilesRunning == old(compactFilesRunning) + Bit(accepted)
    {
      bgCompactionScheduled := bgCompactionScheduled + 1;
      if accepted {
        compactFilesRunning := compactFilesRunning + 1;
      } else {
        leaked := leaked + 1;
      }
    }

    method EndCompactFiles()
      requires compactFilesRunning > 0
      modifies this`bgCompactionScheduled, this`compactFilesRunning
      ensures old(Valid()) ==> Valid()
      ensures compactFilesRunning == old(compactFilesRunning) - 1
      ensures bgCompactionScheduled == old(bgCompactionScheduled) - 1
    {
      bgCompactionScheduled, compactFilesRunning := bgCompactionScheduled - 1, compactFilesRunning - 1;
    }

    // -------------------------------------------------------------- pausing

    /** No compaction and no flush is scheduled or running: what PauseBackgroundWork() waits for. */
    predicate Drained()
      reads this
    {
      bgCompactionScheduled <= 0 && bgFlushScheduled <= 0
    }

    /** It is reached exactly when no job is left anywhere and no CompactFiles() call has given up. */
    lemma DrainedIff()
      requires Valid()
      ensures Drained() <==> && WaitingCompactions() + manualCompactions + runningCompactions + compactFilesRunning == 0
                             && lowFlushes + highFlushes + runningFlushes == 0 && leaked == 0
    {
    }

    /** PauseBackgroundWork() up to its wait. */
    method BeginPause()
      requires Valid()
      modifies this`bgCompactionPaused, this`pausing
      ensures Valid() && pausing == old(pausing) + 1
    {
      bgCompactionPaused, pausing := bgCompactionPaused + 1, pausing + 1;
    }

    /** PauseBackgroundWork() after its wait. From here to the matching continue no automatic job is
        scheduled: Valid() says that none waits, and MaybeScheduleFlushOrCompaction() adds none. */
    method EndPause()
      requires Valid() && pausing > 0 && Drained()
      modifies this`bgWorkPaused, this`pausing
      ensures Valid() && bgWorkPaused == old(bgWorkPaused) + 1 && WaitingCompactions() + lowFlushes + highFlushes == 0
    {
      bgWorkPaused, pausing := bgWorkPaused + 1, pausing - 1;
    }

    /** ContinueBackgroundWork(), before it schedules again. */
    method ContinueBackgroundWork() returns (ok: bool)
      requires Valid()
      modifies this`bgWorkPaused, this`bgCompactionPaused
      ensures Valid() && (ok <==> old(bgWorkPaused) > 0)
      ensures bgWorkPaused == old(bgWorkPaused) - (if ok then 1 else 0)
      ensures bgCompactionPaused == old(bgCompactionPaused) - (if ok then 1 else 0)
    {
      ok := bgWorkPaused != 0;
      if ok {
        bgWorkPaused, bgCompactionPaused := bgWorkPaused - 1, bgCompactionPaused - 1;
      }
    }

    /** PauseCompactionWork() adds one before its wait for running compactions, and one after it. */
    method BeginPauseCompaction()
      requires Valid()
      modifies this`bgCompactionPaused, this`pauseBegins
      ensures Valid() && bgCompactionPaused == old(bgCompactionPaused) + 1 && pauseBegins == old(pauseBegins) + 1
    {
      bgCompactionPaused, pauseBegins := bgCompactionPaused + 1, pauseBegins + 1;
    }

    method EndPauseCompaction()
      requires Valid() && bgCompactionScheduled <= 0
      modifies this`bgCompactionPaused, this`pauseEnds
      ensures Valid() && bgCompactionPaused == old(bgCompactionPaused) + 1 && pauseEnds == old(pauseEnds) + 1
      ensures WaitingCompactions() == runningCompactions == 0
    {
      bgCompactionPaused, pauseEnds := bgCompactionPaused + 1, pauseEnds + 1;
    }

    /** ContinueCompactionWork() takes one off, whoever added it. */
    method ContinueCompactionWork() returns (ok: bool)
      requires Valid()
      modifies this`bgCompactionPaused, this`compactionContinues
      ensures Valid() && (ok <==> old(bgCompactionPaused) != 0)
      ensures bgCompactionPaused == old(bgCompactionPaused) - Bit(ok)
      ensures compactionContinues == old(compactionContinues) + Bit(ok)
    {
      ok := bgCompactionPaused != 0;
      if ok {
        bgCompactionPaused, compactionContinues := bgCompactionPaused - 1, compactionContinues + 1;
      }
    }

    /** "bg_work_paused_ is always no greater than bg_compaction_paused_", on which the assert in
        ContinueBackgroundWork() relies, holds exactly as long as the successful ContinueCompactionWork() calls
        do not outnumber the begun and the finished PauseCompactionWork() calls and the PauseBackgroundWork()
        calls that still wait, taken together. */
    lemma WorkPausedWithinCompactionPausedIff()
      requires Valid()
      ensures bgWorkPaused <= bgCompactionPaused <==> compactionContinues <= pauseBegins + pauseEnds + pausing
    {
    }

    /** A compaction pause that is continued once leaves compactions paused. */
    method PauseAndContinueCompaction()
      requires Valid() && bgCompactionScheduled == 0 && bgCompactionPaused >= 0
      modifies this`bgCompactionPaused, this`pauseBegins, this`pauseEnds, this`compactionContinues
      ensures Valid() && bgCompactionPaused == old(bgCompactionPaused) + 1 > 0
    {
      BeginPauseCompaction();
      EndPauseCompaction();
      var ok := ContinueCompactionWork();
    }

    /** A compaction continue inside a work pause breaks the rule: the next ContinueBackgroundWork() fails
        its assert. */
    method ContinueCompactionInsideWorkPause()
      requires Valid() && Drained() && bgWorkPaused == bgCompactionPaused == pausing == 0
      modifies this`bgCompactionPaused, this`compactionContinues, this`bgWorkPaused, this`pausing
      ensures Valid() && bgWorkPaused > 0 && bgCompactionPaused == 0
    {
      BeginPause();
      EndPause();
      var ok := ContinueCompactionWork();
    }

    // -------------------------------------------------------------- shutdown

    /** A background error, or CancelAllBackgroundWork(): the jobs that wait will start and do nothing. */
    method Stop(error: bool)
      requires Valid()
      modifies this`bgError, this`shuttingDown
      ensures Valid() && bgError == (old(bgError) || error) && shuttingDown == (old(shuttingDown) || !error)
    {
      if error {
        bgError := true;
      } else {
        shuttingDown := true;
      }
    }

    /** The destructor empties both pools and takes what it finds in the LOW pool for compactions, what it
        finds in the HIGH pool for flushes. The counters are then right exactly if as many compactions
        waited in the HIGH pool as flushes in the LOW pool. */
    method UnscheduleAll()
      requires Valid() && shuttingDown
      modifies this`bgCompactionScheduled, this`bgFlushScheduled, this`lowCompactions, this`highCompactions,
                 this`manualCompactions, this`lowFlushes, this`highFlushes
      ensures bgCompactionScheduled ==
                runningCompactions + compactFilesRunning + leaked + old(highCompactions) - old(lowFlushes)
      ensures bgFlushScheduled == runningFlushes + old(lowFlushes) - old(highCompactions)
      ensures WaitingCompactions() + manualCompactions + lowFlushes + highFlushes == 0
      ensures CountersOk() <==> old(highCompactions) == old(lowFlushes)
    {
      bgCompactionScheduled := bgCompactionScheduled - (lowCompactions + manualCompactions + lowFlushes);
      bgFlushScheduled := bgFlushScheduled - (highFlushes + highCompactions);
      lowCompactions, highCompactions, manualCompactions, lowFlushes, highFlushes := 0, 0, 0, 0, 0;
    }

    /** The counters of the destructor, which has taken `misplaced` compactions for flushes. */
    ghost predicate Closing(misplaced: int)
      reads this
    {
      && bgCompactionScheduled == runningCompactions + compactFilesRunning + leaked + misplaced
      && bgFlushScheduled == runningFlushes - misplaced
    }

    /** What the destructor waits for. */
    predicate Closed()
      reads this
    {
      bgCompactionScheduled == 0 && bgFlushScheduled == 0
    }

    lemma ClosedIff(misplaced: int)
      requires Closing(misplaced)
      ensures Closed() <==>
                runningCompactions + runningFlushes + compactFilesRunning == 0 && misplaced == 0 && leaked == 0
    {
    }
  }

  lemma InQueue(queue: seq<Cf>, flags: set<Cf>, cf: Cf)
    requires QueueOk(queue, flags)
    ensures cf in queue <==> cf in flags
  {
  }

  // ---------------------------------------------------------------- every run

  /** An operation of the scheduler, with what it finds. */
  datatype Op =
    | QueueFlush(cf: Cf, flushPending: bool)
    | QueueCompaction(cf: Cf, needed: bool)
    | Schedule(ready: bool, limits: Limits, noHighPool: bool, others: nat, level0Files: nat, exclusiveManual: bool)
    | RunFlush(low: bool, flushable: set<Cf>)
    | EndFlush
    | RunCompaction(high: bool, conflict: bool, again: bool)
    | EndCompaction
    | QueueManual
    | RunManual
    | CompactFiles(accepted: bool)
    | EndFiles
    | Pause
    | Paused
    | Continue
    | PauseCompaction
    | PausedCompaction
    | ContinueCompaction
    | Halt(error: bool)

  /** Do an operation if it can happen now. */
  method Do(s: BackgroundScheduler, op: Op)
    requires s.Valid()
    modifies s
    ensures s.Valid() && s.leaked >= old(s.leaked)
  {
    if op.Pause? || op.Paused? || op.Continue? || op.PauseCompaction? || op.PausedCompaction? ||
        op.ContinueCompaction? || op.Halt? {
      DoPause(s, op);
    } else if op.RunFlush? || op.EndFlush? || op.RunCompaction? || op.EndCompaction? || op.RunManual? || op.EndFiles? {
      DoJob(s, op);
    } else {
      DoQueue(s, op);
    }
  }

  method DoQueue(s: BackgroundScheduler, op: Op)
    requires s.Valid()
    modifies s
    ensures s.Valid() && s.leaked >= old(s.leaked)
  {
    hide BackgroundScheduler.Valid;
    match op
    case QueueFlush(cf, flushPending) => s.SchedulePendingFlush(cf, flushPending);
    case QueueCompaction(cf, needed) => s.SchedulePendingCompaction(cf, needed);
    case Schedule(ready, limits, noHighPool, others, level0Files, exclusiveManual) =>
      s.MaybeScheduleFlushOrCompaction(ready, limits, noHighPool, others, level0Files, exclusiveManual);
    case QueueManual => s.ScheduleManual();
    case CompactFiles(accepted) => s.BeginCompactFiles(accepted);
    case _ =>
  }

  method DoJob(s: BackgroundScheduler, op: Op)
    requires s.Valid()
    modifies s
    ensures s.Valid() && s.leaked >= old(s.leaked)
  {
    hide BackgroundScheduler.Valid;
    match op
    case RunFlush(low, flushable) =>
      if if low then s.lowFlushes > 0 else s.highFlushes > 0 {
        var r, popped := s.StartFlush(low, flushable);
      }
    case EndFlush =>
      if s.runningFlushes > 0 {
        s.FinishFlush();
      }
    case RunCompaction(high, conflict, again) =>
      if if high then s.highCompactions > 0 else s.lowCompactions > 0 {
        var r := s.StartCompaction(high, conflict, again);
      }
    case EndCompaction =>
      if s.runningCompactions > 0 {
        s.FinishCompaction();
      }
    case RunManual =>
      if s.manualCompactions > 0 {
        s.StartManual();
      }
    case EndFiles =>
      if s.compactFilesRunning > 0 {
        s.EndCompactFiles();
      }
    case _ =>
  }

  method DoPause(s: BackgroundScheduler, op: Op)
    requires s.Valid()
    modifies s
    ensures s.Valid() && s.leaked >= old(s.leaked)
  {
    hide BackgroundScheduler.Valid;
    match op
    case Pause => s.BeginPause();
    case Paused =>
      if s.pausing > 0 && s.Drained() {
        s.EndPause();
      }
    case Continue => var ok := s.ContinueBackgroundWork();
    case PauseCompaction => s.BeginPauseCompaction();
    case PausedCompaction =>
      if s.bgCompactionScheduled <= 0 {
        s.EndPauseCompaction();
      }
    case ContinueCompaction => var ok := s.ContinueCompactionWork();
    case Halt(error) => s.Stop(error);
    case _ =>
  }

  /** Any run of operations. Once a CompactFiles() call has been declined, background work is never drained
      again, at no point of any run: the wait of PauseBackgroundWork() does not end. */
  method Run(s: BackgroundScheduler, ops: seq<Op>) returns (ghost drained: seq<bool>)
    requires s.Valid()
    modifies s
    ensures s.Valid() && s.leaked >= old(s.leaked)
    ensures |drained| == |ops| && (old(s.leaked) > 0 ==> forall n | 0 <= n < |ops| :: !drained[n])
    ensures ops != [] ==> drained[|ops| - 1] == s.Drained()
  {
    hide BackgroundScheduler.Valid, BackgroundScheduler.Drained;
    drained := [];
    var n := 0;
    while n < |ops|
      invariant 0 <= n == |drained| <= |ops| && s.Valid() && s.leaked >= old(s.leaked)
      invariant old(s.leaked) > 0 ==> forall i | 0 <= i < n :: !drained[i]
      invariant n > 0 ==> drained[n - 1] == s.Drained()
    {
      Do(s, ops[n]);
      LeakedIsNotDrained(s);
      drained := drained + [s.Drained()];
      n := n + 1;
    }
  }

  lemma LeakedIsNotDrained(s: BackgroundScheduler)
    requires s.Valid()
    ensures s.leaked > 0 ==> !s.Drained()
  {
    s.DrainedIff();
  }

  /** A CompactFiles() call that the picker declines because of a compaction in progress, which then ends: nothing
      is left to wait for, but background work is not drained. */
  method DeclinedCallIsNeverForgotten() returns (s: BackgroundScheduler)
    ensures fresh(s) && s.Valid() && s.leaked == 1 && !s.Drained()
    ensures s.WaitingCompactions() + s.manualCompactions + s.runningCompactions + s.compactFilesRunning == 0
    ensures s.lowFlushes + s.highFlushes + s.runningFlushes == 0
  {
    s := LowCompactionWaits();
    hide QueueOk;
    var r := s.StartCompaction(false, false, false);
    s.BeginCompactFiles(false);
    s.FinishCompaction();
  }

  method LowCompactionWaits() returns (s: BackgroundScheduler)
    ensures fresh(s) && s.Valid() && s.lowCompactions == 1
    ensures s.highCompactions + s.manualCompactions + s.runningCompactions + s.compactFilesRunning + s.leaked == 0
    ensures s.lowFlushes + s.highFlushes + s.runningFlushes == 0
  {
    hide QueueOk;
    s := new BackgroundScheduler();
    s.SchedulePendingCompaction(0, true);
    s.MaybeScheduleFlushOrCompaction(true, Limits(1, 1), false, 0, 0, false);
  }

  /** The destructor: the pools are emptied, then running jobs end in any order. Whatever ends, its wait is over
      exactly if all have ended, as many compactions waited in the HIGH pool as flushes in the LOW pool, and no
      CompactFiles() call was ever declined. */
  method CloseDatabase(s: BackgroundScheduler, ends: seq<Op>)
    requires s.Valid()
    modifies s
    ensures s.Closed() <==>
              && s.runningCompactions + s.runningFlushes + s.compactFilesRunning == 0
              && old(s.highCompactions) == old(s.lowFlushes) && old(s.leaked) == 0
  {
    s.Stop(false);
    s.UnscheduleAll();
    ghost var misplaced := old(s.highCompactions) - old(s.lowFlushes);
    var n := 0;
    while n < |ends|
      invariant 0 <= n <= |ends| && s.Closing(misplaced) && s.leaked == old(s.leaked)
    {
      if ends[n].EndFlush? && s.runningFlushes > 0 {
        s.FinishFlush();
      } else if ends[n].EndCompaction? && s.runningCompactions > 0 {
        s.FinishCompaction();
      } else if ends[n].EndFiles? && s.compactFilesRunning > 0 {
        s.EndCompactFiles();
      }
      n := n + 1;
    }
    s.ClosedIff(misplaced);
  }

  /** SILK puts a compaction in the HIGH pool, and the database is closed before it starts: the destructor takes
      it for a flush. */
  method ShutdownMiscounts() returns (s: BackgroundScheduler)
    ensures fresh(s) && s.bgCompactionScheduled == 1 && s.bgFlushScheduled == -1
    ensures s.WaitingCompactions() + s.manualCompactions + s.lowFlushes + s.highFlushes + s.runningCompactions +
              s.runningFlushes == 0
  {
    s := HighCompactionWaits();
    s.Stop(false);
    s.UnscheduleAll();
  }

  method HighCompactionWaits() returns (s: BackgroundScheduler)
    ensures fresh(s) && s.Valid() && s.highCompactions == 1 && s.lowFlushes == 0
    ensures s.runningCompactions + s.runningFlushes + s.compactFilesRunning + s.leaked == 0
  {
    hide QueueOk;
    s := new BackgroundScheduler();
    s.SchedulePendingCompaction(0, true);
    s.MaybeScheduleFlushOrCompaction(true, Limits(1, 1), false, 0, 4, false);
  }
}
