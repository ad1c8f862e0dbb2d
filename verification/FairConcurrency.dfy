/** The concurrency manager with semaphores that serve their waiters first come, first served. Its runs are runs of
    the manager, so all that is proved of those holds; in addition no job is passed by one that queued after it. */
module FairConcurrency {
  import opened Basics
  import opened Sums
  import opened Concurrency

  /** A job that was sent to wait for a device, or for a CPU slot. */
  datatype Place = Place(job: nat, device: Option<nat>)

  /** The manager, and the jobs in the order in which they were sent on from the total semaphore. The order in which
      jobs queue for that one is the order of arrival. */
  datatype Fair = Fair(s: State, routed: seq<Place>)

  /** The job waits for its second semaphore. */
  predicate Queued(j: Job) {
    j.WantsDevice? || j.WantsCpu?
  }

  function TargetOf(j: Job): Option<nat> {
    if j.WantsDevice? then Some(j.device) else None
  }

  /** No job that came earlier to the same semaphore still waits for it. */
  ghost predicate InTurn(f: Fair, step: Step) {
    match step
    case TakeTotal(i) => forall h :: 0 <= h < i && h < |f.s.jobs| ==> !f.s.jobs[h].WantsTotal?
    case TakeDevice(i) => FirstInQueue(f, i)
    case TakeCpu(i) => FirstInQueue(f, i)
    case _ => true
  }

  ghost predicate FirstInQueue(f: Fair, i: nat) {
    forall a, b :: 0 <= a < b < |f.routed| && f.routed[b].job == i && f.routed[a].device == f.routed[b].device ==>
      !StillQueued(f, a)
  }

  /** The job at place a of the order still waits. */
  predicate StillQueued(f: Fair, a: nat)
    requires a < |f.routed|
  {
    f.routed[a].job < |f.s.jobs| && Queued(f.s.jobs[f.routed[a].job])
  }

  ghost predicate FairNext(p: Pools, f: Fair, step: Step, f': Fair) {
    && Enabled(p, f.s, step) && InTurn(f, step)
    && f'.s == After(p, f.s, step)
    && f'.routed == f.routed + if step.Route? then [Place(step.i, TargetOf(f'.s.jobs[step.i]))] else []
  }

  ghost predicate IsFairRun(p: Pools, run: seq<Fair>, steps: seq<Step>) {
    && |run| == |steps| + 1
    && Initial(p, run[0].s) && run[0].routed == []
    && forall k :: 0 <= k < |steps| ==> FairNext(p, run[k], steps[k], run[k + 1])
  }

  function States(run: seq<Fair>): (states: seq<State>)
    ensures |states| == |run| && forall k :: 0 <= k < |run| ==> states[k] == run[k].s
  {
    seq(|run|, k requires 0 <= k < |run| => run[k].s)
  }

  /** Serving in order is one of the ways the manager can run. */
  lemma FairRunIsRun(p: Pools, run: seq<Fair>, steps: seq<Step>)
    requires IsFairRun(p, run, steps)
    ensures IsRun(p, States(run), steps)
  {
    forall k | 0 <= k < |steps|
      ensures Enabled(p, run[k].s, steps[k]) && run[k + 1].s == After(p, run[k].s, steps[k])
    {
      assert FairNext(p, run[k], steps[k], run[k + 1]);
    }
  }

  // ----- The order that is kept -----

  /** Past the total semaphore there is one entry for each job that waits, and it tells what for. */
  ghost predicate Recorded(f: Fair) {
    && (forall a, b :: 0 <= a < b < |f.routed| ==> f.routed[a].job != f.routed[b].job)
    && (forall a :: 0 <= a < |f.routed| ==> EntryFits(f, a))
    && (forall i :: 0 <= i < |f.s.jobs| && Queued(f.s.jobs[i]) ==> HasEntry(f, i))
  }

  predicate EntryFits(f: Fair, a: nat)
    requires a < |f.routed|
  {
    && f.routed[a].job < |f.s.jobs|
    && var j := f.s.jobs[f.routed[a].job];
       !j.WantsTotal? && !j.TookTotal? && (Queued(j) ==> f.routed[a].device == TargetOf(j))
  }

  ghost predicate HasEntry(f: Fair, i: nat) {
    exists a :: 0 <= a < |f.routed| && f.routed[a].job == i
  }

  /** A job past the total semaphore was passed by no earlier arrival. */
  ghost predicate ArrivalsInOrder(f: Fair) {
    forall h, i :: 0 <= h < i < |f.s.jobs| && f.s.jobs[h].WantsTotal? ==> f.s.jobs[i].WantsTotal?
  }

  /** Of two jobs sent to the same semaphore the later one is not served while the earlier one waits. */
  ghost predicate QueuesInOrder(f: Fair) {
    forall a, b :: 0 <= a < b < |f.routed| && f.routed[a].device == f.routed[b].device && StillQueued(f, a) ==>
      StillQueued(f, b)
  }

  ghost predicate InOrder(f: Fair) {
    Recorded(f) && ArrivalsInOrder(f) && QueuesInOrder(f)
  }

  lemma StepKeepsRecorded(p: Pools, f: Fair, step: Step, f': Fair)
    requires Recorded(f) && FairNext(p, f, step, f')
    ensures Recorded(f')
  {
    forall a, b | 0 <= a < b < |f'.routed| ensures f'.routed[a].job != f'.routed[b].job {
      assert EntryFits(f, a);
    }
    forall a | 0 <= a < |f'.routed| ensures EntryFits(f', a) {
      if a < |f.routed| { assert EntryFits(f, a) && f'.routed[a] == f.routed[a]; }
    }
    forall i | 0 <= i < |f'.s.jobs| && Queued(f'.s.jobs[i]) ensures HasEntry(f', i) {
      if step.Route? && i == step.i {
        assert f'.routed[|f.routed|].job == i;
      } else {
        assert HasEntry(f, i);
        var a :| 0 <= a < |f.routed| && f.routed[a].job == i;
        assert f'.routed[a].job == i;
      }
    }
  }

  lemma StepKeepsQueues(p: Pools, f: Fair, step: Step, f': Fair)
    requires Recorded(f) && QueuesInOrder(f) && FairNext(p, f, step, f')
    ensures QueuesInOrder(f')
  {
    forall a, b | 0 <= a < b < |f'.routed| && f'.routed[a].device == f'.routed[b].device && StillQueued(f', a)
      ensures StillQueued(f', b)
    {
      assert EntryFits(f, a);
      assert StillQueued(f, a);
      if b < |f.routed| { assert EntryFits(f, b) && StillQueued(f, b); }
    }
  }

  lemma StepKeepsOrder(p: Pools, f: Fair, step: Step, f': Fair)
    requires InOrder(f) && FairNext(p, f, step, f')
    ensures InOrder(f')
  {
    StepKeepsRecorded(p, f, step, f');
    StepKeepsQueues(p, f, step, f');
  }

  /** In every fair run, at every semaphore, no job is passed by one that queued after it. */
  lemma {:induction false} NobodyIsPassed(p: Pools, run: seq<Fair>, steps: seq<Step>, k: nat)
    requires IsFairRun(p, run, steps) && k < |run|
    ensures InOrder(run[k])
  {
    if k > 0 {
      NobodyIsPassed(p, run, steps, k - 1);
      StepKeepsOrder(p, run[k - 1], steps[k - 1], run[k]);
    }
  }

  // ----- Progress in order -----

  lemma {:induction false} FirstArrival(jobs: seq<Job>, i: nat) returns (h: nat)
    requires i < |jobs| && jobs[i].WantsTotal?
    ensures h <= i && jobs[h].WantsTotal? && forall g :: 0 <= g < h ==> !jobs[g].WantsTotal?
  {
    if g :| 0 <= g < i && jobs[g].WantsTotal? { h := FirstArrival(jobs, g); } else { h := i; }
  }

  /** The first of those that wait for what the job at place b waits for. */
  lemma {:induction false} FirstWaiter(f: Fair, b: nat) returns (a: nat)
    requires b < |f.routed| && StillQueued(f, b)
    ensures a <= b && StillQueued(f, a) && f.routed[a].device == f.routed[b].device
    ensures forall c :: 0 <= c < a && f.routed[c].device == f.routed[b].device ==> !StillQueued(f, c)
    decreases b
  {
    if c :| 0 <= c < b && f.routed[c].device == f.routed[b].device && StillQueued(f, c) {
      a := FirstWaiter(f, c);
    } else {
      a := b;
    }
  }

  /** A step that is not an arrival, can be taken now and passes nobody. */
  ghost predicate CanMoveInTurn(p: Pools, f: Fair, step: Step) {
    CanMove(p, f.s, step) && InTurn(f, step)
  }

  lemma QueuedMoves(p: Pools, f: Fair, i: nat) returns (step: Step)
    requires Conserved(p, f.s) && InOrder(f) && p.cpuJobs >= 1 && i < |f.s.jobs| && Queued(f.s.jobs[i])
    ensures CanMoveInTurn(p, f, step)
  {
    assert HasEntry(f, i);
    var b :| 0 <= b < |f.routed| && f.routed[b].job == i;
    var a := FirstWaiter(f, b);
    var h := f.routed[a].job;
    assert EntryFits(f, a);
    assert FirstInQueue(f, h);
    match f.s.jobs[h]
    case WantsDevice(d) =>
      if f.s.devices[d] > 0 { step := TakeDevice(h); } else {
        var g := SomeCounted(f.s.jobs, OnDevice(d), |f.s.jobs|);
        step := DropGuard(g);
      }
    case WantsCpu =>
      if f.s.cpu > 0 { step := TakeCpu(h); } else {
        var g := SomeCounted(f.s.jobs, InCpu, |f.s.jobs|);
        step := DropGuard(g);
      }
  }

  lemma InsiderMovesInTurn(p: Pools, f: Fair, i: nat) returns (step: Step)
    requires Conserved(p, f.s) && InOrder(f) && p.cpuJobs >= 1 && i < |f.s.jobs| && f.s.jobs[i].InTotal()
    ensures CanMoveInTurn(p, f, step)
  {
    match f.s.jobs[i]
    case TookTotal(_) => step := Route(i);
    case HoldsDevice(_) => step := DropGuard(i);
    case HoldsCpu => step := DropGuard(i);
    case Releasing => step := DropTotal(i);
    case _ => step := QueuedMoves(p, f, i);
  }

  /** Serving in order never blocks: while some job is unfinished, some step that passes nobody can be taken. */
  lemma SomeJobMovesInTurn(p: Pools, run: seq<Fair>, steps: seq<Step>, k: nat, i: nat) returns (step: Step)
    requires IsFairRun(p, run, steps) && k < |run| && p.cpuJobs >= 1
    requires i < |run[k].s.jobs| && !run[k].s.jobs[i].Finished?
    ensures CanMoveInTurn(p, run[k], step)
  {
    var f := run[k];
    FairRunIsRun(p, run, steps);
    EveryRunConserves(p, States(run), steps, k);
    NobodyIsPassed(p, run, steps, k);
    if f.s.jobs[i].WantsTotal? {
      if f.s.total > 0 {
        var h := FirstArrival(f.s.jobs, i);
        step := TakeTotal(h);
      } else {
        var h := SomeCounted(f.s.jobs, InTotal, |f.s.jobs|);
        step := InsiderMovesInTurn(p, f, h);
      }
    } else {
      step := InsiderMovesInTurn(p, f, i);
    }
  }

  /** Whatever arrives later, jobs leave the total semaphore in the order of arrival, and each of the others in the
      order in which they were sent to it. */
  lemma ServedInOrder(p: Pools, run: seq<Fair>, steps: seq<Step>, k: nat, a: nat, b: nat)
    requires IsFairRun(p, run, steps) && k < |run|
    ensures a < b < |run[k].s.jobs| && !run[k].s.jobs[b].WantsTotal? ==> !run[k].s.jobs[a].WantsTotal?
    ensures a < b < |run[k].routed| && run[k].routed[a].device == run[k].routed[b].device && !StillQueued(run[k], b) ==>
              !StillQueued(run[k], a)
  {
    NobodyIsPassed(p, run, steps, k);
  }

  /** Once arrivals stop, serving in order finishes everybody: a fair run has at most the steps left, and it cannot
      go on exactly when every job has finished. */
  lemma EveryoneFinishesInTurn(p: Pools, run: seq<Fair>, steps: seq<Step>, from: nat)
    requires IsFairRun(p, run, steps) && from < |run| && p.cpuJobs >= 1
    requires forall m :: from <= m < |steps| ==> !steps[m].Arrive?
    ensures |steps| - from <= StepsLeft(run[from].s.jobs)
    ensures var end := run[|steps|];
      (forall step :: !CanMoveInTurn(p, end, step)) <==> forall i :: 0 <= i < |end.s.jobs| ==> end.s.jobs[i].Finished?
  {
    var end := run[|steps|];
    FairRunIsRun(p, run, steps);
    EveryoneFinishes(p, States(run), steps, from);
    if i :| 0 <= i < |end.s.jobs| && !end.s.jobs[i].Finished? {
      var step := SomeJobMovesInTurn(p, run, steps, |steps|, i);
    } else {
      assert forall step :: !CanMove(p, States(run)[|steps|], step);
    }
  }
}
