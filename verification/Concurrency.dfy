/** The GPU-aware concurrency manager: a total semaphore, a CPU semaphore and one semaphore per GPU device,
    taken in two stages by any number of concurrent jobs. */
module Concurrency {
  import opened Basics
  import opened Sums

  /** Pool sizes. */
  datatype Pools = Pools(gpus: nat, cpuJobs: nat) {
    function Total(): nat {
      gpus + cpuJobs
    }
  }

  /** The pools of a new manager; zero CPU jobs asks for one less than the processors, at least one, or 3 if
      unknown. */
  function NewPools(gpus: nat, maxCpuJobs: nat, processors: Option<nat>): (p: Pools)
    ensures p.gpus == gpus && p.cpuJobs >= 1 && p.Total() == gpus + p.cpuJobs
    ensures maxCpuJobs > 0 ==> p.cpuJobs == maxCpuJobs
    ensures maxCpuJobs == 0 && processors.None? ==> p.cpuJobs == 3
    ensures maxCpuJobs == 0 && processors.Some? ==>
              p.cpuJobs + 1 == processors.value || (processors.value <= 2 && p.cpuJobs == 1)
  {
    var cpuJobs := if maxCpuJobs > 0 then maxCpuJobs
                   else match processors
                        case Some(n) => if n <= 2 then 1 else n - 1
                        case None => 3;
    Pools(gpus, cpuJobs)
  }

  /** Where one job stands between semaphore operations; a dropped guard releases its device or CPU slot first. */
  datatype Job =
    | WantsTotal(gpu: bool)
    | TookTotal(gpu: bool)
    | WantsDevice(device: nat)
    | WantsCpu
    | HoldsDevice(device: nat)
    | HoldsCpu
    | Releasing
    | Finished
  {
    /** Steps until the job is finished. */
    function StepsLeft(): nat {
      match this
      case WantsTotal(_) => 5
      case TookTotal(_) => 4
      case WantsDevice(_) => 3
      case WantsCpu => 3
      case HoldsDevice(_) => 2
      case HoldsCpu => 2
      case Releasing => 1
      case Finished => 0
    }

    /** Owns a total permit. */
    predicate InTotal() {
      !WantsTotal? && !Finished?
    }

    predicate Guards() {
      HoldsDevice? || HoldsCpu?
    }
  }

  /** Free permits, the round-robin ticket and the jobs. */
  datatype State = State(total: nat, cpu: nat, devices: seq<nat>, ticket: nat, jobs: seq<Job>)

  datatype Step =
    | Arrive(gpu: bool)
    | TakeTotal(i: nat)
    | Route(i: nat)
    | TakeDevice(i: nat)
    | TakeCpu(i: nat)
    | DropGuard(i: nat)
    | DropTotal(i: nat)

  predicate Initial(p: Pools, s: State) {
    s == State(p.Total(), p.cpuJobs, seq(p.gpus, _ => 1), 0, [])
  }

  /** Whether step can be taken now; arrivals always can. */
  predicate Enabled(p: Pools, s: State, step: Step) {
    step.Arrive? ||
    (step.i < |s.jobs| &&
     var j := s.jobs[step.i];
     match step
     case TakeTotal(_) => j.WantsTotal? && s.total > 0
     case Route(_) => j.TookTotal?
     case TakeDevice(_) => j.WantsDevice? && j.device < |s.devices| && s.devices[j.device] > 0
     case TakeCpu(_) => j.WantsCpu? && s.cpu > 0
     case DropGuard(_) => j.Guards() && (j.HoldsDevice? ==> j.device < |s.devices|)
     case DropTotal(_) => j.Releasing?)
  }

  /** The state after an enabled step. A GPU job draws the next ticket, or goes to the CPU pool if there is no
      device. */
  function After(p: Pools, s: State, step: Step): State
    requires Enabled(p, s, step)
  {
    if step.Arrive? then s.(jobs := s.jobs + [WantsTotal(step.gpu)])
    else
      var i, j := step.i, s.jobs[step.i];
      match step
      case TakeTotal(_) => s.(total := s.total - 1, jobs := s.jobs[i := TookTotal(j.gpu)])
      case Route(_) =>
        if j.gpu && p.gpus > 0
        then s.(ticket := (s.ticket + 1) % TWO64, jobs := s.jobs[i := WantsDevice(s.ticket % p.gpus)])
        else s.(jobs := s.jobs[i := WantsCpu])
      case TakeDevice(_) =>
        s.(devices := s.devices[j.device := s.devices[j.device] - 1], jobs := s.jobs[i := HoldsDevice(j.device)])
      case TakeCpu(_) => s.(cpu := s.cpu - 1, jobs := s.jobs[i := HoldsCpu])
      case DropGuard(_) =>
        if j.HoldsDevice?
        then s.(devices := s.devices[j.device := s.devices[j.device] + 1], jobs := s.jobs[i := Releasing])
        else s.(cpu := s.cpu + 1, jobs := s.jobs[i := Releasing])
      case DropTotal(_) => s.(total := s.total + 1, jobs := s.jobs[i := Finished])
  }

  /** Where a job is sent from the total semaphore: a GPU job to the device of the next ticket, the ticket moving on
      by one, and to a CPU slot if there are no devices; a CPU job to a CPU slot. Nothing else changes. */
  lemma RouteMeans(p: Pools, s: State, i: nat)
    requires Enabled(p, s, Route(i))
    ensures var s' := After(p, s, Route(i));
            && s' == s.(ticket := s'.ticket, jobs := s.jobs[i := s'.jobs[i]])
            && (s.jobs[i].gpu && p.gpus > 0 ==>
                s'.jobs[i] == WantsDevice(s.ticket % p.gpus) && s'.ticket == (s.ticket + 1) % TWO64)
            && (!s.jobs[i].gpu || p.gpus == 0 ==> s'.jobs[i] == WantsCpu && s'.ticket == s.ticket)
  {
  }

  /** What a job takes and gives back: one permit of the semaphore it is at, and nothing of the others. */
  lemma TakingMeans(p: Pools, s: State, step: Step)
    requires !step.Arrive? && Enabled(p, s, step)
    ensures var j, s' := s.jobs[step.i], After(p, s, step);
            && (step.TakeTotal? ==> s'.total + 1 == s.total && s'.cpu == s.cpu && s'.devices == s.devices)
            && (step.TakeCpu? ==> s'.cpu + 1 == s.cpu && s'.total == s.total && s'.devices == s.devices)
            && (step.TakeDevice? ==>
                s'.devices == s.devices[j.device := s.devices[j.device] - 1] && s'.total == s.total && s'.cpu == s.cpu)
            && (step.DropTotal? ==> s'.total == s.total + 1 && s'.cpu == s.cpu && s'.devices == s.devices)
            && (step.DropGuard? ==> s'.total == s.total)
  {
  }

  ghost predicate IsRun(p: Pools, run: seq<State>, steps: seq<Step>) {
    && |run| == |steps| + 1
    && Initial(p, run[0])
    && forall k :: 0 <= k < |steps| ==> Enabled(p, run[k], steps[k]) && run[k + 1] == After(p, run[k], steps[k])
  }

  // ----- The round robin -----

  /** How many of the first k steps sent a GPU job to a device. */
  ghost function Drawn(p: Pools, run: seq<State>, steps: seq<Step>, k: nat): nat
    requires k <= |steps| <= |run|
  {
    if k == 0 then 0
    else Drawn(p, run, steps, k - 1) + if SendsToDevice(p, run[k - 1], steps[k - 1]) then 1 else 0
  }

  predicate SendsToDevice(p: Pools, s: State, step: Step) {
    step.Route? && step.i < |s.jobs| && s.jobs[step.i].TookTotal? && s.jobs[step.i].gpu && p.gpus > 0
  }

  lemma StepTicket(p: Pools, s: State, step: Step, n: nat)
    requires Enabled(p, s, step) && s.ticket == n % TWO64
    ensures After(p, s, step).ticket == (if SendsToDevice(p, s, step) then n + 1 else n) % TWO64
  {
    if SendsToDevice(p, s, step) {
      WrapOne(n);
    } else {
      assert After(p, s, step).ticket == s.ticket;
    }
  }

  lemma WrapOne(n: nat)
    ensures (n % TWO64 + 1) % TWO64 == (n + 1) % TWO64
  {
  }

  lemma {:induction false} TicketCounts(p: Pools, run: seq<State>, steps: seq<Step>, k: nat)
    requires IsRun(p, run, steps) && k < |run|
    ensures run[k].ticket == Drawn(p, run, steps, k) % TWO64
  {
    if k > 0 {
      TicketCounts(p, run, steps, k - 1);
      assert run[k] == After(p, run[k - 1], steps[k - 1]);
      StepTicket(p, run[k - 1], steps[k - 1], Drawn(p, run, steps, k - 1));
    }
  }

  /** GPU jobs are sent round the devices: the n-th of a run, counting from zero, goes to device n modulo their
      number, so any two fewer than that many apart go to different devices. */
  lemma RoundRobin(p: Pools, run: seq<State>, steps: seq<Step>, k: nat)
    requires IsRun(p, run, steps) && k < |steps| && SendsToDevice(p, run[k], steps[k])
    requires Drawn(p, run, steps, k) < TWO64
    ensures run[k + 1].jobs[steps[k].i] == WantsDevice(Drawn(p, run, steps, k) % p.gpus)
  {
    TicketCounts(p, run, steps, k);
    InModulus(Drawn(p, run, steps, k), TWO64);
  }

  // ----- Counting holders -----

  const InTotal: Job -> bool := (j: Job) => j.InTotal()
  const InCpu: Job -> bool := (j: Job) => j.HoldsCpu?

  function OnDevice(d: nat): Job -> bool {
    (j: Job) => j == HoldsDevice(d)
  }

  /** Free permits plus holders is the size of each semaphore. */
  ghost predicate PermitsConserved(p: Pools, s: State) {
    s.total + Count(s.jobs, InTotal) == p.Total() && s.cpu + Count(s.jobs, InCpu) == p.cpuJobs
  }

  /** Every device is free or has one guard, and every device asked for exists. */
  ghost predicate DevicesConserved(p: Pools, s: State) {
    && |s.devices| == p.gpus
    && (forall d :: 0 <= d < p.gpus ==> s.devices[d] + Count(s.jobs, OnDevice(d)) == 1)
    && (forall i :: 0 <= i < |s.jobs| && (s.jobs[i].WantsDevice? || s.jobs[i].HoldsDevice?) ==>
        s.jobs[i].device < p.gpus)
  }

  ghost predicate Conserved(p: Pools, s: State) {
    PermitsConserved(p, s) && DevicesConserved(p, s)
  }

  lemma StepConservesPermits(p: Pools, s: State, step: Step)
    requires PermitsConserved(p, s) && Enabled(p, s, step)
    ensures PermitsConserved(p, After(p, s, step))
  {
    var s' := After(p, s, step);
    if step.Arrive? {
      CountAppend(s.jobs, WantsTotal(step.gpu), InTotal);
      CountAppend(s.jobs, WantsTotal(step.gpu), InCpu);
    } else {
      CountUpdate(s.jobs, step.i, s'.jobs[step.i], InTotal);
      CountUpdate(s.jobs, step.i, s'.jobs[step.i], InCpu);
    }
  }

  /** Device d under a step that takes it, drops it or leaves it alone. */
  lemma StepConservesDevice(p: Pools, s: State, step: Step, d: nat)
    requires DevicesConserved(p, s) && Enabled(p, s, step) && !step.Arrive? && d < p.gpus
    ensures var s' := After(p, s, step); |s'.devices| == p.gpus && s'.devices[d] + Count(s'.jobs, OnDevice(d)) == 1
  {
    var s', i := After(p, s, step), step.i;
    var before, after := s.jobs[i] == HoldsDevice(d), s'.jobs[i] == HoldsDevice(d);
    CountUpdate(s.jobs, i, s'.jobs[i], OnDevice(d));
    assert s.devices[d] + Count(s.jobs, OnDevice(d)) == 1;
    if step.TakeDevice? {
      assert !before && (after <==> s.jobs[i].device == d);
    } else if step.DropGuard? {
      assert !after && (before <==> s.jobs[i].HoldsDevice? && s.jobs[i].device == d);
    } else {
      assert !before && !after && s'.devices == s.devices;
    }
  }

  /** Jobs ask for devices that exist. */
  lemma StepKeepsDevicesReal(p: Pools, s: State, step: Step, i: nat)
    requires DevicesConserved(p, s) && Enabled(p, s, step) && i < |After(p, s, step).jobs|
    ensures var j := After(p, s, step).jobs[i]; j.WantsDevice? || j.HoldsDevice? ==> j.device < p.gpus
  {
  }

  lemma StepConservesDevices(p: Pools, s: State, step: Step)
    requires DevicesConserved(p, s) && Enabled(p, s, step)
    ensures DevicesConserved(p, After(p, s, step))
  {
    var s' := After(p, s, step);
    forall d: nat | d < p.gpus ensures |s'.devices| == p.gpus && s'.devices[d] + Count(s'.jobs, OnDevice(d)) == 1 {
      if step.Arrive? {
        CountAppend(s.jobs, WantsTotal(step.gpu), OnDevice(d));
      } else {
        StepConservesDevice(p, s, step, d);
      }
    }
    forall i: nat | i < |s'.jobs|
      ensures s'.jobs[i].WantsDevice? || s'.jobs[i].HoldsDevice? ==> s'.jobs[i].device < p.gpus
    {
      StepKeepsDevicesReal(p, s, step, i);
    }
  }

  lemma StepConserves(p: Pools, s: State, step: Step)
    requires Conserved(p, s) && Enabled(p, s, step)
    ensures Conserved(p, After(p, s, step))
  {
    StepConservesPermits(p, s, step);
    StepConservesDevices(p, s, step);
  }

  lemma {:induction false} EveryRunConserves(p: Pools, run: seq<State>, steps: seq<Step>, k: nat)
    requires IsRun(p, run, steps) && k < |run|
    ensures Conserved(p, run[k])
  {
    if k > 0 {
      EveryRunConserves(p, run, steps, k - 1);
      StepConserves(p, run[k - 1], steps[k - 1]);
    }
  }

  /** No two guards on one device, and no pool is ever overcommitted. */
  lemma Exclusive(p: Pools, run: seq<State>, steps: seq<Step>, k: nat, i: nat, j: nat)
    requires IsRun(p, run, steps) && k < |run| && i < j < |run[k].jobs|
    ensures run[k].jobs[i].HoldsDevice? ==> run[k].jobs[j] != run[k].jobs[i]
    ensures Count(run[k].jobs, InCpu) <= p.cpuJobs && Count(run[k].jobs, InTotal) <= p.Total()
  {
    EveryRunConserves(p, run, steps, k);
    var jobs := run[k].jobs;
    if jobs[i].HoldsDevice? && jobs[j] == jobs[i] { TwoCounted(jobs, OnDevice(jobs[i].device), i, j); }
  }

  // ----- Progress -----

  /** A step that is not an arrival and can be taken now. */
  ghost predicate CanMove(p: Pools, s: State, step: Step) {
    !step.Arrive? && Enabled(p, s, step)
  }

  /** A job past the total semaphore can move, or a guard on what it waits for can be dropped. */
  lemma InsiderMoves(p: Pools, s: State, i: nat) returns (step: Step)
    requires Conserved(p, s) && p.cpuJobs >= 1 && i < |s.jobs| && s.jobs[i].InTotal()
    ensures CanMove(p, s, step)
  {
    match s.jobs[i]
    case TookTotal(_) => step := Route(i);
    case WantsDevice(d) =>
      if s.devices[d] > 0 { step := TakeDevice(i); } else {
        var h := SomeCounted(s.jobs, OnDevice(d), |s.jobs|);
        step := DropGuard(h);
      }
    case WantsCpu =>
      if s.cpu > 0 { step := TakeCpu(i); } else {
        var h := SomeCounted(s.jobs, InCpu, |s.jobs|);
        step := DropGuard(h);
      }
    case HoldsDevice(_) => step := DropGuard(i);
    case HoldsCpu => step := DropGuard(i);
    case Releasing => step := DropTotal(i);
  }

  /** No deadlock: in every reachable state with an unfinished job, some acquire is enabled or some guard can be
      dropped. */
  lemma SomeJobMoves(p: Pools, run: seq<State>, steps: seq<Step>, k: nat, i: nat) returns (step: Step)
    requires IsRun(p, run, steps) && k < |run| && p.cpuJobs >= 1
    requires i < |run[k].jobs| && !run[k].jobs[i].Finished?
    ensures CanMove(p, run[k], step)
  {
    EveryRunConserves(p, run, steps, k);
    var s := run[k];
    if s.jobs[i].WantsTotal? {
      if s.total > 0 { step := TakeTotal(i); } else {
        var h := SomeCounted(s.jobs, InTotal, |s.jobs|);
        step := InsiderMoves(p, s, h);
      }
    } else {
      step := InsiderMoves(p, s, i);
    }
  }

  const StepsOf: Job -> nat := (j: Job) => j.StepsLeft()

  /** Steps until all jobs are finished. */
  ghost function StepsLeft(jobs: seq<Job>): nat {
    Sum(jobs, StepsOf)
  }

  lemma StepCountsDown(p: Pools, s: State, step: Step)
    requires Enabled(p, s, step) && !step.Arrive?
    ensures StepsLeft(After(p, s, step).jobs) + 1 == StepsLeft(s.jobs)
  {
    SumUpdate(s.jobs, step.i, After(p, s, step).jobs[step.i], StepsOf);
  }

  /** Without arrivals every step takes one job one step further, so only as many steps are possible as are left. */
  lemma {:induction false} StepsCountDown(p: Pools, run: seq<State>, steps: seq<Step>, from: nat, k: nat)
    requires IsRun(p, run, steps) && from <= k < |run|
    requires forall m :: from <= m < k ==> !steps[m].Arrive?
    ensures StepsLeft(run[k].jobs) + (k - from) == StepsLeft(run[from].jobs)
    decreases k
  {
    if k > from {
      StepsCountDown(p, run, steps, from, k - 1);
      StepCountsDown(p, run[k - 1], steps[k - 1]);
    }
  }

  /** Once arrivals stop, however the jobs are scheduled, no run is longer than the steps left, and one that cannot go
      on has finished every job: nobody waits forever while guards are dropped. */
  lemma EveryoneFinishes(p: Pools, run: seq<State>, steps: seq<Step>, from: nat)
    requires IsRun(p, run, steps) && from < |run| && p.cpuJobs >= 1
    requires forall m :: from <= m < |steps| ==> !steps[m].Arrive?
    ensures |steps| - from <= StepsLeft(run[from].jobs)
    ensures var end := run[|steps|];
      (forall step :: !CanMove(p, end, step)) <==> forall i :: 0 <= i < |end.jobs| ==> end.jobs[i].Finished?
    ensures |steps| - from == StepsLeft(run[from].jobs) ==>
              forall i :: 0 <= i < |run[|steps|].jobs| ==> run[|steps|].jobs[i].Finished?
  {
    var end := run[|steps|];
    StepsCountDown(p, run, steps, from, |steps|);
    if i :| 0 <= i < |end.jobs| && !end.jobs[i].Finished? {
      var step := SomeJobMoves(p, run, steps, |steps|, i);
    }
    if |steps| - from == StepsLeft(run[from].jobs) {
      forall i | 0 <= i < |end.jobs| ensures end.jobs[i].Finished? { SumCovers(end.jobs, StepsOf, i, |end.jobs|); }
    }
  }
}
