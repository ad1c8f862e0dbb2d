/** A proving job that already holds a device draws a second one from the same round-robin manager. Progress can be
    lost, as a job can be handed the very device it holds; it is kept exactly while no jobs wait for each other in a
    circle. */
module NestedDevices {
  import opened Basics

  /** A job: nothing yet, waiting for its first device, holding it, waiting for a second one, holding both, done. */
  datatype Job =
    | New
    | WantsFirst(device: nat)
    | HasFirst(first: nat)
    | WantsSecond(first: nat, second: nat)
    | HasBoth(first: nat, second: nat)
    | Done
  {
    predicate Holds(d: nat) {
      match this
      case HasFirst(f) => f == d
      case WantsSecond(f, _) => f == d
      case HasBoth(f, s) => f == d || s == d
      case _ => false
    }

    /** Waits for the device it holds. */
    predicate WaitsForItself() {
      WantsSecond? && first == second
    }
  }

  datatype State = State(free: set<nat>, ticket: nat, jobs: seq<Job>)

  /** Draw a ticket (for the first or the second device), take the device drawn, or drop what is held. */
  datatype Step = Arrive | Draw(i: nat) | Take(i: nat) | Drop(i: nat)

  function Devices(gpus: nat): (ds: set<nat>)
    ensures forall d :: d in ds <==> 0 <= d < gpus
  {
    if gpus == 0 then {} else Devices(gpus - 1) + {gpus - 1}
  }

  predicate Initial(gpus: nat, s: State) {
    s == State(Devices(gpus), 0, [])
  }

  /** One move; a job's second draw is the nested one. */
  predicate Next(gpus: nat, s: State, step: Step, s': State)
    requires gpus > 0
  {
    if step.Arrive? then s' == s.(jobs := s.jobs + [New])
    else
      && step.i < |s.jobs|
      && var i, j, drawn := step.i, s.jobs[step.i], s.ticket % gpus;
      match step
      case Draw(_) =>
        && (j.New? || j.HasFirst?)
        && s' == s.(ticket := (s.ticket + 1) % TWO64,
                    jobs := s.jobs[i := if j.New? then WantsFirst(drawn) else WantsSecond(j.first, drawn)])
      case Take(_) =>
        (j.WantsFirst? && j.device in s.free &&
            s' == s.(free := s.free - {j.device}, jobs := s.jobs[i := HasFirst(j.device)])) ||
        (j.WantsSecond? && j.second in s.free &&
            s' == s.(free := s.free - {j.second}, jobs := s.jobs[i := HasBoth(j.first, j.second)]))
      case Drop(_) =>
        (j.HasFirst? && s' == s.(free := s.free + {j.first}, jobs := s.jobs[i := Done])) ||
        (j.HasBoth? && s' == s.(free := s.free + {j.first, j.second}, jobs := s.jobs[i := Done]))
  }

  ghost predicate IsRun(gpus: nat, run: seq<State>, steps: seq<Step>)
    requires gpus > 0
  {
    && |run| == |steps| + 1
    && Initial(gpus, run[0])
    && forall k :: 0 <= k < |steps| ==> Next(gpus, run[k], steps[k], run[k + 1])
  }

  /** A device that is held is not free, and no two jobs hold one device. */
  ghost predicate Exclusive(s: State) {
    && (forall i, d :: 0 <= i < |s.jobs| && s.jobs[i].Holds(d) ==> d !in s.free)
    && (forall i, j, d ::
          0 <= i < |s.jobs| && 0 <= j < |s.jobs| && s.jobs[i].Holds(d) && s.jobs[j].Holds(d) ==> i == j)
  }

  /** Some job of the state holds device d. */
  ghost predicate Held(s: State, d: nat) {
    exists j :: 0 <= j < |s.jobs| && s.jobs[j].Holds(d)
  }

  /** Every device that is not free is held, and jobs wait for devices that exist. */
  ghost predicate Owned(gpus: nat, s: State) {
    && (forall d: nat :: d < gpus && d !in s.free ==> Held(s, d))
    && (forall i :: 0 <= i < |s.jobs| && s.jobs[i].WantsFirst? ==> s.jobs[i].device < gpus)
    && (forall i :: 0 <= i < |s.jobs| && s.jobs[i].WantsSecond? ==> s.jobs[i].second < gpus)
  }

  /** What job i does with its devices leaves the others' alone. */
  lemma MoveKeepsExclusive(s: State, i: nat, j: Job, free: set<nat>)
    requires Exclusive(s) && i < |s.jobs|
    requires forall d :: j.Holds(d) ==> d !in free && (s.jobs[i].Holds(d) || d in s.free)
    requires forall d :: d in free && d !in s.free ==> s.jobs[i].Holds(d)
    ensures Exclusive(State(free, s.ticket, s.jobs[i := j]))
  {
  }

  lemma StepKeepsExclusive(gpus: nat, s: State, step: Step, s': State)
    requires gpus > 0 && Exclusive(s) && Next(gpus, s, step, s')
    ensures Exclusive(s')
  {
    if !step.Arrive? {
      MoveKeepsExclusive(s, step.i, s'.jobs[step.i], s'.free);
    }
  }

  lemma StepKeepsOwned(gpus: nat, s: State, step: Step, s': State)
    requires gpus > 0 && Owned(gpus, s) && Next(gpus, s, step, s')
    ensures Owned(gpus, s')
  {
    forall d: nat | d < gpus && d !in s'.free ensures Held(s', d) {
      if d in s.free {
        assert s'.jobs[step.i].Holds(d);
      } else {
        var j :| 0 <= j < |s.jobs| && s.jobs[j].Holds(d);
        assert s'.jobs[j].Holds(d);
      }
    }
  }

  ghost predicate Inv(gpus: nat, s: State) {
    Exclusive(s) && Owned(gpus, s)
  }

  lemma {:induction false} EveryRunExclusive(gpus: nat, run: seq<State>, steps: seq<Step>, k: nat)
    requires gpus > 0 && IsRun(gpus, run, steps) && k < |run|
    ensures Inv(gpus, run[k])
  {
    if k > 0 {
      EveryRunExclusive(gpus, run, steps, k - 1);
      StepKeepsExclusive(gpus, run[k - 1], steps[k - 1], run[k]);
      StepKeepsOwned(gpus, run[k - 1], steps[k - 1], run[k]);
    }
  }

  /** A job that waits for its own device never moves again, whatever the others do. */
  lemma {:induction false} WaitsForever(gpus: nat, run: seq<State>, steps: seq<Step>, from: nat, k: nat, i: nat)
    requires gpus > 0 && IsRun(gpus, run, steps) && from <= k < |run|
    requires i < |run[from].jobs| && run[from].jobs[i].WaitsForItself()
    ensures i < |run[k].jobs| && run[k].jobs[i] == run[from].jobs[i] && run[k].jobs[i].first !in run[k].free
    decreases k
  {
    EveryRunExclusive(gpus, run, steps, k);
    if k > from {
      WaitsForever(gpus, run, steps, from, k - 1, i);
      assert Next(gpus, run[k - 1], steps[k - 1], run[k]);
    }
    assert run[k].jobs[i].Holds(run[k].jobs[i].first);
  }

  // ----- Such a state is within reach for every number of devices -----

  ghost predicate Reaches(gpus: nat, s: State)
    requires gpus > 0
  {
    exists run, steps :: IsRun(gpus, run, steps) && run[|run| - 1] == s
  }

  lemma Extend(gpus: nat, s: State, step: Step, s': State)
    requires gpus > 0 && Reaches(gpus, s) && Next(gpus, s, step, s')
    ensures Reaches(gpus, s')
  {
    var run, steps :| IsRun(gpus, run, steps) && run[|run| - 1] == s;
    assert IsRun(gpus, run + [s'], steps + [step]);
  }

  /** Job 0 holds device 0, and n - 1 other jobs have drawn the tickets after it. */
  lemma {:induction false} OthersDraw(gpus: nat, n: nat) returns (s: State)
    requires 1 <= n <= gpus < TWO64
    ensures Reaches(gpus, s) && s.ticket == n && |s.jobs| == n && s.jobs[0] == HasFirst(0)
    ensures n == 1 ==> s.free == Devices(gpus) - {0}
  {
    if n == 1 {
      var s0 := State(Devices(gpus), 0, []);
      assert IsRun(gpus, [s0], []);
      var s1 := s0.(jobs := [New]);
      Extend(gpus, s0, Arrive, s1);
      var s2 := State(Devices(gpus), 1, [WantsFirst(0)]);
      Extend(gpus, s1, Draw(0), s2);
      s := State(Devices(gpus) - {0}, 1, [HasFirst(0)]);
      Extend(gpus, s2, Take(0), s);
    } else {
      var s0 := OthersDraw(gpus, n - 1);
      var s1 := s0.(jobs := s0.jobs + [New]);
      Extend(gpus, s0, Arrive, s1);
      s := s1.(ticket := n, jobs := s1.jobs[n - 1 := WantsFirst(s1.ticket % gpus)]);
      Extend(gpus, s1, Draw(n - 1), s);
    }
  }

  /** For every number of devices some run leaves a job waiting for itself. */
  lemma SelfWaitReachable(gpus: nat) returns (s: State)
    requires 0 < gpus < TWO64
    ensures Reaches(gpus, s) && |s.jobs| == gpus && s.jobs[0].WaitsForItself()
  {
    var t := OthersDraw(gpus, gpus);
    s := t.(ticket := (gpus + 1) % TWO64, jobs := t.jobs[0 := WantsSecond(0, 0)]);
    Extend(gpus, t, Draw(0), s);
  }

  /** With a single device, every second draw is of the device already held. */
  lemma {:induction false} OneDeviceAlwaysWaits(run: seq<State>, steps: seq<Step>, k: nat, i: nat)
    requires IsRun(1, run, steps) && k < |run| && i < |run[k].jobs|
    ensures run[k].jobs[i].WantsSecond? ==> run[k].jobs[i].WaitsForItself()
    ensures !run[k].jobs[i].HasBoth?
    ensures run[k].jobs[i].WantsFirst? ==> run[k].jobs[i].device == 0
    ensures run[k].jobs[i].HasFirst? ==> run[k].jobs[i].first == 0
    decreases k
  {
    if k > 0 {
      assert Next(1, run[k - 1], steps[k - 1], run[k]);
      if i < |run[k - 1].jobs| {
        OneDeviceAlwaysWaits(run, steps, k - 1, i);
        EveryRunExclusive(1, run, steps, k - 1);
        var j := run[k - 1].jobs[i];
        assert j.WantsSecond? ==> j.Holds(j.first);
      }
    }
  }

  // ----- Exactly when nothing can move -----

  /** No job can draw, take or drop. */
  ghost predicate Stuck(gpus: nat, s: State)
    requires gpus > 0
  {
    forall step, s' :: Next(gpus, s, step, s') ==> step.Arrive?
  }

  /** The device a job waits for. */
  function Wanted(j: Job): Option<nat> {
    match j
    case WantsFirst(d) => Some(d)
    case WantsSecond(_, d) => Some(d)
    case _ => None
  }

  /** The device is held by a job that itself waits for its second one. */
  ghost predicate HeldByWaiter(s: State, d: nat) {
    exists h :: 0 <= h < |s.jobs| && s.jobs[h].WantsSecond? && s.jobs[h].first == d
  }

  ghost predicate Blocked(s: State, j: Job) {
    j.Done? || (Wanted(j).Some? && HeldByWaiter(s, Wanted(j).value))
  }

  /** The move that job i can make, unless it is done or waits for a device that is not free. The second draw is not
      used: a job that has its first device drops it. */
  function Move(gpus: nat, s: State, i: nat): (m: (Step, State))
    requires gpus > 0 && i < |s.jobs| && !s.jobs[i].Done?
    requires Wanted(s.jobs[i]).Some? ==> Wanted(s.jobs[i]).value in s.free
    ensures Next(gpus, s, m.0, m.1) && !m.0.Arrive?
    ensures m.1.jobs == s.jobs[i := m.1.jobs[i]] && !m.1.jobs[i].WantsSecond?
    ensures StepsLeft(m.1.jobs[i]) == StepsLeft(s.jobs[i]) - 1
  {
    match s.jobs[i]
    case New =>
      (Draw(i), s.(ticket := (s.ticket + 1) % TWO64, jobs := s.jobs[i := WantsFirst(s.ticket % gpus)]))
    case WantsFirst(d) => (Take(i), s.(free := s.free - {d}, jobs := s.jobs[i := HasFirst(d)]))
    case HasFirst(d) => (Drop(i), s.(free := s.free + {d}, jobs := s.jobs[i := Done]))
    case WantsSecond(d, e) => (Take(i), s.(free := s.free - {e}, jobs := s.jobs[i := HasBoth(d, e)]))
    case HasBoth(d, e) => (Drop(i), s.(free := s.free + {d, e}, jobs := s.jobs[i := Done]))
  }

  function StepsLeft(j: Job): nat {
    match j
    case New => 3
    case WantsFirst(_) => 2
    case HasFirst(_) => 1
    case WantsSecond(_, _) => 2
    case HasBoth(_, _) => 1
    case Done => 0
  }

  /** A job that waits for a device that is not free is blocked, or the holder can move. */
  lemma BlockedOrMoves(gpus: nat, s: State, i: nat) returns (j: nat)
    requires gpus > 0 && Inv(gpus, s) && i < |s.jobs| && !Blocked(s, s.jobs[i])
    ensures j < |s.jobs| && !s.jobs[j].Done? && (Wanted(s.jobs[j]).Some? ==> Wanted(s.jobs[j]).value in s.free)
  {
    var w := Wanted(s.jobs[i]);
    if w.None? || w.value in s.free {
      j := i;
    } else {
      assert Held(s, w.value);
      j :| 0 <= j < |s.jobs| && s.jobs[j].Holds(w.value);
      assert !s.jobs[j].WantsSecond?;
    }
  }

  lemma BlockedCannotMove(gpus: nat, s: State, step: Step, s': State)
    requires gpus > 0 && Exclusive(s) && Next(gpus, s, step, s') && !step.Arrive?
    ensures step.i < |s.jobs| && !Blocked(s, s.jobs[step.i])
  {
    var j := s.jobs[step.i];
    if Blocked(s, j) {
      var h :| 0 <= h < |s.jobs| && s.jobs[h].WantsSecond? && s.jobs[h].first == Wanted(j).value;
      assert s.jobs[h].Holds(Wanted(j).value);
      assert false;
    }
  }

  /** At any point of any run nothing can move if and only if every job is done or waits for a device held by a job
      that waits for its second one. */
  lemma StuckExactly(gpus: nat, run: seq<State>, steps: seq<Step>, k: nat)
    requires gpus > 0 && IsRun(gpus, run, steps) && k < |run|
    ensures Stuck(gpus, run[k]) <==> forall i :: 0 <= i < |run[k].jobs| ==> Blocked(run[k], run[k].jobs[i])
  {
    var s := run[k];
    EveryRunExclusive(gpus, run, steps, k);
    if i :| 0 <= i < |s.jobs| && !Blocked(s, s.jobs[i]) {
      var j := BlockedOrMoves(gpus, s, i);
      var (step, s') := Move(gpus, s, j);
      assert Next(gpus, s, step, s') && !step.Arrive?;
    } else {
      forall step, s' | Next(gpus, s, step, s') ensures step.Arrive? {
        if !step.Arrive? {
          BlockedCannotMove(gpus, s, step, s');
        }
      }
    }
  }
}
