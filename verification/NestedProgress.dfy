/** Progress under nested device acquisition: jobs that wait for each other in a circle never move again, and
    without a circle everybody can still finish. */
module NestedProgress {
  import opened Basics
  import opened Sums
  import opened NestedDevices

  // ----- Exactly when everybody can still finish -----

  /** Membership under a name of its own, so that the solver does not walk round circles. */
  predicate Member(c: set<nat>, i: nat) {
    i in c
  }

  /** Jobs that each hold one device and wait for one that a job among them holds. */
  ghost predicate Circle(s: State, c: set<nat>) {
    c != {} && forall i :: Member(c, i) ==> InCircle(s, c, i)
  }

  ghost predicate InCircle(s: State, c: set<nat>, i: nat) {
    && i < |s.jobs| && s.jobs[i].WantsSecond?
    && exists h :: h in c && h < |s.jobs| && s.jobs[h].WantsSecond? && s.jobs[h].first == s.jobs[i].second
  }

  /** The set of these one or two jobs. */
  ghost predicate Just(c: set<nat>, i: nat, j: nat) {
    forall k :: k in c <==> k == i || k == j
  }

  lemma SelfWaitIsCircle(s: State, i: nat, c: set<nat>)
    requires i < |s.jobs| && s.jobs[i].WaitsForItself() && Just(c, i, i)
    ensures Circle(s, c)
  {
    assert i in c && InCircle(s, c, i);
  }

  /** A way to go on from s. */
  ghost predicate IsPath(gpus: nat, s: State, path: seq<State>, steps: seq<Step>)
    requires gpus > 0
  {
    && |path| == |steps| + 1 && path[0] == s
    && forall k :: 0 <= k < |steps| ==> Next(gpus, path[k], steps[k], path[k + 1])
  }

  ghost predicate AllDone(s: State) {
    forall i :: 0 <= i < |s.jobs| ==> s.jobs[i].Done?
  }

  /** Some way to go on from s ends with every job done. */
  ghost predicate CanFinish(gpus: nat, s: State)
    requires gpus > 0
  {
    exists path, steps :: IsPath(gpus, s, path, steps) && AllDone(path[|steps|])
  }

  lemma CircleJobStays(gpus: nat, s: State, step: Step, s': State, c: set<nat>, i: nat)
    requires gpus > 0 && Exclusive(s) && Next(gpus, s, step, s') && Circle(s, c) && i in c
    ensures i < |s'.jobs| && i < |s.jobs| && s'.jobs[i] == s.jobs[i]
  {
    assert InCircle(s, c, i);
    if !step.Arrive? && step.i == i {
      BlockedCannotMove(gpus, s, step, s');
    }
  }

  ghost predicate SameIn(s: State, s': State, c: set<nat>) {
    forall i :: i in c ==> i < |s.jobs| && i < |s'.jobs| && s'.jobs[i] == s.jobs[i]
  }

  lemma CircleStays(gpus: nat, s: State, step: Step, s': State, c: set<nat>)
    requires gpus > 0 && Exclusive(s) && Next(gpus, s, step, s') && Circle(s, c)
    ensures Circle(s', c) && SameIn(s, s', c)
  {
    forall i | i in c ensures InCircle(s', c, i) && i < |s.jobs| && s'.jobs[i] == s.jobs[i] {
      CircleJobStays(gpus, s, step, s', c, i);
      assert InCircle(s, c, i);
      var h :| h in c && h < |s.jobs| && s.jobs[h].WantsSecond? && s.jobs[h].first == s.jobs[i].second;
      CircleJobStays(gpus, s, step, s', c, h);
    }
  }

  lemma CircleIsItself(s: State, c: set<nat>)
    requires Circle(s, c)
    ensures SameIn(s, s, c)
  {
    forall i | i in c ensures i < |s.jobs| {
      assert InCircle(s, c, i);
    }
  }

  lemma CircleStep(gpus: nat, s: State, t: State, step: Step, u: State, c: set<nat>)
    requires gpus > 0 && Exclusive(t) && Circle(t, c) && SameIn(s, t, c) && Next(gpus, t, step, u)
    ensures Exclusive(u) && Circle(u, c) && SameIn(s, u, c)
  {
    StepKeepsExclusive(gpus, t, step, u);
    CircleStays(gpus, t, step, u, c);
  }

  /** A circle of waiting jobs stays as it is in every continuation, whatever the others do. */
  lemma {:induction false} CircleForever(
    gpus: nat, s: State, path: seq<State>, steps: seq<Step>, c: set<nat>, k: nat)
    requires gpus > 0 && Exclusive(s) && Circle(s, c) && IsPath(gpus, s, path, steps) && k < |path|
    ensures Exclusive(path[k]) && Circle(path[k], c) && SameIn(s, path[k], c)
  {
    if k == 0 {
      CircleIsItself(s, c);
    } else {
      var t, step, u := path[k - 1], steps[k - 1], path[k];
      CircleForever(gpus, s, path, steps, c, k - 1);
      assert Next(gpus, t, step, u);
      CircleStep(gpus, s, t, step, u, c);
    }
  }

  /** The jobs that wait for their second device. */
  function Waiters(jobs: seq<Job>, n: nat): (c: set<nat>)
    requires n <= |jobs|
    ensures forall i :: i in c <==> 0 <= i < n && jobs[i].WantsSecond?
  {
    if n == 0 then {}
    else if jobs[n - 1].WantsSecond? then Waiters(jobs, n - 1) + {n - 1} else Waiters(jobs, n - 1)
  }

  /** When everything is blocked and not everybody is done, the jobs that wait for a second device are a circle. */
  lemma BlockedMeansCircle(s: State, i: nat)
    requires forall j :: 0 <= j < |s.jobs| ==> Blocked(s, s.jobs[j])
    requires i < |s.jobs| && !s.jobs[i].Done?
    ensures Circle(s, Waiters(s.jobs, |s.jobs|))
  {
    var c := Waiters(s.jobs, |s.jobs|);
    assert HeldByWaiter(s, Wanted(s.jobs[i]).value);
    forall j | j in c ensures InCircle(s, c, j) {
      assert Blocked(s, s.jobs[j]);
      var h :| 0 <= h < |s.jobs| && s.jobs[h].WantsSecond? && s.jobs[h].first == s.jobs[j].second;
      assert h in c;
    }
  }

  /** A move that makes no job wait for a second device makes no circle. */
  lemma NoNewCircle(s: State, s': State, i: nat, c: set<nat>)
    requires i < |s.jobs| == |s'.jobs| && s'.jobs == s.jobs[i := s'.jobs[i]] && !s'.jobs[i].WantsSecond?
    requires Circle(s', c)
    ensures Circle(s, c)
  {
    forall j | j in c ensures InCircle(s, c, j) {
      assert InCircle(s', c, j);
    }
  }

  ghost predicate NoCircle(s: State) {
    forall c :: !Circle(s, c)
  }

  /** Without a circle some job can be moved without a second draw, and that makes no circle. */
  lemma GoodMove(gpus: nat, s: State) returns (step: Step, s': State)
    requires gpus > 0 && Inv(gpus, s) && NoCircle(s) && !AllDone(s)
    ensures Next(gpus, s, step, s') && Inv(gpus, s') && NoCircle(s')
    ensures Sum(s'.jobs, StepsLeft) < Sum(s.jobs, StepsLeft)
  {
    var i :| 0 <= i < |s.jobs| && !s.jobs[i].Done?;
    if forall j :: 0 <= j < |s.jobs| ==> Blocked(s, s.jobs[j]) {
      BlockedMeansCircle(s, i);
      assert false;
    }
    var k :| 0 <= k < |s.jobs| && !Blocked(s, s.jobs[k]);
    var j := BlockedOrMoves(gpus, s, k);
    step, s' := Move(gpus, s, j).0, Move(gpus, s, j).1;
    StepKeepsExclusive(gpus, s, step, s');
    StepKeepsOwned(gpus, s, step, s');
    forall c ensures !Circle(s', c) {
      if Circle(s', c) { NoNewCircle(s, s', j, c); }
    }
    SumUpdate(s.jobs, j, s'.jobs[j], StepsLeft);
  }

  /** Without a circle everybody can finish. */
  lemma {:induction false} NoCircleFinishes(gpus: nat, s: State) returns (path: seq<State>, steps: seq<Step>)
    requires gpus > 0 && Inv(gpus, s) && NoCircle(s)
    ensures IsPath(gpus, s, path, steps) && AllDone(path[|steps|])
    decreases Sum(s.jobs, StepsLeft)
  {
    if AllDone(s) {
      path, steps := [s], [];
    } else {
      var step, s' := GoodMove(gpus, s);
      var rest, more := NoCircleFinishes(gpus, s');
      path, steps := [s] + rest, [step] + more;
    }
  }

  /** Progress survives exactly where there is no circle: from a state of any run some way to go on finishes every
      job if and only if no jobs wait for each other in a circle. */
  lemma ProgressExactly(gpus: nat, run: seq<State>, steps: seq<Step>, k: nat)
    requires gpus > 0 && IsRun(gpus, run, steps) && k < |run|
    ensures CanFinish(gpus, run[k]) <==> NoCircle(run[k])
  {
    var s := run[k];
    EveryRunExclusive(gpus, run, steps, k);
    if c :| Circle(s, c) {
      forall path, more | IsPath(gpus, s, path, more) ensures !AllDone(path[|more|]) {
        CircleForever(gpus, s, path, more, c, |more|);
        var i :| i in c;
        assert InCircle(path[|more|], c, i);
      }
    } else {
      var path, more := NoCircleFinishes(gpus, s);
    }
  }

  lemma TwoWait(s: State, c: set<nat>)
    requires |s.jobs| >= 2 && s.jobs[0] == WantsSecond(0, 1) && s.jobs[1] == WantsSecond(1, 0) && Just(c, 0, 1)
    ensures Circle(s, c)
  {
    assert 0 in c && 1 in c;
    assert InCircle(s, c, 0) && InCircle(s, c, 1);
  }

  lemma TicketsAfter(gpus: nat)
    requires 1 < gpus < TWO64 - 1
    ensures gpus % gpus == 0 && (gpus + 1) % TWO64 == gpus + 1 && (gpus + 1) % gpus == 1
  {
    assert gpus + 1 == 1 * gpus + 1;
  }

  /** Two jobs can each wait for the other's device, with any number of devices from two on. */
  lemma MutualWaitReachable(gpus: nat) returns (s: State, c: set<nat>)
    requires 1 < gpus < TWO64 - 1
    ensures Reaches(gpus, s) && Circle(s, c) && Just(c, 0, 1)
    ensures |s.jobs| >= 2 && !s.jobs[0].WaitsForItself() && !s.jobs[1].WaitsForItself()
  {
    var t := TwoHold(gpus, gpus);
    TicketsAfter(gpus);
    var s1 := t.(ticket := gpus + 1, jobs := t.jobs[1 := WantsSecond(1, 0)]);
    Extend(gpus, t, Draw(1), s1);
    s := s1.(ticket := (s1.ticket + 1) % TWO64, jobs := s1.jobs[0 := WantsSecond(0, 1)]);
    Extend(gpus, s1, Draw(0), s);
    c := {0, 1};
    TwoWait(s, c);
  }

  /** Jobs 0 and 1 hold devices 0 and 1. */
  lemma BothHold(gpus: nat) returns (s: State)
    requires 2 <= gpus < TWO64
    ensures Reaches(gpus, s) && s.ticket == 2 && s.jobs == [HasFirst(0), HasFirst(1)]
  {
    var s0 := OthersDraw(gpus, 1);
    assert s0.jobs == [HasFirst(0)];
    var s1 := State(s0.free, 1, [HasFirst(0), New]);
    Extend(gpus, s0, Arrive, s1);
    var s2 := State(s0.free, 2, [HasFirst(0), WantsFirst(1)]);
    assert 1 % gpus == 1;
    Extend(gpus, s1, Draw(1), s2);
    s := State(s0.free - {1}, 2, [HasFirst(0), HasFirst(1)]);
    Extend(gpus, s2, Take(1), s);
  }

  /** And n - 2 other jobs have drawn the tickets after those. */
  lemma {:induction false} TwoHold(gpus: nat, n: nat) returns (s: State)
    requires 2 <= n <= gpus < TWO64
    ensures Reaches(gpus, s) && s.ticket == n && |s.jobs| == n && s.jobs[0] == HasFirst(0) && s.jobs[1] == HasFirst(1)
    decreases n
  {
    if n == 2 {
      s := BothHold(gpus);
    } else {
      var s0 := TwoHold(gpus, n - 1);
      var s1 := s0.(jobs := s0.jobs + [New]);
      Extend(gpus, s0, Arrive, s1);
      s := s1.(ticket := n, jobs := s1.jobs[n - 1 := WantsFirst(s1.ticket % gpus)]);
      Extend(gpus, s1, Draw(n - 1), s);
    }
  }
}
