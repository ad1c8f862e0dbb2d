/** How large a batch of nesting jobs may be: up to half as many jobs as devices every schedule finishes, and beyond
    that some run cannot. */
module NestedBatches {
  import opened Basics
  import opened Sums
  import opened NestedDevices
  import opened NestedProgress

  // ----- A job that waits for itself -----

  lemma SelfWaiterCannotFinish(gpus: nat, s: State, i: nat)
    requires gpus > 0 && Reaches(gpus, s) && i < |s.jobs| && s.jobs[i].WaitsForItself()
    ensures !CanFinish(gpus, s)
  {
    var run, steps :| IsRun(gpus, run, steps) && run[|run| - 1] == s;
    SelfWaitIsCircle(s, i, {i});
    ProgressExactly(gpus, run, steps, |steps|);
  }

  /** For every number of devices some run reaches a state from which no way to go on finishes every job. */
  lemma UnfinishableReachable(gpus: nat) returns (s: State)
    requires 0 < gpus < TWO64
    ensures Reaches(gpus, s) && !CanFinish(gpus, s)
  {
    s := SelfWaitReachable(gpus);
    SelfWaiterCannotFinish(gpus, s, 0);
  }

  // ----- Small batches never hang -----

  /** Tickets a job has drawn; a job that is done may have drawn two. */
  function DrawsOf(j: Job): nat {
    match j
    case New => 0
    case WantsFirst(_) => 1
    case HasFirst(_) => 1
    case _ => 2
  }

  /** The job drew device d and has not dropped it. */
  predicate Drew(j: Job, d: nat) {
    match j
    case WantsFirst(f) => f == d
    case HasFirst(f) => f == d
    case WantsSecond(f, e) => f == d || e == d
    case HasBoth(f, e) => f == d || e == d
    case _ => false
  }

  /** No device was drawn twice among those not dropped, and all were drawn before `ticket`. */
  ghost predicate DrawnOnce(jobs: seq<Job>, ticket: nat) {
    && (forall i, d: nat :: 0 <= i < |jobs| && Drew(jobs[i], d) ==> d < ticket)
    && (forall i, j, d: nat ::
          0 <= i < |jobs| && 0 <= j < |jobs| && Drew(jobs[i], d) && Drew(jobs[j], d) ==> i == j)
    && (forall i :: 0 <= i < |jobs| && jobs[i].WantsSecond? ==> jobs[i].first != jobs[i].second)
  }

  /** Every ticket so far was for a device of its own. */
  ghost predicate AllDistinct(s: State) {
    s.ticket <= Sum(s.jobs, DrawsOf) && DrawnOnce(s.jobs, s.ticket)
  }

  /** A job that can still draw leaves a device undrawn. */
  lemma DeviceLeft(gpus: nat, s: State, i: nat)
    requires 2 * |s.jobs| <= gpus && i < |s.jobs| && DrawsOf(s.jobs[i]) < 2
    ensures Sum(s.jobs, DrawsOf) < gpus
  {
    SumUpdate(s.jobs, i, Done, DrawsOf);
    var full := s.jobs[i := Done];
    SumBounded(full, DrawsOf, 2, |full|);
  }

  lemma SmallTicket(gpus: nat, ticket: nat)
    requires ticket < gpus < TWO64
    ensures ticket % gpus == ticket && (ticket + 1) % TWO64 == ticket + 1
  {
    InModulus(ticket, gpus);
    InModulus(ticket + 1, TWO64);
  }

  /** Job i draws device `ticket`. */
  lemma DrawnOneMore(jobs: seq<Job>, ticket: nat, i: nat, j: Job)
    requires DrawnOnce(jobs, ticket) && i < |jobs|
    requires forall d: nat :: Drew(j, d) ==> d == ticket || Drew(jobs[i], d)
    requires j.WantsSecond? ==> j.first != j.second
    ensures DrawnOnce(jobs[i := j], ticket + 1)
  {
  }

  lemma DrawKeepsDistinct(gpus: nat, s: State, i: nat, s': State)
    requires gpus > 0 && AllDistinct(s) && 2 * |s.jobs| <= gpus < TWO64 && Next(gpus, s, Draw(i), s')
    ensures AllDistinct(s')
  {
    var j := s.jobs[i];
    DeviceLeft(gpus, s, i);
    SmallTicket(gpus, s.ticket);
    SumUpdate(s.jobs, i, s'.jobs[i], DrawsOf);
    assert j.HasFirst? ==> Drew(j, j.first);
    DrawnOneMore(s.jobs, s.ticket, i, s'.jobs[i]);
  }

  /** Job i becomes j without drawing. */
  lemma DrawnNoMore(jobs: seq<Job>, ticket: nat, i: nat, j: Job)
    requires DrawnOnce(jobs, ticket) && i < |jobs| && !j.WantsSecond?
    requires forall d: nat :: Drew(j, d) ==> Drew(jobs[i], d)
    ensures DrawnOnce(jobs[i := j], ticket)
  {
    var jobs' := jobs[i := j];
    forall k, d: nat | 0 <= k < |jobs'| && Drew(jobs'[k], d) ensures Drew(jobs[k], d) {
    }
  }

  lemma ArrivalKeepsDistinct(s: State)
    requires AllDistinct(s)
    ensures AllDistinct(s.(jobs := s.jobs + [New]))
  {
    var jobs' := s.jobs + [New];
    SumAppend(s.jobs, New, DrawsOf);
    forall k, d: nat | 0 <= k < |jobs'| && Drew(jobs'[k], d) ensures k < |s.jobs| && Drew(s.jobs[k], d) {
    }
  }

  lemma StepKeepsDistinct(gpus: nat, s: State, step: Step, s': State)
    requires gpus > 0 && AllDistinct(s) && 2 * |s.jobs| <= gpus < TWO64 && Next(gpus, s, step, s')
    ensures AllDistinct(s')
  {
    if step.Arrive? {
      ArrivalKeepsDistinct(s);
    } else if step.Draw? {
      DrawKeepsDistinct(gpus, s, step.i, s');
    } else {
      var i := step.i;
      var j := s'.jobs[i];
      assert s'.jobs == s.jobs[i := j] && s'.ticket == s.ticket;
      SumUpdate(s.jobs, i, j, DrawsOf);
      DrawnNoMore(s.jobs, s.ticket, i, j);
    }
  }

  lemma DistinctMeansNoCircle(s: State)
    requires AllDistinct(s)
    ensures NoCircle(s)
  {
    forall c ensures !Circle(s, c) {
      if Circle(s, c) {
        var i :| i in c;
        assert Member(c, i) && InCircle(s, c, i);
        var h :| h in c && h < |s.jobs| && s.jobs[h].WantsSecond? && s.jobs[h].first == s.jobs[i].second;
        assert Drew(s.jobs[h], s.jobs[i].second) && Drew(s.jobs[i], s.jobs[i].second);
      }
    }
  }

  /** Moves a job can still make, its second draw included. */
  function MovesLeft(j: Job): nat {
    match j
    case New => 5
    case WantsFirst(_) => 4
    case HasFirst(_) => 3
    case WantsSecond(_, _) => 2
    case HasBoth(_, _) => 1
    case Done => 0
  }

  lemma StepUsesAMove(gpus: nat, s: State, step: Step, s': State)
    requires gpus > 0 && Next(gpus, s, step, s')
    ensures Sum(s'.jobs, MovesLeft) + 1 + 6 * |s.jobs| <= Sum(s.jobs, MovesLeft) + 6 * |s'.jobs|
  {
    if step.Arrive? {
      SumAppend(s.jobs, New, MovesLeft);
    } else {
      SumUpdate(s.jobs, step.i, s'.jobs[step.i], MovesLeft);
    }
  }

  /** No schedule is longer than six steps a job. */
  lemma {:induction false} RunsAreShort(gpus: nat, run: seq<State>, steps: seq<Step>, k: nat)
    requires gpus > 0 && IsRun(gpus, run, steps) && k < |run|
    ensures k + Sum(run[k].jobs, MovesLeft) <= 6 * |run[k].jobs|
  {
    if k > 0 {
      RunsAreShort(gpus, run, steps, k - 1);
      StepUsesAMove(gpus, run[k - 1], steps[k - 1], run[k]);
    }
  }

  lemma {:induction false} SmallBatchDistinct(gpus: nat, run: seq<State>, steps: seq<Step>, k: nat)
    requires gpus > 0 && IsRun(gpus, run, steps) && k < |run| && 2 * |run[k].jobs| <= gpus < TWO64
    ensures AllDistinct(run[k])
  {
    if k > 0 {
      assert Next(gpus, run[k - 1], steps[k - 1], run[k]);
      assert |run[k - 1].jobs| <= |run[k].jobs|;
      SmallBatchDistinct(gpus, run, steps, k - 1);
      StepKeepsDistinct(gpus, run[k - 1], steps[k - 1], run[k]);
    }
  }

  /** With at most half as many jobs as devices every schedule finishes: it is at most six steps a job long, and it
      cannot go on only when every job is done. */
  lemma SmallBatchesFinish(gpus: nat, run: seq<State>, steps: seq<Step>, k: nat)
    requires gpus > 0 && IsRun(gpus, run, steps) && k < |run| && 2 * |run[k].jobs| <= gpus < TWO64
    ensures CanFinish(gpus, run[k])
    ensures Stuck(gpus, run[k]) <==> AllDone(run[k])
    ensures k <= 6 * |run[k].jobs|
  {
    var s := run[k];
    SmallBatchDistinct(gpus, run, steps, k);
    DistinctMeansNoCircle(s);
    ProgressExactly(gpus, run, steps, k);
    StuckExactly(gpus, run, steps, k);
    RunsAreShort(gpus, run, steps, k);
    if i :| 0 <= i < |s.jobs| && !s.jobs[i].Done? {
      if forall j :: 0 <= j < |s.jobs| ==> Blocked(s, s.jobs[j]) { BlockedMeansCircle(s, i); }
    }
  }

  // ----- Larger batches can hang -----

  /** A new job arrives, draws device d, takes it and draws the next one. */
  lemma ArriveAndDrawTwice(gpus: nat, t: State, d: nat) returns (s: State)
    requires 0 < gpus < TWO64 && Reaches(gpus, t) && t.ticket == d && d + 1 < gpus && d in t.free
    ensures Reaches(gpus, s) && s.ticket == d + 2
    ensures s.jobs == t.jobs + [WantsSecond(d, d + 1)] && s.free == t.free - {d}
  {
    var n := |t.jobs|;
    SmallTicket(gpus, d);
    SmallTicket(gpus, d + 1);
    var s1 := t.(jobs := t.jobs + [New]);
    Extend(gpus, t, Arrive, s1);
    var s2 := s1.(ticket := d + 1, jobs := t.jobs + [WantsFirst(d)]);
    assert s2.jobs == s1.jobs[n := WantsFirst(d)];
    Extend(gpus, s1, Draw(n), s2);
    var s3 := s2.(free := t.free - {d}, jobs := t.jobs + [HasFirst(d)]);
    assert s3.jobs == s2.jobs[n := HasFirst(d)];
    Extend(gpus, s2, Take(n), s3);
    s := s3.(ticket := d + 2, jobs := t.jobs + [WantsSecond(d, d + 1)]);
    assert s.jobs == s3.jobs[n := WantsSecond(d, d + 1)];
    Extend(gpus, s3, Draw(n), s);
  }

  /** Job 0 holds device 0, and n other jobs have each drawn two tickets. */
  lemma {:induction false} OthersDrawTwice(gpus: nat, n: nat) returns (s: State)
    requires 2 * n + 1 <= gpus < TWO64
    ensures Reaches(gpus, s) && s.ticket == 2 * n + 1 && |s.jobs| == n + 1 && s.jobs[0] == HasFirst(0)
    ensures forall d :: 2 * n + 1 <= d < gpus ==> d in s.free
  {
    if n == 0 {
      s := OthersDraw(gpus, 1);
    } else {
      var t := OthersDrawTwice(gpus, n - 1);
      s := ArriveAndDrawTwice(gpus, t, t.ticket);
    }
  }

  /** One more job arrives and draws the last device. */
  lemma ArriveAndDraw(gpus: nat, t: State) returns (s: State)
    requires 0 < gpus < TWO64 && Reaches(gpus, t) && t.ticket + 1 == gpus
    ensures Reaches(gpus, s) && s.ticket == gpus && s.jobs == t.jobs + [WantsFirst(t.ticket)]
  {
    SmallTicket(gpus, t.ticket);
    var s1 := t.(jobs := t.jobs + [New]);
    Extend(gpus, t, Arrive, s1);
    s := s1.(ticket := gpus, jobs := t.jobs + [WantsFirst(t.ticket)]);
    assert s.jobs == s1.jobs[|t.jobs| := WantsFirst(t.ticket)];
    Extend(gpus, s1, Draw(|t.jobs|), s);
  }

  /** Job 0 holds device 0, and the others have drawn every other device once. */
  lemma OneRound(gpus: nat) returns (s: State)
    requires 0 < gpus < TWO64
    ensures Reaches(gpus, s) && s.ticket == gpus && 0 < |s.jobs| && s.jobs[0] == HasFirst(0)
    ensures 2 * |s.jobs| <= gpus + 2
  {
    var n := (gpus - 1) / 2;
    assert gpus == 2 * n + 1 || gpus == 2 * n + 2;
    s := OthersDrawTwice(gpus, n);
    if s.ticket < gpus {
      s := ArriveAndDraw(gpus, s);
    }
  }

  /** With more jobs than half the devices some run cannot finish. */
  lemma LargeBatchHangs(gpus: nat, k: nat) returns (s: State)
    requires 0 < gpus < TWO64 && 2 * k > gpus
    ensures Reaches(gpus, s) && |s.jobs| <= k && !CanFinish(gpus, s)
  {
    var t := OneRound(gpus);
    assert gpus % gpus == 0;
    s := t.(ticket := (gpus + 1) % TWO64, jobs := t.jobs[0 := WantsSecond(0, 0)]);
    Extend(gpus, t, Draw(0), s);
    SelfWaiterCannotFinish(gpus, s, 0);
  }

  /** Whatever up to k jobs do, they can finish, if and only if there are two devices for each. */
  lemma BatchSizeExactly(gpus: nat, k: nat)
    requires 0 < gpus < TWO64
    ensures (forall s :: Reaches(gpus, s) && |s.jobs| <= k ==> CanFinish(gpus, s)) <==> 2 * k <= gpus
  {
    if 2 * k <= gpus {
      forall s | Reaches(gpus, s) && |s.jobs| <= k ensures CanFinish(gpus, s) {
        var run, steps :| IsRun(gpus, run, steps) && run[|run| - 1] == s;
        SmallBatchesFinish(gpus, run, steps, |steps|);
      }
    } else {
      var s := LargeBatchHangs(gpus, k);
    }
  }
}
