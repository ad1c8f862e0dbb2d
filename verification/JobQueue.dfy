/** The priority queue of jobs: scoring, admission and removal. */
module JobQueue {
  import opened Basics

  datatype QueuedJob = QueuedJob(requestId: nat, tip: nat, expiresAt: nat, estimatedCycles: Option<nat>,
    programCached: bool)

  datatype JobScore = JobScore(tipScore: nat, urgencyBoost: nat, cacheBonus: nat, complexityPenalty: nat)

  /** A queued job with the total it was given when it was pushed; the heap orders by it. */
  datatype ScoredJob = ScoredJob(job: QueuedJob, total: int)

  const WEI_PER_POINT: nat := 1_000_000_000_000_000

  /** A tip too large for 64 bits saturates. */
  function TipScore(tip: nat): nat {
    var points := tip / WEI_PER_POINT;
    if points < TWO64 then points else TWO64 - 1
  }

  function Score(job: QueuedJob, now: nat): (s: JobScore)
    ensures s.tipScore == TipScore(job.tip) < TWO64
    ensures s.urgencyBoost <= 100 && s.cacheBonus <= 50
  {
    var remaining := if job.expiresAt <= now then 0 else job.expiresAt - now;
    JobScore(
      TipScore(job.tip),
      if remaining < 600 then 100 - remaining / 6 else 0,
      if job.programCached then 50 else 0,
      match job.estimatedCycles case Some(c) => c / 10_000_000 case None => 0)
  }

  /** The parts of a score: a point per thousandth of a token of tip, up to what 64 bits hold; up to a hundred
      points in the last ten minutes, one less for every six seconds left; fifty for a cached program; and one point
      off for every ten million cycles estimated. */
  lemma ScoreMeans(job: QueuedJob, now: nat)
    ensures var s := Score(job, now);
            && (job.tip < 1_000_000_000_000_000 * TWO64 ==>
                1_000_000_000_000_000 * s.tipScore <= job.tip < 1_000_000_000_000_000 * (s.tipScore + 1))
            && (job.tip >= 1_000_000_000_000_000 * TWO64 ==> s.tipScore == TWO64 - 1)
            && (job.expiresAt <= now ==> s.urgencyBoost == 100)
            && (now < job.expiresAt < now + 600 ==>
                6 * (100 - s.urgencyBoost) <= job.expiresAt - now < 6 * (101 - s.urgencyBoost))
            && (job.expiresAt >= now + 600 ==> s.urgencyBoost == 0)
            && (s.cacheBonus == if job.programCached then 50 else 0)
            && (job.estimatedCycles.None? ==> s.complexityPenalty == 0)
            && (job.estimatedCycles.Some? ==>
                10_000_000 * s.complexityPenalty <= job.estimatedCycles.value < 10_000_000 * (s.complexityPenalty + 1))
  {
  }

  /** `as i64` reinterprets 64 bits as signed; so does wrapping arithmetic. */
  function AsI64(n: int): int {
    var m := n % TWO64;
    if m < TWO63 then m else m - TWO64
  }

  /** The total as the machine computes it. */
  function Total(s: JobScore): int {
    AsI64(AsI64((s.tipScore + s.urgencyBoost + s.cacheBonus) % TWO64) - AsI64(s.complexityPenalty))
  }

  /** Until something overflows the total is the sum of the first three parts less the last. */
  lemma TotalMeans(s: JobScore)
    requires s.tipScore + s.urgencyBoost + s.cacheBonus < TWO63 && s.complexityPenalty < TWO63
    requires s.tipScore + s.urgencyBoost + s.cacheBonus - s.complexityPenalty >= -TWO63
    ensures Total(s) == s.tipScore + s.urgencyBoost + s.cacheBonus - s.complexityPenalty
  {
  }

  /** The machine total of a job scored at a given time. */
  function Rank(job: QueuedJob, now: nat): int {
    Total(Score(job, now))
  }

  /** The total as meant. */
  function ExactTotal(s: JobScore): int {
    s.tipScore + s.urgencyBoost + s.cacheBonus - s.complexityPenalty
  }

  /** The scores that jobs get: a 64-bit cycle estimate bounds the penalty. */
  predicate Possible(s: JobScore) {
    s.tipScore < TWO64 && s.urgencyBoost <= 100 && s.cacheBonus <= 50 && s.complexityPenalty <= TWO64 / 10_000_000
  }

  /** No step of the computation overflows: the sum, its reinterpretation as signed, the difference. */
  predicate StepsExact(s: JobScore) {
    var sum := s.tipScore + s.urgencyBoost + s.cacheBonus;
    sum < TWO64 && AsI64(sum) == sum && AsI64(s.complexityPenalty) == s.complexityPenalty &&
        -TWO63 <= sum - s.complexityPenalty < TWO63
  }

  /** Overflow-free exactly when the positive part fits a signed 64-bit number; wrapping makes the result right a
      little further, exactly when the intended total fits. */
  lemma TotalExact(s: JobScore)
    requires Possible(s)
    ensures StepsExact(s) <==> s.tipScore + s.urgencyBoost + s.cacheBonus < TWO63
    ensures Total(s) == ExactTotal(s) <==> ExactTotal(s) < TWO63
  {
    assert TWO64 / 10_000_000 < 2_000_000_000_000;
  }

  /** Up to tip scores of 2^63 - 151 no total overflows, and a higher tip never lowers the total. */
  lemma TotalMonotoneInTip(s: JobScore, t: JobScore)
    requires Possible(s) && Possible(t) && t == s.(tipScore := t.tipScore) && s.tipScore <= t.tipScore <= TWO63 - 151
    ensures StepsExact(s) && StepsExact(t) && ExactTotal(s) == Total(s) <= Total(t) == ExactTotal(t)
  {
    TotalExact(s);
    TotalExact(t);
  }

  /** The bound is tight: one more point, at full urgency and with a cached program, turns the total negative. */
  lemma TotalOverflows()
    ensures Total(JobScore(TWO63 - 150, 100, 50, 0)) < 0
  {
  }

  // ----- The queue -----

  /** A job is admissible if it pays enough and has not expired. */
  predicate Admissible(job: QueuedJob, minTip: nat, now: nat) {
    job.tip >= minTip && job.expiresAt > now
  }

  predicate Maximal(heap: multiset<ScoredJob>, x: ScoredJob) {
    x in heap && forall y :: y in heap ==> y.total <= x.total
  }

  lemma {:induction false} SomeMaximal(heap: multiset<ScoredJob>) returns (x: ScoredJob)
    requires heap != multiset{}
    ensures Maximal(heap, x)
    decreases |heap|
  {
    var y :| y in heap;
    if heap == multiset{y} {
      x := y;
    } else {
      var rest := heap - multiset{y};
      assert heap == multiset{y} + rest;
      var z := SomeMaximal(rest);
      x := if z.total >= y.total then z else y;
      forall w | w in heap ensures w.total <= x.total {
        assert w == y || w in rest;
      }
    }
  }

  function Ids(heap: multiset<ScoredJob>): set<nat> {
    set x | x in heap :: x.job.requestId
  }

  /** One entry per request. */
  ghost predicate OnePerRequest(heap: multiset<ScoredJob>) {
    && (forall x :: x in heap ==> heap[x] == 1)
    && (forall x, y :: x in heap && y in heap && x.job.requestId == y.job.requestId ==> x == y)
  }

  /** How an accepted job left the queue. */
  datatype Departure = Popped(job: ScoredJob) | Displaced(job: ScoredJob) | Expired(job: ScoredJob)

  ghost function Gone(left: seq<Departure>): multiset<ScoredJob> {
    if left == [] then multiset{} else Gone(left[..|left| - 1]) + multiset{left[|left| - 1].job}
  }

  lemma GoneOneMore(left: seq<Departure>, d: Departure)
    ensures Gone(left + [d]) == Gone(left) + multiset{d.job}
  {
    assert (left + [d])[..|left|] == left;
  }

  lemma RemovalKeepsIds(heap: multiset<ScoredJob>, x: ScoredJob)
    requires OnePerRequest(heap) && x in heap
    ensures OnePerRequest(heap - multiset{x}) && Ids(heap - multiset{x}) == Ids(heap) - {x.job.requestId}
  {
    var rest := heap - multiset{x};
    assert forall y :: y in rest <==> y in heap && y != x;
  }

  lemma AdditionKeepsIds(heap: multiset<ScoredJob>, x: ScoredJob)
    requires OnePerRequest(heap) && x.job.requestId !in Ids(heap)
    ensures OnePerRequest(heap + multiset{x}) && Ids(heap + multiset{x}) == Ids(heap) + {x.job.requestId}
  {
    assert x !in heap;
    assert forall y :: y in heap + multiset{x} <==> y in heap || y == x;
  }

  function Bound(maxSize: nat): nat {
    if maxSize == 0 then 1 else maxSize
  }

  class Queue {
    const maxSize: nat
    const minTip: nat
    /** The binary heap as a bag: which of several maximal elements is on top is left open. */
    var heap: multiset<ScoredJob>
    var seen: set<nat>
    /** Every job ever accepted, and the departures so far. */
    ghost var accepted: multiset<ScoredJob>
    ghost var left: seq<Departure>

    /** The seen set is exactly the queued ids, the size is bounded, and every accepted job is either queued or
        gone, once. */
    ghost predicate Valid()
      reads this
    {
      && seen == Ids(heap) && OnePerRequest(heap)
      && |heap| <= Bound(maxSize)
      && accepted == heap + Gone(left)
    }

    constructor (maxSize: nat, minTip: nat)
      ensures Valid() && this.maxSize == maxSize && this.minTip == minTip && heap == accepted == multiset{} &&
                left == []
    {
      this.maxSize, this.minTip := maxSize, minTip;
      heap, seen, accepted, left := multiset{}, {}, multiset{}, [];
    }

    /** `peek` and `pop` of the heap: some maximal element. */
    method Peek() returns (top: ScoredJob)
      requires heap != multiset{}
      ensures Maximal(heap, top)
    {
      ghost var x := SomeMaximal(heap);
      top :| Maximal(heap, top);
    }

    method Remove(x: ScoredJob, ghost d: Departure)
      requires Valid() && x in heap && d.job == x
      modifies this`heap, this`seen, this`left
      ensures Valid() && heap == old(heap) - multiset{x} && left == old(left) + [d] && seen <= old(seen)
    {
      RemovalKeepsIds(heap, x);
      GoneOneMore(left, d);
      assert heap == (heap - multiset{x}) + multiset{x};
      heap := heap - multiset{x};
      seen := seen - {x.job.requestId};
      left := left + [d];
    }

    /** The clock is read up to three times. A full queue admits only a job that beats its current maximum, and then
        loses exactly that maximum. */
    method Push(job: QueuedJob, now: nat, compareAt: nat, scoreAt: nat)
      returns (added: bool, ghost displaced: Option<ScoredJob>)
      requires Valid()
      modifies this`heap, this`seen, this`accepted, this`left
      ensures Valid()
      ensures added <==>
              job.requestId !in Ids(old(heap)) && Admissible(job, minTip, now) && Beats(old(heap), Rank(job, compareAt))
      ensures Pushed(added, displaced, old(heap), ScoredJob(job, Rank(job, scoreAt)), heap)
      ensures accepted == if added then old(accepted) + multiset{ScoredJob(job, Rank(job, scoreAt))} else old(accepted)
      ensures left == if displaced.Some? then old(left) + [Displaced(displaced.value)] else old(left)
      ensures added <==>
              && (forall y :: y in old(heap) ==> y.job.requestId != job.requestId)
              && job.tip >= minTip && job.expiresAt > now
              && (|old(heap)| >= maxSize ==> forall y :: y in old(heap) ==> y.total < Rank(job, compareAt))
      ensures !added ==> heap == old(heap)
      ensures added && |old(heap)| < maxSize ==> heap == old(heap) + multiset{ScoredJob(job, Rank(job, scoreAt))}
      ensures added && |old(heap)| >= maxSize && old(heap) != multiset{} ==>
                exists d :: d in old(heap) && (forall y :: y in old(heap) ==> y.total <= d.total) &&
                            heap == old(heap) - multiset{d} + multiset{ScoredJob(job, Rank(job, scoreAt))}
    {
      var newTotal, total := Rank(job, compareAt), Rank(job, scoreAt);
      added, displaced := Admit(job, now, newTotal, total);
    }

    /** There is room, or the heap is empty, or the newcomer beats every queued job. */
    ghost predicate Beats(heap: multiset<ScoredJob>, total: int) {
      |heap| >= maxSize ==> forall y :: y in heap ==> y.total < total
    }

    /** How a push changes the heap. */
    ghost predicate Pushed(added: bool, displaced: Option<ScoredJob>, before: multiset<ScoredJob>, x: ScoredJob,
        after: multiset<ScoredJob>)
    {
      match displaced
      case None => after == (if added then before + multiset{x} else before) &&
          (added ==> |before| < maxSize || before == multiset{})
      case Some(d) => added && |before| >= maxSize && Maximal(before, d) && after == before - multiset{d} + multiset{x}
    }

    method Admit(job: QueuedJob, now: nat, newTotal: int, total: int)
      returns (added: bool, ghost displaced: Option<ScoredJob>)
      requires Valid()
      modifies this`heap, this`seen, this`accepted, this`left
      ensures Valid()
      ensures added <==> job.requestId !in Ids(old(heap)) && Admissible(job, minTip, now) && Beats(old(heap), newTotal)
      ensures Pushed(added, displaced, old(heap), ScoredJob(job, total), heap)
      ensures accepted == if added then old(accepted) + multiset{ScoredJob(job, total)} else old(accepted)
      ensures left == if displaced.Some? then old(left) + [Displaced(displaced.value)] else old(left)
    {
      if job.requestId in seen || !Admissible(job, minTip, now) { return false, None; }
      added, displaced := MakeRoom(newTotal);
      if added { Add(ScoredJob(job, total)); }
    }

    /** At capacity the current maximum gives way to a newcomer that beats it. */
    method MakeRoom(newTotal: int) returns (room: bool, ghost displaced: Option<ScoredJob>)
      requires Valid()
      modifies this`heap, this`seen, this`left
      ensures Valid() && room == Beats(old(heap), newTotal) && (room ==> |heap| < Bound(maxSize))
      ensures displaced.None? ==>
              heap == old(heap) && left == old(left) && (room ==> |heap| < maxSize || heap == multiset{})
      ensures displaced.Some? ==> room && |old(heap)| >= maxSize && Maximal(old(heap), displaced.value)
                                  && heap == old(heap) - multiset{displaced.value}
                                  && left == old(left) + [Displaced(displaced.value)]
      ensures seen <= old(seen)
    {
      if |heap| < maxSize || heap == multiset{} { return true, None; }
      var worst := Peek();
      if newTotal <= worst.total { return false, None; }
      Remove(worst, Displaced(worst));
      return true, Some(worst);
    }

    method Add(x: ScoredJob)
      requires Valid() && x.job.requestId !in seen && |heap| < Bound(maxSize)
      modifies this`heap, this`seen, this`accepted
      ensures Valid() && heap == old(heap) + multiset{x} && accepted == old(accepted) + multiset{x}
    {
      AdditionKeepsIds(heap, x);
      heap := heap + multiset{x};
      seen := seen + {x.job.requestId};
      accepted := accepted + multiset{x};
    }

    /** Skips expired jobs, reading the clock once per job. The job returned has the greatest score of all jobs not
        expired when it is returned, and every job skipped had expired when it was looked at. */
    method Pop(clock: nat -> nat) returns (r: Option<ScoredJob>, ghost skipped: seq<Departure>)
      requires Valid() && forall i, j :: i <= j ==> clock(i) <= clock(j)
      modifies this`heap, this`seen, this`left
      ensures Valid() && accepted == old(accepted)
      ensures r.Some? ==> TakesBest(old(heap), r.value, heap, clock(|skipped|))
      ensures r.Some? ==> r.value in old(heap) && r.value.job.expiresAt > clock(|skipped|) &&
                          forall y :: y in old(heap) && y.job.expiresAt > clock(|skipped|) ==> y.total <= r.value.total
      ensures r.None? ==> heap == multiset{} && |skipped| == |old(heap)|
      ensures left == old(left) + skipped + (if r.Some? then [Popped(r.value)] else []) && ExpiredInTurn(skipped, clock)
    {
      r, skipped := PopUnexpired(clock);
    }

    /** The loop. */
    method PopUnexpired(clock: nat -> nat) returns (r: Option<ScoredJob>, ghost skipped: seq<Departure>)
      requires Valid() && forall i, j :: i <= j ==> clock(i) <= clock(j)
      modifies this`heap, this`seen, this`left
      ensures Valid() && accepted == old(accepted)
      ensures r.Some? ==> TakesBest(old(heap), r.value, heap, clock(|skipped|))
      ensures r.None? ==> heap == multiset{} && |skipped| == |old(heap)|
      ensures left == old(left) + skipped + (if r.Some? then [Popped(r.value)] else []) && ExpiredInTurn(skipped, clock)
    {
      skipped := [];
      var ticks := 0;
      while heap != multiset{}
        invariant Valid() && ticks == |skipped| && |heap| + ticks == |old(heap)|
        invariant Skipped(old(heap), heap, clock(ticks))
        invariant left == old(left) + skipped && ExpiredInTurn(skipped, clock)
        decreases |heap|
      {
        var now := clock(ticks);
        ghost var before := heap;
        var top := PopTop(now);
        SkipOne(old(heap), before, now, clock(ticks + 1), top);
        if top.job.expiresAt > now { return Some(top), skipped; }
        AppendExpired(old(left), skipped, top, clock);
        skipped := skipped + [Expired(top)];
        ticks := ticks + 1;
      }
      return None, skipped;
    }

    /** One turn of the loop: the maximum leaves the heap, as the result or as expired. */
    method PopTop(now: nat) returns (top: ScoredJob)
      requires Valid() && heap != multiset{}
      modifies this`heap, this`seen, this`left
      ensures Valid() && Maximal(old(heap), top) && heap == old(heap) - multiset{top} && |heap| < |old(heap)|
      ensures left == old(left) + [if top.job.expiresAt > now then Popped(top) else Expired(top)]
    {
      top := Peek();
      Remove(top, if top.job.expiresAt > now then Popped(top) else Expired(top));
    }
  }

  /** x is unexpired, no other unexpired job scores higher, and all the others that are unexpired stay. */
  ghost predicate TakesBest(before: multiset<ScoredJob>, x: ScoredJob, after: multiset<ScoredJob>, at: nat) {
    && x in before && x.job.expiresAt > at && after <= before
    && forall y :: y in before && y.job.expiresAt > at ==> y.total <= x.total && (y != x ==> y in after)
  }

  ghost predicate ExpiredInTurn(ds: seq<Departure>, clock: nat -> nat) {
    forall i :: 0 <= i < |ds| ==> ds[i].Expired? && ds[i].job.job.expiresAt <= clock(i)
  }

  lemma AppendExpired(start: seq<Departure>, skipped: seq<Departure>, x: ScoredJob, clock: nat -> nat)
    requires ExpiredInTurn(skipped, clock) && x.job.expiresAt <= clock(|skipped|)
    ensures start + skipped + [Expired(x)] == start + (skipped + [Expired(x)])
    ensures ExpiredInTurn(skipped + [Expired(x)], clock)
  {
  }

  /** Everything missing from the heap had expired. */
  ghost predicate Skipped(before: multiset<ScoredJob>, heap: multiset<ScoredJob>, at: nat) {
    heap <= before && forall y :: y in before && y.job.expiresAt > at ==> y in heap
  }

  lemma SkipOne(start: multiset<ScoredJob>, heap: multiset<ScoredJob>, now: nat, later: nat, top: ScoredJob)
    requires Skipped(start, heap, now) && Maximal(heap, top) && now <= later
    ensures top.job.expiresAt <= now ==> Skipped(start, heap - multiset{top}, later)
    ensures top.job.expiresAt > now ==> TakesBest(start, top, heap - multiset{top}, now)
  {
  }
}
