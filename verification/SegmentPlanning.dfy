/** The two planners of a proof: the strategy chosen from cycles and memory, and the segment engine's own limits. */
module SegmentPlanning {
  import opened Basics

  // ----- Segment arithmetic -----

  function Pow2(n: nat): (p: nat)
    ensures p >= 1
  {
    if n == 0 then 1 else 2 * Pow2(n - 1)
  }

  function OptimalPo2(cycles: nat): nat {
    if cycles <= 10_000_000 then 21
    else if cycles <= 50_000_000 then 20
    else if cycles <= 200_000_000 then 19
    else 18
  }

  function EstimateSegments(cycles: nat, po2: nat): nat {
    (cycles + Pow2(po2) - 1) / Pow2(po2)
  }

  /** The size of a segment by the cycles of the program: the longer the program, the smaller. */
  lemma OptimalPo2Means(cycles: nat)
    ensures cycles <= 10_000_000 <==> OptimalPo2(cycles) == 21
    ensures 10_000_000 < cycles <= 50_000_000 <==> OptimalPo2(cycles) == 20
    ensures 50_000_000 < cycles <= 200_000_000 <==> OptimalPo2(cycles) == 19
    ensures 200_000_000 < cycles <==> OptimalPo2(cycles) == 18
  {
  }

  lemma OneLess(m: nat, n: nat, size: nat)
    ensures m < n ==> m * size + size <= n * size
  {
    if m < n { assert (m + 1) * size <= n * size; }
  }

  lemma CeilingIsLeast(cycles: nat, size: nat)
    requires size >= 1
    ensures var n := (cycles + size - 1) / size; n * size >= cycles && forall m: nat :: m * size >= cycles ==> n <= m
  {
    var n := (cycles + size - 1) / size;
    assert cycles + size - 1 == n * size + (cycles + size - 1) % size;
    forall m: nat | m * size >= cycles ensures n <= m {
      OneLess(m, n, size);
    }
  }

  /** The estimate is the least number of segments of 2^po2 cycles that covers all cycles. */
  lemma EstimateIsLeast(cycles: nat, po2: nat)
    ensures EstimateSegments(cycles, po2) * Pow2(po2) >= cycles
    ensures forall m: nat :: m * Pow2(po2) >= cycles ==> EstimateSegments(cycles, po2) <= m
  {
    CeilingIsLeast(cycles, Pow2(po2));
  }

  lemma Pow2Values()
    ensures Pow2(18) == 262_144 && Pow2(19) == 524_288 && Pow2(20) == 1_048_576 && Pow2(21) == 2_097_152
  {
    assert Pow2(9) == 512;
    assert Pow2(18) == 2 * 2 * 2 * Pow2(15);
  }

  /** At least one thread, at most 16, no more than segments, and one processor left free. */
  function RecommendedThreads(segments: nat, processors: Option<nat>): (r: nat)
    ensures 1 <= r <= 16 && r <= (if segments == 0 then 1 else segments)
    ensures processors.Some? && processors.value >= 2 ==> r < processors.value
    ensures r == 16 || r == segments || (segments == 0 && r == 1) ||
            (processors.Some? && (r + 1 == processors.value || (r == 1 && processors.value <= 1))) ||
            (processors.None? && r == 3)
    ensures processors.None? ==> r <= 3
    ensures processors.Some? && processors.value <= 1 ==> r == 1
  {
    var cpus := match processors case Some(n) => n case None => 4;
    var available := if cpus <= 2 then 1 else cpus - 1;
    var wanted := if segments == 0 then 1 else segments;
    var r := if wanted < available then wanted else available;
    if r < 16 then r else 16
  }

  // ----- The segment engine -----

  datatype EngineConfig = EngineConfig(po2: Option<nat>, threads: nat, cacheExecutions: bool, maxCycles: nat,
    maxSegments: nat, remoteThreshold: nat)

  const DEFAULT_ENGINE: EngineConfig := EngineConfig(None, 0, true, 1_000_000_000, 4000, 100_000_000)

  datatype Plan = Plan(cycles: nat, po2: nat, threads: nat)

  datatype EngineError = ExecutionFailed | TooManyCycles | TooManySegments | ProvingFailed

  datatype Proof = Remote(cycles: nat) | Local(cycles: nat, segments: nat, po2: nat, threads: nat)

  predicate WithinLimits(cfg: EngineConfig, cycles: nat) {
    && cycles <= cfg.maxCycles
    && EstimateSegments(cycles, if cfg.po2.Some? then cfg.po2.value else OptimalPo2(cycles)) <= cfg.maxSegments
  }

  class SegmentProver {
    const config: EngineConfig
    /** Plans by program and input; a program's execution always takes the same cycles. */
    var planCache: map<int, Plan>
    ghost const cyclesOf: int -> nat

    /** Only plans within the cycle limit are kept, and they are the plans of their programs. */
    ghost predicate Valid()
      reads this
    {
      forall k :: k in planCache ==>
        planCache[k].cycles == cyclesOf(k) <= config.maxCycles && planCache[k].po2 == OptimalPo2(cyclesOf(k))
    }

    constructor (config: EngineConfig, ghost cyclesOf: int -> nat)
      ensures Valid() && this.config == config && this.cyclesOf == cyclesOf && planCache == map[]
    {
      this.config, this.cyclesOf := config, cyclesOf;
      planCache := map[];
    }

    /** The cycles can be told: the program executes, or its plan is cached. */
    predicate Known(key: int, execution: Option<nat>)
      reads this
    {
      execution.Some? || (config.cacheExecutions && key in planCache)
    }

    /** The cycle limit is checked on every fresh execution, and a cached plan has passed it before. */
    method Analyze(key: int, execution: Option<nat>, segments: nat, processors: Option<nat>)
      returns (r: Result<Plan, EngineError>)
      requires Valid() && (execution.Some? ==> execution.value == cyclesOf(key))
      modifies this
      ensures Valid()
      ensures r.Ok? <==> old(Known(key, execution)) && cyclesOf(key) <= config.maxCycles
      ensures r.Ok? ==> r.value.cycles == cyclesOf(key) && r.value.po2 == OptimalPo2(cyclesOf(key))
      ensures r.Err? ==> r.error == if old(Known(key, execution)) then TooManyCycles else ExecutionFailed
      ensures r.Ok? && config.cacheExecutions ==> key in planCache && planCache[key] == r.value
      ensures OnlyPlanChanges(old(planCache), planCache, key)
    {
      if config.cacheExecutions && key in planCache { return Ok(planCache[key]); }
      if execution.None? { return Err(ExecutionFailed); }
      var plan := Plan(execution.value, OptimalPo2(execution.value), RecommendedThreads(segments, processors));
      if plan.cycles > config.maxCycles { return Err(TooManyCycles); }
      if config.cacheExecutions { planCache := planCache[key := plan]; }
      return Ok(plan);
    }

    /** Every outcome has its exact condition. A program whose cycles can be told is refused for its size exactly
        when it is outside the limits, of which remote proving has only the one on cycles. */
    method ProveOptimized(
      key: int, execution: Option<nat>, segments: nat, processors: Option<nat>, remote: bool, provable: bool)
      returns (r: Result<Proof, EngineError>)
      requires Valid() && (execution.Some? ==> execution.value == cyclesOf(key))
      modifies this
      ensures Valid()
      ensures r == Err(ExecutionFailed) <==> !old(Known(key, execution))
      ensures r == Err(TooManyCycles) <==> old(Known(key, execution)) && cyclesOf(key) > config.maxCycles
      ensures r == Err(TooManySegments) <==>
              && old(Known(key, execution)) && cyclesOf(key) <= config.maxCycles
              && !(remote && cyclesOf(key) > config.remoteThreshold)
              && EstimateSegments(cyclesOf(key), if config.po2.Some? then config.po2.value
                  else OptimalPo2(cyclesOf(key)))
                 > config.maxSegments
      ensures r == Err(ProvingFailed) <==>
              old(Known(key, execution)) && Admitted(config, cyclesOf(key), remote) && !provable
      ensures r.Ok? <==> old(Known(key, execution)) && Admitted(config, cyclesOf(key), remote) && provable
      ensures r.Ok? ==>
              && r.value.cycles == cyclesOf(key) <= config.maxCycles
              && (r.value.Remote? <==> remote && cyclesOf(key) > config.remoteThreshold)
      ensures r.Ok? && r.value.Local? ==>
                && r.value.segments == EstimateSegments(cyclesOf(key), r.value.po2)
                && r.value.po2 == (if config.po2.Some? then config.po2.value else OptimalPo2(cyclesOf(key)))
                && (config.threads > 0 ==> r.value.threads == config.threads)
      ensures r.Ok? && r.value.Local? ==> key !in planCache || !config.cacheExecutions
      ensures OnlyPlanChanges(old(planCache), planCache, key)
    {
      var analyzed := Analyze(key, execution, segments, processors);
      if analyzed.Err? { return Err(analyzed.error); }
      var plan := analyzed.value;
      if plan.cycles > config.remoteThreshold && remote {
        return if provable then Ok(Remote(plan.cycles)) else Err(ProvingFailed);
      }
      var po2 := if config.po2.Some? then config.po2.value else plan.po2;
      var estimated := EstimateSegments(plan.cycles, po2);
      if estimated > config.maxSegments { return Err(TooManySegments); }
      var threads := if config.threads > 0 then config.threads else plan.threads;
      if !provable { return Err(ProvingFailed); }
      if config.cacheExecutions { planCache := planCache - {key}; }
      return Ok(Local(plan.cycles, estimated, po2, threads));
    }
  }

  /** Proving is left to a remote service. */
  predicate Offloads(cfg: EngineConfig, cycles: nat, remote: bool) {
    cycles > cfg.remoteThreshold && remote
  }

  /** Neither limit refuses the program. */
  predicate Admitted(cfg: EngineConfig, cycles: nat, remote: bool) {
    if Offloads(cfg, cycles, remote) then cycles <= cfg.maxCycles else WithinLimits(cfg, cycles)
  }

  ghost predicate OnlyPlanChanges(before: map<int, Plan>, after: map<int, Plan>, key: int) {
    forall k :: k != key ==> (k in after <==> k in before) && (k in after ==> after[k] == before[k])
  }

  // ----- The strategy -----

  datatype VmType = Risc0 | Sp1 | Jolt

  datatype Strategy = Direct | Segmented(numSegments: nat) | Continuation | TooComplex

  function SelectStrategy(segmentThreshold: nat, cycles: nat, memoryBytes: nat, vm: VmType): Strategy
    requires segmentThreshold > 0
  {
    var mb := memoryBytes / (1024 * 1024);
    if !vm.Risc0? then Direct
    else if cycles < 20_000_000 && mb < 128 then Direct
    else if cycles < 100_000_000 && mb < 256 then
      var n := cycles / segmentThreshold;
      Segmented(if n < 2 then 2 else n)
    else if cycles < 1_000_000_000 && mb < 512 then Continuation
    else TooComplex
  }

  /** Only RISC Zero programs are ever segmented, continued or refused. Of those a program is proved directly below
      20 million cycles and 128 MB, in segments below 100 million and 256 MB, with continuations below a thousand
      million and 512 MB, and is otherwise too complex; memory counts in whole megabytes. */
  lemma StrategyMeans(segmentThreshold: nat, cycles: nat, memoryBytes: nat, vm: VmType)
    requires segmentThreshold > 0
    ensures var s := SelectStrategy(segmentThreshold, cycles, memoryBytes, vm);
            var direct := cycles < 20_000_000 && memoryBytes < 128 * 1_048_576;
            var small := cycles < 100_000_000 && memoryBytes < 256 * 1_048_576;
            var feasible := cycles < 1_000_000_000 && memoryBytes < 512 * 1_048_576;
            && (s.Direct? <==> vm != Risc0 || direct)
            && (s.Segmented? <==> vm == Risc0 && small && !direct)
            && (s.Continuation? <==> vm == Risc0 && feasible && !small)
            && (s.TooComplex? <==> vm == Risc0 && !feasible)
            && (s.Segmented? ==>
                s.numSegments >= 2 &&
                (s.numSegments * segmentThreshold <= cycles < (s.numSegments + 1) * segmentThreshold ||
                 (s.numSegments == 2 && cycles < 2 * segmentThreshold)))
  {
    var n := cycles / segmentThreshold;
    assert cycles == n * segmentThreshold + cycles % segmentThreshold;
    assert (n + 1) * segmentThreshold == n * segmentThreshold + segmentThreshold;
    if n < 2 { assert n * segmentThreshold <= segmentThreshold; }
  }

  /** The engine configuration each strategy builds; the segmented one estimates the cycles back from the segments. */
  function EngineFor(s: Strategy, segmentThreshold: nat, processors: Option<nat>): EngineConfig
    requires s.Segmented? || s.Continuation?
  {
    match s
    case Segmented(n) =>
      var estimated := n * segmentThreshold % TWO64;
      var po2 := OptimalPo2(estimated);
      DEFAULT_ENGINE.(po2 := Some(po2), threads := RecommendedThreads(EstimateSegments(estimated, po2), processors),
          cacheExecutions := false)
    case Continuation => EngineConfig(Some(18), 0, false, 1_000_000_000, 4000, TWO64 - 1)
  }

  /** Both planned engines execute afresh and keep the default limits. The segmented one sizes segments and threads
      for the cycles estimated back from the segments; continuations use the smallest segments, and their engine never
      offloads. */
  lemma EngineMeans(s: Strategy, segmentThreshold: nat, processors: Option<nat>)
    requires s.Segmented? || s.Continuation?
    ensures var e := EngineFor(s, segmentThreshold, processors);
            && !e.cacheExecutions && e.maxCycles == 1_000_000_000 && e.maxSegments == 4000
            && (s.Segmented? && s.numSegments * segmentThreshold < TWO64 ==>
                var cycles := s.numSegments * segmentThreshold;
                && e.po2 == Some(OptimalPo2(cycles)) && e.remoteThreshold == 100_000_000
                && e.threads == RecommendedThreads(EstimateSegments(cycles, OptimalPo2(cycles)), processors))
            && (s.Continuation? ==> e.po2 == Some(18) && e.threads == 0 && e.remoteThreshold == 0xFFFF_FFFF_FFFF_FFFF)
  {
    if s.Segmented? && s.numSegments * segmentThreshold < TWO64 {
      InModulus(s.numSegments * segmentThreshold, TWO64);
    }
  }

  lemma SegmentsAtLeastPo2Eighteen(cycles: nat, po2: nat)
    requires cycles <= 1_000_000_000 && 18 <= po2 <= 21
    ensures EstimateSegments(cycles, po2) <= 3815
  {
    Pow2Values();
    EstimateIsLeast(cycles, po2);
    assert 3815 * Pow2(po2) >= cycles;
  }

  /** Whatever the strategy planner sends to the segment engine is within the engine's limits, for every threshold. */
  lemma StrategyFitsEngine(segmentThreshold: nat, cycles: nat, memoryBytes: nat, vm: VmType, processors: Option<nat>)
    requires segmentThreshold > 0
    ensures var s := SelectStrategy(segmentThreshold, cycles, memoryBytes, vm);
            s.Segmented? || s.Continuation? ==>
              var e := EngineFor(s, segmentThreshold, processors);
              && WithinLimits(e, cycles) && cycles <= 1_000_000_000
              && e.po2.Some? && EstimateSegments(cycles, e.po2.value) <= 4000
  {
    var s := SelectStrategy(segmentThreshold, cycles, memoryBytes, vm);
    if s.Segmented? || s.Continuation? {
      SegmentsAtLeastPo2Eighteen(cycles, EngineFor(s, segmentThreshold, processors).po2.value);
    }
  }

  lemma DivMul(a: nat, b: nat)
    requires b > 0
    ensures a / b * b <= a
  {
  }

  /** The segmented planner's multiplication stays within 64 bits exactly for thresholds below 2^63. */
  lemma NoOverflowIff(segmentThreshold: nat, cycles: nat, memoryBytes: nat)
    requires 0 < segmentThreshold < TWO64
    requires SelectStrategy(segmentThreshold, cycles, memoryBytes, Risc0).Segmented?
    ensures SelectStrategy(segmentThreshold, cycles, memoryBytes, Risc0).numSegments * segmentThreshold < TWO64 <==>
              segmentThreshold < TWO63
  {
    DivMul(cycles, segmentThreshold);
  }

  /** The default engine, which tunes the segment size itself, never refuses on segments what it accepted on cycles. */
  lemma DefaultNeverRefusesSegments(cycles: nat)
    requires cycles <= DEFAULT_ENGINE.maxCycles
    ensures WithinLimits(DEFAULT_ENGINE, cycles)
    ensures cycles <= 1_000_000_000 && EstimateSegments(cycles, OptimalPo2(cycles)) <= 4000
  {
    SegmentsAtLeastPo2Eighteen(cycles, OptimalPo2(cycles));
  }
}
