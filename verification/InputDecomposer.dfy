/** Planning a split, proving the parts and putting their journals back in order. */
module InputDecomposer {
  import opened Basics
  import opened XGBoostFormat
  import opened XGBoostDecomp

  datatype DecomposerConfig = DecomposerConfig(minInputSize: nat, maxSubJobs: nat, targetCyclesPerJob: nat,
    maxConcurrentProofs: nat)

  const DEFAULT_DECOMPOSER: DecomposerConfig := DecomposerConfig(4096, 16, 20_000_000, 4)

  /** The recursive wrapper's own limit. */
  const DEFAULT_MAX_SUB_PROOFS: nat := 16

  datatype SubProof = SubProof(index: nat, journal: seq<Byte>)

  datatype Decomposed = Decomposed(journals: seq<seq<Byte>>, mergedJournal: seq<Byte>, subJobCount: nat)

  datatype Failure = NotSuitable | OnlyOneSubJob | SubJobFailed(index: nat) | MergeFailed

  function Min(a: nat, b: nat): nat { if a < b then a else b }
  function Max(a: nat, b: nat): nat { if a < b then b else a }

  predicate CanDecompose(input: seq<Byte>) {
    DecodeInput(input).Some? && |DecodeInput(input).value.samples| > 1
  }

  /** A thousand cycles per sample and tree plus a fixed overhead, in 64 bits. */
  function EstimateCycles(x: XGBoostInput): nat {
    (|x.samples| * |x.model.trees| * 1000 + 5_000_000) % TWO64
  }

  /** The number of sub-jobs. Without an estimate the plan starts from `heuristic` (a square root in f64). */
  method PlanSplit(cfg: DecomposerConfig, itemCount: nat, estimate: Option<nat>, heuristic: nat) returns (n: nat)
    requires cfg.targetCyclesPerJob > 0
    ensures 1 <= n <= Max(1, Min(cfg.maxSubJobs, itemCount))
    ensures estimate.Some? ==>
              n == Max(1, Min(Min(Max(1, estimate.value / cfg.targetCyclesPerJob), cfg.maxSubJobs), itemCount))
    ensures n > 1 ==> n <= cfg.maxSubJobs && n <= itemCount
    ensures n > 1 && estimate.Some? ==>
              n <= estimate.value / cfg.targetCyclesPerJob &&
              (n == estimate.value / cfg.targetCyclesPerJob || n == cfg.maxSubJobs || n == itemCount)
    ensures n == 1 && estimate.Some? ==>
              estimate.value / cfg.targetCyclesPerJob < 2 || cfg.maxSubJobs < 2 || itemCount < 2
    ensures estimate.None? && cfg.maxSubJobs >= 2 && itemCount >= 2 ==>
              n >= 2 && (n == 2 || n <= heuristic) &&
                  (n == 2 || n == heuristic || n == cfg.maxSubJobs || n == itemCount)
              && (n < heuristic ==> n == cfg.maxSubJobs || n == itemCount)
  {
    if estimate.Some? {
      n := Max(1, estimate.value / cfg.targetCyclesPerJob);
    } else {
      n := Max(2, heuristic);
    }
    n := Min(Min(n, cfg.maxSubJobs), itemCount);
    n := Max(n, 1);
  }

  // ----- Ordering -----

  function InsertByIndex(x: SubProof, xs: seq<SubProof>): seq<SubProof> {
    if xs == [] || x.index <= xs[0].index then [x] + xs else [xs[0]] + InsertByIndex(x, xs[1..])
  }

  /** `sort_by_key(|r| r.index)`. */
  function SortByIndex(xs: seq<SubProof>): seq<SubProof> {
    if xs == [] then [] else InsertByIndex(xs[0], SortByIndex(xs[1..]))
  }

  predicate SortedByIndex(xs: seq<SubProof>) {
    forall i, j :: 0 <= i < j < |xs| ==> xs[i].index <= xs[j].index
  }

  lemma {:induction false} InsertBag(x: SubProof, xs: seq<SubProof>)
    ensures multiset(InsertByIndex(x, xs)) == multiset{x} + multiset(xs)
  {
    if xs != [] && x.index > xs[0].index {
      InsertBag(x, xs[1..]);
      assert xs == [xs[0]] + xs[1..];
    }
  }

  lemma {:induction false} InsertKeepsOrder(x: SubProof, xs: seq<SubProof>)
    requires SortedByIndex(xs)
    ensures SortedByIndex(InsertByIndex(x, xs))
  {
    if xs != [] && x.index > xs[0].index {
      InsertKeepsOrder(x, xs[1..]);
      InsertBag(x, xs[1..]);
      var r := InsertByIndex(x, xs[1..]);
      forall y | y in r ensures xs[0].index <= y.index {
        assert y in multiset(r);
        assert y == x || y in xs[1..];
      }
    }
  }

  lemma {:induction false} SortSorts(xs: seq<SubProof>)
    ensures SortedByIndex(SortByIndex(xs)) && multiset(SortByIndex(xs)) == multiset(xs)
    decreases |xs|
  {
    if xs != [] {
      SortSorts(xs[1..]);
      InsertKeepsOrder(xs[0], SortByIndex(xs[1..]));
      InsertBag(xs[0], SortByIndex(xs[1..]));
      assert xs == [xs[0]] + xs[1..];
    }
  }

  /** Sub-proof i of the list has index `from + i`. */
  predicate Numbered(xs: seq<SubProof>, from: nat) {
    forall i :: 0 <= i < |xs| ==> xs[i].index == from + i
  }

  lemma TailBag(xs: seq<SubProof>)
    requires xs != []
    ensures multiset(xs) - multiset{xs[0]} == multiset(xs[1..])
  {
    assert [xs[0]] + xs[1..] == xs;
  }

  lemma SameHead(xs: seq<SubProof>, ys: seq<SubProof>, from: nat)
    requires SortedByIndex(xs) && Numbered(ys, from) && multiset(xs) == multiset(ys) && ys != [] && xs != []
    ensures xs[0] == ys[0]
  {
    assert ys[0] in multiset(xs) && xs[0] in multiset(ys);
    var k :| 0 <= k < |xs| && xs[k] == ys[0];
    assert xs[0].index <= xs[k].index;
  }

  lemma {:induction false} SortedIsNumbered(xs: seq<SubProof>, ys: seq<SubProof>, from: nat)
    requires SortedByIndex(xs) && Numbered(ys, from) && multiset(xs) == multiset(ys)
    ensures xs == ys
    decreases |ys|
  {
    assert |xs| == |multiset(xs)| == |multiset(ys)| == |ys|;
    if ys != [] {
      SameHead(xs, ys, from);
      TailBag(xs);
      TailBag(ys);
      SortedIsNumbered(xs[1..], ys[1..], from + 1);
    }
  }

  /** In whatever order the sub-proofs arrive, sorting puts sub-proof i at place i. */
  lemma ArrivalOrderIsIrrelevant(arrived: seq<SubProof>, numbered: seq<SubProof>)
    requires Numbered(numbered, 0) && multiset(arrived) == multiset(numbered)
    ensures SortByIndex(arrived) == numbered
  {
    SortSorts(arrived);
    SortedIsNumbered(SortByIndex(arrived), numbered, 0);
  }

  // ----- Proving the parts -----

  /** The outcome of proving sub-job i, with its journal; proving itself is foreign. */
  type SubProver = (nat, seq<Byte>) -> Option<seq<Byte>>

  /** The handles, awaited in the order they were spawned; the first failure ends the job. */
  method ProveAll(prove: SubProver, parts: seq<seq<Byte>>) returns (r: Result<seq<SubProof>, Failure>)
    ensures r.Ok? <==> forall i :: 0 <= i < |parts| ==> prove(i, parts[i]).Some?
    ensures r.Ok? ==> |r.value| == |parts| && Numbered(r.value, 0) &&
                      forall i :: 0 <= i < |parts| ==> prove(i, parts[i]) == Some(r.value[i].journal)
    ensures r.Err? ==> r.error.SubJobFailed? && r.error.index < |parts|
                       && prove(r.error.index, parts[r.error.index]).None?
                       && forall i :: 0 <= i < r.error.index ==> prove(i, parts[i]).Some?
  {
    var subResults: seq<SubProof> := [];
    for i := 0 to |parts|
      invariant |subResults| == i && Numbered(subResults, 0)
      invariant forall j :: 0 <= j < i ==> prove(j, parts[j]) == Some(subResults[j].journal)
    {
      var outcome := prove(i, parts[i]);
      if outcome.None? { return Err(SubJobFailed(i)); }
      subResults := subResults + [SubProof(i, outcome.value)];
    }
    return Ok(subResults);
  }

  function Journals(rs: seq<SubProof>): (js: seq<seq<Byte>>)
    ensures |js| == |rs| && forall i :: 0 <= i < |rs| ==> js[i] == rs[i].journal
  {
    seq(|rs|, i requires 0 <= i < |rs| => rs[i].journal)
  }

  function PlannedCount(cfg: DecomposerConfig, x: XGBoostInput): (n: nat)
    requires cfg.targetCyclesPerJob > 0
    ensures n >= 1
  {
    Max(1, Min(Min(Max(1, EstimateCycles(x) / cfg.targetCyclesPerJob), cfg.maxSubJobs), |x.samples|))
  }

  /** The plan in samples, trees and limits: a thousand cycles for each sample and tree and five million besides,
      divided by the target and held within the limits. */
  lemma PlanMeans(cfg: DecomposerConfig, x: XGBoostInput)
    requires cfg.targetCyclesPerJob > 0
    ensures var s, t, n := |x.samples|, |x.model.trees|, PlannedCount(cfg, x);
            var q := (s * t * 1000 + 5_000_000) % TWO64 / cfg.targetCyclesPerJob;
            && (n >= 2 <==> q >= 2 && cfg.maxSubJobs >= 2 && s >= 2)
            && (n >= 2 ==> n <= q && n <= cfg.maxSubJobs && n <= s && (n == q || n == cfg.maxSubJobs || n == s))
  {
  }

  lemma PlanInRange(s: nat, t: nat, target: nat)
    requires target > 0 && s * t * 1000 + 5_000_000 < TWO64
    ensures (s * t * 1000 + 5_000_000) % TWO64 / target == (s * t * 1000 + 5_000_000) / target
  {
    InModulus(s * t * 1000 + 5_000_000, TWO64);
  }

  /** The input is large and decomposable enough to be planned into at least two parts. */
  ghost predicate Worthwhile(cfg: DecomposerConfig, input: seq<Byte>)
    requires cfg.targetCyclesPerJob > 0
  {
    |input| >= cfg.minInputSize && CanDecompose(input) && PlannedCount(cfg, DecodeInput(input).value) >= 2
  }

  /** Journal i is that of part i, and the merge is of exactly those. */
  ghost predicate Delivers(prove: SubProver, parts: seq<seq<Byte>>, d: Decomposed) {
    && d.subJobCount == |d.journals| == |parts|
    && (forall i :: 0 <= i < |parts| ==> prove(i, parts[i]) == Some(d.journals[i]))
    && MergeBytes(d.journals) == Ok(d.mergedJournal)
  }

  /** A part could not be proved, or its journal does not decode. */
  ghost predicate Blames(prove: SubProver, parts: seq<seq<Byte>>, f: Failure) {
    || (f.SubJobFailed? && f.index < |parts| && prove(f.index, parts[f.index]).None?)
    || (f.MergeFailed? &&
        exists i :: 0 <= i < |parts| && prove(i, parts[i]).Some? && DecodeOutput(prove(i, parts[i]).value).None?)
  }

  /** Prove every part, sort the results by index and merge their journals. */
  method ProveParts(prove: SubProver, parts: seq<seq<Byte>>) returns (r: Result<Decomposed, Failure>)
    ensures r.Ok? ==> Delivers(prove, parts, r.value)
    ensures r.Err? ==> Blames(prove, parts, r.error)
  {
    var proved := ProveAll(prove, parts);
    if proved.Err? { return Err(proved.error); }
    var subResults := SortByIndex(proved.value);
    ArrivalOrderIsIrrelevant(proved.value, proved.value);
    var journals := Journals(subResults);
    var merged := MergeJournals(journals);
    if merged.Err? {
      var i := DecodeEach(journals).error.index;
      assert prove(i, parts[i]).Some?;
      return Err(MergeFailed);
    }
    return Ok(Decomposed(journals, merged.value, |parts|));
  }

  function Parts(cfg: DecomposerConfig, input: seq<Byte>): (parts: seq<seq<Byte>>)
    requires cfg.targetCyclesPerJob > 0 && CanDecompose(input)
    ensures |parts| == PlannedCount(cfg, DecodeInput(input).value)
    ensures |parts| <= Max(1, Min(cfg.maxSubJobs, |DecodeInput(input).value.samples|))
  {
    SplitBytes(input, PlannedCount(cfg, DecodeInput(input).value)).value
  }

  /** Decomposed proving as planned: refused exactly for inputs that are too small, not decomposable or planned as one
      part; otherwise the parts are proved and merged, or some part is to blame. */
  method ProveAsPlanned(cfg: DecomposerConfig, prove: SubProver, input: seq<Byte>)
    returns (r: Result<Decomposed, Failure>)
    requires cfg.targetCyclesPerJob > 0
    ensures r == Err(NotSuitable) <==> |input| < cfg.minInputSize || !CanDecompose(input)
    ensures r == Err(OnlyOneSubJob) <==> |input| >= cfg.minInputSize && CanDecompose(input) && !Worthwhile(cfg, input)
    ensures r.Ok? ==> Worthwhile(cfg, input) && Delivers(prove, Parts(cfg, input), r.value)
    ensures Worthwhile(cfg, input) && r.Err? ==> Blames(prove, Parts(cfg, input), r.error)
    ensures r.Ok? ==> 2 <= r.value.subJobCount <= Min(cfg.maxSubJobs, |DecodeInput(input).value.samples|)
  {
    if |input| < cfg.minInputSize || !CanDecompose(input) { return Err(NotSuitable); }
    var x := DecodeInput(input).value;
    var n := PlanSplit(cfg, |x.samples|, Some(EstimateCycles(x)), 0);
    if n <= 1 { return Err(OnlyOneSubJob); }
    var split := Split(input, n);
    r := ProveParts(prove, split.value);
  }

  /** The plan of an input that is large enough, over its samples and trees. */
  lemma WorthwhileMeans(cfg: DecomposerConfig, input: seq<Byte>)
    requires cfg.targetCyclesPerJob > 0 && DecodeInput(input).Some? && |DecodeInput(input).value.samples| > 1
    requires |input| >= cfg.minInputSize
    requires |DecodeInput(input).value.samples| * |DecodeInput(input).value.model.trees| * 1000 + 5_000_000 < TWO64
    ensures var s, t := |DecodeInput(input).value.samples|, |DecodeInput(input).value.model.trees|;
            var q, n := (s * t * 1000 + 5_000_000) / cfg.targetCyclesPerJob, |Parts(cfg, input)|;
            && (Worthwhile(cfg, input) <==> q >= 2 && cfg.maxSubJobs >= 2)
            && (Worthwhile(cfg, input) ==>
                2 <= n <= q && n <= cfg.maxSubJobs && n <= s && (n == q || n == cfg.maxSubJobs || n == s))
  {
    var x := DecodeInput(input).value;
    PlanMeans(cfg, x);
    PlanInRange(|x.samples|, |x.model.trees|, cfg.targetCyclesPerJob);
  }

  /** Decomposed proving. It is refused as unsuitable exactly for inputs that are too small, do not decode or hold
      at most one sample, and as one sub-job exactly when the quotient of the estimate (a thousand cycles for each
      sample and tree, and five million) by the target, or the limit, is below two. Otherwise that quotient, the
      limit or the number of samples, whichever is least, is the number of parts; they are proved and merged, or
      some part is to blame. */
  method ProveDecomposed(cfg: DecomposerConfig, prove: SubProver, input: seq<Byte>)
    returns (r: Result<Decomposed, Failure>)
    requires cfg.targetCyclesPerJob > 0
    ensures r == Err(NotSuitable) <==>
              |input| < cfg.minInputSize || DecodeInput(input).None? || |DecodeInput(input).value.samples| <= 1
    ensures r == Err(OnlyOneSubJob) <==> |input| >= cfg.minInputSize && CanDecompose(input) && !Worthwhile(cfg, input)
    ensures r.Ok? ==> Worthwhile(cfg, input) && Delivers(prove, Parts(cfg, input), r.value)
    ensures Worthwhile(cfg, input) && r.Err? ==> Blames(prove, Parts(cfg, input), r.error)
    ensures |input| >= cfg.minInputSize && DecodeInput(input).Some? && |DecodeInput(input).value.samples| > 1 ==>
              var s, t := |DecodeInput(input).value.samples|, |DecodeInput(input).value.model.trees|;
              s * t * 1000 + 5_000_000 < TWO64 ==>
                var q := (s * t * 1000 + 5_000_000) / cfg.targetCyclesPerJob;
                && (r == Err(OnlyOneSubJob) <==> q < 2 || cfg.maxSubJobs < 2)
                && (r.Ok? ==>
                    var n := r.value.subJobCount;
                    2 <= n <= q && n <= cfg.maxSubJobs && n <= s && (n == q || n == cfg.maxSubJobs || n == s))
    ensures r.Ok? ==> 2 <= r.value.subJobCount <= Min(cfg.maxSubJobs, |DecodeInput(input).value.samples|)
  {
    r := ProveAsPlanned(cfg, prove, input);
    if |input| >= cfg.minInputSize && CanDecompose(input) {
      var x := DecodeInput(input).value;
      if |x.samples| * |x.model.trees| * 1000 + 5_000_000 < TWO64 { WorthwhileMeans(cfg, input); }
    }
  }

  /** With the default limits an input that can be decomposed is planned into at most as many parts as the wrapper
      takes, and into at least two exactly when its estimate reaches two jobs' worth of cycles. */
  lemma DefaultPlanSize(input: seq<Byte>)
    requires CanDecompose(input)
    ensures 1 <= |Parts(DEFAULT_DECOMPOSER, input)| <= DEFAULT_MAX_SUB_PROOFS
    ensures |Parts(DEFAULT_DECOMPOSER, input)| >= 2 <==> EstimateCycles(DecodeInput(input).value) >= 40_000_000
  {
  }

  // ----- Wrapping what was decomposed -----

  datatype WrapError = NoWrapper | NoReceipts | TooManySubProofs | WrappingFailed

  /** What the job submits: the wrapped proof, the only sub-proof, or a proof made in the standard way. */
  datatype Ending = SubmitWrapped(journal: seq<Byte>) | SubmitOnly(journal: seq<Byte>) | FallBack

  /** The recursive wrapper: whether its program is available, its limit, and whether wrapping itself succeeds. */
  datatype Wrapper = Wrapper(available: bool, maxSubProofs: nat, wraps: bool)
  {
    predicate Accepts(count: nat) {
      available && 1 <= count <= maxSubProofs && wraps
    }

    /** Why some number of sub-proofs is refused, when it is: a missing program comes before any count check. */
    function Refusal(count: nat): WrapError {
      if !available then NoWrapper
      else if count == 0 then NoReceipts
      else if count > maxSubProofs then TooManySubProofs
      else WrappingFailed
    }
  }

  /** Loading the wrapper, its count checks, and the wrapping itself, which is foreign. */
  method Wrap(w: Wrapper, d: Decomposed) returns (r: Result<seq<Byte>, WrapError>)
    ensures r.Ok? <==> w.Accepts(|d.journals|)
    ensures r.Ok? ==> r.value == d.mergedJournal
    ensures r.Err? ==> r.error == w.Refusal(|d.journals|)
  {
    if !w.available { return Err(NoWrapper); }
    var subCount := |d.journals|;
    if subCount == 0 { return Err(NoReceipts); }
    if subCount > w.maxSubProofs { return Err(TooManySubProofs); }
    return if w.wraps then Ok(d.mergedJournal) else Err(WrappingFailed);
  }

  /** What a job does with its decomposed proofs. */
  method ChooseProof(w: Wrapper, d: Decomposed) returns (e: Ending, refusal: Option<WrapError>)
    requires d.subJobCount == |d.journals|
    ensures e.SubmitWrapped? <==> w.available && 1 <= d.subJobCount <= w.maxSubProofs && w.wraps
    ensures e.SubmitWrapped? ==> e.journal == d.mergedJournal
    ensures e.SubmitOnly? <==> d.subJobCount == 1 && !(w.available && 1 <= w.maxSubProofs && w.wraps)
    ensures e.SubmitOnly? ==> e.journal == d.journals[0]
    ensures refusal.None? <==> e.SubmitWrapped?
    ensures refusal.Some? ==> refusal.value == w.Refusal(d.subJobCount)
  {
    var wrapped := Wrap(w, d);
    if wrapped.Ok? { return SubmitWrapped(wrapped.value), None; }
    if d.subJobCount == 1 { return SubmitOnly(d.journals[0]), Some(wrapped.error); }
    return FallBack, Some(wrapped.error);
  }

  /** The same for more than one sub-proof. */
  method ChooseForMany(w: Wrapper, d: Decomposed) returns (e: Ending, refusal: Option<WrapError>)
    requires 2 <= d.subJobCount == |d.journals|
    ensures !e.SubmitOnly? && refusal != Some(NoReceipts)
    ensures e.SubmitWrapped? <==> w.available && d.subJobCount <= w.maxSubProofs && w.wraps
    ensures e.SubmitWrapped? ==> e.journal == d.mergedJournal
    ensures refusal == Some(NoWrapper) <==> !w.available
    ensures refusal == Some(TooManySubProofs) <==> w.available && d.subJobCount > w.maxSubProofs
  {
    e, refusal := ChooseProof(w, d);
  }

  /** The decomposed path of a job. The single sub-proof is never submitted. The wrapper's count check fires exactly
      when the wrapper is there and takes fewer; while it takes as many sub-proofs as the plan may make, as it does
      by default, only a missing wrapper or a failure to wrap is left. */
  method DecomposeAndWrap(cfg: DecomposerConfig, w: Wrapper, prove: SubProver, input: seq<Byte>)
    returns (d: Result<Decomposed, Failure>, e: Ending, refusal: Option<WrapError>)
    requires cfg.targetCyclesPerJob > 0
    ensures d == Err(NotSuitable) <==>
              |input| < cfg.minInputSize || DecodeInput(input).None? || |DecodeInput(input).value.samples| <= 1
    ensures d == Err(OnlyOneSubJob) <==> |input| >= cfg.minInputSize && CanDecompose(input) && !Worthwhile(cfg, input)
    ensures d.Ok? ==> Worthwhile(cfg, input) && Delivers(prove, Parts(cfg, input), d.value)
    ensures !e.SubmitOnly? && refusal != Some(NoReceipts)
    ensures e.SubmitWrapped? <==> d.Ok? && w.available && d.value.subJobCount <= w.maxSubProofs && w.wraps
    ensures e.SubmitWrapped? ==> e.journal == d.value.mergedJournal
    ensures refusal == Some(NoWrapper) <==> d.Ok? && !w.available
    ensures refusal == Some(TooManySubProofs) <==> d.Ok? && w.available && d.value.subJobCount > w.maxSubProofs
    ensures cfg.maxSubJobs <= w.maxSubProofs ==> refusal != Some(TooManySubProofs)
    ensures d.Ok? ==> 2 <= d.value.subJobCount <= cfg.maxSubJobs
  {
    e, refusal := FallBack, None;
    d := ProveAsPlanned(cfg, prove, input);
    if d.Ok? {
      e, refusal := ChooseForMany(w, d.value);
    }
  }

  /** The default plan in products of samples and trees. */
  lemma DefaultQuotient(product: nat)
    ensures var q := (product * 1000 + 5_000_000) / 20_000_000;
            && (q >= 2 <==> product >= 35_000)
            && q * 20_000_000 <= product * 1000 + 5_000_000 < (q + 1) * 20_000_000
  {
  }

  lemma DefaultWorthwhile(input: seq<Byte>)
    requires |input| >= 4096 && DecodeInput(input).Some? && |DecodeInput(input).value.samples| > 1
    requires |DecodeInput(input).value.samples| * |DecodeInput(input).value.model.trees| * 1000 + 5_000_000 < TWO64
    ensures var s, t := |DecodeInput(input).value.samples|, |DecodeInput(input).value.model.trees|;
            var n := |Parts(DEFAULT_DECOMPOSER, input)|;
            && (Worthwhile(DEFAULT_DECOMPOSER, input) <==> s * t >= 35_000)
            && (Worthwhile(DEFAULT_DECOMPOSER, input) ==>
                2 <= n <= 16 && n <= s && 20_000_000 * n <= s * t * 1000 + 5_000_000 &&
                (n == 16 || n == s || s * t * 1000 + 5_000_000 < 20_000_000 * (n + 1)))
  {
    WorthwhileMeans(DEFAULT_DECOMPOSER, input);
    DefaultQuotient(|DecodeInput(input).value.samples| * |DecodeInput(input).value.model.trees|);
  }

  /** With the default limits the wrapper's count check never fires and the single-sub-job arm is never taken. An
      input of 4096 bytes and two samples is split if and only if its samples times its trees reach 35,000. */
  method DecomposeByDefault(available: bool, wraps: bool, prove: SubProver, input: seq<Byte>)
    returns (d: Result<Decomposed, Failure>, e: Ending, refusal: Option<WrapError>)
    ensures !e.SubmitOnly? && refusal != Some(TooManySubProofs) && refusal != Some(NoReceipts)
    ensures e.SubmitWrapped? <==> d.Ok? && available && wraps
    ensures d.Ok? ==> 2 <= d.value.subJobCount <= DEFAULT_MAX_SUB_PROOFS
    ensures d == Err(NotSuitable) <==>
              |input| < 4096 || DecodeInput(input).None? || |DecodeInput(input).value.samples| <= 1
    ensures d != Err(NotSuitable) ==>
              var s, t := |DecodeInput(input).value.samples|, |DecodeInput(input).value.model.trees|;
              s * t * 1000 + 5_000_000 < TWO64 ==>
                && (d == Err(OnlyOneSubJob) <==> s * t < 35_000)
                && (d.Ok? ==> var n := d.value.subJobCount;
                              n <= 16 && n <= s && 20_000_000 * n <= s * t * 1000 + 5_000_000 &&
                              (n == 16 || n == s || s * t * 1000 + 5_000_000 < 20_000_000 * (n + 1)))
  {
    var w := Wrapper(available, DEFAULT_MAX_SUB_PROOFS, wraps);
    d, e, refusal := DecomposeAndWrap(DEFAULT_DECOMPOSER, w, prove, input);
    if d != Err(NotSuitable) {
      var x := DecodeInput(input).value;
      if |x.samples| * |x.model.trees| * 1000 + 5_000_000 < TWO64 { DefaultWorthwhile(input); }
    }
  }

  /** A prover that returns the guest's journals. */
  function Honest(g: Guest): SubProver {
    (i: nat, b: seq<Byte>) => Some(GuestJournal(g, b))
  }

  lemma JournalsAreTheGuests(g: Guest, parts: seq<seq<Byte>>, d: Decomposed)
    requires Delivers(Honest(g), parts, d)
    ensures d.journals == GuestJournals(g, parts)
  {
    forall i | 0 <= i < |parts| ensures d.journals[i] == GuestJournal(g, parts[i]) {
      assert Honest(g)(i, parts[i]) == Some(d.journals[i]);
    }
  }

  /** With an honest prover, what decomposed proving delivers is the journal of the whole input, but for the hash. */
  lemma HonestDecomposition(g: Guest, cfg: DecomposerConfig, input: seq<Byte>, d: Decomposed)
    requires cfg.targetCyclesPerJob > 0 && CanDecompose(input) && Delivers(Honest(g), Parts(cfg, input), d)
    ensures DecodeOutput(d.mergedJournal).Some?
    ensures SameButHash(DecodeOutput(d.mergedJournal).value, RunGuest(g, DecodeInput(input).value))
  {
    JournalsAreTheGuests(g, Parts(cfg, input), d);
    SplitProveMergeBytes(g, input, PlannedCount(cfg, DecodeInput(input).value));
  }

  /** And it does deliver: decomposed proving with an honest prover fails only where it is not worthwhile. */
  lemma HonestNeverBlamed(g: Guest, cfg: DecomposerConfig, input: seq<Byte>, f: Failure)
    requires cfg.targetCyclesPerJob > 0 && CanDecompose(input)
    ensures !Blames(Honest(g), Parts(cfg, input), f)
  {
    var x, n := DecodeInput(input).value, PlannedCount(cfg, DecodeInput(input).value);
    InputDecodesExactly(input, x);
    forall i | 0 <= i < |Parts(cfg, input)| ensures DecodeOutput(GuestJournal(g, Parts(cfg, input)[i])).Some? {
      SubJobJournal(g, x, n, i);
    }
  }
}
