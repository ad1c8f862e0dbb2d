/** Splitting an XGBoost input into sub-jobs and merging their journals, over the serialized bytes. */
module XGBoostDecomp {
  import opened Basics
  import opened Sums
  import opened XGBoostFormat

  datatype DecompError = Undecodable(index: nat) | NoSamples

  type Bits64 = n: int | 0 <= n < TWO64

  /** The guest program: a score per sample, a flag decision and a hash; nothing is assumed about them. */
  datatype Guest = Guest(
    predict: (XGBoostModel, Sample) -> Bits64,
    flags: (Bits64, int) -> bool,
    hash: XGBoostInput -> Id32)

  function Flatten<T>(ss: seq<seq<T>>): seq<T> {
    if ss == [] then [] else Flatten(ss[..|ss| - 1]) + ss[|ss| - 1]
  }

  // ----- Chunk boundaries -----

  /** How many samples each chunk takes; the first `extra` chunks take one more. */
  datatype Shares = Shares(base: nat, extra: nat) {
    function Size(i: nat): nat {
      base + if i < extra then 1 else 0
    }

    function Start(i: nat): nat {
      if i == 0 then 0 else Start(i - 1) + Size(i - 1)
    }
  }

  function EvenShares(total: nat, c: nat): Shares
    requires 0 < c
  {
    Shares(total / c, total % c)
  }

  /** c chunks of these shares are exactly n samples. */
  ghost predicate Covers(s: Shares, n: nat, c: nat) {
    s.Start(c) == n && forall i :: 0 <= i <= c ==> s.Start(i) <= n
  }

  lemma {:induction false} StartIs(s: Shares, i: nat)
    ensures s.Start(i) == i * s.base + if i < s.extra then i else s.extra
  {
    if i > 0 {
      StartIs(s, i - 1);
      assert i * s.base == (i - 1) * s.base + s.base;
    }
  }

  lemma {:induction false} StartGrows(s: Shares, i: nat, j: nat)
    requires i <= j
    ensures s.Start(i) <= s.Start(j)
    decreases j
  {
    if i < j { StartGrows(s, i, j - 1); }
  }

  lemma EvenSharesCover(total: nat, c: nat)
    requires 0 < c
    ensures Covers(EvenShares(total, c), total, c)
  {
    var s := EvenShares(total, c);
    StartIs(s, c);
    forall i | 0 <= i <= c ensures s.Start(i) <= total { StartGrows(s, i, c); }
  }

  function ChunkCount(x: XGBoostInput, n: nat): nat {
    if n < |x.samples| then n else |x.samples|
  }

  /** Sub-job i: the whole model and its share of the samples. */
  function Chunk(x: XGBoostInput, s: Shares, i: nat): XGBoostInput
    requires s.Start(i + 1) <= |x.samples|
  {
    Slice(x, s.Start(i), s.Start(i + 1))
  }

  function Slice(x: XGBoostInput, lo: nat, hi: nat): XGBoostInput
    requires lo <= hi <= |x.samples|
  {
    XGBoostInput(x.model, x.samples[lo..hi], x.threshold)
  }

  function Chunks(x: XGBoostInput, s: Shares, c: nat): (r: seq<XGBoostInput>)
    requires Covers(s, |x.samples|, c)
    ensures |r| == c && forall i :: 0 <= i < c ==> r[i] == Chunk(x, s, i)
  {
    seq(c, i requires 0 <= i < c => Chunk(x, s, i))
  }

  function SamplesOfEach(xs: seq<XGBoostInput>): (r: seq<seq<Sample>>)
    ensures |r| == |xs| && forall i :: 0 <= i < |xs| ==> r[i] == xs[i].samples
  {
    seq(|xs|, i requires 0 <= i < |xs| => xs[i].samples)
  }

  lemma SliceOneMore<T>(s: seq<T>, a: nat, b: nat)
    requires a <= b <= |s|
    ensures s[..b] == s[..a] + s[a..b]
    ensures b == a + 1 ==> s[..b] == s[..a] + [s[a]]
  {
  }

  lemma FlattenOneMore<T>(ss: seq<seq<T>>, i: nat)
    requires i < |ss|
    ensures Flatten(ss[..i + 1]) == Flatten(ss[..i]) + ss[i]
  {
    assert ss[..i + 1][..i] == ss[..i];
  }

  lemma {:induction false} ChunksConcatenate(x: XGBoostInput, s: Shares, c: nat, i: nat)
    requires Covers(s, |x.samples|, c) && i <= c
    ensures Flatten(SamplesOfEach(Chunks(x, s, c))[..i]) == x.samples[..s.Start(i)]
  {
    if i > 0 {
      ChunksConcatenate(x, s, c, i - 1);
      var ss := SamplesOfEach(Chunks(x, s, c));
      var a, b := s.Start(i - 1), s.Start(i);
      FlattenOneMore(ss, i - 1);
      assert ss[i - 1] == Chunks(x, s, c)[i - 1].samples == x.samples[a..b];
      SliceOneMore(x.samples, a, b);
    }
  }

  /** The sub-jobs hold the samples of the input, in order. */
  lemma SplitPartitions(x: XGBoostInput, s: Shares, c: nat)
    requires Covers(s, |x.samples|, c)
    ensures Flatten(SamplesOfEach(Chunks(x, s, c))) == x.samples
  {
    ChunksConcatenate(x, s, c, c);
    assert SamplesOfEach(Chunks(x, s, c))[..c] == SamplesOfEach(Chunks(x, s, c));
  }

  /** Each sub-job carries the model and the threshold, and two sub-jobs differ by at most one sample. */
  lemma SplitBalanced(x: XGBoostInput, s: Shares, c: nat, i: nat, j: nat)
    requires Covers(s, |x.samples|, c) && i < c && j < c
    ensures Chunks(x, s, c)[i].(samples := x.samples) == x
    ensures |Chunks(x, s, c)[i].samples| <= |Chunks(x, s, c)[j].samples| + 1
    ensures i <= j ==> |Chunks(x, s, c)[i].samples| >= |Chunks(x, s, c)[j].samples|
  {
    assert |Chunks(x, s, c)[i].samples| == s.Size(i);
    assert |Chunks(x, s, c)[j].samples| == s.Size(j);
  }

  /** With at most as many chunks as samples, no sub-job is empty. */
  lemma NoChunkEmpty(x: XGBoostInput, c: nat, i: nat)
    requires 0 < c <= |x.samples| && i < c
    ensures Covers(EvenShares(|x.samples|, c), |x.samples|, c)
    ensures Chunks(x, EvenShares(|x.samples|, c), c)[i].samples != []
  {
    EvenSharesCover(|x.samples|, c);
    assert |x.samples| / c >= 1;
    assert EvenShares(|x.samples|, c).Size(i) >= 1;
  }

  // ----- Splitting -----

  function EncodeEach(xs: seq<XGBoostInput>): (r: seq<seq<Byte>>)
    ensures |r| == |xs| && forall i :: 0 <= i < |xs| ==> r[i] == EncodeInput(xs[i])
  {
    seq(|xs|, i requires 0 <= i < |xs| => EncodeInput(xs[i]))
  }

  /** The sub-jobs of a decoded input. */
  function SubJobs(x: XGBoostInput, n: nat): (r: seq<XGBoostInput>)
    requires n >= 1 && x.samples != []
    ensures |r| == ChunkCount(x, n)
  {
    var c := ChunkCount(x, n);
    EvenSharesCover(|x.samples|, c);
    Chunks(x, EvenShares(|x.samples|, c), c)
  }

  function SplitBytes(input: seq<Byte>, n: nat): Result<seq<seq<Byte>>, DecompError>
    requires n >= 1
  {
    match DecodeInput(input)
    case None => Err(Undecodable(0))
    case Some(x) => if x.samples == [] then Err(NoSamples) else Ok(EncodeEach(SubJobs(x, n)))
  }

  /** Zero chunks would divide by zero; the planner never asks for them. */
  method Split(input: seq<Byte>, n: nat) returns (r: Result<seq<seq<Byte>>, DecompError>)
    requires n >= 1
    ensures r == SplitBytes(input, n)
    ensures DecodeInput(input).None? ==> r == Err(Undecodable(0))
    ensures DecodeInput(input).Some? && DecodeInput(input).value.samples == [] ==> r == Err(NoSamples)
    ensures DecodeInput(input).Some? && DecodeInput(input).value.samples != [] ==>
              var total := |DecodeInput(input).value.samples|;
              r.Ok? && |r.value| <= n && |r.value| <= total && (|r.value| == n || |r.value| == total)
  {
    var parsed := DecodeInput(input);
    if parsed.None? { return Err(Undecodable(0)); }
    var x := parsed.value;
    var total := |x.samples|;
    if total == 0 { return Err(NoSamples); }
    var chunkCount := if n < total then n else total;
    EvenSharesCover(total, chunkCount);
    var subInputs := CutSamples(x, chunkCount, Shares(total / chunkCount, total % chunkCount));
    return Ok(subInputs);
  }

  lemma NextChunk(x: XGBoostInput, s: Shares, c: nat, i: nat, lo: nat, hi: nat)
    requires Covers(s, |x.samples|, c) && i < c && lo == s.Start(i) && hi == lo + s.Size(i)
    ensures s.Start(i + 1) == hi <= |x.samples|
    ensures EncodeEach(Chunks(x, s, c))[..i + 1] == EncodeEach(Chunks(x, s, c))[..i] + [EncodeInput(Slice(x, lo, hi))]
  {
    SliceOneMore(EncodeEach(Chunks(x, s, c)), i, i + 1);
    assert Chunks(x, s, c)[i] == Chunk(x, s, i);
  }

  /** The chunk loop. */
  method CutSamples(x: XGBoostInput, chunkCount: nat, s: Shares) returns (subInputs: seq<seq<Byte>>)
    requires Covers(s, |x.samples|, chunkCount)
    ensures subInputs == EncodeEach(Chunks(x, s, chunkCount))
  {
    subInputs := [];
    var offset := 0;
    ghost var all := EncodeEach(Chunks(x, s, chunkCount));
    for i := 0 to chunkCount
      invariant offset == s.Start(i)
      invariant subInputs == all[..i]
    {
      var thisChunk := s.base + if i < s.extra then 1 else 0;
      NextChunk(x, s, chunkCount, i, offset, offset + thisChunk);
      var serialized := Serialize(Slice(x, offset, offset + thisChunk));
      subInputs := subInputs + [serialized];
      offset := offset + thisChunk;
    }
  }

  method Serialize(x: XGBoostInput) returns (b: seq<Byte>)
    ensures b == EncodeInput(x)
  {
    b := EncodeInput(x);
  }

  // ----- The guest -----

  function Predict(g: Guest, m: XGBoostModel, threshold: int, s: Sample): Prediction {
    var score := g.predict(m, s);
    Prediction(s.id, score, if g.flags(score, threshold) then 1 else 0)
  }

  function Predictions(g: Guest, m: XGBoostModel, threshold: int, ss: seq<Sample>): (r: seq<Prediction>)
    ensures |r| == |ss| && forall i :: 0 <= i < |ss| ==> r[i] == Predict(g, m, threshold, ss[i])
  {
    seq(|ss|, i requires 0 <= i < |ss| => Predict(g, m, threshold, ss[i]))
  }

  function FlaggedIds(g: Guest, m: XGBoostModel, threshold: int, ss: seq<Sample>): (r: seq<Id32>)
    ensures |r| <= |ss|
  {
    if ss == [] then []
    else (if g.flags(g.predict(m, ss[0]), threshold) then [ss[0].id] else []) + FlaggedIds(g, m, threshold, ss[1..])
  }

  /** The journal the guest commits; its counters are 32-bit. */
  function RunGuest(g: Guest, x: XGBoostInput): XGBoostOutput {
    var ids := FlaggedIds(g, x.model, x.threshold, x.samples);
    XGBoostOutput(|x.samples| % TWO32, Predictions(g, x.model, x.threshold, x.samples), |ids| % TWO32, ids, g.hash(x))
  }

  // ----- Merging -----

  const NOTHING: XGBoostOutput := XGBoostOutput(0, [], 0, [], ZERO_ID)

  /** One turn of the merge loop: counters wrap at 32 bits and the first non-zero hash is kept. */
  function Absorb(a: XGBoostOutput, o: XGBoostOutput): XGBoostOutput {
    var ids := a.flaggedIds + o.flaggedIds;
    XGBoostOutput(
      (a.totalSamples + o.totalSamples) % TWO32,
      a.predictions + o.predictions,
      |ids| % TWO32,
      ids,
      if a.inputHash == ZERO_ID then o.inputHash else a.inputHash)
  }

  function MergeOutputs(os: seq<XGBoostOutput>): XGBoostOutput {
    if os == [] then NOTHING else Absorb(MergeOutputs(os[..|os| - 1]), os[|os| - 1])
  }

  /** The first journal that does not decode, or the decoded journals. */
  function DecodeEach(js: seq<seq<Byte>>): (r: Result<seq<XGBoostOutput>, DecompError>)
    ensures r.Ok? ==> |r.value| == |js| && forall i :: 0 <= i < |js| ==> DecodeOutput(js[i]) == Some(r.value[i])
    ensures r.Err? ==> r.error.Undecodable? && r.error.index < |js| && DecodeOutput(js[r.error.index]).None?
  {
    if js == [] then Ok([])
    else match DecodeEach(js[..|js| - 1])
      case Err(e) => Err(e)
      case Ok(os) =>
        match DecodeOutput(js[|js| - 1])
        case None => Err(Undecodable(|js| - 1))
        case Some(o) => Ok(os + [o])
  }

  function MergeBytes(js: seq<seq<Byte>>): Result<seq<Byte>, DecompError> {
    match DecodeEach(js)
    case Err(e) => Err(e)
    case Ok(os) => Ok(EncodeOutput(MergeOutputs(os)))
  }

  lemma {:induction false} DecodeFailsAt(js: seq<seq<Byte>>, i: nat, n: nat)
    requires i < n <= |js| && DecodeEach(js[..i]).Ok? && DecodeOutput(js[i]).None?
    ensures DecodeEach(js[..n]) == Err(Undecodable(i))
    decreases n
  {
    assert js[..n][..n - 1] == js[..n - 1];
    if i + 1 < n { DecodeFailsAt(js, i, n - 1); }
  }

  lemma AbsorbFields(total: nat, predictions: seq<Prediction>, ids: seq<Id32>, hash: Id32, o: XGBoostOutput)
    ensures Absorb(XGBoostOutput(total, predictions, |ids| % TWO32, ids, hash), o) ==
            XGBoostOutput((total + o.totalSamples) % TWO32, predictions + o.predictions, |ids + o.flaggedIds| % TWO32,
                          ids + o.flaggedIds, if hash == ZERO_ID then o.inputHash else hash)
  {
  }

  lemma DecodesOneMore(js: seq<seq<Byte>>, i: nat, os: seq<XGBoostOutput>, o: XGBoostOutput)
    requires i < |js| && DecodeEach(js[..i]) == Ok(os) && DecodeOutput(js[i]) == Some(o)
    ensures DecodeEach(js[..i + 1]) == Ok(os + [o])
    ensures MergeOutputs(os + [o]) == Absorb(MergeOutputs(os), o)
  {
    assert js[..i + 1][..i] == js[..i];
    assert (os + [o])[..|os|] == os;
  }

  /** Totals wrap at 32 bits, the first non-zero hash is kept, and the first bad journal stops the merge. */
  method MergeJournals(js: seq<seq<Byte>>) returns (r: Result<seq<Byte>, DecompError>)
    ensures r == MergeBytes(js)
  {
    var predictions: seq<Prediction>, ids: seq<Id32> := [], [];
    var total, hash: Id32 := 0, ZERO_ID;
    ghost var os: seq<XGBoostOutput> := [];
    assert js[..|js|] == js;
    for i := 0 to |js|
      invariant DecodeEach(js[..i]) == Ok(os)
      invariant MergeOutputs(os) == XGBoostOutput(total, predictions, |ids| % TWO32, ids, hash)
    {
      var output := DecodeOutput(js[i]);
      if output.None? {
        DecodeFailsAt(js, i, |js|);
        return Err(Undecodable(i));
      }
      var o := output.value;
      DecodesOneMore(js, i, os, o);
      AbsorbFields(total, predictions, ids, hash, o);
      os := os + [o];
      total := (total + o.totalSamples) % TWO32;
      predictions := predictions + o.predictions;
      ids := ids + o.flaggedIds;
      if hash == ZERO_ID { hash := o.inputHash; }
    }
    return Ok(EncodeOutput(XGBoostOutput(total, predictions, |ids| % TWO32, ids, hash)));
  }

  // ----- What a merge is -----

  const SamplesIn: XGBoostOutput -> nat := (o: XGBoostOutput) => if o.totalSamples < 0 then 0 else o.totalSamples

  function PredictionsOfEach(os: seq<XGBoostOutput>): (r: seq<seq<Prediction>>)
    ensures |r| == |os| && forall i :: 0 <= i < |os| ==> r[i] == os[i].predictions
  {
    seq(|os|, i requires 0 <= i < |os| => os[i].predictions)
  }

  function IdsOfEach(os: seq<XGBoostOutput>): (r: seq<seq<Id32>>)
    ensures |r| == |os| && forall i :: 0 <= i < |os| ==> r[i] == os[i].flaggedIds
  {
    seq(|os|, i requires 0 <= i < |os| => os[i].flaggedIds)
  }

  lemma MergeOneMore(os: seq<XGBoostOutput>) returns (init: seq<XGBoostOutput>, last: XGBoostOutput)
    requires os != []
    ensures |init| == |os| - 1 && init == os[..|os| - 1] && last == os[|os| - 1] && os == init + [last]
    ensures MergeOutputs(os).totalSamples == (MergeOutputs(init).totalSamples + last.totalSamples) % TWO32
    ensures MergeOutputs(os).predictions == MergeOutputs(init).predictions + last.predictions
    ensures MergeOutputs(os).flaggedIds == MergeOutputs(init).flaggedIds + last.flaggedIds
    ensures MergeOutputs(os).flaggedCount == |MergeOutputs(os).flaggedIds| % TWO32
    ensures MergeOutputs(os).inputHash ==
            if MergeOutputs(init).inputHash == ZERO_ID then last.inputHash else MergeOutputs(init).inputHash
  {
    init, last := os[..|os| - 1], os[|os| - 1];
  }

  lemma WrapAddsOnce(a: nat, b: nat)
    ensures (a % TWO32 + b) % TWO32 == (a + b) % TWO32
  {
  }

  lemma {:induction false} MergedTotal(os: seq<XGBoostOutput>)
    requires forall i :: 0 <= i < |os| ==> os[i].totalSamples >= 0
    ensures MergeOutputs(os).totalSamples == Sum(os, SamplesIn) % 0x1_0000_0000
    decreases |os|
  {
    if os != [] {
      var init, last := MergeOneMore(os);
      MergedTotal(init);
      SumAppend(init, last, SamplesIn);
      WrapAddsOnce(Sum(init, SamplesIn), last.totalSamples);
    }
  }

  lemma {:induction false} MergedLists(os: seq<XGBoostOutput>)
    ensures MergeOutputs(os).predictions == Flatten(PredictionsOfEach(os))
    ensures MergeOutputs(os).flaggedIds == Flatten(IdsOfEach(os))
    ensures MergeOutputs(os).flaggedCount == |MergeOutputs(os).flaggedIds| % 0x1_0000_0000
    decreases |os|
  {
    if os != [] {
      var init, last := MergeOneMore(os);
      MergedLists(init);
      assert PredictionsOfEach(os)[..|init|] == PredictionsOfEach(init);
      assert IdsOfEach(os)[..|init|] == IdsOfEach(init);
    }
  }

  /** The first i journals carry no hash. */
  ghost predicate NoHashBefore(os: seq<XGBoostOutput>, i: nat)
    requires i <= |os|
  {
    forall j :: 0 <= j < i ==> os[j].inputHash == ZERO_ID
  }

  lemma {:induction false} MergedHash(os: seq<XGBoostOutput>)
    ensures NoHashBefore(os, |os|) ==> MergeOutputs(os).inputHash == ZERO_ID
    ensures forall i :: 0 <= i < |os| && NoHashBefore(os, i) && os[i].inputHash != ZERO_ID ==>
              MergeOutputs(os).inputHash == os[i].inputHash
    decreases |os|
  {
    if os != [] {
      var init, last := MergeOneMore(os);
      MergedHash(init);
      assert NoHashBefore(os, |init|) <==> NoHashBefore(init, |init|);
      forall i | 0 <= i < |os| && NoHashBefore(os, i) && os[i].inputHash != ZERO_ID
        ensures MergeOutputs(os).inputHash == os[i].inputHash
      {
        if i < |init| { assert NoHashBefore(init, i) && init[i] == os[i]; }
      }
    }
  }

  /** The merge of any journals: totals are added in 32 bits, predictions and flagged ids are concatenated in order,
      the flagged are counted anew, and the hash is the first that is not zero, if there is one. */
  lemma MergeMeans(os: seq<XGBoostOutput>)
    requires forall i :: 0 <= i < |os| ==> os[i].totalSamples >= 0
    ensures MergeOutputs(os).totalSamples == Sum(os, SamplesIn) % 0x1_0000_0000
    ensures MergeOutputs(os).predictions == Flatten(PredictionsOfEach(os))
    ensures MergeOutputs(os).flaggedIds == Flatten(IdsOfEach(os))
    ensures MergeOutputs(os).flaggedCount == |MergeOutputs(os).flaggedIds| % 0x1_0000_0000
    ensures NoHashBefore(os, |os|) ==> MergeOutputs(os).inputHash == ZERO_ID
    ensures forall i :: 0 <= i < |os| && NoHashBefore(os, i) && os[i].inputHash != ZERO_ID ==>
              MergeOutputs(os).inputHash == os[i].inputHash
  {
    MergedTotal(os);
    MergedLists(os);
    MergedHash(os);
  }

  /** What the guest commits: a prediction for each sample, in order, with its score and whether it is flagged, and
      the ids of the flagged samples, in order. */
  lemma {:induction false} GuestCommits(g: Guest, x: XGBoostInput)
    ensures var o := RunGuest(g, x);
            && |o.predictions| == |x.samples|
            && (forall i :: 0 <= i < |x.samples| ==>
                  var s, p := x.samples[i], o.predictions[i];
                  p.id == s.id && p.score == g.predict(x.model, s) &&
                  p.flagged == if g.flags(p.score, x.threshold) then 1 else 0)
            && o.flaggedIds == FlaggedIn(o.predictions)
  {
    FlaggedFromPredictions(g, x.model, x.threshold, x.samples);
  }

  function FlaggedIn(ps: seq<Prediction>): seq<Id32> {
    if ps == [] then [] else (if ps[0].flagged == 1 then [ps[0].id] else []) + FlaggedIn(ps[1..])
  }

  lemma {:induction false} FlaggedFromPredictions(g: Guest, m: XGBoostModel, threshold: int, ss: seq<Sample>)
    ensures FlaggedIds(g, m, threshold, ss) == FlaggedIn(Predictions(g, m, threshold, ss))
  {
    if ss != [] {
      FlaggedFromPredictions(g, m, threshold, ss[1..]);
      assert Predictions(g, m, threshold, ss)[1..] == Predictions(g, m, threshold, ss[1..]);
    }
  }

  // ----- Merging is associative over grouping -----

  /** What a merge produces: counters that fit and a count that is the number of ids. */
  predicate Merged(o: XGBoostOutput) {
    0 <= o.totalSamples < TWO32 && o.flaggedCount == |o.flaggedIds| % TWO32
  }

  lemma AbsorbAssociative(a: XGBoostOutput, b: XGBoostOutput, c: XGBoostOutput)
    ensures Absorb(Absorb(a, b), c) == Absorb(a, Absorb(b, c))
  {
    assert a.predictions + b.predictions + c.predictions == a.predictions + (b.predictions + c.predictions);
    assert a.flaggedIds + b.flaggedIds + c.flaggedIds == a.flaggedIds + (b.flaggedIds + c.flaggedIds);
  }

  lemma NothingIsNeutral(a: XGBoostOutput)
    requires Merged(a)
    ensures Absorb(a, NOTHING) == a
  {
    assert a.predictions + [] == a.predictions && a.flaggedIds + [] == a.flaggedIds;
  }

  lemma {:induction false} MergeIsMerged(os: seq<XGBoostOutput>)
    ensures Merged(MergeOutputs(os))
  {
  }

  lemma {:induction false} MergeAppend(xs: seq<XGBoostOutput>, ys: seq<XGBoostOutput>)
    ensures MergeOutputs(xs + ys) == Absorb(MergeOutputs(xs), MergeOutputs(ys))
    decreases |ys|
  {
    if ys == [] {
      assert xs + ys == xs;
      MergeIsMerged(xs);
      NothingIsNeutral(MergeOutputs(xs));
    } else {
      var last := |ys| - 1;
      assert (xs + ys)[..|xs + ys| - 1] == xs + ys[..last];
      MergeAppend(xs, ys[..last]);
      AbsorbAssociative(MergeOutputs(xs), MergeOutputs(ys[..last]), ys[last]);
    }
  }

  function MergeEach(gs: seq<seq<XGBoostOutput>>): (r: seq<XGBoostOutput>)
    ensures |r| == |gs| && forall i :: 0 <= i < |gs| ==> r[i] == MergeOutputs(gs[i])
  {
    seq(|gs|, i requires 0 <= i < |gs| => MergeOutputs(gs[i]))
  }

  /** Merging group by group and then merging the groups is merging everything at once, for any grouping. */
  lemma {:induction false} MergeByGroups(gs: seq<seq<XGBoostOutput>>)
    ensures MergeOutputs(MergeEach(gs)) == MergeOutputs(Flatten(gs))
    decreases |gs|
  {
    if gs != [] {
      var last := |gs| - 1;
      MergeByGroups(gs[..last]);
      assert MergeEach(gs)[..last] == MergeEach(gs[..last]);
      MergeAppend(Flatten(gs[..last]), gs[last]);
    }
  }

  // ----- Split, prove, merge -----

  lemma {:induction false} FlaggedAppend(g: Guest, m: XGBoostModel, threshold: int, xs: seq<Sample>, ys: seq<Sample>)
    ensures FlaggedIds(g, m, threshold, xs + ys) == FlaggedIds(g, m, threshold, xs) + FlaggedIds(g, m, threshold, ys)
    decreases |xs|
  {
    if xs == [] {
      assert xs + ys == ys;
    } else {
      assert (xs + ys)[1..] == xs[1..] + ys;
      FlaggedAppend(g, m, threshold, xs[1..], ys);
    }
  }

  /** Two journals that agree on everything but the input hash. */
  predicate SameButHash(a: XGBoostOutput, b: XGBoostOutput) {
    && a.totalSamples == b.totalSamples && a.predictions == b.predictions
    && a.flaggedCount == b.flaggedCount && a.flaggedIds == b.flaggedIds
  }

  lemma WrapAdds(a: nat, b: nat)
    ensures (a % TWO32 + b % TWO32) % TWO32 == (a + b) % TWO32
  {
  }

  lemma PredictionsAppend(g: Guest, m: XGBoostModel, threshold: int, xs: seq<Sample>, ys: seq<Sample>)
    ensures Predictions(g, m, threshold, xs + ys) == Predictions(g, m, threshold, xs) + Predictions(g, m, threshold, ys)
  {
  }

  /** The journal on two runs of samples, field by field. */
  lemma RunFields(g: Guest, x: XGBoostInput, xs: seq<Sample>, ys: seq<Sample>)
    ensures var a, b, o := RunGuest(g, x.(samples := xs)), RunGuest(g, x.(samples := ys)),
              RunGuest(g, x.(samples := xs + ys));
            && o.totalSamples == (a.totalSamples + b.totalSamples) % TWO32
            && o.predictions == a.predictions + b.predictions
            && o.flaggedIds == a.flaggedIds + b.flaggedIds
            && o.flaggedCount == |o.flaggedIds| % TWO32
  {
    FlaggedAppend(g, x.model, x.threshold, xs, ys);
    PredictionsAppend(g, x.model, x.threshold, xs, ys);
    WrapAdds(|xs|, |ys|);
  }

  lemma RunAppend(g: Guest, x: XGBoostInput, xs: seq<Sample>, ys: seq<Sample>, a: XGBoostOutput)
    requires SameButHash(a, RunGuest(g, x.(samples := xs)))
    ensures SameButHash(Absorb(a, RunGuest(g, x.(samples := ys))), RunGuest(g, x.(samples := xs + ys)))
  {
    RunFields(g, x, xs, ys);
  }

  function RunEach(g: Guest, xs: seq<XGBoostInput>): (r: seq<XGBoostOutput>)
    ensures |r| == |xs| && forall i :: 0 <= i < |xs| ==> r[i] == RunGuest(g, xs[i])
  {
    seq(|xs|, i requires 0 <= i < |xs| => RunGuest(g, xs[i]))
  }

  /** The inputs differ from x in their samples only. */
  ghost predicate SameModel(x: XGBoostInput, xs: seq<XGBoostInput>) {
    forall i :: 0 <= i < |xs| ==> xs[i] == x.(samples := xs[i].samples)
  }

  /** However the samples are cut, merging the journals of the pieces is one run on all the samples. */
  lemma {:induction false} MergeRuns(g: Guest, x: XGBoostInput, xs: seq<XGBoostInput>)
    requires SameModel(x, xs)
    ensures SameButHash(MergeOutputs(RunEach(g, xs)), RunGuest(g, x.(samples := Flatten(SamplesOfEach(xs)))))
    decreases |xs|
  {
    if xs != [] {
      var last := |xs| - 1;
      MergeRuns(g, x, xs[..last]);
      assert RunEach(g, xs)[..last] == RunEach(g, xs[..last]);
      assert SamplesOfEach(xs)[..last] == SamplesOfEach(xs[..last]);
      RunAppend(g, x, Flatten(SamplesOfEach(xs[..last])), xs[last].samples, MergeOutputs(RunEach(g, xs[..last])));
    }
  }

  /** Merging the journals of the sub-jobs is running the guest on the whole input, but for the input hash: that is
      the first sub-job's. */
  lemma SplitProveMerge(g: Guest, x: XGBoostInput, n: nat)
    requires n >= 1 && x.samples != []
    ensures var first := g.hash(SubJobs(x, n)[0]);
            first != ZERO_ID ==> MergeOutputs(RunEach(g, SubJobs(x, n))).inputHash == first
    ensures SameButHash(MergeOutputs(RunEach(g, SubJobs(x, n))), RunGuest(g, x))
  {
    var c := ChunkCount(x, n);
    var s := EvenShares(|x.samples|, c);
    EvenSharesCover(|x.samples|, c);
    MergeRuns(g, x, Chunks(x, s, c));
    SplitPartitions(x, s, c);
    if g.hash(SubJobs(x, n)[0]) != ZERO_ID { MergedHash(RunEach(g, SubJobs(x, n))); }
  }

  // ----- The same over bytes -----

  /** The journal bytes of the guest on input bytes. */
  function GuestJournal(g: Guest, b: seq<Byte>): seq<Byte> {
    match DecodeInput(b)
    case None => []
    case Some(x) => EncodeOutput(RunGuest(g, x))
  }

  function GuestJournals(g: Guest, bs: seq<seq<Byte>>): (r: seq<seq<Byte>>)
    ensures |r| == |bs| && forall i :: 0 <= i < |bs| ==> r[i] == GuestJournal(g, bs[i])
  {
    seq(|bs|, i requires 0 <= i < |bs| => GuestJournal(g, bs[i]))
  }

  lemma RunFits(g: Guest, x: XGBoostInput)
    requires |x.samples| < TWO32
    ensures OutputFits(RunGuest(g, x))
  {
  }

  lemma SubJobFits(x: XGBoostInput, n: nat, i: nat)
    requires InputFits(x) && n >= 1 && x.samples != [] && i < ChunkCount(x, n)
    ensures InputFits(SubJobs(x, n)[i])
  {
    EvenSharesCover(|x.samples|, ChunkCount(x, n));
  }

  lemma SubJobJournal(g: Guest, x: XGBoostInput, n: nat, i: nat)
    requires InputFits(x) && n >= 1 && x.samples != [] && i < ChunkCount(x, n)
    ensures DecodeOutput(GuestJournal(g, EncodeInput(SubJobs(x, n)[i]))) == Some(RunGuest(g, SubJobs(x, n)[i]))
  {
    var y := SubJobs(x, n)[i];
    SubJobFits(x, n, i);
    InputRoundTrip(y);
    RunFits(g, y);
    OutputRoundTrip(RunGuest(g, y));
  }

  lemma {:induction false} DecodesTo(js: seq<seq<Byte>>, os: seq<XGBoostOutput>)
    requires |js| == |os| && forall i :: 0 <= i < |js| ==> DecodeOutput(js[i]) == Some(os[i])
    ensures DecodeEach(js) == Ok(os)
    decreases |js|
  {
    if js != [] {
      DecodesTo(js[..|js| - 1], os[..|os| - 1]);
      assert os[..|os| - 1] + [os[|os| - 1]] == os;
    }
  }

  /** The journals of the sub-jobs decode to the guest's outputs on them. */
  lemma JournalsDecode(g: Guest, x: XGBoostInput, n: nat)
    requires InputFits(x) && n >= 1 && x.samples != []
    ensures DecodeEach(GuestJournals(g, EncodeEach(SubJobs(x, n)))) == Ok(RunEach(g, SubJobs(x, n)))
  {
    var js, os := GuestJournals(g, EncodeEach(SubJobs(x, n))), RunEach(g, SubJobs(x, n));
    forall i | 0 <= i < ChunkCount(x, n) ensures DecodeOutput(js[i]) == Some(os[i]) { SubJobJournal(g, x, n, i); }
    DecodesTo(js, os);
  }

  lemma MergedJournalDecodes(g: Guest, x: XGBoostInput, n: nat)
    requires InputFits(x) && n >= 1 && x.samples != []
    ensures var merged := MergeOutputs(RunEach(g, SubJobs(x, n)));
            DecodeOutput(EncodeOutput(merged)) == Some(merged) && SameButHash(merged, RunGuest(g, x))
  {
    SplitProveMerge(g, x, n);
    RunFits(g, x);
    OutputRoundTrip(MergeOutputs(RunEach(g, SubJobs(x, n))));
  }

  /** End to end over bytes: for every decodable non-empty input and every chunk count, split it, run the guest
      on each part, merge the journals, and the result decodes to the whole input's journal but for the hash. */
  lemma SplitProveMergeBytes(g: Guest, input: seq<Byte>, n: nat)
    requires n >= 1 && DecodeInput(input).Some? && DecodeInput(input).value.samples != []
    ensures var x := DecodeInput(input).value;
            && SplitBytes(input, n).Ok?
            && var merged := MergeBytes(GuestJournals(g, SplitBytes(input, n).value));
            && merged.Ok?
            && DecodeOutput(merged.value).Some?
            && SameButHash(DecodeOutput(merged.value).value, RunGuest(g, x))
  {
    var x := DecodeInput(input).value;
    InputDecodesExactly(input, x);
    JournalsDecode(g, x, n);
    MergedJournalDecodes(g, x, n);
    var parts := EncodeEach(SubJobs(x, n));
    assert SplitBytes(input, n) == Ok(parts);
    assert MergeBytes(GuestJournals(g, parts)) == Ok(EncodeOutput(MergeOutputs(RunEach(g, SubJobs(x, n)))));
  }
}
