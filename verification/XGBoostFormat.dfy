/** The XGBoost input and output records and their word-format layouts. */
module XGBoostFormat {
  import opened Basics
  import opened WordCodec

  /** f64 fields are held as the integers of their bits. */
  datatype TreeNode = TreeNode(isLeaf: int, featureIdx: int, threshold: int, leftChild: int, rightChild: int,
    value: int)
  datatype Tree = Tree(nodes: seq<TreeNode>)
  datatype XGBoostModel = XGBoostModel(numFeatures: int, numClasses: int, baseScore: int, trees: seq<Tree>)
  datatype Sample = Sample(id: Id32, features: seq<int>)
  datatype XGBoostInput = XGBoostInput(model: XGBoostModel, samples: seq<Sample>, threshold: int)
  datatype Prediction = Prediction(id: Id32, score: int, flagged: int)
  datatype XGBoostOutput = XGBoostOutput(totalSamples: int, predictions: seq<Prediction>, flaggedCount: int,
    flaggedIds: seq<Id32>, inputHash: Id32)

  // ----- Layouts -----

  const NODE: Kind := Pair(U32, Pair(U32, Pair(U64, Pair(U32, Pair(U32, U64)))))
  const TREE: Kind := Vec(NODE)
  const MODEL: Kind := Pair(U32, Pair(U32, Pair(U64, Vec(TREE))))
  const SAMPLE: Kind := Pair(ID, Vec(U64))
  const INPUT: Kind := Pair(MODEL, Pair(Vec(SAMPLE), U64))
  const PREDICTION: Kind := Pair(ID, Pair(U64, U32))
  const OUTPUT_TAIL: Kind := Pair(U32, Pair(Vec(ID), ID))
  const OUTPUT: Kind := Pair(U32, Pair(Vec(PREDICTION), OUTPUT_TAIL))

  function NodeTyped(t: TreeNode): (r: Typed)
    ensures r.kind == NODE && r.Valid()
  {
    Then(Word32(t.isLeaf), Then(Word32(t.featureIdx), Then(Float64(t.threshold),
      Then(Word32(t.leftChild), Then(Word32(t.rightChild), Float64(t.value))))))
  }

  function TreeTyped(t: Tree): (r: Typed)
    ensures r.kind == TREE && r.Valid()
  {
    VecOf(NODE, NodeTyped, t.nodes)
  }

  function ModelTyped(m: XGBoostModel): (r: Typed)
    ensures r.kind == MODEL && r.Valid()
  {
    Then(Word32(m.numFeatures), Then(Word32(m.numClasses), Then(Float64(m.baseScore), VecOf(TREE, TreeTyped, m.trees))))
  }

  function SampleTyped(s: Sample): (r: Typed)
    ensures r.kind == SAMPLE && r.Valid()
  {
    Then(IdTyped(s.id), VecOf(U64, Float64, s.features))
  }

  function InputTyped(x: XGBoostInput): (r: Typed)
    ensures r.kind == INPUT && r.Valid()
    ensures r.Fits() <==> InputFits(x)
  {
    Then(ModelTyped(x.model), Then(VecOf(SAMPLE, SampleTyped, x.samples), Float64(x.threshold)))
  }

  function PredictionTyped(p: Prediction): (r: Typed)
    ensures r.kind == PREDICTION && r.Valid()
    ensures r.Fits() <==> 0 <= p.score < TWO64 && 0 <= p.flagged < TWO32
  {
    Then(IdTyped(p.id), Then(Float64(p.score), Word32(p.flagged)))
  }

  function OutputTyped(o: XGBoostOutput): (r: Typed)
    ensures r.kind == OUTPUT && r.Valid()
    ensures r.Fits() <==> OutputFits(o)
  {
    Then(Word32(o.totalSamples), Then(VecOf(PREDICTION, PredictionTyped, o.predictions),
      Then(Word32(o.flaggedCount), Then(VecOf(ID, IdTyped, o.flaggedIds), IdTyped(o.inputHash)))))
  }

  /** The numbers have their declared widths and the vectors fewer than 2^32 items. */
  ghost predicate InputFits(x: XGBoostInput) {
    && ModelTyped(x.model).Fits()
    && |x.samples| < TWO32
    && (forall i :: 0 <= i < |x.samples| ==> SampleTyped(x.samples[i]).Fits())
    && 0 <= x.threshold < TWO64
  }

  ghost predicate OutputFits(o: XGBoostOutput) {
    && 0 <= o.totalSamples < TWO32
    && |o.predictions| < TWO32
    && (forall i :: 0 <= i < |o.predictions| ==>
        0 <= o.predictions[i].score < TWO64 && 0 <= o.predictions[i].flagged < TWO32)
    && 0 <= o.flaggedCount < TWO32
    && |o.flaggedIds| < TWO32
  }

  // ----- Reading the records back -----

  function NodeOf(v: Value): TreeNode {
    match v
    case Both(Num(a), Both(Num(b), Both(Num(c), Both(Num(d), Both(Num(e), Num(f)))))) => TreeNode(a, b, c, d, e, f)
    case _ => TreeNode(0, 0, 0, 0, 0, 0)
  }

  function TreeOf(v: Value): Tree {
    Tree(SeqOf(NodeOf, v))
  }

  function TreesOf(v: Value): seq<Tree> { SeqOf(TreeOf, v) }
  function SamplesOf(v: Value): seq<Sample> { SeqOf(SampleOf, v) }
  function PredictionsOf(v: Value): seq<Prediction> { SeqOf(PredictionOf, v) }
  function IdsOf(v: Value): seq<Id32> { SeqOf(IdOf, v) }

  function ModelOf(v: Value): XGBoostModel {
    match v
    case Both(Num(a), Both(Num(b), Both(Num(c), ts))) => XGBoostModel(a, b, c, TreesOf(ts))
    case _ => XGBoostModel(0, 0, 0, [])
  }

  function SampleOf(v: Value): Sample {
    match v
    case Both(id, fs) => Sample(IdOf(id), IntsOf(fs))
    case _ => Sample(ZERO_ID, [])
  }

  function InputOf(v: Value): XGBoostInput {
    match v
    case Both(m, Both(ss, Num(t))) => XGBoostInput(ModelOf(m), SamplesOf(ss), t)
    case _ => XGBoostInput(XGBoostModel(0, 0, 0, []), [], 0)
  }

  function PredictionOf(v: Value): Prediction {
    match v
    case Both(id, Both(Num(s), Num(f))) => Prediction(IdOf(id), s, f)
    case _ => Prediction(ZERO_ID, 0, 0)
  }

  function OutputOf(v: Value): XGBoostOutput {
    match v
    case Both(Num(n), Both(ps, Both(Num(c), Both(ids, h)))) =>
      XGBoostOutput(n, PredictionsOf(ps), c, IdsOf(ids), IdOf(h))
    case _ => XGBoostOutput(0, [], 0, [], ZERO_ID)
  }

  lemma TreeBack(t: Tree)
    ensures TreeOf(TreeTyped(t).value) == t
  {
    assert TreeOf(TreeTyped(t).value).nodes == t.nodes;
  }

  lemma ModelBack(m: XGBoostModel)
    ensures ModelOf(ModelTyped(m).value) == m
  {
    forall i | 0 <= i < |m.trees| ensures TreeOf(TreeTyped(m.trees[i]).value) == m.trees[i] { TreeBack(m.trees[i]); }
    assert SeqOf(TreeOf, VecOf(TREE, TreeTyped, m.trees).value) == m.trees;
  }

  lemma SampleBack(s: Sample)
    ensures SampleOf(SampleTyped(s).value) == s
  {
    IdBack(s.id);
    assert SeqOf(IntOf, VecOf(U64, Float64, s.features).value) == s.features;
  }

  lemma InputBack(x: XGBoostInput)
    ensures InputOf(InputTyped(x).value) == x
  {
    ModelBack(x.model);
    forall i | 0 <= i < |x.samples| ensures SampleOf(SampleTyped(x.samples[i]).value) == x.samples[i] {
      SampleBack(x.samples[i]);
    }
    assert SeqOf(SampleOf, VecOf(SAMPLE, SampleTyped, x.samples).value) == x.samples;
  }

  lemma OutputBack(o: XGBoostOutput)
    ensures OutputOf(OutputTyped(o).value) == o
  {
    forall i | 0 <= i < |o.predictions|
      ensures PredictionOf(PredictionTyped(o.predictions[i]).value) == o.predictions[i]
    {
      IdBack(o.predictions[i].id);
    }
    forall i | 0 <= i < |o.flaggedIds| ensures IdOf(IdTyped(o.flaggedIds[i]).value) == o.flaggedIds[i] {
      IdBack(o.flaggedIds[i]);
    }
    IdBack(o.inputHash);
    assert SeqOf(PredictionOf, VecOf(PREDICTION, PredictionTyped, o.predictions).value) == o.predictions;
    assert SeqOf(IdOf, VecOf(ID, IdTyped, o.flaggedIds).value) == o.flaggedIds;
  }

  // ----- Whatever was decoded is the value of the record read from it -----

  lemma NodeRead(v: Value)
    requires HasKind(NODE, v) && InRange(NODE, v)
    ensures NodeTyped(NodeOf(v)).value == v
  {
    var k := NODE;
    PairParts(k, v);
    PairParts(k.second, v.snd);
    PairParts(k.second.second, v.snd.snd);
    PairParts(k.second.second.second, v.snd.snd.snd);
    PairParts(k.second.second.second.second, v.snd.snd.snd.snd);
  }

  lemma TreeRead(v: Value)
    requires HasKind(TREE, v) && InRange(TREE, v)
    ensures TreeTyped(TreeOf(v)).value == v
  {
    forall i | 0 <= i < |v.items| ensures NodeTyped(NodeOf(v.items[i])).value == v.items[i] { NodeRead(v.items[i]); }
    assert TreeTyped(TreeOf(v)).value.items == v.items;
  }

  lemma TreesRead(v: Value)
    requires HasKind(Vec(TREE), v) && InRange(Vec(TREE), v)
    ensures VecOf(TREE, TreeTyped, TreesOf(v)).value == v
  {
    forall i | 0 <= i < |v.items| ensures TreeTyped(TreeOf(v.items[i])).value == v.items[i] { TreeRead(v.items[i]); }
    assert VecOf(TREE, TreeTyped, TreesOf(v)).value.items == v.items;
  }

  lemma ModelRead(v: Value)
    requires HasKind(MODEL, v) && InRange(MODEL, v)
    ensures ModelTyped(ModelOf(v)).value == v
  {
    var k := MODEL;
    PairParts(k, v);
    PairParts(k.second, v.snd);
    PairParts(k.second.second, v.snd.snd);
    TreesRead(v.snd.snd.snd);
  }

  lemma SampleRead(v: Value)
    requires HasKind(SAMPLE, v) && InRange(SAMPLE, v)
    ensures SampleTyped(SampleOf(v)).value == v
  {
    PairParts(SAMPLE, v);
    IdRead(v.fst);
    var fs := v.snd;
    forall i | 0 <= i < |fs.items| ensures Float64(IntOf(fs.items[i])).value == fs.items[i] {
      assert HasKind(U64, fs.items[i]);
    }
    assert VecOf(U64, Float64, IntsOf(fs)).value.items == fs.items;
  }

  lemma SamplesRead(v: Value)
    requires HasKind(Vec(SAMPLE), v) && InRange(Vec(SAMPLE), v)
    ensures VecOf(SAMPLE, SampleTyped, SamplesOf(v)).value == v
  {
    forall i | 0 <= i < |v.items|
      ensures SampleTyped(SampleOf(v.items[i])).value == v.items[i]
    {
      SampleRead(v.items[i]);
    }
    assert VecOf(SAMPLE, SampleTyped, SamplesOf(v)).value.items == v.items;
  }

  lemma InputRead(v: Value)
    requires HasKind(INPUT, v) && InRange(INPUT, v)
    ensures InputTyped(InputOf(v)).value == v
  {
    PairParts(INPUT, v);
    PairParts(INPUT.second, v.snd);
    ModelRead(v.fst);
    SamplesRead(v.snd.fst);
  }

  lemma PredictionRead(v: Value)
    requires HasKind(PREDICTION, v) && InRange(PREDICTION, v)
    ensures PredictionTyped(PredictionOf(v)).value == v
  {
    PairParts(PREDICTION, v);
    PairParts(PREDICTION.second, v.snd);
    IdRead(v.fst);
  }

  lemma PredictionsRead(v: Value)
    requires HasKind(Vec(PREDICTION), v) && InRange(Vec(PREDICTION), v)
    ensures VecOf(PREDICTION, PredictionTyped, PredictionsOf(v)).value == v
  {
    forall i | 0 <= i < |v.items|
      ensures PredictionTyped(PredictionOf(v.items[i])).value == v.items[i]
    {
      PredictionRead(v.items[i]);
    }
    assert VecOf(PREDICTION, PredictionTyped, PredictionsOf(v)).value.items == v.items;
  }

  lemma IdsRead(v: Value)
    requires HasKind(Vec(ID), v) && InRange(Vec(ID), v)
    ensures VecOf(ID, IdTyped, IdsOf(v)).value == v
  {
    forall i | 0 <= i < |v.items| ensures IdTyped(IdOf(v.items[i])).value == v.items[i] { IdRead(v.items[i]); }
    assert VecOf(ID, IdTyped, IdsOf(v)).value.items == v.items;
  }

  function OutputTailTyped(flaggedCount: int, ids: seq<Id32>, hash: Id32): (r: Typed)
    ensures r.kind == OUTPUT_TAIL && r.Valid()
  {
    Then(Word32(flaggedCount), Then(VecOf(ID, IdTyped, ids), IdTyped(hash)))
  }

  lemma OutputTailRead(v: Value)
    requires HasKind(OUTPUT_TAIL, v) && InRange(OUTPUT_TAIL, v)
    ensures v.Both? && v.fst.Num? && v.snd.Both?
    ensures OutputTailTyped(v.fst.n, IdsOf(v.snd.fst), IdOf(v.snd.snd)).value == v
  {
    PairParts(OUTPUT_TAIL, v);
    PairParts(OUTPUT_TAIL.second, v.snd);
    IdsRead(v.snd.fst);
    IdRead(v.snd.snd);
  }

  lemma OutputRead(v: Value)
    requires HasKind(OUTPUT, v) && InRange(OUTPUT, v)
    ensures OutputTyped(OutputOf(v)).value == v
  {
    PairParts(OUTPUT, v);
    PairParts(OUTPUT.second, v.snd);
    PredictionsRead(v.snd.fst);
    OutputTailRead(v.snd.snd);
  }

  // ----- Serialized form -----

  function EncodeInput(x: XGBoostInput): seq<Byte> { InputTyped(x).Bytes() }

  function EncodeOutput(o: XGBoostOutput): seq<Byte> { OutputTyped(o).Bytes() }

  /** The journal's fields, in the order in which they are written. */
  lemma OutputLayout(o: XGBoostOutput)
    ensures EncodeOutput(o) ==
            WriteU32(o.totalSamples) + VecOf(PREDICTION, PredictionTyped, o.predictions).Bytes() +
            WriteU32(o.flaggedCount) + VecOf(ID, IdTyped, o.flaggedIds).Bytes() + IdTyped(o.inputHash).Bytes()
  {
    var ids, h := VecOf(ID, IdTyped, o.flaggedIds), IdTyped(o.inputHash);
    var ps, n, c := VecOf(PREDICTION, PredictionTyped, o.predictions).Bytes(), WriteU32(o.totalSamples),
        WriteU32(o.flaggedCount);
    assert EncodeOutput(o) == n + (ps + (c + (ids.Bytes() + h.Bytes())));
  }

  lemma PredictionLayout(p: Prediction)
    ensures PredictionTyped(p).Bytes() == IdTyped(p.id).Bytes() + WriteU64(p.score) + WriteU32(p.flagged)
  {
    assert PredictionTyped(p).Bytes() == IdTyped(p.id).Bytes() + (WriteU64(p.score) + WriteU32(p.flagged));
  }

  /** Input that is not whole words is refused before anything is read; bytes after the record are ignored. */
  function DecodeInput(b: seq<Byte>): Option<XGBoostInput> {
    if |b| % 4 != 0 then None
    else match Decode(INPUT, b)
      case None => None
      case Some((v, _)) => Some(InputOf(v))
  }

  function DecodeOutput(b: seq<Byte>): Option<XGBoostOutput> {
    if |b| % 4 != 0 then None
    else match Decode(OUTPUT, b)
      case None => None
      case Some((v, _)) => Some(OutputOf(v))
  }

  /** The bytes that decode to an input are exactly its encoding followed by any whole words, if it fits the format. */
  lemma InputDecodesExactly(b: seq<Byte>, x: XGBoostInput)
    ensures DecodeInput(b) == Some(x) <==> InputFits(x) && |b| % 4 == 0 && EncodeInput(x) <= b
  {
    var v := InputTyped(x).value;
    if DecodeInput(b) == Some(x) {
      InputRead(Decode(INPUT, b).value.0);
      EncodeDecode(INPUT, b);
    } else if InputFits(x) && EncodeInput(x) <= b {
      var rest := b[|EncodeInput(x)|..];
      assert b == EncodeInput(x) + rest;
      DecodeEncode(INPUT, v, rest);
      InputBack(x);
    }
  }

  /** The same for the journal. */
  lemma OutputDecodesExactly(b: seq<Byte>, o: XGBoostOutput)
    ensures DecodeOutput(b) == Some(o) <==> OutputFits(o) && |b| % 4 == 0 && EncodeOutput(o) <= b
  {
    var v := OutputTyped(o).value;
    if DecodeOutput(b) == Some(o) {
      OutputRead(Decode(OUTPUT, b).value.0);
      EncodeDecode(OUTPUT, b);
    } else if OutputFits(o) && EncodeOutput(o) <= b {
      var rest := b[|EncodeOutput(o)|..];
      assert b == EncodeOutput(o) + rest;
      DecodeEncode(OUTPUT, v, rest);
      OutputBack(o);
    }
  }

  lemma WholeWords(k: Kind, v: Value)
    requires HasKind(k, v)
    ensures |Encode(k, v)| % 4 == 0
  {
    var words := EncodeAligned(k, v);
  }

  /** An input comes back from its own bytes exactly when it fits the format, and then they are whole words. */
  lemma InputRoundTrip(x: XGBoostInput)
    ensures |EncodeInput(x)| % 4 == 0
    ensures DecodeInput(EncodeInput(x)) == Some(x) <==> InputFits(x)
  {
    var b := EncodeInput(x);
    WholeWords(INPUT, InputTyped(x).value);
    InputDecodesExactly(b, x);
  }

  lemma OutputRoundTrip(o: XGBoostOutput)
    ensures |EncodeOutput(o)| % 4 == 0
    ensures DecodeOutput(EncodeOutput(o)) == Some(o) <==> OutputFits(o)
  {
    var b := EncodeOutput(o);
    WholeWords(OUTPUT, OutputTyped(o).value);
    OutputDecodesExactly(b, o);
  }
}
