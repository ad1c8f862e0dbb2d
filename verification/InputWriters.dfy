/** The script's writers: loops that append one encoded item at a time. Each produces exactly the bytes of
    the word format, so what is proved of the format holds of the generated inputs. */
module InputWriters {
  import opened Basics
  import opened WordCodec
  import RE = RuleEngine
  import RF = RuleEngineFormat
  import X = XGBoostFormat

  datatype BadLength = BadLength(got: nat)

  /** The first i items of a list, after `head`. */
  ghost function Written(head: seq<Byte>, e: Kind, items: seq<Value>, i: nat): seq<Byte>
    requires i <= |items| && AllHaveKind(e, items)
  {
    head + EncodeItems(e, items[..i])
  }

  /** One more item, appended to the bytes of those before it. */
  lemma OneWritten(head: seq<Byte>, e: Kind, items: seq<Value>, i: nat)
    requires i < |items| && AllHaveKind(e, items)
    ensures Written(head, e, items, i + 1) == Written(head, e, items, i) + Encode(e, items[i])
  {
    assert items[..i + 1] == items[..i] + [items[i]];
    EncodeItemsSnoc(e, items[..i], items[i]);
  }

  lemma AllWritten(head: seq<Byte>, e: Kind, items: seq<Value>)
    requires AllHaveKind(e, items)
    ensures Written(head, e, items, |items|) == head + EncodeItems(e, items)
  {
    assert items[..|items|] == items;
  }

  /** A vector of which the first i elements have been written, each as f shapes it. */
  ghost function VecWritten<T>(e: Kind, f: T -> Typed, xs: seq<T>, i: nat): seq<Byte>
    requires i <= |xs| && forall k :: 0 <= k < |xs| ==> f(xs[k]).Valid() && f(xs[k]).kind == e
  {
    Written(WriteU32(|xs|), e, Items(e, f, xs), i)
  }

  lemma OneVecWritten<T>(e: Kind, f: T -> Typed, xs: seq<T>, i: nat)
    requires i < |xs| && forall k :: 0 <= k < |xs| ==> f(xs[k]).Valid() && f(xs[k]).kind == e
    ensures VecWritten(e, f, xs, i + 1) == VecWritten(e, f, xs, i) + f(xs[i]).Bytes()
  {
    OneWritten(WriteU32(|xs|), e, Items(e, f, xs), i);
  }

  lemma WholeVecWritten<T>(e: Kind, f: T -> Typed, xs: seq<T>)
    requires forall k :: 0 <= k < |xs| ==> f(xs[k]).Valid() && f(xs[k]).kind == e
    ensures VecWritten(e, f, xs, 0) == WriteU32(|xs|)
    ensures VecWritten(e, f, xs, |xs|) == VecOf(e, f, xs).Bytes()
  {
    assert Items(e, f, xs)[..0] == [];
    AllWritten(WriteU32(|xs|), e, Items(e, f, xs));
  }

  /** A list of any other length fails the assertion. */
  method WriteByteArray32(data: seq<Byte>) returns (r: Result<seq<Byte>, BadLength>)
    ensures r == if |data| == 32 then Ok(IdTyped(data).Bytes()) else Err(BadLength(|data|))
  {
    if |data| != 32 { return Err(BadLength(|data|)); }
    var result: seq<Byte> := [];
    ghost var items := IdTyped(data).value.items;
    for i := 0 to |data|
      invariant result == Written([], U8, items, i)
    {
      OneWritten([], U8, items, i);
      result := result + WriteU8(data[i]);
    }
    AllWritten([], U8, items);
    assert result == EncodeItems(U8, items) == Encode(ID, IdTyped(data).value);
    return Ok(result);
  }

  method WriteVecU8(data: seq<Byte>) returns (result: seq<Byte>)
    ensures result == RF.BytesTyped(data).Bytes()
  {
    result := WriteU32(|data|);
    WholeVecWritten<int>(U8, Byte8, data);
    for i := 0 to |data|
      invariant result == VecWritten<int>(U8, Byte8, data, i)
    {
      OneVecWritten<int>(U8, Byte8, data, i);
      result := result + WriteU8(data[i]);
    }
  }

  method WriteVecF64(bits: seq<int>) returns (result: seq<Byte>)
    ensures result == VecOf(U64, Float64, bits).Bytes()
  {
    result := WriteU32(|bits|);
    WholeVecWritten(U64, Float64, bits);
    for i := 0 to |bits|
      invariant result == VecWritten(U64, Float64, bits, i)
    {
      OneVecWritten(U64, Float64, bits, i);
      result := result + WriteU64(bits[i]);
    }
  }

  method WriteVecI64(values: seq<int>) returns (result: seq<Byte>)
    ensures result == VecOf(I64, Int64, values).Bytes()
  {
    result := WriteU32(|values|);
    WholeVecWritten(I64, Int64, values);
    for i := 0 to |values|
      invariant result == VecWritten(I64, Int64, values, i)
    {
      OneVecWritten(I64, Int64, values, i);
      result := result + WriteI64(values[i]);
    }
  }

  method WriteVecVecU8(strs: seq<seq<Byte>>) returns (result: seq<Byte>)
    ensures result == VecOf(Vec(U8), RF.BytesTyped, strs).Bytes()
  {
    result := WriteU32(|strs|);
    WholeVecWritten(Vec(U8), RF.BytesTyped, strs);
    for i := 0 to |strs|
      invariant result == VecWritten(Vec(U8), RF.BytesTyped, strs, i)
    {
      OneVecWritten(Vec(U8), RF.BytesTyped, strs, i);
      var b := WriteVecU8(strs[i]);
      result := result + b;
    }
  }

  // ----- Rule-engine input -----

  method WriteRecord(rec: RE.Record) returns (buf: seq<Byte>)
    ensures buf == RF.RecordTyped(rec).Bytes()
    ensures buf == IdTyped(rec.id).Bytes() + VecOf(I64, Int64, rec.intFields).Bytes() +
                   VecOf(Vec(U8), RF.BytesTyped, rec.strFields).Bytes()
  {
    var id := WriteByteArray32(rec.id);
    var ints := WriteVecI64(rec.intFields);
    var strs := WriteVecVecU8(rec.strFields);
    buf := id.value + ints;
    buf := buf + strs;
    assert buf == id.value + (ints + strs);
  }

  method WriteRule(rule: RE.Rule) returns (buf: seq<Byte>)
    ensures buf == RF.RuleTyped(rule).Bytes()
    ensures buf == VecOf(RF.CONDITION, RF.ConditionTyped, rule.conditions).Bytes() + WriteU32(rule.combine)
  {
    buf := WriteConditions(rule.conditions);
    buf := buf + WriteU32(rule.combine);
  }

  method WriteConditions(conds: seq<RE.Condition>) returns (buf: seq<Byte>)
    ensures buf == VecOf(RF.CONDITION, RF.ConditionTyped, conds).Bytes()
  {
    buf := WriteU32(|conds|);
    WholeVecWritten(RF.CONDITION, RF.ConditionTyped, conds);
    for i := 0 to |conds|
      invariant buf == VecWritten(RF.CONDITION, RF.ConditionTyped, conds, i)
    {
      OneVecWritten(RF.CONDITION, RF.ConditionTyped, conds, i);
      var c := WriteCondition(conds[i]);
      buf := buf + c;
    }
  }

  method WriteCondition(c: RE.Condition) returns (buf: seq<Byte>)
    ensures buf == RF.ConditionTyped(c).Bytes()
    ensures buf == WriteU32(c.condType) + WriteU32(c.fieldIdx) + WriteU32(c.compareOp) + WriteI64(c.intValue) +
                   RF.BytesTyped(c.strValue).Bytes()
  {
    var s := WriteVecU8(c.strValue);
    var t, f, op, n := WriteU32(c.condType), WriteU32(c.fieldIdx), WriteU32(c.compareOp), WriteI64(c.intValue);
    buf := t + f + op + n + s;
    assert buf == t + (f + (op + (n + s)));
  }

  method WriteAgg(a: RE.AggDef) returns (buf: seq<Byte>)
    ensures buf == RF.AggTyped(a).Bytes()
    ensures buf == WriteU32(a.aggType) + WriteU32(a.fieldIdx) + WriteU32(a.filterRule)
  {
    var t, f, r := WriteU32(a.aggType), WriteU32(a.fieldIdx), WriteU32(a.filterRule);
    buf := t + f + r;
    assert buf == t + (f + r);
  }

  method WriteRecords(recs: seq<RE.Record>) returns (buf: seq<Byte>)
    ensures buf == VecOf(RF.RECORD, RF.RecordTyped, recs).Bytes()
  {
    buf := WriteU32(|recs|);
    WholeVecWritten(RF.RECORD, RF.RecordTyped, recs);
    for i := 0 to |recs|
      invariant buf == VecWritten(RF.RECORD, RF.RecordTyped, recs, i)
    {
      OneVecWritten(RF.RECORD, RF.RecordTyped, recs, i);
      var b := WriteRecord(recs[i]);
      buf := buf + b;
    }
  }

  method WriteRules(rules: seq<RE.Rule>) returns (buf: seq<Byte>)
    ensures buf == VecOf(RF.RULE, RF.RuleTyped, rules).Bytes()
  {
    buf := WriteU32(|rules|);
    WholeVecWritten(RF.RULE, RF.RuleTyped, rules);
    for i := 0 to |rules|
      invariant buf == VecWritten(RF.RULE, RF.RuleTyped, rules, i)
    {
      OneVecWritten(RF.RULE, RF.RuleTyped, rules, i);
      var b := WriteRule(rules[i]);
      buf := buf + b;
    }
  }

  method WriteAggs(aggs: seq<RE.AggDef>) returns (buf: seq<Byte>)
    ensures buf == VecOf(RF.AGG, RF.AggTyped, aggs).Bytes()
  {
    buf := WriteU32(|aggs|);
    WholeVecWritten(RF.AGG, RF.AggTyped, aggs);
    for i := 0 to |aggs|
      invariant buf == VecWritten(RF.AGG, RF.AggTyped, aggs, i)
    {
      OneVecWritten(RF.AGG, RF.AggTyped, aggs, i);
      var b := WriteAgg(aggs[i]);
      buf := buf + b;
    }
  }

  method WriteRulesInput(x: RF.RuleEngineInput) returns (buf: seq<Byte>)
    ensures buf == RF.EncodeRulesInput(x)
    ensures buf == VecOf(RF.RECORD, RF.RecordTyped, x.records).Bytes() + VecOf(RF.RULE, RF.RuleTyped, x.rules).Bytes() +
                   VecOf(RF.AGG, RF.AggTyped, x.aggregations).Bytes()
  {
    var rs := WriteRecords(x.records);
    var us := WriteRules(x.rules);
    var ags := WriteAggs(x.aggregations);
    buf := rs + us + ags;
    assert buf == rs + (us + ags);
  }

  // ----- XGBoost input -----

  method WriteNode(t: X.TreeNode) returns (buf: seq<Byte>)
    ensures buf == X.NodeTyped(t).Bytes()
    ensures buf == WriteU32(t.isLeaf) + WriteU32(t.featureIdx) + WriteU64(t.threshold) +
                   WriteU32(t.leftChild) + WriteU32(t.rightChild) + WriteU64(t.value)
  {
    var a, b, c, d, e, f := WriteU32(t.isLeaf), WriteU32(t.featureIdx), WriteU64(t.threshold),
                            WriteU32(t.leftChild), WriteU32(t.rightChild), WriteU64(t.value);
    buf := a + b + c + d + e + f;
    assert buf == a + (b + (c + (d + (e + f))));
  }

  method WriteTree(t: X.Tree) returns (buf: seq<Byte>)
    ensures buf == X.TreeTyped(t).Bytes()
    ensures buf == VecOf(X.NODE, X.NodeTyped, t.nodes).Bytes()
  {
    buf := WriteU32(|t.nodes|);
    WholeVecWritten(X.NODE, X.NodeTyped, t.nodes);
    for i := 0 to |t.nodes|
      invariant buf == VecWritten(X.NODE, X.NodeTyped, t.nodes, i)
    {
      OneVecWritten(X.NODE, X.NodeTyped, t.nodes, i);
      var b := WriteNode(t.nodes[i]);
      buf := buf + b;
    }
  }

  method WriteTrees(ts: seq<X.Tree>) returns (buf: seq<Byte>)
    ensures buf == VecOf(X.TREE, X.TreeTyped, ts).Bytes()
  {
    buf := WriteU32(|ts|);
    WholeVecWritten(X.TREE, X.TreeTyped, ts);
    for i := 0 to |ts|
      invariant buf == VecWritten(X.TREE, X.TreeTyped, ts, i)
    {
      OneVecWritten(X.TREE, X.TreeTyped, ts, i);
      var b := WriteTree(ts[i]);
      buf := buf + b;
    }
  }

  method WriteSample(s: X.Sample) returns (buf: seq<Byte>)
    ensures buf == X.SampleTyped(s).Bytes()
    ensures buf == IdTyped(s.id).Bytes() + VecOf(U64, Float64, s.features).Bytes()
  {
    var id := WriteByteArray32(s.id);
    var fs := WriteVecF64(s.features);
    buf := id.value + fs;
  }

  method WriteSamples(ss: seq<X.Sample>) returns (buf: seq<Byte>)
    ensures buf == VecOf(X.SAMPLE, X.SampleTyped, ss).Bytes()
  {
    buf := WriteU32(|ss|);
    WholeVecWritten(X.SAMPLE, X.SampleTyped, ss);
    for i := 0 to |ss|
      invariant buf == VecWritten(X.SAMPLE, X.SampleTyped, ss, i)
    {
      OneVecWritten(X.SAMPLE, X.SampleTyped, ss, i);
      var b := WriteSample(ss[i]);
      buf := buf + b;
    }
  }

  method WriteXGBoostInput(x: X.XGBoostInput) returns (buf: seq<Byte>)
    ensures buf == X.EncodeInput(x)
    ensures buf == WriteU32(x.model.numFeatures) + WriteU32(x.model.numClasses) + WriteU64(x.model.baseScore) +
                   VecOf(X.TREE, X.TreeTyped, x.model.trees).Bytes() + VecOf(X.SAMPLE, X.SampleTyped,
                       x.samples).Bytes() +
                   WriteU64(x.threshold)
  {
    var a, b, c := WriteU32(x.model.numFeatures), WriteU32(x.model.numClasses), WriteU64(x.model.baseScore);
    var ts := WriteTrees(x.model.trees);
    var ss := WriteSamples(x.samples);
    var th := WriteU64(x.threshold);
    buf := a + b + c + ts + ss + th;
    assert buf == (a + (b + (c + ts))) + (ss + th);
  }
}
