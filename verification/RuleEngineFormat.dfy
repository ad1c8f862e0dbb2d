/** The rule-engine input: records, rules and aggregations in the word format. */
module RuleEngineFormat {
  import opened Basics
  import opened WordCodec
  import opened RuleEngine

  datatype RuleEngineInput = RuleEngineInput(records: seq<Record>, rules: seq<Rule>, aggregations: seq<AggDef>)

  const RECORD: Kind := Pair(ID, Pair(Vec(I64), Vec(Vec(U8))))
  const CONDITION: Kind := Pair(U32, Pair(U32, Pair(U32, Pair(I64, Vec(U8)))))
  const RULE: Kind := Pair(Vec(CONDITION), U32)
  const AGG: Kind := Pair(U32, Pair(U32, U32))
  const RULES_INPUT: Kind := Pair(Vec(RECORD), Pair(Vec(RULE), Vec(AGG)))

  function BytesTyped(s: seq<Byte>): (r: Typed)
    ensures r.kind == Vec(U8) && r.Valid()
  {
    VecOf<int>(U8, Byte8, s)
  }

  function RecordTyped(rec: Record): (r: Typed)
    ensures r.kind == RECORD && r.Valid()
  {
    Then(IdTyped(rec.id), Then(VecOf(I64, Int64, rec.intFields), VecOf(Vec(U8), BytesTyped, rec.strFields)))
  }

  function ConditionTyped(c: Condition): (r: Typed)
    ensures r.kind == CONDITION && r.Valid()
  {
    Then(Word32(c.condType), Then(Word32(c.fieldIdx),
        Then(Word32(c.compareOp), Then(Int64(c.intValue), BytesTyped(c.strValue)))))
  }

  function RuleTyped(rule: Rule): (r: Typed)
    ensures r.kind == RULE && r.Valid()
  {
    Then(VecOf(CONDITION, ConditionTyped, rule.conditions), Word32(rule.combine))
  }

  function AggTyped(a: AggDef): (r: Typed)
    ensures r.kind == AGG && r.Valid()
  {
    Then(Word32(a.aggType), Then(Word32(a.fieldIdx), Word32(a.filterRule)))
  }

  function RulesInputTyped(x: RuleEngineInput): (r: Typed)
    ensures r.kind == RULES_INPUT && r.Valid()
  {
    Then(VecOf(RECORD, RecordTyped, x.records),
        Then(VecOf(RULE, RuleTyped, x.rules), VecOf(AGG, AggTyped, x.aggregations)))
  }

  // ----- Reading the records back -----

  function NatOf(v: Value): nat { if v.Num? && 0 <= v.n then v.n else 0 }
  function StringsOf(v: Value): seq<seq<Byte>> { SeqOf(BytesOf, v) }
  function ConditionsOf(v: Value): seq<Condition> { SeqOf(ConditionOf, v) }

  function RecordOf(v: Value): Record {
    match v
    case Both(id, Both(ints, strs)) => Record(IdOf(id), IntsOf(ints), StringsOf(strs))
    case _ => Record(ZERO_ID, [], [])
  }

  function ConditionOf(v: Value): Condition {
    match v
    case Both(t, Both(f, Both(op, Both(n, s)))) => Condition(NatOf(t), NatOf(f), NatOf(op), IntOf(n), BytesOf(s))
    case _ => Condition(0, 0, 0, 0, [])
  }

  function RuleOf(v: Value): Rule {
    match v
    case Both(cs, n) => Rule(ConditionsOf(cs), NatOf(n))
    case _ => Rule([], 0)
  }

  function AggOf(v: Value): AggDef {
    match v
    case Both(t, Both(f, r)) => AggDef(NatOf(t), NatOf(f), NatOf(r))
    case _ => AggDef(0, 0, 0)
  }

  function RecordsOf(v: Value): seq<Record> { SeqOf(RecordOf, v) }
  function RulesOf(v: Value): seq<Rule> { SeqOf(RuleOf, v) }
  function AggsOf(v: Value): seq<AggDef> { SeqOf(AggOf, v) }

  function RulesInputOf(v: Value): RuleEngineInput {
    match v
    case Both(rs, Both(us, ags)) => RuleEngineInput(RecordsOf(rs), RulesOf(us), AggsOf(ags))
    case _ => RuleEngineInput([], [], [])
  }

  lemma RecordBack(rec: Record)
    ensures RecordOf(RecordTyped(rec).value) == rec
  {
    IdBack(rec.id);
    assert IntsOf(VecOf(I64, Int64, rec.intFields).value) == rec.intFields;
    forall i | 0 <= i < |rec.strFields| ensures BytesOf(BytesTyped(rec.strFields[i]).value) == rec.strFields[i] {
    }
    assert StringsOf(VecOf(Vec(U8), BytesTyped, rec.strFields).value) == rec.strFields;
  }

  lemma ConditionBack(c: Condition)
    ensures ConditionOf(ConditionTyped(c).value) == c
  {
    assert BytesOf(BytesTyped(c.strValue).value) == c.strValue;
  }

  lemma RuleBack(rule: Rule)
    ensures RuleOf(RuleTyped(rule).value) == rule
  {
    forall i | 0 <= i < |rule.conditions|
      ensures ConditionOf(ConditionTyped(rule.conditions[i]).value) == rule.conditions[i]
    {
      ConditionBack(rule.conditions[i]);
    }
    assert ConditionsOf(VecOf(CONDITION, ConditionTyped, rule.conditions).value) == rule.conditions;
  }

  lemma RulesInputBack(x: RuleEngineInput)
    ensures RulesInputOf(RulesInputTyped(x).value) == x
  {
    forall i | 0 <= i < |x.records|
      ensures RecordOf(RecordTyped(x.records[i]).value) == x.records[i]
    {
      RecordBack(x.records[i]);
    }
    forall i | 0 <= i < |x.rules| ensures RuleOf(RuleTyped(x.rules[i]).value) == x.rules[i] { RuleBack(x.rules[i]); }
    assert RecordsOf(VecOf(RECORD, RecordTyped, x.records).value) == x.records;
    assert RulesOf(VecOf(RULE, RuleTyped, x.rules).value) == x.rules;
    assert AggsOf(VecOf(AGG, AggTyped, x.aggregations).value) == x.aggregations;
  }

  // ----- Whatever was decoded is the value of the record read from it -----

  lemma BytesRead(v: Value)
    requires HasKind(Vec(U8), v) && InRange(Vec(U8), v)
    ensures BytesTyped(BytesOf(v)).value == v
  {
    forall i | 0 <= i < |v.items| ensures Byte8(ByteOf(v.items[i])).value == v.items[i] {
      assert HasKind(U8, v.items[i]) && InRange(U8, v.items[i]);
    }
    assert BytesTyped(BytesOf(v)).value.items == v.items;
  }

  lemma IntsRead(v: Value)
    requires HasKind(Vec(I64), v)
    ensures VecOf(I64, Int64, IntsOf(v)).value == v
  {
    forall i | 0 <= i < |v.items| ensures Int64(IntOf(v.items[i])).value == v.items[i] {
      assert HasKind(I64, v.items[i]);
    }
    assert VecOf(I64, Int64, IntsOf(v)).value.items == v.items;
  }

  lemma StringsRead(v: Value)
    requires HasKind(Vec(Vec(U8)), v) && InRange(Vec(Vec(U8)), v)
    ensures VecOf(Vec(U8), BytesTyped, StringsOf(v)).value == v
  {
    forall i | 0 <= i < |v.items| ensures BytesTyped(BytesOf(v.items[i])).value == v.items[i] { BytesRead(v.items[i]); }
    assert VecOf(Vec(U8), BytesTyped, StringsOf(v)).value.items == v.items;
  }

  lemma RecordRead(v: Value)
    requires HasKind(RECORD, v) && InRange(RECORD, v)
    ensures RecordTyped(RecordOf(v)).value == v
  {
    PairParts(RECORD, v);
    PairParts(RECORD.second, v.snd);
    IdRead(v.fst);
    IntsRead(v.snd.fst);
    StringsRead(v.snd.snd);
  }

  lemma ConditionRead(v: Value)
    requires HasKind(CONDITION, v) && InRange(CONDITION, v)
    ensures ConditionTyped(ConditionOf(v)).value == v
  {
    var k := CONDITION;
    PairParts(k, v);
    PairParts(k.second, v.snd);
    PairParts(k.second.second, v.snd.snd);
    PairParts(k.second.second.second, v.snd.snd.snd);
    BytesRead(v.snd.snd.snd.snd);
  }

  lemma ConditionsRead(v: Value)
    requires HasKind(Vec(CONDITION), v) && InRange(Vec(CONDITION), v)
    ensures VecOf(CONDITION, ConditionTyped, ConditionsOf(v)).value == v
  {
    forall i | 0 <= i < |v.items|
      ensures ConditionTyped(ConditionOf(v.items[i])).value == v.items[i]
    {
      ConditionRead(v.items[i]);
    }
    assert VecOf(CONDITION, ConditionTyped, ConditionsOf(v)).value.items == v.items;
  }

  lemma RuleRead(v: Value)
    requires HasKind(RULE, v) && InRange(RULE, v)
    ensures RuleTyped(RuleOf(v)).value == v
  {
    PairParts(RULE, v);
    ConditionsRead(v.fst);
  }

  lemma AggRead(v: Value)
    requires HasKind(AGG, v) && InRange(AGG, v)
    ensures AggTyped(AggOf(v)).value == v
  {
    PairParts(AGG, v);
    PairParts(AGG.second, v.snd);
  }

  lemma RecordsRead(v: Value)
    requires HasKind(Vec(RECORD), v) && InRange(Vec(RECORD), v)
    ensures VecOf(RECORD, RecordTyped, RecordsOf(v)).value == v
  {
    forall i | 0 <= i < |v.items|
      ensures RecordTyped(RecordOf(v.items[i])).value == v.items[i]
    {
      RecordRead(v.items[i]);
    }
    assert VecOf(RECORD, RecordTyped, RecordsOf(v)).value.items == v.items;
  }

  lemma RulesRead(v: Value)
    requires HasKind(Vec(RULE), v) && InRange(Vec(RULE), v)
    ensures VecOf(RULE, RuleTyped, RulesOf(v)).value == v
  {
    forall i | 0 <= i < |v.items| ensures RuleTyped(RuleOf(v.items[i])).value == v.items[i] { RuleRead(v.items[i]); }
    assert VecOf(RULE, RuleTyped, RulesOf(v)).value.items == v.items;
  }

  lemma AggsRead(v: Value)
    requires HasKind(Vec(AGG), v) && InRange(Vec(AGG), v)
    ensures VecOf(AGG, AggTyped, AggsOf(v)).value == v
  {
    forall i | 0 <= i < |v.items| ensures AggTyped(AggOf(v.items[i])).value == v.items[i] { AggRead(v.items[i]); }
    assert VecOf(AGG, AggTyped, AggsOf(v)).value.items == v.items;
  }

  lemma RulesInputRead(v: Value)
    requires HasKind(RULES_INPUT, v) && InRange(RULES_INPUT, v)
    ensures RulesInputTyped(RulesInputOf(v)).value == v
  {
    PairParts(RULES_INPUT, v);
    PairParts(RULES_INPUT.second, v.snd);
    RecordsRead(v.fst);
    RulesRead(v.snd.fst);
    AggsRead(v.snd.snd);
  }

  // ----- Serialized form -----

  function EncodeRulesInput(x: RuleEngineInput): seq<Byte> { RulesInputTyped(x).Bytes() }

  function DecodeRulesInput(b: seq<Byte>): Option<(RuleEngineInput, seq<Byte>)> {
    match Decode(RULES_INPUT, b)
    case None => None
    case Some((v, rest)) => Some((RulesInputOf(v), rest))
  }

  /** Bytes decode to an input and a rest exactly when they are its encoding followed by that rest and every number
      and length fits its field. */
  lemma RulesInputDecodesExactly(b: seq<Byte>, x: RuleEngineInput, s: seq<Byte>)
    ensures DecodeRulesInput(b) == Some((x, s)) <==> RulesInputTyped(x).Fits() && b == EncodeRulesInput(x) + s
  {
    if DecodeRulesInput(b) == Some((x, s)) {
      RulesInputRead(Decode(RULES_INPUT, b).value.0);
      EncodeDecode(RULES_INPUT, b);
    } else if RulesInputTyped(x).Fits() {
      DecodeEncode(RULES_INPUT, RulesInputTyped(x).value, s);
      RulesInputBack(x);
    }
  }

  lemma RulesInputAligned(x: RuleEngineInput)
    ensures |EncodeRulesInput(x)| % 4 == 0
  {
    var _ := EncodeAligned(RULES_INPUT, RulesInputTyped(x).value);
  }
}
