/** Rule evaluation over records: the script's conditions and rules, how globs relate to the string
    conditions, and when the script agrees with the guest program it is meant to mirror. */
module RuleEngine {
  import opened Basics
  import opened Glob

  datatype Record = Record(id: Id32, intFields: seq<int>, strFields: seq<seq<Byte>>)

  datatype Condition = Condition(condType: nat, fieldIdx: nat, compareOp: nat, intValue: int, strValue: seq<Byte>)

  datatype Rule = Rule(conditions: seq<Condition>, combine: nat)

  datatype AggDef = AggDef(aggType: nat, fieldIdx: nat, filterRule: nat)

  /** Indexing past the end of a field list raises. */
  datatype Missing = MissingField

  predicate EndsWith(s: seq<Byte>, q: seq<Byte>) {
    |q| <= |s| && s[|s| - |q|..] == q
  }

  predicate Contains(s: seq<Byte>, q: seq<Byte>) {
    exists i :: 0 <= i <= |s| && q <= s[i..]
  }

  /** An unknown comparison operator falls through to false. */
  predicate Compare(op: nat, a: int, b: int) {
    match op
    case 0 => a == b
    case 1 => a != b
    case 2 => a > b
    case 3 => a >= b
    case 4 => a < b
    case 5 => a <= b
    case _ => false
  }

  predicate StringTest(condType: nat, s: seq<Byte>, q: seq<Byte>) {
    match condType
    case 1 => s == q
    case 2 => Contains(s, q)
    case 3 => q <= s
    case 4 => EndsWith(s, q)
    case 5 => GlobScan(q, s)
    case _ => false
  }

  /** The field a condition reads is absent from the record. */
  predicate FieldMissing(c: Condition, rec: Record) {
    if c.condType == 0 then c.fieldIdx >= |rec.intFields|
    else c.condType <= 5 && c.fieldIdx >= |rec.strFields|
  }

  function EvalCondition(c: Condition, rec: Record): (r: Result<bool, Missing>) {
    if FieldMissing(c, rec) then Err(MissingField)
    else if c.condType == 0 then Ok(Compare(c.compareOp, rec.intFields[c.fieldIdx], c.intValue))
    else if c.condType <= 5 then Ok(StringTest(c.condType, rec.strFields[c.fieldIdx], c.strValue))
    else Ok(false)
  }

  /** `all(...)` and `any(...)` stop at the first value that is not neutral, or at the first exception. */
  function EvalAll(conds: seq<Condition>, rec: Record): Result<bool, Missing> {
    if conds == [] then Ok(true)
    else match EvalCondition(conds[0], rec)
      case Ok(true) => EvalAll(conds[1..], rec)
      case other => other
  }

  function EvalAny(conds: seq<Condition>, rec: Record): Result<bool, Missing> {
    if conds == [] then Ok(false)
    else match EvalCondition(conds[0], rec)
      case Ok(false) => EvalAny(conds[1..], rec)
      case other => other
  }

  function EvalRule(rule: Rule, rec: Record): Result<bool, Missing> {
    if rule.conditions == [] then Ok(true)
    else if rule.combine == 0 then EvalAll(rule.conditions, rec)
    else EvalAny(rule.conditions, rec)
  }

  // ----- What a condition says of a record -----

  /** Integer conditions: the six operators, false for any other, and an exception only for a missing field. */
  lemma IntConditionMeans(c: Condition, rec: Record)
    requires c.condType == 0
    ensures c.fieldIdx >= |rec.intFields| <==> EvalCondition(c, rec) == Err(MissingField)
    ensures c.fieldIdx < |rec.intFields| ==>
              var x, v, r := rec.intFields[c.fieldIdx], c.intValue, EvalCondition(c, rec);
              && (c.compareOp == 0 ==> r == Ok(x == v))
              && (c.compareOp == 1 ==> r == Ok(x != v))
              && (c.compareOp == 2 ==> r == Ok(x > v))
              && (c.compareOp == 3 ==> r == Ok(x >= v))
              && (c.compareOp == 4 ==> r == Ok(x < v))
              && (c.compareOp == 5 ==> r == Ok(x <= v))
              && (c.compareOp > 5 ==> r == Ok(false))
  {
  }

  /** String conditions by how the field splits round the value, on every text, globs by their meaning on star-free
      text; any other condition type is false and reads no field. */
  lemma StringConditionMeans(c: Condition, rec: Record)
    requires c.condType > 0
    ensures c.condType > 5 ==> EvalCondition(c, rec) == Ok(false)
    ensures c.condType <= 5 && c.fieldIdx >= |rec.strFields| <==> EvalCondition(c, rec) == Err(MissingField)
    ensures c.condType <= 5 && c.fieldIdx < |rec.strFields| ==>
              var s, q, r := rec.strFields[c.fieldIdx], c.strValue, EvalCondition(c, rec);
              && (c.condType == 1 ==> r == Ok(s == q))
              && (c.condType == 2 ==> r.Ok? && (r.value <==> exists a, b :: s == a + q + b))
              && (c.condType == 3 ==> r.Ok? && (r.value <==> exists b :: s == q + b))
              && (c.condType == 4 ==> r.Ok? && (r.value <==> exists a :: s == a + q))
              && (c.condType == 5 && STAR !in s ==> r == Ok(GlobMatches(q, s)))
  {
    if c.condType <= 5 && c.fieldIdx < |rec.strFields| {
      var s, q := rec.strFields[c.fieldIdx], c.strValue;
      ContainsBySplit(s, q);
      PrefixBySplit(s, q);
      SuffixBySplit(s, q);
      if STAR !in s { ExactForText(s); }
    }
  }

  lemma ContainsBySplit(s: seq<Byte>, q: seq<Byte>)
    ensures Contains(s, q) <==> exists a, b :: s == a + q + b
  {
    if i :| 0 <= i <= |s| && q <= s[i..] {
      assert s == s[..i] + q + s[i + |q|..];
    }
    if a, b :| s == a + q + b {
      assert s[|a|..] == q + b;
    }
  }

  lemma PrefixBySplit(s: seq<Byte>, q: seq<Byte>)
    ensures q <= s <==> exists b :: s == q + b
  {
    if q <= s { assert s == q + s[|q|..]; }
  }

  lemma SuffixBySplit(s: seq<Byte>, q: seq<Byte>)
    ensures EndsWith(s, q) <==> exists a :: s == a + q
  {
    if EndsWith(s, q) { assert s == s[..|s| - |q|] + q; }
  }

  // ----- Globs against the plain string conditions -----

  predicate WildcardFree(q: seq<Byte>) {
    STAR !in q && ANY !in q
  }

  lemma LiteralMatches(p: seq<Byte>, t: seq<Byte>, i: nat, j: nat, q: seq<Byte>)
    requires WildcardFree(q) && i + |q| <= |p| && p[i..i + |q|] == q && j <= |t|
    ensures Matches(p, t, i, j) <==> q <= t[j..] && Matches(p, t, i + |q|, j + |q|)
  {
    assert forall m :: i <= m < i + |q| ==> p[m] == q[m - i];
    SegmentMatches(p, t, i, j, |q|);
    if q <= t[j..] {
      forall m | i <= m < i + |q| ensures Fits(p[m], t[m - i + j]) {
        assert t[m - i + j] == t[j..][m - i] == q[m - i];
      }
    }
    if FitsAt(p, t, i, j, |q|) {
      forall m | 0 <= m < |q| ensures q[m] == t[j..][m] {
        assert Fits(p[m + i], t[(m + i) - i + j]);
      }
    }
  }

  lemma FinalStarMatches(p: seq<Byte>, t: seq<Byte>, j: nat)
    requires |p| > 0 && p[|p| - 1] == STAR && j <= |t|
    ensures Matches(p, t, |p| - 1, j)
  {
    assert Matches(p, t, |p|, |t|);
  }

  /** A star in the pattern skips to some later place in the text. */
  lemma StarStep(p: seq<Byte>, t: seq<Byte>, i: nat, next: nat, j: nat)
    requires i < |p| && p[i] == STAR && next == i + 1 && j <= |t|
    ensures Matches(p, t, i, j) <==> exists k :: j <= k <= |t| && Matches(p, t, next, k)
  {
    if Matches(p, t, i, j) {
      var k :| j <= k <= |t| && Matches(p, t, i + 1, k);
      assert Matches(p, t, next, k);
    }
  }

  lemma SuffixMatches(q: seq<Byte>, t: seq<Byte>)
    requires WildcardFree(q)
    ensures GlobMatches([STAR] + q, t) <==> EndsWith(t, q)
  {
    var p := [STAR] + q;
    StarStep(p, t, 0, 1, 0);
    if GlobMatches(p, t) {
      var k :| 0 <= k <= |t| && Matches(p, t, 1, k);
      LiteralMatches(p, t, 1, k, q);
    }
    if EndsWith(t, q) {
      LiteralMatches(p, t, 1, |t| - |q|, q);
    }
  }

  lemma ContainsMatches(q: seq<Byte>, t: seq<Byte>)
    requires WildcardFree(q)
    ensures GlobMatches([STAR] + q + [STAR], t) <==> Contains(t, q)
  {
    var p := [STAR] + q + [STAR];
    StarStep(p, t, 0, 1, 0);
    if GlobMatches(p, t) {
      var k :| 0 <= k <= |t| && Matches(p, t, 1, k);
      LiteralMatches(p, t, 1, k, q);
    }
    if Contains(t, q) {
      var k :| 0 <= k <= |t| && q <= t[k..];
      FinalStarMatches(p, t, k + |q|);
      LiteralMatches(p, t, 1, k, q);
    }
  }

  /** On star-free text the globs q, q*, *q and *q* of a wildcard-free q are the equality, prefix,
      suffix and contains conditions; a missing field raises for both. */
  lemma GlobConditions(f: nat, op: nat, v: int, q: seq<Byte>, rec: Record)
    requires WildcardFree(q)
    requires f < |rec.strFields| ==> STAR !in rec.strFields[f]
    ensures EvalCondition(Condition(5, f, op, v, q), rec) == EvalCondition(Condition(1, f, op, v, q), rec)
    ensures EvalCondition(Condition(5, f, op, v, q + [STAR]), rec) == EvalCondition(Condition(3, f, op, v, q), rec)
    ensures EvalCondition(Condition(5, f, op, v, [STAR] + q), rec) == EvalCondition(Condition(4, f, op, v, q), rec)
    ensures EvalCondition(Condition(5, f, op, v, [STAR] + q + [STAR]), rec) ==
              EvalCondition(Condition(2, f, op, v, q), rec)
  {
    if f < |rec.strFields| {
      var t := rec.strFields[f];
      ExactForText(t);
      assert GlobMatches(q, t) <==> t == q by {
        LiteralMatches(q, t, 0, 0, q);
        assert t[0..] == t;
      }
      assert GlobMatches(q + [STAR], t) <==> q <= t by {
        var p := q + [STAR];
        if q <= t { FinalStarMatches(p, t, |q|); }
        LiteralMatches(p, t, 0, 0, q);
        assert t[0..] == t;
      }
      SuffixMatches(q, t);
      ContainsMatches(q, t);
    }
  }

  // ----- Rules -----

  /** The neutral value of the combinator: conditions are read while they evaluate to it. */
  predicate Neutral(rule: Rule) {
    rule.combine == 0
  }

  /** Condition i is the first that is not neutral. */
  ghost predicate Decides(rule: Rule, rec: Record, i: nat) {
    && i < |rule.conditions|
    && EvalCondition(rule.conditions[i], rec) != Ok(Neutral(rule))
    && forall j :: 0 <= j < i ==> EvalCondition(rule.conditions[j], rec) == Ok(Neutral(rule))
  }

  lemma {:induction false} DecidedBy(rule: Rule, rec: Record, i: nat)
    requires Decides(rule, rec, i)
    ensures EvalRule(rule, rec) == EvalCondition(rule.conditions[i], rec)
    decreases i
  {
    if i > 0 {
      var rest := rule.(conditions := rule.conditions[1..]);
      assert EvalCondition(rule.conditions[0], rec) == Ok(Neutral(rule));
      assert Decides(rest, rec, i - 1);
      DecidedBy(rest, rec, i - 1);
    }
  }

  lemma {:induction false} Undecided(rule: Rule, rec: Record)
    requires rule.conditions != []
    requires forall j :: 0 <= j < |rule.conditions| ==> EvalCondition(rule.conditions[j], rec) == Ok(Neutral(rule))
    ensures EvalRule(rule, rec) == Ok(Neutral(rule))
    decreases |rule.conditions|
  {
    assert EvalCondition(rule.conditions[0], rec) == Ok(Neutral(rule));
    if |rule.conditions| == 1 {
      assert rule.conditions[1..] == [];
      assert EvalAll(rule.conditions[1..], rec) == Ok(true);
      assert EvalAny(rule.conditions[1..], rec) == Ok(false);
    } else {
      Undecided(rule.(conditions := rule.conditions[1..]), rec);
    }
  }

  lemma {:induction false} FirstDecider(rule: Rule, rec: Record, n: nat) returns (d: Option<nat>)
    requires n <= |rule.conditions|
    ensures d.Some? ==> d.value < n && Decides(rule, rec, d.value)
    ensures d.None? ==> forall j :: 0 <= j < n ==> EvalCondition(rule.conditions[j], rec) == Ok(Neutral(rule))
  {
    d := None;
    if n > 0 {
      d := FirstDecider(rule, rec, n - 1);
      if d.None? && EvalCondition(rule.conditions[n - 1], rec) != Ok(Neutral(rule)) {
        d := Some(n - 1);
      }
    }
  }

  /** The meaning of a rule: no conditions is true, otherwise the first condition that is not neutral
      decides (with its exception, if it raises), and none deciding leaves the neutral value. */
  lemma RuleMeaning(rule: Rule, rec: Record)
    ensures EvalRule(rule, rec) == Ok(true) <==>
            rule.conditions == [] ||
            (if rule.combine == 0
             then forall i: nat :: i < |rule.conditions| ==> EvalCondition(rule.conditions[i], rec) == Ok(true)
             else exists i: nat :: Decides(rule, rec, i) && EvalCondition(rule.conditions[i], rec) == Ok(true))
    ensures EvalRule(rule, rec).Err? <==>
            exists i: nat :: Decides(rule, rec, i) && FieldMissing(rule.conditions[i], rec)
  {
    var d := FirstDecider(rule, rec, |rule.conditions|);
    if d.Some? {
      DecidedBy(rule, rec, d.value);
    } else if rule.conditions != [] {
      Undecided(rule, rec);
    }
    forall i: nat | Decides(rule, rec, i) ensures EvalRule(rule, rec) == EvalCondition(rule.conditions[i], rec) {
      DecidedBy(rule, rec, i);
    }
  }

  // ----- The guest program -----

  /** The guest answers false where the script raises. */
  predicate GuestCondition(c: Condition, rec: Record) {
    EvalCondition(c, rec) == Ok(true)
  }

  /** The guest's rule loop; it answers false for a rule without conditions. */
  predicate GuestRule(rule: Rule, rec: Record) {
    rule.conditions != [] &&
    if rule.combine == 0 then forall c :: c in rule.conditions ==> GuestCondition(c, rec)
    else exists c :: c in rule.conditions && GuestCondition(c, rec)
  }

  /** Evaluation reaches a missing field before the combinator stops. */
  ghost predicate ReachesMissingField(rule: Rule, rec: Record) {
    exists i: nat :: Decides(rule, rec, i) && FieldMissing(rule.conditions[i], rec)
  }

  /** The script mirrors the guest exactly on rules that have conditions and reach no missing field. */
  lemma MirrorsGuest(rule: Rule, rec: Record)
    ensures EvalRule(rule, rec) == Ok(GuestRule(rule, rec)) <==>
            rule.conditions != [] && !ReachesMissingField(rule, rec)
  {
    RuleMeaning(rule, rec);
    var d := FirstDecider(rule, rec, |rule.conditions|);
    if d.Some? {
      DecidedBy(rule, rec, d.value);
      assert rule.conditions[d.value] in rule.conditions;
    } else if rule.conditions != [] {
      Undecided(rule, rec);
    }
  }
}
